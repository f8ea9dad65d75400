/** Dedup, ingest, the batchers and the durable seen_events table together
    (`internal/crawler/dedup.go`, `ingest.go`), over whole runs with crashes at any
    step: the relay never takes an event for stored before it is. */
module SeenSafety {
  import opened Events
  import opened Classifier
  import opened DeliveryLog
  import opened Dedup

  const WRITE_QUEUE_CAP: nat := 64

  datatype State = State(
    logs: map<Tier, Log>,         // the tier batchers
    announced: map<Tier, nat>,    // how much of each log OnFlushed has been told of
    cache: Cache,                 // Dedup in memory
    writeQ: seq<seq<string>>,     // batches on their way to seen_events
    seen: set<string>,            // rows of seen_events
    ingests: map<nat, Event>)     // ingestStep between CheckAndMark and its end

  datatype Action =
    | BeginIngest(worker: nat, evt: Event)
    | EndIngest(worker: nat, idOk: bool, sigOk: bool, room: bool)
    | ClientSave(evt: Event)
    | Deliver(tier: Tier, n: nat)
    | Announce(tier: Tier, n: nat)
    | Persist(ok: bool)
    | Prune(kept: set<string>)
    | CrashAndWarm(ids: seq<string>)

  const NO_LOGS: map<Tier, Log> := map[Permanent := Log([], 0), Archive := Log([], 0), Social := Log([], 0)]

  const INIT: State :=
    State(NO_LOGS, map[Permanent := 0, Archive := 0, Social := 0], EMPTY_CACHE, [], {}, map[])

  function EventIds(events: seq<Event>): seq<string> {
    seq(|events|, i requires 0 <= i < |events| => events[i].id)
  }

  function UnmarkId(c: Cache, id: string): Cache {
    var k := ParseEventId(id);
    if k.Some? then c.Remove(k.value) else c
  }

  predicate CheckFails(c: Cache, id: string) {
    var k := ParseEventId(id);
    k.Some? && c.Has(k.value)
  }

  function AcceptInto(s: State, evt: Event, t: Tier): State
    requires t in s.logs
  {
    s.(logs := s.logs[t := s.logs[t].Accept(evt)])
  }

  /** The end of `ingestStep` for an event that won `CheckAndMark`. */
  function Finish(s: State, evt: Event, idOk: bool, sigOk: bool, room: bool, override: Override): State {
    var t := ClassifyWithOverride(evt.kind, override);
    if Classify(evt.kind) == Drop || !idOk || !sigOk then s.(cache := UnmarkId(s.cache, evt.id))
    else if t !in s.logs then s                                        // not ErrBatchFull: the mark stays
    else if !room then s.(cache := UnmarkId(s.cache, evt.id))          // ErrBatchFull
    else AcceptInto(s, evt, t)
  }

  datatype SaveOutcome = Saved | BatchFull | OtherError

  /** `ingestStep` run without interruption; `Step` splits it in two so that other
      workers can come in between. */
  method IngestStep(d: SeenCache, evt: Event, idOk: bool, sigOk: bool, save: SaveOutcome)
    returns (enqueued: bool, badId: bool)
    requires d.Valid()
    modifies d
    ensures d.Valid()
    ensures enqueued <==>
      !CheckFails(old(d.View()), evt.id) && Classify(evt.kind) != Drop && idOk && sigOk && save == Saved
    ensures badId <==> !CheckFails(old(d.View()), evt.id) && Classify(evt.kind) != Drop && !idOk
    ensures var marked := MarkAll(old(d.View()), [evt.id], d.memCap);
      d.View() ==
        if CheckFails(old(d.View()), evt.id) then old(d.View())
        else if Classify(evt.kind) != Drop && idOk && sigOk && save != BatchFull then marked
        else UnmarkId(marked, evt.id)
  {
    enqueued, badId := false, false;
    assert [evt.id][..0] == [] && MarkAll(d.View(), [], d.memCap) == d.View();
    var unseen := d.CheckAndMark(evt.id);
    if !unseen {
      return;
    }
    if Classify(evt.kind) == Drop {
      d.Unmark(evt.id);
      return;
    }
    if !idOk {
      d.Unmark(evt.id);
      badId := true;
      return;
    }
    if !sigOk {
      d.Unmark(evt.id);
      return;
    }
    if save == BatchFull {
      d.Unmark(evt.id);
    }
    enqueued := save == Saved;
  }

  /** One step; an action that cannot happen changes nothing. */
  ghost function Step(s: State, a: Action, override: Override, memCap: nat): State {
    match a
    case BeginIngest(w, evt) =>
      if w in s.ingests || CheckFails(s.cache, evt.id) then s
      else s.(cache := MarkAll(s.cache, [evt.id], memCap), ingests := s.ingests[w := evt])
    case EndIngest(w, idOk, sigOk, room) =>
      if w !in s.ingests then s
      else Finish(s, s.ingests[w], idOk, sigOk, room, override).(ingests := s.ingests - {w})
    case ClientSave(evt) =>
      var t := ClassifyWithOverride(evt.kind, override);
      if t in s.logs then AcceptInto(s, evt, t) else s
    case Deliver(t, n) => if t in s.logs then s.(logs := s.logs[t := s.logs[t].Deliver(n)]) else s
    case Announce(t, n) =>
      if t in s.logs && t in s.announced && s.announced[t] + n <= s.logs[t].delivered <= |s.logs[t].accepted| then
        var ids := EventIds(s.logs[t].accepted[s.announced[t]..s.announced[t] + n]);
        s.(announced := s.announced[t := s.announced[t] + n],
           cache := MarkAll(s.cache, ids, memCap),
           writeQ := if |s.writeQ| < WRITE_QUEUE_CAP then s.writeQ + [ids] else s.writeQ)
      else s
    case Persist(ok) =>
      if s.writeQ == [] then s
      else s.(writeQ := s.writeQ[1..], seen := if ok then s.seen + set id | id in s.writeQ[0] else s.seen)
    case Prune(kept) => s.(seen := s.seen * kept)
    case CrashAndWarm(ids) =>
      if |ids| <= memCap && (forall id :: id in ids ==> id in s.seen)
        && (forall t :: t in s.logs ==> s.logs[t].Valid()) then
        State(map t | t in s.logs :: s.logs[t].Crash(), map t | t in s.logs :: s.logs[t].delivered,
              LoadAll(EMPTY_CACHE, ids), [], s.seen, map[])
      else s
  }

  ghost function Run(actions: seq<Action>, override: Override, memCap: nat): State
    decreases |actions|
  {
    if actions == [] then INIT
    else Step(Run(actions[..|actions| - 1], override, memCap), actions[|actions| - 1], override, memCap)
  }

  // ---- the invariant ----

  ghost predicate LogsInv(s: State) {
    && (forall t :: t in s.logs <==> t in ACTIVE_TIERS)
    && (forall t :: t in s.logs ==> s.logs[t].Valid())
  }

  /** The event with this id is in a tier table. */
  ghost predicate IsStored(s: State, id: string) {
    exists t, i ::
      t in s.logs && 0 <= i < s.logs[t].delivered && i < |s.logs[t].accepted| && s.logs[t].accepted[i].id == id
  }

  /** A stored event has id `x`, which the cache cannot tell from `id`. */
  ghost predicate IsStoredAs(s: State, x: string, id: string) {
    IsStored(s, x) && ParseEventId(x) == ParseEventId(id)
  }

  /** Durable rows, and those on their way, are of stored events only. */
  ghost predicate DurableInv(s: State) {
    && (forall id :: id in s.seen ==> IsStored(s, id))
    && (forall b, id :: b in s.writeQ && id in b ==> IsStored(s, id))
  }

  /** A cached key has an event that is stored, in a batcher, or in the hands of an ingest. */
  ghost predicate Backed(s: State, k: Key) {
    || (exists t, i :: t in s.logs && 0 <= i < |s.logs[t].accepted| && ParseEventId(s.logs[t].accepted[i].id) == Some(k))
    || (exists w :: w in s.ingests && ParseEventId(s.ingests[w].id) == Some(k))
  }

  ghost predicate CacheInv(s: State) {
    forall k :: s.cache.Has(k) ==> Backed(s, k)
  }

  /** The override drops no kind that the default scope stores. */
  ghost predicate KeepsScope(override: Override) {
    forall k :: Classify(k) != Drop ==> ClassifyWithOverride(k, override) != Drop
  }

  // ---- the cache only holds what it was given ----

  lemma {:induction false} MarkAllAdds(c: Cache, ids: seq<string>, memCap: nat, k: Key)
    requires MarkAll(c, ids, memCap).Has(k)
    ensures c.Has(k) || exists i :: 0 <= i < |ids| && ParseEventId(ids[i]) == Some(k)
    decreases |ids|
  {
    if ids != [] {
      var p := ids[..|ids| - 1];
      if MarkAll(c, p, memCap).Has(k) {
        MarkAllAdds(c, p, memCap, k);
        if !c.Has(k) {
          var i :| 0 <= i < |p| && ParseEventId(p[i]) == Some(k);
          assert ParseEventId(ids[i]) == Some(k);
        }
      } else {
        assert ParseEventId(ids[|ids| - 1]) == Some(k);
      }
    }
  }

  lemma {:induction false} LoadAllAdds(c: Cache, ids: seq<string>, k: Key)
    requires LoadAll(c, ids).Has(k)
    ensures c.Has(k) || exists i :: 0 <= i < |ids| && ParseEventId(ids[i]) == Some(k)
    decreases |ids|
  {
    if ids != [] {
      var p := ids[..|ids| - 1];
      if LoadAll(c, p).Has(k) {
        LoadAllAdds(c, p, k);
        if !c.Has(k) {
          var i :| 0 <= i < |p| && ParseEventId(p[i]) == Some(k);
          assert ParseEventId(ids[i]) == Some(k);
        }
      } else {
        assert ParseEventId(ids[|ids| - 1]) == Some(k);
      }
    }
  }

  // ---- logs ----

  /** Each log keeps what it accepted and has delivered. */
  ghost predicate LogsGrow(s: State, s1: State) {
    forall t :: t in s.logs ==> t in s1.logs && Extends(s.logs[t], s1.logs[t])
  }

  lemma StoredGrows(s: State, s1: State, id: string)
    requires LogsGrow(s, s1) && IsStored(s, id)
    ensures IsStored(s1, id)
  {
  }

  lemma BackedGrows(s: State, s1: State, k: Key)
    requires LogsGrow(s, s1) && Backed(s, k)
    requires forall w :: w in s.ingests && ParseEventId(s.ingests[w].id) == Some(k) ==>
      w in s1.ingests && s1.ingests[w] == s.ingests[w]
    ensures Backed(s1, k)
  {
  }

  lemma OneLogGrows(s: State, s1: State, t: Tier, l: Log)
    requires LogsInv(s) && t in s.logs && s1.logs == s.logs[t := l] && l.Valid() && Extends(s.logs[t], l)
    ensures LogsInv(s1) && LogsGrow(s, s1)
  {
  }

  lemma SameLogs(s: State, s1: State)
    requires LogsInv(s) && s1.logs == s.logs
    ensures LogsInv(s1) && LogsGrow(s, s1)
  {
  }

  lemma LogsStep(s: State, a: Action, override: Override, memCap: nat)
    requires LogsInv(s)
    ensures LogsInv(Step(s, a, override, memCap))
    ensures !a.CrashAndWarm? ==> LogsGrow(s, Step(s, a, override, memCap))
  {
    var s1 := Step(s, a, override, memCap);
    if s1.logs == s.logs {
      SameLogs(s, s1);
      return;
    }
    match a {
      case EndIngest(w, idOk, sigOk, room) =>
        var t := ClassifyWithOverride(s.ingests[w].kind, override);
        OneLogGrows(s, s1, t, s.logs[t].Accept(s.ingests[w]));
      case ClientSave(evt) =>
        var t := ClassifyWithOverride(evt.kind, override);
        OneLogGrows(s, s1, t, s.logs[t].Accept(evt));
      case Deliver(t, n) =>
        OneLogGrows(s, s1, t, s.logs[t].Deliver(n));
      case CrashAndWarm(ids) =>
        assert forall t :: t in s.logs ==> s1.logs[t].Valid();
      case _ =>
    }
  }

  lemma CrashKeepsStored(s: State, s1: State, id: string)
    requires LogsInv(s) && s1.logs == map t | t in s.logs :: s.logs[t].Crash()
    requires IsStored(s, id)
    ensures IsStored(s1, id)
  {
    var t, i :| t in s.logs && 0 <= i < s.logs[t].delivered && i < |s.logs[t].accepted| && s.logs[t].accepted[i].id == id;
    assert s1.logs[t].accepted[i].id == id;
  }

  // ---- durable rows ----

  lemma AnnouncedAreStored(s: State, t: Tier, from: nat, n: nat)
    requires t in s.logs && from + n <= s.logs[t].delivered <= |s.logs[t].accepted|
    ensures forall id :: id in EventIds(s.logs[t].accepted[from..from + n]) ==> IsStored(s, id)
  {
  }

  lemma DurableStep(s: State, a: Action, override: Override, memCap: nat)
    requires LogsInv(s) && DurableInv(s)
    ensures DurableInv(Step(s, a, override, memCap))
  {
    var s1 := Step(s, a, override, memCap);
    forall id | IsStored(s, id)
      ensures IsStored(s1, id)
    {
      StoredPersists(s, a, override, memCap, id);
    }
    if a.Announce? && s1 != s {
      AnnouncedAreStored(s, a.tier, s.announced[a.tier], a.n);
    }
  }

  lemma StoredPersists(s: State, a: Action, override: Override, memCap: nat, id: string)
    requires LogsInv(s) && IsStored(s, id)
    ensures IsStored(Step(s, a, override, memCap), id)
  {
    var s1 := Step(s, a, override, memCap);
    LogsStep(s, a, override, memCap);
    if a.CrashAndWarm? && s1 != s {
      CrashKeepsStored(s, s1, id);
    } else {
      StoredGrows(s, s1, id);
    }
  }

  /** In every reachable state, whatever crashed and whenever, every durable
      seen_events id is the id of a stored event. */
  lemma {:induction false} SeenRowsAreStored(actions: seq<Action>, override: Override, memCap: nat)
    ensures LogsInv(Run(actions, override, memCap)) && DurableInv(Run(actions, override, memCap))
    decreases |actions|
  {
    if actions != [] {
      var s := Run(actions[..|actions| - 1], override, memCap);
      SeenRowsAreStored(actions[..|actions| - 1], override, memCap);
      LogsStep(s, actions[|actions| - 1], override, memCap);
      DurableStep(s, actions[|actions| - 1], override, memCap);
    }
  }

  lemma WarmedIsStored(s: State, ids: seq<string>, override: Override, memCap: nat, id: string)
    requires LogsInv(s) && DurableInv(s) && |ids| <= memCap && forall x :: x in ids ==> x in s.seen
    requires CheckFails(Step(s, CrashAndWarm(ids), override, memCap).cache, id)
    ensures exists x :: x in ids && IsStoredAs(Step(s, CrashAndWarm(ids), override, memCap), x, id)
  {
    var s1 := Step(s, CrashAndWarm(ids), override, memCap);
    var k := ParseEventId(id).value;
    LoadAllAdds(EMPTY_CACHE, ids, k);
    var i :| 0 <= i < |ids| && ParseEventId(ids[i]) == Some(k);
    assert ids[i] in ids;
    CrashKeepsStored(s, s1, ids[i]);
  }

  lemma RunSnoc(actions: seq<Action>, a: Action, override: Override, memCap: nat)
    ensures Run(actions + [a], override, memCap) == Step(Run(actions, override, memCap), a, override, memCap)
  {
  }

  /** After a restart and `Warm`, an id reported as seen is the id of a stored
      event; for a canonical id among canonical ones, of the event itself. */
  lemma SeenAfterRestartIsStored(actions: seq<Action>, ids: seq<string>, override: Override, memCap: nat, id: string)
    requires var s := Run(actions, override, memCap);
      |ids| <= memCap && forall x :: x in ids ==> x in s.seen
    requires CheckFails(Run(actions + [CrashAndWarm(ids)], override, memCap).cache, id)
    ensures exists x :: x in ids && IsStoredAs(Run(actions + [CrashAndWarm(ids)], override, memCap), x, id)
    ensures IsCanonical(id) && (forall x :: x in ids ==> IsCanonical(x)) ==>
      IsStored(Run(actions + [CrashAndWarm(ids)], override, memCap), id)
  {
    RunSnoc(actions, CrashAndWarm(ids), override, memCap);
    SeenRowsAreStored(actions, override, memCap);
    WarmedIsStored(Run(actions, override, memCap), ids, override, memCap, id);
    var x :| x in ids && IsStoredAs(Run(actions + [CrashAndWarm(ids)], override, memCap), x, id);
    if IsCanonical(id) && IsCanonical(x) {
      ParseEventIdInjective(id, x);
    }
  }

  // ---- the other direction ----

  lemma {:induction false} LoadAllHas(c: Cache, ids: seq<string>, id: string)
    requires id in ids && ParseEventId(id).Some?
    ensures LoadAll(c, ids).Has(ParseEventId(id).value)
    decreases |ids|
  {
    var p := ids[..|ids| - 1];
    if id != ids[|ids| - 1] {
      assert ids == p + [ids[|ids| - 1]];
      LoadAllHas(c, p, id);
    }
  }

  /** `n` batches reach the table. */
  ghost function PersistMany(s: State, n: nat, override: Override, memCap: nat): State
    decreases n
  {
    if n == 0 then s else PersistMany(Step(s, Persist(true), override, memCap), n - 1, override, memCap)
  }

  lemma {:induction false} PersistManyWrites(s: State, n: nat, override: Override, memCap: nat, b: nat, id: string)
    requires n == |s.writeQ| && (id in s.seen || (b < n && id in s.writeQ[b]))
    ensures id in PersistMany(s, n, override, memCap).seen
    ensures PersistMany(s, n, override, memCap).logs == s.logs
    decreases n
  {
    if n > 0 {
      PersistManyWrites(Step(s, Persist(true), override, memCap), n - 1, override, memCap, if b > 0 then b - 1 else 0, id);
    }
  }

  /** What is delivered becomes seen for good: once its batch is announced and
      written, a restart that loads the id reports it as seen. */
  lemma AnnouncedIsSeenAfterRestart(s: State, t: Tier, n: nat, id: string, ids: seq<string>, override: Override, memCap: nat)
    requires LogsInv(s) && t in s.logs && t in s.announced && |s.writeQ| < 64
    requires s.announced[t] + n <= s.logs[t].delivered
    requires id in EventIds(s.logs[t].accepted[s.announced[t]..s.announced[t] + n]) && ParseEventId(id).Some?
    requires var s1 := Step(s, Announce(t, n), override, memCap);
      id in ids && |ids| <= memCap && forall x :: x in ids ==> x in PersistMany(s1, |s1.writeQ|, override, memCap).seen
    ensures var s1 := Step(s, Announce(t, n), override, memCap);
      var s2 := PersistMany(s1, |s1.writeQ|, override, memCap);
      id in s2.seen && CheckFails(Step(s2, CrashAndWarm(ids), override, memCap).cache, id)
  {
    var s1 := Step(s, Announce(t, n), override, memCap);
    PersistManyWrites(s1, |s1.writeQ|, override, memCap, |s.writeQ|, id);
    LoadAllHas(EMPTY_CACHE, ids, id);
  }

  /** The next event that a batcher announces is seen at once; a client's event goes
      to its batcher without a mark; pruning removes rows and nothing else. */
  lemma OtherSteps(s: State, t: Tier, evt: Event, kept: set<string>, override: Override, memCap: nat)
    requires LogsInv(s) && t in s.logs && t in s.announced && s.announced[t] < s.logs[t].delivered
    ensures var id := s.logs[t].accepted[s.announced[t]].id;
      ParseEventId(id).Some? ==> CheckFails(Step(s, Announce(t, 1), override, memCap).cache, id)
    ensures var u := ClassifyWithOverride(evt.kind, override);
      u in s.logs ==>
        Step(s, ClientSave(evt), override, memCap).logs == s.logs[u := s.logs[u].(accepted := s.logs[u].accepted + [evt])]
    ensures Step(s, Prune(kept), override, memCap) == s.(seen := s.seen * kept)
  {
    var id, n := s.logs[t].accepted[s.announced[t]].id, s.announced[t];
    var ids := EventIds(s.logs[t].accepted[n..n + 1]);
    assert ids == [id] && ids[..0] == [] && MarkAll(s.cache, [], memCap) == s.cache;
  }

  /** An event that is new, in scope, verified and has room reaches its batcher and
      is seen; while it is, no one else takes it. */
  lemma IngestTakesEffect(s: State, worker: nat, evt: Event, override: Override, memCap: nat)
    requires worker !in s.ingests && !CheckFails(s.cache, evt.id) && ParseEventId(evt.id).Some?
    requires evt.kind in IN_SCOPE_KINDS && ClassifyWithOverride(evt.kind, override) in s.logs
    ensures var t := ClassifyWithOverride(evt.kind, override);
      var s1 := Step(s, BeginIngest(worker, evt), override, memCap);
      var s2 := Step(s1, EndIngest(worker, true, true, true), override, memCap);
      && s2.logs == s.logs[t := s.logs[t].(accepted := s.logs[t].accepted + [evt])]
      && CheckFails(s1.cache, evt.id) && CheckFails(s2.cache, evt.id)
      && forall other :: Step(s1, BeginIngest(other, evt), override, memCap) == s1
  {
    assert [evt.id][..0] == [] && MarkAll(s.cache, [], memCap) == s.cache;
  }

  // ---- the cache within a run ----

  lemma BeginKeeps(s: State, w: nat, evt: Event, override: Override, memCap: nat)
    requires CacheInv(s)
    ensures CacheInv(Step(s, BeginIngest(w, evt), override, memCap))
  {
    var s1 := Step(s, BeginIngest(w, evt), override, memCap);
    if s1 != s {
      forall k | s1.cache.Has(k)
        ensures Backed(s1, k)
      {
        MarkAllAdds(s.cache, [evt.id], memCap, k);
        if s.cache.Has(k) {
          BackedGrows(s, s1, k);
        } else {
          assert w in s1.ingests && ParseEventId(s1.ingests[w].id) == Some(k);
        }
      }
    }
  }

  lemma EndKeeps(s: State, w: nat, idOk: bool, sigOk: bool, room: bool, override: Override, memCap: nat)
    requires LogsInv(s) && CacheInv(s) && KeepsScope(override)
    ensures CacheInv(Step(s, EndIngest(w, idOk, sigOk, room), override, memCap))
  {
    var a := EndIngest(w, idOk, sigOk, room);
    var s1 := Step(s, a, override, memCap);
    LogsStep(s, a, override, memCap);
    if w in s.ingests {
      var evt := s.ingests[w];
      var t := ClassifyWithOverride(evt.kind, override);
      forall k | s1.cache.Has(k)
        ensures Backed(s1, k)
      {
        if ParseEventId(evt.id) != Some(k) {
          BackedGrows(s, s1, k);
        } else {
          assert s1.logs[t].accepted == s.logs[t].accepted + [evt];
          var i := |s.logs[t].accepted|;
          assert t in s1.logs && ParseEventId(s1.logs[t].accepted[i].id) == Some(k);
        }
      }
    }
  }

  lemma AnnounceKeeps(s: State, t: Tier, n: nat, override: Override, memCap: nat)
    requires CacheInv(s)
    ensures CacheInv(Step(s, Announce(t, n), override, memCap))
  {
    var s1 := Step(s, Announce(t, n), override, memCap);
    if s1 != s {
      var from := s.announced[t];
      var ids := EventIds(s.logs[t].accepted[from..from + n]);
      forall k | s1.cache.Has(k)
        ensures Backed(s1, k)
      {
        MarkAllAdds(s.cache, ids, memCap, k);
        if s.cache.Has(k) {
          BackedGrows(s, s1, k);
        } else {
          var j :| 0 <= j < |ids| && ParseEventId(ids[j]) == Some(k);
          assert ParseEventId(s1.logs[t].accepted[from + j].id) == Some(k);
        }
      }
    }
  }

  lemma WarmKeeps(s: State, ids: seq<string>, override: Override, memCap: nat)
    requires LogsInv(s) && DurableInv(s) && CacheInv(s)
    ensures CacheInv(Step(s, CrashAndWarm(ids), override, memCap))
  {
    var s1 := Step(s, CrashAndWarm(ids), override, memCap);
    if s1 != s {
      forall k | s1.cache.Has(k)
        ensures Backed(s1, k)
      {
        LoadAllAdds(EMPTY_CACHE, ids, k);
        var i :| 0 <= i < |ids| && ParseEventId(ids[i]) == Some(k);
        assert ids[i] in ids;
        CrashKeepsStored(s, s1, ids[i]);
        var t, j :| t in s1.logs && 0 <= j < s1.logs[t].delivered && j < |s1.logs[t].accepted|
          && s1.logs[t].accepted[j].id == ids[i];
      }
    }
  }

  lemma CacheStep(s: State, a: Action, override: Override, memCap: nat)
    requires LogsInv(s) && DurableInv(s) && CacheInv(s) && KeepsScope(override)
    ensures CacheInv(Step(s, a, override, memCap))
  {
    match a {
      case BeginIngest(w, evt) => BeginKeeps(s, w, evt, override, memCap);
      case EndIngest(w, idOk, sigOk, room) => EndKeeps(s, w, idOk, sigOk, room, override, memCap);
      case Announce(t, n) => AnnounceKeeps(s, t, n, override, memCap);
      case CrashAndWarm(ids) => WarmKeeps(s, ids, override, memCap);
      case _ =>
        var s1 := Step(s, a, override, memCap);
        LogsStep(s, a, override, memCap);
        forall k | s1.cache.Has(k)
          ensures Backed(s1, k)
        {
          BackedGrows(s, s1, k);
        }
    }
  }

  /** With an override that keeps the scope, in every reachable state an id reported
      as seen belongs to an event that is stored, in a batcher, or being ingested. */
  lemma {:induction false} SeenIsBacked(actions: seq<Action>, override: Override, memCap: nat)
    requires KeepsScope(override)
    ensures CacheInv(Run(actions, override, memCap))
    decreases |actions|
  {
    if actions != [] {
      var p := actions[..|actions| - 1];
      SeenIsBacked(p, override, memCap);
      SeenRowsAreStored(p, override, memCap);
      CacheStep(Run(p, override, memCap), actions[|actions| - 1], override, memCap);
    }
  }

  function Zeros(n: nat): string {
    if n == 0 then "" else "00" + Zeros(n - 1)
  }

  lemma {:induction false} ZerosParse(n: nat)
    ensures |Zeros(n)| == 2 * n && HexDecode(Zeros(n)).Some?
  {
    if n > 0 {
      ZerosParse(n - 1);
      assert Zeros(n)[2..] == Zeros(n - 1);
    }
  }

  lemma MarkThenDrop(evt: Event, override: Override, memCap: nat)
    requires Classify(evt.kind) != Drop && ClassifyWithOverride(evt.kind, override) == Drop && memCap >= 1
    requires ParseEventId(evt.id).Some?
    ensures var s1 := Step(INIT, BeginIngest(0, evt), override, memCap);
      !CacheInv(Step(s1, EndIngest(0, true, true, true), override, memCap))
  {
    var key := ParseEventId(evt.id).value;
    var s1 := Step(INIT, BeginIngest(0, evt), override, memCap);
    assert [evt.id][..0] == [];
    assert MarkAll(EMPTY_CACHE, [], memCap) == EMPTY_CACHE;
    assert s1.cache == EMPTY_CACHE.Insert(key, memCap) && s1.cache.Has(key);
    var s2 := Step(s1, EndIngest(0, true, true, true), override, memCap);
    assert s2.logs == NO_LOGS && s2.ingests == map[] && s2.cache.Has(key);
    assert !Backed(s2, key);
  }

  /** Otherwise an event of a kind the override drops leaves its mark behind:
      `ingestStep` unmarks only when the batch is full. */
  lemma DroppedKindLeaksMark(k: int, override: Override, memCap: nat) returns (actions: seq<Action>)
    requires Classify(k) != Drop && ClassifyWithOverride(k, override) == Drop && memCap >= 1
    ensures !CacheInv(Run(actions, override, memCap))
  {
    var evt := Event(Zeros(32), "", 0, k, [], "", "");
    ZerosParse(32);
    var begin, end := BeginIngest(0, evt), EndIngest(0, true, true, true);
    actions := [begin] + [end];
    RunSnoc([begin], end, override, memCap);
    RunSnoc([], begin, override, memCap);
    assert [] + [begin] == [begin];
    MarkThenDrop(evt, override, memCap);
  }

  /** "Seen implies accounted for" holds in all runs exactly when the override
      drops no kind of the default scope. */
  lemma SeenIsBackedIff(override: Override, memCap: nat)
    requires memCap >= 1
    ensures KeepsScope(override) <==> forall actions :: CacheInv(Run(actions, override, memCap))
  {
    if KeepsScope(override) {
      forall actions
        ensures CacheInv(Run(actions, override, memCap))
      {
        SeenIsBacked(actions, override, memCap);
      }
    } else {
      var k :| Classify(k) != Drop && ClassifyWithOverride(k, override) == Drop;
      var actions := DroppedKindLeaksMark(k, override, memCap);
    }
  }
}
