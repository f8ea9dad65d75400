/** The replaceable-event protocol of `internal/store/store.go` as a state machine:
    any number of `ReplaceEvent` calls, crawler saves, flushes, tombstone traffic,
    NIP-09 deletes and crashes, interleaved in any way. */
module Replace {
  import opened Events
  import opened Classifier
  import opened QuerySpec
  import opened FilterSql
  import opened Sql
  import opened Query
  import opened DeliveryLog

  const PROBE_LIMIT: nat := 50

  // ---- the probe and what is decided from it ----

  predicate SameSlot(a: Event, b: Event) {
    a.pubkey == b.pubkey && a.kind == b.kind
  }

  /** Best-first and cut at 50, duplicates allowed: what the probe may return
      when `live` are the unhidden versions of the author's kind. */
  ghost predicate IsProbe(rows: seq<Event>, live: set<Event>) {
    && (forall r :: r in rows ==> r in live)
    && (forall g :: g in live ==> g in rows || (|rows| == PROBE_LIMIT && forall r :: r in rows ==> Better(r, g)))
  }

  /** The probe's SQL returns such a list. */
  lemma ProbeQueryIsProbe(found: seq<Event>)
    requires IdsDetermine(Elems(found))
    ensures IsProbe(Trim(OrderBy(true, found), PROBE_LIMIT), Elems(found))
  {
    var sorted := OrderBy(true, found);
    OrderByInOrder(true, found);
    SameElems(sorted, found);
    assert forall e :: e in sorted <==> e in Elems(sorted);
    var rows := Trim(sorted, PROBE_LIMIT);
    assert sorted == rows + sorted[|rows|..];
    forall g | g in sorted && g !in rows
      ensures |rows| == PROBE_LIMIT && forall r :: r in rows ==> Better(r, g)
    {
      BehindTheCut(rows, sorted[|rows|..], g);
    }
  }

  lemma BehindTheCut(rows: seq<Event>, rest: seq<Event>, g: Event)
    requires InOrder(true, rows + rest) && IdsDetermine(Elems(rows + rest)) && g in rows + rest && g !in rows
    ensures forall r :: r in rows ==> Better(r, g)
  {
    var sorted := rows + rest;
    var j :| 0 <= j < |sorted| && sorted[j] == g;
    assert j >= |rows|;
    forall r | r in rows
      ensures Better(r, g)
    {
      var i :| 0 <= i < |rows| && rows[i] == r;
      assert sorted[i] == r;
      EarlierIsBetter(sorted, i, j);
    }
  }

  lemma EarlierIsBetter(sorted: seq<Event>, i: nat, j: nat)
    requires InOrder(true, sorted) && IdsDetermine(Elems(sorted)) && i < j < |sorted| && sorted[i] != sorted[j]
    ensures Better(sorted[i], sorted[j])
  {
    assert !Before(true, sorted[j], sorted[i]);
    BeforeTotal(true, sorted[i], sorted[j]);
    assert sorted[i] in Elems(sorted) && sorted[j] in Elems(sorted);
  }

  /** `prevOlder` for a stored version `p` of the slot of `evt`. */
  predicate Older(p: Event, evt: Event) {
    p.createdAt < evt.createdAt || (p.createdAt == evt.createdAt && LexLess(evt.id, p.id))
  }

  /** The decision loop of `ReplaceEvent`. */
  method Decide(prev: seq<Event>, evt: Event) returns (shouldStore: bool, retire: seq<Event>)
    ensures shouldStore <==> AllOlder(prev, evt)
    ensures retire == OlderOnes(prev, evt)
  {
    shouldStore, retire := true, [];
    for i := 0 to |prev|
      invariant shouldStore <==> AllOlder(prev[..i], evt)
      invariant retire == OlderOnes(prev[..i], evt)
    {
      assert prev[..i + 1] == prev[..i] + [prev[i]] && prev[..i + 1][..i] == prev[..i];
      if Older(prev[i], evt) {
        retire := retire + [prev[i]];
      } else {
        shouldStore := false;
      }
    }
    assert prev[..|prev|] == prev;
  }

  predicate AllOlder(prev: seq<Event>, evt: Event) {
    forall p :: p in prev ==> Older(p, evt)
  }

  function OlderOnes(prev: seq<Event>, evt: Event): (out: seq<Event>)
    ensures forall p :: p in out <==> p in prev && Older(p, evt)
  {
    if prev == [] then []
    else
      var p, last := prev[..|prev| - 1], prev[|prev| - 1];
      if Older(last, evt) then OlderOnes(p, evt) + [last] else OlderOnes(p, evt)
  }

  lemma OlderIsBetter(p: Event, evt: Event)
    ensures Older(p, evt) <==> Better(evt, p)
    ensures !Older(p, evt) <==> Better(p, evt) || (p.id == evt.id && p.createdAt == evt.createdAt)
  {
    LexTotal(p.id, evt.id);
    LexIrreflexive(evt.id);
    if LexLess(p.id, evt.id) && LexLess(evt.id, p.id) {
      LexTransitive(p.id, evt.id, p.id);
      LexIrreflexive(p.id);
    }
  }

  /** Fifty rows decide as well as all of them: the event is stored exactly when
      it beats every live version. */
  lemma ProbeDecidesExactly(rows: seq<Event>, live: set<Event>, evt: Event)
    requires IsProbe(rows, live)
    ensures AllOlder(rows, evt) <==> forall g :: g in live ==> Better(evt, g)
  {
    forall p
      ensures Older(p, evt) <==> Better(evt, p)
    {
      OlderIsBetter(p, evt);
    }
    if AllOlder(rows, evt) {
      forall g | g in live
        ensures Better(evt, g)
      {
        if g !in rows {
          assert rows[0] in rows;
          BeforeTransitive(true, evt, rows[0], g);
        }
      }
    }
  }

  // ---- the state machine ----

  datatype Phase =
    | Begun
    | Probed(shouldStore: bool, retire: seq<Event>)
    | Saved(retire: seq<Event>, ticket: nat)
    | Retiring(retire: seq<Event>)
    | Returned(ok: bool)

  datatype Call = Call(evt: Event, phase: Phase)

  datatype State = State(
    logs: map<Tier, Log>,       // the tier batchers
    extra: set<Event>,          // rows a failed insert left in a table
    expired: set<Event>,        // rows that a table's TTL has removed
    calls: map<nat, Call>,      // ReplaceEvent calls
    acked: set<Event>,          // events whose ReplaceEvent returned nil
    submitted: set<Event>,      // events ever handed in
    replaced: set<Event>,       // versions handed to the tombstone writer as replaced
    deleted: set<string>,       // ids deleted under NIP-09
    tombstones: set<string>,    // rows of the tombstone table
    dict: set<string>)          // what the dictionary currently holds

  datatype Action =
    | Begin(call: nat, evt: Event)
    | Probe(call: nat, rows: seq<Event>)
    | Store(call: nat)
    | FlushDone(call: nat)
    | Retire(call: nat, sent: nat)
    | Fail(call: nat)
    | Save(evt: Event)
    | Deliver(tier: Tier, n: nat)
    | HalfInsert(tier: Tier, n: nat)
    | Expire(gone: set<Event>)
    | Delete(id: string)
    | InsertTombstones(ids: set<string>)
    | Reload(ids: set<string>)
    | Crash

  const INIT: State := State(
    map[Permanent := Log([], 0), Archive := Log([], 0), Social := Log([], 0)],
    {}, {}, map[], {}, {}, {}, {}, {}, {})

  ghost function StoredIn(s: State, t: Tier): set<Event> {
    if t in s.logs && s.logs[t].Valid() then s.logs[t].Stored() else {}
  }

  /** The rows the tier tables have ever held. */
  ghost function Ever(s: State): set<Event> {
    StoredIn(s, Permanent) + StoredIn(s, Archive) + StoredIn(s, Social) + s.extra
  }

  /** The versions ever stored of a slot, and those a query can see. */
  ghost function Versions(s: State, pubkey: string, kind: int): set<Event> {
    set e | e in Ever(s) && e.pubkey == pubkey && e.kind == kind
  }

  ghost function Live(s: State, pubkey: string, kind: int): set<Event> {
    set e | e in Versions(s, pubkey, kind) && e !in s.expired && e.id !in s.dict
  }

  ghost predicate CanAccept(s: State, e: Event, override: Override) {
    ClassifyWithOverride(e.kind, override) in s.logs && Storable(e) && IdsDetermine(s.submitted + {e})
  }

  ghost function Accept(s: State, e: Event, override: Override): State
    requires CanAccept(s, e, override)
  {
    var t := ClassifyWithOverride(e.kind, override);
    s.(logs := s.logs[t := s.logs[t].Accept(e)], submitted := s.submitted + {e})
  }

  ghost predicate At(s: State, call: nat) {
    call in s.calls && !s.calls[call].phase.Returned?
  }

  /** Whether an action can happen. A flush reports success only once the batcher
      has delivered everything accepted before it was asked. */
  ghost predicate Enabled(s: State, a: Action, override: Override) {
    match a
    case Begin(c, evt) =>
      c !in s.calls && IsReplaceable(evt.kind) && Storable(evt) && IdsDetermine(s.submitted + {evt})
    case Probe(c, rows) =>
      At(s, c) && s.calls[c].phase.Begun? && IsProbe(rows, Live(s, s.calls[c].evt.pubkey, s.calls[c].evt.kind))
    case Store(c) =>
      At(s, c) && s.calls[c].phase.Probed?
      && (s.calls[c].phase.shouldStore ==> CanAccept(s, s.calls[c].evt, override))
    case FlushDone(c) =>
      At(s, c) && s.calls[c].phase.Saved?
      && var t := ClassifyWithOverride(s.calls[c].evt.kind, override);
         t in s.logs && s.calls[c].phase.ticket <= s.logs[t].delivered
    case Retire(c, sent) => At(s, c) && s.calls[c].phase.Retiring? && sent <= |s.calls[c].phase.retire|
    case Fail(c) => At(s, c) && !s.calls[c].phase.Retiring?
    case Save(evt) => CanAccept(s, evt, override)
    case Deliver(t, n) => t in s.logs
    case HalfInsert(t, n) => t in s.logs && s.logs[t].Valid() && s.logs[t].delivered + n <= |s.logs[t].accepted|
    case Expire(_) => true
    case Delete(id) => true
    case InsertTombstones(ids) => forall id :: id in ids ==> id in s.deleted || exists e :: e in s.replaced && e.id == id
    case Reload(ids) => ids <= s.tombstones
    case Crash => forall t :: t in s.logs ==> s.logs[t].Valid()
  }

  /** The next `n` undelivered events. */
  ghost function Next(l: Log, n: nat): set<Event> {
    if l.delivered + n <= |l.accepted| then Elems(l.accepted[l.delivered..l.delivered + n])
    else if l.delivered <= |l.accepted| then Elems(l.accepted[l.delivered..]) else {}
  }

  ghost function Goto(s: State, c: nat, p: Phase): State
    requires c in s.calls
  {
    s.(calls := s.calls[c := s.calls[c].(phase := p)])
  }

  ghost function Apply(s: State, a: Action, override: Override): State
    requires Enabled(s, a, override)
  {
    match a
    case Begin(c, evt) => s.(calls := s.calls[c := Call(evt, Begun)], submitted := s.submitted + {evt})
    case Probe(c, rows) =>
      Goto(s, c, Probed(AllOlder(rows, s.calls[c].evt), OlderOnes(rows, s.calls[c].evt)))
    case Store(c) =>
      var p := s.calls[c].phase;
      if p.shouldStore then
        var s1 := Accept(s, s.calls[c].evt, override);
        Goto(s1, c, Saved(p.retire, |s1.logs[ClassifyWithOverride(s.calls[c].evt.kind, override)].accepted|))
      else Goto(s, c, Retiring(p.retire))
    case FlushDone(c) => Goto(s, c, Retiring(s.calls[c].phase.retire))
    case Retire(c, sent) =>
      Goto(s.(replaced := s.replaced + Elems(s.calls[c].phase.retire[..sent]), acked := s.acked + {s.calls[c].evt}),
           c, Returned(true))
    case Fail(c) => Goto(s, c, Returned(false))
    case Save(evt) => Accept(s, evt, override)
    case Deliver(t, n) =>
      s.(logs := s.logs[t := s.logs[t].Deliver(n)], expired := s.expired - Next(s.logs[t], n))
    case HalfInsert(t, n) =>
      s.(extra := s.extra + Next(s.logs[t], n), expired := s.expired - Next(s.logs[t], n))
    case Expire(gone) => s.(expired := s.expired + gone)
    case Delete(id) => s.(deleted := s.deleted + {id})
    case InsertTombstones(ids) => s.(tombstones := s.tombstones + ids)
    case Reload(ids) => s.(dict := ids)
    case Crash => s.(calls := map[], logs := map t | t in s.logs :: s.logs[t].Crash())
  }

  ghost function Step(s: State, a: Action, override: Override): State {
    if Enabled(s, a, override) then Apply(s, a, override) else s
  }

  ghost function Run(actions: seq<Action>, override: Override): State
    decreases |actions|
  {
    if actions == [] then INIT
    else Step(Run(actions[..|actions| - 1], override), actions[|actions| - 1], override)
  }

  // ---- the invariant ----

  /** A strictly better version of the same slot has been stored. */
  ghost predicate Outdone(rows: set<Event>, e: Event) {
    exists b :: b in rows && SameSlot(b, e) && Better(b, e)
  }

  /** The version itself or a better one has been stored. */
  ghost predicate Matched(rows: set<Event>, e: Event) {
    e in rows || Outdone(rows, e)
  }

  ghost predicate StoreInv(s: State) {
    && (forall t :: t in s.logs <==> t in ACTIVE_TIERS)
    && (forall t :: t in s.logs ==> s.logs[t].Valid())
    && (forall t, e :: t in s.logs && e in s.logs[t].accepted ==> e in s.submitted)
    && s.extra <= s.submitted
    && IdsDetermine(s.submitted)
  }

  ghost predicate TombstoneInv(s: State) {
    && (forall e :: e in s.replaced ==> Outdone(Ever(s), e))
    && (forall id :: id in s.tombstones ==> id in s.deleted || exists e :: e in s.replaced && e.id == id)
    && s.dict <= s.tombstones
    && s.replaced <= s.submitted
  }

  /** Everything a call means to retire is beaten by the call's event; by the time
      it may retire, that event or a better one is stored. */
  ghost predicate CallInv(s: State, call: Call, override: Override) {
    && call.evt in s.submitted
    && match call.phase
       case Begun => true
       case Probed(shouldStore, retire) => Beaten(s, retire, call.evt) && (!shouldStore ==> Matched(Ever(s), call.evt))
       case Saved(retire, ticket) =>
         && Beaten(s, retire, call.evt)
         && var t := ClassifyWithOverride(call.evt.kind, override);
            t in s.logs && ticket <= |s.logs[t].accepted| && call.evt in s.logs[t].accepted[..ticket]
       case Retiring(retire) => Beaten(s, retire, call.evt) && Matched(Ever(s), call.evt)
       case Returned(_) => true
  }

  ghost predicate Beaten(s: State, retire: seq<Event>, evt: Event) {
    forall e :: e in retire ==> e in s.submitted && SameSlot(evt, e) && Better(evt, e)
  }

  ghost predicate Inv(s: State, override: Override) {
    && StoreInv(s)
    && TombstoneInv(s)
    && (forall c :: c in s.calls ==> CallInv(s, s.calls[c], override))
    && (forall e :: e in s.acked ==> e in s.submitted && Matched(Ever(s), e))
  }

  /** Changing one log, or leaving the logs alone, keeps `StoreInv` and what is stored. */
  lemma OneLog(s: State, s1: State, t: Tier, l: Log)
    requires StoreInv(s) && t in s.logs && s1.logs == s.logs[t := l] && s.extra <= s1.extra <= s1.submitted
    requires l.Valid() && s.logs[t].Stored() <= l.Stored()
    requires forall e :: e in l.accepted ==> e in s1.submitted
    requires s.submitted <= s1.submitted && IdsDetermine(s1.submitted)
    ensures StoreInv(s1) && Ever(s) <= Ever(s1) && Ever(s1) <= s1.submitted
  {
    assert forall u :: u in s.logs && u != t ==> s1.logs[u] == s.logs[u];
    EverSubmitted(s1);
  }

  lemma EverSubmitted(s: State)
    requires StoreInv(s)
    ensures Ever(s) <= s.submitted
  {
  }

  /** Tables only grow. */
  lemma EverGrows(s: State, a: Action, override: Override)
    requires StoreInv(s) && Enabled(s, a, override)
    ensures StoreInv(Apply(s, a, override))
    ensures Ever(s) <= Ever(Apply(s, a, override)) <= Apply(s, a, override).submitted
    ensures s.submitted <= Apply(s, a, override).submitted
  {
    var s1 := Apply(s, a, override);
    EverSubmitted(s);
    match a {
      case Store(c) =>
        if s.calls[c].phase.shouldStore {
          AcceptGrows(s, s1, s.calls[c].evt, override);
        }
      case Save(evt) =>
        AcceptGrows(s, s1, evt, override);
      case Deliver(t, n) =>
        LogSteps(s.logs[t], Event("", "", 0, 0, [], "", ""), n);
        OneLog(s, s1, t, s.logs[t].Deliver(n));
      case HalfInsert(t, n) =>
        forall e | e in s1.extra
          ensures e in s.submitted
        {
          assert e in s.extra || e in s.logs[t].accepted;
        }
        assert s.logs == s.logs[t := s.logs[t]];
        OneLog(s, s1, t, s.logs[t]);
      case Crash =>
        forall t | t in s.logs
          ensures s1.logs[t].Valid() && s1.logs[t].Stored() == s.logs[t].Stored()
          ensures forall e :: e in s1.logs[t].accepted ==> e in s.submitted
        {
          LogSteps(s.logs[t], Event("", "", 0, 0, [], "", ""), 0);
        }
        EverSubmitted(s1);
      case _ =>
        assert s1.logs == s.logs && s1.extra == s.extra;
        assert Ever(s1) == Ever(s);
    }
  }

  lemma AcceptGrows(s: State, s1: State, e: Event, override: Override)
    requires StoreInv(s) && CanAccept(s, e, override)
    requires var s2 := Accept(s, e, override);
      s1.logs == s2.logs && s1.submitted == s2.submitted && s1.extra == s2.extra
    ensures StoreInv(s1) && Ever(s) <= Ever(s1) <= s1.submitted && s.submitted <= s1.submitted
  {
    var t := ClassifyWithOverride(e.kind, override);
    LogSteps(s.logs[t], e, 0);
    OneLog(s, s1, t, s.logs[t].Accept(e));
  }

  ghost predicate LogsExtend(s: State, s1: State) {
    forall t :: t in s.logs ==> t in s1.logs && s.logs[t].accepted <= s1.logs[t].accepted
  }

  /** What a call relies on is not taken away by others. */
  lemma CallSurvives(s: State, s1: State, call: Call, override: Override)
    requires CallInv(s, call, override) && LogsExtend(s, s1)
    requires Ever(s) <= Ever(s1) && s.submitted <= s1.submitted
    ensures CallInv(s1, call, override)
  {
  }

  lemma OthersSurvive(s: State, s1: State, c: nat, override: Override)
    requires Inv(s, override) && LogsExtend(s, s1)
    requires Ever(s) <= Ever(s1) && s.submitted <= s1.submitted
    requires forall d :: d in s1.calls && d != c ==> d in s.calls && s1.calls[d] == s.calls[d]
    ensures forall d :: d in s1.calls && d != c ==> CallInv(s1, s1.calls[d], override)
    ensures forall e :: e in s.acked ==> Matched(Ever(s1), e)
    ensures forall e :: e in s.replaced ==> Outdone(Ever(s1), e)
  {
    forall d | d in s1.calls && d != c
      ensures CallInv(s1, s1.calls[d], override)
    {
      CallSurvives(s, s1, s.calls[d], override);
    }
  }

  /** The probe's decision: what it retires is beaten by the event; if the event is
      not to be stored, it or a better version already is. */
  lemma ProbeIsSound(s: State, rows: seq<Event>, evt: Event)
    requires StoreInv(s) && evt in s.submitted && IsProbe(rows, Live(s, evt.pubkey, evt.kind))
    ensures Beaten(s, OlderOnes(rows, evt), evt)
    ensures !AllOlder(rows, evt) ==> Matched(Ever(s), evt)
  {
    EverSubmitted(s);
    forall e | e in OlderOnes(rows, evt)
      ensures e in s.submitted && SameSlot(evt, e) && Better(evt, e)
    {
      OlderIsBetter(e, evt);
    }
    if !AllOlder(rows, evt) {
      var p :| p in rows && !Older(p, evt);
      OlderIsBetter(p, evt);
    }
  }

  /** A delivered ticket means a stored event. */
  lemma TicketIsStored(s: State, t: Tier, ticket: nat, evt: Event)
    requires t in s.logs && s.logs[t].Valid() && t in ACTIVE_TIERS
    requires ticket <= s.logs[t].delivered && evt in s.logs[t].accepted[..ticket]
    ensures evt in Ever(s)
  {
  }

  /** Whatever beats a version, or has been beaten on its behalf, outdoes it. */
  lemma BeatenIsOutdone(rows: set<Event>, evt: Event, e: Event)
    requires SameSlot(evt, e) && Better(evt, e) && Matched(rows, evt)
    ensures Outdone(rows, e)
  {
    if evt !in rows {
      var b :| b in rows && SameSlot(b, evt) && Better(b, evt);
      BeforeTransitive(true, b, evt, e);
    }
  }

  /** A step of call `c` (or of no call) that leaves the tombstone side alone. */
  lemma CallStep(s: State, s1: State, c: nat, override: Override)
    requires Inv(s, override) && StoreInv(s1) && LogsExtend(s, s1)
    requires Ever(s) <= Ever(s1) && s.submitted <= s1.submitted
    requires forall d :: d in s1.calls && d != c ==> d in s.calls && s1.calls[d] == s.calls[d]
    requires c in s1.calls ==> CallInv(s1, s1.calls[c], override)
    requires s1.replaced == s.replaced && s1.deleted == s.deleted && s1.tombstones == s.tombstones
    requires s1.dict == s.dict && s1.acked == s.acked
    ensures Inv(s1, override)
  {
    OthersSurvive(s, s1, c, override);
  }

  lemma StoreKeepsInv(s: State, c: nat, override: Override)
    requires Inv(s, override) && Enabled(s, Store(c), override)
    ensures Inv(Apply(s, Store(c), override), override)
  {
    var s1 := Apply(s, Store(c), override);
    EverGrows(s, Store(c), override);
    assert CallInv(s, s.calls[c], override);
    StoredCall(s, s1, c, override);
    CallStep(s, s1, c, override);
  }

  lemma StoredCall(s: State, s1: State, c: nat, override: Override)
    requires Enabled(s, Store(c), override) && s1 == Apply(s, Store(c), override)
    requires CallInv(s, s.calls[c], override) && Ever(s) <= Ever(s1) && s.submitted <= s1.submitted
    ensures CallInv(s1, s1.calls[c], override) && LogsExtend(s, s1)
  {
    var evt := s.calls[c].evt;
    if s.calls[c].phase.shouldStore {
      var l := s1.logs[ClassifyWithOverride(evt.kind, override)];
      assert l.accepted[..|l.accepted|] == l.accepted;
      assert l.accepted[|l.accepted| - 1] == evt;
    }
  }

  lemma CallsKeepInv(s: State, a: Action, override: Override)
    requires Inv(s, override) && Enabled(s, a, override)
    requires a.Begin? || a.Probe? || a.FlushDone? || a.Fail?
    ensures Inv(Apply(s, a, override), override)
  {
    var s1 := Apply(s, a, override);
    EverGrows(s, a, override);
    match a {
      case Begin(c, evt) =>
        CallStep(s, s1, c, override);
      case Probe(c, rows) =>
        ProbeIsSound(s, rows, s.calls[c].evt);
        CallStep(s, s1, c, override);
      case FlushDone(c) =>
        TicketIsStored(s, ClassifyWithOverride(s.calls[c].evt.kind, override), s.calls[c].phase.ticket, s.calls[c].evt);
        CallStep(s, s1, c, override);
      case Fail(c) =>
        CallStep(s, s1, c, override);
    }
  }

  lemma StorageKeepsInv(s: State, a: Action, override: Override)
    requires Inv(s, override) && Enabled(s, a, override)
    requires a.Save? || a.Deliver? || a.HalfInsert? || a.Crash?
    ensures Inv(Apply(s, a, override), override)
  {
    var s1 := Apply(s, a, override);
    EverGrows(s, a, override);
    if !a.Crash? {
      forall d | d in s.calls
        ensures CallInv(s1, s.calls[d], override)
      {
        CallSurvives(s, s1, s.calls[d], override);
      }
    }
  }

  lemma TombstonesKeepInv(s: State, a: Action, override: Override)
    requires Inv(s, override) && Enabled(s, a, override)
    requires a.Expire? || a.Delete? || a.InsertTombstones? || a.Reload?
    ensures Inv(Apply(s, a, override), override)
  {
    var s1 := Apply(s, a, override);
    assert Ever(s1) == Ever(s);
    forall d | d in s.calls
      ensures CallInv(s1, s.calls[d], override)
    {
      CallSurvives(s, s1, s.calls[d], override);
    }
  }

  lemma RetireKeepsInv(s: State, c: nat, sent: nat, override: Override)
    requires Inv(s, override) && Enabled(s, Retire(c, sent), override)
    ensures Inv(Apply(s, Retire(c, sent), override), override)
  {
    var s1 := Apply(s, Retire(c, sent), override);
    EverGrows(s, Retire(c, sent), override);
    OthersSurvive(s, s1, c, override);
    RetireIsSound(s, s1, c, sent, override);
  }

  /** Every step of every participant keeps the invariant. */
  lemma StepKeepsInv(s: State, a: Action, override: Override)
    requires Inv(s, override)
    ensures Inv(Step(s, a, override), override)
  {
    if Enabled(s, a, override) {
      match a {
        case Store(c) => StoreKeepsInv(s, c, override);
        case Retire(c, sent) => RetireKeepsInv(s, c, sent, override);
        case Begin(_, _) => CallsKeepInv(s, a, override);
        case Probe(_, _) => CallsKeepInv(s, a, override);
        case FlushDone(_) => CallsKeepInv(s, a, override);
        case Fail(_) => CallsKeepInv(s, a, override);
        case Save(_) => StorageKeepsInv(s, a, override);
        case Deliver(_, _) => StorageKeepsInv(s, a, override);
        case HalfInsert(_, _) => StorageKeepsInv(s, a, override);
        case Crash => StorageKeepsInv(s, a, override);
        case _ => TombstonesKeepInv(s, a, override);
      }
    }
  }

  lemma RetireIsSound(s: State, s1: State, c: nat, sent: nat, override: Override)
    requires Inv(s, override) && Enabled(s, Retire(c, sent), override) && s1 == Apply(s, Retire(c, sent), override)
    ensures TombstoneInv(s1)
    ensures Matched(Ever(s1), s.calls[c].evt)
  {
    assert Ever(s1) == Ever(s);
    var call := s.calls[c];
    forall e | e in s1.replaced
      ensures Outdone(Ever(s1), e) && e in s1.submitted
    {
      if e !in s.replaced {
        assert e in call.phase.retire;
        BeatenIsOutdone(Ever(s), call.evt, e);
      }
    }
  }

  /** Every reachable state satisfies the invariant. */
  lemma {:induction false} RunKeepsInv(actions: seq<Action>, override: Override)
    ensures Inv(Run(actions, override), override)
    decreases |actions|
  {
    if actions != [] {
      RunKeepsInv(actions[..|actions| - 1], override);
      StepKeepsInv(Run(actions[..|actions| - 1], override), actions[|actions| - 1], override);
    }
  }

  // ---- what a call does ----

  lemma {:induction false} RunSnoc(actions: seq<Action>, a: Action, override: Override)
    ensures Run(actions + [a], override) == Step(Run(actions, override), a, override)
  {
    assert (actions + [a])[..|actions|] == actions;
  }

  /** The machine's decision: the event is stored exactly when it beats every live
      version, and what it beats of the probe is what it will retire. */
  lemma StoredIffBeatsAll(s: State, c: nat, rows: seq<Event>, override: Override)
    requires Enabled(s, Probe(c, rows), override)
    requires Enabled(Apply(s, Probe(c, rows), override), Store(c), override)
    ensures var evt, t := s.calls[c].evt, ClassifyWithOverride(s.calls[c].evt.kind, override);
      var s1 := Apply(Apply(s, Probe(c, rows), override), Store(c), override);
      && (if forall g :: g in Live(s, evt.pubkey, evt.kind) ==> Better(evt, g)
          then t in s.logs && s1.logs == s.logs[t := s.logs[t].(accepted := s.logs[t].accepted + [evt])]
          else s1.logs == s.logs)
      && (s1.calls[c].phase.Saved? || s1.calls[c].phase.Retiring?)
      && forall v :: v in s1.calls[c].phase.retire <==> v in rows && Better(evt, v)
  {
    var evt := s.calls[c].evt;
    ProbeDecidesExactly(rows, Live(s, evt.pubkey, evt.kind), evt);
    forall v
      ensures Older(v, evt) <==> Better(evt, v)
    {
      OlderIsBetter(v, evt);
    }
  }

  /** A call that has probed keeps its list until it returns. */
  ghost predicate KeepsList(s: State, c: nat, evt: Event, retire: seq<Event>) {
    && c in s.calls && s.calls[c].evt == evt
    && var p := s.calls[c].phase;
       p.Returned? || ((p.Probed? || p.Saved? || p.Retiring?) && p.retire == retire)
  }

  lemma {:induction false} ListPersists(first: seq<Action>, more: seq<Action>, override: Override, c: nat, evt: Event,
                                        retire: seq<Event>)
    requires KeepsList(Run(first, override), c, evt, retire) && Crash !in more
    ensures KeepsList(Run(first + more, override), c, evt, retire)
    decreases |more|
  {
    if more == [] {
      assert first + more == first;
    } else {
      var p, last := more[..|more| - 1], more[|more| - 1];
      ListPersists(first, p, override, c, evt, retire);
      assert first + more == (first + p) + [last];
      RunSnoc(first + p, last, override);
      StepKeepsList(Run(first + p, override), last, override, c, evt, retire);
    }
  }

  lemma StepKeepsList(s: State, a: Action, override: Override, c: nat, evt: Event, retire: seq<Event>)
    requires KeepsList(s, c, evt, retire) && !a.Crash?
    ensures KeepsList(Step(s, a, override), c, evt, retire)
  {
  }

  /** When a call that retires in full returns, every version its probe returned and
      its event beats has been handed to the tombstone writer, whatever happened in
      between. */
  lemma FullRetirement(first: seq<Action>, rows: seq<Event>, more: seq<Action>, override: Override, c: nat)
    requires Enabled(Run(first, override), Probe(c, rows), override) && Crash !in more
    requires var evt := Run(first, override).calls[c].evt;
      Enabled(Run(first + [Probe(c, rows)] + more, override), Retire(c, |OlderOnes(rows, evt)|), override)
    ensures var evt := Run(first, override).calls[c].evt;
      var s := Run(first + [Probe(c, rows)] + more + [Retire(c, |OlderOnes(rows, evt)|)], override);
      evt in s.acked && forall v :: v in rows && Better(evt, v) ==> v in s.replaced
  {
    var evt := Run(first, override).calls[c].evt;
    var retire, mid := OlderOnes(rows, evt), first + [Probe(c, rows)] + more;
    RunSnoc(first, Probe(c, rows), override);
    ListPersists(first + [Probe(c, rows)], more, override, c, evt, retire);
    RunSnoc(mid, Retire(c, |retire|), override);
    assert retire[..|retire|] == retire;
    forall v | v in rows && Better(evt, v)
      ensures v in retire
    {
      OlderIsBetter(v, evt);
    }
  }

  /** Everything its tier's batcher has accepted is stored. */
  ghost predicate Flushed(s: State, t: Tier) {
    t in s.logs && s.logs[t].delivered == |s.logs[t].accepted|
  }

  /** A call may start for an event that beats all live versions, which `rows` are. */
  ghost predicate CanReplace(s: State, c: nat, v: Event, rows: seq<Event>, override: Override) {
    && c !in s.calls && IsReplaceable(v.kind) && CanAccept(s, v, override)
    && Flushed(s, ClassifyWithOverride(v.kind, override))
    && IsProbe(rows, Live(s, v.pubkey, v.kind)) && forall g :: g in Live(s, v.pubkey, v.kind) ==> Better(v, g)
  }

  /** A call that runs alone: its steps, in order. */
  ghost function Alone(c: nat, v: Event, rows: seq<Event>, override: Override): seq<Action> {
    [Begin(c, v), Probe(c, rows)] + [Store(c), Deliver(ClassifyWithOverride(v.kind, override), 1)]
    + [FlushDone(c), Retire(c, |rows|)]
  }

  lemma {:induction false} AllOlderKept(rows: seq<Event>, v: Event)
    requires AllOlder(rows, v)
    ensures OlderOnes(rows, v) == rows
    decreases |rows|
  {
    if rows != [] {
      AllOlderKept(rows[..|rows| - 1], v);
      assert rows == rows[..|rows| - 1] + [rows[|rows| - 1]];
    }
  }

  ghost function AfterProbe(s: State, c: nat, v: Event, rows: seq<Event>): State {
    s.(calls := s.calls[c := Call(v, Probed(true, rows))], submitted := s.submitted + {v})
  }

  ghost function AfterStore(s: State, c: nat, v: Event, rows: seq<Event>, t: Tier): State
    requires t in s.logs
  {
    var l := s.logs[t];
    s.(logs := s.logs[t := Log(l.accepted + [v], l.delivered + 1)], expired := s.expired - {v},
       calls := s.calls[c := Call(v, Saved(rows, l.delivered + 1))])
  }

  ghost function AfterRetire(s: State, c: nat, v: Event, rows: seq<Event>): State {
    s.(calls := s.calls[c := Call(v, Returned(true))], replaced := s.replaced + Elems(rows), acked := s.acked + {v})
  }

  lemma AloneProbes(s: State, c: nat, v: Event, rows: seq<Event>, override: Override)
    requires CanReplace(s, c, v, rows, override)
    ensures Step(Step(s, Begin(c, v), override), Probe(c, rows), override) == AfterProbe(s, c, v, rows)
  {
    BeginAlone(s, c, v, override);
    ProbeDecidesExactly(rows, Live(s, v.pubkey, v.kind), v);
    AllOlderKept(rows, v);
  }

  lemma BeginAlone(s: State, c: nat, v: Event, override: Override)
    requires c !in s.calls && IsReplaceable(v.kind) && Storable(v) && IdsDetermine(s.submitted + {v})
    ensures var s1 := s.(calls := s.calls[c := Call(v, Begun)], submitted := s.submitted + {v});
      Step(s, Begin(c, v), override) == s1 && Live(s1, v.pubkey, v.kind) == Live(s, v.pubkey, v.kind)
  {
    var s1 := s.(calls := s.calls[c := Call(v, Begun)], submitted := s.submitted + {v});
    assert Ever(s1) == Ever(s);
  }

  lemma AloneStores(s: State, c: nat, v: Event, rows: seq<Event>, override: Override)
    requires c in s.calls && s.calls[c] == Call(v, Probed(true, rows)) && CanAccept(s, v, override) && v in s.submitted
    requires Flushed(s, ClassifyWithOverride(v.kind, override))
    ensures var t := ClassifyWithOverride(v.kind, override);
      Step(Step(s, Store(c), override), Deliver(t, 1), override) == AfterStore(s, c, v, rows, t)
  {
    var t := ClassifyWithOverride(v.kind, override);
    var l, s1 := s.logs[t], Step(s, Store(c), override);
    assert s.submitted + {v} == s.submitted;
    assert s1.logs[t].accepted[l.delivered..l.delivered + 1] == [v];
  }

  lemma AloneRetires(s: State, c: nat, v: Event, rows: seq<Event>, ticket: nat, override: Override)
    requires c in s.calls && s.calls[c] == Call(v, Saved(rows, ticket))
    requires var t := ClassifyWithOverride(v.kind, override); t in s.logs && ticket <= s.logs[t].delivered
    ensures Step(Step(s, FlushDone(c), override), Retire(c, |rows|), override) == AfterRetire(s, c, v, rows)
  {
    assert rows[..|rows|] == rows;
  }

  /** A call that runs alone, for an event that beats all live versions: it is stored
      and acknowledged, and exactly the versions of the probe are retired. */
  lemma RunsAlone(actions: seq<Action>, c: nat, v: Event, rows: seq<Event>, override: Override)
    requires CanReplace(Run(actions, override), c, v, rows, override)
    ensures var s, t := Run(actions, override), ClassifyWithOverride(v.kind, override);
      Run(actions + Alone(c, v, rows, override), override)
      == AfterRetire(AfterStore(AfterProbe(s, c, v, rows), c, v, rows, t), c, v, rows)
  {
    var s, t := Run(actions, override), ClassifyWithOverride(v.kind, override);
    var a2 := actions + [Begin(c, v), Probe(c, rows)];
    AloneProbes(s, c, v, rows, override);
    TwoSteps(actions, Begin(c, v), Probe(c, rows), override, Step(s, Begin(c, v), override), AfterProbe(s, c, v, rows));
    AcceptAgain(s, v, override);
    StoresAndRetires(a2, Run(a2, override), c, v, rows, override);
    assert actions + Alone(c, v, rows, override) == a2 + [Store(c), Deliver(t, 1)] + [FlushDone(c), Retire(c, |rows|)];
  }

  lemma StoresAndRetires(actions: seq<Action>, s: State, c: nat, v: Event, rows: seq<Event>, override: Override)
    requires s == Run(actions, override)
    requires c in s.calls && s.calls[c] == Call(v, Probed(true, rows)) && CanAccept(s, v, override) && v in s.submitted
    requires Flushed(s, ClassifyWithOverride(v.kind, override))
    ensures var t := ClassifyWithOverride(v.kind, override);
      Run(actions + [Store(c), Deliver(t, 1)] + [FlushDone(c), Retire(c, |rows|)], override)
      == AfterRetire(AfterStore(s, c, v, rows, t), c, v, rows)
  {
    var t := ClassifyWithOverride(v.kind, override);
    var s1 := AfterStore(s, c, v, rows, t);
    AloneStores(s, c, v, rows, override);
    TwoSteps(actions, Store(c), Deliver(t, 1), override, Step(s, Store(c), override), s1);
    AloneRetires(s1, c, v, rows, s.logs[t].delivered + 1, override);
    TwoSteps(actions + [Store(c), Deliver(t, 1)], FlushDone(c), Retire(c, |rows|), override,
             Step(s1, FlushDone(c), override), AfterRetire(s1, c, v, rows));
  }

  function IdSet(rows: seq<Event>): set<string> {
    set e | e in rows :: e.id
  }

  /** What is stored after such a call. */
  lemma AloneIsStored(s: State, s': State, v: Event, override: Override)
    requires StoreInv(s) && CanAccept(s, v, override)
    requires var t := ClassifyWithOverride(v.kind, override);
      Flushed(s, t) && s'.logs == s.logs[t := Log(s.logs[t].accepted + [v], s.logs[t].delivered + 1)] && s'.extra == s.extra
    ensures Ever(s') == Ever(s) + {v}
  {
    var t := ClassifyWithOverride(v.kind, override);
    OneMoreStored(s.logs[t], v);
    assert forall u :: u in s.logs && u != t ==> s'.logs[u] == s.logs[u];
  }

  lemma OneMoreStored(l: Log, v: Event)
    requires l.delivered == |l.accepted|
    ensures Log(l.accepted + [v], l.delivered + 1).Stored() == l.Stored() + {v}
  {
    assert (l.accepted + [v])[..l.delivered + 1] == l.accepted + [v] && l.accepted[..l.delivered] == l.accepted;
  }

  /** Replacement takes hold: in any reachable state, after a call that runs alone
      and whose event beats the fewer than fifty live versions, and once its
      tombstones are loaded, the event is the only live version of its slot. */
  lemma ReplacementTakesHold(actions: seq<Action>, c: nat, v: Event, rows: seq<Event>, override: Override)
    requires var s := Run(actions, override); CanReplace(s, c, v, rows, override) && |rows| < 50 && v.id !in s.dict
    ensures var s := Run(actions, override);
      var end := Run(actions + Alone(c, v, rows, override)
                     + [InsertTombstones(IdSet(rows)), Reload(s.dict + IdSet(rows))], override);
      && v in end.acked && Elems(rows) <= end.replaced && s.acked <= end.acked
      && Ever(end) == Ever(s) + {v} && Live(end, v.pubkey, v.kind) == {v}
      && Flushed(end, ClassifyWithOverride(v.kind, override)) && end.logs.Keys == s.logs.Keys
      && end.calls.Keys == s.calls.Keys + {c} && end.submitted == s.submitted + {v} && end.dict == s.dict + IdSet(rows)
  {
    var s := Run(actions, override);
    RunKeepsInv(actions, override);
    RunsAlone(actions, c, v, rows, override);
    var mid := AfterRetire(AfterStore(AfterProbe(s, c, v, rows), c, v, rows, ClassifyWithOverride(v.kind, override)), c, v, rows);
    AloneIsStored(s, mid, v, override);
    TombstonesLand(mid, rows, override);
    TwoSteps(actions + Alone(c, v, rows, override), InsertTombstones(IdSet(rows)), Reload(s.dict + IdSet(rows)), override,
             Step(mid, InsertTombstones(IdSet(rows)), override),
             mid.(tombstones := mid.tombstones + IdSet(rows), dict := mid.dict + IdSet(rows)));
    OnlyNewestIsLive(s, mid, v, rows, override);
  }

  lemma TombstonesLand(s: State, rows: seq<Event>, override: Override)
    requires Elems(rows) <= s.replaced && s.dict <= s.tombstones
    ensures Step(Step(s, InsertTombstones(IdSet(rows)), override), Reload(s.dict + IdSet(rows)), override)
         == s.(tombstones := s.tombstones + IdSet(rows), dict := s.dict + IdSet(rows))
  {
    forall id | id in IdSet(rows)
      ensures exists e :: e in s.replaced && e.id == id
    {
      var e :| e in rows && e.id == id;
      assert e in Elems(rows);
    }
  }

  lemma OnlyNewestIsLive(s: State, mid: State, v: Event, rows: seq<Event>, override: Override)
    requires StoreInv(s) && CanAccept(s, v, override) && v.id !in s.dict && |rows| < 50
    requires IsProbe(rows, Live(s, v.pubkey, v.kind)) && forall g :: g in Live(s, v.pubkey, v.kind) ==> Better(v, g)
    requires Ever(mid) == Ever(s) + {v} && mid.expired == s.expired - {v} && mid.dict == s.dict
    ensures var end := mid.(tombstones := mid.tombstones + IdSet(rows), dict := mid.dict + IdSet(rows));
      Ever(end) == Ever(mid) && Live(end, v.pubkey, v.kind) == {v}
  {
    var end := mid.(tombstones := mid.tombstones + IdSet(rows), dict := mid.dict + IdSet(rows));
    EverSubmitted(s);
    assert v.id !in IdSet(rows) by {
      if v.id in IdSet(rows) {
        var g :| g in rows && g.id == v.id;
        assert g in Live(s, v.pubkey, v.kind) && g in s.submitted + {v} && v in s.submitted + {v};
        BeforeIrreflexive(true, v);
      }
    }
    forall e
      ensures e in Live(end, v.pubkey, v.kind) <==> e == v
    {
      if e in Live(s, v.pubkey, v.kind) {
        assert e in rows && e.id in IdSet(rows);
      }
    }
  }

  /** From the beginning: a second, better version replaces the first. */
  lemma SecondReplacesFirst(v1: Event, v2: Event, override: Override) returns (actions: seq<Action>)
    requires SameSlot(v1, v2) && Better(v2, v1) && v1.id != v2.id && Storable(v1) && Storable(v2)
    requires IsReplaceable(v1.kind) && ClassifyWithOverride(v1.kind, override) in ACTIVE_TIERS
    ensures var s := Run(actions, override);
      && v1 in s.acked && v1 in Ever(s) && v1 !in Live(s, v1.pubkey, v1.kind)
      && v2 in s.acked && v1 in s.replaced && Live(s, v1.pubkey, v1.kind) == {v2}
  {
    var first := FirstVersion(v1, override);
    SecondCan(Run(first, override), v1, v2, override);
    ReplacementTakesHold(first, 1, v2, [v1], override);
    actions := first + Alone(1, v2, [v1], override)
      + [InsertTombstones(IdSet([v1])), Reload(Run(first, override).dict + IdSet([v1]))];
    assert v1 in Elems([v1]);
    BeforeIrreflexive(true, v1);
  }

  /** The state after the first version, as far as the second call cares. */
  ghost predicate HasFirst(s: State, v1: Event, override: Override) {
    && s.calls.Keys == {0} && s.submitted == {v1} && v1 in s.acked && v1 in Ever(s) && s.dict == {}
    && Flushed(s, ClassifyWithOverride(v1.kind, override)) && Live(s, v1.pubkey, v1.kind) == {v1}
  }

  lemma FirstVersion(v1: Event, override: Override) returns (actions: seq<Action>)
    requires Storable(v1) && IsReplaceable(v1.kind) && ClassifyWithOverride(v1.kind, override) in ACTIVE_TIERS
    ensures HasFirst(Run(actions, override), v1, override)
  {
    NothingYet(v1, override);
    ReplacementTakesHold([], 0, v1, [], override);
    actions := [] + Alone(0, v1, [], override) + [InsertTombstones(IdSet([])), Reload(INIT.dict + IdSet([]))];
  }

  lemma NothingYet(v1: Event, override: Override)
    requires Storable(v1) && IsReplaceable(v1.kind) && ClassifyWithOverride(v1.kind, override) in ACTIVE_TIERS
    ensures CanReplace(INIT, 0, v1, [], override)
  {
    assert Ever(INIT) == {};
  }

  lemma SecondCan(s: State, v1: Event, v2: Event, override: Override)
    requires HasFirst(s, v1, override)
    requires SameSlot(v1, v2) && Better(v2, v1) && v1.id != v2.id && Storable(v2) && IsReplaceable(v1.kind)
    ensures CanReplace(s, 1, v2, [v1], override) && v2.id !in s.dict
  {
    assert 1 !in s.calls.Keys;
    assert IdsDetermine({v1} + {v2});
  }

  /** A NIP-09 delete, once its tombstone is loaded, hides the version. */
  lemma DeleteHides(s: State, e: Event, override: Override)
    requires s.dict <= s.tombstones
    ensures var s1 := Step(s, Delete(e.id), override);
      var s2 := Step(s1, InsertTombstones({e.id}), override);
      var end := Step(s2, Reload(s.dict + {e.id}), override);
      e.id in end.deleted && end.dict == s.dict + {e.id} && e !in Live(end, e.pubkey, e.kind)
  {
  }

  /** A crawler's save reaches its batcher, and a TTL hides what it removes. */
  lemma SaveAndExpire(s: State, e: Event, override: Override)
    ensures CanAccept(s, e, override) ==> var t := ClassifyWithOverride(e.kind, override);
      Step(s, Save(e), override).logs == s.logs[t := s.logs[t].(accepted := s.logs[t].accepted + [e])]
    ensures e !in Live(Step(s, Expire({e}), override), e.pubkey, e.kind)
  {
  }

  /** A delivery makes the next events visible, and so does an insert that then
      reports failure, which moves nothing. */
  lemma InsertsShow(s: State, t: Tier, n: nat, override: Override)
    requires StoreInv(s) && t in ACTIVE_TIERS && s.logs[t].delivered + n <= |s.logs[t].accepted|
    ensures var next := Elems(s.logs[t].accepted[s.logs[t].delivered..s.logs[t].delivered + n]);
      var s1, s2 := Step(s, Deliver(t, n), override), Step(s, HalfInsert(t, n), override);
      && s1.logs[t].delivered == s.logs[t].delivered + n && next <= Ever(s1) - s1.expired
      && s2.logs == s.logs && next <= Ever(s2) - s2.expired
  {
    var s1 := Step(s, Deliver(t, n), override);
    NextAreStored(s.logs[t], n);
    assert s1.logs[t] == s.logs[t].Deliver(n) && StoredIn(s1, t) == s1.logs[t].Stored();
  }

  lemma NextAreStored(l: Log, n: nat)
    requires l.delivered + n <= |l.accepted|
    ensures Elems(l.accepted[l.delivered..l.delivered + n]) <= l.Deliver(n).Stored()
  {
    var d := l.Deliver(n);
    forall e | e in l.accepted[l.delivered..l.delivered + n]
      ensures e in d.Stored()
    {
      var i :| 0 <= i < n && l.accepted[l.delivered..l.delivered + n][i] == e;
      assert d.accepted[..d.delivered][l.delivered + i] == e;
    }
  }

  /** A crash ends all calls and leaves of each batcher what is stored. */
  lemma CrashLeavesStored(s: State, t: Tier, override: Override)
    requires StoreInv(s) && t in ACTIVE_TIERS
    ensures var s1 := Step(s, Crash, override);
      s1.calls == map[] && t in s1.logs && s1.logs[t].accepted == s.logs[t].accepted[..s.logs[t].delivered]
  {
  }

  lemma AcceptAgain(s: State, v: Event, override: Override)
    requires CanAccept(s, v, override)
    ensures IdsDetermine(s.submitted + {v} + {v})
  {
    assert s.submitted + {v} + {v} == s.submitted + {v};
  }

  lemma {:induction false} TwoSteps(actions: seq<Action>, a: Action, b: Action, override: Override, s: State, s': State)
    requires s == Step(Run(actions, override), a, override) && s' == Step(s, b, override)
    ensures Run(actions + [a, b], override) == s'
  {
    Snoc(actions, a, override, Run(actions, override), s);
    Snoc(actions + [a], b, override, s, s');
    assert actions + [a, b] == actions + [a] + [b];
  }

  lemma {:induction false} Snoc(actions: seq<Action>, a: Action, override: Override, s: State, s': State)
    requires Run(actions, override) == s && Step(s, a, override) == s'
    ensures Run(actions + [a], override) == s'
  {
    RunSnoc(actions, a, override);
  }

  // ---- what clients get ----

  /** In every reachable state, every version retired as replaced has a strictly
      better version of its slot durably stored. */
  lemma ReplacedIsOutdone(actions: seq<Action>, override: Override, e: Event)
    requires e in Run(actions, override).replaced
    ensures Outdone(Ever(Run(actions, override)), e)
  {
    RunKeepsInv(actions, override);
  }

  ghost predicate IsBest(versions: set<Event>, best: Event) {
    best in versions && forall x :: x in versions ==> x == best || Better(best, x)
  }

  /** Replacement never hides the best version ever stored: unless its author
      deleted it or a TTL removed it, a query for the slot answers with it and
      nothing else. */
  lemma BestIsServed(actions: seq<Action>, override: Override, best: Event, limit: nat)
    requires var s := Run(actions, override);
      && IsReplaceable(best.kind) && IsBest(Versions(s, best.pubkey, best.kind), best)
      && best.id !in s.deleted && best !in s.expired && limit >= 1
    ensures IsAnswer([best], Live(Run(actions, override), best.pubkey, best.kind), limit)
  {
    var s := Run(actions, override);
    RunKeepsInv(actions, override);
    EverSubmitted(s);
    if best.id in s.dict {
      var e :| e in s.replaced && e.id == best.id;
      assert e == best;
      var b :| b in Ever(s) && SameSlot(b, e) && Better(b, e);
      assert b in Versions(s, best.pubkey, best.kind);
      BeforeIrreflexive(true, b);
      BeforeAsymmetric(true, b, best);
      assert false;
    }
    SingleSlot(Live(s, best.pubkey, best.kind), best, limit);
  }

  lemma SingleSlot(live: set<Event>, best: Event, limit: nat)
    requires IsReplaceable(best.kind) && IsBest(live, best) && limit >= 1
    requires forall e :: e in live ==> SameSlot(e, best)
    ensures IsAnswer([best], live, limit)
  {
    assert IsWinner(live, best);
    forall e | e in Winners(live)
      ensures e == best
    {
      if e != best {
        assert Better(e, best) && Better(best, e);
        BeforeAsymmetric(true, best, e);
      }
    }
    assert Winners(live) == {best};
  }

  /** A slot with a stored version is never empty, unless its best version was
      deleted by its author or removed by a TTL. */
  lemma NeverEmpty(actions: seq<Action>, override: Override, pubkey: string, kind: int) returns (best: Event)
    requires var s := Run(actions, override); var versions := Versions(s, pubkey, kind);
      && IsReplaceable(kind) && versions != {}
      && forall v :: IsBest(versions, v) ==> v.id !in s.deleted && v !in s.expired
    ensures IsBest(Versions(Run(actions, override), pubkey, kind), best)
    ensures forall limit: nat :: limit >= 1 ==> IsAnswer([best], Live(Run(actions, override), pubkey, kind), limit)
  {
    var s := Run(actions, override);
    RunKeepsInv(actions, override);
    EverSubmitted(s);
    best := BestExists(Versions(s, pubkey, kind));
    assert IsBest(Versions(s, pubkey, kind), best);
    forall limit: nat | limit >= 1
      ensures IsAnswer([best], Live(s, pubkey, kind), limit)
    {
      BestIsServed(actions, override, best, limit);
    }
  }

  ghost predicate Expires(actions: seq<Action>, e: Event) {
    exists i :: 0 <= i < |actions| && actions[i].Expire? && e in actions[i].gone
  }

  /** Stored versions stay stored, across every continuation of a run in which no
      TTL removes them. */
  lemma {:induction false} VersionsPersist(first: seq<Action>, more: seq<Action>, override: Override)
    ensures var s, s1 := Run(first, override), Run(first + more, override);
      && Ever(s) <= Ever(s1)
      && forall e :: e in s1.expired ==> e in s.expired || Expires(more, e)
    decreases |more|
  {
    if more == [] {
      assert first + more == first;
    } else {
      var p, last := more[..|more| - 1], more[|more| - 1];
      assert (first + more)[..|first + more| - 1] == first + p;
      VersionsPersist(first, p, override);
      RunKeepsInv(first + p, override);
      if Enabled(Run(first + p, override), last, override) {
        EverGrows(Run(first + p, override), last, override);
      }
    }
  }

  /** Order independence: however `ReplaceEvent` calls are ordered or overlap, once
      the best version ever submitted for a slot has been acknowledged, it is the
      one served. */
  lemma NewestAcknowledgedIsServed(actions: seq<Action>, override: Override, newest: Event, limit: nat)
    requires var s := Run(actions, override);
      && IsReplaceable(newest.kind) && newest in s.acked && newest.id !in s.deleted && newest !in s.expired && limit >= 1
      && forall e :: e in s.submitted && SameSlot(e, newest) ==> e == newest || Better(newest, e)
    ensures IsAnswer([newest], Live(Run(actions, override), newest.pubkey, newest.kind), limit)
  {
    var s := Run(actions, override);
    RunKeepsInv(actions, override);
    EverSubmitted(s);
    if newest !in Ever(s) {
      var b :| b in Ever(s) && SameSlot(b, newest) && Better(b, newest);
      if b != newest {
        BeforeAsymmetric(true, b, newest);
      } else {
        BeforeIrreflexive(true, b);
      }
      assert false;
    }
    BestIsServed(actions, override, newest, limit);
  }

  /** While better versions are in flight: a slot whose best stored version is
      neither deleted nor expired answers with an acknowledged version or a better one. */
  lemma AcknowledgedOrBetter(actions: seq<Action>, override: Override, e: Event) returns (best: Event)
    requires var s := Run(actions, override); var versions := Versions(s, e.pubkey, e.kind);
      && IsReplaceable(e.kind) && e in s.acked
      && forall v :: IsBest(versions, v) ==> v.id !in s.deleted && v !in s.expired
    ensures best == e || Better(best, e)
    ensures forall limit: nat :: limit >= 1 ==> IsAnswer([best], Live(Run(actions, override), e.pubkey, e.kind), limit)
  {
    RunKeepsInv(actions, override);
    var b := MatchingVersion(Run(actions, override), e);
    best := NeverEmpty(actions, override, e.pubkey, e.kind);
    if best != b && b != e {
      BeforeTransitive(true, best, b, e);
    }
  }

  lemma MatchingVersion(s: State, e: Event) returns (b: Event)
    requires Matched(Ever(s), e)
    ensures b in Versions(s, e.pubkey, e.kind) && (b == e || Better(b, e))
  {
    if e in Ever(s) {
      b := e;
    } else {
      b :| b in Ever(s) && SameSlot(b, e) && Better(b, e);
    }
  }

  // ---- end to end ----

  /** Every row is where its kind routes to, and fits the table's columns. */
  ghost predicate RoutedInv(s: State, override: Override) {
    && (forall t, e :: t in s.logs && e in s.logs[t].accepted ==> ClassifyWithOverride(e.kind, override) == t)
    && (forall e :: e in s.extra ==> ClassifyWithOverride(e.kind, override) in ACTIVE_TIERS)
    && (forall e :: e in s.submitted ==> Storable(e))
  }

  lemma StepKeepsRouting(s: State, a: Action, override: Override)
    requires StoreInv(s) && RoutedInv(s, override) && (forall c :: c in s.calls ==> s.calls[c].evt in s.submitted)
    ensures RoutedInv(Step(s, a, override), override)
  {
    if Enabled(s, a, override) {
      var s1 := Apply(s, a, override);
      match a {
        case Store(c) =>
          if s.calls[c].phase.shouldStore {
            AcceptKeepsRouting(s, s.calls[c].evt, override);
          }
        case Save(evt) =>
          AcceptKeepsRouting(s, evt, override);
        case HalfInsert(t, n) =>
          assert forall e :: e in s1.extra ==> e in s.extra || e in s.logs[t].accepted;
        case Crash =>
          forall t | t in s.logs
            ensures forall e :: e in s1.logs[t].accepted ==> e in s.logs[t].accepted
          {
            LogSteps(s.logs[t], Event("", "", 0, 0, [], "", ""), 0);
          }
        case _ =>
      }
    }
  }

  lemma AcceptKeepsRouting(s: State, e: Event, override: Override)
    requires RoutedInv(s, override) && CanAccept(s, e, override)
    ensures RoutedInv(Accept(s, e, override), override)
  {
  }

  lemma {:induction false} RunKeepsRouting(actions: seq<Action>, override: Override)
    ensures RoutedInv(Run(actions, override), override)
    decreases |actions|
  {
    if actions != [] {
      RunKeepsRouting(actions[..|actions| - 1], override);
      RunKeepsInv(actions[..|actions| - 1], override);
      StepKeepsRouting(Run(actions[..|actions| - 1], override), actions[|actions| - 1], override);
    }
  }

  /** The rows of one tier's table. */
  ghost function TableOf(s: State, t: Tier, override: Override): set<Event> {
    (StoredIn(s, t) + set e | e in s.extra && ClassifyWithOverride(e.kind, override) == t) - s.expired
  }

  /** The tier tables and dictionary of a state, as queries read them. */
  ghost predicate Presents(db: Tiers, s: State, override: Override) {
    && (forall t :: t in db <==> t in ACTIVE_TIERS)
    && (forall t :: t in db ==>
          db[t].Some? && Elems(db[t].value.rows) == TableOf(s, t, override) && db[t].value.rd.dead == s.dict)
  }

  /** A visible row is in the table of its tier, and in no other. */
  lemma RowIsInItsTier(s: State, override: Override, e: Event)
    requires StoreInv(s) && RoutedInv(s, override)
    ensures var t := ClassifyWithOverride(e.kind, override);
      e in Ever(s) - s.expired <==> t in ACTIVE_TIERS && e in TableOf(s, t, override)
    ensures forall t :: t in ACTIVE_TIERS && e in TableOf(s, t, override) ==>
      ClassifyWithOverride(e.kind, override) == t && e in s.submitted
  {
  }

  function SlotFilter(pubkey: string, kind: int, limit: int): Filter {
    Filter([], [pubkey], [kind], map[], None, None, limit)
  }

  /** The rows a REQ for one author and kind ranges over are the live versions of the slot. */
  lemma SlotQueryReadsLive(db: Tiers, s: State, override: Override, pubkey: string, kind: int, limit: int)
    requires StoreInv(s) && RoutedInv(s, override) && Presents(db, s, override) && IsReplaceable(kind)
    ensures SelectedIn(SlotFilter(pubkey, kind, limit), db, ACTIVE_TIERS) == Live(s, pubkey, kind)
  {
    var f := SlotFilter(pubkey, kind, limit);
    forall e
      ensures e in SelectedIn(f, db, ACTIVE_TIERS) <==> e in Live(s, pubkey, kind)
    {
      RowIsInItsTier(s, override, e);
      if e in SelectedIn(f, db, ACTIVE_TIERS) {
        var t :| t in ACTIVE_TIERS && e in TierRows(f, db, t);
        SlotTierRows(db, s, override, t, pubkey, kind, limit, e);
      } else if e in Live(s, pubkey, kind) {
        SlotTierRows(db, s, override, ClassifyWithOverride(e.kind, override), pubkey, kind, limit, e);
      }
    }
  }

  lemma SlotTierRows(db: Tiers, s: State, override: Override, t: Tier, pubkey: string, kind: int, limit: int, e: Event)
    requires Presents(db, s, override) && t in ACTIVE_TIERS && IsReplaceable(kind)
    ensures e in TierRows(SlotFilter(pubkey, kind, limit), db, t)
       <==> e in TableOf(s, t, override) && e.pubkey == pubkey && e.kind == kind && e.id !in s.dict
  {
    SlotSelects(pubkey, kind, limit, e, db[t].value.rd);
    assert e in db[t].value.rows <==> e in Elems(db[t].value.rows);
  }

  lemma SlotSelects(pubkey: string, kind: int, limit: int, e: Event, rd: Reader)
    requires IsReplaceable(kind)
    ensures Selects(SlotFilter(pubkey, kind, limit), e, rd) <==> e.pubkey == pubkey && e.kind == kind && e.id !in rd.dead
  {
    SmallKindsFit([kind]);
  }

  /** What the tier queries rely on. */
  lemma TablesAreSound(s: State, override: Override, db: Tiers)
    requires StoreInv(s) && RoutedInv(s, override) && Presents(db, s, override)
    ensures Placed(db, override) && AllStorable(db) && IdsDetermine(AllRows(db))
  {
    forall t, e | t in db && e in db[t].value.rows
      ensures ClassifyWithOverride(e.kind, override) == t && e in s.submitted
    {
      assert e in Elems(db[t].value.rows);
      RowIsInItsTier(s, override, e);
    }
    assert AllRows(db) <= s.submitted;
  }

  /** End to end: in every reachable state, once the best version ever submitted
      for a slot is acknowledged, the REQ for the slot returns it and nothing else. */
  method SlotRequest(ghost actions: seq<Action>, override: Override, db: Tiers, ghost newest: Event,
                     pubkey: string, kind: int, limit: int) returns (r: Result)
    requires var s := Run(actions, override);
      && Presents(db, s, override) && newest.pubkey == pubkey && newest.kind == kind
      && IsReplaceable(newest.kind) && newest in s.acked && newest.id !in s.deleted && newest !in s.expired
      && forall e :: e in s.submitted && SameSlot(e, newest) ==> e == newest || Better(newest, e)
    ensures r == Ok([newest])
  {
    var f := SlotFilter(pubkey, kind, limit);
    RunKeepsInv(actions, override);
    RunKeepsRouting(actions, override);
    TablesAreSound(Run(actions, override), override, db);
    r := CollectTiers(f, [], db, override);
    SlotAnswer(actions, override, db, newest, limit, r);
  }

  lemma SlotAnswer(actions: seq<Action>, override: Override, db: Tiers, newest: Event, limit: int, r: Result)
    requires var s := Run(actions, override);
      && Presents(db, s, override) && AllStorable(db)
      && IsReplaceable(newest.kind) && newest in s.acked && newest.id !in s.deleted && newest !in s.expired
      && forall e :: e in s.submitted && SameSlot(e, newest) ==> e == newest || Better(newest, e)
    requires var f := SlotFilter(newest.pubkey, newest.kind, limit);
      && (r.Err? <==> TierFails(f, db, override))
      && (r.Ok? && KindsFit(f.kinds) && AllStorable(db) ==>
            IsAnswer(r.events, SelectedIn(f, db, ACTIVE_TIERS), if 1 <= f.limit <= 1000 then f.limit else 1000))
    ensures r == Ok([newest])
  {
    var s, f := Run(actions, override), SlotFilter(newest.pubkey, newest.kind, limit);
    SmallKindsFit(f.kinds);
    RunKeepsInv(actions, override);
    RunKeepsRouting(actions, override);
    SlotQueryReadsLive(db, s, override, newest.pubkey, newest.kind, limit);
    NewestAcknowledgedIsServed(actions, override, newest, if 1 <= f.limit <= 1000 then f.limit else 1000);
    TopIsUnique(r.events, [newest], Winners(Live(s, newest.pubkey, newest.kind)), if 1 <= f.limit <= 1000 then f.limit else 1000);
  }
}
