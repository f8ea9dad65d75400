/** The future-event scheduler of `internal/scheduler/scheduler.go`, its rows in
    `internal/control/control.go`, the `save` closure of `internal/relay/relay.go`
    that composes it with the store, and what the store then does with an event:
    it waits in a tier batcher until it is delivered, and a crash in between loses
    it. Times are unix seconds. */
module Scheduler {
  import opened Events
  import opened Classifier
  import opened DeliveryLog

  const DUE_LIMIT: nat := 100

  /** A row of scheduled_events; `json` is `None` when it does not parse. */
  datatype Row = Row(json: Option<Event>, publishAt: int)

  datatype Origin = Client | Crawler | FromRow

  /** An event handed to the store, when, and on whose behalf. */
  datatype Handed = Handed(evt: Event, at: int, origin: Origin)

  /** An event reaching `save`, and how parking it or handing it on would go. */
  datatype Submission = Submission(evt: Event, now: int, parkOk: bool, room: bool)

  /** What other goroutines do: a client sends an EVENT, a crawler saves one past
      the closure, a batcher delivers the next `n` events of its tier. */
  datatype Arrival =
    | Sends(sub: Submission)
    | Crawls(evt: Event, now: int, room: bool)
    | Delivers(tier: Tier, n: nat)

  /** One due row: how long after the query it is published, whether its batcher
      has room, whether the row can be deleted. */
  datatype Play = Play(delay: nat, room: bool, deleteOk: bool)

  /** An arrival; a tick with its time, what the query returns, how each row goes
      and what arrives before each row; or a crash. A crash in the middle of a tick
      is one after a tick whose remaining rows all fail. */
  datatype Op =
    | Arrive(arrival: Arrival)
    | Tick(now: int, due: seq<string>, plays: nat -> Play, between: nat -> seq<Arrival>)
    | Crash

  type Logs = map<Tier, Log>

  predicate ShouldDefer(evt: Event, now: int, buffer: nat) {
    evt.createdAt > now + buffer
  }

  /** `SaveEvent` takes an event of a stored kind when its batcher has room. */
  predicate Takes(evt: Event, room: bool, override: Override) {
    ClassifyWithOverride(evt.kind, override) in ACTIVE_TIERS && room
  }

  predicate Parks(s: Submission, buffer: nat) {
    ShouldDefer(s.evt, s.now, buffer) && s.parkOk
  }

  predicate Stores(s: Submission, buffer: nat, override: Override) {
    !ShouldDefer(s.evt, s.now, buffer) && Takes(s.evt, s.room, override)
  }

  /** `SELECT … WHERE publish_at <= ? ORDER BY publish_at LIMIT 100`. */
  predicate IsDue(due: seq<string>, rows: map<string, Row>, now: int) {
    && |due| <= DUE_LIMIT
    && (forall i :: 0 <= i < |due| ==> due[i] in rows && rows[due[i]].publishAt <= now)
    && (forall i, j :: 0 <= i < j < |due| ==> due[i] != due[j] && rows[due[i]].publishAt <= rows[due[j]].publishAt)
    && (forall id :: id in rows && rows[id].publishAt <= now && id !in due ==>
          |due| == DUE_LIMIT && forall i :: 0 <= i < |due| ==> rows[due[i]].publishAt <= rows[id].publishAt)
  }

  // ---- where an event is ----

  ghost predicate LogsOk(logs: Logs) {
    forall t :: t in ACTIVE_TIERS ==> t in logs && logs[t].Valid()
  }

  predicate Parked(rows: map<string, Row>, e: Event) {
    e.id in rows && rows[e.id].json == Some(e)
  }

  /** In its tier's batcher or table. */
  predicate InLog(logs: Logs, override: Override, e: Event) {
    var t := ClassifyWithOverride(e.kind, override);
    t in logs && e in logs[t].accepted
  }

  /** In its tier's table. */
  predicate OnDisk(logs: Logs, override: Override, e: Event) {
    var t := ClassifyWithOverride(e.kind, override);
    t in logs && logs[t].delivered <= |logs[t].accepted| && e in logs[t].accepted[..logs[t].delivered]
  }

  /** Nothing has left the store. */
  ghost predicate LogsGrow(logs: Logs, logs': Logs, override: Override) {
    forall e :: InLog(logs, override, e) ==> InLog(logs', override, e)
  }

  predicate Kept(rows: map<string, Row>, logs: Logs, override: Override, e: Event) {
    Parked(rows, e) || InLog(logs, override, e)
  }

  /** The accepted deferred events that are nowhere any more. */
  ghost function Lost(deferred: set<Event>, rows: map<string, Row>, logs: Logs, override: Override): set<Event> {
    set e | e in deferred && !Kept(rows, logs, override, e)
  }

  /** Those that a crash would lose: their row is gone, and their batcher has not
      delivered them. */
  ghost function AtRisk(deferred: set<Event>, rows: map<string, Row>, logs: Logs, override: Override): set<Event> {
    set e | e in deferred && !Parked(rows, e) && InLog(logs, override, e) && !OnDisk(logs, override, e)
  }

  function Accepting(logs: Logs, override: Override, e: Event): Logs {
    var t := ClassifyWithOverride(e.kind, override);
    if t in logs then logs[t := logs[t].Accept(e)] else logs
  }

  lemma AcceptAdds(logs: Logs, override: Override, e: Event)
    requires LogsOk(logs) && ClassifyWithOverride(e.kind, override) in ACTIVE_TIERS
    ensures LogsOk(Accepting(logs, override, e))
    ensures forall x :: InLog(Accepting(logs, override, e), override, x) <==> InLog(logs, override, x) || x == e
  {
  }

  function Delivering(logs: Logs, t: Tier, n: nat): Logs {
    if t in logs then logs[t := logs[t].Deliver(n)] else logs
  }

  /** What its batcher has delivered survives a crash. */
  lemma DeliveredIsSafe(logs: Logs, override: Override, e: Event, n: nat)
    requires LogsOk(logs) && InLog(logs, override, e) && ClassifyWithOverride(e.kind, override) in ACTIVE_TIERS
    requires var l := logs[ClassifyWithOverride(e.kind, override)]; l.delivered + n >= |l.accepted|
    ensures var logs' := Delivering(logs, ClassifyWithOverride(e.kind, override), n);
      OnDisk(logs', override, e) && InLog(Crashing(logs'), override, e)
  {
    var t := ClassifyWithOverride(e.kind, override);
    var logs' := Delivering(logs, t, n);
    LogSteps(logs[t], e, n);
    assert e in Elems(logs[t].accepted) && logs'[t].Stored() == Elems(logs[t].accepted);
    CrashKeepsDisk(logs', override);
  }

  function Crashing(logs: Logs): Logs {
    map t | t in logs && logs[t].delivered <= |logs[t].accepted| :: logs[t].Crash()
  }

  lemma CrashKeepsDisk(logs: Logs, override: Override)
    requires LogsOk(logs)
    ensures LogsOk(Crashing(logs))
    ensures forall x :: InLog(Crashing(logs), override, x) <==> OnDisk(logs, override, x)
  {
  }

  /** The event that goes with a deleted row: parked over an unparsable one after the query. */
  function Displaced(rows: map<string, Row>, logs: Logs, override: Override, id: string, row: Row, play: Play): set<Event> {
    if row.json.None? && play.deleteOk && id in rows && rows[id].json.Some? && !InLog(logs, override, rows[id].json.value)
    then {rows[id].json.value} else {}
  }

  /** Deleting a row loses its event when it is nowhere else. */
  lemma DeleteLoses(deferred: set<Event>, rows: map<string, Row>, id: string, logs: Logs, override: Override)
    requires id in rows && rows[id].json.Some? ==> rows[id].json.value in deferred && rows[id].json.value.id == id
    ensures Lost(deferred, rows - {id}, logs, override)
         == Lost(deferred, rows, logs, override)
          + if id in rows && rows[id].json.Some? && !InLog(logs, override, rows[id].json.value)
            then {rows[id].json.value} else {}
  {
  }

  // ---- what arrivals do ----

  function RowsAfter(rows: map<string, Row>, a: Arrival, buffer: nat): map<string, Row> {
    if a.Sends? && Parks(a.sub, buffer) then rows[a.sub.evt.id := Row(Some(a.sub.evt), a.sub.evt.createdAt)] else rows
  }

  function DeferredAfter(deferred: set<Event>, a: Arrival, buffer: nat): set<Event> {
    if a.Sends? && Parks(a.sub, buffer) then deferred + {a.sub.evt} else deferred
  }

  function LogsAfter(logs: Logs, a: Arrival, buffer: nat, override: Override): Logs {
    match a
    case Sends(sub) => if Stores(sub, buffer, override) then Accepting(logs, override, sub.evt) else logs
    case Crawls(evt, _, room) => if Takes(evt, room, override) then Accepting(logs, override, evt) else logs
    case Delivers(t, n) => Delivering(logs, t, n)
  }

  /** The event that is parked or handed on. */
  function Welcome(a: Arrival, buffer: nat, override: Override): set<Event> {
    match a
    case Sends(sub) => if Parks(sub, buffer) || Stores(sub, buffer, override) then {sub.evt} else {}
    case Crawls(evt, _, room) => if Takes(evt, room, override) then {evt} else {}
    case Delivers(_, _) => {}
  }

  /** An arrival takes nothing away, and brings back what it accepts. */
  lemma ArrivalKeeps(deferred: set<Event>, rows: map<string, Row>, logs: Logs, a: Arrival, buffer: nat, override: Override)
    requires LogsOk(logs)
    requires a.Sends? && a.sub.evt.id in rows && rows[a.sub.evt.id].json.Some? ==>
      rows[a.sub.evt.id].json.value == a.sub.evt
    ensures var logs' := LogsAfter(logs, a, buffer, override);
      && LogsOk(logs') && LogsGrow(logs, logs', override)
      && Lost(DeferredAfter(deferred, a, buffer), RowsAfter(rows, a, buffer), logs', override)
         == Lost(deferred, rows, logs, override) - Welcome(a, buffer, override)
  {
    var logs' := LogsAfter(logs, a, buffer, override);
    match a {
      case Sends(sub) =>
        if Stores(sub, buffer, override) {
          AcceptAdds(logs, override, sub.evt);
        }
      case Crawls(evt, _, room) =>
        if Takes(evt, room, override) {
          AcceptAdds(logs, override, evt);
        }
      case Delivers(t, n) =>
        assert forall e :: InLog(logs, override, e) <==> InLog(logs', override, e);
    }
  }

  // ---- who handed what to the store, and when ----

  /** What a row publishes is handed on no earlier than its created_at, what a
      client sends not while it would be deferred. */
  ghost predicate InTime(handed: seq<Handed>, buffer: nat) {
    forall h :: h in handed ==>
      && (h.origin.Client? ==> !ShouldDefer(h.evt, h.at, buffer))
      && (h.origin.FromRow? ==> h.at >= h.evt.createdAt)
  }

  /** What came from outside, in order. */
  function Outside(handed: seq<Handed>): seq<Handed> {
    if handed == [] then []
    else
      var last := handed[|handed| - 1];
      Outside(handed[..|handed| - 1]) + if last.origin.FromRow? then [] else [last]
  }

  function Handing(a: Arrival, buffer: nat, override: Override): seq<Handed> {
    match a
    case Sends(sub) => if Stores(sub, buffer, override) then [Handed(sub.evt, sub.now, Client)] else []
    case Crawls(evt, now, room) => if Takes(evt, room, override) then [Handed(evt, now, Crawler)] else []
    case Delivers(_, _) => []
  }

  /** What the arrivals should have handed on. */
  function HandingAll(arrivals: seq<Arrival>, buffer: nat, override: Override): seq<Handed> {
    if arrivals == [] then []
    else HandingAll(arrivals[..|arrivals| - 1], buffer, override) + Handing(arrivals[|arrivals| - 1], buffer, override)
  }

  /** An event is handed to the store before its created_at. */
  ghost predicate HandedEarly(handed: seq<Handed>, e: Event) {
    exists h :: h in handed && h.evt == e && h.at < e.createdAt
  }

  /** A client sent it when it was no longer far enough ahead to be deferred, or a
      crawler fetched it ahead of its time. */
  predicate ArrivesEarly(a: Arrival, e: Event, buffer: nat, override: Override) {
    match a
    case Sends(sub) =>
      sub.evt == e && Takes(e, sub.room, override) && e.createdAt - buffer <= sub.now < e.createdAt
    case Crawls(evt, now, room) => evt == e && Takes(e, room, override) && now < e.createdAt
    case Delivers(_, _) => false
  }

  lemma {:induction false} OutsideHas(handed: seq<Handed>, h: Handed)
    ensures h in Outside(handed) <==> h in handed && !h.origin.FromRow?
    decreases |handed|
  {
    if handed != [] {
      OutsideHas(handed[..|handed| - 1], h);
      assert handed == handed[..|handed| - 1] + [handed[|handed| - 1]];
    }
  }

  ghost predicate HandedBy(arrivals: seq<Arrival>, h: Handed, buffer: nat, override: Override) {
    exists a :: a in arrivals && h in Handing(a, buffer, override)
  }

  lemma {:induction false} HandingHas(arrivals: seq<Arrival>, h: Handed, buffer: nat, override: Override)
    ensures h in HandingAll(arrivals, buffer, override) <==> HandedBy(arrivals, h, buffer, override)
    decreases |arrivals|
  {
    if arrivals != [] {
      HandingHas(arrivals[..|arrivals| - 1], h, buffer, override);
      assert arrivals == arrivals[..|arrivals| - 1] + [arrivals[|arrivals| - 1]];
    }
  }

  lemma HandedSnoc(handed: seq<Handed>, h: Handed)
    ensures Outside(handed + [h]) == Outside(handed) + if h.origin.FromRow? then [] else [h]
  {
  }

  lemma ArrivalSnoc(arrivals: seq<Arrival>, a: Arrival, buffer: nat, override: Override)
    ensures HandingAll(arrivals + [a], buffer, override)
         == HandingAll(arrivals, buffer, override) + Handing(a, buffer, override)
  {
  }

  lemma EarlyIff(handed: seq<Handed>, arrivals: seq<Arrival>, e: Event, buffer: nat, override: Override)
    requires InTime(handed, buffer) && Outside(handed) == HandingAll(arrivals, buffer, override)
    ensures HandedEarly(handed, e) <==> exists a :: a in arrivals && ArrivesEarly(a, e, buffer, override)
  {
    if HandedEarly(handed, e) {
      var h :| h in handed && h.evt == e && h.at < e.createdAt;
      OutsideHas(handed, h);
      HandingHas(arrivals, h, buffer, override);
      var a :| a in arrivals && h in Handing(a, buffer, override);
      assert ArrivesEarly(a, e, buffer, override);
    }
    if a :| a in arrivals && ArrivesEarly(a, e, buffer, override) {
      var h := if a.Sends? then Handed(e, a.sub.now, Client) else Handed(e, a.now, Crawler);
      assert h in Handing(a, buffer, override);
      OutsideHas(handed, h);
      HandingHas(arrivals, h, buffer, override);
    }
  }

  function Flat(between: nat -> seq<Arrival>, n: nat): seq<Arrival> {
    if n == 0 then [] else Flat(between, n - 1) + between(n - 1)
  }

  lemma {:induction false} FlatHas(between: nat -> seq<Arrival>, n: nat)
    ensures forall a :: a in Flat(between, n) ==> exists i :: a in between(i)
  {
    if n > 0 {
      FlatHas(between, n - 1);
    }
  }

  /** What arrives during one operation, and during a run. */
  function ArrivingIn(op: Op): seq<Arrival> {
    match op
    case Arrive(a) => [a]
    case Tick(_, due, _, between) => Flat(between, |due|)
    case Crash => []
  }

  function Arriving(ops: seq<Op>): seq<Arrival> {
    if ops == [] then [] else Arriving(ops[..|ops| - 1]) + ArrivingIn(ops[|ops| - 1])
  }

  lemma FlatSnoc(arrivals: seq<Arrival>, between: nat -> seq<Arrival>, n: nat)
    ensures arrivals + Flat(between, n) + between(n) == arrivals + Flat(between, n + 1)
  {
  }

  lemma ArrivingSnoc(arrivals: seq<Arrival>, ops: seq<Op>, i: nat)
    requires i < |ops|
    ensures arrivals + Arriving(ops[..i]) + ArrivingIn(ops[i]) == arrivals + Arriving(ops[..i + 1])
  {
    assert ops[..i + 1][..i] == ops[..i];
  }

  class EventScheduler {
    const buffer: nat
    const override: Override
    const eventOf: string -> Event  // an id is a hash: it names one event
    var rows: map<string, Row>
    var logs: Logs

    ghost var handed: seq<Handed>
    ghost var arrivals: seq<Arrival>
    ghost var deferred: set<Event>

    ghost predicate Valid()
      reads this
    {
      && (forall id :: id in rows && rows[id].json.Some? ==>
            rows[id].json.value == eventOf(id) && rows[id].publishAt == eventOf(id).createdAt && eventOf(id) in deferred)
      && (forall id :: eventOf(id).id == id)
      && LogsOk(logs)
      && InTime(handed, buffer) && Outside(handed) == HandingAll(arrivals, buffer, override)
    }

    /** The accepted deferred events that are neither parked nor in the store. */
    ghost function Gone(): set<Event>
      reads this
    {
      Lost(deferred, rows, logs, override)
    }

    ghost predicate AllParse()
      reads `rows
    {
      forall id :: id in rows ==> rows[id].json.Some?
    }

    /** Exactly when an event, deferred or not, is handed to the store before its time. */
    lemma HandedEarlyIff(e: Event)
      requires Valid()
      ensures HandedEarly(handed, e) <==> exists a :: a in arrivals && ArrivesEarly(a, e, buffer, override)
    {
      EarlyIff(handed, arrivals, e, buffer, override);
    }

    /** Rows and tables may be left from an earlier process. */
    constructor (buffer: nat, override: Override, eventOf: string -> Event, rows: map<string, Row>, logs: Logs)
      requires forall id :: eventOf(id).id == id
      requires forall id :: id in rows && rows[id].json.Some? ==>
        rows[id].json.value == eventOf(id) && rows[id].publishAt == eventOf(id).createdAt
      requires LogsOk(logs)
      ensures Valid() && this.buffer == buffer && this.override == override && this.eventOf == eventOf
      ensures this.rows == rows && this.logs == logs && handed == [] && arrivals == [] && Gone() == {}
      ensures deferred == set id | id in rows && rows[id].json.Some? :: eventOf(id)
    {
      this.buffer := buffer;
      this.override := override;
      this.eventOf := eventOf;
      this.rows := rows;
      this.logs := logs;
      handed, arrivals := [], [];
      deferred := set id | id in rows && rows[id].json.Some? :: eventOf(id);
    }

    /** `Store.SaveEvent`. */
    method SaveEvent(evt: Event, now: int, room: bool, origin: Origin) returns (ok: bool)
      requires LogsOk(logs)
      modifies `logs, `handed
      ensures LogsOk(logs) && (ok <==> Takes(evt, room, override))
      ensures logs == if ok then Accepting(old(logs), override, evt) else old(logs)
      ensures handed == if ok then old(handed) + [Handed(evt, now, origin)] else old(handed)
    {
      var t := ClassifyWithOverride(evt.kind, override);
      if t == Drop || t !in logs || !room {
        return false;
      }
      AcceptAdds(logs, override, evt);
      logs := logs[t := logs[t].Accept(evt)];
      handed := handed + [Handed(evt, now, origin)];
      ok := true;
    }

    /** The `save` closure: park what is too far in the future, hand on the rest; a
        failed park is an error, never a silent loss. Replaceable kinds do not come
        here: the relay hands them to the store's ReplaceEvent directly. */
    method Save(sub: Submission, origin: Origin) returns (ok: bool)
      requires LogsOk(logs)
      modifies `rows, `logs, `handed, `deferred
      ensures LogsOk(logs) && (ok <==> Parks(sub, buffer) || Stores(sub, buffer, override))
      ensures rows == if Parks(sub, buffer) then old(rows)[sub.evt.id := Row(Some(sub.evt), sub.evt.createdAt)] else old(rows)
      ensures deferred == if Parks(sub, buffer) then old(deferred) + {sub.evt} else old(deferred)
      ensures logs == if Stores(sub, buffer, override) then Accepting(old(logs), override, sub.evt) else old(logs)
      ensures handed == if Stores(sub, buffer, override) then old(handed) + [Handed(sub.evt, sub.now, origin)] else old(handed)
    {
      if ShouldDefer(sub.evt, sub.now, buffer) {
        ok := sub.parkOk;
        if ok {
          rows := rows[sub.evt.id := Row(Some(sub.evt), sub.evt.createdAt)];
          deferred := deferred + {sub.evt};
        }
      } else {
        ok := SaveEvent(sub.evt, sub.now, sub.room, origin);
      }
    }

    /** The effect of an arrival. */
    twostate predicate Received(a: Arrival)
      reads this
    {
      && arrivals == old(arrivals) + [a]
      && rows == RowsAfter(old(rows), a, buffer) && deferred == DeferredAfter(old(deferred), a, buffer)
      && logs == LogsAfter(old(logs), a, buffer, override) && Gone() == old(Gone()) - Welcome(a, buffer, override)
      && handed == old(handed) + Handing(a, buffer, override)
      && LogsGrow(old(logs), logs, override)
    }

    /** What other goroutines do. */
    method Receive(a: Arrival) returns (ok: bool)
      requires Valid() && Genuine(a)
      modifies `rows, `logs, `handed, `deferred, `arrivals
      ensures Valid() && Received(a)
      ensures ok <==> a.Delivers? || Welcome(a, buffer, override) != {}
    {
      match a
      case Sends(sub) =>
        ok := ReceiveFromClient(sub);
      case Crawls(evt, now, room) =>
        ok := ReceiveFromCrawler(evt, now, room);
      case Delivers(t, n) =>
        ArrivalKeeps(deferred, rows, logs, a, buffer, override);
        ArrivalSnoc(arrivals, a, buffer, override);
        arrivals := arrivals + [a];
        logs := Delivering(logs, t, n);
        ok := true;
    }

    method ReceiveFromClient(sub: Submission) returns (ok: bool)
      requires Valid() && sub.evt == eventOf(sub.evt.id)
      modifies `rows, `logs, `handed, `deferred, `arrivals
      ensures Valid() && Received(Sends(sub)) && (ok <==> Welcome(Sends(sub), buffer, override) != {})
    {
      ArrivalKeeps(deferred, rows, logs, Sends(sub), buffer, override);
      ArrivalSnoc(arrivals, Sends(sub), buffer, override);
      HandedSnoc(handed, Handed(sub.evt, sub.now, Client));
      arrivals := arrivals + [Sends(sub)];
      ok := Save(sub, Client);
    }

    method ReceiveFromCrawler(evt: Event, now: int, room: bool) returns (ok: bool)
      requires Valid()
      modifies `logs, `handed, `arrivals
      ensures Valid() && Received(Crawls(evt, now, room)) && (ok <==> Welcome(Crawls(evt, now, room), buffer, override) != {})
    {
      ArrivalKeeps(deferred, rows, logs, Crawls(evt, now, room), buffer, override);
      ArrivalSnoc(arrivals, Crawls(evt, now, room), buffer, override);
      HandedSnoc(handed, Handed(evt, now, Crawler));
      arrivals := arrivals + [Crawls(evt, now, room)];
      ok := SaveEvent(evt, now, room, Crawler);
    }

    method ReceiveAll(list: seq<Arrival>)
      requires Valid() && forall a :: a in list ==> Genuine(a)
      modifies `rows, `logs, `handed, `deferred, `arrivals
      ensures Valid() && arrivals == old(arrivals) + list && old(deferred) <= deferred && old(handed) <= handed
      ensures Gone() <= old(Gone()) && old(rows).Keys <= rows.Keys && (old(AllParse()) ==> AllParse())
      ensures LogsGrow(old(logs), logs, override)
    {
      for i := 0 to |list|
        invariant Valid() && arrivals == old(arrivals) + list[..i] && old(deferred) <= deferred && old(handed) <= handed
        invariant Gone() <= old(Gone()) && old(rows).Keys <= rows.Keys && (old(AllParse()) ==> AllParse())
        invariant LogsGrow(old(logs), logs, override)
      {
        var _ := Receive(list[i]);
        assert list[..i + 1] == list[..i] + [list[i]];
      }
      assert list[..|list|] == list;
    }

    /** One due row, as loaded by the query: an unparsable one is deleted; the event
        of any other is fed back through `save`, which cannot park it again, and
        deleted once its batcher has taken it. */
    method PublishOne(id: string, row: Row, now: int, play: Play)
      requires Valid() && Ripe(id, row, now)
      modifies `rows, `logs, `handed, `deferred
      ensures Valid() && deferred == old(deferred)
      ensures var taken := row.json.Some? && Takes(eventOf(id), play.room, override);
        && rows == (if (row.json.None? || taken) && play.deleteOk then old(rows) - {id} else old(rows))
        && logs == (if taken then Accepting(old(logs), override, eventOf(id)) else old(logs))
        && handed == (if taken then old(handed) + [Handed(eventOf(id), now + play.delay, FromRow)] else old(handed))
        && Gone() == old(Gone()) - (if taken then {eventOf(id)} else {})
                   + old(Displaced(rows, logs, override, id, row, play))
    {
      if row.json.Some? {
        var ok := HandOn(row.json.value, now + play.delay, play.room);
        if !ok {
          return;
        }
      }
      if play.deleteOk {
        DeleteRow(id);
      }
    }

    /** The event of a due row back through `save`. */
    method HandOn(evt: Event, now: int, room: bool) returns (ok: bool)
      requires Valid() && evt.createdAt <= now
      modifies `rows, `logs, `handed, `deferred
      ensures Valid() && deferred == old(deferred) && rows == old(rows) && (ok <==> Takes(evt, room, override))
      ensures logs == if ok then Accepting(old(logs), override, evt) else old(logs)
      ensures handed == if ok then old(handed) + [Handed(evt, now, FromRow)] else old(handed)
      ensures Gone() == old(Gone()) - if ok then {evt} else {}
      ensures ok ==> InLog(logs, override, evt)
    {
      HandedSnoc(handed, Handed(evt, now, FromRow));
      if Takes(evt, room, override) {
        AcceptAdds(logs, override, evt);
      }
      ok := Save(Submission(evt, now, true, room), FromRow);
    }

    /** `DeleteScheduled`. */
    method DeleteRow(id: string)
      requires Valid()
      modifies `rows
      ensures Valid() && rows == old(rows) - {id}
      ensures Gone() == old(Gone()) +
        if id in old(rows) && old(rows)[id].json.Some? && !InLog(logs, override, old(rows)[id].json.value)
        then {old(rows)[id].json.value} else {}
    {
      DeleteLoses(deferred, rows, id, logs, override);
      rows := rows - {id};
    }

    /** `publishDue`, with arrivals before each row: no row disappears unless its
        event was handed to the store or it did not parse. An event whose batcher
        has room is handed on, and so is every deferred event whose time has come
        when fewer than 100 rows are due and all batchers have room. */
    method PublishDue(now: int, due: seq<string>, plays: nat -> Play, between: nat -> seq<Arrival>)
      requires Valid() && IsDue(due, rows, now)
      requires forall i, a :: a in between(i) ==> Genuine(a)
      modifies `rows, `logs, `handed, `deferred, `arrivals
      ensures Valid() && arrivals == old(arrivals) + Flat(between, |due|)
      ensures old(deferred) <= deferred && old(handed) <= handed
      ensures Publishing(old(rows), rows, logs, override, due, plays, |due|)
      ensures |due| < 100 && (forall i: nat :: plays(i).room) ==>
        NoneOverdue(old(deferred) - old(Gone()), now, logs, override)
      ensures old(AllParse()) ==> AllParse() && Gone() <= old(Gone())
    {
      PublishRows(now, due, plays, between);
      if |due| < DUE_LIMIT && forall i: nat :: plays(i).room {
        NothingOverdue(old(deferred), old(rows), old(logs), rows, logs, override, due, plays, now);
      }
    }

    /** Each row of the result can be published now. */
    ghost predicate Publishable(due: seq<string>, loaded: map<string, Row>, now: int) {
      forall i :: 0 <= i < |due| ==> due[i] in loaded && Ripe(due[i], loaded[due[i]], now)
    }

    ghost predicate Ripe(id: string, row: Row, now: int) {
      row.json.Some? ==> row.json.value == eventOf(id) && eventOf(id).createdAt <= now
    }

    method PublishRows(now: int, due: seq<string>, plays: nat -> Play, between: nat -> seq<Arrival>)
      requires Valid() && Publishable(due, rows, now)
      requires forall i, a :: a in between(i) ==> Genuine(a)
      modifies `rows, `logs, `handed, `deferred, `arrivals
      ensures Valid() && arrivals == old(arrivals) + Flat(between, |due|)
      ensures old(deferred) <= deferred && old(handed) <= handed
      ensures Publishing(old(rows), rows, logs, override, due, plays, |due|)
      ensures LogsGrow(old(logs), logs, override)
      ensures old(AllParse()) ==> AllParse() && Gone() <= old(Gone())
    {
      var loaded := rows;
      ghost var parse, gone := AllParse(), Gone();
      for n := 0 to |due|
        invariant Valid() && arrivals == old(arrivals) + Flat(between, n)
        invariant old(deferred) <= deferred && old(handed) <= handed
        invariant Publishing(loaded, rows, logs, override, due, plays, n)
        invariant LogsGrow(old(logs), logs, override)
        invariant parse ==> AllParse() && Gone() <= gone
      {
        FlatSnoc(old(arrivals), between, n);
        PublishNext(now, due, n, loaded, plays, between(n));
      }
    }

    method PublishNext(now: int, due: seq<string>, n: nat, loaded: map<string, Row>, plays: nat -> Play, list: seq<Arrival>)
      requires Valid() && n < |due| && due[n] in loaded && Publishing(loaded, rows, logs, override, due, plays, n)
      requires Ripe(due[n], loaded[due[n]], now)
      requires forall a :: a in list ==> Genuine(a)
      modifies `rows, `logs, `handed, `deferred, `arrivals
      ensures Valid() && arrivals == old(arrivals) + list && old(deferred) <= deferred && old(handed) <= handed
      ensures Publishing(loaded, rows, logs, override, due, plays, n + 1)
      ensures LogsGrow(old(logs), logs, override)
      ensures old(AllParse()) && loaded[due[n]].json.Some? ==> AllParse() && Gone() <= old(Gone())
    {
      ReceiveAll(list);
      ghost var rows1, logs1 := rows, logs;
      PublishingMore(loaded, old(rows), rows, old(logs), logs, override, due, plays, n);
      PublishOne(due[n], loaded[due[n]], now, plays(n));
      assert LogsGrow(logs1, logs, override);
      PublishingRow(loaded, rows1, rows, logs1, logs, override, due, plays, n);
    }

    /** The process dies, and with it what the batchers have not delivered: exactly
        the events at risk are lost. */
    method Crashes()
      requires Valid()
      modifies `logs
      ensures Valid() && logs == Crashing(old(logs))
      ensures Gone() == old(Gone() + AtRisk(deferred, rows, logs, override))
    {
      CrashKeepsDisk(logs, override);
      assert forall e :: OnDisk(logs, override, e) ==> InLog(logs, override, e);
      logs := Crashing(logs);
    }

    /** Any number of ticks, arrivals and crashes in any order, with arrivals within
        the ticks. A tick whose query fails publishes nothing. Without a crash, and
        with rows that parse, no accepted deferred event gets lost. */
    method Run(ops: seq<Op>)
      requires Valid() && forall op :: op in ops ==> GenuineOp(op)
      modifies `rows, `logs, `handed, `deferred, `arrivals
      ensures Valid() && arrivals == old(arrivals) + Arriving(ops) && old(deferred) <= deferred && old(handed) <= handed
      ensures old(AllParse()) ==> AllParse() && (Crash !in ops ==> Gone() <= old(Gone()))
    {
      for i := 0 to |ops|
        invariant Valid() && arrivals == old(arrivals) + Arriving(ops[..i])
        invariant old(deferred) <= deferred && old(handed) <= handed
        invariant old(AllParse()) ==> AllParse() && (Crash !in ops ==> Gone() <= old(Gone()))
      {
        ArrivingSnoc(old(arrivals), ops, i);
        Do(ops[i]);
      }
      assert ops[..|ops|] == ops;
    }

    /** One operation, with the exact condition under which it loses an event: a
        crash loses those at risk, and a tick only what it deletes in place of an
        unparsable row. */
    method Do(op: Op)
      requires Valid() && GenuineOp(op)
      modifies `rows, `logs, `handed, `deferred, `arrivals
      ensures Valid() && arrivals == old(arrivals) + ArrivingIn(op) && old(deferred) <= deferred && old(handed) <= handed
      ensures op.Tick? && IsDue(op.due, old(rows), op.now) ==>
        Publishing(old(rows), rows, logs, override, op.due, op.plays, |op.due|)
      ensures op.Crash? ==> Gone() == old(Gone() + AtRisk(deferred, rows, logs, override))
      ensures old(AllParse()) ==> AllParse() && (!op.Crash? ==> Gone() <= old(Gone()))
    {
      match op
      case Arrive(a) =>
        ReceiveAll([a]);
      case Tick(now, due, plays, between) =>
        if IsDue(due, rows, now) {
          PublishDue(now, due, plays, between);
        } else {
          FlatHas(between, |due|);
          ReceiveAll(Flat(between, |due|));
        }
      case Crash =>
        Crashes();
    }

    ghost predicate GenuineOp(op: Op) {
      match op
      case Arrive(a) => Genuine(a)
      case Tick(_, _, _, between) => forall i, a :: a in between(i) ==> Genuine(a)
      case Crash => true
    }

    /** Every event carries the id of its content. */
    predicate Genuine(a: Arrival) {
      match a
      case Sends(sub) => sub.evt == eventOf(sub.evt.id)
      case Crawls(evt, _, _) => evt == eventOf(evt.id)
      case Delivers(_, _) => true
    }
  }

  /** A row whose event is in the store, or that has none. */
  ghost predicate Settled(logs: Logs, override: Override, row: Row) {
    row.json.None? || InLog(logs, override, row.json.value)
  }

  /** The first `n` due rows have been tried: what is gone is settled, and so is
      every row whose event could be taken. */
  ghost predicate Publishing(loaded: map<string, Row>, rows: map<string, Row>, logs: Logs, override: Override,
                             due: seq<string>, plays: nat -> Play, n: nat)
  {
    && n <= |due| && (forall i :: 0 <= i < |due| ==> due[i] in loaded)
    && (forall id :: id in loaded && id !in rows ==> id in due && Settled(logs, override, loaded[id]))
    && (forall i :: 0 <= i < n && Takeable(loaded[due[i]], plays(i), override) ==> Settled(logs, override, loaded[due[i]]))
  }

  predicate Takeable(row: Row, play: Play, override: Override) {
    row.json.Some? && Takes(row.json.value, play.room, override)
  }

  ghost predicate NoneOverdue(events: set<Event>, now: int, logs: Logs, override: Override) {
    forall e :: e in events && e.createdAt <= now && Takes(e, true, override) ==> InLog(logs, override, e)
  }

  lemma PublishingMore(loaded: map<string, Row>, rows: map<string, Row>, rows': map<string, Row>, logs: Logs, logs': Logs,
                       override: Override, due: seq<string>, plays: nat -> Play, n: nat)
    requires Publishing(loaded, rows, logs, override, due, plays, n) && rows.Keys <= rows'.Keys
    requires LogsGrow(logs, logs', override)
    ensures Publishing(loaded, rows', logs', override, due, plays, n)
  {
  }

  lemma PublishingRow(loaded: map<string, Row>, rows: map<string, Row>, rows': map<string, Row>, logs: Logs, logs': Logs,
                      override: Override, due: seq<string>, plays: nat -> Play, n: nat)
    requires Publishing(loaded, rows, logs, override, due, plays, n) && n < |due|
    requires LogsGrow(logs, logs', override)
    requires rows' == rows || (rows' == rows - {due[n]} && Settled(logs', override, loaded[due[n]]))
    requires Takeable(loaded[due[n]], plays(n), override) ==> Settled(logs', override, loaded[due[n]])
    ensures Publishing(loaded, rows', logs', override, due, plays, n + 1)
  {
  }

  /** With fewer than 100 rows due and room for all, no event stays behind its time. */
  lemma NothingOverdue(deferred: set<Event>, loaded: map<string, Row>, logs: Logs, rows: map<string, Row>, logs': Logs,
                       override: Override, due: seq<string>, plays: nat -> Play, now: int)
    requires forall id :: id in loaded && loaded[id].json.Some? ==> loaded[id].publishAt == loaded[id].json.value.createdAt
    requires LogsGrow(logs, logs', override)
    requires IsDue(due, loaded, now) && |due| < DUE_LIMIT && forall i: nat :: plays(i).room
    requires Publishing(loaded, rows, logs', override, due, plays, |due|)
    ensures NoneOverdue(deferred - Lost(deferred, loaded, logs, override), now, logs', override)
  {
    forall e | e in deferred && Parked(loaded, e) && e.createdAt <= now && Takes(e, true, override)
      ensures InLog(logs', override, e)
    {
      var i :| 0 <= i < |due| && due[i] == e.id;
      assert Takeable(loaded[due[i]], plays(i), override);
    }
  }

  const EMPTY_LOGS: Logs := map[Permanent := Log([], 0), Archive := Log([], 0), Social := Log([], 0)]

  /** A fresh scheduler with a buffer of a minute, and one accepted event deferred to 1000. */
  method Deferring(evt: Event, rows: map<string, Row>) returns (s: EventScheduler)
    requires evt.createdAt == 1000 && evt.kind == 1
    requires forall id :: id in rows ==> rows[id].json.None?
    ensures fresh(s) && s.Valid() && s.buffer == 60 && s.override == map[] && s.eventOf(evt.id) == evt
    ensures s.rows == rows[evt.id := Row(Some(evt), 1000)] && s.logs == EMPTY_LOGS && s.deferred == {evt}
  {
    var eventOf := id => evt.(id := id);
    assert eventOf(evt.id) == evt;
    s := new EventScheduler(60, map[], eventOf, rows, EMPTY_LOGS);
    assert s.deferred == {};
    var ok := s.Receive(Sends(Submission(evt, 0, true, true)));
  }

  /** The same event sent twice: far ahead of its time it is parked, within the
      buffer it is handed on at once. */
  method Resubmission(evt: Event) returns (s: EventScheduler)
    requires evt.createdAt == 1000 && evt.kind == 1
    ensures fresh(s) && s.Valid() && evt in s.deferred && HandedEarly(s.handed, evt)
  {
    s := Deferring(evt, map[]);
    var ok := s.Receive(Sends(Submission(evt, 950, true, true)));
    s.HandedEarlyIff(evt);
    assert ArrivesEarly(s.arrivals[|s.arrivals| - 1], evt, s.buffer, s.override);
  }

  /** A crawler that fetches a deferred event stores it at once. */
  method CrawledEarly(evt: Event) returns (s: EventScheduler)
    requires evt.createdAt == 1000 && evt.kind == 1
    ensures fresh(s) && s.Valid() && evt in s.deferred && HandedEarly(s.handed, evt)
  {
    s := Deferring(evt, map[]);
    var ok := s.Receive(Crawls(evt, 1, true));
    s.HandedEarlyIff(evt);
    assert ArrivesEarly(s.arrivals[|s.arrivals| - 1], evt, s.buffer, s.override);
  }

  /** An accepted event is lost when it is parked over an unparsable row of its own
      id while that row is being published. */
  method ParkedOverCorrupt(evt: Event) returns (s: EventScheduler)
    requires evt.createdAt == 1000 && evt.kind == 1
    ensures fresh(s) && s.Valid() && evt in s.Gone()
  {
    var loaded := Row(None, 0);
    s := Deferring(evt, map[evt.id := loaded]);
    s.PublishOne(evt.id, loaded, 0, Play(0, true, true));
  }

  /** And when the process dies after its row is deleted and before its batcher has
      delivered it, although every row parses. */
  method CrashAfterPublish(evt: Event) returns (s: EventScheduler)
    requires evt.createdAt == 1000 && evt.kind == 1
    ensures fresh(s) && s.Valid() && s.AllParse() && evt in s.Gone()
  {
    s := Deferring(evt, map[]);
    s.PublishOne(evt.id, s.rows[evt.id], 1000, Play(0, true, true));
    s.Crashes();
  }
}
