/** The per-IP fixed-window limiter of `internal/policy/ratelimit.go`, with its
    lazy garbage collection. Times are in nanoseconds. */
module Limiter {
  import opened Events

  const MINUTE: int := 60_000_000_000

  datatype Window = Window(start: int, count: nat)

  type Counts = map<string, Window>

  datatype State = State(counts: Counts, lastGC: Option<int>)

  const INIT: State := State(map[], None)

  predicate Expired(w: Window, now: int) {
    now - w.start >= MINUTE
  }

  /** The caller's window after its request. */
  function Touched(counts: Counts, ip: string, now: int): Window {
    if ip in counts && !Expired(counts[ip], now) then counts[ip].(count := counts[ip].count + 1) else Window(now, 1)
  }

  /** A limiter that never forgets an entry. */
  function Keep(counts: Counts, ip: string, now: int): Counts {
    counts[ip := Touched(counts, ip, now)]
  }

  predicate Allows(counts: Counts, ip: string, now: int, perMinute: int) {
    Touched(counts, ip, now).count <= perMinute
  }

  function Sweep(counts: Counts, now: int): Counts {
    map ip | ip in counts && !Expired(counts[ip], now) :: counts[ip]
  }

  /** The limiter as it is: expired entries go once a minute. */
  function Next(s: State, ip: string, now: int): State {
    var c := Keep(s.counts, ip, now);
    if s.lastGC.None? || now - s.lastGC.value >= MINUTE then State(Sweep(c, now), Some(now)) else State(c, s.lastGC)
  }

  /** The limiter is off, or does not know whom to count. */
  predicate Exempt(ip: string, perMinute: int) {
    perMinute <= 0 || ip == ""
  }

  predicate Admits(counts: Counts, ip: string, now: int, perMinute: int) {
    Exempt(ip, perMinute) || Allows(counts, ip, now, perMinute)
  }

  function Step(s: State, ip: string, now: int, perMinute: int): State {
    if Exempt(ip, perMinute) then s else Next(s, ip, now)
  }

  class IpLimiter {
    const perMinute: int
    var counts: Counts
    var lastGC: Option<int>

    constructor (perMinute: int)
      ensures this.perMinute == perMinute && View() == INIT
    {
      this.perMinute := perMinute;
      counts := map[];
      lastGC := None;
    }

    function View(): State
      reads this
    {
      State(counts, lastGC)
    }

    /** `Allow`. */
    method Allow(ip: string, now: int) returns (allowed: bool)
      modifies this
      ensures allowed <==> Admits(old(counts), ip, now, perMinute)
      ensures View() == Step(old(View()), ip, now, perMinute)
    {
      if perMinute <= 0 || ip == "" {
        return true;
      }
      var w := if ip in counts then counts[ip] else Window(now, 0);
      if ip !in counts || Expired(w, now) {
        w := Window(now, 0);
      }
      w := w.(count := w.count + 1);
      counts := counts[ip := w];
      allowed := w.count <= perMinute;
      if lastGC.None? || now - lastGC.value >= MINUTE {
        Collect(now);
        lastGC := Some(now);
      }
    }

    /** The sweep over the map. */
    method Collect(now: int)
      modifies `counts
      ensures counts == Sweep(old(counts), now)
    {
      var todo := counts.Keys;
      while todo != {}
        invariant todo <= old(counts).Keys && counts.Keys <= old(counts).Keys
        invariant forall ip :: ip in counts ==> counts[ip] == old(counts)[ip]
        invariant forall ip :: ip in todo ==> ip in counts
        invariant forall ip :: ip in old(counts) && ip !in todo ==> (ip in counts <==> !Expired(old(counts)[ip], now))
        decreases todo
      {
        var ip :| ip in todo;
        if Expired(counts[ip], now) {
          counts := counts - {ip};
        }
        todo := todo - {ip};
      }
    }
  }

  // ---- traces ----

  datatype Request = Request(ip: string, now: int)

  /** Requests in the order in which they take the lock. They read the clock before
      that, so their times need not be in order: here, no request that is counted
      carries a time before the last sweep. */
  ghost predicate AfterSweeps(trace: seq<Request>, perMinute: int) {
    trace == [] ||
    var p, r := trace[..|trace| - 1], trace[|trace| - 1];
    AfterSweeps(p, perMinute) && (Exempt(r.ip, perMinute) || !Swept(Run(p, perMinute), r.now))
  }

  /** The limiter has swept at a time after `now`. */
  predicate Swept(s: State, now: int) {
    s.lastGC.Some? && now < s.lastGC.value
  }

  /** The requests of one IP take the lock in the order of their times. */
  ghost predicate InOrder(trace: seq<Request>, ip: string) {
    forall i, j :: 0 <= i < j < |trace| && trace[i].ip == ip && trace[j].ip == ip ==> trace[i].now <= trace[j].now
  }

  function Run(trace: seq<Request>, perMinute: int): State {
    if trace == [] then INIT
    else
      var r := trace[|trace| - 1];
      Step(Run(trace[..|trace| - 1], perMinute), r.ip, r.now, perMinute)
  }

  function RunKeep(trace: seq<Request>, perMinute: int): Counts {
    if trace == [] then map[]
    else
      var p, r := trace[..|trace| - 1], trace[|trace| - 1];
      if Exempt(r.ip, perMinute) then RunKeep(p, perMinute) else Keep(RunKeep(p, perMinute), r.ip, r.now)
  }

  /** Both hold when all requests take the lock in the order of their times. */
  lemma {:induction false} ClockOrderSuffices(trace: seq<Request>, perMinute: int)
    requires forall i, j :: 0 <= i < j < |trace| ==> trace[i].now <= trace[j].now
    ensures AfterSweeps(trace, perMinute) && forall ip :: InOrder(trace, ip)
    ensures var gc := Run(trace, perMinute).lastGC; gc.Some? ==> trace != [] && gc.value <= trace[|trace| - 1].now
    decreases |trace|
  {
    if trace != [] {
      ClockOrderSuffices(trace[..|trace| - 1], perMinute);
    }
  }

  /** What the collector removed had expired at its last sweep, so nobody can tell. */
  ghost predicate Similar(s: State, keep: Counts) {
    && (forall ip :: ip in s.counts ==> ip in keep && s.counts[ip] == keep[ip])
    && (forall ip :: ip in keep && ip !in s.counts ==> s.lastGC.Some? && Expired(keep[ip], s.lastGC.value))
  }

  lemma SimilarDecides(s: State, keep: Counts, ip: string, now: int)
    requires Similar(s, keep) && !Swept(s, now)
    ensures Touched(s.counts, ip, now) == Touched(keep, ip, now)
    ensures Similar(Next(s, ip, now), Keep(keep, ip, now))
  {
  }

  lemma {:induction false} RunsSimilar(trace: seq<Request>, perMinute: int)
    requires AfterSweeps(trace, perMinute)
    ensures Similar(Run(trace, perMinute), RunKeep(trace, perMinute))
    decreases |trace|
  {
    if trace != [] {
      var p, r := trace[..|trace| - 1], trace[|trace| - 1];
      RunsSimilar(p, perMinute);
      if !Exempt(r.ip, perMinute) {
        SimilarDecides(Run(p, perMinute), RunKeep(p, perMinute), r.ip, r.now);
      }
    }
  }

  /** On every such trace, collecting garbage changes no decision. */
  lemma CollectionChangesNothing(trace: seq<Request>, ip: string, now: int, perMinute: int)
    requires AfterSweeps(trace, perMinute) && !Swept(Run(trace, perMinute), now)
    ensures Admits(Run(trace, perMinute).counts, ip, now, perMinute) <==> Admits(RunKeep(trace, perMinute), ip, now, perMinute)
  {
    RunsSimilar(trace, perMinute);
    SimilarDecides(Run(trace, perMinute), RunKeep(trace, perMinute), ip, now);
  }

  /** It does change one when a request comes in behind a sweep that its time
      precedes: with a limit of one, the sweep of b at the full minute has removed
      the window that a request of a from just before it would still be in. */
  lemma SweepForgetsTooEarly()
    ensures var trace := [Request("a", 0), Request("b", MINUTE)];
      && AfterSweeps(trace, 1) && Swept(Run(trace, 1), MINUTE - 1)
      && Admits(Run(trace, 1).counts, "a", MINUTE - 1, 1) && !Admits(RunKeep(trace, 1), "a", MINUTE - 1, 1)
  {
    var t1 := [Request("a", 0)];
    var t2 := t1 + [Request("b", MINUTE)];
    assert t1[..0] == [] && t2[..1] == t1;
    assert Run(t1, 1) == State(map["a" := Window(0, 1)], Some(0));
    assert RunKeep(t1, 1) == map["a" := Window(0, 1)];
    assert "a" !in Run(t2, 1).counts && RunKeep(t2, 1)["a"] == Window(0, 1);
  }

  /** Memory is bounded: an entry is gone two minutes after its window opened. */
  lemma {:induction false} OldEntriesGo(trace: seq<Request>, perMinute: int)
    requires AfterSweeps(trace, perMinute) && trace != [] && perMinute > 0 && trace[|trace| - 1].ip != ""
    ensures var now, counts := trace[|trace| - 1].now, Run(trace, perMinute).counts;
      forall ip :: ip in counts ==> counts[ip].start > now - 120_000_000_000
  {
    EntriesAreYoung(trace, perMinute);
  }

  lemma {:induction false} EntriesAreYoung(trace: seq<Request>, perMinute: int)
    requires AfterSweeps(trace, perMinute)
    ensures var s := Run(trace, perMinute);
      && (s.lastGC.None? ==> s.counts == map[])
      && (s.lastGC.Some? ==> forall ip :: ip in s.counts ==> s.counts[ip].start > s.lastGC.value - MINUTE)
      && (trace != [] && !Exempt(trace[|trace| - 1].ip, perMinute) ==>
            s.lastGC.Some? && trace[|trace| - 1].now - s.lastGC.value < MINUTE)
    decreases |trace|
  {
    if trace != [] {
      EntriesAreYoung(trace[..|trace| - 1], perMinute);
    }
  }

  // ---- the bound ----

  /** How many requests of `ip` with a time in [lo, hi] the limiter admits. */
  function Admitted(trace: seq<Request>, ip: string, lo: int, hi: int, perMinute: int): nat {
    if trace == [] then 0
    else
      var p, r := trace[..|trace| - 1], trace[|trace| - 1];
      Admitted(p, ip, lo, hi, perMinute)
      + if r.ip == ip && lo <= r.now <= hi && Admits(Run(p, perMinute).counts, ip, r.now, perMinute) then 1 else 0
  }

  /** The admitted requests since `lo`, by the window they fell in: those of the
      caller's current window, and at most one more window's worth before it. The
      request that opened a window lies at its start, so an interval that begins
      later misses it. */
  ghost predicate Accounted(trace: seq<Request>, ip: string, lo: int, hi: int, perMinute: int) {
    var n := Admitted(trace, ip, lo, hi, perMinute);
    var keep := RunKeep(trace, perMinute);
    if ip !in keep then n == 0
    else
      && (lo > keep[ip].start ==> n <= Min(keep[ip].count, perMinute) - 1)
      && (lo > keep[ip].start - MINUTE ==> n <= perMinute - 1 + Min(keep[ip].count, perMinute))
  }

  lemma {:induction false} NoneSince(trace: seq<Request>, ip: string, lo: int, hi: int, perMinute: int)
    requires forall i :: 0 <= i < |trace| && trace[i].ip == ip ==> trace[i].now < lo
    ensures Admitted(trace, ip, lo, hi, perMinute) == 0
    decreases |trace|
  {
    if trace != [] {
      NoneSince(trace[..|trace| - 1], ip, lo, hi, perMinute);
    }
  }

  lemma {:induction false} AllAccounted(trace: seq<Request>, ip: string, lo: int, hi: int, perMinute: int)
    requires AfterSweeps(trace, perMinute) && InOrder(trace, ip) && !Exempt(ip, perMinute)
    ensures Accounted(trace, ip, lo, hi, perMinute)
    ensures var keep := RunKeep(trace, perMinute);
      ip in keep ==> Request(ip, keep[ip].start) in trace && keep[ip].count >= 1
    decreases |trace|
  {
    if trace != [] {
      var p, r := trace[..|trace| - 1], trace[|trace| - 1];
      AllAccounted(p, ip, lo, hi, perMinute);
      assert trace == p + [r];
      if r.ip == ip {
        CollectionChangesNothing(p, ip, r.now, perMinute);
        if lo > r.now {
          NoneSince(p, ip, lo, hi, perMinute);
        }
      }
    }
  }

  /** Any interval shorter than a minute admits fewer requests than twice the limit,
      from any one IP that is limited at all and whose requests come in order. */
  lemma {:induction false} FewerThanTwice(trace: seq<Request>, ip: string, lo: int, hi: int, perMinute: int)
    requires AfterSweeps(trace, perMinute) && InOrder(trace, ip) && perMinute > 0 && ip != ""
    requires hi - lo < 60_000_000_000
    ensures Admitted(trace, ip, lo, hi, perMinute) < 2 * perMinute
    decreases |trace|
  {
    if trace != [] {
      var r := trace[|trace| - 1];
      if r.ip != ip || r.now > hi {
        FewerThanTwice(trace[..|trace| - 1], ip, lo, hi, perMinute);
      } else {
        AllAccounted(trace, ip, lo, hi, perMinute);
      }
    }
  }

  /** Requests without an IP, and all requests of a limiter that is off, are always admitted. */
  lemma {:induction false} ExemptIsUnlimited(trace: seq<Request>, ip: string, lo: int, hi: int, perMinute: int)
    requires perMinute <= 0 || ip == ""
    ensures Admitted(trace, ip, lo, hi, perMinute) == Sent(trace, ip, lo, hi)
    decreases |trace|
  {
    if trace != [] {
      ExemptIsUnlimited(trace[..|trace| - 1], ip, lo, hi, perMinute);
    }
  }

  function Sent(trace: seq<Request>, ip: string, lo: int, hi: int): nat {
    if trace == [] then 0
    else
      var r := trace[|trace| - 1];
      Sent(trace[..|trace| - 1], ip, lo, hi) + if r.ip == ip && lo <= r.now <= hi then 1 else 0
  }

  /** An IP whose requests come in order and that sent fewer than the limit in the
      last minute is admitted. */
  lemma NeverTooStrict(trace: seq<Request>, ip: string, now: int, perMinute: int)
    requires AfterSweeps(trace, perMinute) && !Swept(Run(trace, perMinute), now) && InOrder(trace + [Request(ip, now)], ip)
    requires Sent(trace, ip, now - 60_000_000_000 + 1, now) < perMinute
    ensures Admits(Run(trace, perMinute).counts, ip, now, perMinute)
  {
    if !Exempt(ip, perMinute) {
      CollectionChangesNothing(trace, ip, now, perMinute);
      var keep := RunKeep(trace, perMinute);
      if ip in keep && !Expired(keep[ip], now) {
        assert trace == (trace + [Request(ip, now)])[..|trace|];
        WindowCounts(trace, ip, now - MINUTE + 1, now, perMinute);
      }
    }
  }

  /** A window counts no more requests than were sent since it opened. */
  lemma {:induction false} WindowCounts(trace: seq<Request>, ip: string, lo: int, hi: int, perMinute: int)
    requires InOrder(trace + [Request(ip, hi)], ip)
    requires ip in RunKeep(trace, perMinute) && lo <= RunKeep(trace, perMinute)[ip].start
    ensures Request(ip, RunKeep(trace, perMinute)[ip].start) in trace
    ensures RunKeep(trace, perMinute)[ip].count <= Sent(trace, ip, lo, hi)
    decreases |trace|
  {
    var p, r := trace[..|trace| - 1], trace[|trace| - 1];
    var all := trace + [Request(ip, hi)];
    assert trace == p + [r] && all[|p|] == r && all[|trace|] == Request(ip, hi);
    if ip in RunKeep(p, perMinute) && lo <= RunKeep(p, perMinute)[ip].start {
      OrderedPrefix(trace, ip, hi);
      WindowCounts(p, ip, lo, hi, perMinute);
      var i :| 0 <= i < |p| && p[i] == Request(ip, RunKeep(p, perMinute)[ip].start);
      assert all[i] == p[i];
    }
  }

  lemma OrderedPrefix(trace: seq<Request>, ip: string, hi: int)
    requires trace != [] && InOrder(trace + [Request(ip, hi)], ip)
    ensures InOrder(trace[..|trace| - 1] + [Request(ip, hi)], ip)
  {
    var all, part := trace + [Request(ip, hi)], trace[..|trace| - 1] + [Request(ip, hi)];
    assert forall i :: 0 <= i < |part| ==> part[i] == all[if i < |trace| - 1 then i else i + 1];
  }

  function At(ip: string, second: int): Request {
    Request(ip, second * (MINUTE / 60))
  }

  /** The last sweep, the window of a and how often it was admitted, with a limit of two. */
  ghost predicate Seen(trace: seq<Request>, gc: int, w: Window, lo: int, hi: int, n: nat) {
    var s := Run(trace, 2);
    && AfterSweeps(trace, 2) && s.lastGC == Some(gc)
    && "a" in s.counts && s.counts["a"] == w && Admitted(trace, "a", lo, hi, 2) == n
  }

  lemma NextOfA(trace: seq<Request>, gc: int, w: Window, lo: int, hi: int, n: nat, now: int)
    requires Seen(trace, gc, w, lo, hi, n) && 0 <= now - gc < MINUTE
    ensures var w' := if Expired(w, now) then Window(now, 1) else Window(w.start, w.count + 1);
      Seen(trace + [Request("a", now)], gc, w', lo, hi, if lo <= now <= hi && w'.count <= 2 then n + 1 else n)
  {
    assert (trace + [Request("a", now)])[..|trace|] == trace;
  }

  lemma SweepByB(trace: seq<Request>, gc: int, w: Window, lo: int, hi: int, n: nat, now: int)
    requires Seen(trace, gc, w, lo, hi, n) && now - gc >= MINUTE && !Expired(w, now)
    ensures Seen(trace + [Request("b", now)], now, w, lo, hi, n)
  {
    assert (trace + [Request("b", now)])[..|trace|] == trace;
  }

  /** Requests that come in out of order get more through: with a limit of two, a
      is admitted four times between 30 and 89 seconds, the last time in a window
      that was opened later. */
  lemma LateRequestsSlipThrough() returns (trace: seq<Request>)
    ensures AfterSweeps(trace, 2) && !InOrder(trace, "a")
    ensures Admitted(trace, "a", At("a", 30).now, At("a", 89).now, 2) == 4
  {
    var second, lo, hi := MINUTE / 60, At("a", 30).now, At("a", 89).now;
    BeginsWith(lo, hi);
    var t2 := [At("b", -58), At("a", 0)];
    SweepByB(t2, -58 * second, Window(0, 1), lo, hi, 0, 2 * second);
    var t3 := t2 + [At("b", 2)];
    NextOfA(t3, 2 * second, Window(0, 1), lo, hi, 0, 30 * second);
    var t4 := t3 + [At("a", 30)];
    NextOfA(t4, 2 * second, Window(0, 2), lo, hi, 1, 60 * second);
    var t5 := t4 + [At("a", 60)];
    SweepByB(t5, 2 * second, Window(60 * second, 1), lo, hi, 2, 62 * second);
    var t6 := t5 + [At("b", 62)];
    NextOfA(t6, 62 * second, Window(60 * second, 1), lo, hi, 2, 70 * second);
    var t7 := t6 + [At("a", 70)];
    NextOfA(t7, 62 * second, Window(60 * second, 2), lo, hi, 3, 120 * second);
    var t8 := t7 + [At("a", 120)];
    NextOfA(t8, 62 * second, Window(120 * second, 1), lo, hi, 3, 80 * second);
    trace := t8 + [At("a", 80)];
    assert trace[7].now > trace[8].now;
  }

  lemma BeginsWith(lo: int, hi: int)
    requires 0 < lo
    ensures Seen([At("b", -58), At("a", 0)], At("b", -58).now, Window(0, 1), lo, hi, 0)
  {
    var t1, t2 := [At("b", -58)], [At("b", -58), At("a", 0)];
    assert t1[..0] == [] && t2[..1] == t1;
    assert Run(t1, 2) == State(map["b" := Window(At("b", -58).now, 1)], Some(At("b", -58).now));
    assert AfterSweeps(t1, 2) && Admitted(t1, "a", lo, hi, 2) == 0;
  }
}
