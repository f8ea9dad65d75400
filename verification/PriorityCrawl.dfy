/** The per-pubkey crawl of `internal/crawler/priority.go` with the crawl_state
    rows of `internal/control/control.go`. Times are whole seconds. */
module PriorityCrawl {
  import opened Events

  const FETCH_OVERLAP: int := 2 * 3600
  const FULL_SWEEP_AGE: int := 24 * 3600

  /** A row of crawl_state; 0 means never. */
  datatype CrawlRow = CrawlRow(lastFetched: int, lastSwept: int)

  datatype Job = Job(pubkey: string, since: Option<int>, fullSweep: bool)

  /** A fetch that reached EOSE: what was asked for, and when it subscribed. */
  datatype Fetch = Fetch(since: Option<int>, subscribed: int)

  /** One job on one relay: whether EOSE came, and the two row updates with their times. */
  datatype FetchPlay = FetchPlay(cancelled: bool, eose: bool, subscribed: int, markOk: bool, marked: int,
                                 sweepOk: bool, swept: int)

  datatype RelayPlay = RelayPlay(connected: bool, fetches: nat -> FetchPlay)

  /** The two crawl_state lookups for one pubkey, unless the crawl is being stopped. */
  datatype LookupPlay = LookupPlay(alive: bool, fetchedOk: bool, sweptOk: bool)

  datatype TickPlay = TickPlay(pubkeys: seq<string>, now: int, lookups: nat -> LookupPlay, relays: seq<RelayPlay>,
                               alive: nat -> bool)

  predicate Covers(f: Fetch, x: int) {
    (f.since.Some? ==> f.since.value <= x) && x <= f.subscribed
  }

  ghost predicate Covered(h: seq<Fetch>, x: int) {
    exists i :: 0 <= i < |h| && Covers(h[i], x)
  }

  /** Up to the latest subscription, no second is left out. */
  ghost predicate NoGap(h: seq<Fetch>) {
    forall i, x :: 0 <= i < |h| && x <= h[i].subscribed ==> Covered(h, x)
  }

  /** A since value of `since` starts no later than right after some earlier window. */
  ghost predicate Overlaps(h: seq<Fetch>, since: int) {
    exists i :: 0 <= i < |h| && since <= h[i].subscribed + 1
  }

  lemma CoveredGrows(h: seq<Fetch>, f: Fetch, x: int)
    requires Covered(h, x)
    ensures Covered(h + [f], x)
  {
    var i :| 0 <= i < |h| && Covers(h[i], x);
    assert Covers((h + [f])[i], x);
  }

  lemma OverlapsGrows(h: seq<Fetch>, f: Fetch, since: int)
    requires Overlaps(h, since)
    ensures Overlaps(h + [f], since)
  {
    var i :| 0 <= i < |h| && since <= h[i].subscribed + 1;
    assert since <= (h + [f])[i].subscribed + 1;
  }

  /** A window that starts inside or right after what is covered leaves no gap. */
  lemma FetchLeavesNoGap(h: seq<Fetch>, f: Fetch)
    requires NoGap(h) && (f.since.Some? ==> Overlaps(h, f.since.value))
    ensures NoGap(h + [f])
  {
    var h1 := h + [f];
    forall i, x | 0 <= i < |h1| && x <= h1[i].subscribed
      ensures Covered(h1, x)
    {
      if i < |h| {
        assert x <= h[i].subscribed;
        CoveredGrows(h, f, x);
      } else if f.since.Some? && x < f.since.value {
        var j :| 0 <= j < |h| && f.since.value <= h[j].subscribed + 1;
        CoveredGrows(h, f, x);
      } else {
        assert Covers(h1[|h|], x);
      }
    }
  }

  /** How many of the jobs are for a pubkey. */
  function CountFor(jobs: seq<Job>, pubkey: string): nat {
    if jobs == [] then 0
    else CountFor(jobs[..|jobs| - 1], pubkey) + if jobs[|jobs| - 1].pubkey == pubkey then 1 else 0
  }

  lemma CountForSnoc(jobs: seq<Job>, job: Job, pubkey: string)
    ensures CountFor(jobs + [job], pubkey) == CountFor(jobs, pubkey) + if job.pubkey == pubkey then 1 else 0
  {
  }

  type Histories = map<string, seq<Fetch>>

  function HistoryOf(fetched: Histories, pubkey: string): seq<Fetch> {
    if pubkey in fetched then fetched[pubkey] else []
  }

  /** No pubkey has a gap, and the mark of each overlaps its history. */
  ghost predicate GapFree(fetched: Histories, rows: map<string, CrawlRow>) {
    && (forall pk :: pk in fetched ==> NoGap(fetched[pk]))
    && (forall pk :: pk in rows && rows[pk].lastFetched != 0 ==>
          Overlaps(HistoryOf(fetched, pk), rows[pk].lastFetched - FETCH_OVERLAP))
  }

  ghost predicate JobOk(fetched: Histories, job: Job) {
    job.since.Some? ==> Overlaps(HistoryOf(fetched, job.pubkey), job.since.value)
  }

  ghost predicate JobsOk(fetched: Histories, jobs: seq<Job>) {
    forall job :: job in jobs ==> JobOk(fetched, job)
  }

  /** The decision for a pubkey: a full sweep when a lookup failed, when it was never
      fetched or when the last sweep is a day old; otherwise from the overlap before
      the last fetch on. */
  predicate IsDecision(job: Job, rows: map<string, CrawlRow>, now: int, look: LookupPlay) {
    var pk := job.pubkey;
    && (job.fullSweep <==> !look.fetchedOk || !look.sweptOk || pk !in rows || rows[pk].lastFetched == 0
                           || now - rows[pk].lastSwept >= FULL_SWEEP_AGE)
    && (job.fullSweep ==> job.since.None?)
    && (!job.fullSweep ==> job.since == if rows[pk].lastFetched > FETCH_OVERLAP
                                        then Some(rows[pk].lastFetched - FETCH_OVERLAP) else None)
  }

  // ---- one completed fetch ----

  function Record(fetched: Histories, job: Job, subscribed: int): Histories {
    fetched[job.pubkey := HistoryOf(fetched, job.pubkey) + [Fetch(job.since, subscribed)]]
  }

  /** The row of a pubkey after MarkFetched and, for a sweep, MarkSwept; each may fail. */
  function Marked(rows: map<string, CrawlRow>, job: Job, play: FetchPlay): map<string, CrawlRow> {
    var row := if job.pubkey in rows then rows[job.pubkey] else CrawlRow(0, 0);
    var swept := job.fullSweep && play.sweepOk;
    if play.markOk || swept then
      rows[job.pubkey := CrawlRow(if play.markOk then play.marked else row.lastFetched,
                                  if swept then play.swept else row.lastSwept)]
    else rows
  }

  /** The mark lands no later than the overlap after subscribing, so that the next
      since is inside the covered past; the fetch timeout of five minutes is far
      inside that. */
  predicate Punctual(play: FetchPlay) {
    play.marked - play.subscribed <= FETCH_OVERLAP + 1
  }

  lemma RecordKeepsJobs(fetched: Histories, job: Job, subscribed: int, jobs: seq<Job>)
    requires JobsOk(fetched, jobs)
    ensures JobsOk(Record(fetched, job, subscribed), jobs)
  {
  }

  lemma CompletedKeepsGapFree(fetched: Histories, rows: map<string, CrawlRow>, job: Job, play: FetchPlay)
    requires GapFree(fetched, rows) && JobOk(fetched, job) && Punctual(play)
    ensures GapFree(Record(fetched, job, play.subscribed), Marked(rows, job, play))
  {
    var h, f := HistoryOf(fetched, job.pubkey), Fetch(job.since, play.subscribed);
    FetchLeavesNoGap(h, f);
    assert (h + [f])[|h|].subscribed == play.subscribed;
    if job.pubkey in rows && rows[job.pubkey].lastFetched != 0 {
      OverlapsGrows(h, f, rows[job.pubkey].lastFetched - FETCH_OVERLAP);
    }
  }

  /** After a marked sweep the next decisions are incremental, from two hours before
      the fetch on, until the sweep is a day old. */
  lemma SweptThenIncremental(rows: map<string, CrawlRow>, job: Job, play: FetchPlay, next: Job, now: int)
    requires play.markOk && play.marked != 0 && job.fullSweep && play.sweepOk && next.pubkey == job.pubkey
    requires IsDecision(next, Marked(rows, job, play), now, LookupPlay(true, true, true))
    ensures next.fullSweep <==> now - play.swept >= 86400
    ensures next.since == if next.fullSweep || play.marked <= 7200 then None else Some(play.marked - 7200)
  {
  }

  // ---- one relay ----

  /** What a tick works on: crawl_state, the fetches made, the jobs left and those done. */
  datatype Crawl = Crawl(rows: map<string, CrawlRow>, fetched: Histories, left: seq<Job>, done: seq<Job>)

  /** How many jobs a relay is asked for before the crawl is stopped. */
  function Tried(fetches: nat -> FetchPlay, i: nat, total: nat): (n: nat)
    requires i <= total
    ensures i <= n <= total && (n < total ==> fetches(n).cancelled)
    ensures forall k :: i <= k < n ==> !fetches(k).cancelled
    decreases total - i
  {
    if i == total || fetches(i).cancelled then i else Tried(fetches, i + 1, total)
  }

  /** After the first `n` jobs of a relay: those with EOSE are done, marked and
      recorded, the others are passed on. */
  function Visited(start: Crawl, fetches: nat -> FetchPlay, n: nat): (c: Crawl)
    requires n <= |start.left|
  {
    if n == 0 then start.(left := [])
    else
      var c := Visited(start, fetches, n - 1);
      var job, play := start.left[n - 1], fetches(n - 1);
      if play.eose then
        Crawl(Marked(c.rows, job, play), Record(c.fetched, job, play.subscribed), c.left, c.done + [job])
      else c.(left := c.left + [job])
  }

  function AfterRelay(start: Crawl, relay: RelayPlay): Crawl {
    if !relay.connected then start
    else
      var n := Tried(relay.fetches, 0, |start.left|);
      var c := Visited(start, relay.fetches, n);
      c.(left := c.left + start.left[n..])
  }

  ghost predicate CrawlOk(c: Crawl) {
    GapFree(c.fetched, c.rows) && JobsOk(c.fetched, c.left)
  }

  /** The first `n` jobs of a relay keep every pubkey gap-free and every job sound. */
  lemma {:induction false} VisitedKeeps(start: Crawl, fetches: nat -> FetchPlay, n: nat)
    requires n <= |start.left| && CrawlOk(start) && forall i: nat :: Punctual(fetches(i))
    ensures var c := Visited(start, fetches, n); CrawlOk(c) && JobsOk(c.fetched, start.left)
  {
    if n > 0 {
      VisitedKeeps(start, fetches, n - 1);
      var c := Visited(start, fetches, n - 1);
      var job, play := start.left[n - 1], fetches(n - 1);
      assert Punctual(play);
      if play.eose {
        CompletedKeepsGapFree(c.fetched, c.rows, job, play);
        RecordKeepsJobs(c.fetched, job, play.subscribed, c.left);
        RecordKeepsJobs(c.fetched, job, play.subscribed, start.left);
      }
    }
  }

  lemma RelayKeeps(start: Crawl, relay: RelayPlay)
    requires CrawlOk(start) && forall i: nat :: Punctual(relay.fetches(i))
    ensures CrawlOk(AfterRelay(start, relay))
  {
    VisitedKeeps(start, relay.fetches, Tried(relay.fetches, 0, |start.left|));
  }

  /** No job is lost or doubled, and the fetches made are those of the jobs done. */
  ghost predicate Balanced(start: Crawl, c: Crawl) {
    && (forall job :: Times(start.left, job) + Times(start.done, job) == Times(c.left, job) + Times(c.done, job))
    && (forall pk :: |HistoryOf(c.fetched, pk)| + CountFor(start.done, pk)
                     == |HistoryOf(start.fetched, pk)| + CountFor(c.done, pk))
  }

  /** How often a job list holds a job. */
  function Times(jobs: seq<Job>, job: Job): nat {
    if jobs == [] then 0 else Times(jobs[..|jobs| - 1], job) + if jobs[|jobs| - 1] == job then 1 else 0
  }

  /** How often it is among the first `n` that reach EOSE, or do not. */
  function TimesAsked(jobs: seq<Job>, fetches: nat -> FetchPlay, n: nat, eose: bool, job: Job): nat
    requires n <= |jobs|
  {
    if n == 0 then 0
    else TimesAsked(jobs, fetches, n - 1, eose, job) + if jobs[n - 1] == job && fetches(n - 1).eose == eose then 1 else 0
  }

  lemma TimesSnoc(jobs: seq<Job>, last: Job, job: Job)
    ensures Times(jobs + [last], job) == Times(jobs, job) + if last == job then 1 else 0
  {
    assert (jobs + [last])[..|jobs|] == jobs;
  }

  lemma {:induction false} TimesConcat(a: seq<Job>, b: seq<Job>, job: Job)
    ensures Times(a + b, job) == Times(a, job) + Times(b, job)
    decreases |b|
  {
    if b == [] {
      assert a + b == a;
    } else {
      TimesConcat(a, b[..|b| - 1], job);
      assert (a + b)[..|a + b| - 1] == a + b[..|b| - 1];
    }
  }

  /** The first `n` jobs that reach EOSE, or do not, in order. */
  function Sifted(jobs: seq<Job>, fetches: nat -> FetchPlay, n: nat, eose: bool): seq<Job>
    requires n <= |jobs|
  {
    if n == 0 then []
    else Sifted(jobs, fetches, n - 1, eose) + if fetches(n - 1).eose == eose then [jobs[n - 1]] else []
  }

  lemma {:induction false} VisitedSifts(start: Crawl, fetches: nat -> FetchPlay, n: nat)
    requires n <= |start.left|
    ensures var c := Visited(start, fetches, n);
      c.left == Sifted(start.left, fetches, n, false) && c.done == start.done + Sifted(start.left, fetches, n, true)
  {
    if n > 0 {
      VisitedSifts(start, fetches, n - 1);
    }
  }

  lemma {:induction false} SiftedTimes(jobs: seq<Job>, fetches: nat -> FetchPlay, n: nat, eose: bool, job: Job)
    requires n <= |jobs|
    ensures Times(Sifted(jobs, fetches, n, eose), job) == TimesAsked(jobs, fetches, n, eose, job)
  {
    if n > 0 {
      SiftedTimes(jobs, fetches, n - 1, eose, job);
      SiftedSnoc(jobs, fetches, n - 1, eose, job);
    }
  }

  lemma {:induction false} SiftedSnoc(jobs: seq<Job>, fetches: nat -> FetchPlay, n: nat, eose: bool, job: Job)
    requires n < |jobs|
    ensures Times(Sifted(jobs, fetches, n + 1, eose), job)
         == Times(Sifted(jobs, fetches, n, eose), job) + if fetches(n).eose == eose && jobs[n] == job then 1 else 0
  {
    var s := Sifted(jobs, fetches, n, eose);
    if fetches(n).eose == eose {
      TimesSnoc(s, jobs[n], job);
    } else {
      assert Sifted(jobs, fetches, n + 1, eose) == s + [] == s;
    }
  }

  lemma {:induction false} AskedTimes(jobs: seq<Job>, fetches: nat -> FetchPlay, n: nat, job: Job)
    requires n <= |jobs|
    ensures Times(jobs[..n], job) == TimesAsked(jobs, fetches, n, true, job) + TimesAsked(jobs, fetches, n, false, job)
  {
    if n > 0 {
      AskedTimes(jobs, fetches, n - 1, job);
      assert jobs[..n] == jobs[..n - 1] + [jobs[n - 1]];
      TimesSnoc(jobs[..n - 1], jobs[n - 1], job);
    }
  }

  lemma {:induction false} VisitedCounts(start: Crawl, fetches: nat -> FetchPlay, n: nat, pk: string)
    requires n <= |start.left|
    ensures var c := Visited(start, fetches, n);
      |HistoryOf(c.fetched, pk)| + CountFor(start.done, pk) == |HistoryOf(start.fetched, pk)| + CountFor(c.done, pk)
  {
    if n > 0 {
      VisitedCounts(start, fetches, n - 1, pk);
      CountForSnoc(Visited(start, fetches, n - 1).done, start.left[n - 1], pk);
    }
  }

  lemma RelayBalances(start: Crawl, relay: RelayPlay)
    ensures Balanced(start, AfterRelay(start, relay))
  {
    if relay.connected {
      var n := Tried(relay.fetches, 0, |start.left|);
      var c := Visited(start, relay.fetches, n);
      forall job
        ensures Times(start.left, job) + Times(start.done, job) == Times(c.left + start.left[n..], job) + Times(c.done, job)
      {
        VisitedSifts(start, relay.fetches, n);
        SiftedTimes(start.left, relay.fetches, n, false, job);
        SiftedTimes(start.left, relay.fetches, n, true, job);
        TimesConcat(start.done, Sifted(start.left, relay.fetches, n, true), job);
        AskedTimes(start.left, relay.fetches, n, job);
        TimesConcat(c.left, start.left[n..], job);
        TimesConcat(start.left[..n], start.left[n..], job);
        assert start.left == start.left[..n] + start.left[n..];
      }
      forall pk {
        VisitedCounts(start, relay.fetches, n, pk);
      }
    }
  }

  /** The relay brings the `i`th job it is given to EOSE before the crawl is stopped. */
  ghost predicate Serves(relay: RelayPlay, i: nat) {
    relay.connected && (forall k :: 0 <= k <= i ==> !relay.fetches(k).cancelled) && relay.fetches(i).eose
  }

  /** A relay leaves exactly the jobs it did not serve. */
  ghost predicate Handover(before: seq<Job>, relay: RelayPlay, after: seq<Job>) {
    forall job :: job in after <==> exists i :: 0 <= i < |before| && before[i] == job && !Serves(relay, i)
  }

  lemma LeftIsUnserved(start: Crawl, relay: RelayPlay)
    ensures Handover(start.left, relay, AfterRelay(start, relay).left)
  {
    var left := AfterRelay(start, relay).left;
    forall job
      ensures job in left <==> exists i :: 0 <= i < |start.left| && start.left[i] == job && !Serves(relay, i)
    {
      if relay.connected {
        var n := Tried(relay.fetches, 0, |start.left|);
        VisitedLeaves(start, relay.fetches, n, job);
        if job in start.left[n..] {
          var k :| 0 <= k < |start.left[n..]| && start.left[n..][k] == job;
          assert start.left[n + k] == job && !Serves(relay, n + k);
        }
      }
    }
  }

  ghost predicate DistinctPubkeys(jobs: seq<Job>) {
    forall i, j :: 0 <= i < j < |jobs| ==> jobs[i].pubkey != jobs[j].pubkey
  }

  /** What one relay does for a pubkey: its fetch is recorded and its row marked
      when the relay served it, and nothing changes otherwise. */
  lemma ServedIsMarked(start: Crawl, relay: RelayPlay, i: nat)
    requires i < |start.left| && DistinctPubkeys(start.left)
    ensures var after, job, play := AfterRelay(start, relay), start.left[i], relay.fetches(i);
      if Serves(relay, i) then
        && HistoryOf(after.fetched, job.pubkey) == HistoryOf(start.fetched, job.pubkey) + [Fetch(job.since, play.subscribed)]
        && (play.markOk ==> job.pubkey in after.rows && after.rows[job.pubkey].lastFetched == play.marked)
        && (job.fullSweep && play.sweepOk ==> job.pubkey in after.rows && after.rows[job.pubkey].lastSwept == play.swept)
      else
        && HistoryOf(after.fetched, job.pubkey) == HistoryOf(start.fetched, job.pubkey)
        && RowOf(after.rows, job.pubkey) == RowOf(start.rows, job.pubkey)
  {
    if relay.connected {
      VisitedMarks(start, relay.fetches, Tried(relay.fetches, 0, |start.left|), i);
    }
  }

  function RowOf(rows: map<string, CrawlRow>, pubkey: string): Option<CrawlRow> {
    if pubkey in rows then Some(rows[pubkey]) else None
  }

  lemma {:induction false} VisitedMarks(start: Crawl, fetches: nat -> FetchPlay, n: nat, i: nat)
    requires n <= |start.left| && i < |start.left| && DistinctPubkeys(start.left)
    ensures var c, job, play := Visited(start, fetches, n), start.left[i], fetches(i);
      if i < n && play.eose then
        && HistoryOf(c.fetched, job.pubkey) == HistoryOf(start.fetched, job.pubkey) + [Fetch(job.since, play.subscribed)]
        && RowOf(c.rows, job.pubkey) == RowOf(Marked(start.rows, job, play), job.pubkey)
      else
        && HistoryOf(c.fetched, job.pubkey) == HistoryOf(start.fetched, job.pubkey)
        && RowOf(c.rows, job.pubkey) == RowOf(start.rows, job.pubkey)
  {
    if n > 0 {
      VisitedMarks(start, fetches, n - 1, i);
      assert i != n - 1 ==> start.left[n - 1].pubkey != start.left[i].pubkey;
    }
  }

  lemma {:induction false} VisitedLeaves(start: Crawl, fetches: nat -> FetchPlay, n: nat, job: Job)
    requires n <= |start.left|
    ensures job in Visited(start, fetches, n).left
      <==> exists i :: 0 <= i < n && start.left[i] == job && !fetches(i).eose
  {
    if n > 0 {
      VisitedLeaves(start, fetches, n - 1, job);
    }
  }

  // ---- all relays ----

  /** The relays from the `i`th on, until the crawl is stopped or no job is left. */
  function AfterRelays(c: Crawl, relays: seq<RelayPlay>, alive: nat -> bool, i: nat): Crawl
    requires i <= |relays|
    decreases |relays| - i
  {
    if i == |relays| || !alive(i) || c.left == [] then c
    else AfterRelays(AfterRelay(c, relays[i]), relays, alive, i + 1)
  }

  /** Over all relays: gap-free, and every job done by exactly one relay or left. */
  lemma {:induction false} RelaysKeep(c: Crawl, relays: seq<RelayPlay>, alive: nat -> bool, i: nat)
    requires i <= |relays| && CrawlOk(c)
    requires forall r, k: nat :: r in relays ==> Punctual(r.fetches(k))
    ensures CrawlOk(AfterRelays(c, relays, alive, i))
    decreases |relays| - i
  {
    if i < |relays| && alive(i) && c.left != [] {
      RelayKeeps(c, relays[i]);
      RelaysKeep(AfterRelay(c, relays[i]), relays, alive, i + 1);
    }
  }

  /** What has been fetched stays on record. */
  ghost predicate Extends(before: Histories, after: Histories) {
    forall pk :: HistoryOf(before, pk) <= HistoryOf(after, pk)
  }

  lemma {:induction false} VisitedExtends(start: Crawl, fetches: nat -> FetchPlay, n: nat)
    requires n <= |start.left|
    ensures Extends(start.fetched, Visited(start, fetches, n).fetched)
  {
    if n > 0 {
      VisitedExtends(start, fetches, n - 1);
    }
  }

  lemma {:induction false} RelaysExtend(c: Crawl, relays: seq<RelayPlay>, alive: nat -> bool, i: nat)
    requires i <= |relays|
    ensures Extends(c.fetched, AfterRelays(c, relays, alive, i).fetched)
    decreases |relays| - i
  {
    if i < |relays| && alive(i) && c.left != [] {
      var c' := AfterRelay(c, relays[i]);
      if relays[i].connected {
        VisitedExtends(c, relays[i].fetches, Tried(relays[i].fetches, 0, |c.left|));
      }
      RelaysExtend(c', relays, alive, i + 1);
      ExtendsFurther(c.fetched, c'.fetched, AfterRelays(c', relays, alive, i + 1).fetched);
    }
  }

  lemma ExtendsFurther(a: Histories, b: Histories, c: Histories)
    requires Extends(a, b) && Extends(b, c)
    ensures Extends(a, c)
  {
  }

  /** The job lists that the relays from the `i`th on are given, and the last one left. */
  ghost function Asked(c: Crawl, relays: seq<RelayPlay>, alive: nat -> bool, i: nat): seq<seq<Job>>
    requires i <= |relays|
    decreases |relays| - i
  {
    if i == |relays| || !alive(i) || c.left == [] then [c.left]
    else [c.left] + Asked(AfterRelay(c, relays[i]), relays, alive, i + 1)
  }

  /** Failover: each relay is asked for exactly what the one before it did not serve,
      until the relays are used up, the crawl is stopped or no job is left. */
  ghost predicate Failover(asked: seq<seq<Job>>, relays: seq<RelayPlay>, alive: nat -> bool, i: nat)
    decreases |asked|
  {
    asked != [] &&
    if i >= |relays| || !alive(i) || asked[0] == [] then |asked| == 1
    else |asked| >= 2 && Handover(asked[0], relays[i], asked[1]) && Failover(asked[1..], relays, alive, i + 1)
  }

  function Last(asked: seq<seq<Job>>): seq<Job>
    requires asked != []
  {
    asked[|asked| - 1]
  }

  lemma {:induction false} RelaysFailOver(c: Crawl, relays: seq<RelayPlay>, alive: nat -> bool, i: nat)
    requires i <= |relays|
    ensures var asked := Asked(c, relays, alive, i);
      Failover(asked, relays, alive, i) && asked[0] == c.left && Last(asked) == AfterRelays(c, relays, alive, i).left
    decreases |relays| - i
  {
    if i < |relays| && alive(i) && c.left != [] {
      RelaysFailOver(AfterRelay(c, relays[i]), relays, alive, i + 1);
      LeftIsUnserved(c, relays[i]);
      assert Asked(c, relays, alive, i)[1..] == Asked(AfterRelay(c, relays[i]), relays, alive, i + 1);
    }
  }

  /** A relay that serves whatever it is asked for. */
  ghost predicate ServesAll(relay: RelayPlay) {
    relay.connected && forall i :: !relay.fetches(i).cancelled && relay.fetches(i).eose
  }

  /** One good relay is enough, wherever it is in the list. */
  lemma {:induction false} GoodRelayServesAll(asked: seq<seq<Job>>, relays: seq<RelayPlay>, alive: nat -> bool, i: nat, good: nat)
    requires Failover(asked, relays, alive, i) && i <= good < |relays| && ServesAll(relays[good]) && forall k :: alive(k)
    ensures Last(asked) == []
    decreases |asked|
  {
    if asked[0] != [] {
      if i < good {
        GoodRelayServesAll(asked[1..], relays, alive, i + 1, good);
      } else {
        NoneLeft(asked[0], relays[good], asked[1]);
      }
    }
  }

  lemma NoneLeft(before: seq<Job>, relay: RelayPlay, after: seq<Job>)
    requires Handover(before, relay, after) && ServesAll(relay)
    ensures after == []
  {
    assert after == [] || after[0] in after;
    assert forall i :: 0 <= i < |before| ==> Serves(relay, i);
  }

  /** A job that no relay serves is still there at the end. */
  lemma {:induction false} UnservedRemains(asked: seq<seq<Job>>, relays: seq<RelayPlay>, alive: nat -> bool, i: nat, job: Job)
    requires Failover(asked, relays, alive, i) && job in asked[0]
    requires forall r, k: nat :: r in relays ==> !r.connected || !r.fetches(k).eose
    ensures job in Last(asked)
    decreases |asked|
  {
    if i < |relays| && alive(i) {
      var k :| 0 <= k < |asked[0]| && asked[0][k] == job;
      assert relays[i] in relays && !Serves(relays[i], k);
      UnservedRemains(asked[1..], relays, alive, i + 1, job);
    }
  }

  lemma FailoverLaws(c: Crawl, relays: seq<RelayPlay>, alive: nat -> bool)
    ensures var asked, left := Asked(c, relays, alive, 0), AfterRelays(c, relays, alive, 0).left;
      && Failover(asked, relays, alive, 0) && asked[0] == c.left && Last(asked) == left
      && ((forall k :: alive(k)) && (exists r :: r in relays && ServesAll(r)) ==> left == [])
      && ((forall r, k: nat :: r in relays ==> !r.connected || !r.fetches(k).eose) ==> forall job :: job in c.left ==> job in left)
  {
    RelaysFailOver(c, relays, alive, 0);
    var asked := Asked(c, relays, alive, 0);
    if (forall k :: alive(k)) && exists r :: r in relays && ServesAll(r) {
      var r :| r in relays && ServesAll(r);
      var good :| 0 <= good < |relays| && relays[good] == r;
      GoodRelayServesAll(asked, relays, alive, 0, good);
    }
    if forall r, k: nat :: r in relays ==> !r.connected || !r.fetches(k).eose {
      forall job | job in c.left
        ensures job in Last(asked)
      {
        UnservedRemains(asked, relays, alive, 0, job);
      }
    }
  }

  lemma {:induction false} RelaysBalance(c: Crawl, relays: seq<RelayPlay>, alive: nat -> bool, i: nat)
    requires i <= |relays|
    ensures Balanced(c, AfterRelays(c, relays, alive, i))
    decreases |relays| - i
  {
    if i < |relays| && alive(i) && c.left != [] {
      RelayBalances(c, relays[i]);
      RelaysBalance(AfterRelay(c, relays[i]), relays, alive, i + 1);
    }
  }

  class Crawler {
    var rows: map<string, CrawlRow>
    ghost var fetched: Histories

    ghost predicate Valid()
      reads this
    {
      GapFree(fetched, rows)
    }

    constructor ()
      ensures Valid() && fetched == map[] && rows == map[]
    {
      rows, fetched := map[], map[];
    }

    /** `decideSince`; a failed lookup means a full sweep. */
    method DecideSince(pubkey: string, now: int, look: LookupPlay) returns (since: Option<int>, full: bool)
      ensures IsDecision(Job(pubkey, since, full), rows, now, look)
      ensures !look.fetchedOk || !look.sweptOk || pubkey !in rows || rows[pubkey].lastFetched == 0 ==> full && since == None
      ensures Valid() ==> JobOk(fetched, Job(pubkey, since, full))
    {
      var last := if pubkey in rows then rows[pubkey].lastFetched else 0;
      var swept := if pubkey in rows then rows[pubkey].lastSwept else 0;
      full := !look.fetchedOk || !look.sweptOk || last == 0 || now - swept >= FULL_SWEEP_AGE;
      since := None;
      if !full {
        var ts := last - FETCH_OVERLAP;
        if ts > 0 {
          since := Some(ts);
        }
      }
    }

    /** A fetch that reached EOSE, and its row updates. */
    method Complete(job: Job, play: FetchPlay)
      modifies this
      ensures fetched == Record(old(fetched), job, play.subscribed) && rows == Marked(old(rows), job, play)
      ensures old(Valid() && JobOk(fetched, job)) && Punctual(play) ==> Valid()
    {
      if Valid() && JobOk(fetched, job) && Punctual(play) {
        CompletedKeepsGapFree(fetched, rows, job, play);
      }
      fetched := Record(fetched, job, play.subscribed);
      if play.markOk {
        var row := if job.pubkey in rows then rows[job.pubkey] else CrawlRow(0, 0);
        rows := rows[job.pubkey := row.(lastFetched := play.marked)];
      }
      if job.fullSweep && play.sweepOk {
        var row := if job.pubkey in rows then rows[job.pubkey] else CrawlRow(0, 0);
        rows := rows[job.pubkey := row.(lastSwept := play.swept)];
      }
    }

    /** `fetchRelay`: the jobs tried before the crawl is stopped are done exactly
        when EOSE came; the others are handed on, in order. */
    method FetchRelay(relay: RelayPlay, remaining: seq<Job>, ghost done: seq<Job>) returns (incomplete: seq<Job>, ghost done': seq<Job>)
      modifies this
      ensures Crawl(rows, fetched, incomplete, done') == AfterRelay(Crawl(old(rows), old(fetched), remaining, done), relay)
    {
      if !relay.connected {
        return remaining, done;
      }
      ghost var start := Crawl(rows, fetched, remaining, done);
      incomplete, done' := [], done;
      for i := 0 to |remaining|
        invariant Crawl(rows, fetched, incomplete, done') == Visited(start, relay.fetches, i)
        invariant Tried(relay.fetches, 0, |remaining|) == Tried(relay.fetches, i, |remaining|)
      {
        var job, play := remaining[i], relay.fetches(i);
        if play.cancelled {
          incomplete := incomplete + remaining[i..];
          return;
        }
        if play.eose {
          Complete(job, play);
          done' := done' + [job];
        } else {
          incomplete := incomplete + [job];
        }
      }
    }

    /** `tick`: every pubkey's job ends completed by exactly one relay or still
        remaining; with punctual marks no pubkey has a gap. */
    method Tick(pubkeys: seq<string>, now: int, lookups: nat -> LookupPlay, relays: seq<RelayPlay>, alive: nat -> bool)
      returns (ran: bool, jobs: seq<Job>, remaining: seq<Job>, ghost done: seq<Job>, ghost asked: seq<seq<Job>>)
      modifies this
      ensures ran <==> forall i :: 0 <= i < |pubkeys| ==> lookups(i).alive
      ensures !ran ==> rows == old(rows) && fetched == old(fetched)
      ensures ran ==> |jobs| == |pubkeys| && forall i :: 0 <= i < |jobs| ==>
        jobs[i].pubkey == pubkeys[i] && IsDecision(jobs[i], old(rows), now, lookups(i))
      ensures ran ==> var start := Crawl(old(rows), old(fetched), jobs, []);
        var end := Crawl(rows, fetched, remaining, done);
        end == AfterRelays(start, relays, alive, 0) && Balanced(start, end)
      ensures ran ==> Failover(asked, relays, alive, 0) && asked[0] == jobs && Last(asked) == remaining
      ensures ran && (forall k :: alive(k)) && (exists r :: r in relays && ServesAll(r)) ==> remaining == []
      ensures ran && (forall r, i: nat :: r in relays ==> !r.connected || !r.fetches(i).eose) ==>
        forall job :: job in jobs ==> job in remaining
      ensures Extends(old(fetched), fetched)
      ensures old(Valid()) && (forall r, i: nat :: r in relays ==> Punctual(r.fetches(i))) ==> Valid()
    {
      remaining, done, asked := [], [], [];
      ran, jobs := Decide(pubkeys, now, lookups);
      if !ran {
        return;
      }
      ghost var start := Crawl(rows, fetched, jobs, []);
      RelaysBalance(start, relays, alive, 0);
      RelaysExtend(start, relays, alive, 0);
      asked := Asked(start, relays, alive, 0);
      FailoverLaws(start, relays, alive);
      if Valid() && forall r, i: nat :: r in relays ==> Punctual(r.fetches(i)) {
        RelaysKeep(start, relays, alive, 0);
      }
      remaining := jobs;
      for i := 0 to |relays|
        invariant AfterRelays(start, relays, alive, 0)
               == AfterRelays(Crawl(rows, fetched, remaining, done), relays, alive, i)
      {
        if !alive(i) || |remaining| == 0 {
          break;
        }
        remaining, done := FetchRelay(relays[i], remaining, done);
      }
    }

    /** Tick after tick, whatever the relays and the row updates do: nothing
        fetched is forgotten, and punctual marks never let a gap open. */
    method Run(ticks: seq<TickPlay>)
      modifies this
      ensures Extends(old(fetched), fetched)
      ensures old(Valid()) && (forall t, r, i: nat :: t in ticks && r in t.relays ==> Punctual(r.fetches(i))) ==> Valid()
    {
      for n := 0 to |ticks|
        invariant Extends(old(fetched), fetched)
        invariant old(Valid()) && (forall t, r, i: nat :: t in ticks && r in t.relays ==> Punctual(r.fetches(i))) ==> Valid()
      {
        var t := ticks[n];
        var _, _, _, _, _ := Tick(t.pubkeys, t.now, t.lookups, t.relays, t.alive);
      }
    }

    method Decide(pubkeys: seq<string>, now: int, lookups: nat -> LookupPlay) returns (ran: bool, jobs: seq<Job>)
      ensures ran <==> forall i :: 0 <= i < |pubkeys| ==> lookups(i).alive
      ensures ran ==> |jobs| == |pubkeys| && forall i :: 0 <= i < |jobs| ==>
        jobs[i].pubkey == pubkeys[i] && IsDecision(jobs[i], rows, now, lookups(i))
      ensures Valid() ==> JobsOk(fetched, jobs)
    {
      jobs := [];
      for i := 0 to |pubkeys|
        invariant |jobs| == i && (forall j :: 0 <= j < i ==> lookups(j).alive)
        invariant forall j :: 0 <= j < i ==> jobs[j].pubkey == pubkeys[j] && IsDecision(jobs[j], rows, now, lookups(j))
        invariant Valid() ==> JobsOk(fetched, jobs)
      {
        if !lookups(i).alive {
          return false, jobs;
        }
        var since, full := DecideSince(pubkeys[i], now, lookups(i));
        jobs := jobs + [Job(pubkeys[i], since, full)];
      }
      ran := true;
    }
  }

  /** The margin is exact: whenever a mark lands later, the very next fetch of that
      pubkey leaves out the second after the first subscription. */
  method LateRun(pubkey: string, subscribed: nat, marked: int) returns (c: Crawler)
    requires marked - subscribed > FETCH_OVERLAP + 1
    ensures fresh(c) && pubkey in c.fetched && |c.fetched[pubkey]| == 2 && !NoGap(c.fetched[pubkey])
  {
    c := new Crawler();
    var look := LookupPlay(true, true, true);
    var since, full := c.DecideSince(pubkey, subscribed, look);
    c.Complete(Job(pubkey, since, full), FetchPlay(false, true, subscribed, true, marked, true, marked));
    assert c.rows[pubkey] == CrawlRow(marked, marked) && c.fetched[pubkey] == [Fetch(None, subscribed)];
    since, full := c.DecideSince(pubkey, marked, look);
    c.Complete(Job(pubkey, since, full), FetchPlay(false, true, marked, true, marked, true, marked));
    ghost var h := c.fetched[pubkey];
    assert h[0] == Fetch(None, subscribed) && h[1] == Fetch(Some(marked - FETCH_OVERLAP), marked);
    assert !Covers(h[0], subscribed + 1) && !Covers(h[1], subscribed + 1);
    assert !Covered(h, subscribed + 1);
  }
}
