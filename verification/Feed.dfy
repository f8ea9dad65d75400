/** The feed path of `QueryEvents` (`internal/store/store.go`, `feed.go`): the
    time-ordered mirror `events_feed`, read in two steps with a margin of 50. */
module Feed {
  import opened Events
  import opened Classifier
  import opened QuerySpec
  import opened FilterSql
  import opened Sql
  import opened Query

  const MARGIN: nat := 50
  const SECOND: int := 1_000_000_000
  const FEED_RETENTION: int := 7 * 24 * 3600 * SECOND
  const ELIGIBLE_SLACK: int := 2 * 3600 * SECOND

  /** `feedEligible`; `now` in nanoseconds. */
  predicate FeedEligible(f: Filter, override: Override, now: int) {
    && f.ids == [] && f.authors == [] && |f.tags| == 0 && f.until.None?
    && f.since.Some?
    && f.since.value * SECOND >= now - FEED_RETENTION + ELIGIBLE_SLACK
    && forall k :: k in f.kinds ==> ClassifyWithOverride(k, override) != Drop
  }

  function FeedKinds(f: Filter): seq<int> {
    if f.kinds == [] then IN_SCOPE_KINDS else f.kinds
  }

  /** The kept kinds of a list that are replaceable, or those that are not. */
  function KindsOf(kinds: seq<int>, override: Override, replaceables: bool): seq<int> {
    if kinds == [] then []
    else
      var last := kinds[|kinds| - 1];
      KindsOf(kinds[..|kinds| - 1], override, replaceables) + if Wanted(last, override, replaceables) then [last] else []
  }

  predicate Wanted(kind: int, override: Override, replaceables: bool) {
    ClassifyWithOverride(kind, override) != Drop && IsReplaceable(kind) == replaceables
  }

  lemma {:induction false} KindsOfHas(kinds: seq<int>, override: Override, replaceables: bool, k: int)
    ensures k in KindsOf(kinds, override, replaceables) <==> k in kinds && Wanted(k, override, replaceables)
    decreases |kinds|
  {
    if kinds != [] {
      KindsOfHas(kinds[..|kinds| - 1], override, replaceables, k);
      assert kinds == kinds[..|kinds| - 1] + [kinds[|kinds| - 1]];
    }
  }

  lemma KindsOfSnoc(kinds: seq<int>, i: nat, override: Override, replaceables: bool)
    requires i < |kinds|
    ensures KindsOf(kinds[..i + 1], override, replaceables)
      == KindsOf(kinds[..i], override, replaceables) + if Wanted(kinds[i], override, replaceables) then [kinds[i]] else []
  {
    assert kinds[..i + 1][..i] == kinds[..i];
  }

  /** `splitFeedKinds`: plain kinds and replaceable kinds, dropped kinds in neither. */
  method SplitFeedKinds(f: Filter, override: Override) returns (plain: seq<int>, repl: seq<int>)
    ensures plain == KindsOf(FeedKinds(f), override, false)
    ensures repl == KindsOf(FeedKinds(f), override, true)
  {
    var kinds := if |f.kinds| == 0 then IN_SCOPE_KINDS else f.kinds;
    plain, repl := [], [];
    for i := 0 to |kinds|
      invariant plain == KindsOf(kinds[..i], override, false)
      invariant repl == KindsOf(kinds[..i], override, true)
    {
      KindsOfSnoc(kinds, i, override, false);
      KindsOfSnoc(kinds, i, override, true);
      if ClassifyWithOverride(kinds[i], override) != Drop {
        if IsReplaceable(kinds[i]) {
          repl := repl + [kinds[i]];
        } else {
          plain := plain + [kinds[i]];
        }
      }
    }
    assert kinds[..|kinds|] == kinds;
  }

  // ---- what the two steps range over ----

  ghost function Filtered(rows: seq<Event>, p: Event -> bool): (out: seq<Event>)
    ensures forall e :: e in out <==> e in rows && p(e)
  {
    if rows == [] then []
    else (if p(rows[0]) then [rows[0]] else []) + Filtered(rows[1..], p)
  }

  /** The rows of `SELECT … FROM events_feed WHERE kind IN (?) AND …`, duplicates
      included, in the order of the table. */
  ghost function StepRows(f: Filter, feed: Option<Snapshot>, kinds: seq<int>): (out: seq<Event>)
    ensures forall e :: e in out <==> e in FeedSelected(f, feed) && e.kind in Int32s(kinds)
  {
    if feed.None? then []
    else Filtered(feed.value.rows, e => Selects(f, e, feed.value.rd) && e.kind in Int32s(kinds))
  }

  ghost function FeedSelected(f: Filter, feed: Option<Snapshot>): set<Event> {
    if feed.Some? then Selected(f, feed.value) else {}
  }

  /** What step A ranges over. */
  ghost function PlainList(f: Filter, override: Override, feed: Option<Snapshot>): seq<Event> {
    StepRows(f, feed, KindsOf(FeedKinds(f), override, false))
  }

  /** What step B ranges over. */
  ghost function ReplaceableRows(f: Filter, override: Override, feed: Option<Snapshot>): set<Event> {
    Elems(StepRows(f, feed, KindsOf(FeedKinds(f), override, true)))
  }

  function FeedTable(feed: Option<Snapshot>): seq<Event> {
    if feed.Some? then feed.value.rows else []
  }

  lemma {:induction false} WhereIsFiltered(rows: seq<Event>, conds: seq<Cond>, args: seq<Arg>, rd: Reader, p: Event -> bool)
    requires forall e :: Eval(conds, args, e, rd) == Some(p(e))
    ensures Where(rows, conds, args, rd) == Filtered(rows, p)
    decreases |rows|
  {
    if rows != [] {
      assert Eval(conds, args, rows[0], rd) == Some(p(rows[0]));
      WhereIsFiltered(rows[1..], conds, args, rd, p);
    }
  }

  /** Step A: plain kinds, newest first with ids descending, so that the table's
      own order serves the read. Duplicates stay in. */
  function PlainStep(rows: seq<Event>, fetch: nat): seq<Event> {
    Trim(OrderBy(false, rows), fetch)
  }

  /** Step B: replaceable kinds, collapsed. */
  function ReplaceableStep(rows: seq<Event>, fetch: nat): seq<Event> {
    Trim(LimitOneBy(OrderBy(true, rows)), fetch)
  }

  // ---- id dedupe ----

  method DedupeById(collected: seq<Event>) returns (uniq: seq<Event>)
    requires IdsDetermine(Elems(collected))
    ensures Distinct(uniq) && Elems(uniq) == Elems(collected)
  {
    uniq := [];
    var seen: set<string> := {};
    for i := 0 to |collected|
      invariant Distinct(uniq) && Elems(uniq) == Elems(collected[..i])
      invariant seen == set e | e in uniq :: e.id
    {
      var e := collected[i];
      DedupeStep(collected, i, uniq);
      if e.id !in seen {
        seen := seen + {e.id};
        uniq := uniq + [e];
      }
    }
    assert collected[..|collected|] == collected;
  }

  lemma DedupeStep(collected: seq<Event>, i: nat, uniq: seq<Event>)
    requires IdsDetermine(Elems(collected)) && i < |collected|
    requires Distinct(uniq) && Elems(uniq) == Elems(collected[..i])
    ensures var e := collected[i];
      && Elems(collected[..i + 1]) == Elems(collected[..i]) + {e}
      && Elems(uniq + [e]) == Elems(uniq) + {e}
      && if exists u :: u in uniq && u.id == e.id then e in Elems(uniq) else Distinct(uniq + [e])
  {
    var e := collected[i];
    assert collected[..i + 1] == collected[..i] + [e];
    assert Elems(uniq + [e]) == Elems(uniq) + {e};
    assert e in Elems(collected) && Elems(uniq) <= Elems(collected);
    if u :| u in uniq && u.id == e.id {
      assert u in Elems(uniq);
    }
  }

  // ---- exactness ----

  /** No plain row that step A left behind could have made the cut. */
  ghost predicate NothingBuried(plainRows: set<Event>, fetched: set<Event>, limit: nat) {
    forall w :: w in plainRows && w !in fetched ==> |Ahead(fetched, w)| >= limit
  }

  /** The feed answer is right exactly when step A buries no row that belongs in it. */
  lemma FeedExactness(plainRows: set<Event>, a: seq<Event>, replRows: set<Event>, b: seq<Event>, uniq: seq<Event>,
                      limit: nat, fetch: nat)
    requires IdsDetermine(plainRows + replRows) && limit <= fetch
    requires forall e :: e in plainRows ==> !IsReplaceable(e.kind)
    requires forall e :: e in replRows ==> IsReplaceable(e.kind)
    requires Elems(a) <= plainRows && IsAnswer(b, replRows, fetch)
    requires Distinct(uniq) && Elems(uniq) == Elems(a) + Elems(b)
    ensures var out := Trim(OrderBy(true, uniq), limit);
            && StrictlySorted(out) && |out| <= limit && Elems(out) <= plainRows + replRows
            && (IsAnswer(out, plainRows + replRows, limit) <==> NothingBuried(plainRows, Elems(uniq), limit))
  {
    var rows := plainRows + replRows;
    WinnersOfUnion(plainRows, replRows);
    assert Winners(plainRows) == plainRows by {
      forall e | e in plainRows ensures IsWinner(plainRows, e) {}
    }
    assert Elems(uniq) <= Winners(rows);
    assert IdsDetermine(Elems(uniq));
    SortDistinct(uniq);
    var sorted := OrderBy(true, uniq);
    TopOfPartialFetch(sorted, Winners(rows), limit);
    assert forall e :: e in sorted <==> e in Elems(uniq);
    assert Trim(sorted, limit) <= sorted;
    StrictlySortedSize(b);
    forall w | w in Winners(replRows) && w !in Elems(uniq)
      ensures |Ahead(Elems(uniq), w)| >= limit
    {
      assert w !in b;
      assert Elems(b) <= Ahead(Elems(uniq), w);
      SubsetSize(Elems(b), Ahead(Elems(uniq), w));
    }
  }

  /** The condition does not depend on how many winners step B returns, so long as
      there are enough: it can be stated on the snapshots alone. */
  lemma BuriedAllTheSame(plainRows: set<Event>, a: set<Event>, replRows: set<Event>, b: seq<Event>, limit: nat, fetch: nat)
    requires SplitByKind(plainRows, replRows) && IsAnswer(b, replRows, fetch) && limit <= fetch
    ensures NothingBuried(plainRows, a + Elems(b), limit) <==> NothingBuried(plainRows, a + Winners(replRows), limit)
  {
    var some, all := a + Elems(b), a + Winners(replRows);
    forall w | w in plainRows && w !in a
      ensures w !in some && w !in all
      ensures |Ahead(some, w)| >= limit <==> |Ahead(all, w)| >= limit
    {
      SubsetSize(Ahead(some, w), Ahead(all, w));
      if x :| x in Ahead(all, w) && x !in Ahead(some, w) {
        forall e | e in b
          ensures e in Ahead(some, w)
        {
          BeforeTransitive(true, e, x, w);
        }
        StrictlySortedSize(b);
        SubsetSize(Elems(b), Ahead(some, w));
      } else {
        assert Ahead(all, w) == Ahead(some, w);
      }
    }
  }

  /** How many of the fetched rows cannot count towards the answer: rows tied at
      the oldest fetched timestamp, and repeats among the rows above it. */
  ghost function Wasted(a: seq<Event>): int
    requires a != []
  {
    |a| - |AboveCut(a)|
  }

  ghost function AboveCut(a: seq<Event>): set<Event>
    requires a != []
  {
    set e | e in a && e.createdAt > a[|a| - 1].createdAt
  }

  /** The fetch ran dry, or wastes no more rows than the margin. */
  ghost predicate WithinMargin(a: seq<Event>, limit: nat) {
    |a| < limit + 50 || a == [] || Wasted(a) <= 50
  }

  /** The margin of 50 is enough: within it, no row is buried. */
  lemma MarginSuffices(rows: seq<Event>, others: set<Event>, limit: nat)
    requires WithinMargin(PlainStep(rows, limit + 50), limit)
    ensures NothingBuried(Elems(rows), Elems(PlainStep(rows, limit + 50)) + others, limit)
  {
    var sorted := OrderBy(false, rows);
    var a := PlainStep(rows, limit + MARGIN);
    OrderByInOrder(false, rows);
    SameElems(sorted, rows);
    var fetched := Elems(a) + others;
    forall w | w in Elems(rows) && w !in fetched
      ensures |Ahead(fetched, w)| >= limit
    {
      assert w in Elems(sorted) && w !in a;
      var j :| 0 <= j < |sorted| && sorted[j] == w;
      assert |a| == limit + MARGIN && j >= |a|;
      assert !Before(false, sorted[j], sorted[|a| - 1]);
      assert AboveCut(a) <= Ahead(fetched, w);
      SubsetSize(AboveCut(a), Ahead(fetched, w));
    }
  }

  lemma NoKindsNoRows(f: Filter, feed: Option<Snapshot>, kinds: seq<int>)
    requires kinds == []
    ensures StepRows(f, feed, kinds) == []
  {
    if feed.Some? {
      NoneFiltered(feed.value.rows, e => Selects(f, e, feed.value.rd) && e.kind in Int32s(kinds));
    }
  }

  lemma NoneFiltered(rows: seq<Event>, p: Event -> bool)
    requires forall e :: !p(e)
    ensures Filtered(rows, p) == []
  {
  }

  /** One step of `collectFeed`: no query for an empty kind list; `None` is a failed query. */
  method FeedStep(f: Filter, feed: Option<Snapshot>, kinds: seq<int>, conds: seq<Cond>, args: seq<Arg>)
    returns (r: Result)
    requires Means(f, conds, args)
    ensures r.Err? <==> kinds != [] && feed.None?
    ensures r.Ok? ==> r.events == StepRows(f, feed, kinds)
  {
    if |kinds| == 0 {
      NoKindsNoRows(f, feed, kinds);
      return Ok([]);
    }
    if feed.None? {
      return Err;
    }
    var snap := feed.value;
    ghost var p := e => Selects(f, e, snap.rd) && e.kind in Int32s(kinds);
    forall e
      ensures Eval([KindIn] + conds, [Ints(Int32s(kinds))] + args, e, snap.rd) == Some(p(e))
    {
      PrependKinds(conds, args, Int32s(kinds), e, snap.rd);
    }
    WhereIsFiltered(snap.rows, [KindIn] + conds, [Ints(Int32s(kinds))] + args, snap.rd, p);
    r := Ok(Where(snap.rows, [KindIn] + conds, [Ints(Int32s(kinds))] + args, snap.rd));
  }

  /** What `collectFeed` returns for step-A rows `rowsA` and step-B rows `repl`:
      always sorted, within the limit and made of those rows; the answer exactly
      when nothing is buried, which the margin ensures. */
  ghost predicate FeedResult(out: seq<Event>, rowsA: seq<Event>, repl: set<Event>, limit: nat) {
    && StrictlySorted(out) && |out| <= limit && Elems(out) <= Elems(rowsA) + repl
    && (SplitByKind(Elems(rowsA), repl) ==>
          && (IsAnswer(out, Elems(rowsA) + repl, limit) <==> Exact(rowsA, repl, limit))
          && (WithinMargin(PlainStep(rowsA, limit + 50), limit) ==> Exact(rowsA, repl, limit)))
  }

  /** No plain row beyond the first limit + 50 belongs in the answer. */
  ghost predicate Exact(rowsA: seq<Event>, repl: set<Event>, limit: nat) {
    NothingBuried(Elems(rowsA), Elems(PlainStep(rowsA, limit + 50)) + Winners(repl), limit)
  }

  ghost predicate SplitByKind(plainRows: set<Event>, replRows: set<Event>) {
    (forall e :: e in plainRows ==> !IsReplaceable(e.kind)) && (forall e :: e in replRows ==> IsReplaceable(e.kind))
  }

  /** The merge at the end of `collectFeed`: dedupe, sort, trim. */
  method MergeFeed(rows1: seq<Event>, rows2: seq<Event>, limit: nat) returns (out: seq<Event>)
    requires IdsDetermine(Elems(rows1) + Elems(rows2))
    ensures FeedResult(out, rows1, Elems(rows2), limit)
  {
    var a := PlainStep(rows1, limit + MARGIN);
    var b := ReplaceableStep(rows2, limit + MARGIN);
    StepsFetch(rows1, rows2, limit + MARGIN);
    assert Elems(a + b) == Elems(a) + Elems(b);
    var uniq := DedupeById(a + b);
    MergedIsResult(rows1, rows2, uniq, limit);
    out := Trim(OrderBy(true, uniq), limit);
  }

  lemma MergedIsResult(rows1: seq<Event>, rows2: seq<Event>, uniq: seq<Event>, limit: nat)
    requires IdsDetermine(Elems(rows1) + Elems(rows2)) && Distinct(uniq)
    requires Elems(uniq) == Elems(PlainStep(rows1, limit + MARGIN)) + Elems(ReplaceableStep(rows2, limit + MARGIN))
    ensures FeedResult(Trim(OrderBy(true, uniq), limit), rows1, Elems(rows2), limit)
  {
    var a, b := PlainStep(rows1, limit + MARGIN), ReplaceableStep(rows2, limit + MARGIN);
    StepsFetch(rows1, rows2, limit + MARGIN);
    SortDistinct(uniq);
    TrimElems(OrderBy(true, uniq), limit);
    if SplitByKind(Elems(rows1), Elems(rows2)) {
      FeedExactness(Elems(rows1), a, Elems(rows2), b, uniq, limit, limit + MARGIN);
      BuriedAllTheSame(Elems(rows1), Elems(a), Elems(rows2), b, limit, limit + MARGIN);
      if WithinMargin(a, limit) {
        MarginSuffices(rows1, Winners(Elems(rows2)), limit);
      }
    }
  }

  lemma TrimElems(s: seq<Event>, limit: nat)
    requires StrictlySorted(s)
    ensures StrictlySorted(Trim(s, limit)) && |Trim(s, limit)| <= limit && Elems(Trim(s, limit)) <= Elems(s)
  {
  }

  /** `collectFeed`. The two steps may see different snapshots of the table. */
  method CollectFeed(f: Filter, order: seq<string>, override: Override, feedA: Option<Snapshot>, feedB: Option<Snapshot>)
    returns (r: Result)
    requires IsRange(order, f.tags)
    requires IdsDetermine(Elems(FeedTable(feedA)) + Elems(FeedTable(feedB)))
    ensures r.Err? <==> FeedFails(f, override, feedA, feedB)
    ensures feedA.Some? && feedB.Some? ==> r.Ok?
    ensures var n: nat := if 1 <= f.limit <= 1000 then f.limit else 1000;
      r.Ok? ==> FeedResult(r.events, PlainList(f, override, feedA), ReplaceableRows(f, override, feedB), n)
    ensures var n: nat := if 1 <= f.limit <= 1000 then f.limit else 1000;
      r.Ok? && SmallKinds(f.kinds) && |PlainList(f, override, feedA)| <= n + 50 ==>
        IsAnswer(r.events, Elems(PlainList(f, override, feedA)) + ReplaceableRows(f, override, feedB), n)
  {
    var conds, args, limit := BuildFilter(f, order);
    var plain, repl := SplitFeedKinds(f, override);
    r := FeedStep(f, feedA, plain, conds, args);
    if r.Err? {
      return;
    }
    var rows1 := r.events;
    r := FeedStep(f, feedB, repl, conds, args);
    if r.Err? {
      return;
    }
    var rows2 := r.events;
    ghost var all := Elems(FeedTable(feedA)) + Elems(FeedTable(feedB));
    assert Elems(rows1) <= all && Elems(rows2) <= all;
    var out := MergeFeed(rows1, rows2, limit);
    r := Ok(out);
    if SmallKinds(f.kinds) && |rows1| <= limit + 50 {
      ShortFeedAnswers(f, override, feedA, feedB, out, limit);
    }
  }

  lemma ShortFeedAnswers(f: Filter, override: Override, feedA: Option<Snapshot>, feedB: Option<Snapshot>,
                         out: seq<Event>, limit: nat)
    requires SmallKinds(f.kinds) && |PlainList(f, override, feedA)| <= limit + 50
    requires FeedResult(out, PlainList(f, override, feedA), ReplaceableRows(f, override, feedB), limit)
    ensures IsAnswer(out, Elems(PlainList(f, override, feedA)) + ReplaceableRows(f, override, feedB), limit)
  {
    StepsSplitByKind(f, override, feedA, feedB);
    ShortFeedIsExact(PlainList(f, override, feedA), ReplaceableRows(f, override, feedB), limit);
  }

  /** A feed with at most 50 plain rows beyond the limit buries nothing. */
  lemma ShortFeedIsExact(rows: seq<Event>, repl: set<Event>, limit: nat)
    requires |rows| <= limit + 50
    ensures Exact(rows, repl, limit)
  {
    SameElems(OrderBy(false, rows), rows);
  }

  /** A step that has kinds to ask for cannot be read. */
  predicate FeedFails(f: Filter, override: Override, feedA: Option<Snapshot>, feedB: Option<Snapshot>) {
    || (KindsOf(FeedKinds(f), override, false) != [] && feedA.None?)
    || (KindsOf(FeedKinds(f), override, true) != [] && feedB.None?)
  }

  lemma StepsFetch(rows1: seq<Event>, rows2: seq<Event>, fetch: nat)
    requires IdsDetermine(Elems(rows2))
    ensures Elems(PlainStep(rows1, fetch)) <= Elems(rows1)
    ensures IsAnswer(ReplaceableStep(rows2, fetch), Elems(rows2), fetch)
    ensures Elems(ReplaceableStep(rows2, fetch)) <= Elems(rows2)
  {
    StepIsPart(rows1, fetch);
    CollapsedIsAnswer(rows2, fetch);
  }

  /** The mirror holds the tiers' rows: inside the window of an eligible filter,
      a row is live in the feed exactly when it is live in its tier. */
  ghost predicate Mirrors(f: Filter, db: Tiers, feedA: Option<Snapshot>, feedB: Option<Snapshot>) {
    forall e :: e in SelectedIn(f, db, ACTIVE_TIERS)
      <==> e in FeedSelected(f, if IsReplaceable(e.kind) then feedB else feedA)
  }

  /** The feed table holds the tiers' rows of the last seven days, whatever older
      ones it still has, under the same dictionary. */
  ghost predicate HoldsRecent(db: Tiers, feed: Option<Snapshot>, now: int) {
    && feed.Some?
    && (forall t :: t in ACTIVE_TIERS ==> t in db && db[t].Some? && db[t].value.rd.dead == feed.value.rd.dead)
    && (forall e :: e in feed.value.rows ==> exists t :: t in ACTIVE_TIERS && t in db && db[t].Some? && e in db[t].value.rows)
    && (forall t, e :: t in ACTIVE_TIERS && t in db && db[t].Some? && e in db[t].value.rows && IsRecent(e, now) ==>
          e in feed.value.rows)
  }

  predicate IsRecent(e: Event, now: int) {
    e.createdAt * 1_000_000_000 >= now - 7 * 24 * 3600 * 1_000_000_000
  }

  /** Eligible filters have the shape of a global feed and ask for nothing older than
      the feed holds, so it mirrors the tiers for them. */
  lemma EligibleIsMirrored(f: Filter, override: Override, db: Tiers, feedA: Option<Snapshot>, feedB: Option<Snapshot>, now: int)
    requires FeedEligible(f, override, now) && 0 <= f.since.value < TWO32
    requires HoldsRecent(db, feedA, now) && HoldsRecent(db, feedB, now)
    ensures f.ids == [] && f.authors == [] && f.tags == map[] && f.until.None?
    ensures Mirrors(f, db, feedA, feedB)
  {
    assert f.tags.Keys == {};
    forall e
      ensures e in SelectedIn(f, db, ACTIVE_TIERS) <==> e in FeedSelected(f, if IsReplaceable(e.kind) then feedB else feedA)
    {
      MirroredRow(f, override, db, if IsReplaceable(e.kind) then feedB else feedA, now, e);
    }
  }

  lemma MirroredRow(f: Filter, override: Override, db: Tiers, feed: Option<Snapshot>, now: int, e: Event)
    requires FeedEligible(f, override, now) && 0 <= f.since.value < TWO32 && HoldsRecent(db, feed, now)
    ensures e in SelectedIn(f, db, ACTIVE_TIERS) <==> e in FeedSelected(f, feed)
  {
    assert f.tags.Keys == {};
    if e in SelectedIn(f, db, ACTIVE_TIERS) {
      var t :| t in ACTIVE_TIERS && e in TierRows(f, db, t);
      assert e.createdAt >= f.since.value;
    }
    if e in FeedSelected(f, feed) {
      var t :| t in ACTIVE_TIERS && t in db && db[t].Some? && e in db[t].value.rows;
      assert e in TierRows(f, db, t);
    }
  }

  /** The default window that the relay puts on a global feed is eligible, up to 165 hours. */
  lemma DefaultWindowIsEligible(f: Filter, override: Override, seconds: int, nanos: int, hours: nat)
    requires f.ids == [] && f.authors == [] && f.tags == map[] && f.until.None?
    requires f.since == Some(seconds - hours * 3600) && hours <= 165 && 0 <= nanos < 1_000_000_000
    requires forall k :: k in f.kinds ==> ClassifyWithOverride(k, override) != Drop
    ensures FeedEligible(f, override, seconds * 1_000_000_000 + nanos)
  {
  }

  /** A filter without kinds means the default scope on the feed path and every
      stored kind on the tier path; an override must not add kinds in between. */
  ghost predicate AddsNoKinds(f: Filter, override: Override) {
    f.kinds == [] ==> forall k :: k in override && override[k] != Drop ==> k in IN_SCOPE_KINDS
  }

  predicate SmallKinds(kinds: seq<int>) {
    forall k :: k in kinds ==> -TWO31 <= k < TWO31
  }

  /** The feed path asks for kinds that are kept, so its casts are harmless unless
      the override names kinds outside int32. */
  lemma EligibleKindsAreSmall(f: Filter, override: Override, now: int)
    requires FeedEligible(f, override, now) && forall k :: k in override ==> -TWO31 <= k < TWO31
    ensures SmallKinds(f.kinds)
  {
  }

  lemma StepsSplitByKind(f: Filter, override: Override, feedA: Option<Snapshot>, feedB: Option<Snapshot>)
    requires SmallKinds(f.kinds)
    ensures SplitByKind(Elems(PlainList(f, override, feedA)), ReplaceableRows(f, override, feedB))
    ensures Elems(PlainList(f, override, feedA))
      == set e | e in FeedSelected(f, feedA) && e.kind in FeedKinds(f) && Wanted(e.kind, override, false)
    ensures ReplaceableRows(f, override, feedB)
      == set e | e in FeedSelected(f, feedB) && e.kind in FeedKinds(f) && Wanted(e.kind, override, true)
  {
    KeptKinds(f, override, false);
    KeptKinds(f, override, true);
  }

  lemma KeptKinds(f: Filter, override: Override, replaceables: bool)
    requires SmallKinds(f.kinds)
    ensures var kinds := KindsOf(FeedKinds(f), override, replaceables);
      Int32s(kinds) == kinds && forall k :: k in kinds <==> k in FeedKinds(f) && Wanted(k, override, replaceables)
  {
    var kinds := KindsOf(FeedKinds(f), override, replaceables);
    assert SmallKinds(FeedKinds(f));
    forall k
      ensures k in kinds <==> k in FeedKinds(f) && Wanted(k, override, replaceables)
    {
      KindsOfHas(FeedKinds(f), override, replaceables, k);
    }
    SmallKindsFit(kinds);
  }

  /** With a mirror of the tiers, both paths range over the same rows. */
  lemma FeedRangesOverTierRows(f: Filter, db: Tiers, override: Override, feedA: Option<Snapshot>, feedB: Option<Snapshot>)
    requires SmallKinds(f.kinds) && AddsNoKinds(f, override)
    requires Placed(db, override) && Mirrors(f, db, feedA, feedB)
    ensures Elems(PlainList(f, override, feedA)) + ReplaceableRows(f, override, feedB) == SelectedIn(f, db, ACTIVE_TIERS)
  {
    StepsSplitByKind(f, override, feedA, feedB);
    forall e | e in SelectedIn(f, db, ACTIVE_TIERS)
      ensures e.kind in FeedKinds(f) && Wanted(e.kind, override, IsReplaceable(e.kind))
    {
      var t :| t in ACTIVE_TIERS && e in TierRows(f, db, t);
      TierRowKind(f, db, override, t, e);
    }
  }

  lemma TierRowKind(f: Filter, db: Tiers, override: Override, t: Tier, e: Event)
    requires SmallKinds(f.kinds) && AddsNoKinds(f, override) && Placed(db, override)
    requires t in ACTIVE_TIERS && e in TierRows(f, db, t)
    ensures e.kind in FeedKinds(f) && ClassifyWithOverride(e.kind, override) != Drop
  {
    SmallKindsFit(f.kinds);
    assert ClassifyWithOverride(e.kind, override) == t;
  }

  /** `collectEvents`: the feed when there is one, the filter is eligible and the
      feed answers, the tiers otherwise. With a faithful mirror the two are
      indistinguishable exactly when nothing is buried, as with no more than 50
      wasted rows. */
  method CollectEvents(f: Filter, order: seq<string>, override: Override, db: Tiers, feedOn: bool,
                       feedA: Option<Snapshot>, feedB: Option<Snapshot>, now: int)
    returns (r: Result, fromFeed: bool)
    requires IsRange(order, f.tags) && Placed(db, override) && IdsDetermine(AllRows(db))
    requires forall t :: t in ACTIVE_TIERS ==> t in db
    requires IdsDetermine(Elems(FeedTable(feedA)) + Elems(FeedTable(feedB)))
    ensures fromFeed <==> feedOn && FeedEligible(f, override, now) && !FeedFails(f, override, feedA, feedB)
    ensures r.Err? <==> !fromFeed && TierFails(f, db, override)
    ensures var n: nat := if 1 <= f.limit <= 1000 then f.limit else 1000;
      r.Ok? && !fromFeed ==> IsAnswer(r.events, RoutedRows(f, db, override), n)
    ensures var n: nat := if 1 <= f.limit <= 1000 then f.limit else 1000;
      r.Ok? && !fromFeed && KindsFit(f.kinds) && AllStorable(db) ==> IsAnswer(r.events, SelectedIn(f, db, ACTIVE_TIERS), n)
    ensures var n: nat := if 1 <= f.limit <= 1000 then f.limit else 1000;
      fromFeed ==> FeedResult(r.events, PlainList(f, override, feedA), ReplaceableRows(f, override, feedB), n)
    ensures var n: nat := if 1 <= f.limit <= 1000 then f.limit else 1000;
      fromFeed && SmallKinds(f.kinds) && AddsNoKinds(f, override) && Mirrors(f, db, feedA, feedB) ==>
        (IsAnswer(r.events, SelectedIn(f, db, ACTIVE_TIERS), n)
         <==> Exact(PlainList(f, override, feedA), ReplaceableRows(f, override, feedB), n))
    ensures r.Ok? ==> |r.events| <= if 1 <= f.limit <= 1000 then f.limit else 1000
  {
    fromFeed := false;
    if feedOn && FeedEligible(f, override, now) {
      r := CollectFeed(f, order, override, feedA, feedB);
      if r.Ok? {
        fromFeed := true;
        if SmallKinds(f.kinds) && AddsNoKinds(f, override) && Mirrors(f, db, feedA, feedB) {
          StepsSplitByKind(f, override, feedA, feedB);
          FeedRangesOverTierRows(f, db, override, feedA, feedB);
        }
        return;
      }
    }
    r := CollectTiers(f, order, db, override);
  }

  /** The plain rows that the feed reads no later than `w`, the lowest id of its second. */
  ghost function ReadBefore(rows: seq<Event>, w: Event): set<Event> {
    set e | e in rows && e != w && e.createdAt >= w.createdAt
  }

  /** Without the margin the claim fails, for a whole family of inputs: a row that
      belongs in the answer and has the lowest id of its second is missing whenever
      limit + 50 plain rows are newer or tied with it. */
  lemma TiesBuryTheWinner(out: seq<Event>, rows: seq<Event>, repl: set<Event>, limit: nat, w: Event)
    requires SplitByKind(Elems(rows), repl) && FeedResult(out, rows, repl, limit)
    requires w in rows && |Ahead(Elems(rows) + Winners(repl), w)| < limit
    requires forall e :: e in rows && e != w && e.createdAt == w.createdAt ==> LexLess(w.id, e.id)
    requires |ReadBefore(rows, w)| >= limit + 50
    ensures !IsAnswer(out, Elems(rows) + repl, limit)
  {
    var fetched := Elems(PlainStep(rows, limit + MARGIN)) + Winners(repl);
    LowestIdIsNotRead(rows, limit + MARGIN, w);
    assert w in Elems(rows) && w !in fetched;
    StepIsPart(rows, limit + MARGIN);
    assert Ahead(fetched, w) <= Ahead(Elems(rows) + Winners(repl), w);
    SubsetSize(Ahead(fetched, w), Ahead(Elems(rows) + Winners(repl), w));
  }

  lemma StepIsPart(rows: seq<Event>, fetch: nat)
    ensures Elems(PlainStep(rows, fetch)) <= Elems(rows)
  {
    SameElems(OrderBy(false, rows), rows);
    assert PlainStep(rows, fetch) <= OrderBy(false, rows);
  }

  lemma LowestIdIsNotRead(rows: seq<Event>, fetch: nat, w: Event)
    requires forall e :: e in rows && e != w && e.createdAt == w.createdAt ==> LexLess(w.id, e.id)
    requires |ReadBefore(rows, w)| >= fetch
    ensures w !in PlainStep(rows, fetch)
  {
    var sorted, a := OrderBy(false, rows), PlainStep(rows, fetch);
    OrderByInOrder(false, rows);
    SameElems(sorted, rows);
    if w in a {
      var i :| 0 <= i < |a| && a[i] == w;
      forall e | e in ReadBefore(rows, w)
        ensures e in Elems(sorted[..i])
      {
        assert e in Elems(rows) && Before(false, e, w);
        var k :| 0 <= k < |sorted| && sorted[k] == e;
        assert k < i && sorted[..i][k] == e;
      }
      SubsetSize(ReadBefore(rows, w), Elems(sorted[..i]));
      ElemsSize(sorted[..i]);
    }
  }
}
