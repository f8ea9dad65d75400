/** The tier path of `QueryEvents` (`internal/store/store.go`): one query per
    tier that can hold a match, then a merge. */
module Query {
  import opened Events
  import opened Classifier
  import opened QuerySpec
  import opened FilterSql
  import opened Sql

  datatype Result = Ok(events: seq<Event>) | Err

  /** Each tier as its own query finds it; `None` when that query fails. Tiers are
      read one after another, so their snapshots may be of different moments. */
  type Tiers = map<Tier, Option<Snapshot>>

  /** The live rows of a snapshot that the filter selects. */
  ghost function Selected(f: Filter, snap: Snapshot): set<Event> {
    set e | e in snap.rows && Selects(f, e, snap.rd)
  }

  ghost function TierRows(f: Filter, db: Tiers, t: Tier): set<Event> {
    if t in db && db[t].Some? then Selected(f, db[t].value) else {}
  }

  ghost function SelectedIn(f: Filter, db: Tiers, tiers: seq<Tier>): set<Event> {
    set t, e | t in tiers && e in TierRows(f, db, t) :: e
  }

  /** The tiers that can hold what the filter asks for. */
  ghost predicate Routed(f: Filter, override: Override, t: Tier) {
    t != Drop && (f.kinds == [] || exists k :: k in f.kinds && ClassifyWithOverride(k, override) == t)
  }

  /** What the filter selects in the tiers it is routed to. */
  ghost function RoutedRows(f: Filter, db: Tiers, override: Override): set<Event> {
    set t, e | t in db && Routed(f, override, t) && e in TierRows(f, db, t) :: e
  }

  /** One of those tiers cannot be read. */
  ghost predicate TierFails(f: Filter, db: Tiers, override: Override) {
    exists t :: t in db && Routed(f, override, t) && db[t].None?
  }

  ghost function AllRows(db: Tiers): set<Event> {
    set t, e | t in db && db[t].Some? && e in db[t].value.rows :: e
  }

  /** Every row is in the tier its kind routes to: the writers use the same routing. */
  ghost predicate Placed(db: Tiers, override: Override) {
    forall t, e :: t in db && db[t].Some? && e in db[t].value.rows ==> ClassifyWithOverride(e.kind, override) == t
  }

  ghost predicate AllStorable(db: Tiers) {
    forall e :: e in AllRows(db) ==> Storable(e)
  }

  /** For the indexed tags and castable times, those rows are the ones NIP-01 matches. */
  lemma TierRowsAreNip01(f: Filter, db: Tiers, t: Tier)
    requires TagsFit(f) && Fits(f) && t in db && db[t].Some?
    requires forall e :: e in db[t].value.rows ==> Storable(e) && RowReadable(f, e, db[t].value.rd)
    ensures TierRows(f, db, t) == set e | e in db[t].value.rows && NipMatches(f, e) && e.id !in db[t].value.rd.dead
  {
    forall e | e in db[t].value.rows
      ensures Selects(f, e, db[t].value.rd) <==> NipMatches(f, e) && e.id !in db[t].value.rd.dead
    {
      SelectsIsNip01(f, e, db[t].value.rd);
    }
  }

  // ---- one tier ----

  /** `SELECT … WHERE … ORDER BY created_at DESC, id ASC LIMIT 1 BY … LIMIT n`. */
  function TierQuery(snap: Snapshot, conds: seq<Cond>, args: seq<Arg>, limit: nat): seq<Event> {
    Trim(LimitOneBy(OrderBy(true, Where(snap.rows, conds, args, snap.rd))), limit)
  }

  lemma TierQueryIsAnswer(f: Filter, snap: Snapshot, conds: seq<Cond>, args: seq<Arg>, limit: nat)
    requires Means(f, conds, args)
    requires IdsDetermine(Elems(snap.rows))
    ensures IsAnswer(TierQuery(snap, conds, args, limit), Selected(f, snap), limit)
  {
    var found := Where(snap.rows, conds, args, snap.rd);
    assert Elems(found) == Selected(f, snap);
    CollapsedIsAnswer(found, limit);
  }

  lemma CollapsedIsAnswer(found: seq<Event>, limit: nat)
    requires IdsDetermine(Elems(found))
    ensures IsAnswer(Trim(LimitOneBy(OrderBy(true, found)), limit), Elems(found), limit)
  {
    var sorted := OrderBy(true, found);
    SameElems(sorted, found);
    OrderByInOrder(true, found);
    LimitOneByIsWinners(sorted);
    TopOfPartialFetch(LimitOneBy(sorted), Winners(Elems(found)), limit);
    assert forall w :: w in Winners(Elems(found)) ==> w in Elems(LimitOneBy(sorted));
  }

  // ---- merging tiers ----

  /** What the list built from some tiers must keep for the final sort and trim
      to be right: only winners, each once, and nothing left out that could
      still make the cut. */
  ghost predicate Covers(collected: seq<Event>, rows: set<Event>, limit: nat) {
    && Distinct(collected)
    && Elems(collected) <= Winners(rows)
    && forall w :: w in Winners(rows) && w !in collected ==> |Ahead(Elems(collected), w)| >= limit
  }

  lemma MergeTier(collected: seq<Event>, rows: set<Event>, more: seq<Event>, tierRows: set<Event>, limit: nat)
    requires Covers(collected, rows, limit) && IsAnswer(more, tierRows, limit)
    requires forall x, y :: x in rows && y in tierRows ==> Group(x) != Group(y)
    ensures Covers(collected + more, rows + tierRows, limit)
  {
    var all := collected + more;
    WinnersOfUnion(rows, tierRows);
    StrictlySortedSize(more);
    assert Elems(all) == Elems(collected) + Elems(more);
    assert Elems(collected) !! Elems(more) by {
      assert Elems(collected) <= rows && Elems(more) <= tierRows;
    }
    forall w | w in Winners(rows + tierRows) && w !in all
      ensures |Ahead(Elems(all), w)| >= limit
    {
      if w in Winners(rows) {
        SubsetSize(Ahead(Elems(collected), w), Ahead(Elems(all), w));
      } else {
        assert Elems(more) <= Ahead(Elems(all), w);
        SubsetSize(Elems(more), Ahead(Elems(all), w));
      }
    }
  }

  /** `sortDesc` and the global limit. */
  lemma SortAndTrim(collected: seq<Event>, rows: set<Event>, limit: nat)
    requires Covers(collected, rows, limit) && IdsDetermine(rows)
    ensures IsAnswer(Trim(OrderBy(true, collected), limit), rows, limit)
  {
    assert IdsDetermine(Elems(collected));
    SortDistinct(collected);
    var sorted := OrderBy(true, collected);
    TopOfPartialFetch(sorted, Winners(rows), limit);
    forall w | w in Winners(rows) && w !in sorted
      ensures w !in collected
    {
      assert w in collected ==> w in Elems(sorted);
    }
  }

  // ---- routing ----

  /** `tiersForFilter`. */
  method TiersForFilter(f: Filter, override: Override) returns (tiers: seq<Tier>)
    ensures forall t :: t in tiers <==>
      t != Drop && (f.kinds == [] || exists k :: k in f.kinds && ClassifyWithOverride(k, override) == t)
    ensures forall i, j :: 0 <= i < j < |tiers| ==> tiers[i] != tiers[j]
  {
    if |f.kinds| == 0 {
      return ACTIVE_TIERS;
    }
    tiers := [];
    var seen: set<Tier> := {};
    for n := 0 to |f.kinds|
      invariant forall t :: t in seen <==> t in tiers
      invariant forall t :: t in tiers ==>
        t != Drop && exists k :: k in f.kinds && ClassifyWithOverride(k, override) == t
      invariant forall m :: 0 <= m < n ==>
        ClassifyWithOverride(f.kinds[m], override) == Drop || ClassifyWithOverride(f.kinds[m], override) in tiers
      invariant forall i, j :: 0 <= i < j < |tiers| ==> tiers[i] != tiers[j]
    {
      var t := ClassifyWithOverride(f.kinds[n], override);
      if t != Drop && t !in seen {
        assert f.kinds[n] in f.kinds;
        seen := seen + {t};
        tiers := tiers + [t];
      }
    }
  }

  /** The tiers that routing skips hold nothing the filter selects. */
  lemma SkippedTiersHoldNoMatch(f: Filter, db: Tiers, override: Override)
    requires KindsFit(f.kinds) && AllStorable(db) && Placed(db, override)
    ensures RoutedRows(f, db, override) == SelectedIn(f, db, ACTIVE_TIERS)
  {
    KindCastExact(f.kinds);
    assert forall t: Tier :: t in ACTIVE_TIERS <==> t != Drop;
    forall t, e | t in ACTIVE_TIERS && e in TierRows(f, db, t)
      ensures Routed(f, override, t)
    {
      assert ClassifyWithOverride(e.kind, override) == t && e in AllRows(db);
      assert KindAgrees(f.kinds, e.kind);
    }
  }

  /** Kinds 6 and 4294967303: only the first routes anywhere, and the second is
      cast to 7, so the social tier returns reactions nobody asked for. */
  lemma MiscastKindIsRead(rd: Reader)
    requires "aa" !in rd.dead
    ensures var f := Filter([], [], [6, 4294967303], map[], None, None, 0);
            var row := Event("aa", "bb", 1_700_000_000, 7, [], "", "");
            && Storable(row) && Routed(f, map[], Classify(row.kind)) && !KindsFit(f.kinds)
            && Selects(f, row, rd) && !NipMatches(f, row)
  {
    var f := Filter([], [], [6, 4294967303], map[], None, None, 0);
    assert Int32s(f.kinds)[1] == 7;
    assert f.kinds[0] in f.kinds && f.kinds[1] in f.kinds;
  }

  /** Rows of different tiers never share a group. */
  lemma TiersShareNoGroup(f: Filter, db: Tiers, override: Override, tiers: seq<Tier>, t: Tier)
    requires Placed(db, override) && t !in tiers
    ensures forall x, y :: x in SelectedIn(f, db, tiers) && y in TierRows(f, db, t) ==> Group(x) != Group(y)
  {
  }

  /** The query loop of `collectEvents`. */
  method ScanTiers(f: Filter, conds: seq<Cond>, args: seq<Arg>, limit: nat, tiers: seq<Tier>, db: Tiers,
                   ghost override: Override)
    returns (ok: bool, collected: seq<Event>)
    requires Means(f, conds, args)
    requires Placed(db, override) && IdsDetermine(AllRows(db))
    requires forall t :: t in tiers ==> t in db
    requires forall i, j :: 0 <= i < j < |tiers| ==> tiers[i] != tiers[j]
    ensures !ok <==> exists t :: t in tiers && t in db && db[t].None?
    ensures ok ==> Covers(collected, SelectedIn(f, db, tiers), limit)
  {
    ok, collected := true, [];
    for i := 0 to |tiers|
      invariant ok && forall j :: 0 <= j < i ==> db[tiers[j]].Some?
      invariant Covers(collected, SelectedIn(f, db, tiers[..i]), limit)
    {
      var t := tiers[i];
      if db[t].None? {
        return false, collected;
      }
      collected := ScanTier(f, conds, args, limit, tiers, i, db, override, collected);
    }
    assert tiers[..|tiers|] == tiers;
  }

  /** One tier's query, appended to what the earlier tiers gave. */
  method ScanTier(ghost f: Filter, conds: seq<Cond>, args: seq<Arg>, limit: nat, tiers: seq<Tier>, i: nat, db: Tiers,
                  ghost override: Override, collected: seq<Event>)
    returns (more: seq<Event>)
    requires Means(f, conds, args) && Placed(db, override) && IdsDetermine(AllRows(db))
    requires forall i, j :: 0 <= i < j < |tiers| ==> tiers[i] != tiers[j]
    requires i < |tiers| && tiers[i] in db && db[tiers[i]].Some?
    requires Covers(collected, SelectedIn(f, db, tiers[..i]), limit)
    ensures Covers(more, SelectedIn(f, db, tiers[..i + 1]), limit)
  {
    var rows := TierQuery(db[tiers[i]].value, conds, args, limit);
    ScanOne(f, conds, args, limit, tiers, db, override, i, collected, rows);
    more := collected + rows;
  }

  lemma ScanOne(f: Filter, conds: seq<Cond>, args: seq<Arg>, limit: nat, tiers: seq<Tier>, db: Tiers,
                override: Override, i: nat, collected: seq<Event>, rows: seq<Event>)
    requires Means(f, conds, args)
    requires Placed(db, override) && IdsDetermine(AllRows(db))
    requires forall i, j :: 0 <= i < j < |tiers| ==> tiers[i] != tiers[j]
    requires i < |tiers| && tiers[i] in db && db[tiers[i]].Some?
    requires rows == TierQuery(db[tiers[i]].value, conds, args, limit)
    requires Covers(collected, SelectedIn(f, db, tiers[..i]), limit)
    ensures Covers(collected + rows, SelectedIn(f, db, tiers[..i + 1]), limit)
  {
    var t := tiers[i];
    assert Elems(db[t].value.rows) <= AllRows(db);
    TierQueryIsAnswer(f, db[t].value, conds, args, limit);
    TiersShareNoGroup(f, db, override, tiers[..i], t);
    MergeTier(collected, SelectedIn(f, db, tiers[..i]), rows, TierRows(f, db, t), limit);
    SelectedSnoc(f, db, tiers, i);
  }

  lemma SelectedSnoc(f: Filter, db: Tiers, tiers: seq<Tier>, i: nat)
    requires i < |tiers|
    ensures SelectedIn(f, db, tiers[..i + 1]) == SelectedIn(f, db, tiers[..i]) + TierRows(f, db, tiers[i])
  {
    assert tiers[..i + 1] == tiers[..i] + [tiers[i]];
  }

  /** The tier part of `collectEvents`: an error exactly when a tier it reads
      fails, else the answer over those tiers, which is the answer over all of
      them when the kinds fit. */
  method CollectTiers(f: Filter, order: seq<string>, db: Tiers, override: Override)
    returns (r: Result)
    requires IsRange(order, f.tags) && Placed(db, override) && IdsDetermine(AllRows(db))
    requires forall t :: t in ACTIVE_TIERS ==> t in db
    ensures r.Err? <==> TierFails(f, db, override)
    ensures r.Err? <==>
      exists t :: t in db && db[t].None? && t != Drop
        && (f.kinds == [] || exists k :: k in f.kinds && ClassifyWithOverride(k, override) == t)
    ensures r.Ok? ==> IsAnswer(r.events, RoutedRows(f, db, override), if 1 <= f.limit <= 1000 then f.limit else 1000)
    ensures r.Ok? && KindsFit(f.kinds) && AllStorable(db) ==>
      IsAnswer(r.events, SelectedIn(f, db, ACTIVE_TIERS), if 1 <= f.limit <= 1000 then f.limit else 1000)
  {
    var conds, args, limit := BuildFilter(f, order);
    var tiers := TiersForFilter(f, override);
    assert forall t: Tier :: t in ACTIVE_TIERS <==> t != Drop;
    var ok, collected := ScanTiers(f, conds, args, limit, tiers, db, override);
    if !ok {
      return Err;
    }
    assert SelectedIn(f, db, tiers) == RoutedRows(f, db, override);
    assert RoutedRows(f, db, override) <= AllRows(db);
    SortAndTrim(collected, RoutedRows(f, db, override), limit);
    collected := OrderBy(true, collected);
    r := Ok(Trim(collected, limit));
    if KindsFit(f.kinds) && AllStorable(db) {
      SkippedTiersHoldNoMatch(f, db, override);
    }
  }
}
