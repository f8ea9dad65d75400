/** `internal/store/filter_sql.go`: a filter compiled to conjuncts with `?`
    placeholders and a list of positional arguments, and what the database makes
    of the two. The conjuncts are kept as tokens rather than SQL text. */
module FilterSql {
  import opened Events

  datatype Filter = Filter(
    ids: seq<string>,
    authors: seq<string>,
    kinds: seq<int>,
    tags: map<string, seq<string>>,
    since: Option<int>,
    until: Option<int>,
    limit: int)

  /** What a row predicate reads besides the row: the tombstone dictionary, and
      the (row id, key, value) triples on which the substring scan over the raw
      tag text hits. */
  datatype Reader = Reader(dead: set<string>, rawHits: set<(string, string, string)>)

  datatype Cond =
    | IdIn | PubkeyIn | KindIn
    | HasAny(column: string)
    | TagDEquals
    | RawPosition
    | CreatedFrom | CreatedTo
    | NotTombstoned

  datatype Arg =
    | Strings(strings: seq<string>)
    | Ints(ints: seq<int>)
    | Str(str: string)
    | Num(num: int)
    | Needle(key: string, value: string)

  const TWO31: int := 0x8000_0000
  const TWO32: int := 0x1_0000_0000
  const DEFAULT_QUERY_LIMIT: nat := 1000

  /** Go's `uint32(x)`. */
  function U32(x: int): int { x % TWO32 }

  /** Go's `int32(x)`. */
  function I32(x: int): int {
    if x % TWO32 < TWO31 then x % TWO32 else x % TWO32 - TWO32
  }

  function Int32s(ks: seq<int>): seq<int> {
    seq(|ks|, i requires 0 <= i < |ks| => I32(ks[i]))
  }

  // ---- the database's reading of conjuncts and arguments ----

  /** The accelerator column of a tag: second items of the tags named `name`. */
  function TagColumn(row: Event, name: string): seq<string> {
    TagValues(row.tags, name)
  }

  function TagValues(tags: seq<seq<string>>, name: string): seq<string> {
    if tags == [] then []
    else if |tags[0]| >= 2 && tags[0][0] == name then [tags[0][1]] + TagValues(tags[1..], name)
    else TagValues(tags[1..], name)
  }

  /** `tag_d`: the value of the first d-tag, empty when there is none. */
  function TagD(row: Event): string {
    var ds := TagColumn(row, "d");
    if ds == [] then "" else ds[0]
  }

  predicate Overlaps(xs: seq<string>, ys: seq<string>) {
    exists y :: y in ys && y in xs
  }

  /** One conjunct with its argument; `None` is a type mismatch. */
  function Bind(c: Cond, a: Arg, row: Event, rd: Reader): Option<bool> {
    match (c, a)
    case (IdIn, Strings(xs)) => Some(row.id in xs)
    case (PubkeyIn, Strings(xs)) => Some(row.pubkey in xs)
    case (KindIn, Ints(ks)) => Some(row.kind in ks)
    case (HasAny(col), Strings(xs)) => Some(Overlaps(TagColumn(row, col), xs))
    case (TagDEquals, Str(s)) => Some(TagD(row) == s)
    case (RawPosition, Needle(k, v)) => Some((row.id, k, v) in rd.rawHits)
    case (CreatedFrom, Num(n)) => Some(row.createdAt >= n)
    case (CreatedTo, Num(n)) => Some(row.createdAt <= n)
    case _ => None
  }

  function And(a: Option<bool>, b: Option<bool>): Option<bool> {
    if a.Some? && b.Some? then Some(a.value && b.value) else None
  }

  /** Placeholders take arguments left to right; a missing, surplus or ill-typed
      argument is an error (`None`). */
  function Eval(conds: seq<Cond>, args: seq<Arg>, row: Event, rd: Reader): Option<bool>
    decreases |conds|
  {
    if conds == [] then
      if args == [] then Some(true) else None
    else if conds[0].NotTombstoned? then
      And(Some(row.id !in rd.dead), Eval(conds[1..], args, row, rd))
    else if args == [] then None
    else And(Bind(conds[0], args[0], row, rd), Eval(conds[1..], args[1..], row, rd))
  }

  lemma {:induction false} EvalAppend(c1: seq<Cond>, a1: seq<Arg>, c2: seq<Cond>, a2: seq<Arg>, row: Event, rd: Reader)
    requires Eval(c1, a1, row, rd).Some?
    ensures Eval(c1 + c2, a1 + a2, row, rd) == And(Eval(c1, a1, row, rd), Eval(c2, a2, row, rd))
    decreases |c1|
  {
    if c1 == [] {
      assert c1 + c2 == c2 && a1 + a2 == a2;
    } else {
      assert (c1 + c2)[1..] == c1[1..] + c2;
      if c1[0].NotTombstoned? {
        EvalAppend(c1[1..], a1, c2, a2, row, rd);
      } else {
        assert (a1 + a2)[1..] == a1[1..] + a2;
        EvalAppend(c1[1..], a1[1..], c2, a2, row, rd);
      }
    }
  }

  /** Pushing one conjunct with its argument conjoins its meaning, for every row. */
  lemma Push(conds: seq<Cond>, args: seq<Arg>, c: Cond, a: Arg)
    requires !c.NotTombstoned?
    ensures forall row, rd :: Eval(conds, args, row, rd).Some? ==>
      Eval(conds + [c], args + [a], row, rd) == And(Eval(conds, args, row, rd), Bind(c, a, row, rd))
  {
    forall row, rd | Eval(conds, args, row, rd).Some?
      ensures Eval(conds + [c], args + [a], row, rd) == And(Eval(conds, args, row, rd), Bind(c, a, row, rd))
    {
      EvalAppend(conds, args, [c], [a], row, rd);
      assert Eval([c], [a], row, rd) == And(Bind(c, a, row, rd), Eval([], [], row, rd));
    }
  }

  // ---- what a filter selects ----

  /** The rows a tag constraint lets through, as the relay implements it. */
  predicate TagSelects(key: string, vals: seq<string>, row: Event, rd: Reader) {
    vals == [] ||
    if key in {"e", "p", "t"} then Overlaps(TagColumn(row, key), vals)
    else if key == "d" then TagD(row) == vals[0]
    else forall v :: v in vals ==> (row.id, key, v) in rd.rawHits
  }

  predicate ScalarSelects(f: Filter, row: Event) {
    && (f.ids == [] || row.id in f.ids)
    && (f.authors == [] || row.pubkey in f.authors)
    && (f.kinds == [] || row.kind in Int32s(f.kinds))
  }

  predicate TimeSelects(f: Filter, row: Event) {
    && (f.since.Some? ==> row.createdAt >= U32(f.since.value))
    && (f.until.Some? ==> row.createdAt <= U32(f.until.value))
  }

  ghost predicate TagsSelect(f: Filter, keys: seq<string>, row: Event, rd: Reader)
    requires forall k :: k in keys ==> k in f.tags
  {
    forall k :: k in keys ==> TagSelects(k, f.tags[k], row, rd)
  }

  /** The live rows the relay selects for a filter. */
  ghost predicate Selects(f: Filter, row: Event, rd: Reader) {
    && ScalarSelects(f, row)
    && (forall k :: k in f.tags ==> TagSelects(k, f.tags[k], row, rd))
    && TimeSelects(f, row)
    && row.id !in rd.dead
  }

  /** Conjuncts and arguments that are aligned and select what the filter should. */
  ghost predicate Means(f: Filter, conds: seq<Cond>, args: seq<Arg>) {
    forall row, rd :: Eval(conds, args, row, rd) == Some(Selects(f, row, rd))
  }

  /** Go ranges over a map in any order, each key once. */
  ghost predicate IsRange(order: seq<string>, tags: map<string, seq<string>>) {
    && (forall k :: k in order <==> k in tags)
    && (forall i, j :: 0 <= i < j < |order| ==> order[i] != order[j])
  }

  /** `buildFilterSQL`: for every filter, every map iteration order and every
      row, the emitted conjuncts and arguments stay aligned and mean `Selects`. */
  method BuildFilter(f: Filter, order: seq<string>) returns (conds: seq<Cond>, args: seq<Arg>, limit: nat)
    requires IsRange(order, f.tags)
    ensures Means(f, conds, args)
    ensures limit == if 1 <= f.limit <= 1000 then f.limit else 1000
  {
    conds, args := BuildScalars(f);
    for i := 0 to |order|
      invariant forall row, rd ::
        Eval(conds, args, row, rd) == Some(ScalarSelects(f, row) && TagsSelect(f, order[..i], row, rd))
    {
      ghost var c0, a0 := conds, args;
      conds, args := BuildTag(order[i], f.tags[order[i]], conds, args);
      assert order[..i + 1] == order[..i] + [order[i]];
      forall row, rd
        ensures Eval(conds, args, row, rd) == Some(ScalarSelects(f, row) && TagsSelect(f, order[..i + 1], row, rd))
      {
        assert Eval(c0, a0, row, rd).Some?;
      }
    }
    assert order[..|order|] == order;
    ghost var c1, a1 := conds, args;
    if f.since.Some? {
      Push(conds, args, CreatedFrom, Num(U32(f.since.value)));
      conds, args := conds + [CreatedFrom], args + [Num(U32(f.since.value))];
    }
    if f.until.Some? {
      Push(conds, args, CreatedTo, Num(U32(f.until.value)));
      conds, args := conds + [CreatedTo], args + [Num(U32(f.until.value))];
    }
    forall row, rd
      ensures Eval(conds + [NotTombstoned], args, row, rd) == Some(Selects(f, row, rd))
    {
      assert Eval(c1, a1, row, rd).Some?;
      EvalAppend(conds, args, [NotTombstoned], [], row, rd);
      assert args + [] == args;
      assert Eval([NotTombstoned], [], row, rd) == And(Some(row.id !in rd.dead), Eval([], [], row, rd));
    }
    conds := conds + [NotTombstoned];
    limit := if f.limit < 1 || f.limit > DEFAULT_QUERY_LIMIT then DEFAULT_QUERY_LIMIT else f.limit;
  }

  method BuildScalars(f: Filter) returns (conds: seq<Cond>, args: seq<Arg>)
    ensures forall row, rd :: Eval(conds, args, row, rd) == Some(ScalarSelects(f, row))
  {
    conds, args := [], [];
    if |f.ids| > 0 {
      Push(conds, args, IdIn, Strings(f.ids));
      conds, args := conds + [IdIn], args + [Strings(f.ids)];
    }
    if |f.authors| > 0 {
      Push(conds, args, PubkeyIn, Strings(f.authors));
      conds, args := conds + [PubkeyIn], args + [Strings(f.authors)];
    }
    if |f.kinds| > 0 {
      Push(conds, args, KindIn, Ints(Int32s(f.kinds)));
      conds, args := conds + [KindIn], args + [Ints(Int32s(f.kinds))];
    }
  }

  method BuildTag(key: string, vals: seq<string>, conds0: seq<Cond>, args0: seq<Arg>)
    returns (conds: seq<Cond>, args: seq<Arg>)
    ensures forall row, rd :: Eval(conds0, args0, row, rd).Some? ==>
      Eval(conds, args, row, rd) == And(Eval(conds0, args0, row, rd), Some(TagSelects(key, vals, row, rd)))
  {
    conds, args := conds0, args0;
    if |vals| == 0 {
      return;
    }
    if key == "e" || key == "p" || key == "t" {
      Push(conds, args, HasAny(key), Strings(vals));
      conds, args := conds + [HasAny(key)], args + [Strings(vals)];
    } else if key == "d" {
      Push(conds, args, TagDEquals, Str(vals[0]));
      conds, args := conds + [TagDEquals], args + [Str(vals[0])];
    } else {
      for i := 0 to |vals|
        invariant forall row, rd :: Eval(conds0, args0, row, rd).Some? ==>
          Eval(conds, args, row, rd)
          == And(Eval(conds0, args0, row, rd), Some(forall v :: v in vals[..i] ==> (row.id, key, v) in rd.rawHits))
      {
        Push(conds, args, RawPosition, Needle(key, vals[i]));
        assert vals[..i + 1] == vals[..i] + [vals[i]];
        conds, args := conds + [RawPosition], args + [Needle(key, vals[i])];
      }
      assert vals[..|vals|] == vals;
    }
  }

  /** The feed query puts `kind IN (?)` in front of the compiled filter and its
      argument in front of the arguments; the alignment survives. */
  lemma PrependKinds(conds: seq<Cond>, args: seq<Arg>, kinds: seq<int>, row: Event, rd: Reader)
    requires Eval(conds, args, row, rd).Some?
    ensures Eval([KindIn] + conds, [Ints(kinds)] + args, row, rd)
         == Some(row.kind in kinds && Eval(conds, args, row, rd).value)
  {
  }

  // ---- NIP-01 ----

  /** NIP-01: one of the event's tags is named `key` and carries a wanted value. */
  ghost predicate NipTag(row: Event, key: string, vals: seq<string>) {
    exists i :: 0 <= i < |row.tags| && |row.tags[i]| >= 2 && row.tags[i][0] == key && row.tags[i][1] in vals
  }

  /** Filter matching as NIP-01 words it. */
  ghost predicate NipMatches(f: Filter, row: Event) {
    && (f.ids != [] ==> row.id in f.ids)
    && (f.authors != [] ==> row.pubkey in f.authors)
    && (f.kinds != [] ==> row.kind in f.kinds)
    && (forall k :: k in f.tags ==> NipTag(row, k, f.tags[k]))
    && (f.since.Some? ==> row.createdAt >= f.since.value)
    && (f.until.Some? ==> row.createdAt <= f.until.value)
  }

  /** The relay's test on a tag and NIP-01's agree on all rows it can read: any
      wanted values for an indexed tag, one value for the others, and for d not the
      empty one, which a row without the tag has. */
  predicate TagFits(key: string, vals: seq<string>) {
    vals != [] && (key in {"e", "p", "t"} || ((forall v :: v in vals ==> v == vals[0]) && (key == "d" ==> vals[0] != "")))
  }

  /** What the relay takes for granted about a row: one d tag, a substring scan
      that finds exactly the tags. */
  ghost predicate Readable(key: string, row: Event, rd: Reader) {
    if key == "d" then |TagColumn(row, key)| <= 1
    else key in {"e", "p", "t"} || forall v :: (row.id, key, v) in rd.rawHits <==> NipTag(row, key, [v])
  }

  ghost predicate TagAgrees(key: string, vals: seq<string>, row: Event, rd: Reader) {
    TagSelects(key, vals, row, rd) <==> NipTag(row, key, vals)
  }

  lemma TagCompiles(key: string, vals: seq<string>, row: Event, rd: Reader)
    requires TagFits(key, vals) && Readable(key, row, rd)
    ensures TagAgrees(key, vals, row, rd)
  {
    ColumnIsNipTag(row, key, vals);
    assert vals[0] in vals;
    if key == "d" {
      var column := TagColumn(row, key);
      assert column == [] || column == [TagD(row)];
      assert Overlaps(column, vals) <==> vals[0] in column;
    } else if key !in {"e", "p", "t"} {
      assert NipTag(row, key, vals) <==> NipTag(row, key, [vals[0]]);
    }
  }

  /** Exactly when a tag constraint means what NIP-01 says. A d constraint uses its
      first value only, and other tags want all values at once. */
  lemma TagCompilesIff(key: string, vals: seq<string>)
    requires vals != []
    ensures TagFits(key, vals) <==> forall row, rd :: Readable(key, row, rd) ==> TagAgrees(key, vals, row, rd)
  {
    if TagFits(key, vals) {
      forall row, rd | Readable(key, row, rd)
        ensures TagAgrees(key, vals, row, rd)
      {
        TagCompiles(key, vals, row, rd);
      }
    } else if key == "d" && vals[0] == "" {
      var row, rd := Tagged([]), Reader({}, {});
      assert TagColumn(row, key) == [];
      assert Readable(key, row, rd) && !TagAgrees(key, vals, row, rd);
    } else {
      var v :| v in vals && v != vals[0];
      var row, rd := Tagged([[key, v]]), Reader({}, {("", key, v)});
      OneTag(key, v);
      assert row.tags[0][1] in vals;
      assert NipTag(row, key, vals);
      assert vals[0] in vals;
      assert !TagSelects(key, vals, row, rd);
      assert Readable(key, row, rd) && !TagAgrees(key, vals, row, rd);
    }
  }

  function Tagged(tags: seq<seq<string>>): Event {
    Event("", "", 0, 1, tags, "", "")
  }

  lemma OneTag(key: string, v: string)
    ensures TagColumn(Tagged([[key, v]]), key) == [v]
    ensures forall x :: NipTag(Tagged([[key, v]]), key, [x]) <==> x == v
  {
    var row := Tagged([[key, v]]);
    assert row.tags[1..] == [] && row.tags[0] == [key, v] && row.tags[0][0] == key && row.tags[0][1] == v;
    assert TagValues(row.tags, key) == [v] + TagValues([], key);
    forall x
      ensures NipTag(row, key, [x]) <==> x == v
    {
      if x == v {
        assert row.tags[0][1] in [x];
      }
    }
  }

  /** The indexed tags, and others with one value each. */
  ghost predicate TagsFit(f: Filter) {
    forall k :: k in f.tags ==> TagFits(k, f.tags[k])
  }

  ghost predicate RowReadable(f: Filter, row: Event, rd: Reader) {
    forall k :: k in f.tags ==> Readable(k, row, rd)
  }

  /** `since` survives the uint32 cast: every storable timestamp compares the same. */
  predicate SinceFits(since: int) {
    0 <= since < TWO32 || (since < 0 && since % TWO32 == 0)
  }

  predicate UntilFits(until: int) {
    0 <= until < TWO32 || (until >= TWO32 && until % TWO32 == TWO32 - 1)
  }

  /** The requested kinds survive the int32 cast: no storable kind from 2^31 on,
      and nothing outside the storable range that becomes a kind not asked for. */
  predicate KindsFit(kinds: seq<int>) {
    forall k :: k in kinds ==> !(TWO31 <= k < TWO32) && (I32(k) < 0 || I32(k) in kinds)
  }

  ghost predicate Fits(f: Filter) {
    && KindsFit(f.kinds)
    && (f.since.Some? ==> SinceFits(f.since.value))
    && (f.until.Some? ==> UntilFits(f.until.value))
  }

  /** The columns for created_at and kind are UInt32. */
  predicate Storable(row: Event) {
    0 <= row.createdAt < TWO32 && 0 <= row.kind < TWO32
  }

  /** Compilation preserves meaning: the relay selects what NIP-01 matches and
      the dictionary does not hide. */
  lemma SelectsIsNip01(f: Filter, row: Event, rd: Reader)
    requires TagsFit(f) && Fits(f) && Storable(row) && RowReadable(f, row, rd)
    ensures Selects(f, row, rd) <==> NipMatches(f, row) && row.id !in rd.dead
  {
    forall k | k in f.tags
      ensures TagSelects(k, f.tags[k], row, rd) <==> NipTag(row, k, f.tags[k])
    {
      TagCompiles(k, f.tags[k], row, rd);
    }
    KindCastExact(f.kinds);
    assert KindAgrees(f.kinds, row.kind);
    if f.since.Some? {
      SinceCastExact(f.since.value);
      assert SinceAgrees(f.since.value, row.createdAt);
    }
    if f.until.Some? {
      UntilCastExact(f.until.value);
      assert UntilAgrees(f.until.value, row.createdAt);
    }
  }

  lemma ColumnIsNipTag(row: Event, key: string, vals: seq<string>)
    ensures Overlaps(TagColumn(row, key), vals) <==> NipTag(row, key, vals)
  {
    forall v
      ensures v in TagColumn(row, key)
         <==> exists i :: 0 <= i < |row.tags| && |row.tags[i]| >= 2 && row.tags[i][0] == key && row.tags[i][1] == v
    {
      TagValuesAre(row.tags, key, v);
    }
    if Overlaps(TagColumn(row, key), vals) {
      var v :| v in vals && v in TagColumn(row, key);
    }
    if NipTag(row, key, vals) {
      var i :| 0 <= i < |row.tags| && |row.tags[i]| >= 2 && row.tags[i][0] == key && row.tags[i][1] in vals;
      assert row.tags[i][1] in TagColumn(row, key);
    }
  }

  lemma {:induction false} TagValuesAre(tags: seq<seq<string>>, name: string, v: string)
    ensures v in TagValues(tags, name)
       <==> exists i :: 0 <= i < |tags| && |tags[i]| >= 2 && tags[i][0] == name && tags[i][1] == v
    decreases |tags|
  {
    if tags != [] {
      TagValuesAre(tags[1..], name, v);
      assert forall i :: 1 <= i < |tags| ==> tags[i] == tags[1..][i - 1];
      if v in TagValues(tags[1..], name) {
        var i :| 0 <= i < |tags[1..]| && |tags[1..][i]| >= 2 && tags[1..][i][0] == name && tags[1..][i][1] == v;
        assert tags[i + 1] == tags[1..][i];
      }
    }
  }

  predicate SinceAgrees(since: int, t: int) {
    t >= U32(since) <==> t >= since
  }

  predicate UntilAgrees(until: int, t: int) {
    t <= U32(until) <==> t <= until
  }

  predicate KindAgrees(kinds: seq<int>, kind: int) {
    kind in Int32s(kinds) <==> kind in kinds
  }

  /** The cast of the kinds is harmless for every storable kind exactly when they fit. */
  lemma KindCastExact(kinds: seq<int>)
    ensures KindsFit(kinds) <==> forall k :: 0 <= k < TWO32 ==> KindAgrees(kinds, k)
  {
    forall k | k in kinds
      ensures I32(k) in Int32s(kinds)
    {
      var i :| 0 <= i < |kinds| && kinds[i] == k;
      assert Int32s(kinds)[i] == I32(k);
    }
    if forall k :: 0 <= k < TWO32 ==> KindAgrees(kinds, k) {
      forall k | k in kinds
        ensures !(TWO31 <= k < TWO32) && (I32(k) < 0 || I32(k) in kinds)
      {
        assert TWO31 <= k < TWO32 ==> !KindAgrees(kinds, k);
        assert I32(k) >= 0 ==> KindAgrees(kinds, I32(k));
      }
    }
  }

  lemma SmallKindsFit(kinds: seq<int>)
    requires forall k :: k in kinds ==> -TWO31 <= k < TWO31
    ensures Int32s(kinds) == kinds && KindsFit(kinds)
  {
    forall i | 0 <= i < |kinds|
      ensures Int32s(kinds)[i] == kinds[i]
    {
      assert kinds[i] in kinds;
    }
  }

  /** The cast of `since` is harmless for every storable timestamp exactly when it fits. */
  lemma SinceCastExact(since: int)
    ensures SinceFits(since) <==> forall t :: 0 <= t < TWO32 ==> SinceAgrees(since, t)
  {
    if !SinceFits(since) {
      assert !SinceAgrees(since, if since < 0 then 0 else TWO32 - 1);
    }
  }

  lemma UntilCastExact(until: int)
    ensures UntilFits(until) <==> forall t :: 0 <= t < TWO32 ==> UntilAgrees(until, t)
  {
    if !UntilFits(until) {
      assert !UntilAgrees(until, if until < 0 then 0 else TWO32 - 1);
    }
  }

  /** `since: -1`, which NIP-01 lets match everything, hides an ordinary row. */
  lemma NegativeSinceHidesRows(rd: Reader)
    ensures var f := Filter([], [], [], map[], Some(-1), None, 0);
            var row := Event("aa", "bb", 1_700_000_000, 1, [], "", "");
            NipMatches(f, row) && !Fits(f) && U32(-1) == 4294967295 && !Selects(f, row, rd)
  {
  }
}
