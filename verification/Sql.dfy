/** The fragments of SELECT the store relies on, as functions on row lists. */
module Sql {
  import opened Events
  import opened QuerySpec
  import opened FilterSql

  /** A table together with the dictionary, as one query sees them. */
  datatype Snapshot = Snapshot(rows: seq<Event>, rd: Reader)

  // ---- WHERE ----

  function Where(rows: seq<Event>, conds: seq<Cond>, args: seq<Arg>, rd: Reader): (out: seq<Event>)
    ensures forall e :: e in out <==> e in rows && Eval(conds, args, e, rd) == Some(true)
  {
    if rows == [] then []
    else
      var rest := Where(rows[1..], conds, args, rd);
      if Eval(conds, args, rows[0], rd) == Some(true) then [rows[0]] + rest else rest
  }

  // ---- ORDER BY ----

  ghost predicate InOrder(idAsc: bool, s: seq<Event>) {
    forall i, j :: 0 <= i < j < |s| ==> !Before(idAsc, s[j], s[i])
  }

  lemma NotBeforeTransitive(idAsc: bool, a: Event, b: Event, c: Event)
    requires !Before(idAsc, a, b) && !Before(idAsc, b, c)
    ensures !Before(idAsc, a, c)
  {
    BeforeTotal(idAsc, a, b);
    if Before(idAsc, a, c) && Before(idAsc, b, a) {
      BeforeTransitive(idAsc, b, a, c);
    }
  }

  function Insert(idAsc: bool, e: Event, s: seq<Event>): (out: seq<Event>)
    ensures multiset(out) == multiset(s) + multiset{e}
    decreases |s|
  {
    if s != [] && Before(idAsc, s[0], e) then
      assert s == [s[0]] + s[1..];
      [s[0]] + Insert(idAsc, e, s[1..])
    else [e] + s
  }

  lemma {:induction false} InsertKeepsOrder(idAsc: bool, e: Event, s: seq<Event>)
    requires InOrder(idAsc, s)
    ensures InOrder(idAsc, Insert(idAsc, e, s))
    decreases |s|
  {
    var out := Insert(idAsc, e, s);
    if s != [] && Before(idAsc, s[0], e) {
      InsertKeepsOrder(idAsc, e, s[1..]);
      BeforeAsymmetric(idAsc, s[0], e);
      forall x | x in Insert(idAsc, e, s[1..])
        ensures !Before(idAsc, x, s[0])
      {
        assert x in multiset(s[1..]) + multiset{e};
      }
      assert out == [s[0]] + Insert(idAsc, e, s[1..]);
    } else if s != [] {
      forall j | 0 <= j < |s|
        ensures !Before(idAsc, s[j], e)
      {
        if j > 0 {
          NotBeforeTransitive(idAsc, s[j], s[0], e);
        }
      }
    }
  }

  /** A sorted permutation of the rows. */
  function OrderBy(idAsc: bool, s: seq<Event>): (out: seq<Event>)
    ensures multiset(out) == multiset(s)
  {
    if s == [] then []
    else
      assert s == [s[0]] + s[1..];
      Insert(idAsc, s[0], OrderBy(idAsc, s[1..]))
  }

  lemma {:induction false} OrderByInOrder(idAsc: bool, s: seq<Event>)
    ensures InOrder(idAsc, OrderBy(idAsc, s))
    decreases |s|
  {
    if s != [] {
      OrderByInOrder(idAsc, s[1..]);
      InsertKeepsOrder(idAsc, s[0], OrderBy(idAsc, s[1..]));
    }
  }

  lemma SameElems(a: seq<Event>, b: seq<Event>)
    requires multiset(a) == multiset(b)
    ensures Elems(a) == Elems(b) && |a| == |b|
  {
    assert forall e :: e in a <==> e in multiset(a);
    assert forall e :: e in b <==> e in multiset(b);
    assert |a| == |multiset(a)| && |b| == |multiset(b)|;
  }

  // ---- distinct lists ----

  ghost predicate Distinct(s: seq<Event>) {
    |Elems(s)| == |s|
  }

  lemma {:induction false} ElemsSize(s: seq<Event>)
    ensures |Elems(s)| <= |s|
    decreases |s|
  {
    if s != [] {
      ElemsSize(s[1..]);
      assert s == [s[0]] + s[1..];
      assert Elems(s) == Elems(s[1..]) + {s[0]};
    }
  }

  lemma {:induction false} DistinctIndices(s: seq<Event>, i: nat, j: nat)
    requires Distinct(s) && i < j < |s|
    ensures s[i] != s[j]
  {
    if s[i] == s[j] {
      var rest := s[..j] + s[j + 1..];
      forall e | e in s
        ensures e in rest
      {
        var k :| 0 <= k < |s| && s[k] == e;
        var m := if k == j then i else if k < j then k else k - 1;
        assert rest[m] == e;
      }
      assert Elems(rest) == Elems(s);
      ElemsSize(rest);
    }
  }

  /** Go's `sort.Slice` on a list without duplicates sorts it strictly. */
  lemma SortDistinct(s: seq<Event>)
    requires Distinct(s) && IdsDetermine(Elems(s))
    ensures StrictlySorted(OrderBy(true, s)) && Elems(OrderBy(true, s)) == Elems(s)
  {
    var out := OrderBy(true, s);
    OrderByInOrder(true, s);
    SameElems(out, s);
    forall i, j | 0 <= i < j < |out|
      ensures Better(out[i], out[j])
    {
      DistinctIndices(out, i, j);
      assert out[i] in Elems(s) && out[j] in Elems(s);
      BeforeTotal(true, out[i], out[j]);
    }
  }

  // ---- LIMIT 1 BY ----

  predicate HasGroup(s: seq<Event>, g: (int, string)) {
    exists e :: e in s && Group(e) == g
  }

  /** `LIMIT 1 BY` keeps the first row of each group. */
  function LimitOneBy(s: seq<Event>): seq<Event>
    decreases |s|
  {
    if s == [] then []
    else
      var p, last := s[..|s| - 1], s[|s| - 1];
      if HasGroup(p, Group(last)) then LimitOneBy(p) else LimitOneBy(p) + [last]
  }

  /** On rows in serving order, that is the winner of each group. */
  lemma {:induction false} LimitOneByIsWinners(s: seq<Event>)
    requires InOrder(true, s) && IdsDetermine(Elems(s))
    ensures StrictlySorted(LimitOneBy(s)) && Elems(LimitOneBy(s)) == Winners(Elems(s))
    decreases |s|
  {
    if s != [] {
      var p, last := s[..|s| - 1], s[|s| - 1];
      assert Elems(s) == Elems(p) + {last};
      LimitOneByIsWinners(p);
      assert s == p + [last];
      LastIsWorst(p, last);
      if HasGroup(p, Group(last)) {
        var y :| y in p && Group(y) == Group(last);
        WinnersIgnoreWorse(Elems(p), y, last);
      } else {
        assert IsWinner({last}, last);
        assert Winners({last}) == {last};
        WinnersOfUnion(Elems(p), {last});
        AppendWorst(LimitOneBy(p), last);
      }
    }
  }

  lemma LastIsWorst(p: seq<Event>, last: Event)
    requires InOrder(true, p + [last]) && IdsDetermine(Elems(p + [last]))
    ensures forall x :: x in p ==> x == last || Better(x, last)
  {
    var s := p + [last];
    forall x | x in p
      ensures x == last || Better(x, last)
    {
      var i :| 0 <= i < |p| && p[i] == x;
      assert !Before(true, s[|p|], s[i]);
      BeforeTotal(true, x, last);
      assert x in Elems(s) && last in Elems(s);
    }
  }

  lemma AppendWorst(kept: seq<Event>, last: Event)
    requires StrictlySorted(kept) && forall x :: x in Elems(kept) ==> Better(x, last)
    ensures StrictlySorted(kept + [last]) && Elems(kept + [last]) == Elems(kept) + {last}
  {
  }
}
