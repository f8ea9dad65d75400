/** What a REQ should return, stated on sets of rows: the winner of every group,
    best first, at most `limit` of them. Nothing here mentions tables, tiers,
    duplicates or the order in which rows are fetched. */
module QuerySpec {
  import opened Events
  import opened Classifier

  /** The group of `LIMIT 1 BY kind, if(kind IN (0,3,10002), pubkey, id)`. */
  function Group(e: Event): (int, string) {
    (e.kind, if IsReplaceable(e.kind) then e.pubkey else e.id)
  }

  ghost predicate IsWinner(rows: set<Event>, e: Event) {
    e in rows && forall x :: x in rows && Group(x) == Group(e) ==> x == e || Better(e, x)
  }

  ghost function Winners(rows: set<Event>): set<Event> {
    set e | e in rows && IsWinner(rows, e)
  }

  ghost predicate StrictlySorted(out: seq<Event>) {
    forall i, j :: 0 <= i < j < |out| ==> Better(out[i], out[j])
  }

  /** `out` is the best `limit` elements of `pool`, best first. */
  ghost predicate IsTop(out: seq<Event>, pool: set<Event>, limit: nat) {
    && StrictlySorted(out)
    && |out| <= limit
    && (forall e :: e in out ==> e in pool)
    && (forall w :: w in pool ==> w in out || (|out| == limit && forall e :: e in out ==> Better(e, w)))
  }

  /** The answer to a query whose filter selects exactly the live rows `rows`. */
  ghost predicate IsAnswer(out: seq<Event>, rows: set<Event>, limit: nat) {
    IsTop(out, Winners(rows), limit)
  }

  /** The specification leaves no freedom: a pool has one top. */
  lemma {:induction false} TopIsUnique(a: seq<Event>, b: seq<Event>, pool: set<Event>, limit: nat)
    requires IsTop(a, pool, limit) && IsTop(b, pool, limit)
    ensures a == b
    decreases |a|
  {
    assert a != [] ==> a[0] in pool;
    assert b != [] ==> b[0] in pool;
    if a != [] && b != [] {
      HeadIsBest(a, pool, limit, b[0]);
      HeadIsBest(b, pool, limit, a[0]);
      if a[0] != b[0] {
        BeforeAsymmetric(true, a[0], b[0]);
      }
      TailIsTop(a, pool, limit);
      TailIsTop(b, pool, limit);
      TopIsUnique(a[1..], b[1..], pool - {a[0]}, limit - 1);
      assert a == [a[0]] + a[1..] && b == [b[0]] + b[1..];
    }
  }

  lemma HeadIsBest(out: seq<Event>, pool: set<Event>, limit: nat, w: Event)
    requires IsTop(out, pool, limit) && out != [] && w in pool
    ensures out[0] == w || Better(out[0], w)
  {
  }

  lemma TailIsTop(out: seq<Event>, pool: set<Event>, limit: nat)
    requires IsTop(out, pool, limit) && out != []
    ensures limit > 0 && IsTop(out[1..], pool - {out[0]}, limit - 1)
  {
    BeforeIrreflexive(true, out[0]);
    forall e | e in out[1..]
      ensures e in out && e != out[0]
    {
      var i :| 0 <= i < |out[1..]| && out[1..][i] == e;
      assert out[i + 1] == e;
      BeforeIrreflexive(true, e);
    }
    forall w | w in pool - {out[0]}
      ensures w in out ==> w in out[1..]
    {
      if w in out {
        var i :| 0 <= i < |out| && out[i] == w;
        assert out[1..][i - 1] == w;
      }
    }
  }

  /** A non-empty finite set of versions has a best one. */
  lemma {:induction false} BestExists(rows: set<Event>) returns (best: Event)
    requires rows != {} && IdsDetermine(rows)
    ensures best in rows && forall x :: x in rows ==> x == best || Better(best, x)
    decreases |rows|
  {
    var e :| e in rows;
    if rows == {e} {
      best := e;
    } else {
      var rest := rows - {e};
      assert rest != {};
      var b := BestExists(rest);
      BeforeTotal(true, e, b);
      if Better(e, b) {
        forall x | x in rows && x != e
          ensures Better(e, x)
        {
          assert x in rest;
          if x != b {
            BeforeTransitive(true, e, b, x);
          }
        }
        best := e;
      } else {
        best := b;
      }
    }
  }

  /** Rows that share no group are collapsed independently. */
  lemma WinnersOfUnion(a: set<Event>, b: set<Event>)
    requires forall x, y :: x in a && y in b ==> Group(x) != Group(y)
    ensures Winners(a + b) == Winners(a) + Winners(b)
  {
  }

  /** A row behind another row of its group changes no winner. */
  lemma WinnersIgnoreWorse(rows: set<Event>, y: Event, last: Event)
    requires y in rows && Group(y) == Group(last)
    requires forall x :: x in rows ==> x == last || Better(x, last)
    ensures Winners(rows + {last}) == Winners(rows)
  {
    if y != last {
      BeforeAsymmetric(true, y, last);
      assert !IsWinner(rows + {last}, last) || last in rows;
    }
    forall e | e in rows
      ensures IsWinner(rows + {last}, e) <==> IsWinner(rows, e)
    {
    }
  }

  /** The elements of `fetched` that come before `w`. */
  function Ahead(fetched: set<Event>, w: Event): set<Event> {
    set c | c in fetched && Better(c, w)
  }

  /** Sorting and trimming a partial fetch of the pool gives the pool's top
      exactly when every row left behind has `limit` fetched rows ahead of it.
      Both the tier merge and the feed path are instances. */
  lemma TopOfPartialFetch(sorted: seq<Event>, pool: set<Event>, limit: nat)
    requires StrictlySorted(sorted) && Elems(sorted) <= pool && IdsDetermine(pool)
    ensures IsTop(Trim(sorted, limit), pool, limit)
       <==> forall w :: w in pool && w !in sorted ==> |Ahead(Elems(sorted), w)| >= limit
  {
    var out := Trim(sorted, limit);
    assert out <= sorted;
    if IsTop(out, pool, limit) {
      forall w | w in pool && w !in sorted
        ensures |Ahead(Elems(sorted), w)| >= limit
      {
        StrictlySortedSize(out);
        assert w !in out;
        assert Elems(out) <= Ahead(Elems(sorted), w);
        SubsetSize(Elems(out), Ahead(Elems(sorted), w));
      }
    }
    if forall w :: w in pool && w !in sorted ==> |Ahead(Elems(sorted), w)| >= limit {
      forall w | w in pool && w !in out
        ensures |out| == limit && forall e :: e in out ==> Better(e, w)
      {
        if w in sorted {
          var j :| 0 <= j < |sorted| && sorted[j] == w;
          assert j >= |out|;
          assert |out| == limit;
        } else {
          FirstAreAhead(sorted, limit, w);
        }
      }
    }
  }

  lemma FirstAreAhead(sorted: seq<Event>, limit: nat, w: Event)
    requires StrictlySorted(sorted) && |Ahead(Elems(sorted), w)| >= limit
    ensures |sorted| >= limit && forall i :: 0 <= i < limit ==> Better(sorted[i], w)
  {
    SubsetSize(Ahead(Elems(sorted), w), Elems(sorted));
    StrictlySortedSize(sorted);
    forall i | 0 <= i < limit
      ensures Better(sorted[i], w)
    {
      if !Better(sorted[i], w) {
        forall c | c in Ahead(Elems(sorted), w)
          ensures c in sorted[..i]
        {
          var j :| 0 <= j < |sorted| && sorted[j] == c;
          if j > i {
            BeforeTransitive(true, sorted[i], sorted[j], w);
          }
          assert sorted[..i][j] == c;
        }
        StrictlySortedSize(sorted[..i]);
        SubsetSize(Ahead(Elems(sorted), w), Elems(sorted[..i]));
      }
    }
  }

  function Trim<T>(s: seq<T>, limit: nat): seq<T> {
    if |s| > limit then s[..limit] else s
  }

  lemma {:induction false} StrictlySortedSize(s: seq<Event>)
    requires StrictlySorted(s)
    ensures |Elems(s)| == |s|
    decreases |s|
  {
    if s != [] {
      var n := |s| - 1;
      StrictlySortedSize(s[..n]);
      BeforeIrreflexive(true, s[n]);
      assert s[n] !in s[..n];
      assert Elems(s) == Elems(s[..n]) + {s[n]};
    }
  }
}
