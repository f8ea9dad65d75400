/** The seen-id cache of `internal/crawler/dedup.go`: two generations of decoded
    ids, rotated when the current one is full. */
module Dedup {
  import opened Events

  type Key = seq<int>

  // ---- parseEventID ----

  function HexDigit(c: char): Option<int> {
    if '0' <= c <= '9' then Some(c as int - '0' as int)
    else if 'a' <= c <= 'f' then Some(c as int - 'a' as int + 10)
    else if 'A' <= c <= 'F' then Some(c as int - 'A' as int + 10)
    else None
  }

  /** `hex.Decode`. */
  function HexDecode(s: string): Option<Key> {
    if s == "" then Some([])
    else if |s| == 1 then None
    else
      var hi, lo, rest := HexDigit(s[0]), HexDigit(s[1]), HexDecode(s[2..]);
      if hi.Some? && lo.Some? && rest.Some? then Some([16 * hi.value + lo.value] + rest.value) else None
  }

  function ParseEventId(id: string): Option<Key> {
    if |id| != 64 then None else HexDecode(id)
  }

  predicate IsCanonical(id: string) {
    forall i :: 0 <= i < |id| ==> IsLowerHex(id[i])
  }

  predicate IsLowerHex(c: char) {
    '0' <= c <= '9' || 'a' <= c <= 'f'
  }

  lemma DigitsInjective(a1: char, a2: char, b1: char, b2: char)
    requires IsLowerHex(a1) && IsLowerHex(a2) && IsLowerHex(b1) && IsLowerHex(b2)
    requires 16 * HexDigit(a1).value + HexDigit(a2).value == 16 * HexDigit(b1).value + HexDigit(b2).value
    ensures a1 == b1 && a2 == b2
  {
  }

  lemma {:induction false} HexDecodeInjective(a: string, b: string)
    requires |a| == |b| && IsCanonical(a) && IsCanonical(b)
    requires HexDecode(a).Some? && HexDecode(a) == HexDecode(b)
    ensures a == b
    decreases |a|
  {
    if a != "" {
      var x, y := HexDecode(a).value, HexDecode(b).value;
      var restA, restB := HexDecode(a[2..]).value, HexDecode(b[2..]).value;
      assert x == [16 * HexDigit(a[0]).value + HexDigit(a[1]).value] + restA;
      assert y == [16 * HexDigit(b[0]).value + HexDigit(b[1]).value] + restB;
      assert x[0] == y[0] && x[1..] == restA && y[1..] == restB;
      DigitsInjective(a[0], a[1], b[0], b[1]);
      HexDecodeInjective(a[2..], b[2..]);
      assert a == a[..2] + a[2..] && b == b[..2] + b[2..];
    }
  }

  predicate IsHex(c: char) {
    '0' <= c <= '9' || 'a' <= c <= 'f' || 'A' <= c <= 'F'
  }

  lemma {:induction false} HexDecodes(s: string)
    ensures HexDecode(s).Some? <==> |s| % 2 == 0 && forall i :: 0 <= i < |s| ==> IsHex(s[i])
    ensures HexDecode(s).Some? ==> 2 * |HexDecode(s).value| == |s|
    decreases |s|
  {
    if |s| >= 2 {
      HexDecodes(s[2..]);
      assert forall i :: 2 <= i < |s| ==> s[i] == s[2..][i - 2];
    }
  }

  /** An id is a hash exactly when it is 64 hex digits, 32 bytes. */
  lemma ParseEventIdIff(id: string)
    ensures ParseEventId(id).Some? <==> |id| == 64 && forall i :: 0 <= i < |id| ==> IsHex(id[i])
    ensures ParseEventId(id).Some? ==> |ParseEventId(id).value| == 32
  {
    HexDecodes(id);
  }

  /** Canonical ids (lower-case hex, as event hashes are written) are told apart by the cache. */
  lemma ParseEventIdInjective(a: string, b: string)
    requires IsCanonical(a) && IsCanonical(b)
    requires ParseEventId(a).Some? && ParseEventId(a) == ParseEventId(b)
    ensures a == b
  {
    HexDecodeInjective(a, b);
  }

  // ---- the cache as a value ----

  datatype Cache = Cache(cur: set<Key>, prev: set<Key>) {
    predicate Has(k: Key) {
      k in cur || k in prev
    }

    /** `insertLocked`. */
    function Insert(k: Key, memCap: nat): Cache {
      var c := cur + {k};
      if |c| >= memCap then Cache({}, c) else Cache(c, prev)
    }

    function Remove(k: Key): Cache {
      Cache(cur - {k}, prev - {k})
    }

    function Load(k: Key): Cache {
      Cache(cur + {k}, prev)
    }
  }

  const EMPTY_CACHE: Cache := Cache({}, {})

  function MarkAll(c: Cache, ids: seq<string>, memCap: nat): Cache {
    if ids == [] then c
    else
      var c1 := MarkAll(c, ids[..|ids| - 1], memCap);
      var k := ParseEventId(ids[|ids| - 1]);
      if k.Some? then c1.Insert(k.value, memCap) else c1
  }

  function LoadAll(c: Cache, ids: seq<string>): Cache {
    if ids == [] then c
    else
      var c1 := LoadAll(c, ids[..|ids| - 1]);
      var k := ParseEventId(ids[|ids| - 1]);
      if k.Some? then c1.Load(k.value) else c1
  }

  // ---- what happened to the cache ----

  datatype Op = Ins(key: Key) | Rem(key: Key)

  /** What marking or loading a list of ids does: ids that are no hashes leave no trace. */
  function InsOps(ids: seq<string>): seq<Op> {
    if ids == [] then []
    else
      var k := ParseEventId(ids[|ids| - 1]);
      InsOps(ids[..|ids| - 1]) + if k.Some? then [Ins(k.value)] else []
  }

  lemma NextId(h: seq<Op>, c: Cache, ids: seq<string>, n: nat, memCap: nat)
    requires n < |ids|
    ensures var k := ParseEventId(ids[n]);
      && h + InsOps(ids[..n + 1]) == h + InsOps(ids[..n]) + (if k.Some? then [Ins(k.value)] else [])
      && var m := MarkAll(c, ids[..n], memCap);
         MarkAll(c, ids[..n + 1], memCap) == if k.Some? then m.Insert(k.value, memCap) else m
  {
    assert ids[..n + 1][..n] == ids[..n];
  }

  lemma OneId(id: string)
    ensures InsOps([id]) == if ParseEventId(id).Some? then [Ins(ParseEventId(id).value)] else []
  {
    assert [id][..0] == [];
  }

  lemma NextLoad(c: Cache, ids: seq<string>, n: nat)
    requires n < |ids|
    ensures var k := ParseEventId(ids[n]);
      && InsOps(ids[..n + 1]) == InsOps(ids[..n]) + (if k.Some? then [Ins(k.value)] else [])
      && var l := LoadAll(c, ids[..n]); LoadAll(c, ids[..n + 1]) == if k.Some? then l.Load(k.value) else l
  {
    assert ids[..n + 1][..n] == ids[..n];
  }

  /** Keys inserted and not removed afterwards. */
  function Replay(h: seq<Op>): set<Key> {
    if h == [] then {}
    else match h[|h| - 1]
      case Ins(k) => Replay(h[..|h| - 1]) + {k}
      case Rem(k) => Replay(h[..|h| - 1]) - {k}
  }

  function Inserted(h: seq<Op>): set<Key> {
    if h == [] then {}
    else match h[|h| - 1]
      case Ins(k) => Inserted(h[..|h| - 1]) + {k}
      case Rem(k) => Inserted(h[..|h| - 1])
  }

  function Removed(h: seq<Op>): set<Key> {
    if h == [] then {}
    else match h[|h| - 1]
      case Ins(k) => Removed(h[..|h| - 1])
      case Rem(k) => Removed(h[..|h| - 1]) + {k}
  }

  lemma HistorySnoc(h: seq<Op>, op: Op)
    ensures Replay(h + [op]) == if op.Ins? then Replay(h) + {op.key} else Replay(h) - {op.key}
    ensures Inserted(h + [op]) == if op.Ins? then Inserted(h) + {op.key} else Inserted(h)
    ensures Removed(h + [op]) == if op.Ins? then Removed(h) else Removed(h) + {op.key}
  {
  }

  lemma {:induction false} ReplayInserted(h: seq<Op>)
    ensures Replay(h) <= Inserted(h)
    decreases |h|
  {
    if h != [] {
      ReplayInserted(h[..|h| - 1]);
    }
  }

  /** `k` is inserted at `i` and never touched again. */
  ghost predicate LastInserted(h: seq<Op>, k: Key, i: nat) {
    i < |h| && h[i] == Ins(k) && forall j :: i < j < |h| ==> h[j].key != k
  }

  lemma {:induction false} ReplayHasLast(h: seq<Op>, k: Key, i: nat)
    requires LastInserted(h, k, i)
    ensures k in Replay(h) && k in Inserted(h)
    decreases |h|
  {
    var p := h[..|h| - 1];
    if i < |h| - 1 {
      assert LastInserted(p, k, i);
      ReplayHasLast(p, k, i);
    }
  }

  lemma {:induction false} NotRemoved(h: seq<Op>, k: Key)
    requires forall j :: 0 <= j < |h| ==> h[j].key != k
    ensures k !in Removed(h) && k !in Inserted(h)
    decreases |h|
  {
    if h != [] {
      assert h[|h| - 1].key != k;
      NotRemoved(h[..|h| - 1], k);
    }
  }

  lemma {:induction false} InsertedSplit(a: seq<Op>, b: seq<Op>)
    ensures Inserted(a + b) == Inserted(a) + Inserted(b)
    decreases |b|
  {
    if b == [] {
      assert a + b == a;
    } else {
      var p, last := b[..|b| - 1], b[|b| - 1];
      InsertedSplit(a, p);
      assert a + b == (a + p) + [last];
      HistorySnoc(a + p, last);
    }
  }

  lemma InsertedInWindow(h: seq<Op>, i: nat, p: nat, q: nat)
    requires i <= p <= q <= |h|
    ensures Inserted(h[i..p]) + Inserted(h[p..q]) <= Inserted(h[i..])
  {
    assert h[i..] == (h[i..p] + h[p..q]) + h[q..];
    InsertedSplit(h[i..p] + h[p..q], h[q..]);
    InsertedSplit(h[i..p], h[p..q]);
  }

  // ---- what the two generations hold ----

  /** The history in three stretches: forgotten, previous generation, current one. */
  datatype Stretches = Stretches(gone: seq<Op>, before: seq<Op>, now: seq<Op>) {
    function All(): seq<Op> {
      gone + before + now
    }

    function Push(op: Op): Stretches {
      this.(now := now + [op])
    }

    function Turn(): Stretches {
      Stretches(gone + before, now, [])
    }

    lemma PushAll(op: Op)
      ensures Push(op).All() == All() + [op]
    {
    }

    lemma TurnAll()
      ensures Turn().All() == All()
    {
    }
  }

  /** The generations are what the last two stretches left, and the previous
      stretch, once there is one, inserted at least `memCap` keys. */
  ghost predicate Generations(c: Cache, h: Stretches, memCap: nat) {
    && c.cur == Replay(h.now)
    && c.prev == Replay(h.before) - Removed(h.now)
    && (h.gone != [] || h.before != [] ==> |Inserted(h.before)| >= memCap)
  }

  ghost predicate Sized(c: Cache, memCap: nat) {
    |c.cur| <= memCap && |c.prev| <= memCap + 1 && (|c.cur| == memCap ==> c.prev == {})
  }

  lemma Extend(c: Cache, h: Stretches, memCap: nat, op: Op)
    requires Generations(c, h, memCap)
    ensures Generations(if op.Ins? then c.Load(op.key) else c.Remove(op.key), h.Push(op), memCap)
  {
  }

  lemma InsertStep(c: Cache, h: Stretches, memCap: nat, k: Key)
    requires Generations(c, h, memCap)
    ensures var h1 := h.Push(Ins(k));
      Generations(c.Insert(k, memCap), if |c.cur + {k}| >= memCap then h1.Turn() else h1, memCap)
  {
    Extend(c, h, memCap, Ins(k));
    var now := h.now + [Ins(k)];
    ReplayInserted(now);
    SubsetSize(Replay(now), Inserted(now));
  }

  /** Among the last `memCap` distinct keys inserted and not removed since: still held. */
  lemma RecentIsHeld(c: Cache, h: Stretches, memCap: nat, k: Key, i: nat)
    requires Generations(c, h, memCap)
    requires LastInserted(h.All(), k, i) && |Inserted(h.All()[i..])| <= memCap
    ensures c.Has(k)
  {
    var p := |h.gone|;
    var q := p + |h.before|;
    assert h.All()[p..q] == h.before && h.All()[q..] == h.now;
    if i >= q {
      assert LastInserted(h.now, k, i - q);
      ReplayHasLast(h.now, k, i - q);
    } else if i >= p {
      assert LastInserted(h.before, k, i - p);
      ReplayHasLast(h.before, k, i - p);
      NotRemoved(h.now, k);
    } else {
      TooOld(h.All(), p, q, memCap, k, i);
    }
  }

  lemma TooOld(h: seq<Op>, p: nat, q: nat, memCap: nat, k: Key, i: nat)
    requires i < p <= q <= |h| && |Inserted(h[p..q])| >= memCap && LastInserted(h, k, i)
    ensures |Inserted(h[i..])| > memCap
  {
    NotRemoved(h[p..q], k);
    assert LastInserted(h[i..p], k, 0);
    ReplayHasLast(h[i..p], k, 0);
    InsertedInWindow(h, i, p, q);
    SubsetSize(Inserted(h[p..q]) + {k}, Inserted(h[i..]));
  }

  lemma SizedSteps(c: Cache, k: Key, memCap: nat)
    requires Sized(c, memCap) && memCap >= 1
    ensures Sized(c.Insert(k, memCap), memCap) && Sized(c.Remove(k), memCap)
  {
  }

  class SeenCache {
    const memCap: nat
    var cur: set<Key>
    var prev: set<Key>

    ghost var history: Stretches

    function View(): Cache
      reads `cur, `prev
    {
      Cache(cur, prev)
    }

    ghost predicate Valid()
      reads this
    {
      memCap >= 1 && Generations(View(), history, memCap) && Sized(View(), memCap)
    }

    constructor (memCap: nat)
      requires memCap >= 1
      ensures Valid() && this.memCap == memCap && cur == prev == {} && history.All() == []
    {
      this.memCap := memCap;
      cur, prev := {}, {};
      history := Stretches([], [], []);
    }

    /** At most twice `memCap` ids are held. */
    lemma Bounded()
      requires Valid()
      ensures |cur + prev| <= 2 * memCap
    {
    }

    /** A key is one of the last `memCap` distinct keys inserted, and was not
        unmarked since: then the cache still has it. */
    lemma Window(k: Key, i: nat)
      requires Valid() && LastInserted(history.All(), k, i)
      requires |Inserted(history.All()[i..])| <= memCap
      ensures View().Has(k)
    {
      RecentIsHeld(View(), history, memCap, k, i);
    }

    /** `Warm` on an empty cache; `ids` are at most `memCap` rows of seen_events. */
    method Warm(ids: seq<string>)
      requires Valid() && history.All() == [] && |ids| <= memCap
      modifies this
      ensures Valid() && View() == LoadAll(old(View()), ids)
      ensures history.All() == InsOps(ids)
    {
      for n := 0 to |ids|
        invariant Valid() && history.gone == history.before == [] && prev == {} && |cur| <= n
        invariant View() == LoadAll(old(View()), ids[..n])
        invariant history.All() == InsOps(ids[..n])
      {
        NextLoad(old(View()), ids, n);
        LoadId(ids[n]);
      }
      assert ids[..|ids|] == ids;
    }

    method LoadId(id: string)
      requires Valid() && history.gone == history.before == [] && prev == {} && |cur| < memCap
      modifies this
      ensures Valid() && history.gone == history.before == [] && prev == {} && |cur| <= |old(cur)| + 1
      ensures View() == if ParseEventId(id).Some? then old(View()).Load(ParseEventId(id).value) else old(View())
      ensures history.All() == old(history.All()) + if ParseEventId(id).Some? then [Ins(ParseEventId(id).value)] else []
    {
      var key := ParseEventId(id);
      if key.Some? {
        ghost var c, h := View(), history;
        cur := cur + {key.value};
        history := history.Push(Ins(key.value));
        h.PushAll(Ins(key.value));
        Extend(c, h, memCap, Ins(key.value));
      }
    }

    /** `insertLocked`. */
    method InsertLocked(key: Key)
      requires Valid()
      modifies this
      ensures Valid() && View() == old(View()).Insert(key, memCap)
      ensures history.All() == old(history.All()) + [Ins(key)]
    {
      ghost var c, h := View(), history;
      cur := cur + {key};
      history := history.Push(Ins(key));
      h.PushAll(Ins(key));
      history.TurnAll();
      if |cur| >= memCap {
        prev := cur;
        cur := {};
        history := history.Turn();
      }
      assert View() == c.Insert(key, memCap);
      InsertStep(c, h, memCap, key);
      SizedSteps(c, key, memCap);
    }

    method Seen(id: string) returns (seen: bool)
      requires Valid()
      ensures seen <==> ParseEventId(id).Some? && View().Has(ParseEventId(id).value)
    {
      var key := ParseEventId(id);
      if key.None? {
        return false;
      }
      seen := key.value in cur || key.value in prev;
    }

    /** True when the id was unseen and is now marked; an id that is no hash is
        reported unseen and leaves the cache alone. */
    method CheckAndMark(id: string) returns (unseen: bool)
      requires Valid()
      modifies this
      ensures Valid()
      ensures unseen <==> ParseEventId(id).None? || !old(View()).Has(ParseEventId(id).value)
      ensures View() == if ParseEventId(id).Some? && unseen then old(View()).Insert(ParseEventId(id).value, memCap)
                        else old(View())
      ensures history.All() == old(history.All()) + if unseen then InsOps([id]) else []
    {
      var key := ParseEventId(id);
      OneId(id);
      if key.None? {
        return true;
      }
      if key.value in cur || key.value in prev {
        return false;
      }
      InsertLocked(key.value);
      unseen := true;
    }

    method Mark(id: string)
      requires Valid()
      modifies this
      ensures Valid()
      ensures View() == if ParseEventId(id).Some? then old(View()).Insert(ParseEventId(id).value, memCap) else old(View())
      ensures history.All() == old(history.All()) + if ParseEventId(id).Some? then [Ins(ParseEventId(id).value)] else []
    {
      var key := ParseEventId(id);
      if key.Some? {
        InsertLocked(key.value);
      }
    }

    method MarkMany(ids: seq<string>)
      requires Valid()
      modifies this
      ensures Valid() && View() == MarkAll(old(View()), ids, memCap)
      ensures history.All() == old(history.All()) + InsOps(ids)
    {
      for n := 0 to |ids|
        invariant Valid() && View() == MarkAll(old(View()), ids[..n], memCap)
        invariant history.All() == old(history.All()) + InsOps(ids[..n])
      {
        NextId(old(history.All()), old(View()), ids, n, memCap);
        Mark(ids[n]);
      }
      assert ids[..|ids|] == ids;
    }

    method Unmark(id: string)
      requires Valid()
      modifies this
      ensures Valid()
      ensures View() == if ParseEventId(id).Some? then old(View()).Remove(ParseEventId(id).value) else old(View())
      ensures history.All() == old(history.All()) + if ParseEventId(id).Some? then [Rem(ParseEventId(id).value)] else []
    {
      var key := ParseEventId(id);
      if key.Some? {
        ghost var c, h := View(), history;
        cur := cur - {key.value};
        prev := prev - {key.value};
        history := history.Push(Rem(key.value));
        h.PushAll(Rem(key.value));
        assert View() == c.Remove(key.value);
        Extend(c, h, memCap, Rem(key.value));
        SizedSteps(c, key.value, memCap);
      }
    }
  }
}
