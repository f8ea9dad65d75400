/** Nostr events and the two row orders the store uses. */
module Events {

  datatype Option<+T> = None | Some(value: T)

  /** One event, and equally one row of a tier table (`tags_raw`, `reply_to` and
      the `tag_*` columns are derived from these fields). */
  datatype Event = Event(
    id: string,
    pubkey: string,
    createdAt: int,
    kind: int,
    tags: seq<seq<string>>,
    content: string,
    sig: string)

  /** Go's `<` on strings. */
  predicate LexLess(a: string, b: string)
    decreases |a|
  {
    |b| > 0 && (|a| == 0 || a[0] < b[0] || (a[0] == b[0] && LexLess(a[1..], b[1..])))
  }

  lemma {:induction false} LexIrreflexive(a: string)
    ensures !LexLess(a, a)
    decreases |a|
  {
    if a != [] {
      LexIrreflexive(a[1..]);
    }
  }

  lemma {:induction false} LexTransitive(a: string, b: string, c: string)
    requires LexLess(a, b) && LexLess(b, c)
    ensures LexLess(a, c)
    decreases |a|
  {
    if a != [] && a[0] == b[0] && b[0] == c[0] {
      LexTransitive(a[1..], b[1..], c[1..]);
    }
  }

  lemma {:induction false} LexTotal(a: string, b: string)
    ensures a == b || LexLess(a, b) || LexLess(b, a)
    decreases |a|
  {
    if a != [] && b != [] && a[0] == b[0] {
      LexTotal(a[1..], b[1..]);
      assert a == [a[0]] + a[1..] && b == [b[0]] + b[1..];
    }
  }

  /** `ORDER BY created_at DESC, id ASC` (ascending ids) or, for the reverse read
      of the feed table, `ORDER BY created_at DESC, id DESC`. */
  predicate Before(idAsc: bool, a: Event, b: Event) {
    a.createdAt > b.createdAt
    || (a.createdAt == b.createdAt && if idAsc then LexLess(a.id, b.id) else LexLess(b.id, a.id))
  }

  /** The serving order of the "Kinds" section of NIP-01: newest first, ties to the lowest id. */
  predicate Better(a: Event, b: Event) {
    Before(true, a, b)
  }

  lemma BeforeIrreflexive(idAsc: bool, a: Event)
    ensures !Before(idAsc, a, a)
  {
    LexIrreflexive(a.id);
  }

  lemma BeforeTransitive(idAsc: bool, a: Event, b: Event, c: Event)
    requires Before(idAsc, a, b) && Before(idAsc, b, c)
    ensures Before(idAsc, a, c)
  {
    if a.createdAt == b.createdAt == c.createdAt {
      if idAsc {
        LexTransitive(a.id, b.id, c.id);
      } else {
        LexTransitive(c.id, b.id, a.id);
      }
    }
  }

  lemma BeforeTotal(idAsc: bool, a: Event, b: Event)
    ensures (a.id == b.id && a.createdAt == b.createdAt) || Before(idAsc, a, b) || Before(idAsc, b, a)
  {
    LexTotal(a.id, b.id);
  }

  lemma BeforeAsymmetric(idAsc: bool, a: Event, b: Event)
    requires Before(idAsc, a, b)
    ensures !Before(idAsc, b, a)
  {
    if Before(idAsc, b, a) {
      BeforeTransitive(idAsc, a, b, a);
      BeforeIrreflexive(idAsc, a);
    }
  }

  /** An id is the hash of its event, so it names one event only. */
  ghost predicate IdsDetermine(events: set<Event>) {
    forall a, b :: a in events && b in events && a.id == b.id ==> a == b
  }

  /** The distinct rows of a result. */
  function Elems(s: seq<Event>): set<Event> {
    set e | e in s
  }

  lemma {:induction false} SubsetSize<T>(a: set<T>, b: set<T>)
    requires a <= b
    ensures |a| <= |b|
  {
    if a != {} {
      var x :| x in a;
      SubsetSize(a - {x}, b - {x});
    }
  }

  function Min(a: int, b: int): int {
    if a <= b then a else b
  }

  function Max(a: int, b: int): int {
    if a >= b then a else b
  }
}
