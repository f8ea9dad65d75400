/** What a tier batcher looks like from outside: the events it has accepted, in
    order, and how many of them are durably stored and announced. */
module DeliveryLog {
  import opened Events

  datatype Log = Log(accepted: seq<Event>, delivered: nat) {

    ghost predicate Valid() {
      delivered <= |accepted|
    }

    ghost function Stored(): set<Event>
      requires Valid()
    {
      Elems(accepted[..delivered])
    }

    function Accept(e: Event): Log {
      this.(accepted := accepted + [e])
    }

    function Deliver(n: nat): Log {
      this.(delivered := if delivered + n <= |accepted| then delivered + n else |accepted|)
    }

    /** The process dies: what was only buffered is gone. */
    function Crash(): Log
      requires Valid()
    {
      this.(accepted := accepted[..delivered])
    }
  }

  /** Accepting stores nothing yet, delivering stores the next events, a crash loses
      exactly what is not stored. */
  lemma LogSteps(l: Log, e: Event, n: nat)
    requires l.Valid()
    ensures l.Accept(e).Valid() && l.Accept(e).Stored() == l.Stored()
    ensures l.Deliver(n).Valid() && l.Stored() <= l.Deliver(n).Stored()
    ensures l.Crash().Valid() && l.Crash().Stored() == l.Stored()
    ensures forall x :: x in l.Crash().accepted ==> x in l.accepted
    ensures l.Accept(e).accepted == l.accepted + [e] && Elems(l.Crash().accepted) == l.Stored()
    ensures |l.accepted| <= l.delivered + n ==> l.Deliver(n).Stored() == Elems(l.accepted)
  {
    assert l.Accept(e).accepted[..l.delivered] == l.accepted[..l.delivered];
    var d := l.Deliver(n);
    assert d.accepted[..d.delivered][..l.delivered] == l.accepted[..l.delivered];
    forall x | x in l.Stored()
      ensures x in d.Stored()
    {
      var i :| 0 <= i < l.delivered && l.accepted[..l.delivered][i] == x;
      assert d.accepted[..d.delivered][i] == x;
    }
    assert l.Crash().accepted[..l.delivered] == l.accepted[..l.delivered];
    assert d.delivered == |l.accepted| ==> d.accepted[..d.delivered] == l.accepted;
  }

  /** Nothing accepted is forgotten, reordered or undelivered. */
  ghost predicate Extends(a: Log, b: Log) {
    a.accepted <= b.accepted && a.delivered <= b.delivered
  }
}
