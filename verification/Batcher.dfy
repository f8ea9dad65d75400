/** The tier batcher of `internal/store/batcher.go`: producers, `FlushAll` callers
    and `shutdown` on one side of two channels, a single worker on the other.

    Each case of the worker's select is a method. Wherever the worker could be
    overtaken by other goroutines, it lets the environment run first: `env`
    supplies an arbitrary list of client operations for every such point. A send
    to ClickHouse may succeed, fail, or store the rows and then report failure. */
module Batcher {
  import opened Events
  import opened DeliveryLog

  datatype WorkerState = Normal | Retry | Stopped

  datatype SendOutcome = Sent | Failed | FailedAfterStore

  /** What a reply channel (capacity one) holds. */
  datatype Answer = Flushed | SendError

  datatype ClientOp = EnqueueOp(evt: Event) | FlushOp | StopOp

  /** How `FlushAll` returns. */
  datatype FlushResult = FlushOk | FlushError | BatcherStopped | TimedOut

  /** What a waiting `FlushAll` finds ready: its reply, the stop channel or its timer. */
  datatype Look = AtReply | AtStop | AtTimer

  /** The select cases of the worker. */
  datatype Wake = OnInput | OnTick | OnFlush | OnTimer | OnStop

  type Interference = nat -> seq<ClientOp>

  /** Everything the worker does not decide in one turn of its loop. */
  datatype Play = Play(clients: seq<ClientOp>, outcomes: nat -> SendOutcome, env: nat -> Interference)

  ghost predicate Silent(env: Interference) {
    forall i :: env(i) == []
  }

  const FLUSH_REQ_CAP: nat := 16

  function Capacity(maxSize: nat): (c: nat)
    ensures c >= 1024 && c >= 2 * maxSize && (c == 1024 || c == 2 * maxSize)
  {
    if maxSize * 2 < 1024 then 1024 else maxSize * 2
  }

  /** Seconds to wait after a failure preceded by `fails` consecutive ones: doubling, capped at 30. */
  function Backoff(fails: nat): nat {
    if fails == 0 then 1 else if fails == 1 then 2 else if fails == 2 then 4
    else if fails == 3 then 8 else if fails == 4 then 16 else 30
  }

  /** A second after the first failure, then twice as long each time, at most 30. */
  lemma BackoffDoubles(fails: nat)
    ensures Backoff(0) == 1 && Backoff(fails + 1) == Min(30, 2 * Backoff(fails))
  {
  }

  function Chunk(s: seq<Event>, maxSize: nat): seq<Event> {
    s[..Min(|s|, maxSize)]
  }

  /** One INSERT: its rows and how it ended. */
  datatype Insert = Insert(chunk: seq<Event>, outcome: SendOutcome)

  /** The rows the callback was told about. */
  function Delivered(inserts: seq<Insert>): seq<Event> {
    if inserts == [] then []
    else
      var last := inserts[|inserts| - 1];
      Delivered(inserts[..|inserts| - 1]) + if last.outcome.Sent? then last.chunk else []
  }

  /** The rows in the table. */
  function Table(inserts: seq<Insert>): seq<Event> {
    if inserts == [] then []
    else
      var last := inserts[|inserts| - 1];
      Table(inserts[..|inserts| - 1]) + if last.outcome.Failed? then [] else last.chunk
  }

  /** Delivery to the table is at least once, and exactly once in order when no
      insert reports failure after storing its rows. */
  lemma {:induction false} AtLeastOnce(inserts: seq<Insert>)
    ensures multiset(Delivered(inserts)) <= multiset(Table(inserts))
    ensures (forall i :: 0 <= i < |inserts| ==> !inserts[i].outcome.FailedAfterStore?) ==>
      Table(inserts) == Delivered(inserts)
    decreases |inserts|
  {
    if inserts != [] {
      AtLeastOnce(inserts[..|inserts| - 1]);
    }
  }

  /** An insert that fails after storing its rows leaves them twice once its retry succeeds. */
  lemma LateFailureDoublesRows(inserts: seq<Insert>, chunk: seq<Event>)
    ensures var i := inserts + [Insert(chunk, FailedAfterStore)] + [Insert(chunk, Sent)];
      Table(i) == Table(inserts) + chunk + chunk && Delivered(i) == Delivered(inserts) + chunk
  {
    var late := inserts + [Insert(chunk, FailedAfterStore)];
    assert late[..|inserts|] == inserts && (late + [Insert(chunk, Sent)])[..|late|] == late;
  }

  /** The reply channels `s` are those made as number `first`, `first` + 1, … */
  ghost predicate Consecutive(s: seq<nat>, first: nat) {
    forall i :: 0 <= i < |s| ==> s[i] == first + i
  }

  lemma DeliveredSnoc(inserts: seq<Insert>, last: Insert)
    ensures Delivered(inserts + [last]) == Delivered(inserts) + if last.outcome.Sent? then last.chunk else []
  {
  }

  /** `part` is the stretch of `whole` that starts at `at`. */
  ghost predicate IsStretch(part: seq<Event>, whole: seq<Event>, at: nat) {
    && at + |part| <= |whole|
    && forall i {:trigger part[i]} :: 0 <= i < |part| ==> part[i] == whole[at + i]
  }

  /** Conservation: every accepted event is delivered, pending, buffered or
      queued, once and in order. */
  ghost predicate Conserved(accepted: seq<Event>, delivered: seq<Event>, pending: seq<Event>, buf: seq<Event>,
                            inq: seq<Event>)
  {
    && |accepted| == |delivered| + |pending| + |buf| + |inq|
    && IsStretch(delivered, accepted, 0)
    && IsStretch(pending, accepted, |delivered|)
    && IsStretch(buf, accepted, |delivered| + |pending|)
    && IsStretch(inq, accepted, |delivered| + |pending| + |buf|)
  }

  lemma ConservedIsConcatenation(accepted: seq<Event>, delivered: seq<Event>, pending: seq<Event>, buf: seq<Event>,
                                 inq: seq<Event>)
    ensures Conserved(accepted, delivered, pending, buf, inq) <==> accepted == delivered + pending + buf + inq
  {
  }

  /** Reply channels are numbered as they are handed in. Every one is in the
      request channel, held by the worker or answered, once and in order:
      `answers[r]` is what was sent on channel r. */
  ghost predicate Tracked(handedIn: nat, answered: nat, replies: seq<nat>, flushReq: seq<nat>) {
    && handedIn == answered + |replies| + |flushReq|
    && Consecutive(replies, answered)
    && Consecutive(flushReq, answered + |replies|)
  }

  /** A reply's ticket (how much had been accepted when it was handed in) is
      covered by what the worker still owes it; an answer of success has paid it. */
  ghost predicate Covered(tickets: seq<nat>, answers: seq<Answer>, held: nat, accepted: nat, delivered: nat, owed: nat) {
    && |answers| + held <= |tickets|
    && (forall r :: 0 <= r < |tickets| ==> tickets[r] <= accepted)
    && (forall r :: |answers| <= r < |answers| + held ==> tickets[r] <= owed)
    && (forall r :: 0 <= r < |answers| && answers[r].Flushed? ==> tickets[r] <= delivered)
  }

  /** Chunks are bounded; the callback has seen every delivered event, once and in order. */
  ghost predicate AnnouncedOnce(inserts: seq<Insert>, delivered: seq<Event>, maxSize: nat) {
    && delivered == Delivered(inserts)
    && (forall i :: 0 <= i < |inserts| ==> 1 <= |inserts[i].chunk| <= maxSize)
  }

  /** The number of inserts that `n` events take. */
  function Chunks(n: nat, maxSize: nat): nat
    requires maxSize >= 1
  {
    if n == 0 then 0 else 1 + Chunks(n - Min(n, maxSize), maxSize)
  }

  lemma {:induction false} ChunksRoundUp(n: nat, maxSize: nat)
    requires maxSize >= 1
    ensures n <= Chunks(n, maxSize) * maxSize < n + maxSize
  {
    if n > 0 {
      ChunksRoundUp(n - Min(n, maxSize), maxSize);
    }
  }

  lemma {:induction false} ChunksGrow(n: nat, more: nat, maxSize: nat)
    requires maxSize >= 1 && n <= more
    ensures Chunks(n, maxSize) <= Chunks(more, maxSize)
  {
    if n > 0 {
      ChunksGrow(n - Min(n, maxSize), more - Min(more, maxSize), maxSize);
    }
  }

  /** A snapshot needs one insert less after its first. */
  lemma {:induction false} FirstInsert(pending: nat, rest: nat, pending': nat, queued': nat, maxSize: nat)
    requires maxSize >= 1
    requires var ready := if pending == 0 then rest else pending;
      && pending' + queued' == pending + rest - Min(ready, maxSize)
      && pending' == if ready > maxSize then ready - maxSize else pending + rest - ready
    ensures Chunks(pending', maxSize) + Chunks(queued', maxSize)
         == Max(0, Chunks(pending, maxSize) + Chunks(rest, maxSize) - 1)
  {
  }

  /** How many inserts a flush request adds to a snapshot under way, when it finds
      `now` events queued of which `queued` belong to the snapshot. */
  function Added(pending: nat, queued: nat, now: nat, maxSize: nat): (n: nat)
    requires maxSize >= 1
    ensures pending != 0 && queued <= now ==> n == Chunks(now, maxSize) - Chunks(queued, maxSize)
  {
    ChunksGrow(queued, Max(queued, now), maxSize);
    if pending == 0 || now < queued then 0 else Chunks(now, maxSize) - Chunks(queued, maxSize)
  }

  /** The inserts until `owed` events are out, the first `pending` of them staged. */
  function Left(pending: nat, owed: nat, maxSize: nat): nat
    requires maxSize >= 1
  {
    if owed <= pending then Chunks(owed, maxSize) else Chunks(pending, maxSize) + Chunks(owed - pending, maxSize)
  }

  /** How far the worker has got with a snapshot. */
  datatype Progress = Progress(state: WorkerState, pending: nat, queued: nat, waiting: nat, answers: seq<Answer>,
                               delivered: nat) {
    function Goal(): nat {
      delivered + pending + queued
    }

    function Inserts(maxSize: nat): nat
      requires maxSize >= 1
    {
      Chunks(pending, maxSize) + Chunks(queued, maxSize)
    }
  }

  /** After `wakes` successful inserts, of which flush requests have added `added`
      to what the snapshot needed at `start`: its events go out on schedule, and
      the replies held at the start are answered once the added inserts are done
      too. A `quiet` stretch is one without further requests. */
  ghost predicate Completing(start: Progress, p: Progress, maxSize: nat, wakes: nat, added: int, quiet: bool)
    requires maxSize >= 1
  {
    && added >= 0
    && wakes + p.Inserts(maxSize) == start.Inserts(maxSize) + added
    && (p.delivered >= start.Goal()
        || (start.Goal() <= p.Goal()
            && wakes + Left(p.pending, start.Goal() - p.delivered, maxSize) <= start.Inserts(maxSize)))
    && (quiet ==> added == 0 && p.Goal() == start.Goal())
    && if p.state == Retry then
         p.answers == start.answers && p.waiting >= start.waiting && (quiet ==> p.waiting == start.waiting)
       else
         p.pending + p.queued == 0 && ServedAll(start, p, quiet)
  }

  /** The replies held at the start, and those taken since, have succeeded. */
  ghost predicate ServedAll(start: Progress, p: Progress, quiet: bool) {
    && |p.answers| >= |start.answers| + start.waiting
    && Answered(start.answers, |p.answers| - |start.answers|, Flushed, p.answers)
    && (quiet ==> |p.answers| == |start.answers| + start.waiting)
  }

  /** One more successful insert, by the timer or a request that finds `queued` events. */
  lemma {:induction false} Completes(start: Progress, p: Progress, queued: nat, waiting: nat, p': Progress, maxSize: nat, wakes: nat,
                  added: int, quiet: bool)
    requires maxSize >= 1 && Completing(start, p, maxSize, wakes, added, quiet) && p.state == Retry && p.pending > 0
    requires p.queued <= queued && p.waiting <= waiting && (quiet ==> queued == p.queued && waiting == p.waiting)
    requires p'.delivered == p.delivered + Min(p.pending, maxSize)
    requires p'.pending + p'.queued == p.pending + queued - Min(p.pending, maxSize)
    requires p'.pending == if p.pending > maxSize then p.pending - maxSize else queued
    requires p'.state == (if p'.pending > 0 then Retry else Normal) && (p'.pending == 0 ==> p'.queued == 0)
    requires if p'.state == Retry then p'.answers == p.answers && p'.waiting == waiting
             else Answered(p.answers, waiting, Flushed, p'.answers)
    ensures Completing(start, p', maxSize, wakes + 1, added + Chunks(queued, maxSize) - Chunks(p.queued, maxSize), quiet)
  {
    ChunksGrow(p.queued, queued, maxSize);
  }

  /** `n` more reply channels have been sent `answer`. */
  ghost predicate Answered(before: seq<Answer>, n: nat, answer: Answer, after: seq<Answer>) {
    && |after| == |before| + n
    && before <= after
    && forall r :: |before| <= r < |after| ==> after[r] == answer
  }

  class TierBatcher {
    const maxSize: nat

    // shared with clients
    var inq: seq<Event>
    var flushReq: seq<nat>
    var stopClosed: bool

    // owned by the worker
    var state: WorkerState
    var buf: seq<Event>
    var pending: seq<Event>
    var replies: seq<nat>
    var queued: nat
    var fails: nat
    var retryIn: Option<nat>

    // what the worker has done to the outside
    var answers: seq<Answer>
    var inserts: seq<Insert>
    var delivered: seq<Event>  // what `onFlushed` was called with
    var lost: Option<nat>

    // history
    ghost var accepted: seq<Event>
    ghost var tickets: seq<nat>
    ghost var extended: nat  // inserts that flush requests added to a snapshot under way

    /** Holds at every instant, also in the middle of a worker step. */
    ghost predicate Steady()
      reads `accepted, `delivered, `pending, `buf, `inq, `flushReq, `replies, `answers, `tickets, `queued
    {
      && maxSize >= 1
      && |inq| <= Capacity(maxSize) && |flushReq| <= FLUSH_REQ_CAP
      && |buf| <= maxSize && |pending| <= maxSize + Capacity(maxSize)
      && Conserved(accepted, delivered, pending, buf, inq)
      && Tracked(|tickets|, |answers|, replies, flushReq)
      && Covered(tickets, answers, |replies|, |accepted|, |delivered|, |delivered| + |pending| + |buf| + queued)
    }

    ghost predicate Announced()
      reads `inserts, `delivered
    {
      AnnouncedOnce(inserts, delivered, maxSize)
    }

    /** The worker's own state fits together. */
    ghost predicate AtSelect()
      reads this
    {
      && Steady()
      && (state != Stopped ==> queued <= |inq| && |buf| < maxSize && (state == Retry <==> pending != []))
      && (state == Retry ==> buf == [] && retryIn.Some?)
      && (state == Normal ==> retryIn.None? && replies == [] && queued == 0)
      && (state == Stopped ==> stopClosed && replies == [])
      && (state != Stopped ==> lost.None?)
      && (state == Stopped ==> |accepted| - |delivered| == if lost.Some? then lost.value else 0)
    }

    /** Holds whenever the worker is at its select. */
    ghost predicate Valid()
      reads this
    {
      AtSelect() && Announced()
    }

    ghost function AsLog(): Log
      reads this
    {
      Log(accepted, |delivered|)
    }

    /** No client did anything. */
    twostate predicate Undisturbed()
      reads `accepted, `tickets, `stopClosed
    {
      accepted == old(accepted) && tickets == old(tickets) && stopClosed == old(stopClosed)
    }

    twostate predicate ClientsOnly()
      reads `accepted, `tickets, `stopClosed
    {
      && old(accepted) <= accepted && old(tickets) <= tickets
      && (old(stopClosed) ==> stopClosed && accepted == old(accepted))
    }

    /** What any stretch of execution keeps: the log only extends, answers stand. */
    twostate predicate Onward()
      reads this
    {
      && ClientsOnly()
      && old(delivered) <= delivered && old(answers) <= answers
    }

    constructor (maxSize: nat)
      requires maxSize >= 1
      ensures Valid() && this.maxSize == maxSize && state == Normal && !stopClosed
      ensures accepted == [] && tickets == [] && answers == [] && delivered == []
    {
      this.maxSize := maxSize;
      inq, flushReq, stopClosed := [], [], false;
      state, buf, pending, replies, queued, fails, retryIn := Normal, [], [], [], 0, 0, None;
      answers, inserts, delivered, lost := [], [], [], None;
      accepted, tickets, extended := [], [], 0;
    }

    // ---- clients ----

    /** `enqueue`: load-sheds when full or stopped. The gate makes the stop check
        and the send one step with respect to `shutdown`. */
    method Enqueue(evt: Event) returns (ok: bool)
      requires Steady()
      modifies `inq, `accepted
      ensures Steady()
      ensures ok <==> !stopClosed && |old(inq)| < Capacity(maxSize)
      ensures inq == old(inq) + (if ok then [evt] else [])
      ensures accepted == old(accepted) + (if ok then [evt] else [])
    {
      if stopClosed || |inq| >= Capacity(maxSize) {
        return false;
      }
      inq := inq + [evt];
      accepted := accepted + [evt];
      ok := true;
    }

    /** The first half of `FlushAll`: hand a fresh reply channel to the worker. */
    method RequestFlush() returns (ok: bool, reply: nat)
      requires Steady()
      modifies `flushReq, `tickets
      ensures Steady()
      ensures ok <==> |old(flushReq)| < 16
      ensures ok ==> reply == |old(tickets)| && flushReq == old(flushReq) + [reply]
      ensures ok ==> tickets == old(tickets) + [|accepted|]
      ensures !ok ==> flushReq == old(flushReq) && tickets == old(tickets)
    {
      reply := |answers| + |replies| + |flushReq|;
      ok := |flushReq| < FLUSH_REQ_CAP;
      if ok {
        flushReq := flushReq + [reply];
        tickets := tickets + [|accepted|];
      }
    }

    /** The second half: the reply, the stop channel and the timer race. A success
        means that everything accepted before the request is delivered. */
    method AwaitFlush(reply: nat, look: Look) returns (res: FlushResult)
      requires Steady() && reply < |tickets|
      ensures res == FlushOk ==> tickets[reply] <= |accepted| && accepted[..tickets[reply]] <= delivered
      ensures look == AtReply && reply < |answers| && answers[reply] == Flushed ==> res == FlushOk
      ensures look == AtReply && reply < |answers| && answers[reply] == SendError ==> res == FlushError
      ensures res == BatcherStopped <==> look == AtStop && stopClosed
      ensures look == AtTimer ==> res == TimedOut
    {
      if look == AtReply && reply < |answers| {
        res := if answers[reply].Flushed? then FlushOk else FlushError;
      } else if look == AtStop && stopClosed {
        res := BatcherStopped;
      } else {
        res := TimedOut;
      }
    }

    /** Clients only add to the channels. */
    twostate predicate Arrivals()
      reads this
    {
      && old(inq) <= inq && old(flushReq) <= flushReq
      && accepted == old(accepted) + inq[|old(inq)|..]
      && old(tickets) <= tickets
      && (old(stopClosed) ==> stopClosed && inq == old(inq))
    }

    method Client(op: ClientOp)
      requires Steady()
      modifies `inq, `accepted, `flushReq, `tickets, `stopClosed
      ensures Steady() && Arrivals()
    {
      match op {
        case EnqueueOp(evt) =>
          var _ := Enqueue(evt);
        case FlushOp =>
          var _, _ := RequestFlush();
        case StopOp =>
          stopClosed := true;
      }
    }

    /** What other goroutines do between two steps of the worker. */
    method Environment(ops: seq<ClientOp>)
      requires Steady()
      modifies `inq, `accepted, `flushReq, `tickets, `stopClosed
      ensures Steady() && Arrivals()
      ensures ops == [] ==> Undisturbed()
    {
      for i := 0 to |ops|
        invariant Steady() && Arrivals()
        invariant i == 0 ==> Undisturbed()
      {
        Client(ops[i]);
      }
    }

    // ---- the worker's closures ----

    /** `replyAll`: each channel is still empty, so no send on it can block. */
    method ReplyAll(answer: Answer)
      requires Steady()
      requires answer.Flushed? ==> pending == [] && buf == [] && (queued == 0 || inq == [])
      modifies `answers, `replies
      ensures Steady() && replies == []
      ensures Answered(old(answers), |old(replies)|, answer, answers)
    {
      var i := 0;
      while i < |replies|
        invariant 0 <= i <= |replies| && replies == old(replies)
        invariant Answered(old(answers), i, answer, answers)
      {
        assert replies[i] == |answers|;
        answers := answers + [answer];
        i := i + 1;
      }
      replies := [];
    }

    /** One receive of `stage`. */
    method Receive()
      requires Steady() && inq != [] && buf == [] && |pending| < maxSize + Capacity(maxSize)
      modifies `inq, `pending
      ensures Steady() && pending == old(pending) + [old(inq)[0]] && inq == old(inq)[1..]
    {
      pending := pending + [inq[0]];
      inq := inq[1..];
    }

    method ReceiveNext(env: seq<ClientOp>)
      requires Steady() && inq != [] && buf == [] && |pending| < maxSize + Capacity(maxSize)
      modifies `inq, `accepted, `flushReq, `tickets, `stopClosed, `pending
      ensures Steady() && ClientsOnly() && |pending| == |old(pending)| + 1 && |inq| >= |old(inq)| - 1
      ensures env == [] ==> Undisturbed()
    {
      Environment(env);
      Receive();
    }

    /** `stage`: the channel holds at least `n` events, so no receive can block.
        Which events are staged follows from conservation: the oldest undelivered. */
    method Stage(n: nat, env: Interference)
      requires Steady() && pending == [] && n <= |inq|
      modifies `inq, `accepted, `flushReq, `tickets, `stopClosed, `pending, `buf, `state
      ensures Steady() && ClientsOnly()
      ensures buf == [] && |pending| == |old(buf)| + n
      ensures state == if pending != [] then Retry else old(state)
      ensures Silent(env) ==> Undisturbed()
    {
      TakeBuffer();
      for i := 0 to n
        invariant Steady() && ClientsOnly() && state == old(state)
        invariant Silent(env) ==> Undisturbed()
        invariant buf == [] && |pending| == |old(buf)| + i && n - i <= |inq|
      {
        ReceiveNext(env(i));
      }
      if |pending| > 0 {
        state := Retry;
      }
    }

    method TakeBuffer()
      requires Steady() && pending == []
      modifies `pending, `buf
      ensures Steady() && buf == [] && pending == old(buf)
    {
      pending := buf;
      buf := [];
    }

    /** `sendOne`: one chunk to ClickHouse, then the callback. */
    method SendOne(outcome: SendOutcome, env: seq<ClientOp>) returns (ok: bool)
      requires Steady() && Announced() && pending != []
      modifies `inq, `accepted, `flushReq, `tickets, `stopClosed, `pending, `delivered, `inserts
      ensures Steady() && Announced() && ClientsOnly() && old(inq) <= inq
      ensures ok <==> outcome.Sent?
      ensures old(delivered) <= delivered
      ensures |delivered| == |old(delivered)| + if ok then Min(|old(pending)|, maxSize) else 0
      ensures |pending| == |old(pending)| - if ok then Min(|old(pending)|, maxSize) else 0
      ensures inserts == old(inserts) + [Insert(Chunk(old(pending), maxSize), outcome)]
      ensures env == [] ==> Undisturbed()
    {
      Environment(env);
      ok := outcome.Sent?;
      if ok {
        Land();
      } else {
        Reject(outcome);
      }
    }

    method Reject(outcome: SendOutcome)
      requires Steady() && Announced() && pending != [] && !outcome.Sent?
      modifies `inserts
      ensures Steady() && Announced() && inserts == old(inserts) + [Insert(Chunk(pending, maxSize), outcome)]
    {
      var insert := Insert(Chunk(pending, maxSize), outcome);
      DeliveredSnoc(inserts, insert);
      inserts := inserts + [insert];
    }

    method Land()
      requires Steady() && Announced() && pending != []
      modifies `pending, `delivered, `inserts
      ensures Steady() && Announced() && inserts == old(inserts) + [Insert(Chunk(old(pending), maxSize), Sent)]
      ensures delivered == old(delivered) + Chunk(old(pending), maxSize)
      ensures pending == old(pending)[Min(|old(pending)|, maxSize)..]
    {
      var n := Min(|pending|, maxSize);
      var chunk := pending[..n];
      DeliveredSnoc(inserts, Insert(chunk, Sent));
      inserts := inserts + [Insert(chunk, Sent)];
      delivered := delivered + chunk;
      pending := pending[n..];
      assert |delivered| + |pending| == old(|delivered| + |pending|);
    }

    /** `stage(n)` where a waiting flush has been promised at most `n` queued events. */
    method StageQueued(n: nat, env: Interference)
      requires Steady() && pending == [] && queued <= n <= |inq|
      modifies `inq, `accepted, `flushReq, `tickets, `stopClosed, `pending, `buf, `state, `queued
      ensures Steady() && ClientsOnly()
      ensures buf == [] && |pending| == |old(buf)| + n && queued == 0
      ensures state == if pending != [] then Retry else old(state)
      ensures Silent(env) ==> Undisturbed()
    {
      Stage(n, env);
      queued := 0;
    }

    /** The failure branch of `attempt`: waiting flushes are told, the timer backs off. */
    method BackOff()
      requires Steady() && buf == [] && pending != [] && state == Retry && lost.None?
      modifies `queued, `fails, `retryIn, `replies, `answers
      ensures AtSelect() && retryIn == Some(Backoff(old(fails))) && fails == old(fails) + 1
      ensures Answered(old(answers), |old(replies)|, SendError, answers)
    {
      ReplyAll(SendError);
      queued := 0;
      retryIn := Some(Backoff(fails));
      fails := fails + 1;
    }

    /** The rest of `attempt`: more of the snapshot to send, or all of it is done. */
    method Continue(env: Interference)
      requires Steady() && buf == [] && queued <= |inq| && lost.None? && state != Stopped
      requires pending != [] ==> state == Retry
      modifies `inq, `accepted, `flushReq, `tickets, `stopClosed, `pending, `buf, `state, `queued
      modifies `retryIn, `replies, `answers
      ensures AtSelect() && ClientsOnly() && state != Stopped && buf == []
      ensures |pending| + queued == old(|pending| + queued)
      ensures |pending| == if old(pending) == [] then old(queued) else |old(pending)|
      ensures if state == Retry then retryIn == Some(0) && answers == old(answers) && replies == old(replies)
              else Answered(old(answers), |old(replies)|, Flushed, answers)
      ensures Silent(env) ==> Undisturbed()
    {
      if |pending| == 0 && queued > 0 {
        StageQueued(queued, env);
      }
      if |pending| > 0 {
        retryIn := Some(0);
      } else {
        Settle();
      }
    }

    /** The snapshot is done: back to normal, waiting flushes succeed. */
    method Settle()
      requires Steady() && buf == [] && pending == [] && queued == 0 && lost.None?
      modifies `state, `retryIn, `replies, `answers
      ensures AtSelect() && state == Normal && Answered(old(answers), |old(replies)|, Flushed, answers)
    {
      state := Normal;
      retryIn := None;
      ReplyAll(Flushed);
    }

    /** `attempt`: one chunk of `pending`. On failure nothing moves and every
        waiting flush is told. On success exactly that chunk is delivered, and
        what is still owed shrinks by it whatever producers add meanwhile. */
    method Attempt(outcome: SendOutcome, env: Interference)
      requires Steady() && Announced() && buf == [] && queued <= |inq| && lost.None? && state != Stopped
      requires pending != [] ==> state == Retry
      requires pending == [] ==> queued == 0
      modifies `inq, `accepted, `flushReq, `tickets, `stopClosed, `pending, `delivered, `inserts
      modifies `buf, `state, `queued, `fails, `retryIn, `replies, `answers
      ensures Valid() && Onward() && state != Stopped && buf == []
      ensures Attempted(outcome, |old(pending)|, old(|pending| + queued), |old(delivered)|, |old(replies)|,
                        old(answers), old(fails))
      ensures Silent(env) ==> Undisturbed()
    {
      if |pending| == 0 {
        Continue(env);
      } else if outcome.Sent? {
        AttemptSucceeds(env);
      } else {
        AttemptFails(outcome, env);
      }
    }

    method AttemptFails(outcome: SendOutcome, env: Interference)
      requires Steady() && Announced() && buf == [] && lost.None? && state == Retry && pending != [] && !outcome.Sent?
      modifies `inq, `accepted, `flushReq, `tickets, `stopClosed, `pending, `delivered, `inserts
      modifies `queued, `fails, `retryIn, `replies, `answers
      ensures Valid() && Onward() && state == Retry && delivered == old(delivered)
      ensures Attempted(outcome, |old(pending)|, old(|pending| + queued), |old(delivered)|, |old(replies)|,
                        old(answers), old(fails))
      ensures Silent(env) ==> Undisturbed()
    {
      var _ := SendOne(outcome, env(0));
      BackOff();
    }

    method AttemptSucceeds(env: Interference)
      requires Steady() && Announced() && buf == [] && queued <= |inq| && lost.None? && state == Retry && pending != []
      modifies `inq, `accepted, `flushReq, `tickets, `stopClosed, `pending, `delivered, `inserts
      modifies `buf, `state, `queued, `fails, `retryIn, `replies, `answers
      ensures Valid() && Onward() && state != Stopped && buf == []
      ensures Attempted(Sent, |old(pending)|, old(|pending| + queued), |old(delivered)|, |old(replies)|,
                        old(answers), old(fails))
      ensures Silent(env) ==> Undisturbed()
    {
      var _ := SendOne(Sent, env(0));
      Advance((i: nat) => env(i + 1), |old(pending)|, old(|pending| + queued), |old(delivered)|);
    }

    /** The rest of an attempt whose insert of the first of `ready` events succeeded. */
    method Advance(env: Interference, ghost ready: nat, ghost owed: nat, ghost delivered0: nat)
      requires Steady() && Announced() && buf == [] && queued <= |inq| && lost.None? && state == Retry
      requires ready > 0 && |pending| == ready - Min(ready, maxSize) && |pending| + queued == owed - Min(ready, maxSize)
      requires |delivered| == delivered0 + Min(ready, maxSize)
      modifies `inq, `accepted, `flushReq, `tickets, `stopClosed, `pending
      modifies `buf, `state, `queued, `fails, `retryIn, `replies, `answers
      ensures Valid() && ClientsOnly() && old(answers) <= answers && state != Stopped && buf == []
      ensures Attempted(Sent, ready, owed, delivered0, |old(replies)|, old(answers), 0)
      ensures Silent(env) ==> Undisturbed()
    {
      fails := 0;
      Continue(env);
    }

    /** The effect of an attempt with `ready` events pending out of `owed`. The
        events themselves are fixed by conservation: the next accepted ones. */
    ghost predicate Attempted(outcome: SendOutcome, ready: nat, owed: nat, delivered0: nat, waiting: nat,
                              answers0: seq<Answer>, fails0: nat)
      reads this
    {
      if ready > 0 && !outcome.Sent? then
        && |delivered| == delivered0 && |pending| == ready
        && retryIn == Some(Backoff(fails0)) && fails == fails0 + 1
        && Answered(answers0, waiting, SendError, answers)
      else
        && |delivered| == delivered0 + Min(ready, maxSize) && fails == (if ready > 0 then 0 else fails0)
        && |pending| + queued == owed - Min(ready, maxSize)
        && |pending| == (if ready > maxSize then ready - maxSize else owed - ready)
        && (if state == Retry then retryIn == Some(0) && answers == answers0 && |replies| == waiting
            else Answered(answers0, waiting, Flushed, answers))
    }

    // ---- the worker's select ----

    /** An event arrives; a full buffer takes the queue along and is sent. */
    method WakeInput(outcome: SendOutcome, env: Interference)
      requires Valid() && state == Normal && inq != []
      modifies this
      ensures Valid() && Onward() && state != Stopped
      ensures |old(buf)| + 1 < maxSize ==>
        buf == old(buf) + [old(inq)[0]] && inq == old(inq)[1..] && delivered == old(delivered)
      ensures |old(buf)| + 1 == maxSize ==> var backlog := |old(buf)| + |old(inq)|;
        Attempted(outcome, backlog, backlog, |old(delivered)|, 0, old(answers), old(fails))
    {
      Buffer();
      if |buf| >= maxSize {
        StageQueued(|inq|, env);
        Attempt(outcome, (i: nat) => env(i + 1));
      }
    }

    method Buffer()
      requires Steady() && state == Normal && pending == [] && inq != [] && |buf| < maxSize
      modifies `inq, `buf
      ensures Steady() && buf == old(buf) + [old(inq)[0]] && inq == old(inq)[1..]
    {
      buf := buf + [inq[0]];
      inq := inq[1..];
    }

    /** The age ticker: whatever there is becomes the batch. */
    method WakeTick(outcome: SendOutcome, env: Interference)
      requires Valid() && state == Normal
      modifies this
      ensures Valid() && Onward() && state != Stopped
      ensures var backlog := |old(buf)| + |old(inq)|;
        Attempted(outcome, backlog, backlog, |old(delivered)|, 0, old(answers), old(fails))
    {
      StageQueued(|inq|, env);
      Attempt(outcome, (i: nat) => env(i + 1));
    }

    /** A flush request: everything accepted so far is owed to it, and one chunk
        goes out at once even in the middle of a back-off. */
    method WakeFlush(outcome: SendOutcome, env: Interference)
      requires Valid() && state != Stopped && flushReq != []
      modifies this
      ensures Valid() && Onward() && state != Stopped
      ensures var owed := |old(pending)| + |old(buf)| + |old(inq)|;
        Attempted(outcome, if old(pending) == [] then owed else |old(pending)|, owed,
                  |old(delivered)|, |old(replies)| + 1, old(answers), old(fails))
      ensures extended == old(extended) + Added(|old(pending)|, old(queued), |old(inq)|, maxSize)
      ensures Silent(env) ==> Undisturbed()
    {
      Snapshot(env);
      Attempt(outcome, (i: nat) => env(i + 1));
    }

    /** What a flush request covers: with a batch pending, the queue as it is now
        comes after it; otherwise everything is staged. */
    method Snapshot(env: Interference)
      requires Valid() && state != Stopped && flushReq != []
      modifies `inq, `accepted, `flushReq, `tickets, `stopClosed, `pending, `buf, `state, `queued, `replies, `extended
      ensures Steady() && ClientsOnly() && buf == [] && queued <= |inq| && state != Stopped
      ensures pending != [] ==> state == Retry
      ensures pending == [] ==> queued == 0
      ensures |pending| + queued == |old(pending)| + |old(buf)| + |old(inq)|
      ensures |pending| == if old(pending) == [] then |old(buf)| + |old(inq)| else |old(pending)|
      ensures |replies| == |old(replies)| + 1
      ensures extended == old(extended) + Added(|old(pending)|, old(queued), |old(inq)|, maxSize)
      ensures Silent(env) ==> Undisturbed()
    {
      TakeRequest();
      if |pending| == 0 {
        StageQueued(queued, env);
      }
    }

    method TakeRequest()
      requires Valid() && state != Stopped && flushReq != []
      modifies `flushReq, `replies, `queued, `extended
      ensures Steady() && queued == |inq| && replies == old(replies) + [old(flushReq)[0]]
      ensures extended == old(extended) + Added(|pending|, old(queued), |inq|, maxSize)
    {
      extended := extended + Added(|pending|, queued, |inq|, maxSize);
      replies := replies + [flushReq[0]];
      flushReq := flushReq[1..];
      queued := |inq|;
    }

    /** The retry timer. */
    method WakeTimer(outcome: SendOutcome, env: Interference)
      requires Valid() && state != Stopped && retryIn.Some?
      modifies this
      ensures Valid() && Onward() && state != Stopped
      ensures Attempted(outcome, |old(pending)|, |old(pending)| + old(queued),
                        |old(delivered)|, |old(replies)|, old(answers), old(fails))
      ensures extended == old(extended) && (Silent(env) ==> Undisturbed())
    {
      Attempt(outcome, env);
    }

    /** Shutdown: the gate has frozen what is accepted, so the final flush ends,
        with everything delivered or with the exact number of lost events logged. */
    method WakeStop(outcomes: nat -> SendOutcome, env: nat -> Interference)
      requires Valid() && state != Stopped && stopClosed
      modifies this
      ensures Valid() && Onward() && state == Stopped && accepted == old(accepted)
      ensures lost.None? ==> delivered == accepted && Answered(old(answers), |old(replies)|, Flushed, answers)
      ensures lost.Some? ==> lost.value == |accepted| - |delivered| > 0
      ensures lost.Some? ==> Answered(old(answers), |old(replies)|, SendError, answers)
      ensures (forall i :: outcomes(i).Sent?) ==> lost.None?
    {
      var ok := FinalFlush(outcomes, env);
      Finish(ok);
    }

    method Finish(ok: bool)
      requires Steady() && stopClosed && lost.None?
      requires if ok then pending == [] && buf == [] && inq == [] else pending != []
      modifies `state, `lost, `replies, `answers
      ensures AtSelect() && state == Stopped && (lost.None? <==> ok)
      ensures Answered(old(answers), |old(replies)|, if ok then Flushed else SendError, answers)
    {
      state := Stopped;
      if ok {
        ReplyAll(Flushed);
      } else {
        lost := Some(|pending| + |buf| + |inq|);
        ReplyAll(SendError);
      }
    }

    method FinalFlush(outcomes: nat -> SendOutcome, env: nat -> Interference) returns (ok: bool)
      requires Steady() && Announced() && stopClosed
      modifies `flushReq, `tickets, `inq, `accepted, `stopClosed, `pending, `buf, `state
      modifies `delivered, `inserts
      ensures Steady() && Announced() && ClientsOnly() && old(delivered) <= delivered
      ensures if ok then pending == [] && buf == [] && inq == [] else pending != []
      ensures (forall i :: outcomes(i).Sent?) ==> ok
    {
      var i := 0;
      while true
        invariant Steady() && Announced() && ClientsOnly() && old(delivered) <= delivered
        decreases |accepted| - |delivered|
      {
        var more;
        more, ok := FinalRound(outcomes(i), env(i));
        if !more {
          return;
        }
        i := i + 1;
      }
    }

    /** One turn of the final loop: stage when nothing is pending, then send one chunk. */
    method FinalRound(outcome: SendOutcome, env: Interference) returns (more: bool, ok: bool)
      requires Steady() && Announced() && stopClosed
      modifies `flushReq, `tickets, `inq, `accepted, `stopClosed, `pending, `buf, `state
      modifies `delivered, `inserts
      ensures Steady() && Announced() && ClientsOnly() && old(delivered) <= delivered
      ensures more ==> ok && |delivered| > |old(delivered)|
      ensures outcome.Sent? ==> ok
      ensures !more ==> if ok then pending == [] && buf == [] && inq == [] else pending != []
    {
      if |pending| == 0 {
        Stage(|inq|, env);
      }
      if |pending| == 0 {
        return false, true;
      }
      ok := SendOne(outcome, env(0));
      more := ok;
    }

    // ---- whole runs ----

    predicate Ready(wake: Wake)
      reads this
    {
      state != Stopped &&
      match wake
      case OnInput => state == Normal && inq != []
      case OnTick => state == Normal
      case OnFlush => flushReq != []
      case OnTimer => retryIn.Some?
      case OnStop => stopClosed
    }

    /** One turn of the worker's loop; a case that is not ready is not taken. */
    method Step(wake: Wake, play: Play)
      requires Valid()
      modifies this
      ensures Valid() && Onward()
      ensures old(state == Stopped) ==> unchanged(this)
      ensures wake == OnInput ==>
        if !old(state == Normal && inq != []) then unchanged(this)
        else if |old(buf)| + 1 < maxSize
        then buf + inq == old(buf + inq) && |buf| == |old(buf)| + 1 && delivered == old(delivered)
        else var n := |old(buf)| + |old(inq)|;
             Attempted(play.outcomes(0), n, n, |old(delivered)|, 0, old(answers), old(fails))
      ensures wake == OnTick ==>
        if !old(state == Normal) then unchanged(this)
        else var n := |old(buf)| + |old(inq)|;
             Attempted(play.outcomes(0), n, n, |old(delivered)|, 0, old(answers), old(fails))
      ensures wake == OnFlush ==>
        if !old(state != Stopped && flushReq != []) then unchanged(this)
        else var n := |old(pending)| + |old(buf)| + |old(inq)|;
             Attempted(play.outcomes(0), if old(pending) == [] then n else |old(pending)|, n,
                       |old(delivered)|, |old(replies)| + 1, old(answers), old(fails))
      ensures wake == OnTimer ==>
        if !old(state == Retry) then unchanged(this)
        else Attempted(play.outcomes(0), |old(pending)|, old(|pending| + queued), |old(delivered)|, |old(replies)|,
                       old(answers), old(fails))
      ensures wake == OnStop ==>
        if !old(state != Stopped && stopClosed) then unchanged(this)
        else state == Stopped && accepted == old(accepted) && (lost.None? ==> delivered == accepted)
    {
      if Ready(wake) {
        match wake {
          case OnInput => WakeInput(play.outcomes(0), play.env(0));
          case OnTick => WakeTick(play.outcomes(0), play.env(0));
          case OnFlush => WakeFlush(play.outcomes(0), play.env(0));
          case OnTimer => WakeTimer(play.outcomes(0), play.env(0));
          case OnStop => WakeStop(play.outcomes, play.env);
        }
      }
    }

    /** Any schedule of the worker, with any clients and any outcomes. */
    method Run(schedule: seq<(Wake, Play)>)
      requires Valid()
      modifies this
      ensures Valid() && Onward()
      ensures AsLog().Valid() && Extends(old(AsLog()), AsLog())
      ensures schedule == [] ==> unchanged(this)
    {
      for i := 0 to |schedule|
        invariant Valid() && Onward()
        invariant i == 0 ==> unchanged(this)
      {
        Turn(schedule[i].0, schedule[i].1);
      }
    }

    method Turn(wake: Wake, play: Play)
      requires Valid()
      modifies this
      ensures Valid() && Onward()
    {
      Clients(play.clients);
      Step(wake, play);
    }

    method Clients(ops: seq<ClientOp>)
      requires Valid()
      modifies `inq, `accepted, `flushReq, `tickets, `stopClosed
      ensures Valid() && ClientsOnly()
    {
      Environment(ops);
    }

    ghost function Snap(): Progress
      reads this
    {
      Progress(state, |pending|, queued, |replies|, answers, |delivered|)
    }

    /** A turn of a snapshot under way in which the insert succeeds: a flush request
        is taken or the timer fires. */
    method Proceed(flush: bool, play: Play, ghost start: Progress, ghost wakes: nat, ghost added: int, ghost quiet: bool)
      requires Valid() && state == Retry && Completing(start, Snap(), maxSize, wakes, added, quiet)
      requires quiet ==> !flush
      modifies this
      ensures Valid() && Onward() && state != Stopped
      ensures Completing(start, Snap(), maxSize, wakes + 1, added + extended - old(extended), quiet)
    {
      Clients(play.clients);
      if flush && flushReq != [] {
        ProceedByFlush(play.env(0), start, wakes, added, quiet);
      } else {
        ProceedByTimer(play.env(0), start, wakes, added, quiet);
      }
    }

    method ProceedByFlush(env: Interference, ghost start: Progress, ghost wakes: nat, ghost added: int, ghost quiet: bool)
      requires Valid() && state == Retry && Completing(start, Snap(), maxSize, wakes, added, quiet) && flushReq != []
      requires !quiet
      modifies this
      ensures Valid() && Onward() && state != Stopped
      ensures Completing(start, Snap(), maxSize, wakes + 1, added + extended - old(extended), quiet)
    {
      ghost var p, now := Snap(), |inq|;
      WakeFlush(Sent, env);
      Completes(start, p, now, p.waiting + 1, Snap(), maxSize, wakes, added, quiet);
    }

    method ProceedByTimer(env: Interference, ghost start: Progress, ghost wakes: nat, ghost added: int, ghost quiet: bool)
      requires Valid() && state == Retry && Completing(start, Snap(), maxSize, wakes, added, quiet)
      modifies this
      ensures Valid() && Onward() && state != Stopped
      ensures Completing(start, Snap(), maxSize, wakes + 1, added, quiet) && extended == old(extended)
    {
      ghost var p := Snap();
      WakeTimer(Sent, env);
      Completes(start, p, p.queued, p.waiting, Snap(), maxSize, wakes, added, quiet);
    }

    /** What becomes of a snapshot while inserts succeed, whatever clients do and
        whichever of the timer and further flush requests wakes the worker. After
        the number of inserts fixed when it was taken, all of it is delivered. Its
        flushes have succeeded exactly when no request taken meanwhile added an
        insert; otherwise they are still waiting. */
    method FlushCompletes(flush: nat -> bool, plays: nat -> Play) returns (wakes: nat)
      requires Valid() && state == Retry
      modifies this
      ensures Valid() && Onward() && state != Stopped && extended >= old(extended)
      ensures wakes == Chunks(|old(pending)|, maxSize) + Chunks(old(queued), maxSize)
      ensures |delivered| >= |old(delivered)| + old(|pending| + queued)
      ensures forall r :: |old(answers)| <= r < |old(answers)| + |old(replies)| ==> old(tickets)[r] <= |delivered|
      ensures state == Normal <==> extended == old(extended)
      ensures if state == Normal then ServedAll(old(Snap()), Snap(), forall i :: !flush(i))
              else answers == old(answers) && |replies| >= |old(replies)|
      ensures (forall i :: !flush(i)) ==> state == Normal && |delivered| == |old(delivered)| + old(|pending| + queued)
    {
      ghost var start, quiet := Snap(), forall i :: !flush(i);
      wakes := Chunks(|pending|, maxSize) + Chunks(queued, maxSize);
      for i := 0 to wakes
        invariant Valid() && Onward() && state != Stopped
        invariant Completing(start, Snap(), maxSize, i, extended - old(extended), quiet)
      {
        Proceed(flush(i), plays(i), start, i, extended - old(extended), quiet);
      }
    }

    /** From the request on: while inserts succeed, everything accepted when the
        worker takes a flush is delivered after one insert for each of its chunks,
        and the flush has then succeeded exactly when no later request added to it. */
    method FlushServed(env: Interference, flush: nat -> bool, plays: nat -> Play) returns (wakes: nat)
      requires Valid() && state != Stopped && flushReq != []
      modifies this
      ensures Valid() && Onward() && state != Stopped
      ensures wakes == Max(0, Chunks(|old(pending)|, maxSize) + Chunks(|old(buf)| + |old(inq)|, maxSize) - 1)
      ensures |delivered| >= |old(delivered)| + |old(pending)| + |old(buf)| + |old(inq)|
      ensures var n := old(extended) + Added(|old(pending)|, old(queued), |old(inq)|, maxSize);
        extended >= n && (state == Normal <==> extended == n)
      ensures (forall i :: !flush(i)) ==> state == Normal
      ensures if state == Normal
              then |answers| > |old(answers)| + |old(replies)|
                && Answered(old(answers), |answers| - |old(answers)|, Flushed, answers)
              else answers == old(answers) && |replies| > |old(replies)|
    {
      TakeFlush(env);
      wakes := 0;
      if state == Retry {
        wakes := FlushCompletes(flush, plays);
      }
    }

    /** The worker takes a flush request, and its first insert succeeds. */
    method TakeFlush(env: Interference)
      requires Valid() && state != Stopped && flushReq != []
      modifies this
      ensures Valid() && Onward() && state != Stopped
      ensures Chunks(|pending|, maxSize) + Chunks(queued, maxSize)
           == Max(0, Chunks(|old(pending)|, maxSize) + Chunks(|old(buf)| + |old(inq)|, maxSize) - 1)
      ensures |delivered| + |pending| + queued == |old(delivered)| + |old(pending)| + |old(buf)| + |old(inq)|
      ensures extended == old(extended) + Added(|old(pending)|, old(queued), |old(inq)|, maxSize)
      ensures if state == Normal then Answered(old(answers), |old(replies)| + 1, Flushed, answers)
              else answers == old(answers) && |replies| == |old(replies)| + 1
    {
      TakeFirst(env);
      FirstInsert(|old(pending)|, |old(buf)| + |old(inq)|, |pending|, queued, maxSize);
    }

    method TakeFirst(env: Interference)
      requires Valid() && state != Stopped && flushReq != []
      modifies this
      ensures Valid() && Onward() && state != Stopped
      ensures var rest, ready := |old(buf)| + |old(inq)|, if old(pending) == [] then |old(buf)| + |old(inq)| else |old(pending)|;
        && |pending| + queued == |old(pending)| + rest - Min(ready, maxSize)
        && |delivered| == |old(delivered)| + Min(ready, maxSize)
        && |pending| == if ready > maxSize then ready - maxSize else |old(pending)| + rest - ready
      ensures extended == old(extended) + Added(|old(pending)|, old(queued), |old(inq)|, maxSize)
      ensures if state == Normal then Answered(old(answers), |old(replies)| + 1, Flushed, answers)
              else answers == old(answers) && |replies| == |old(replies)| + 1
    {
      WakeFlush(Sent, env);
    }

    /** Both ends together: a flush that no other is in the way of, and whose inserts
        succeed, returns nil with everything accepted before it delivered. */
    method QuietFlush(env: Interference, plays: nat -> Play) returns (res: FlushResult)
      requires Valid() && state != Stopped && flushReq == []
      modifies this
      ensures Valid() && Onward() && res == FlushOk && old(accepted) <= delivered
    {
      var ok, number := RequestFlush();
      var wakes := FlushServed(env, i => false, plays);
      assert tickets[number] == |old(accepted)| && accepted[..tickets[number]] == old(accepted);
      res := AwaitFlush(number, AtReply);
    }

    /** `FlushAll`, whatever the worker and the other clients do meanwhile: if it
        returns nil, every event accepted before the call is delivered, and it does
        return nil when the answer to its request is success. */
    method FlushAll(before: seq<(Wake, Play)>, after: seq<(Wake, Play)>, look: Look)
      returns (res: FlushResult, reply: Option<nat>)
      requires Valid()
      modifies this
      ensures Valid() && Onward()
      ensures res == FlushOk ==> old(accepted) <= delivered
      ensures old(stopClosed) ==> res == BatcherStopped
      ensures reply.Some? && look == AtReply && reply.value < |answers| ==>
        (answers[reply.value] == Flushed ==> res == FlushOk) && (answers[reply.value] == SendError ==> res == FlushError)
      ensures before == [] && !old(stopClosed) && |old(flushReq)| < 16 ==> reply == Some(|old(tickets)|)
    {
      if stopClosed {
        return BatcherStopped, None;
      }
      Run(before);
      res, reply := RequestAndWait(after, look);
    }

    method RequestAndWait(after: seq<(Wake, Play)>, look: Look) returns (res: FlushResult, reply: Option<nat>)
      requires Valid()
      modifies this
      ensures Valid() && Onward()
      ensures res == FlushOk ==> old(accepted) <= delivered
      ensures reply.Some? && look == AtReply && reply.value < |answers| ==>
        (answers[reply.value] == Flushed ==> res == FlushOk) && (answers[reply.value] == SendError ==> res == FlushError)
      ensures reply == if |old(flushReq)| < 16 then Some(|old(tickets)|) else None
    {
      var ok, number := RequestFlush();
      if !ok {
        return if stopClosed then BatcherStopped else TimedOut, None;
      }
      reply := Some(number);
      res := WaitWhile(after, number, look);
    }

    method WaitWhile(after: seq<(Wake, Play)>, number: nat, look: Look) returns (res: FlushResult)
      requires Valid() && number < |tickets|
      modifies this
      ensures Valid() && Onward()
      ensures res == FlushOk ==>
        old(tickets)[number] <= |old(accepted)| && old(accepted)[..old(tickets)[number]] <= delivered
      ensures look == AtReply && number < |answers| ==>
        (answers[number] == Flushed ==> res == FlushOk) && (answers[number] == SendError ==> res == FlushError)
    {
      Run(after);
      assert tickets[number] == old(tickets)[number];
      res := AwaitFlush(number, look);
    }
  }

  /** Hand in an event and then a flush, and let the worker take it and insert a chunk. */
  method EnqueueAndFlush(b: TierBatcher, evt: Event)
    requires b.Valid() && b.maxSize == 1 && b.state != Stopped && !b.stopClosed
    requires b.flushReq == [] && b.buf == [] && |b.inq| < 10
    modifies b
    ensures b.Valid() && b.Onward() && b.state != Stopped && b.stopClosed == old(b.stopClosed)
    ensures b.accepted == old(b.accepted) + [evt] && b.tickets == old(b.tickets) + [|b.accepted|]
    ensures b.flushReq == [] && b.buf == []
    ensures var n := |old(b.pending)| + |old(b.inq)| + 1;
      b.Attempted(Sent, if old(b.pending) == [] then n else |old(b.pending)|, n,
                  |old(b.delivered)|, |old(b.replies)| + 1, old(b.answers), old(b.fails))
  {
    var ok := b.Enqueue(evt);
    var _, _ := b.RequestFlush();
    b.WakeFlush(Sent, i => []);
  }

  /** A flush can be kept open by later ones: with chunks of one event, two events
      and a flush, then a third event and another flush. The first flush's events
      are delivered and it has no answer. */
  method FlushKeptOpen(e1: Event, e2: Event, e3: Event) returns (b: TierBatcher)
    ensures fresh(b) && b.Valid() && b.state == Retry && b.retryIn.Some? && !b.stopClosed
    ensures b.tickets == [2, 3] && |b.delivered| == 2 && b.answers == [] && b.flushReq == []
  {
    b := new TierBatcher(1);
    var ok := b.Enqueue(e1);
    EnqueueAndFlush(b, e2);
    EnqueueAndFlush(b, e3);
  }

  /** And refused although everything it asked for is delivered, when the insert of
      the third event then fails. */
  method FlushRefused(e1: Event, e2: Event, e3: Event) returns (b: TierBatcher)
    ensures fresh(b) && b.Valid() && |b.tickets| == |b.answers| == 2 && b.answers[0] == SendError
    ensures b.tickets[0] <= |b.delivered|
  {
    b := FlushKeptOpen(e1, e2, e3);
    b.WakeTimer(Failed, i => []);
  }
}
