/** The tombstone writer of `internal/store/tombstone.go`: one goroutine, a bounded
    retained buffer shifted in place, and a dictionary that is reloaded at a
    bounded rate and probed to see whether the reload took. */
module Tombstone {
  import opened Events

  const BATCH_MAX: nat := 1000
  const RETAINED_MAX: nat := 3 * BATCH_MAX
  const RELOAD_EVERY: int := 2000  // milliseconds

  datatype Req = Req(id: string, reason: string, deletedBy: string)

  const ZERO_REQ: Req := Req("", "", "")

  function Ids(s: seq<Req>): seq<string> {
    seq(|s|, i requires 0 <= i < |s| => s[i].id)
  }

  /** The array `was` after its entries from `n` on have been copied down, `j` of them. */
  function Moved(was: seq<Req>, n: nat, j: nat): (now: seq<Req>)
    requires n + j <= |was|
    ensures |now| == |was|
  {
    was[n..n + j] + was[j..]
  }

  lemma MoveOne(was: seq<Req>, n: nat, j: nat)
    requires n + j < |was|
    ensures Moved(was, n, j)[j := Moved(was, n, j)[j + n]] == Moved(was, n, j + 1)
  {
  }

  /** A received request and whether it was kept. */
  datatype Receipt = Receipt(req: Req, kept: bool)

  function Kept(h: seq<Receipt>): seq<Req> {
    if h == [] then []
    else Kept(h[..|h| - 1]) + if h[|h| - 1].kept then [h[|h| - 1].req] else []
  }

  function Drops(h: seq<Receipt>): nat {
    if h == [] then 0 else Drops(h[..|h| - 1]) + if h[|h| - 1].kept then 0 else 1
  }

  function Reqs(h: seq<Receipt>): seq<Req> {
    seq(|h|, i requires 0 <= i < |h| => h[i].req)
  }

  lemma HistorySnoc(h: seq<Receipt>, r: Receipt)
    ensures Kept(h + [r]) == Kept(h) + (if r.kept then [r.req] else [])
    ensures Drops(h + [r]) == Drops(h) + if r.kept then 0 else 1
    ensures Reqs(h + [r]) == Reqs(h) + [r.req]
  {
  }

  lemma KeptSnoc(h: seq<Receipt>, sent: seq<Req>, reqs: seq<Req>, i: nat)
    requires i < |reqs| && Kept(h) == sent + reqs[..i]
    ensures Kept(h + [Receipt(reqs[i], true)]) == sent + reqs[..i + 1]
  {
  }

  /** Nothing is unaccounted for. */
  lemma {:induction false} EveryRequestCounted(h: seq<Receipt>)
    ensures |Kept(h)| + Drops(h) == |h|
    decreases |h|
  {
    if h != [] {
      EveryRequestCounted(h[..|h| - 1]);
    }
  }

  // ---- what the probe proves ----

  /** The dictionary is loaded with the first `k` rows of the table: does it hold
      every id that is known to be tombstoned? */
  ghost predicate Complete(known: seq<string>, table: seq<string>, k: nat) {
    k <= |table| && forall id :: id in known ==> id in table[..k]
  }

  /** Every dictionary newer than the first `loaded` rows that has the probe is complete. */
  ghost predicate Detects(known: seq<string>, table: seq<string>, loaded: nat, probe: string) {
    forall k :: loaded <= k <= |table| && probe in table[..k] ==> Complete(known, table, k)
  }

  /** The probe is reliable exactly when every known id is in the table by the
      probe's first row, or already loaded. */
  lemma ProbeIsReliable(known: seq<string>, table: seq<string>, loaded: nat, probe: string, first: nat)
    requires first < |table| && loaded <= |table| && table[first] == probe && probe !in table[..first]
    ensures Detects(known, table, loaded, probe) <==> Complete(known, table, Max(loaded, first + 1))
  {
  }

  lemma PrefixGrows(table: seq<string>, k: nat, m: nat)
    requires k <= m <= |table|
    ensures forall id :: id in table[..k] ==> id in table[..m]
  {
  }

  /** In particular when the probe was new to the table as its last row. */
  lemma NewProbeIsReliable(known: seq<string>, table: seq<string>)
    requires table != [] && table[|table| - 1] !in table[..|table| - 1] && Complete(known, table, |table|)
    ensures Detects(known, table, 0, table[|table| - 1])
  {
  }

  // ---- the writer ----

  /** How one INSERT ends: done, failed, or failed after the rows had landed. */
  datatype InsertOutcome = Done | Failed | FailedAfterStore

  /** How many of `len` retained requests a flush inserts before its first failure. */
  function Sendable(outcome: nat -> InsertOutcome, i: nat, len: nat): nat
    decreases len
  {
    if len == 0 || !outcome(i).Done? then 0
    else Min(len, BATCH_MAX) + Sendable(outcome, i + 1, len - Min(len, BATCH_MAX))
  }

  /** How many of them it then leaves behind as rows of a failed insert. */
  function Strays(outcome: nat -> InsertOutcome, i: nat, len: nat): (r: nat)
    ensures r <= Min(len, BATCH_MAX)
    decreases len
  {
    if len == 0 then 0
    else if outcome(i).Done? then Strays(outcome, i + 1, len - Min(len, BATCH_MAX))
    else if outcome(i).FailedAfterStore? then Min(len, BATCH_MAX) else 0
  }

  lemma {:induction false} NextBatch(outcome: nat -> InsertOutcome, i: nat, len: nat)
    requires len > 0 && outcome(i).Done?
    ensures var n := Min(len, BATCH_MAX);
      && Sendable(outcome, i, len) == n + Sendable(outcome, i + 1, len - n)
      && Strays(outcome, i, len) == Strays(outcome, i + 1, len - n)
  {
  }

  lemma {:induction false} AllSendable(outcome: nat -> InsertOutcome, i: nat, len: nat)
    requires forall k :: outcome(k).Done?
    ensures Sendable(outcome, i, len) == len && Strays(outcome, i, len) == 0
    decreases len
  {
    if len > 0 {
      AllSendable(outcome, i + 1, len - Min(len, BATCH_MAX));
    }
  }

  lemma {:induction false} OneBatch(outcome: nat -> InsertOutcome, len: nat)
    requires 0 < len <= BATCH_MAX && outcome(0).Done?
    ensures Sendable(outcome, 0, len) == len && Strays(outcome, 0, len) == 0
  {
  }

  /** How one reload attempt goes: the statement, the snapshot it loads, the probe, the duration. */
  datatype ReloadPlay = ReloadPlay(execOk: bool, snapshot: nat, scanOk: bool, took: nat)

  /** One turn of the writer's loop at time `now`. */
  datatype Wake = Wake(request: Option<Req>, outcome: nat -> InsertOutcome, reload: ReloadPlay, now: int)

  predicate ReloadDue(last: Option<int>, now: int) {
    last.None? || now - last.value >= RELOAD_EVERY
  }

  /** The dictionary after a reload: a snapshot of the table that is no older than the last one. */
  function Loaded(dictLen: nat, rows: nat, play: ReloadPlay): nat {
    if play.execOk && dictLen <= play.snapshot <= rows then play.snapshot else dictLen
  }

  /** The table `t` with the rows of `inserted` from position `n` on. */
  function RowsAfter(t: seq<string>, n: nat, inserted: seq<Req>): seq<string> {
    if n <= |inserted| then t + Ids(inserted[n..]) else t
  }

  /** What the batches of a flush have done so far. */
  predicate Sending(t0: seq<string>, sent0: seq<Req>, dirty0: bool, t: seq<string>, sent: seq<Req>, dirty: bool) {
    sent0 <= sent && t == RowsAfter(t0, |sent0|, sent) && (dirty <==> dirty0 || sent != sent0)
  }

  /** When nothing is retained any more, everything kept has been inserted. */
  lemma AllOut(h: seq<Receipt>, sent: seq<Req>, retained: seq<Req>, sent': seq<Req>, retained': seq<Req>, t: seq<string>)
    requires Kept(h) == sent + retained && Kept(h) == sent' + retained' && retained' == []
    ensures sent' == sent + retained && RowsAfter(t, |sent|, sent') + Ids(retained') == t + Ids(retained)
  {
    assert sent' == Kept(h) && sent'[|sent|..] == retained;
  }

  lemma NoneOut(h: seq<Receipt>, sent: seq<Req>, retained: seq<Req>, retained': seq<Req>)
    requires Kept(h) == sent + retained && Kept(h) == sent + retained'
    ensures retained == retained'
  {
    assert retained == Kept(h)[|sent|..] == retained';
  }

  lemma SendingSnoc(t0: seq<string>, sent0: seq<Req>, dirty0: bool, t: seq<string>, sent: seq<Req>, dirty: bool, batch: seq<Req>)
    requires Sending(t0, sent0, dirty0, t, sent, dirty) && batch != []
    ensures Sending(t0, sent0, dirty0, t + Ids(batch), sent + batch, true)
  {
  }

  // ---- what one turn does with the buffer, as numbers ----

  function Held(len: nat, request: Option<Req>): nat {
    if request.Some? then Min(len + 1, RETAINED_MAX) else len
  }

  predicate Flushes(len: nat, retrying: bool, request: Option<Req>) {
    request.None? || (Held(len, request) >= BATCH_MAX && !retrying)
  }

  function Sent(len: nat, retrying: bool, request: Option<Req>, outcome: nat -> InsertOutcome): nat {
    if Flushes(len, retrying, request) then Sendable(outcome, 0, Held(len, request)) else 0
  }

  function Receipts(request: Option<Req>, len: nat): seq<Receipt> {
    if request.Some? then [Receipt(request.value, len < RETAINED_MAX)] else []
  }

  lemma ReceiptsSnoc(h: seq<Receipt>, request: Option<Req>, len: nat)
    ensures Reqs(h + Receipts(request, len)) == Reqs(h) + if request.Some? then [request.value] else []
    ensures len < RETAINED_MAX ==> Drops(h + Receipts(request, len)) == Drops(h)
  {
    if request.Some? {
      HistorySnoc(h, Receipt(request.value, len < RETAINED_MAX));
    } else {
      assert h + [] == h;
    }
  }

  lemma KeptGrows(h: seq<Receipt>, request: Option<Req>, len: nat)
    ensures Kept(h) <= Kept(h + Receipts(request, len))
  {
    if request.Some? {
      HistorySnoc(h, Receipt(request.value, len < RETAINED_MAX));
    } else {
      assert h + [] == h;
    }
  }

  function Requests(wakes: seq<Wake>): seq<Req> {
    if wakes == [] then []
    else
      var last := wakes[|wakes| - 1].request;
      Requests(wakes[..|wakes| - 1]) + if last.Some? then [last.value] else []
  }

  function Stranded(len: nat, retrying: bool, request: Option<Req>, outcome: nat -> InsertOutcome): nat {
    if Flushes(len, retrying, request) then Strays(outcome, 0, Held(len, request)) else 0
  }

  // ---- rows in the order of the requests ----

  /** Pairwise distinct ids, none of them tombstoned before. */
  ghost predicate Fresh(prior: seq<string>, ids: seq<string>) {
    (forall i, j :: 0 <= i < j < |ids| ==> ids[i] != ids[j]) && (forall i :: 0 <= i < |ids| ==> ids[i] !in prior)
  }

  /** Every row behind the prior ones is for a kept id whose predecessors all have
      an earlier row. */
  ghost predicate Ordered(prior: seq<string>, kept: seq<string>, table: seq<string>) {
    prior <= table && forall p :: |prior| <= p < |table| ==> InTurn(kept, table, p)
  }

  ghost predicate InTurn(kept: seq<string>, table: seq<string>, p: nat)
    requires p < |table|
  {
    exists j :: 0 <= j < |kept| && table[p] == kept[j] && Landed(kept, j, table, p)
  }

  ghost predicate Landed(kept: seq<string>, n: nat, table: seq<string>, p: nat)
    requires n <= |kept| && p <= |table|
  {
    forall i :: 0 <= i < n ==> kept[i] in table[..p]
  }

  /** Keeping more, and inserting from the first id that is not known to have landed. */
  lemma OrderedGrows(prior: seq<string>, kept: seq<string>, kept': seq<string>, table: seq<string>, n: nat, m: nat)
    requires Ordered(prior, kept, table) && kept <= kept' && n <= m <= |kept'| && n <= |kept|
    requires Landed(kept, n, table, |table|)
    ensures Ordered(prior, kept', table + kept'[n..m])
  {
    var more := table + kept'[n..m];
    forall p | |prior| <= p < |more|
      ensures InTurn(kept', more, p)
    {
      if p < |table| {
        assert InTurn(kept, table, p);
        var j :| 0 <= j < |kept| && table[p] == kept[j] && Landed(kept, j, table, p);
        assert more[..p] == table[..p] && Landed(kept', j, more, p);
      } else {
        var j := n + p - |table|;
        forall i | 0 <= i < j
          ensures kept'[i] in more[..p]
        {
          if i < n {
            assert kept[i] in table[..|table|] && more[..p][..|table|] == table[..|table|];
          } else {
            assert more[..p][|table| + i - n] == kept'[i];
          }
        }
        assert more[p] == kept'[j] && Landed(kept', j, more, p);
      }
    }
  }

  /** Then the last of the first `n` fresh ids has its first row after all the others. */
  lemma FreshProbeIsLast(prior: seq<string>, kept: seq<string>, table: seq<string>, n: nat, first: nat)
    requires Ordered(prior, kept, table) && Fresh(prior, kept) && 0 < n <= |kept|
    requires first < |table| && table[first] == kept[n - 1]
    ensures Complete(prior + kept[..n], table, first + 1)
  {
    assert forall i :: 0 <= i < |prior| ==> table[i] in prior;
    assert InTurn(kept, table, first);
    assert Landed(kept, n - 1, table, first);
    forall id | id in prior + kept[..n]
      ensures id in table[..first + 1]
    {
      if id in prior {
        var i :| 0 <= i < |prior| && prior[i] == id;
        assert table[..first + 1][i] == id;
      } else {
        var i :| 0 <= i < n && kept[i] == id;
        assert i < n - 1 ==> kept[i] in table[..first];
        assert table[..first + 1] == table[..first] + [table[first]];
      }
    }
  }

  lemma {:induction false} KeptIsFresh(prior: seq<string>, h: seq<Receipt>)
    requires Fresh(prior, Ids(Reqs(h)))
    ensures Fresh(prior, Ids(Kept(h))) && forall id :: id in Ids(Kept(h)) ==> id in Ids(Reqs(h))
    decreases |h|
  {
    if h != [] {
      var p, last := h[..|h| - 1], h[|h| - 1];
      var all, rest := Ids(Reqs(h)), Ids(Reqs(p));
      assert all == rest + [last.req.id];
      assert all[|rest|] == last.req.id && forall i :: 0 <= i < |rest| ==> rest[i] == all[i];
      KeptIsFresh(prior, p);
      assert last.req.id !in rest;
      if last.kept {
        assert Ids(Kept(h)) == Ids(Kept(p)) + [last.req.id];
      } else {
        assert Kept(h) == Kept(p);
      }
    }
  }

  /** A flush leaves strays only of what it still retains. */
  lemma {:induction false} StraysAreRetained(outcome: nat -> InsertOutcome, i: nat, len: nat)
    ensures Sendable(outcome, i, len) + Strays(outcome, i, len) <= len
    decreases len
  {
    if len > 0 && outcome(i).Done? {
      StraysAreRetained(outcome, i + 1, len - Min(len, BATCH_MAX));
    }
  }

  /** What one turn does to the order of the rows. */
  lemma TurnKeepsOrder(prior: seq<string>, h: seq<Receipt>, h': seq<Receipt>, sent: seq<Req>, sent': seq<Req>,
                       retained: seq<Req>, retained': seq<Req>, table: seq<string>, k: nat)
    requires Kept(h) == sent + retained && Kept(h') == sent' + retained' && Kept(h) <= Kept(h')
    requires sent <= sent' && k <= |retained'| && Complete(prior + Ids(sent), table, |table|)
    requires Ordered(prior, Ids(Kept(h)), table)
    ensures Ordered(prior, Ids(Kept(h')), RowsAfter(table, |sent|, sent') + Ids(retained'[..k]))
  {
    SentHasLanded(prior, sent, retained, table);
    OrderedGrows(prior, Ids(Kept(h)), Ids(Kept(h')), table, |sent|, |sent'| + k);
    RowsOfSlice(table, |sent|, sent', retained', k);
  }

  lemma SentHasLanded(prior: seq<string>, sent: seq<Req>, retained: seq<Req>, table: seq<string>)
    requires Complete(prior + Ids(sent), table, |table|)
    ensures Landed(Ids(sent + retained), |sent|, table, |table|)
  {
    forall i | 0 <= i < |sent|
      ensures Ids(sent + retained)[i] in table[..|table|]
    {
      assert Ids(sent + retained)[i] == (prior + Ids(sent))[|prior| + i];
    }
  }

  lemma RowsOfSlice(table: seq<string>, n: nat, sent: seq<Req>, retained: seq<Req>, k: nat)
    requires n <= |sent| && k <= |retained|
    ensures RowsAfter(table, n, sent) + Ids(retained[..k]) == table + Ids(sent + retained)[n..|sent| + k]
  {
    assert Ids(sent + retained)[n..|sent| + k] == Ids(sent[n..]) + Ids(retained[..k]);
  }

  class Writer {
    const buf: array<Req>
    const prior: seq<string>  // ids tombstoned by earlier processes
    var len: nat
    var dirty: bool
    var probeId: string
    var retrying: bool
    var dropped: nat
    var lastReload: Option<int>

    // the outside
    var inserted: seq<Req>
    var table: seq<string>  // ids of the tombstone rows, oldest first
    var dictLen: nat        // how many of them the dictionary was loaded with
    var reported: nat
    var lostAtShutdown: nat

    ghost var history: seq<Receipt>
    ghost var reloads: seq<int>

    /** Conservation: what was received is inserted or retained, in order, or
        counted as dropped; every drop is reported once. */
    ghost predicate Conserved()
      reads `len, `history, `inserted, `reported, `dropped, buf
    {
      && buf.Length == RETAINED_MAX && len <= RETAINED_MAX
      && Kept(history) == inserted + buf[..len]
      && Drops(history) == reported + dropped
    }

    /** The ids known to be tombstoned. */
    function Known(): seq<string>
      reads `inserted
    {
      prior + Ids(inserted)
    }

    predicate ProbeFound()
      reads `table, `dictLen, `probeId
    {
      dictLen <= |table| && probeId in table[..dictLen]
    }

    /** Every known id has a row; the probe is the last id inserted, and a clean
        dictionary has it. */
    ghost predicate Probed()
      reads `inserted, `table, `dictLen, `dirty, `probeId
    {
      && dictLen <= |table| && Complete(Known(), table, |table|)
      && (dirty ==> inserted != [])
      && (inserted != [] ==> probeId == inserted[|inserted| - 1].id)
      && (!dirty && inserted != [] ==> ProbeFound())
    }

    /** Reload attempts start at least two seconds apart. */
    ghost predicate Spaced()
      reads `lastReload, `reloads
    {
      && (reloads != [] ==> lastReload.Some? && reloads[|reloads| - 1] <= lastReload.value)
      && (forall i :: 0 < i < |reloads| ==> reloads[i] - reloads[i - 1] >= 2000)
    }

    /** Holds at every select: only an outstanding insert failure lets the buffer
        grow past one batch, so only then can anything be dropped. */
    ghost predicate Valid()
      reads this, buf
    {
      Conserved() && Probed() && Spaced() && (!retrying ==> len < BATCH_MAX)
    }

    ghost predicate InOrder()
      reads `history, `table
    {
      Ordered(prior, Ids(Kept(history)), table)
    }

    /** Over a run of requests for ids that are pairwise distinct and new, a clean
        dictionary hides every known id. */
    lemma FreshMeansVisible()
      requires Valid() && InOrder() && Fresh(prior, Ids(Reqs(history))) && !dirty && inserted != []
      ensures Complete(Known(), table, dictLen)
    {
      var kept, n := Ids(Kept(history)), |inserted|;
      KeptIsFresh(prior, history);
      assert kept[..n] == Ids(inserted);
      var i :| 0 <= i < dictLen && table[..dictLen][i] == probeId;
      FreshProbeIsLast(prior, kept, table, n, i);
      PrefixGrows(table, i + 1, dictLen);
    }

    /** A clean dictionary hides every known id when all of them had a row by the
        probe's first one. */
    lemma CleanMeansVisible(first: nat)
      requires Valid() && !dirty && inserted != []
      requires first < |table| && table[first] == probeId && probeId !in table[..first]
      requires Complete(Known(), table, first + 1)
      ensures Complete(Known(), table, dictLen)
    {
    }

    /** For a writer about to reload: whatever snapshot comes back, a reload that
        cleans it leaves it complete, exactly under that condition on what the
        table holds by the probe's first row or the dictionary already has. */
    lemma CleaningReloadIff(first: nat)
      requires Valid() && inserted != []
      requires first < |table| && table[first] == probeId && probeId !in table[..first]
      ensures (forall play :: Cleans(play) ==> Complete(Known(), table, Loaded(dictLen, |table|, play)))
         <==> Complete(Known(), table, Max(dictLen, first + 1))
    {
      ProbeIsReliable(Known(), table, dictLen, probeId, first);
      if forall play :: Cleans(play) ==> Complete(Known(), table, Loaded(dictLen, |table|, play)) {
        forall k | dictLen <= k <= |table| && probeId in table[..k]
          ensures Complete(Known(), table, k)
        {
          assert Cleans(ReloadPlay(true, k, true, 0));
        }
      }
    }

    /** The reload succeeds and finds the probe. */
    predicate Cleans(play: ReloadPlay)
      reads `table, `dictLen, `probeId
    {
      var k := Loaded(dictLen, |table|, play);
      play.execOk && play.scanOk && k <= |table| && probeId in table[..k]
    }

    constructor (prior: seq<string>, loaded: nat)
      requires loaded <= |prior|
      ensures Valid() && InOrder() && fresh(buf) && this.prior == prior && table == prior && dictLen == loaded
      ensures history == [] && inserted == [] && !dirty && !retrying && reloads == [] && lastReload == None && len == 0
    {
      this.prior := prior;
      buf := new Req[RETAINED_MAX];
      len, dirty, probeId, retrying, dropped, lastReload := 0, false, "", false, 0, None;
      inserted, table, dictLen, reported, lostAtShutdown := [], prior, loaded, 0, 0;
      history, reloads := [], [];
      new;
      assert prior + Ids([]) == prior && prior[..|prior|] == prior;
    }

    /** `appendReq`. */
    method Append(req: Req)
      requires Conserved()
      modifies `len, `dropped, `history, buf
      ensures Conserved()
      ensures history == old(history) + [Receipt(req, old(len) < RETAINED_MAX)]
      ensures len == Min(old(len) + 1, RETAINED_MAX)
    {
      HistorySnoc(history, Receipt(req, len < RETAINED_MAX));
      history := history + [Receipt(req, len < RETAINED_MAX)];
      if len == RETAINED_MAX {
        dropped := dropped + 1;
        return;
      }
      buf[len] := req;
      len := len + 1;
      assert buf[..len] == old(buf[..len]) + [req];
    }

    /** `copy(buf, buf[n:])`, `clear` and reslice. */
    method Shift(n: nat)
      requires n <= len <= buf.Length
      modifies `len, buf
      ensures len == old(len) - n && buf[..len] == old(buf[n..len])
      ensures forall i :: len <= i < old(len) ==> buf[i] == ZERO_REQ
    {
      CopyDown(n, len - n);
      Clear(len - n, len);
      len := len - n;
    }

    method CopyDown(n: nat, count: nat)
      requires n + count <= buf.Length
      modifies buf
      ensures buf[..count] == old(buf[n..n + count])
    {
      ghost var was := buf[..];
      for j := 0 to count
        invariant buf[..] == Moved(was, n, j)
      {
        MoveOne(was, n, j);
        CopyEntry(j + n, j);
      }
    }

    method CopyEntry(from: nat, to: nat)
      requires from < buf.Length && to < buf.Length
      modifies buf
      ensures buf[..] == old(buf[..])[to := old(buf[..])[from]]
    {
      buf[to] := buf[from];
    }

    method Clear(lo: nat, hi: nat)
      requires lo <= hi <= buf.Length
      modifies buf
      ensures buf[..lo] == old(buf[..lo])
      ensures forall i :: lo <= i < hi ==> buf[i] == ZERO_REQ
    {
      for j := lo to hi
        invariant buf[..lo] == old(buf[..lo])
        invariant forall i :: lo <= i < j ==> buf[i] == ZERO_REQ
      {
        buf[j] := ZERO_REQ;
      }
    }

    /** One successful insert of the first `n` retained requests. */
    method InsertBatch(n: nat)
      requires Conserved() && Probed() && 1 <= n <= len && n <= BATCH_MAX
      modifies `len, `inserted, `table, `probeId, `dirty, buf
      ensures Conserved() && Probed() && dirty && len == old(len) - n
      ensures inserted == old(inserted) + old(buf[..n]) && table == old(table) + Ids(old(buf[..n]))
      ensures probeId == old(buf[n - 1]).id
    {
      ghost var batch, rest := buf[..n], buf[n..len];
      assert buf[..len] == batch + rest;
      assert inserted + (batch + rest) == (inserted + batch) + rest;
      RowsLand(prior, inserted, table, batch);
      inserted := inserted + buf[..n];
      table := table + Ids(buf[..n]);
      probeId := buf[n - 1].id;
      dirty := true;
      Shift(n);
    }

    /** A failed insert, possibly after its rows had landed. */
    method FailBatch(n: nat, outcome: InsertOutcome)
      requires Conserved() && Probed() && 1 <= n <= len && n <= BATCH_MAX && !outcome.Done?
      modifies `table, `retrying
      ensures Conserved() && Probed() && retrying
      ensures table == old(table) + if outcome.FailedAfterStore? then Ids(buf[..n]) else []
    {
      if outcome.FailedAfterStore? {
        RowsLand(prior, inserted, table, buf[..n]);
        assert (table + Ids(buf[..n]))[..dictLen] == table[..dictLen];
        table := table + Ids(buf[..n]);
      }
      retrying := true;
    }

    static lemma RowsLand(prior: seq<string>, inserted: seq<Req>, table: seq<string>, batch: seq<Req>)
      requires Complete(prior + Ids(inserted), table, |table|)
      ensures Complete(prior + Ids(inserted), table + Ids(batch), |table + Ids(batch)|)
      ensures Complete(prior + Ids(inserted + batch), table + Ids(batch), |table + Ids(batch)|)
    {
      var t := table + Ids(batch);
      assert table[..|table|] == table && t[..|t|] == t;
      assert Ids(inserted + batch) == Ids(inserted) + Ids(batch);
    }

    /** The `flush` closure: batches of at most 1000 until empty or a failure. */
    method Flush(outcome: nat -> InsertOutcome)
      requires Conserved() && Probed()
      modifies `len, `inserted, `table, `probeId, `dirty, `retrying, `dropped, `reported, buf
      ensures Flushed(outcome, old(len), old(table), old(inserted), old(dirty)) && (retrying <==> len > 0)
    {
      reported := reported + dropped;
      dropped := 0;
      var i := 0;
      while len > 0
        invariant Flushing(outcome, i, old(len), old(table), old(inserted), old(dirty))
        decreases len
      {
        if !outcome(i).Done? {
          Stall(outcome, i, old(len), old(table), old(inserted), old(dirty));
          return;
        }
        SendBatch(outcome, i, old(len), old(table), old(inserted), old(dirty));
        i := i + 1;
      }
      AllSent(outcome, i, old(len), old(table), old(inserted), old(dirty));
      retrying := false;
    }

    /** What a flush of `len0` retained requests has done: the batches before the
        first failure are inserted, that one has left its rows behind or not. */
    ghost predicate Flushed(outcome: nat -> InsertOutcome, len0: nat, table0: seq<string>, sent0: seq<Req>, dirty0: bool)
      reads `len, `history, `inserted, `reported, `dropped, buf, `table, `dictLen, `dirty, `probeId
    {
      && Conserved() && Probed() && dropped == 0
      && sent0 <= inserted && |inserted| == |sent0| + Sendable(outcome, 0, len0) && |inserted| + len == |sent0| + len0
      && (dirty <==> dirty0 || inserted != sent0)
      && table == RowsAfter(table0, |sent0|, inserted) + Ids(buf[..Strays(outcome, 0, len0)])
    }

    lemma AllSent(outcome: nat -> InsertOutcome, i: nat, len0: nat, table0: seq<string>, sent0: seq<Req>, dirty0: bool)
      requires Flushing(outcome, i, len0, table0, sent0, dirty0) && len == 0
      ensures Flushed(outcome, len0, table0, sent0, dirty0)
    {
      assert Ids(buf[..0]) == [];
    }

    /** A flush that began with `len0` retained requests is about to try its `i`th batch. */
    ghost predicate Flushing(outcome: nat -> InsertOutcome, i: nat, len0: nat, table0: seq<string>, sent0: seq<Req>, dirty0: bool)
      reads `len, `history, `inserted, `reported, `dropped, buf, `table, `dictLen, `dirty, `probeId
    {
      && Conserved() && Probed() && dropped == 0
      && |inserted| + len == |sent0| + len0
      && Sendable(outcome, 0, len0) == |inserted| - |sent0| + Sendable(outcome, i, len)
      && Strays(outcome, 0, len0) == Strays(outcome, i, len)
      && Sending(table0, sent0, dirty0, table, inserted, dirty)
    }

    method Stall(outcome: nat -> InsertOutcome, i: nat,
                 ghost len0: nat, ghost table0: seq<string>, ghost sent0: seq<Req>, ghost dirty0: bool)
      requires Flushing(outcome, i, len0, table0, sent0, dirty0) && len > 0 && !outcome(i).Done?
      modifies `table, `retrying
      ensures Flushed(outcome, len0, table0, sent0, dirty0) && retrying
    {
      assert Ids(buf[..0]) == [];
      FailBatch(Min(len, BATCH_MAX), outcome(i));
    }

    method SendBatch(outcome: nat -> InsertOutcome, i: nat,
                     ghost len0: nat, ghost table0: seq<string>, ghost sent0: seq<Req>, ghost dirty0: bool)
      requires Flushing(outcome, i, len0, table0, sent0, dirty0) && len > 0 && outcome(i).Done?
      modifies `len, `inserted, `table, `probeId, `dirty, buf
      ensures Flushing(outcome, i + 1, len0, table0, sent0, dirty0) && len < old(len)
    {
      NextBatch(outcome, i, len);
      SendingSnoc(table0, sent0, dirty0, table, inserted, dirty, buf[..Min(len, BATCH_MAX)]);
      InsertBatch(Min(len, BATCH_MAX));
    }

    /** ClickHouse refreshes the dictionary on its own from time to time. */
    method AutoReload(snapshot: nat)
      requires Valid()
      modifies `dictLen
      ensures Valid() && dictLen == Loaded(old(dictLen), |table|, ReloadPlay(true, snapshot, true, 0))
    {
      Load(snapshot);
    }

    /** The dictionary takes a snapshot of the table, no older than the one it has. */
    method Load(snapshot: nat)
      requires Probed()
      modifies `dictLen
      ensures Probed() && dictLen == if old(dictLen) <= snapshot <= |table| then snapshot else old(dictLen)
    {
      if dictLen <= snapshot <= |table| {
        PrefixGrows(table, dictLen, snapshot);
        dictLen := snapshot;
      }
    }

    /** `reload`: an error, a snapshot that did not move, or a fresh one; it
        succeeds exactly when the statement and the query do and the probe is found. */
    method Reload(play: ReloadPlay, now: int) returns (ok: bool)
      requires Conserved() && Probed() && inserted != []
      modifies `dictLen, `lastReload
      ensures Conserved() && Probed() && lastReload == Some(now + play.took)
      ensures dictLen == Loaded(old(dictLen), |table|, play)
      ensures ok <==> play.execOk && play.scanOk && ProbeFound()
    {
      lastReload := Some(now + play.took);
      if !play.execOk {
        return false;
      }
      Load(play.snapshot);
      ok := play.scanOk && probeId in table[..dictLen];
    }

    // ---- the select ----

    /** What the select does to requests and rows. */
    twostate predicate Served(request: Option<Req>, outcome: nat -> InsertOutcome)
      reads this, buf
    {
      var n, k := Sent(old(len), old(retrying), request, outcome), Stranded(old(len), old(retrying), request, outcome);
      && history == old(history) + Receipts(request, old(len))
      && old(inserted) <= inserted && |inserted| == |old(inserted)| + n && len == Held(old(len), request) - n
      && (retrying <==> if Flushes(old(len), old(retrying), request) then len > 0 else old(retrying))
      && k <= buf.Length && table == RowsAfter(old(table), old(|inserted|), inserted) + Ids(buf[..k])
    }

    /** `case req := <-w.in` or the tick, without the reload that ends the turn. */
    method Select(request: Option<Req>, outcome: nat -> InsertOutcome)
      requires Valid()
      modifies `len, `dropped, `history, `inserted, `table, `probeId, `dirty, `retrying, `reported, buf
      ensures Valid() && Served(request, outcome)
      ensures old(len) == RETAINED_MAX ==> old(retrying)
      ensures dirty <==> old(dirty) || inserted != old(inserted)
    {
      if request.Some? {
        Take(request.value, outcome);
      } else {
        Flush(outcome);
      }
    }

    method Take(req: Req, outcome: nat -> InsertOutcome)
      requires Valid()
      modifies `len, `dropped, `history, `inserted, `table, `probeId, `dirty, `retrying, `reported, buf
      ensures Valid() && Served(Some(req), outcome)
      ensures dirty <==> old(dirty) || inserted != old(inserted)
    {
      Append(req);
      if len >= BATCH_MAX && !retrying {
        Flush(outcome);
      } else {
        assert Ids(buf[..0]) == [] && inserted[|inserted|..] == [];
      }
    }

    /** The reload at the end of a turn. */
    method MaybeReload(play: ReloadPlay, now: int)
      requires Valid()
      modifies `dictLen, `lastReload, `dirty, `reloads
      ensures Valid()
      ensures if old(dirty) && ReloadDue(old(lastReload), now)
        then reloads == old(reloads) + [now] && lastReload == Some(now + play.took)
          && dictLen == Loaded(old(dictLen), |table|, play) && (dirty <==> !(play.execOk && play.scanOk && ProbeFound()))
        else reloads == old(reloads) && lastReload == old(lastReload) && dictLen == old(dictLen) && dirty == old(dirty)
    {
      if dirty && ReloadDue(lastReload, now) {
        var ok := Reload(play, now);
        reloads := reloads + [now];
        dirty := !ok;
      }
    }

    /** One turn of the loop: a request or the 250ms tick. Anything inserted makes
        the dictionary dirty; it is clean again exactly when a reload is due, goes
        through and finds the probe. */
    method Turn(wake: Wake)
      requires Valid()
      modifies `len, `dropped, `history, `inserted, `table, `probeId, `dirty, `retrying, `reported, buf
      modifies `dictLen, `lastReload, `reloads
      ensures Valid()
      ensures Served(wake.request, wake.outcome)
      ensures Reqs(history) == Reqs(old(history)) + if wake.request.Some? then [wake.request.value] else []
      ensures Drops(history) > Drops(old(history)) ==> old(retrying)
      ensures var d := old(dirty) || inserted != old(inserted);
        if d && (old(lastReload).None? || wake.now - old(lastReload).value >= 2000)
        then reloads == old(reloads) + [wake.now] && lastReload == Some(wake.now + wake.reload.took)
          && dictLen == Loaded(old(dictLen), |table|, wake.reload)
          && (dirty <==> !(wake.reload.execOk && wake.reload.scanOk && ProbeFound()))
        else reloads == old(reloads) && lastReload == old(lastReload) && dictLen == old(dictLen) && dirty == d
    {
      ReceiptsSnoc(history, wake.request, len);
      Select(wake.request, wake.outcome);
      MaybeReload(wake.reload, wake.now);
    }

    /** A tick, in plain words: while inserts succeed it inserts everything retained,
        however much that is and whatever failed before; if the first insert fails
        it inserts nothing. */
    method TurnOnTick(outcome: nat -> InsertOutcome, reload: ReloadPlay, now: int)
      requires Valid()
      modifies this, buf
      ensures Valid() && history == old(history)
      ensures (forall i :: outcome(i).Done?) ==> len == 0 && !retrying && inserted == old(inserted) + old(buf[..len])
      ensures old(len) > 0 && !outcome(0).Done? ==> retrying && inserted == old(inserted) && buf[..len] == old(buf[..len])
    {
      ghost var retained := buf[..len];
      Turn(Wake(None, outcome, reload, now));
      assert history == old(history);
      if forall i :: outcome(i).Done? {
        AllSendable(outcome, 0, old(len));
        AllOut(history, old(inserted), retained, inserted, buf[..len], old(table));
      } else if old(len) > 0 && !outcome(0).Done? {
        NoneOut(history, inserted, retained, buf[..len]);
      }
    }

    /** A request: it inserts nothing before 1000 are retained, nor while an insert
        failure is outstanding; otherwise, while inserts succeed, everything. */
    method TurnOnRequest(req: Req, outcome: nat -> InsertOutcome, reload: ReloadPlay, now: int)
      requires Valid()
      modifies this, buf
      ensures Valid() && history == old(history) + [Receipt(req, old(len) < 3000)]
      ensures old(len) + 1 < 1000 || old(retrying) ==>
        inserted == old(inserted) && table == old(table) && retrying == old(retrying)
        && buf[..len] == old(buf[..len]) + if old(len) < 3000 then [req] else []
      ensures old(len) + 1 >= 1000 && !old(retrying) && (forall i :: outcome(i).Done?) ==>
        len == 0 && !retrying && inserted == old(inserted) + (old(buf[..len]) + [req])
    {
      ghost var retained := buf[..len];
      HistorySnoc(history, Receipt(req, len < 3000));
      Turn(Wake(Some(req), outcome, reload, now));
      if old(len) + 1 < 1000 || old(retrying) {
        var kept := retained + if old(len) < 3000 then [req] else [];
        assert Kept(history) == inserted + kept;
        NoneOut(history, inserted, kept, buf[..len]);
        assert inserted[|inserted|..] == [] && Ids(buf[..0]) == [];
      } else if forall i :: outcome(i).Done? {
        AllSendable(outcome, 0, old(len) + 1);
        assert Kept(history) == old(inserted) + (retained + [req]);
        AllOut(history, old(inserted), retained + [req], inserted, buf[..len], old(table));
      }
    }

    /** Any number of turns, with ClickHouse reloading the dictionary in between. */
    method Run(wakes: seq<Wake>, autoReloads: nat -> nat)
      requires Valid()
      modifies this, buf
      ensures Valid() && Reqs(history) == Reqs(old(history)) + Requests(wakes)
      ensures old(InOrder()) ==> InOrder()
      ensures old(InOrder()) && Fresh(prior, Ids(Reqs(history))) && !dirty && inserted != [] ==>
        Complete(Known(), table, dictLen)
    {
      for i := 0 to |wakes|
        invariant Valid() && Reqs(history) == Reqs(old(history)) + Requests(wakes[..i])
        invariant old(InOrder()) ==> InOrder()
      {
        Cycle(wakes[i], autoReloads(i));
        assert wakes[..i + 1][..i] == wakes[..i];
      }
      assert wakes[..|wakes|] == wakes;
      if InOrder() && Fresh(prior, Ids(Reqs(history))) && !dirty && inserted != [] {
        FreshMeansVisible();
      }
    }

    method Cycle(wake: Wake, snapshot: nat)
      requires Valid()
      modifies this, buf
      ensures Valid()
      ensures Reqs(history) == Reqs(old(history)) + if wake.request.Some? then [wake.request.value] else []
      ensures old(InOrder()) ==> InOrder()
    {
      AutoReload(snapshot);
      TurnInOrder(wake);
    }

    method TurnInOrder(wake: Wake)
      requires Valid()
      modifies this, buf
      ensures Valid()
      ensures Reqs(history) == Reqs(old(history)) + if wake.request.Some? then [wake.request.value] else []
      ensures old(InOrder()) ==> InOrder()
    {
      ghost var retained := buf[..len];
      Turn(wake);
      if old(InOrder()) {
        StraysAreRetained(wake.outcome, 0, Held(old(len), wake.request));
        KeptGrows(old(history), wake.request, old(len));
        ghost var k := Stranded(old(len), old(retrying), wake.request, wake.outcome);
        TurnKeepsOrder(prior, old(history), history, old(inserted), inserted, retained, buf[..len], old(table), k);
        assert buf[..len][..k] == buf[..k];
      }
    }

    /** While inserts succeed, a burst of fewer than 1000 requests and the next
        tick put exactly those rows behind the table, and a due reload of them
        that goes through makes the dictionary clean. */
    method Burst(reqs: seq<Req>, play: ReloadPlay, now: int)
      requires Valid() && len == 0 && !retrying && !dirty && 0 < |reqs| < BATCH_MAX && ReloadDue(lastReload, now)
      modifies this, buf
      ensures Valid() && len == 0 && !retrying
      ensures inserted == old(inserted) + reqs && table == old(table) + Ids(reqs)
      ensures dictLen == Loaded(old(dictLen), |table|, play) && lastReload == Some(now + play.took)
      ensures dirty <==> !(play.execOk && play.scanOk && ProbeFound())
    {
      var done: nat -> InsertOutcome := (i: nat) => Done;
      Gather(reqs, done, play, now);
      Settle(done, play, now);
    }

    method Settle(outcome: nat -> InsertOutcome, play: ReloadPlay, now: int)
      requires Valid() && 0 < len < BATCH_MAX && ReloadDue(lastReload, now) && outcome(0).Done?
      modifies this, buf
      ensures Valid() && len == 0 && !retrying
      ensures inserted == old(inserted) + old(buf[..len]) && table == old(table) + Ids(old(buf[..len]))
      ensures dictLen == Loaded(old(dictLen), |table|, play) && lastReload == Some(now + play.took)
      ensures dirty <==> !(play.execOk && play.scanOk && ProbeFound())
    {
      ghost var h, retained := history, buf[..len];
      OneBatch(outcome, len);
      TickOut(outcome, play, now);
      AllOut(h, old(inserted), retained, inserted, [], old(table));
    }

    /** A tick whose one insert takes all that is retained. */
    method TickOut(outcome: nat -> InsertOutcome, play: ReloadPlay, now: int)
      requires Valid() && 0 < len < BATCH_MAX && ReloadDue(lastReload, now)
      requires Sendable(outcome, 0, len) == len && Strays(outcome, 0, len) == 0
      modifies this, buf
      ensures Valid() && len == 0 && !retrying && history == old(history) && Kept(history) == inserted + []
      ensures table == RowsAfter(old(table), |old(inserted)|, inserted) + Ids([])
      ensures dictLen == Loaded(old(dictLen), |table|, play) && lastReload == Some(now + play.took)
      ensures dirty <==> !(play.execOk && play.scanOk && ProbeFound())
    {
      Turn(Wake(None, outcome, play, now));
      assert buf[..0] == [];
    }

    method Gather(reqs: seq<Req>, outcome: nat -> InsertOutcome, play: ReloadPlay, now: int)
      requires Valid() && len == 0 && !retrying && !dirty && |reqs| < BATCH_MAX
      modifies this, buf
      ensures Valid() && len == |reqs| && !retrying && !dirty && lastReload == old(lastReload)
      ensures inserted == old(inserted) && table == old(table) && dictLen == old(dictLen)
      ensures buf[..len] == reqs
    {
      for i := 0 to |reqs|
        invariant Valid() && len == i && !retrying && !dirty && lastReload == old(lastReload)
        invariant inserted == old(inserted) && table == old(table) && dictLen == old(dictLen)
        invariant Kept(history) == inserted + reqs[..i]
      {
        KeptSnoc(history, inserted, reqs, i);
        assert Receipts(Some(reqs[i]), len) == [Receipt(reqs[i], true)];
        Turn(Wake(Some(reqs[i]), outcome, play, now));
      }
      assert buf[..len] == Kept(history)[|inserted|..] == reqs[..|reqs|] == reqs;
    }

    /** Shutdown: drain what is queued, flush, report what is lost, reload once. */
    method Stop(queue: seq<Req>, outcome: nat -> nat -> InsertOutcome, last: nat -> InsertOutcome, play: ReloadPlay, now: int)
      requires Valid()
      modifies this, buf
      ensures Conserved() && Probed()
      ensures Reqs(history) == Reqs(old(history)) + queue
      ensures lostAtShutdown == len && ((forall i :: last(i).Done?) ==> lostAtShutdown == 0)
      ensures |history| == |inserted| + lostAtShutdown + reported
      ensures dictLen == if old(dirty) || inserted != old(inserted) then Loaded(old(dictLen), |table|, play) else old(dictLen)
    {
      Drain(queue, outcome);
      FlushLast(last);
      lostAtShutdown := len;
      EveryRequestCounted(history);
      if dirty {
        var _ := Reload(play, now);
      }
    }

    method FlushLast(outcome: nat -> InsertOutcome)
      requires Conserved() && Probed()
      modifies `len, `inserted, `table, `probeId, `dirty, `retrying, `dropped, `reported, buf
      ensures Conserved() && Probed() && dropped == 0 && old(inserted) <= inserted
      ensures dirty <==> old(dirty) || inserted != old(inserted)
      ensures (forall i :: outcome(i).Done?) ==> len == 0
    {
      if forall i :: outcome(i).Done? {
        AllSendable(outcome, 0, len);
      }
      Flush(outcome);
    }

    method Drain(queue: seq<Req>, outcome: nat -> nat -> InsertOutcome)
      requires Valid()
      modifies `len, `dropped, `history, `inserted, `table, `probeId, `dirty, `retrying, `reported, buf
      ensures Valid() && Reqs(history) == Reqs(old(history)) + queue
      ensures old(inserted) <= inserted && (dirty <==> old(dirty) || inserted != old(inserted))
    {
      for i := 0 to |queue|
        invariant Valid() && Reqs(history) == Reqs(old(history)) + queue[..i]
        invariant old(inserted) <= inserted && (dirty <==> old(dirty) || inserted != old(inserted))
      {
        DrainOne(queue[i], outcome(i));
        assert queue[..i + 1] == queue[..i] + [queue[i]];
      }
      assert queue[..|queue|] == queue;
    }

    method DrainOne(req: Req, outcome: nat -> InsertOutcome)
      requires Valid()
      modifies `len, `dropped, `history, `inserted, `table, `probeId, `dirty, `retrying, `reported, buf
      ensures Valid() && Reqs(history) == Reqs(old(history)) + [req]
      ensures old(inserted) <= inserted && (dirty <==> old(dirty) || inserted != old(inserted))
    {
      ReceiptsSnoc(history, Some(req), len);
      Select(Some(req), outcome);
    }
  }

  /** An id tombstoned twice defeats the probe. The writer inserts a and loads it;
      b and a again follow, and a reload that returns the old snapshot passes. */
  method StaleRun() returns (w: Writer)
    ensures fresh(w) && w.Valid() && !w.dirty
    ensures "b" in w.Known() && "b" in w.table && "b" !in w.table[..w.dictLen]
  {
    var a, b := Req("a", "", ""), Req("b", "", "");
    var stale := ReloadPlay(true, 1, true, 0);
    w := new Writer([], 0);
    w.Burst([a], stale, 0);
    assert w.inserted == [a] && w.table == ["a"] && w.table[..1] == ["a"];
    w.Burst([b, a], stale, 2000);
    assert w.table == ["a", "b", "a"] && w.Known() == w.table && w.dictLen == 1;
  }
}
