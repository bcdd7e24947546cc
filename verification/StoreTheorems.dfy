/** What no interleaving of reserving, marking, failing and crashing clients can break. */
module StoreTheorems {
  import opened Wrappers
  import opened Domain
  import opened Store
  import opened StoreSteps

  ghost predicate Taken(s: System, s': System) {
    exists step :: Enabled(s, step) && Do(s, step) == s'
  }

  /** Any number of clients, started on an empty store and interleaved in any way. */
  ghost predicate IsRun(run: seq<System>) {
    && run != [] && run[0] == Init(|run[0].clients|)
    && forall i :: 0 <= i < |run| - 1 ==> Taken(run[i], run[i + 1])
  }

  lemma {:induction false} RunInv(run: seq<System>, i: nat)
    requires IsRun(run) && i < |run|
    ensures Inv(run[i])
    decreases i
  {
    hide Inv, Do, Enabled, Init;
    if i == 0 {
      InitInv(|run[0].clients|);
    } else {
      RunInv(run, i - 1);
      assert Taken(run[i - 1], run[i - 1 + 1]);
      var step :| Enabled(run[i - 1], step) && Do(run[i - 1], step) == run[i];
      StepInv(run[i - 1], step);
    }
  }

  // ----- Histories of the atomic store

  /** The call was a reservation of this permit, answered NEW_RESERVATION. */
  predicate IsNew(entry: (Op, Response), permit: Digest) {
    && entry.0 == ReserveOp(permit) && entry.1.ReserveResponse?
    && entry.1.reservation.status == NewReservation
  }

  /** Records are only added or finished: identities stay, and a terminal record never changes. */
  ghost predicate Extends(m: Records, m': Records) {
    forall d :: d in m ==> d in m' && (m[d].status != Reserved ==> m'[d] == m[d])
  }

  lemma {:induction false} AtomicExtends(m: Records, op: Op)
    ensures Extends(m, AtomicDo(m, op).0)
    ensures forall permit ::
              IsNew((op, AtomicDo(m, op).1), permit)
              <==> op == ReserveOp(permit) && permit !in m
    ensures op.ReserveOp? ==> op.permit in AtomicDo(m, op).0
  {
  }

  lemma {:induction false} ReplayPrefix(h: seq<(Op, Response)>, i: nat)
    requires Replay(h).Some? && i <= |h|
    ensures Replay(h[..i]).Some? && Extends(Replay(h[..i]).value, Replay(h).value)
    decreases |h|
  {
    hide AtomicDo, Replay;
    if i == |h| {
      assert h[..i] == h;
    } else {
      HistoryAtomic(h);
      var shorter := h[..|h| - 1];
      AtomicExtends(Replay(shorter).value, h[|h| - 1].0);
      assert shorter[..i] == h[..i];
      ReplayPrefix(shorter, i);
    }
  }

  /** A call in a history had the atomic response to the records the earlier calls left. */
  lemma {:induction false} ResponseAt(h: seq<(Op, Response)>, i: nat)
    requires Replay(h).Some? && i < |h|
    ensures Replay(h[..i]).Some?
    ensures h[i].1 == AtomicDo(Replay(h[..i]).value, h[i].0).1
    ensures Replay(h[..i + 1]) == Some(AtomicDo(Replay(h[..i]).value, h[i].0).0)
  {
    hide AtomicDo, Replay;
    ReplayPrefix(h, i + 1);
    var upto := h[..i + 1];
    HistoryAtomic(upto);
    assert upto[..|upto| - 1] == h[..i] && upto[|upto| - 1] == h[i];
  }

  /** In a history, one permit is newly reserved at most once, and its record is there ever after. */
  lemma {:induction false} NewOnce(h: seq<(Op, Response)>, i: nat, permit: Digest)
    requires Replay(h).Some? && i < |h| && IsNew(h[i], permit)
    ensures permit in Replay(h).value
    ensures forall j :: i < j < |h| ==> !IsNew(h[j], permit)
  {
    hide AtomicDo, Replay;
    ResponseAt(h, i);
    AtomicExtends(Replay(h[..i]).value, h[i].0);
    ReplayPrefix(h, i + 1);
    forall j: nat | i < j < |h| ensures !IsNew(h[j], permit) {
      ResponseAt(h, j);
      AtomicExtends(Replay(h[..j]).value, h[j].0);
      assert h[..j][..i + 1] == h[..i + 1];
      ReplayPrefix(h[..j], i + 1);
    }
  }

  ghost predicate Asked(h: seq<(Op, Response)>, permit: Digest) {
    exists k :: 0 <= k < |h| && h[k].0 == ReserveOp(permit)
  }

  /** The history contains a successful mark of this permit. */
  ghost predicate Marked(h: seq<(Op, Response)>, permit: Digest, t: Terminal) {
    exists k :: 0 <= k < |h| && h[k].0 == MarkOp(permit, t) && h[k].1.MarkResponse? && h[k].1.result.Success?
  }

  function Record(m: Records, permit: Digest): Option<ExecutionRecord> {
    if permit in m then Some(m[permit]) else None
  }

  lemma {:induction false} SnocHistory(h: seq<(Op, Response)>, e: (Op, Response), permit: Digest)
    ensures Asked(h + [e], permit) <==> Asked(h, permit) || e.0 == ReserveOp(permit)
    ensures forall t :: Marked(h + [e], permit, t)
                        <==> Marked(h, permit, t) || (e.0 == MarkOp(permit, t) && e.1.MarkResponse? && e.1.result.Success?)
  {
    var h' := h + [e];
    assert h'[|h|] == e && forall k :: 0 <= k < |h| ==> h'[k] == h[k];
  }

  lemma {:induction false} EmptyHistory(permit: Digest)
    ensures !Asked([], permit) && forall t :: !Marked([], permit, t)
  {
  }

  /** What one call does to the record of one permit. */
  lemma {:induction false} RecordAfter(m: Records, op: Op, permit: Digest)
    ensures var (after, response) := AtomicDo(m, op);
            if op == ReserveOp(permit) then
              Record(after, permit)
              == Some(if permit in m then m[permit] else ExecutionRecord(permit, permit, Reserved, None, None))
            else if op.MarkOp? && op.permit == permit then
              && response.MarkResponse?
              && (response.result.Success? ==> permit in m && m[permit].status == Reserved)
              && Record(after, permit)
                 == if response.result.Failure? then Record(m, permit)
                    else match op.terminal
                         case AsSucceeded(r) => Some(ExecutionRecord(permit, permit, Succeeded, Some(r), None))
                         case AsFailed(r) => Some(ExecutionRecord(permit, permit, Failed, None, Some(r)))
            else Record(after, permit) == Record(m, permit)
  {
    hide SqlLength;
  }

  /**
    A history explains every record: there is one exactly if the permit was reserved; it is
    SUCCEEDED with a result exactly if a mark of that success succeeded, FAILED with a failure
    reference likewise, and RESERVED as long as no mark has succeeded.
    */
  lemma {:induction false} RecordExplained(h: seq<(Op, Response)>, permit: Digest)
    requires Replay(h).Some?
    ensures Record(Replay(h).value, permit).Some? <==> Asked(h, permit)
    ensures forall r :: Record(Replay(h).value, permit) == Some(ExecutionRecord(permit, permit, Succeeded, Some(r), None))
                        <==> Marked(h, permit, AsSucceeded(r))
    ensures forall r :: Record(Replay(h).value, permit) == Some(ExecutionRecord(permit, permit, Failed, None, Some(r)))
                        <==> Marked(h, permit, AsFailed(r))
    ensures Record(Replay(h).value, permit) == Some(ExecutionRecord(permit, permit, Reserved, None, None))
            <==> Asked(h, permit) && forall t :: !Marked(h, permit, t)
    decreases |h|
  {
    hide AtomicDo, Asked, Marked;
    if h == [] {
      EmptyHistory(permit);
    } else {
      HistoryAtomic(h);
      hide Replay;
      var shorter, e := h[..|h| - 1], h[|h| - 1];
      assert h == shorter + [e];
      RecordExplained(shorter, permit);
      SnocHistory(shorter, e, permit);
      RecordAfter(Replay(shorter).value, e.0, permit);
      forall t | Marked(shorter, permit, t)
        ensures var before := Record(Replay(shorter).value, permit); before.Some? && before.value.status != Reserved
      {
        match t
        case AsSucceeded(r) => assert Marked(shorter, permit, AsSucceeded(r));
        case AsFailed(r) => assert Marked(shorter, permit, AsFailed(r));
      }
      if e.0.MarkOp? && e.0.permit == permit && e.1.result.Success? {
        assert Marked(h, permit, e.0.terminal);
      }
    }
  }

  // ----- Runs of the system

  /** Two answers to clients. */
  function Answer(s: System, i: nat): (Op, Response)
    requires i < |s.returned| && s.returned[i] < |s.decided|
  {
    s.decided[s.returned[i]]
  }

  /**
    In every interleaving of any number of clients, with database failures and crashes between any
    two statements, at most one client is ever told NEW_RESERVATION for a permit, and whoever is
    told so finds the record committed.
    */
  lemma {:induction false} ReservedAtMostOnce(run: seq<System>, i: nat, permit: Digest, a: nat)
    requires IsRun(run) && i < |run| && a < |run[i].returned|
    ensures forall b :: 0 <= b < |run[i].returned| ==> run[i].returned[b] < |run[i].decided|
    ensures IsNew(Answer(run[i], a), permit) ==>
              && RowRecord(run[i].durable, permit).Some?
              && forall b :: 0 <= b < |run[i].returned| && b != a ==> !IsNew(Answer(run[i], b), permit)
  {
    hide Replay, Holds, RowRecord, IdText, IsRun, IsNew, TransactionOk, LockOk;
    RunInv(run, i);
    var s := run[i];
    if IsNew(Answer(s, a), permit) {
      NewOnce(s.decided, s.returned[a], permit);
      HeldRecord(s.durable, Replay(s.decided).value, permit);
      forall b: nat | b < |s.returned| && b != a ensures !IsNew(Answer(s, b), permit) {
        assert s.returned[a] != s.returned[b];
        if s.returned[b] < s.returned[a] && IsNew(Answer(s, b), permit) {
          NewOnce(s.decided, s.returned[b], permit);
        }
      }
    }
  }

  lemma {:induction false} HistoryGrows(run: seq<System>, i: nat, j: nat)
    requires IsRun(run) && i <= j < |run|
    ensures run[i].decided <= run[j].decided && run[i].returned <= run[j].returned
    decreases j
  {
    hide Do, Enabled;
    if i < j {
      HistoryGrows(run, i, j - 1);
      assert Taken(run[j - 1], run[j - 1 + 1]);
      var step :| Enabled(run[j - 1], step) && Do(run[j - 1], step) == run[j];
      DoShape(run[j - 1], step);
    }
  }

  /** Committed records stay: none is lost, and a SUCCEEDED or FAILED one never changes again. */
  lemma {:induction false} TerminalForEver(run: seq<System>, i: nat, j: nat, permit: Digest)
    requires IsRun(run) && i <= j < |run|
    ensures var before, after := RowRecord(run[i].durable, permit), RowRecord(run[j].durable, permit);
            before.Some? ==> after.Some? && (before.value.status != Reserved ==> after == before)
  {
    hide Replay, Holds, RowRecord, IdText, IsRun, TransactionOk, LockOk, ReturnsOk;
    RunInv(run, i);
    RunInv(run, j);
    HistoryGrows(run, i, j);
    var h := run[j].decided;
    assert h[..|run[i].decided|] == run[i].decided;
    ReplayPrefix(h, |run[i].decided|);
    HeldRecord(run[i].durable, Replay(run[i].decided).value, permit);
    HeldRecord(run[j].durable, Replay(h).value, permit);
  }

  /**
    A client that was idle at one state and holds a decision at a later one has a decision taken in
    between, of the call it is in.
    */
  lemma {:induction false} DecidedSince(run: seq<System>, i: nat, j: nat, c: nat)
    requires IsRun(run) && i <= j < |run| && c < |run[i].clients| && run[i].clients[c].Idle?
    ensures c < |run[j].clients|
    ensures run[j].clients[c].Decided? ==> |run[i].decided| <= run[j].clients[c].index
    decreases j
  {
    hide Do, Enabled, Inv;
    if i < j {
      DecidedSince(run, i, j - 1, c);
      HistoryGrows(run, i, j - 1);
      assert Taken(run[j - 1], run[j - 1 + 1]);
      var step :| Enabled(run[j - 1], step) && Do(run[j - 1], step) == run[j];
      DoShape(run[j - 1], step);
      DecidesNow(run[j - 1], step, c);
    }
  }

  lemma {:induction false} DecidesNow(s: System, step: Step, c: nat)
    requires Enabled(s, step) && c < |s.clients|
    ensures |Do(s, step).clients| == |s.clients|
    ensures Do(s, step).clients[c].Decided? ==>
              s.clients[c] == Do(s, step).clients[c] || Do(s, step).clients[c].index == |s.decided|
  {
    hide RowRecord, UpdateRow, InsertRow, RowOf, StatusFor, IdText, NewRecord, Finished, Sendable;
  }

  /**
    The answer a client is about to get is to the call it began, and real time is respected: a call
    whose answer was returned before another began was decided before it.
    */
  lemma {:induction false} AnswersOwnCallInOrder(run: seq<System>, i: nat, j: nat, c: nat, a: nat)
    requires IsRun(run) && i <= j < |run| && c < |run[i].clients| && run[i].clients[c].Idle?
    requires a < |run[i].returned|
    ensures c < |run[j].clients|
    ensures run[j].clients[c].Decided? ==>
              var index := run[j].clients[c].index;
              && index < |run[j].decided| && run[j].decided[index].0 == run[j].clients[c].op
              && run[i].returned[a] < index
  {
    hide Replay, Holds, IsRun, TransactionOk, LockOk;
    RunInv(run, i);
    RunInv(run, j);
    DecidedSince(run, i, j, c);
  }

  /** The order of decisions explains every answer: each is the atomic store's, in that order. */
  lemma {:induction false} Linearizable(run: seq<System>, i: nat, k: nat)
    requires IsRun(run) && i < |run| && k < |run[i].decided|
    ensures Replay(run[i].decided[..k]).Some?
    ensures var (op, response) := run[i].decided[k];
            response == AtomicDo(Replay(run[i].decided[..k]).value, op).1
    ensures Replay(run[i].decided).Some? && Holds(run[i].durable, Replay(run[i].decided).value)
  {
    hide Replay, AtomicDo, Holds, IsRun, TransactionOk, LockOk, ReturnsOk;
    RunInv(run, i);
    ResponseAt(run[i].decided, k);
  }

  /**
    In every interleaving, the committed row of a permit is there exactly if a reservation of it was
    decided; it is SUCCEEDED with a result exactly if a mark of that success was, FAILED likewise.
    */
  lemma {:induction false} CommittedExplained(run: seq<System>, i: nat, permit: Digest)
    requires IsRun(run) && i < |run|
    ensures var row, h := RowRecord(run[i].durable, permit), run[i].decided;
            && (row.Some? <==> Asked(h, permit))
            && (forall r :: row == Some(ExecutionRecord(permit, permit, Succeeded, Some(r), None))
                            <==> Marked(h, permit, AsSucceeded(r)))
            && (forall r :: row == Some(ExecutionRecord(permit, permit, Failed, None, Some(r)))
                            <==> Marked(h, permit, AsFailed(r)))
            && (row == Some(ExecutionRecord(permit, permit, Reserved, None, None))
                <==> Asked(h, permit) && forall t :: !Marked(h, permit, t))
  {
    hide Replay, Holds, RowRecord, IsRun, TransactionOk, LockOk, ReturnsOk, Asked, Marked;
    RunInv(run, i);
    RecordExplained(run[i].decided, permit);
    HeldRecord(run[i].durable, Replay(run[i].decided).value, permit);
  }
}
