/**
  Any number of clients of one execution store, interleaved at every statement, with database
  failures and crashes: the store as a step system, and its refinement to the atomic store.
  */
module StoreSteps {
  import opened Wrappers
  import opened Utf8
  import opened Domain
  import opened Hexadecimal
  import opened Store

  /** A call whose arguments passed the checks made before a transaction is opened. */
  datatype Op = ReserveOp(permit: Digest) | MarkOp(permit: Digest, terminal: Terminal)

  datatype Response = ReserveResponse(reservation: Reservation) | MarkResponse(result: Result<ExecutionRecord, StoreError>)

  predicate Sendable(op: Op) {
    op.MarkOp? ==> !Blank(op.terminal.reference)
  }

  /** Where a client stands inside its call. */
  datatype Client =
    | Idle
    | Begun(op: Op)
    | Inserted(permit: Digest, inserted: bool)
    | Selected(permit: Digest, terminal: Terminal)
    | Updated(permit: Digest, terminal: Terminal)
    | Ready(op: Op, response: Response)
    | Decided(index: nat, op: Op)

  /**
    The committed table, the lock holder's view of it, the write lock, the clients, the calls decided
    so far in the order of their decisions, and which of those decisions were returned.
    */
  datatype System = System(
    durable: Table, working: Table, lock: Option<nat>, clients: seq<Client>,
    decided: seq<(Op, Response)>, returned: seq<nat>)

  datatype Step =
    | BeginStep(c: nat, op: Op) | InsertStep(c: nat) | SelectStep(c: nat) | UpdateStep(c: nat) | RereadStep(c: nat)
    | CommitStep(c: nat) | ReturnStep(c: nat) | FailStep(c: nat) | CrashStep(c: nat)

  function Init(clients: nat): System {
    System(map[], map[], None, seq(clients, i => Idle), [], [])
  }

  predicate Enabled(s: System, step: Step) {
    && step.c < |s.clients|
    && var client := s.clients[step.c];
       match step
       case BeginStep(c, op) => client.Idle? && s.lock.None? && Sendable(op)
       case InsertStep(c) => client.Begun? && client.op.ReserveOp?
       case SelectStep(c) => client.Inserted? || (client.Begun? && client.op.MarkOp?)
       case UpdateStep(c) => client.Selected?
       case RereadStep(c) => client.Updated?
       case CommitStep(c) => client.Ready?
       case ReturnStep(c) => client.Decided?
       case FailStep(c) => s.lock == Some(c)
       case CrashStep(c) => true
  }

  function Moved(s: System, c: nat, client: Client): System
    requires c < |s.clients|
  {
    s.(clients := s.clients[c := client])
  }

  /** The transaction ends without a trace, by an error or with the client itself. */
  function Abort(s: System, c: nat): System
    requires c < |s.clients|
  {
    Moved(s, c, Idle).(lock := if s.lock == Some(c) then None else s.lock)
  }

  /** The call is decided, and the transaction over. */
  function Decide(s: System, c: nat, durable: Table, op: Op, response: Response): System
    requires c < |s.clients|
  {
    Moved(s, c, Decided(|s.decided|, op)).(durable := durable, lock := None, decided := s.decided + [(op, response)])
  }

  function DoInsert(s: System, c: nat, permit: Digest): System
    requires c < |s.clients|
  {
    var inserting := InsertRow(s.working, RowOf(NewRecord(permit)));
    if inserting.None? then Abort(s, c)
    else Moved(s, c, Inserted(permit, inserting.value.1)).(working := inserting.value.0)
  }

  function RowRecord(table: Table, d: Digest): Option<ExecutionRecord> {
    if IdText(d) in table then RecordFromRow(table[IdText(d)], d) else None
  }

  function DoReserveSelect(s: System, c: nat, permit: Digest, inserted: bool): System
    requires c < |s.clients|
  {
    var record := RowRecord(s.working, permit);
    if record.None? then Abort(s, c)
    else Moved(s, c, Ready(ReserveOp(permit), ReserveResponse(Reservation(StatusFor(record.value, inserted), record.value))))
  }

  function DoMarkSelect(s: System, c: nat, permit: Digest, t: Terminal): System
    requires c < |s.clients|
  {
    if IdText(permit) !in s.working then
      Decide(s, c, s.durable, MarkOp(permit, t), MarkResponse(Failure(RecordMissing)))
    else
      var record := RowRecord(s.working, permit);
      if record.None? then Abort(s, c)
      else if record.value.permitDigest != permit then
        Decide(s, c, s.durable, MarkOp(permit, t), MarkResponse(Failure(PermitMismatch)))
      else if record.value.status != Reserved then
        Decide(s, c, s.durable, MarkOp(permit, t), MarkResponse(Failure(AlreadyTerminal(record.value.status))))
      else Moved(s, c, Selected(permit, t))
  }

  function DoUpdate(s: System, c: nat, permit: Digest, t: Terminal): System
    requires c < |s.clients|
  {
    var updating := UpdateRow(s.working, RowOf(Finished(permit, t)));
    if updating.None? then Abort(s, c)
    else if !updating.value.1 then Decide(s, c, s.durable, MarkOp(permit, t), MarkResponse(Failure(ChangedConcurrently)))
    else Moved(s, c, Updated(permit, t)).(working := updating.value.0)
  }

  function DoReread(s: System, c: nat, permit: Digest, t: Terminal): System
    requires c < |s.clients|
  {
    var record := RowRecord(s.working, permit);
    if record.None? then Abort(s, c)
    else Moved(s, c, Ready(MarkOp(permit, t), MarkResponse(Success(record.value))))
  }

  function Do(s: System, step: Step): System
    requires Enabled(s, step)
  {
    var c := step.c;
    var client := s.clients[c];
    match step
    case BeginStep(_, op) => Moved(s, c, Begun(op)).(lock := Some(c), working := s.durable)
    case InsertStep(_) => DoInsert(s, c, client.op.permit)
    case SelectStep(_) =>
      if client.Inserted? then DoReserveSelect(s, c, client.permit, client.inserted)
      else DoMarkSelect(s, c, client.op.permit, client.op.terminal)
    case UpdateStep(_) => DoUpdate(s, c, client.permit, client.terminal)
    case RereadStep(_) => DoReread(s, c, client.permit, client.terminal)
    case CommitStep(_) => Decide(s, c, s.working, client.op, client.response)
    case ReturnStep(_) => Moved(s, c, Idle).(returned := s.returned + [client.index])
    case FailStep(_) => Abort(s, c)
    case CrashStep(_) => Abort(s, c)
  }

  /** The call a client is in. */
  function CallOf(client: Client): Option<Op> {
    match client
    case Idle => None
    case Begun(op) => Some(op)
    case Inserted(permit, _) => Some(ReserveOp(permit))
    case Selected(permit, terminal) => Some(MarkOp(permit, terminal))
    case Updated(permit, terminal) => Some(MarkOp(permit, terminal))
    case Ready(op, _) => Some(op)
    case Decided(_, op) => Some(op)
  }

  /**
    A step leaves every other client alone. A client enters a call only by beginning it, and stays
    in that call until it is idle again.
    */
  lemma {:induction false} CallKept(s: System, step: Step, c: nat)
    requires Enabled(s, step) && c < |s.clients|
    ensures |Do(s, step).clients| == |s.clients|
    ensures c != step.c ==> Do(s, step).clients[c] == s.clients[c]
    ensures var before, after := CallOf(s.clients[c]), CallOf(Do(s, step).clients[c]);
            after.Some? && after != before ==> before.None? && step == BeginStep(c, after.value)
  {
    OthersKept(s, step, c);
    if c == step.c && !step.BeginStep? {
      OwnCallKept(s, step);
    }
    hide Do;
  }

  lemma {:induction false} OwnCallKept(s: System, step: Step)
    requires Enabled(s, step) && !step.BeginStep?
    ensures |Do(s, step).clients| == |s.clients|
    ensures var after := CallOf(Do(s, step).clients[step.c]); after.Some? ==> after == CallOf(s.clients[step.c])
  {
    hide AtomicReserve, AtomicMark, SqlLength, HasPrefix, Blank;
    hide RowRecord, UpdateRow, InsertRow, RowOf, StatusFor, IdText, NewRecord, Finished, Sendable;
  }

  lemma {:induction false} OthersKept(s: System, step: Step, c: nat)
    requires Enabled(s, step) && c < |s.clients|
    ensures |Do(s, step).clients| == |s.clients|
    ensures c != step.c ==> Do(s, step).clients[c] == s.clients[c]
  {
    hide RowRecord, UpdateRow, InsertRow, RowOf, StatusFor, IdText, NewRecord, Finished, Sendable;
  }

  // ----- The atomic store

  function AtomicDo(m: Records, op: Op): (Records, Response) {
    match op
    case ReserveOp(permit) =>
      var (after, reservation) := AtomicReserve(m, permit);
      (after, ReserveResponse(reservation))
    case MarkOp(permit, t) =>
      var (after, result) := AtomicMark(m, permit, permit, t);
      (after, MarkResponse(result))
  }

  /** The records after one atomic step per call; `None` unless every response is the atomic one. */
  function Replay(h: seq<(Op, Response)>): Option<Records> {
    if h == [] then Some(map[])
    else
      var m :- Replay(h[..|h| - 1]);
      var (op, response) := h[|h| - 1];
      var (after, expected) := AtomicDo(m, op);
      if response == expected then Some(after) else None
  }

  // ----- The invariant

  predicate InTransaction(client: Client) {
    !client.Idle? && !client.Decided?
  }

  ghost predicate TransactionOk(s: System, m: Records, client: Client) {
    match client
    case Begun(op) => s.working == s.durable && Sendable(op)
    case Inserted(permit, inserted) => Holds(s.working, AtomicReserve(m, permit).0) && (inserted <==> permit !in m)
    case Selected(permit, t) =>
      s.working == s.durable && permit in m && m[permit].status == Reserved && !Blank(t.reference)
    case Updated(permit, t) =>
      && permit in m && m[permit].status == Reserved && !Blank(t.reference) && SqlLength(t.reference) > 0
      && Holds(s.working, m[permit := Finished(permit, t)])
    case Ready(op, response) => Holds(s.working, AtomicDo(m, op).0) && response == AtomicDo(m, op).1
    case _ => true
  }

  ghost predicate LockOk(s: System) {
    && (s.lock.Some? ==> s.lock.value < |s.clients|)
    && forall c :: 0 <= c < |s.clients| ==> (InTransaction(s.clients[c]) <==> s.lock == Some(c))
  }

  /** Every decision is returned at most once. */
  ghost predicate ReturnsOk(s: System) {
    && (forall i, j :: 0 <= i < j < |s.returned| ==> s.returned[i] != s.returned[j])
    && (forall i :: 0 <= i < |s.returned| ==> s.returned[i] < |s.decided|)
    && (forall c :: 0 <= c < |s.clients| && s.clients[c].Decided? ==>
          && s.clients[c].index < |s.decided| && s.clients[c].index !in s.returned
          && s.decided[s.clients[c].index].0 == s.clients[c].op)
    && forall c, d :: 0 <= c < d < |s.clients| && s.clients[c].Decided? && s.clients[d].Decided? ==>
         s.clients[c].index != s.clients[d].index
  }

  ghost predicate Inv(s: System) {
    && Replay(s.decided).Some?
    && var m := Replay(s.decided).value;
       && Holds(s.durable, m) && LockOk(s) && ReturnsOk(s)
       && (s.lock.Some? ==> TransactionOk(s, m, s.clients[s.lock.value]))
  }

  lemma {:induction false} ReplaySnoc(h: seq<(Op, Response)>, m: Records, op: Op)
    requires Replay(h) == Some(m)
    ensures Replay(h + [(op, AtomicDo(m, op).1)]) == Some(AtomicDo(m, op).0)
  {
    var h' := h + [(op, AtomicDo(m, op).1)];
    assert h'[..|h'| - 1] == h;
  }

  lemma {:induction false} InitInv(n: nat)
    ensures Inv(Init(n))
  {
  }

  /** A client that moves inside its transaction, leaving the database and the history alone. */
  lemma {:induction false} MovedInv(s: System, c: nat, client: Client, working: Table)
    requires Inv(s) && c < |s.clients| && s.lock == Some(c) && InTransaction(client)
    requires TransactionOk(s.(working := working), Replay(s.decided).value, client)
    ensures Inv(Moved(s, c, client).(working := working))
  {
    hide Holds, Replay, AtomicReserve, AtomicDo;
    assert InTransaction(s.clients[c]);
  }

  lemma {:induction false} AbortInv(s: System, c: nat)
    requires Inv(s) && c < |s.clients|
    ensures Inv(Abort(s, c))
  {
    hide Holds, Replay, AtomicReserve, AtomicDo;
    var s' := Abort(s, c);
    assert forall d :: 0 <= d < |s.clients| && d != c ==> s'.clients[d] == s.clients[d];
  }

  lemma {:induction false} DecideInv(s: System, c: nat, durable: Table, op: Op)
    requires Inv(s) && c < |s.clients| && s.lock == Some(c)
    requires Holds(durable, AtomicDo(Replay(s.decided).value, op).0)
    ensures var response := AtomicDo(Replay(s.decided).value, op).1;
            Inv(Decide(s, c, durable, op, response))
  {
    hide Holds, Replay, AtomicReserve, AtomicDo;
    var m := Replay(s.decided).value;
    var s' := Decide(s, c, durable, op, AtomicDo(m, op).1);
    ReplaySnoc(s.decided, m, op);
    assert forall d :: 0 <= d < |s.clients| && d != c ==> s'.clients[d] == s.clients[d];
  }

  lemma {:induction false} BeginInv(s: System, c: nat, op: Op)
    requires Inv(s) && Enabled(s, BeginStep(c, op))
    ensures Inv(Do(s, BeginStep(c, op)))
  {
    hide Holds, Replay, AtomicReserve, AtomicDo;
    var s' := Do(s, BeginStep(c, op));
    assert forall d :: 0 <= d < |s.clients| && d != c ==> s'.clients[d] == s.clients[d];
  }

  lemma {:induction false} ReturnInv(s: System, c: nat)
    requires Inv(s) && Enabled(s, ReturnStep(c))
    ensures Inv(Do(s, ReturnStep(c)))
  {
    hide Holds, Replay, AtomicReserve, AtomicDo;
    var s' := Do(s, ReturnStep(c));
    assert !InTransaction(s.clients[c]);
    assert forall d :: 0 <= d < |s.clients| && d != c ==> s'.clients[d] == s.clients[d];
  }

  /** An insertion never violates a constraint of the table. */
  lemma {:induction false} InsertNeverFails(s: System, c: nat)
    requires Inv(s) && Enabled(s, InsertStep(c))
    ensures InsertRow(s.working, RowOf(NewRecord(s.clients[c].op.permit))).Some?
    ensures Inv(Do(s, InsertStep(c)))
  {
    hide Holds, Replay, AtomicReserve, AtomicDo, InsertRow, RowOf, NewRecord;
    assert InTransaction(s.clients[c]);
    var permit := s.clients[c].op.permit;
    InsertHolds(s.working, Replay(s.decided).value, permit);
    var (after, inserted) := InsertRow(s.working, RowOf(NewRecord(permit))).value;
    MovedInv(s, c, Inserted(permit, inserted), after);
  }

  lemma {:induction false} HeldRecord(table: Table, m: Records, d: Digest)
    requires Holds(table, m)
    ensures RowRecord(table, d) == if d in m then Some(m[d]) else None
    ensures IdText(d) in table <==> d in m
    ensures d in m ==> m[d].permitDigest == d
  {
    hide Hex, MakeRecord, RecordFromRow, IdText;
    HeldExactly(table, m, d);
    if d in m {
      RecordHeld(table, m, d);
    }
  }

  lemma {:induction false} SelectInv(s: System, c: nat)
    requires Inv(s) && Enabled(s, SelectStep(c))
    ensures Inv(Do(s, SelectStep(c)))
  {
    hide Holds, Replay, RowRecord, IdText;
    var client := s.clients[c];
    assert InTransaction(client);
    var m := Replay(s.decided).value;
    if client.Inserted? {
      var permit := client.permit;
      HeldRecord(s.working, AtomicReserve(m, permit).0, permit);
      var response := ReserveResponse(AtomicReserve(m, permit).1);
      MovedInv(s, c, Ready(ReserveOp(permit), response), s.working);
    } else {
      var (permit, t) := (client.op.permit, client.op.terminal);
      HeldRecord(s.working, m, permit);
      if permit in m && m[permit].status == Reserved {
        MovedInv(s, c, Selected(permit, t), s.working);
      } else {
        DecideInv(s, c, s.durable, MarkOp(permit, t));
      }
    }
  }

  lemma {:induction false} UpdateInv(s: System, c: nat)
    requires Inv(s) && Enabled(s, UpdateStep(c))
    ensures Inv(Do(s, UpdateStep(c)))
  {
    hide Holds, Replay, AtomicReserve, AtomicDo, UpdateRow, RowOf, Finished;
    var client := s.clients[c];
    assert InTransaction(client);
    UpdateHolds(s.working, Replay(s.decided).value, client.permit, client.terminal);
    if SqlLength(client.terminal.reference) == 0 {
      AbortInv(s, c);
      return;
    }
    var (after, matched) := UpdateRow(s.working, RowOf(Finished(client.permit, client.terminal))).value;
    MovedInv(s, c, Updated(client.permit, client.terminal), after);
  }

  lemma {:induction false} RereadInv(s: System, c: nat)
    requires Inv(s) && Enabled(s, RereadStep(c))
    ensures Inv(Do(s, RereadStep(c)))
  {
    hide Holds, Replay, RowRecord, IdText;
    var client := s.clients[c];
    assert InTransaction(client);
    var m := Replay(s.decided).value;
    HeldRecord(s.working, m[client.permit := Finished(client.permit, client.terminal)], client.permit);
    var response := AtomicDo(m, MarkOp(client.permit, client.terminal)).1;
    MovedInv(s, c, Ready(MarkOp(client.permit, client.terminal), response), s.working);
  }

  lemma {:induction false} CommitInv(s: System, c: nat)
    requires Inv(s) && Enabled(s, CommitStep(c))
    ensures Inv(Do(s, CommitStep(c)))
  {
    hide Holds, Replay, AtomicDo;
    assert InTransaction(s.clients[c]);
    DecideInv(s, c, s.working, s.clients[c].op);
  }

  lemma {:induction false} StepInv(s: System, step: Step)
    requires Inv(s) && Enabled(s, step)
    ensures Inv(Do(s, step))
  {
    hide Inv;
    match step
    case BeginStep(c, op) => BeginInv(s, c, op);
    case InsertStep(c) => InsertNeverFails(s, c);
    case SelectStep(c) => SelectInv(s, c);
    case UpdateStep(c) => UpdateInv(s, c);
    case RereadStep(c) => RereadInv(s, c);
    case CommitStep(c) => CommitInv(s, c);
    case ReturnStep(c) => ReturnInv(s, c);
    case FailStep(c) => AbortInv(s, c);
    case CrashStep(c) => AbortInv(s, c);
  }

  /**
    Every step is either invisible, or one call of the atomic store: the history grows by that call
    and its atomic response, and the durable table goes from the atomic store's records before to
    those after.
    */
  lemma {:induction false} StepRefines(s: System, step: Step)
    requires Inv(s) && Enabled(s, step)
    ensures var s' := Do(s, step);
            && Inv(s')
            && (|| (s'.durable == s.durable && s'.decided == s.decided)
                || exists op ::
                     && s'.decided == s.decided + [(op, AtomicDo(Replay(s.decided).value, op).1)]
                     && Holds(s'.durable, AtomicDo(Replay(s.decided).value, op).0))
  {
    hide Holds, Replay, AtomicDo, Do, Enabled;
    StepInv(s, step);
    DoShape(s, step);
    var s' := Do(s, step);
    if s'.decided != s.decided {
      var (op, response) := s'.decided[|s.decided|];
      assert s'.decided[..|s'.decided| - 1] == s.decided;
      HistoryAtomic(s'.decided);
    }
  }

  lemma {:induction false} DoShape(s: System, step: Step)
    requires Enabled(s, step)
    ensures var s' := Do(s, step);
            || (s'.durable == s.durable && s'.decided == s.decided)
            || (|s'.decided| == |s.decided| + 1 && s'.decided == s.decided + [s'.decided[|s.decided|]])
    ensures s.returned <= Do(s, step).returned && |Do(s, step).clients| == |s.clients|
  {
    hide RowRecord, UpdateRow, InsertRow, RowOf, StatusFor, IdText, NewRecord, Finished, Sendable;
  }

  lemma {:induction false} HistoryAtomic(h: seq<(Op, Response)>)
    requires Replay(h).Some? && h != []
    ensures Replay(h[..|h| - 1]).Some?
    ensures var m := Replay(h[..|h| - 1]).value;
            h[|h| - 1].1 == AtomicDo(m, h[|h| - 1].0).1 && Replay(h) == Some(AtomicDo(m, h[|h| - 1].0).0)
  {
    hide AtomicDo;
  }

  // ----- Calls that nothing disturbs

  /** From one state to another by one enabled step. */
  predicate Goes(s: System, step: Step, s': System) {
    Enabled(s, step) && Do(s, step) == s'
  }

  /** The client is out of its call, which was decided as the atomic store decides it, and returned. */
  ghost predicate Completed(s: System, s': System, op: Op)
    requires Replay(s.decided).Some?
  {
    && s'.clients == s.clients && s'.lock.None?
    && s'.decided == s.decided + [(op, AtomicDo(Replay(s.decided).value, op).1)] && s'.returned == s.returned + [|s.decided|]
  }

  /** With the lock free an idle client can always reserve: begin, insert, select, commit, return. */
  lemma {:induction false} ReservePossible(s: System, c: nat, permit: Digest)
    returns (s1: System, s2: System, s3: System, s4: System, s5: System)
    requires Inv(s) && c < |s.clients| && s.clients[c].Idle? && s.lock.None?
    ensures Goes(s, BeginStep(c, ReserveOp(permit)), s1) && Goes(s1, InsertStep(c), s2) && Goes(s2, SelectStep(c), s3)
    ensures Goes(s3, CommitStep(c), s4) && Goes(s4, ReturnStep(c), s5) && Completed(s, s5, ReserveOp(permit))
  {
    hide Holds, Replay, RowRecord, IdText, InsertRow, RowOf, NewRecord, AtomicReserve;
    s1 := Do(s, BeginStep(c, ReserveOp(permit)));
    BeginInv(s, c, ReserveOp(permit));
    s2 := Do(s1, InsertStep(c));
    InsertNeverFails(s1, c);
    s3 := Do(s2, SelectStep(c));
    SelectInv(s2, c);
    HeldRecord(s2.working, AtomicReserve(Replay(s.decided).value, permit).0, permit);
    ReservedRecord(Replay(s.decided).value, permit);
    s4 := Do(s3, CommitStep(c));
    s5 := Do(s4, ReturnStep(c));
    assert s5.clients == s.clients;
  }

  lemma {:induction false} ReservedRecord(m: Records, permit: Digest)
    ensures permit in AtomicReserve(m, permit).0
  {
  }

  /** With the lock free an idle client can always finish a reserved execution: begin, select, update, reread, commit, return. */
  lemma {:induction false} MarkPossible(s: System, c: nat, permit: Digest, t: Terminal)
    returns (s1: System, s2: System, s3: System, s4: System, s5: System, s6: System)
    requires Inv(s) && c < |s.clients| && s.clients[c].Idle? && s.lock.None?
    requires permit in Replay(s.decided).value && Replay(s.decided).value[permit].status == Reserved
    requires !Blank(t.reference) && SqlLength(t.reference) > 0
    ensures Goes(s, BeginStep(c, MarkOp(permit, t)), s1) && Goes(s1, SelectStep(c), s2) && Goes(s2, UpdateStep(c), s3)
    ensures Goes(s3, RereadStep(c), s4) && Goes(s4, CommitStep(c), s5) && Goes(s5, ReturnStep(c), s6)
    ensures Completed(s, s6, MarkOp(permit, t))
  {
    hide Holds, Replay, RowRecord, IdText, UpdateRow, RowOf, Finished, Blank, SqlLength;
    var m := Replay(s.decided).value;
    s1 := Do(s, BeginStep(c, MarkOp(permit, t)));
    BeginInv(s, c, MarkOp(permit, t));
    HeldRecord(s1.working, m, permit);
    s2 := Do(s1, SelectStep(c));
    SelectInv(s1, c);
    s3 := Do(s2, UpdateStep(c));
    UpdateHolds(s2.working, m, permit, t);
    UpdateInv(s2, c);
    s4 := Do(s3, RereadStep(c));
    HeldRecord(s3.working, m[permit := Finished(permit, t)], permit);
    s5 := Do(s4, CommitStep(c));
    s6 := Do(s5, ReturnStep(c));
    assert s6.clients == s.clients;
  }
}
