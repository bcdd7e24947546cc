/**
  The SQLite execution store (sqlite_execution_store.py, execution_enforcement.py,
  domain.py:2854-2942). The database is one table with the schema's constraints, changed only
  inside write transactions; any statement may fail with a database error.
  */
module Store {
  import opened Wrappers
  import opened Utf8
  import opened Domain
  import opened Hexadecimal

  // ----- Records

  datatype ExecutionState = Reserved | Succeeded | Failed

  /** An execution identity is the digest of its permit. */
  datatype ExecutionRecord = ExecutionRecord(
    executionId: Digest, permitDigest: Digest, status: ExecutionState, result: Option<string>, failure: Option<string>)

  predicate NonBlank(reference: Option<string>) {
    reference.None? || !Blank(reference.value)
  }

  function MakeRecord(r: ExecutionRecord): Option<ExecutionRecord> {
    if r.executionId != r.permitDigest || !NonBlank(r.result) || !NonBlank(r.failure) then None
    else
      match r.status
      case Reserved => if r.result.Some? || r.failure.Some? then None else Some(r)
      case Succeeded => if r.result.None? || r.failure.Some? then None else Some(r)
      case Failed => if r.failure.None? || r.result.Some? then None else Some(r)
  }

  datatype ReservationStatus = NewReservation | ExistingReserved | AlreadySucceeded | FailedExisting
  datatype Reservation = Reservation(status: ReservationStatus, record: ExecutionRecord)

  datatype StoreError =
    | DatabaseFailed | MalformedRow | RecordMissing | PermitMismatch | AlreadyTerminal(status: ExecutionState)
    | ChangedConcurrently | BlankReference

  // ----- Rows

  datatype Row = Row(
    executionId: string, permitDigest: string, status: ExecutionState, result: Option<string>, failure: Option<string>)

  /** Rows by primary key. */
  type Table = map<string, Row>

  const DIGEST_PREFIX := "sha256:"
  const ID_PREFIX := "execution:sha256:"

  function DigestText(d: Digest): string { DIGEST_PREFIX + Hex(d) }

  function IdText(d: Digest): string { ID_PREFIX + Hex(d) }

  /** SQL `length` of a text, which stops at a NUL character. */
  function SqlLength(s: string): nat {
    if s == "" || s[0] == '\0' then 0 else 1 + SqlLength(s[1..])
  }

  predicate HasPrefix(s: string, prefix: string) {
    |s| >= |prefix| && s[..|prefix|] == prefix
  }

  /** The CHECK clauses of the schema. */
  predicate RowChecks(r: Row) {
    && SqlLength(r.executionId) == 81 && HasPrefix(r.executionId, ID_PREFIX)
    && SqlLength(r.permitDigest) == 71 && HasPrefix(r.permitDigest, DIGEST_PREFIX)
    && match r.status {
         case Reserved => r.result.None? && r.failure.None?
         case Succeeded => r.result.Some? && SqlLength(r.result.value) > 0 && r.failure.None?
         case Failed => r.result.None? && r.failure.Some? && SqlLength(r.failure.value) > 0
       }
  }

  predicate DigestTaken(table: Table, row: Row) {
    exists key :: key in table && key != row.executionId && table[key].permitDigest == row.permitDigest
  }

  /** INSERT with ON CONFLICT(execution_id) DO NOTHING; other constraints raise. The flag says whether a row was added. */
  function InsertRow(table: Table, row: Row): Option<(Table, bool)> {
    if row.executionId in table then Some((table, false))
    else if DigestTaken(table, row) || !RowChecks(row) then None
    else Some((table[row.executionId := row], true))
  }

  /** The guarded UPDATE of a reserved row; the flag says whether it matched. */
  function UpdateRow(table: Table, row: Row): Option<(Table, bool)> {
    if row.executionId !in table || table[row.executionId].permitDigest != row.permitDigest
       || table[row.executionId].status != Reserved then Some((table, false))
    else if !RowChecks(row) then None
    else Some((table[row.executionId := row], true))
  }

  function DigestFromText(s: string): Option<Digest> {
    if |s| < 7 || s[..7] != DIGEST_PREFIX then None else FromHex(s[7..])
  }

  /** `_record_from_row`. */
  function RecordFromRow(row: Row, id: Digest): Option<ExecutionRecord> {
    if row.executionId != IdText(id) then None
    else
      var d :- DigestFromText(row.permitDigest);
      MakeRecord(ExecutionRecord(id, d, row.status, row.result, row.failure))
  }

  function RowOf(r: ExecutionRecord): Row {
    Row(IdText(r.executionId), DigestText(r.permitDigest), r.status, r.result, r.failure)
  }

  lemma {:induction false} IdTextInjective(d: Digest, e: Digest)
    ensures IdText(d) == IdText(e) <==> d == e
    ensures DigestText(d) == DigestText(e) <==> d == e
  {
    if IdText(d) == IdText(e) {
      assert IdText(d)[17..] == Hex(d) && IdText(e)[17..] == Hex(e);
      HexInjective(d, e);
    }
    if DigestText(d) == DigestText(e) {
      assert DigestText(d)[7..] == Hex(d) && DigestText(e)[7..] == Hex(e);
      HexInjective(d, e);
    }
  }

  /** Whether the schema accepts a record's references. */
  predicate Storable(r: ExecutionRecord) {
    (r.result.Some? ==> SqlLength(r.result.value) > 0) && (r.failure.Some? ==> SqlLength(r.failure.value) > 0)
  }

  lemma {:induction false} SqlLengthPlain(s: string)
    requires forall i :: 0 <= i < |s| ==> s[i] != '\0'
    ensures SqlLength(s) == |s|
  {
    if s != "" {
      SqlLengthPlain(s[1..]);
    }
  }

  lemma {:induction false} TextLengths(d: Digest)
    ensures SqlLength(IdText(d)) == 81 && SqlLength(DigestText(d)) == 71
  {
    HexUnhexed(d);
    HexPlain(d);
    hide Hex;
    SqlLengthPlain(IdText(d));
    SqlLengthPlain(DigestText(d));
  }

  /** A record's row is read back as the record, and passes the schema's checks exactly when its references do. */
  lemma {:induction false} RowRoundTrip(r: ExecutionRecord)
    requires MakeRecord(r) == Some(r)
    ensures RowChecks(RowOf(r)) <==> Storable(r)
    ensures RecordFromRow(RowOf(r), r.executionId) == Some(r)
  {
    hide SqlLength, Hex;
    TextLengths(r.permitDigest);
    HexRoundTrip(r.permitDigest, Hex(r.permitDigest));
    assert DigestText(r.permitDigest)[7..] == Hex(r.permitDigest);
  }

  // ----- The atomic store

  type Records = map<Digest, ExecutionRecord>

  function NewRecord(permit: Digest): ExecutionRecord {
    ExecutionRecord(permit, permit, Reserved, None, None)
  }

  function StatusFor(r: ExecutionRecord, inserted: bool): ReservationStatus {
    if inserted then NewReservation
    else
      match r.status
      case Reserved => ExistingReserved
      case Succeeded => AlreadySucceeded
      case Failed => FailedExisting
  }

  /** Reserving in one indivisible step. */
  function AtomicReserve(m: Records, permit: Digest): (Records, Reservation) {
    if permit in m then (m, Reservation(StatusFor(m[permit], false), m[permit]))
    else (m[permit := NewRecord(permit)], Reservation(NewReservation, NewRecord(permit)))
  }

  /** The constructor of a reservation result: its status has to be that of a record in this state. */
  predicate StatusFits(r: Reservation) {
    match r.status
    case NewReservation => r.record.status == Reserved
    case ExistingReserved => r.record.status == Reserved
    case AlreadySucceeded => r.record.status == Succeeded
    case FailedExisting => r.record.status == Failed
  }

  /**
    The answer to a reservation passes its constructor's check, carries the record that is stored
    afterwards, and is NEW_RESERVATION exactly when there was none.
    */
  lemma {:induction false} ReservationAnswers(m: Records, permit: Digest)
    ensures var (after, r) := AtomicReserve(m, permit);
            && StatusFits(r) && permit in after && r.record == after[permit]
            && (r.status == NewReservation <==> permit !in m)
            && forall d :: d != permit ==> (d in after <==> d in m) && (d in m ==> after[d] == m[d])
  {
  }

  /** A terminal transition: to success with a result, or to failure with a failure reference. */
  datatype Terminal = AsSucceeded(reference: string) | AsFailed(reference: string)

  function Finished(permit: Digest, t: Terminal): ExecutionRecord {
    match t
    case AsSucceeded(reference) => ExecutionRecord(permit, permit, Succeeded, Some(reference), None)
    case AsFailed(reference) => ExecutionRecord(permit, permit, Failed, None, Some(reference))
  }

  /** Marking in one indivisible step. */
  function AtomicMark(m: Records, id: Digest, permit: Digest, t: Terminal): (Records, Result<ExecutionRecord, StoreError>) {
    if Blank(t.reference) then (m, Failure(BlankReference))
    else if id != permit then (m, Failure(PermitMismatch))
    else if id !in m then (m, Failure(RecordMissing))
    else if m[id].status != Reserved then (m, Failure(AlreadyTerminal(m[id].status)))
    else if SqlLength(t.reference) == 0 then (m, Failure(DatabaseFailed))
    else (m[id := Finished(permit, t)], Success(Finished(permit, t)))
  }

  /**
    Of the references the program accepts for a reserved record, the schema refuses exactly those
    whose first character is NUL, in either terminal transition; nothing is changed then. There
    are such references.
    */
  lemma {:induction false} NulReferenceRefused(m: Records, permit: Digest, t: Terminal)
    requires permit in m && m[permit].status == Reserved && !Blank(t.reference)
    ensures t.reference != ""
    ensures t.reference[0] == '\0' <==> AtomicMark(m, permit, permit, t) == (m, Failure(DatabaseFailed))
    ensures t.reference[0] != '\0' <==>
              AtomicMark(m, permit, permit, t) == (m[permit := Finished(permit, t)], Success(Finished(permit, t)))
    ensures !Blank("\0x")
  {
    hide Finished;
    assert Blank("");
    assert !Whitespace("\0x"[0]);
  }

  /** The table holds exactly the rows of the records, each under its own identity. */
  ghost predicate Holds(table: Table, m: Records) {
    && (forall d :: d in m ==> m[d].executionId == d && MakeRecord(m[d]) == Some(m[d]) && Storable(m[d]))
    && (forall d :: d in m ==> IdText(d) in table && table[IdText(d)] == RowOf(m[d]))
    && forall key :: key in table ==> exists d :: d in m && IdText(d) == key
  }

  lemma {:induction false} HeldExactly(table: Table, m: Records, d: Digest)
    requires Holds(table, m)
    ensures IdText(d) in table <==> d in m
    ensures d in m ==> table[IdText(d)] == RowOf(m[d]) && RecordFromRow(RowOf(m[d]), d) == Some(m[d])
  {
    hide Hex, MakeRecord;
    if IdText(d) in table {
      var e :| e in m && IdText(e) == IdText(d);
      IdTextInjective(d, e);
    }
    if d in m {
      RowRoundTrip(m[d]);
    }
  }

  /** Inserting a reservation does what the atomic step does: the second uniqueness constraint cannot fire. */
  lemma {:induction false} InsertHolds(table: Table, m: Records, d: Digest)
    requires Holds(table, m)
    ensures InsertRow(table, RowOf(NewRecord(d))).Some?
    ensures var (after, inserted) := InsertRow(table, RowOf(NewRecord(d))).value;
            && Holds(after, AtomicReserve(m, d).0) && (inserted <==> d !in m)
  {
    hide Hex, MakeRecord, RowChecks, RecordFromRow;
    var row := RowOf(NewRecord(d));
    HeldExactly(table, m, d);
    NewRecordValid(d);
    RowRoundTrip(NewRecord(d));
    if d !in m {
      forall key | key in table ensures table[key].permitDigest != row.permitDigest {
        var e :| e in m && IdText(e) == key;
        RecordIdentity(m[e]);
        IdTextInjective(d, e);
      }
      HoldsAfter(table, m, NewRecord(d));
    }
  }

  lemma {:induction false} NewRecordValid(d: Digest)
    ensures MakeRecord(NewRecord(d)) == Some(NewRecord(d))
  {
  }

  lemma {:induction false} RecordIdentity(r: ExecutionRecord)
    requires MakeRecord(r) == Some(r)
    ensures r.executionId == r.permitDigest
  {
  }

  lemma {:induction false} HoldsAfter(table: Table, m: Records, r: ExecutionRecord)
    requires Holds(table, m) && MakeRecord(r) == Some(r) && Storable(r)
    ensures Holds(table[IdText(r.executionId) := RowOf(r)], m[r.executionId := r])
  {
    hide Hex, MakeRecord, Storable, RowOf, IdText;
    var table', m' := table[IdText(r.executionId) := RowOf(r)], m[r.executionId := r];
    forall d | d in m' ensures IdText(d) in table' && table'[IdText(d)] == RowOf(m'[d]) {
      IdTextInjective(d, r.executionId);
    }
    forall key | key in table' ensures exists d :: d in m' && IdText(d) == key {
      if key == IdText(r.executionId) {
        assert r.executionId in m';
      } else {
        var d :| d in m && IdText(d) == key;
        assert d in m';
      }
    }
  }

  lemma {:induction false} FinishedValid(d: Digest, t: Terminal)
    requires !Blank(t.reference)
    ensures MakeRecord(Finished(d, t)) == Some(Finished(d, t))
    ensures Storable(Finished(d, t)) <==> SqlLength(t.reference) > 0
    ensures Finished(d, t).executionId == Finished(d, t).permitDigest == d
  {
    hide Blank, SqlLength;
  }

  /** The guarded update of a reserved row does what the atomic step does, and raises when the schema refuses the reference. */
  lemma {:induction false} UpdateHolds(table: Table, m: Records, d: Digest, t: Terminal)
    requires Holds(table, m) && d in m && m[d].status == Reserved && !Blank(t.reference)
    ensures UpdateRow(table, RowOf(Finished(d, t))).Some? <==> SqlLength(t.reference) > 0
    ensures SqlLength(t.reference) > 0 ==>
            var (after, matched) := UpdateRow(table, RowOf(Finished(d, t))).value;
            matched && Holds(after, m[d := Finished(d, t)]) && AtomicMark(m, d, d, t).0 == m[d := Finished(d, t)]
  {
    hide Hex, RowChecks, RecordFromRow, Holds, MakeRecord, Storable, Finished, Blank, SqlLength, IdText, DigestText;
    HeldExactly(table, m, d);
    FinishedValid(d, t);
    RowRoundTrip(Finished(d, t));
    RecordHeld(table, m, d);
    if SqlLength(t.reference) > 0 {
      HoldsAfter(table, m, Finished(d, t));
    }
  }

  lemma {:induction false} RecordHeld(table: Table, m: Records, d: Digest)
    requires Holds(table, m) && d in m
    ensures m[d].permitDigest == d == m[d].executionId
  {
    hide Storable, IdText, RowOf;
    RecordIdentity(m[d]);
  }

  // ----- The store

  /** Where the database may fail. */
  datatype Statement = BeginStatement | InsertStatement | SelectStatement | UpdateStatement | RereadStatement | CommitStatement

  class ExecutionStore {
    /** The committed table, the table as the open transaction sees it, and whether one is open. */
    var durable: Table
    var working: Table
    var open: bool
    ghost var records: Records

    ghost predicate Valid()
      reads this
    {
      !open && Holds(durable, records)
    }

    constructor ()
      ensures Valid() && records == map[]
    {
      durable, working, open := map[], map[], false;
      records := map[];
    }

    method Begin()
      requires !open
      modifies `working, `open
      ensures open && working == durable
    {
      working, open := durable, true;
    }

    method Commit()
      requires open
      modifies `durable, `open
      ensures !open && durable == working
    {
      durable, open := working, false;
    }

    method Rollback()
      modifies `open
      ensures !open
    {
      open := false;
    }

    /*
      A branch that raises over a missing, malformed or foreign row, or over an update that matched
      nothing, is shown unreachable where it stands.
      */

    /**
      `reserve`: exactly the atomic step, or, when the database fails, a rollback that leaves no
      trace. No other failure is possible: after the commit neither the check of a new record's
      state nor the constructor of the answer raises.
      */
    method Reserve(permit: Digest, faults: set<Statement>) returns (r: Result<Reservation, StoreError>)
      requires Valid()
      modifies this
      ensures Valid()
      ensures r.Success? ==> (records, r.value) == AtomicReserve(old(records), permit)
      ensures r.Success? ==> StatusFits(r.value)
      ensures r.Failure? ==> records == old(records) && r.error == DatabaseFailed && faults != {}
    {
      hide RowChecks, MakeRecord, Holds, DigestTaken, RecordFromRow;
      if BeginStatement in faults {
        return Failure(DatabaseFailed);
      }
      Begin();
      InsertHolds(working, records, permit);
      var inserting := InsertRow(working, RowOf(NewRecord(permit)));
      if InsertStatement in faults || inserting.None? {
        Rollback();
        return Failure(DatabaseFailed);
      }
      var (after, inserted) := inserting.value;
      working := after;
      HeldExactly(working, AtomicReserve(records, permit).0, permit);
      if SelectStatement in faults {
        Rollback();
        return Failure(DatabaseFailed);
      }
      if IdText(permit) !in working {
        assert false;
      }
      var record := RecordFromRow(working[IdText(permit)], permit);
      if record.None? {
        assert false;
      }
      if CommitStatement in faults {
        Rollback();
        return Failure(DatabaseFailed);
      }
      Commit();
      ghost var before := records;
      records := AtomicReserve(records, permit).0;
      ReservationAnswers(before, permit);
      if inserted && record.value.status != Reserved {
        assert false;
      }
      var reservation := Reservation(StatusFor(record.value, inserted), record.value);
      if !StatusFits(reservation) {
        assert false;
      }
      return Success(reservation);
    }

    /** `get`, outside any transaction: the record if there is one, unless the read itself fails. */
    method Get(id: Digest, faults: set<Statement>) returns (r: Result<Option<ExecutionRecord>, StoreError>)
      requires Valid()
      ensures r.Success? ==> r.value == if id in records then Some(records[id]) else None
      ensures r.Failure? <==> SelectStatement in faults
      ensures r.Failure? ==> r.error == DatabaseFailed
    {
      hide MakeRecord, Holds, RecordFromRow;
      HeldExactly(durable, records, id);
      if SelectStatement in faults {
        return Failure(DatabaseFailed);
      }
      if IdText(id) !in durable {
        return Success(None);
      }
      var record := RecordFromRow(durable[IdText(id)], id);
      if record.None? {
        assert false;
      }
      return Success(record);
    }

    /**
      `mark_succeeded` and `mark_failed`: exactly the atomic step, refusals included, or a rollback
      after a database failure.
      */
    method MarkTerminal(id: Digest, permit: Digest, t: Terminal, faults: set<Statement>)
      returns (r: Result<ExecutionRecord, StoreError>)
      requires Valid()
      modifies this
      ensures Valid()
      ensures (records, r) == AtomicMark(old(records), id, permit, t)
              || (r == Failure(DatabaseFailed) && records == old(records) && faults != {})
    {
      hide RowChecks, MakeRecord, Holds, RecordFromRow;
      if Blank(t.reference) {
        return Failure(BlankReference);
      }
      if id != permit {
        return Failure(PermitMismatch);
      }
      if BeginStatement in faults {
        return Failure(DatabaseFailed);
      }
      Begin();
      HeldExactly(working, records, id);
      if SelectStatement in faults {
        Rollback();
        return Failure(DatabaseFailed);
      }
      if IdText(id) !in working {
        Rollback();
        return Failure(RecordMissing);
      }
      var current := RecordFromRow(working[IdText(id)], id);
      if current.None? {
        assert false;
      }
      RecordHeld(durable, records, id);
      if current.value.permitDigest != permit {
        assert false;
      }
      if current.value.status != Reserved {
        Rollback();
        return Failure(AlreadyTerminal(current.value.status));
      }
      UpdateHolds(working, records, id, t);
      var updating := UpdateRow(working, RowOf(Finished(permit, t)));
      if UpdateStatement in faults || updating.None? {
        Rollback();
        return Failure(DatabaseFailed);
      }
      var (after, matched) := updating.value;
      if !matched {
        assert false;
      }
      working := after;
      ghost var next := AtomicMark(records, id, permit, t).0;
      HeldExactly(working, next, id);
      if RereadStatement in faults {
        Rollback();
        return Failure(DatabaseFailed);
      }
      var record := RecordFromRow(working[IdText(id)], id);
      if CommitStatement in faults {
        Rollback();
        return Failure(DatabaseFailed);
      }
      Commit();
      records := next;
      return Success(record.value);
    }

    /** A success is stored and returned with its result, and with no failure. */
    method MarkSucceeded(id: Digest, permit: Digest, reference: string, faults: set<Statement>)
      returns (r: Result<ExecutionRecord, StoreError>)
      requires Valid()
      modifies this
      ensures Valid()
      ensures r.Success? ==>
                && id == permit && permit in old(records) && old(records)[permit].status == Reserved
                && r.value == ExecutionRecord(permit, permit, Succeeded, Some(reference), None)
                && records == old(records)[permit := r.value]
      ensures r.Failure? ==> records == old(records)
    {
      hide Holds;
      r := MarkTerminal(id, permit, AsSucceeded(reference), faults);
    }

    /** A failure is stored and returned with its reference, and with no result. */
    method MarkFailed(id: Digest, permit: Digest, reference: string, faults: set<Statement>)
      returns (r: Result<ExecutionRecord, StoreError>)
      requires Valid()
      modifies this
      ensures Valid()
      ensures r.Success? ==>
                && id == permit && permit in old(records) && old(records)[permit].status == Reserved
                && r.value == ExecutionRecord(permit, permit, Failed, None, Some(reference))
                && records == old(records)[permit := r.value]
      ensures r.Failure? ==> records == old(records)
    {
      hide Holds;
      r := MarkTerminal(id, permit, AsFailed(reference), faults);
    }
  }
}
