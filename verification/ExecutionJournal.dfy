/**
  The SQLite execution journal: two tables, five atomic calls, and the rollback of a raising call.
  The operations table is grouped by transaction, each group in insertion order; every query of the
  source selects the rows of one transaction.
 */
module ExecutionJournal {
  import opened Common
  import opened Ordering

  // --- Contracts -------------------------------------------------------------------------

  datatype PlannedOperation = PlannedOperation(
    operationId: string, sequence: nat, provider: string, action: string, target: string,
    payloadDigest: string, idempotencyKey: string)

  datatype PlanData = PlanData(authorizationId: string, planDigest: string, operations: seq<PlannedOperation>)

  /** Nonempty, numbered from zero, with distinct operation ids and idempotency keys. */
  predicate ValidPlan(p: PlanData) {
    && p.operations != []
    && (forall i :: 0 <= i < |p.operations| ==> p.operations[i].sequence == i)
    && (forall i, j :: 0 <= i < j < |p.operations| ==>
          && p.operations[i].operationId != p.operations[j].operationId
          && p.operations[i].idempotencyKey != p.operations[j].idempotencyKey)
  }

  type AuthorizedPlan = p: PlanData | ValidPlan(p)
    witness PlanData("authorization", "digest", [PlannedOperation("operation", 0, "", "", "", "", "")])

  datatype WriteReceipt = WriteReceipt(
    operationId: string, provider: string, providerRecordId: string, idempotencyKey: string,
    writeDigest: string, changed: bool)

  datatype ReadbackReceipt = ReadbackReceipt(
    operationId: string, providerRecordId: string, readbackDigest: string)

  datatype ExecutedOperation = ExecutedOperation(
    operationId: string, provider: string, providerRecordId: string, idempotencyKey: string,
    writeDigest: string, readbackDigest: string, changed: bool)

  datatype TransactionReceipt = TransactionReceipt(
    transactionId: string, authorizationId: string, planDigest: string,
    operationReceipts: seq<ExecutedOperation>, providerWrites: nat)

  // --- Tables ----------------------------------------------------------------------------

  datatype TransactionState = Prepared | Executing | Failed | Completed

  datatype TransactionRow = TransactionRow(
    authorizationId: string, planDigest: string, state: TransactionState, providerWrites: nat,
    failureReason: Option<string>, receipt: Option<TransactionReceipt>)

  datatype OperationState = OpPrepared | OpWritten | OpVerified | OpFailed

  datatype OperationRow = OperationRow(
    operation: PlannedOperation, state: OperationState, attempts: nat,
    providerRecordId: Option<string>, writeDigest: Option<string>, readbackDigest: Option<string>,
    changed: Option<bool>)

  datatype Journal = Journal(
    transactions: map<string, TransactionRow>, operations: map<string, seq<OperationRow>>)

  datatype JournalError =
    | TransactionIdRequired
    | IdentityDisagrees
    | AlreadyCompleted
    | OperationsDisagree
    | IntegrityViolation
    | WriteOperationMismatch
    | WriteProviderMismatch
    | WriteKeyMismatch
    | UnknownOperation
    | MetadataDisagrees
    | ReadbackBeforeWrite
    | ReadbackRecordMismatch
    | ReadbackDigestMismatch
    | UnknownTransaction
    | ReceiptIdentityMismatch
    | NotEveryOperationVerified
    | ReceiptOperationsMismatch

  function RowsOf(j: Journal, t: string): seq<OperationRow> {
    if t in j.operations then j.operations[t] else []
  }

  predicate SequenceLe(a: OperationRow, b: OperationRow) {
    a.operation.sequence <= b.operation.sequence
  }

  /** `SELECT ... WHERE transaction_id = ? ORDER BY sequence`. */
  function RowsInOrder(j: Journal, t: string): seq<OperationRow> {
    SortBy(RowsOf(j, t), SequenceLe)
  }

  function Operations(rows: seq<OperationRow>): (r: seq<PlannedOperation>)
    ensures |r| == |rows|
    ensures forall i :: 0 <= i < |r| ==> r[i] == rows[i].operation
  {
    seq(|rows|, i requires 0 <= i < |rows| => rows[i].operation)
  }

  function OperationIds(rows: seq<OperationRow>): (r: seq<string>)
    ensures |r| == |rows|
    ensures forall i :: 0 <= i < |r| ==> r[i] == rows[i].operation.operationId
  {
    seq(|rows|, i requires 0 <= i < |rows| => rows[i].operation.operationId)
  }

  function ReceiptIds(receipts: seq<ExecutedOperation>): (r: seq<string>)
    ensures |r| == |receipts|
    ensures forall i :: 0 <= i < |r| ==> r[i] == receipts[i].operationId
  {
    seq(|receipts|, i requires 0 <= i < |receipts| => receipts[i].operationId)
  }

  /** `SELECT ... WHERE transaction_id = ? AND operation_id = ?`, by position. */
  function FindRow(rows: seq<OperationRow>, operationId: string): (r: Option<nat>)
    ensures r.Some? ==> r.value < |rows| && rows[r.value].operation.operationId == operationId
  {
    if rows == [] then None
    else if FindRow(rows[..|rows| - 1], operationId).Some? then FindRow(rows[..|rows| - 1], operationId)
    else if rows[|rows| - 1].operation.operationId == operationId then Some(|rows| - 1)
    else None
  }

  lemma {:induction false} FindRowMisses(rows: seq<OperationRow>, operationId: string)
    requires FindRow(rows, operationId).None?
    ensures forall i :: 0 <= i < |rows| ==> rows[i].operation.operationId != operationId
  {
    if rows != [] {
      FindRowMisses(rows[..|rows| - 1], operationId);
      assert forall i :: 0 <= i < |rows| - 1 ==> rows[..|rows| - 1][i] == rows[i];
    }
  }

  /** `UPDATE ... WHERE transaction_id = ? AND operation_id = ?`. */
  function UpdateRows(
      rows: seq<OperationRow>, operationId: string, f: OperationRow -> OperationRow): (r: seq<OperationRow>)
    ensures |r| == |rows|
  {
    seq(|rows|, i requires 0 <= i < |rows| =>
      if rows[i].operation.operationId == operationId then f(rows[i]) else rows[i])
  }

  lemma {:induction false} UpdateRowsAt(rows: seq<OperationRow>, operationId: string, f: OperationRow -> OperationRow)
    ensures forall i :: 0 <= i < |rows| ==>
      UpdateRows(rows, operationId, f)[i]
        == if rows[i].operation.operationId == operationId then f(rows[i]) else rows[i]
  {
  }

  function WithRows(j: Journal, t: string, rows: seq<OperationRow>): Journal {
    if t in j.operations then j.(operations := j.operations[t := rows]) else j
  }

  function WithTransaction(j: Journal, t: string, row: TransactionRow): Journal {
    j.(transactions := j.transactions[t := row])
  }

  // --- begin -----------------------------------------------------------------------------

  function NewRow(operation: PlannedOperation): OperationRow {
    OperationRow(operation, OpPrepared, 0, None, None, None, None)
  }

  function NewRows(operations: seq<PlannedOperation>): (r: seq<OperationRow>)
    ensures |r| == |operations|
    ensures forall i :: 0 <= i < |r| ==> r[i] == NewRow(operations[i])
  {
    seq(|operations|, i requires 0 <= i < |operations| => NewRow(operations[i]))
  }

  predicate SameKey(a: PlannedOperation, b: PlannedOperation) {
    a.provider == b.provider && a.idempotencyKey == b.idempotencyKey
  }

  /** Some stored row already uses this provider and idempotency key. */
  predicate KeyTaken(j: Journal, operation: PlannedOperation) {
    exists t, i :: t in j.operations && 0 <= i < |j.operations[t]| && SameKey(j.operations[t][i].operation, operation)
  }

  function Begin(j: Journal, plan: AuthorizedPlan, t: string): (Journal, Option<JournalError>) {
    if Blank(t) then (j, Some(TransactionIdRequired))
    else if t in j.transactions then
      var existing := j.transactions[t];
      if existing.authorizationId != plan.authorizationId || existing.planDigest != plan.planDigest then
        (j, Some(IdentityDisagrees))
      else if existing.state.Completed? then (j, Some(AlreadyCompleted))
      else if Operations(RowsInOrder(j, t)) != plan.operations then (j, Some(OperationsDisagree))
      else (WithTransaction(j, t, existing.(state := Prepared, failureReason := None)), None)
    else if exists i :: 0 <= i < |plan.operations| && KeyTaken(j, plan.operations[i]) then
      (j, Some(IntegrityViolation))
    else
      (Journal(
         j.transactions[t := TransactionRow(plan.authorizationId, plan.planDigest, Prepared, 0, None, None)],
         j.operations[t := NewRows(plan.operations)]),
       None)
  }

  // --- record_write ----------------------------------------------------------------------

  function MarkWritten(row: OperationRow, receipt: WriteReceipt): OperationRow {
    row.(state := OpWritten, attempts := row.attempts + 1,
         providerRecordId := Some(receipt.providerRecordId),
         writeDigest := Some(receipt.writeDigest), changed := Some(receipt.changed))
  }

  function RecordWrite(j: Journal, operation: PlannedOperation, receipt: WriteReceipt, t: string)
    : (Journal, Option<JournalError>)
  {
    if receipt.operationId != operation.operationId then (j, Some(WriteOperationMismatch))
    else if receipt.provider != operation.provider then (j, Some(WriteProviderMismatch))
    else if receipt.idempotencyKey != operation.idempotencyKey then (j, Some(WriteKeyMismatch))
    else
      var rows := RowsOf(j, t);
      var found := FindRow(rows, operation.operationId);
      if found.None? then (j, Some(UnknownOperation))
      else if rows[found.value].operation != operation then (j, Some(MetadataDisagrees))
      else
        var j1 := WithRows(j, t, UpdateRows(rows, operation.operationId, row => MarkWritten(row, receipt)));
        (if t in j1.transactions then WithTransaction(j1, t, j1.transactions[t].(state := Executing)) else j1, None)
  }

  // --- record_readback -------------------------------------------------------------------

  function MarkVerified(row: OperationRow, receipt: ReadbackReceipt): OperationRow {
    row.(state := OpVerified, readbackDigest := Some(receipt.readbackDigest))
  }

  function RecordReadback(j: Journal, receipt: ReadbackReceipt, t: string): (Journal, Option<JournalError>) {
    var rows := RowsOf(j, t);
    var found := FindRow(rows, receipt.operationId);
    if found.None? then (j, Some(UnknownOperation))
    else
      var row := rows[found.value];
      if !row.state.OpWritten? then (j, Some(ReadbackBeforeWrite))
      else if row.providerRecordId != Some(receipt.providerRecordId) then (j, Some(ReadbackRecordMismatch))
      else if row.writeDigest != Some(receipt.readbackDigest) then (j, Some(ReadbackDigestMismatch))
      else (WithRows(j, t, UpdateRows(rows, receipt.operationId, r => MarkVerified(r, receipt))), None)
  }

  // --- fail ------------------------------------------------------------------------------

  const REASON_LIMIT: nat := 4000

  function Truncated(reason: string): string {
    if |reason| <= REASON_LIMIT then reason else reason[..REASON_LIMIT]
  }

  function MarkFailed(row: OperationRow): OperationRow {
    row.(state := OpFailed)
  }

  function Fail(j: Journal, t: string, operationId: Option<string>, reason: string): Journal {
    var j1 :=
      if t in j.transactions then
        WithTransaction(j, t, j.transactions[t].(state := Failed, failureReason := Some(Truncated(reason))))
      else j;
    if operationId.None? then j1 else WithRows(j1, t, UpdateRows(RowsOf(j1, t), operationId.value, MarkFailed))
  }

  // --- complete --------------------------------------------------------------------------

  function Complete(j: Journal, receipt: TransactionReceipt): (Journal, Option<JournalError>) {
    var t := receipt.transactionId;
    if t !in j.transactions then (j, Some(UnknownTransaction))
    else if j.transactions[t].authorizationId != receipt.authorizationId
            || j.transactions[t].planDigest != receipt.planDigest then
      (j, Some(ReceiptIdentityMismatch))
    else
      var rows := RowsInOrder(j, t);
      if rows == [] || exists i :: 0 <= i < |rows| && !rows[i].state.OpVerified? then
        (j, Some(NotEveryOperationVerified))
      else if ReceiptIds(receipt.operationReceipts) != OperationIds(rows) then
        (j, Some(ReceiptOperationsMismatch))
      else
        (WithTransaction(j, t, j.transactions[t].(
           state := Completed, providerWrites := receipt.providerWrites, failureReason := None,
           receipt := Some(receipt))),
         None)
  }

  // --- The journal object ----------------------------------------------------------------

  class SQLiteExecutionJournal {
    var transactions: map<string, TransactionRow>
    var operations: map<string, seq<OperationRow>>

    constructor ()
      ensures State() == Journal(map[], map[])
    {
      transactions, operations := map[], map[];
    }

    function State(): Journal
      reads this
    {
      Journal(transactions, operations)
    }

    /** A write to the tables; a raising call never reaches it, or undoes it. */
    method Store(j: Journal)
      modifies this
      ensures State() == j
    {
      transactions, operations := j.transactions, j.operations;
    }

    method BeginTransaction(plan: AuthorizedPlan, t: string) returns (error: Option<JournalError>)
      modifies this
      ensures (State(), error) == Begin(old(State()), plan, t)
    {
      if Blank(t) { return Some(TransactionIdRequired); }
      if t in transactions {
        var existing := transactions[t];
        if existing.authorizationId != plan.authorizationId || existing.planDigest != plan.planDigest {
          return Some(IdentityDisagrees);
        }
        if existing.state.Completed? { return Some(AlreadyCompleted); }
        if Operations(RowsInOrder(State(), t)) != plan.operations { return Some(OperationsDisagree); }
        transactions := transactions[t := existing.(state := Prepared, failureReason := None)];
        return None;
      }
      var saved := State();
      transactions := transactions[t := TransactionRow(plan.authorizationId, plan.planDigest, Prepared, 0, None, None)];
      var inserted: seq<OperationRow> := [];
      for i := 0 to |plan.operations|
        invariant inserted == NewRows(plan.operations[..i])
        invariant forall k :: 0 <= k < i ==> !KeyTaken(saved, plan.operations[k])
        invariant operations == saved.operations
        invariant transactions == saved.transactions[
          t := TransactionRow(plan.authorizationId, plan.planDigest, Prepared, 0, None, None)]
      {
        if KeyTaken(saved, plan.operations[i]) || OwnConflict(inserted, plan.operations[i]) {
          NoOwnConflict(plan, inserted, i);
          Store(saved);
          return Some(IntegrityViolation);
        }
        inserted := inserted + [NewRow(plan.operations[i])];
      }
      assert plan.operations[..|plan.operations|] == plan.operations;
      operations := operations[t := inserted];
      error := None;
    }

    method RecordProviderWrite(operation: PlannedOperation, receipt: WriteReceipt, t: string)
      returns (error: Option<JournalError>)
      modifies this
      ensures (State(), error) == RecordWrite(old(State()), operation, receipt, t)
    {
      if receipt.operationId != operation.operationId { return Some(WriteOperationMismatch); }
      if receipt.provider != operation.provider { return Some(WriteProviderMismatch); }
      if receipt.idempotencyKey != operation.idempotencyKey { return Some(WriteKeyMismatch); }
      var rows := RowsOf(State(), t);
      var found := FindRow(rows, operation.operationId);
      if found.None? { return Some(UnknownOperation); }
      if rows[found.value].operation != operation { return Some(MetadataDisagrees); }
      operations := operations[t := UpdateRows(rows, operation.operationId, row => MarkWritten(row, receipt))];
      if t in transactions {
        transactions := transactions[t := transactions[t].(state := Executing)];
      }
      error := None;
    }

    method RecordProviderReadback(receipt: ReadbackReceipt, t: string) returns (error: Option<JournalError>)
      modifies this
      ensures (State(), error) == RecordReadback(old(State()), receipt, t)
    {
      var rows := RowsOf(State(), t);
      var found := FindRow(rows, receipt.operationId);
      if found.None? { return Some(UnknownOperation); }
      var row := rows[found.value];
      if !row.state.OpWritten? { return Some(ReadbackBeforeWrite); }
      if row.providerRecordId != Some(receipt.providerRecordId) { return Some(ReadbackRecordMismatch); }
      if row.writeDigest != Some(receipt.readbackDigest) { return Some(ReadbackDigestMismatch); }
      operations := operations[t := UpdateRows(rows, receipt.operationId, r => MarkVerified(r, receipt))];
      error := None;
    }

    method FailTransaction(t: string, operationId: Option<string>, reason: string)
      modifies this
      ensures State() == Fail(old(State()), t, operationId, reason)
    {
      if t in transactions {
        transactions := transactions[t := transactions[t].(state := Failed, failureReason := Some(Truncated(reason)))];
      }
      if operationId.Some? && t in operations {
        operations := operations[t := UpdateRows(operations[t], operationId.value, MarkFailed)];
      }
    }

    method CompleteTransaction(receipt: TransactionReceipt) returns (error: Option<JournalError>)
      modifies this
      ensures (State(), error) == Complete(old(State()), receipt)
    {
      var t := receipt.transactionId;
      if t !in transactions { return Some(UnknownTransaction); }
      var transaction := transactions[t];
      if transaction.authorizationId != receipt.authorizationId || transaction.planDigest != receipt.planDigest {
        return Some(ReceiptIdentityMismatch);
      }
      var rows := RowsInOrder(State(), t);
      if rows == [] || exists i :: 0 <= i < |rows| && !rows[i].state.OpVerified? {
        return Some(NotEveryOperationVerified);
      }
      if ReceiptIds(receipt.operationReceipts) != OperationIds(rows) { return Some(ReceiptOperationsMismatch); }
      transactions := transactions[t := transaction.(
        state := Completed, providerWrites := receipt.providerWrites, failureReason := None,
        receipt := Some(receipt))];
      error := None;
    }
  }

  /** A row of the same statement already holds the operation's id or key. */
  predicate OwnConflict(inserted: seq<OperationRow>, operation: PlannedOperation) {
    exists k :: 0 <= k < |inserted|
      && (inserted[k].operation.operationId == operation.operationId || SameKey(inserted[k].operation, operation))
  }

  lemma {:induction false} NoOwnConflict(plan: AuthorizedPlan, inserted: seq<OperationRow>, i: nat)
    requires i < |plan.operations| && inserted == NewRows(plan.operations[..i])
    ensures !OwnConflict(inserted, plan.operations[i])
  {
  }
}
