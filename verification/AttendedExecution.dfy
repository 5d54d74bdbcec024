/**
  Attended execution of one authorised plan: write, record, read back, record, for each operation,
  then complete; any failure in between is recorded on the journal and raised.
 */
module AttendedExecution {
  import opened Common
  import opened ExecutionJournal
  import opened JournalGuarantees

  /** What the provider port does with one operation: a receipt, or an exception with its text. */
  datatype Response = Response(write: Result<WriteReceipt, string>, readback: Result<ReadbackReceipt, string>)

  datatype ExecutionError =
    | TransactionIdMissing
    | GuardRefused
    | JournalRefused(journalError: JournalError)
    | ProviderFailed(text: string)
    | DifferentOperation
    | DifferentProvider
    | ChangedKey
    | ReadbackDifferentOperation
    | ReadbackDifferentRecord
    | ReadbackMismatch

  /** `str(error)`. */
  type ErrorText = ExecutionError -> string

  function ValidateWrite(operation: PlannedOperation, receipt: WriteReceipt): Option<ExecutionError> {
    if receipt.operationId != operation.operationId then Some(DifferentOperation)
    else if receipt.provider != operation.provider then Some(DifferentProvider)
    else if receipt.idempotencyKey != operation.idempotencyKey then Some(ChangedKey)
    else None
  }

  function ValidateReadback(write: WriteReceipt, readback: ReadbackReceipt): Option<ExecutionError> {
    if readback.operationId != write.operationId then Some(ReadbackDifferentOperation)
    else if readback.providerRecordId != write.providerRecordId then Some(ReadbackDifferentRecord)
    else if readback.readbackDigest != write.writeDigest then Some(ReadbackMismatch)
    else None
  }

  function Executed(operation: PlannedOperation, write: WriteReceipt, readback: ReadbackReceipt): ExecutedOperation {
    ExecutedOperation(operation.operationId, operation.provider, write.providerRecordId, operation.idempotencyKey,
                      write.writeDigest, readback.readbackDigest, write.changed)
  }

  /** The loop body: the journal it leaves and its receipt or exception. */
  function ExecuteOperation(j: Journal, operation: PlannedOperation, t: string, response: Response)
    : (Journal, Result<ExecutedOperation, ExecutionError>)
  {
    if response.write.Err? then (j, Err(ProviderFailed(response.write.error)))
    else
      var write := response.write.value;
      var writeFault := ValidateWrite(operation, write);
      if writeFault.Some? then (j, Err(writeFault.value))
      else
        var (j1, writeRefusal) := RecordWrite(j, operation, write, t);
        if writeRefusal.Some? then (j1, Err(JournalRefused(writeRefusal.value)))
        else if response.readback.Err? then (j1, Err(ProviderFailed(response.readback.error)))
        else
          var readback := response.readback.value;
          var readbackFault := ValidateReadback(write, readback);
          if readbackFault.Some? then (j1, Err(readbackFault.value))
          else
            var (j2, readbackRefusal) := RecordReadback(j1, readback, t);
            if readbackRefusal.Some? then (j2, Err(JournalRefused(readbackRefusal.value)))
            else (j2, Ok(Executed(operation, write, readback)))
  }

  datatype Failure = Failure(operationId: string, error: ExecutionError)

  type LoopState = (Journal, Result<seq<ExecutedOperation>, Failure>)

  /** One turn of the loop; nothing happens after a failure. */
  function Turn(earlier: LoopState, operation: PlannedOperation, t: string, response: Response): LoopState {
    if earlier.1.Err? then earlier
    else
      var (k, last) := ExecuteOperation(earlier.0, operation, t, response);
      (k, if last.Err? then Err(Failure(operation.operationId, last.error)) else Ok(earlier.1.value + [last.value]))
  }

  /** The journal, and the receipts or the first failure, after `n` turns of the loop. */
  function ExecuteOperations(j: Journal, operations: seq<PlannedOperation>, t: string, responses: seq<Response>, n: nat)
    : LoopState
    requires n <= |operations| == |responses|
  {
    if n == 0 then (j, Ok([]))
    else Turn(ExecuteOperations(j, operations, t, responses, n - 1), operations[n - 1], t, responses[n - 1])
  }

  predicate IsChange(r: ExecutedOperation) { r.changed }

  function MakeReceipt(plan: AuthorizedPlan, t: string, receipts: seq<ExecutedOperation>): TransactionReceipt {
    TransactionReceipt(t, plan.authorizationId, plan.planDigest, receipts, CountIf(receipts, IsChange))
  }

  function Execute(
      j: Journal, plan: AuthorizedPlan, t: string, allowed: bool, responses: seq<Response>, text: ErrorText)
    : (Journal, Result<TransactionReceipt, ExecutionError>)
    requires |responses| == |plan.operations|
  {
    if Blank(t) then (j, Err(TransactionIdMissing))
    else if !allowed then (j, Err(GuardRefused))
    else
      var (j0, refusal) := Begin(j, plan, t);
      if refusal.Some? then (j0, Err(JournalRefused(refusal.value)))
      else
        var (j1, outcome) := ExecuteOperations(j0, plan.operations, t, responses, |plan.operations|);
        if outcome.Err? then
          (Fail(j1, t, Some(outcome.error.operationId), text(outcome.error.error)), Err(outcome.error.error))
        else
          var receipt := MakeReceipt(plan, t, outcome.value);
          var (j2, completion) := Complete(j1, receipt);
          if completion.Some? then (j2, Err(JournalRefused(completion.value))) else (j2, Ok(receipt))
  }

  method ExecuteOne(journal: SQLiteExecutionJournal, operation: PlannedOperation, t: string, response: Response)
    returns (r: Result<ExecutedOperation, ExecutionError>)
    modifies journal
    ensures (journal.State(), r) == ExecuteOperation(old(journal.State()), operation, t, response)
  {
    if response.write.Err? { return Err(ProviderFailed(response.write.error)); }
    var write := response.write.value;
    var writeFault := ValidateWrite(operation, write);
    if writeFault.Some? { return Err(writeFault.value); }
    var refusal := journal.RecordProviderWrite(operation, write, t);
    if refusal.Some? { return Err(JournalRefused(refusal.value)); }
    if response.readback.Err? { return Err(ProviderFailed(response.readback.error)); }
    var readback := response.readback.value;
    var readbackFault := ValidateReadback(write, readback);
    if readbackFault.Some? { return Err(readbackFault.value); }
    refusal := journal.RecordProviderReadback(readback, t);
    if refusal.Some? { return Err(JournalRefused(refusal.value)); }
    r := Ok(Executed(operation, write, readback));
  }

  method ExecutePlan(journal: SQLiteExecutionJournal, plan: AuthorizedPlan, t: string, allowed: bool,
                     responses: seq<Response>, text: ErrorText)
    returns (r: Result<TransactionReceipt, ExecutionError>)
    requires |responses| == |plan.operations|
    modifies journal
    ensures (journal.State(), r) == Execute(old(journal.State()), plan, t, allowed, responses, text)
  {
    if Blank(t) { return Err(TransactionIdMissing); }
    if !allowed { return Err(GuardRefused); }
    var refusal := journal.BeginTransaction(plan, t);
    if refusal.Some? { return Err(JournalRefused(refusal.value)); }
    ghost var begun := journal.State();
    var operations := plan.operations;
    var receipts: seq<ExecutedOperation> := [];
    for i := 0 to |operations|
      invariant (journal.State(), Ok(receipts)) == ExecuteOperations(begun, operations, t, responses, i)
    {
      var outcome := ExecuteOne(journal, operations[i], t, responses[i]);
      if outcome.Err? {
        FailureStands(begun, operations, t, responses, i + 1, |operations|);
        journal.FailTransaction(t, Some(operations[i].operationId), text(outcome.error));
        return Err(outcome.error);
      }
      receipts := receipts + [outcome.value];
    }
    var receipt := MakeReceipt(plan, t, receipts);
    refusal := journal.CompleteTransaction(receipt);
    if refusal.Some? { return Err(JournalRefused(refusal.value)); }
    r := Ok(receipt);
  }

  lemma {:induction false} FailureStands(j: Journal, operations: seq<PlannedOperation>, t: string,
                                         responses: seq<Response>, i: nat, n: nat)
    requires i <= n <= |operations| == |responses|
    requires ExecuteOperations(j, operations, t, responses, i).1.Err?
    ensures ExecuteOperations(j, operations, t, responses, n) == ExecuteOperations(j, operations, t, responses, i)
    decreases n
  {
    if i < n {
      FailureStands(j, operations, t, responses, i, n - 1);
    }
  }

  // --- Conforming providers --------------------------------------------------------------

  /** The write names the operation and the readback finds what was written. */
  predicate Conforms(operation: PlannedOperation, response: Response) {
    && response.write.Ok? && ValidateWrite(operation, response.write.value).None?
    && response.readback.Ok? && ValidateReadback(response.write.value, response.readback.value).None?
  }

  predicate AllConform(operations: seq<PlannedOperation>, responses: seq<Response>, n: nat)
    requires n <= |operations| == |responses|
  {
    forall i :: 0 <= i < n ==> Conforms(operations[i], responses[i])
  }

  /** The row a conforming response leaves behind. */
  function VerifiedRow(row: OperationRow, response: Response): OperationRow
    requires response.write.Ok? && response.readback.Ok?
  {
    MarkVerified(MarkWritten(row, response.write.value), response.readback.value)
  }

  function Receipts(operations: seq<PlannedOperation>, responses: seq<Response>, n: nat): (r: seq<ExecutedOperation>)
    requires n <= |operations| == |responses| && AllConform(operations, responses, n)
    ensures |r| == n
    ensures forall i :: 0 <= i < n ==>
      r[i] == Executed(operations[i], responses[i].write.value, responses[i].readback.value)
  {
    seq(n, i requires 0 <= i < n => Executed(operations[i], responses[i].write.value, responses[i].readback.value))
  }

  /** The first `n` rows verified by their responses, the others as they were. */
  ghost predicate VerifiedUpTo(before: seq<OperationRow>, after: seq<OperationRow>, responses: seq<Response>, n: nat)
    requires n <= |before| == |responses|
  {
    && |after| == |before|
    && (forall i :: 0 <= i < n ==>
          && responses[i].write.Ok? && responses[i].readback.Ok?
          && after[i] == VerifiedRow(before[i], responses[i]))
    && forall i :: n <= i < |before| ==> after[i] == before[i]
  }

  /** A transaction under way, ready for its next operation. */
  ghost predicate UnderWay(j: Journal, plan: AuthorizedPlan, t: string) {
    Inv(j) && Registered(j, t, plan)
  }

  lemma {:induction false} RowFound(j: Journal, plan: AuthorizedPlan, t: string, n: nat)
    requires UnderWay(j, plan, t) && n < |plan.operations|
    ensures FindRow(RowsOf(j, t), plan.operations[n].operationId) == Some(n)
    ensures RowsOf(j, t)[n].operation == plan.operations[n]
  {
    assert TransactionConsistent(j, t);
    var rows := RowsOf(j, t);
    assert Operations(rows)[n] == rows[n].operation;
    if FindRow(rows, plan.operations[n].operationId).None? {
      FindRowMisses(rows, plan.operations[n].operationId);
    }
  }

  lemma {:induction false} WriteLands(j: Journal, plan: AuthorizedPlan, t: string, n: nat, write: WriteReceipt)
    requires UnderWay(j, plan, t) && n < |plan.operations| && ValidateWrite(plan.operations[n], write).None?
    ensures
      var (k, refusal) := RecordWrite(j, plan.operations[n], write, t);
      && refusal.None? && UnderWay(k, plan, t) && !IsCompleted(k, t)
      && RowsOf(k, t) == RowsOf(j, t)[n := MarkWritten(RowsOf(j, t)[n], write)]
  {
    RowFound(j, plan, t, n);
    assert TransactionConsistent(j, t);
    var k := RecordWrite(j, plan.operations[n], write, t).0;
    WriteKeeps(j, plan.operations[n], write, t);
    ExtensionKeepsRegistered(j, k, t, plan);
    var rows := RowsOf(j, t);
    assert RowsOf(k, t) == rows[n := MarkWritten(rows[n], write)];
  }

  lemma {:induction false} ReadbackLands(j: Journal, plan: AuthorizedPlan, t: string, n: nat,
                                         before: OperationRow, write: WriteReceipt, readback: ReadbackReceipt)
    requires UnderWay(j, plan, t) && n < |plan.operations| && RowsOf(j, t)[n] == MarkWritten(before, write)
    requires ValidateWrite(plan.operations[n], write).None? && ValidateReadback(write, readback).None?
    ensures
      var (k, refusal) := RecordReadback(j, readback, t);
      && refusal.None? && UnderWay(k, plan, t) && (IsCompleted(k, t) <==> IsCompleted(j, t))
      && RowsOf(k, t) == RowsOf(j, t)[n := MarkVerified(RowsOf(j, t)[n], readback)]
  {
    RowFound(j, plan, t, n);
    assert TransactionConsistent(j, t);
    var k := RecordReadback(j, readback, t).0;
    ReadbackKeeps(j, readback, t);
    ExtensionKeepsRegistered(j, k, t, plan);
    var rows := RowsOf(j, t);
    assert RowsOf(k, t) == rows[n := MarkVerified(rows[n], readback)];
  }

  /** On a registered transaction one operation goes through exactly when the provider conforms. */
  lemma {:induction false} OperationGoesThrough(j: Journal, plan: AuthorizedPlan, t: string, n: nat, response: Response)
    requires UnderWay(j, plan, t) && n < |plan.operations|
    ensures
      var (k, r) := ExecuteOperation(j, plan.operations[n], t, response);
      && UnderWay(k, plan, t)
      && (r.Ok? <==> Conforms(plan.operations[n], response))
      && (r.Ok? ==>
            && r.value == Executed(plan.operations[n], response.write.value, response.readback.value)
            && RowsOf(k, t) == RowsOf(j, t)[n := VerifiedRow(RowsOf(j, t)[n], response)]
            && !IsCompleted(k, t))
      && (r.Err? ==>
            && !r.error.JournalRefused?
            && forall i :: 0 <= i < |plan.operations| && i != n ==> RowsOf(k, t)[i] == RowsOf(j, t)[i])
  {
    var operation := plan.operations[n];
    RowFound(j, plan, t, n);
    if response.write.Ok? && ValidateWrite(operation, response.write.value).None? {
      var write := response.write.value;
      WriteLands(j, plan, t, n, write);
      if response.readback.Ok? && ValidateReadback(write, response.readback.value).None? {
        ReadbackLands(RecordWrite(j, operation, write, t).0, plan, t, n, RowsOf(j, t)[n], write,
          response.readback.value);
      }
    }
  }

  lemma {:induction false} ReceiptsStep(operations: seq<PlannedOperation>, responses: seq<Response>, n: nat)
    requires 0 < n <= |operations| == |responses| && AllConform(operations, responses, n)
    ensures Receipts(operations, responses, n)
         == Receipts(operations, responses, n - 1)
            + [Executed(operations[n - 1], responses[n - 1].write.value, responses[n - 1].readback.value)]
  {
  }

  lemma {:induction false} VerifiedStep(
      before: seq<OperationRow>, mid: seq<OperationRow>, responses: seq<Response>, n: nat)
    requires n < |before| == |responses| && VerifiedUpTo(before, mid, responses, n)
    requires responses[n].write.Ok? && responses[n].readback.Ok?
    ensures VerifiedUpTo(before, mid[n := VerifiedRow(mid[n], responses[n])], responses, n + 1)
  {
  }

  ghost predicate PrefixDone(j: Journal, plan: AuthorizedPlan, t: string, responses: seq<Response>, n: nat,
                             k: Journal, receipts: seq<ExecutedOperation>)
    requires n <= |plan.operations| == |responses| && AllConform(plan.operations, responses, n)
  {
    && receipts == Receipts(plan.operations, responses, n)
    && |RowsOf(j, t)| == |responses|
    && VerifiedUpTo(RowsOf(j, t), RowsOf(k, t), responses, n)
    && (n > 0 ==> !IsCompleted(k, t))
  }

  lemma {:induction false} PrefixStep(j: Journal, plan: AuthorizedPlan, t: string, responses: seq<Response>, n: nat,
                                      k: Journal, receipts: seq<ExecutedOperation>)
    requires n < |plan.operations| == |responses| && AllConform(plan.operations, responses, n + 1)
    requires UnderWay(k, plan, t) && PrefixDone(j, plan, t, responses, n, k, receipts)
    ensures
      var (k', r) := ExecuteOperation(k, plan.operations[n], t, responses[n]);
      r.Ok? && PrefixDone(j, plan, t, responses, n + 1, k', receipts + [r.value])
  {
    OperationGoesThrough(k, plan, t, n, responses[n]);
    ReceiptsStep(plan.operations, responses, n + 1);
    VerifiedStep(RowsOf(j, t), RowsOf(k, t), responses, n);
  }

  lemma {:induction false} AllConformStep(operations: seq<PlannedOperation>, responses: seq<Response>, n: nat)
    requires n < |operations| == |responses|
    ensures AllConform(operations, responses, n + 1)
       <==> AllConform(operations, responses, n) && Conforms(operations[n], responses[n])
  {
  }

  lemma {:induction false} TurnGoesThrough(
      earlier: LoopState, plan: AuthorizedPlan, t: string, n: nat, response: Response)
    requires UnderWay(earlier.0, plan, t) && n < |plan.operations|
    ensures
      var later := Turn(earlier, plan.operations[n], t, response);
      && UnderWay(later.0, plan, t)
      && (later.1.Ok? <==> earlier.1.Ok? && Conforms(plan.operations[n], response))
  {
    OperationGoesThrough(earlier.0, plan, t, n, response);
  }

  /** The first `n` operations go through exactly when their responses conform, and leave their rows verified. */
  ghost predicate PrefixOutcome(j: Journal, plan: AuthorizedPlan, t: string, responses: seq<Response>, n: nat)
    requires n <= |plan.operations| == |responses|
  {
    var (k, r) := ExecuteOperations(j, plan.operations, t, responses, n);
    && UnderWay(k, plan, t)
    && (r.Ok? <==> AllConform(plan.operations, responses, n))
    && (r.Ok? ==> PrefixDone(j, plan, t, responses, n, k, r.value))
  }

  lemma {:induction false} PrefixOutcomeStart(j: Journal, plan: AuthorizedPlan, t: string, responses: seq<Response>)
    requires UnderWay(j, plan, t) && |responses| == |plan.operations|
    ensures PrefixOutcome(j, plan, t, responses, 0)
  {
  }

  lemma {:induction false} PrefixOutcomeStep(
      j: Journal, plan: AuthorizedPlan, t: string, responses: seq<Response>, n: nat)
    requires n < |plan.operations| == |responses| && PrefixOutcome(j, plan, t, responses, n)
    ensures PrefixOutcome(j, plan, t, responses, n + 1)
  {
    var earlier := ExecuteOperations(j, plan.operations, t, responses, n);
    AllConformStep(plan.operations, responses, n);
    TurnGoesThrough(earlier, plan, t, n, responses[n]);
    if AllConform(plan.operations, responses, n + 1) {
      PrefixStep(j, plan, t, responses, n, earlier.0, earlier.1.value);
    }
  }

  lemma {:induction false} ConformingPrefixes(
      j: Journal, plan: AuthorizedPlan, t: string, responses: seq<Response>, n: nat)
    requires UnderWay(j, plan, t) && n <= |plan.operations| == |responses|
    ensures forall m :: 0 <= m <= n ==> PrefixOutcome(j, plan, t, responses, m)
  {
    if n == 0 {
      PrefixOutcomeStart(j, plan, t, responses);
    } else {
      ConformingPrefixes(j, plan, t, responses, n - 1);
      PrefixOutcomeStep(j, plan, t, responses, n - 1);
    }
  }

  lemma {:induction false} ConformingPrefix(
      j: Journal, plan: AuthorizedPlan, t: string, responses: seq<Response>, n: nat)
    requires UnderWay(j, plan, t) && n <= |plan.operations| == |responses|
    ensures PrefixOutcome(j, plan, t, responses, n)
  {
    ConformingPrefixes(j, plan, t, responses, n);
  }

  // --- Outcome of a whole execution ------------------------------------------------------

  lemma {:induction false} FirstMisfit(
      operations: seq<PlannedOperation>, responses: seq<Response>, m: nat) returns (n: nat)
    requires m <= |operations| == |responses| && !AllConform(operations, responses, m)
    ensures n < m && AllConform(operations, responses, n) && !Conforms(operations[n], responses[n])
  {
    if AllConform(operations, responses, m - 1) {
      n := m - 1;
    } else {
      n := FirstMisfit(operations, responses, m - 1);
    }
  }

  /** Rows before `n` verified by their responses, rows after `n` as they were. */
  ghost predicate StoppedAt(before: seq<OperationRow>, after: seq<OperationRow>, responses: seq<Response>, n: nat)
    requires n < |before| == |responses|
  {
    && |after| == |before|
    && (forall i :: 0 <= i < n ==>
          && responses[i].write.Ok? && responses[i].readback.Ok?
          && after[i] == VerifiedRow(before[i], responses[i]))
    && forall i :: n < i < |before| ==> after[i] == before[i]
  }

  lemma {:induction false} TurnStopsAt(j: Journal, plan: AuthorizedPlan, t: string, responses: seq<Response>, n: nat)
    requires UnderWay(j, plan, t) && |responses| == |plan.operations| && n < |responses|
    requires AllConform(plan.operations, responses, n) && !Conforms(plan.operations[n], responses[n])
    ensures
      var (k, r) := ExecuteOperations(j, plan.operations, t, responses, n + 1);
      && r.Err? && r.error.operationId == plan.operations[n].operationId && !r.error.error.JournalRefused?
      && UnderWay(k, plan, t)
      && StoppedAt(RowsOf(j, t), RowsOf(k, t), responses, n)
  {
    ConformingPrefix(j, plan, t, responses, n);
    OperationGoesThrough(ExecuteOperations(j, plan.operations, t, responses, n).0, plan, t, n, responses[n]);
  }

  lemma {:induction false} LoopStopsAt(j: Journal, plan: AuthorizedPlan, t: string, responses: seq<Response>, n: nat)
    requires UnderWay(j, plan, t) && |responses| == |plan.operations| && n < |responses|
    requires AllConform(plan.operations, responses, n) && !Conforms(plan.operations[n], responses[n])
    ensures
      var (k, r) := ExecuteOperations(j, plan.operations, t, responses, |responses|);
      && r.Err? && r.error.operationId == plan.operations[n].operationId && !r.error.error.JournalRefused?
      && UnderWay(k, plan, t)
      && StoppedAt(RowsOf(j, t), RowsOf(k, t), responses, n)
  {
    TurnStopsAt(j, plan, t, responses, n);
    FailureStands(j, plan.operations, t, responses, n + 1, |responses|);
  }

  lemma {:induction false} FailMarksOneRow(j: Journal, plan: AuthorizedPlan, t: string, n: nat, reason: string)
    requires UnderWay(j, plan, t) && n < |plan.operations|
    ensures
      var k := Fail(j, t, Some(plan.operations[n].operationId), reason);
      && UnderWay(k, plan, t)
      && k.transactions[t].state.Failed? && k.transactions[t].failureReason == Some(Truncated(reason))
      && RowsOf(k, t) == RowsOf(j, t)[n := MarkFailed(RowsOf(j, t)[n])]
  {
    var k := Fail(j, t, Some(plan.operations[n].operationId), reason);
    RowFound(j, plan, t, n);
    assert TransactionConsistent(j, t);
    FailKeeps(j, t, Some(plan.operations[n].operationId), reason);
    ExtensionKeepsRegistered(j, k, t, plan);
  }

  lemma {:induction false} ReceiptNamesEveryRow(j: Journal, plan: AuthorizedPlan, t: string, responses: seq<Response>)
    requires UnderWay(j, plan, t) && |responses| == |plan.operations|
    requires AllConform(plan.operations, responses, |responses|)
    ensures ReceiptIds(Receipts(plan.operations, responses, |responses|)) == OperationIds(RowsOf(j, t))
  {
    var rows := RowsOf(j, t);
    forall i | 0 <= i < |responses|
      ensures Receipts(plan.operations, responses, |responses|)[i].operationId == rows[i].operation.operationId
    {
      assert Operations(rows)[i] == plan.operations[i];
    }
    assert |rows| == |Operations(rows)|;
  }

  /** Completion is accepted once every row of the transaction is verified. */
  lemma {:induction false} VerifiedCompletes(j: Journal, plan: AuthorizedPlan, t: string, responses: seq<Response>)
    requires UnderWay(j, plan, t) && |responses| == |plan.operations|
    requires AllConform(plan.operations, responses, |responses|)
    requires forall i :: 0 <= i < |RowsOf(j, t)| ==> RowsOf(j, t)[i].state.OpVerified?
    ensures
      var receipt := MakeReceipt(plan, t, Receipts(plan.operations, responses, |responses|));
      var (k, refusal) := Complete(j, receipt);
      && refusal.None? && UnderWay(k, plan, t)
      && IsCompleted(k, t) && k.transactions[t].receipt == Some(receipt)
      && RowsOf(k, t) == RowsOf(j, t)
  {
    var receipt := MakeReceipt(plan, t, Receipts(plan.operations, responses, |responses|));
    OrderIsInsertion(j, t);
    assert TransactionConsistent(j, t);
    ReceiptNamesEveryRow(j, plan, t, responses);
    CompleteKeeps(j, receipt);
    ExtensionKeepsRegistered(j, Complete(j, receipt).0, t, plan);
  }

  /** A begun execution with conforming responses. */
  lemma {:induction false} ConformingExecution(
      j: Journal, plan: AuthorizedPlan, t: string, responses: seq<Response>, text: ErrorText)
    requires Inv(j) && |responses| == |plan.operations| && Begin(j, plan, t).1.None?
    requires AllConform(plan.operations, responses, |responses|)
    ensures
      var begun := Begin(j, plan, t).0;
      var (k, r) := Execute(j, plan, t, true, responses, text);
      && UnderWay(k, plan, t) && |RowsOf(begun, t)| == |responses|
      && r == Ok(MakeReceipt(plan, t, Receipts(plan.operations, responses, |responses|)))
      && IsCompleted(k, t) && k.transactions[t].receipt == Some(r.value)
      && VerifiedUpTo(RowsOf(begun, t), RowsOf(k, t), responses, |responses|)
  {
    var begun := Begin(j, plan, t).0;
    BeginKeeps(j, plan, t);
    BeginRegisters(j, plan, t);
    assert |Operations(RowsOf(begun, t))| == |responses|;
    ConformingPrefix(begun, plan, t, responses, |responses|);
    VerifiedCompletes(ExecuteOperations(begun, plan.operations, t, responses, |responses|).0, plan, t, responses);
  }

  /** A begun execution whose responses first go wrong at `n`. */
  lemma {:induction false} MisconformingExecution(
      j: Journal, plan: AuthorizedPlan, t: string, responses: seq<Response>, n: nat, text: ErrorText)
    requires Inv(j) && |responses| == |plan.operations| && Begin(j, plan, t).1.None?
    requires n < |responses| && AllConform(plan.operations, responses, n) && !Conforms(plan.operations[n], responses[n])
    ensures
      var begun := Begin(j, plan, t).0;
      var (k, r) := Execute(j, plan, t, true, responses, text);
      && UnderWay(k, plan, t) && |RowsOf(begun, t)| == |responses|
      && r.Err? && !r.error.JournalRefused?
      && k.transactions[t].state.Failed?
      && k.transactions[t].failureReason == Some(Truncated(text(r.error)))
      && StoppedAt(RowsOf(begun, t), RowsOf(k, t), responses, n)
      && RowsOf(k, t)[n].state.OpFailed?
  {
    var begun := Begin(j, plan, t).0;
    BeginKeeps(j, plan, t);
    BeginRegisters(j, plan, t);
    assert |Operations(RowsOf(begun, t))| == |responses|;
    LoopStopsAt(begun, plan, t, responses, n);
    var (l, outcome) := ExecuteOperations(begun, plan.operations, t, responses, |responses|);
    FailMarksOneRow(l, plan, t, n, text(outcome.error.error));
  }

  /**
    Once begun, an execution succeeds exactly when every response conforms, and then the
    transaction is completed; otherwise it is left failed, and never because the journal refused.
   */
  lemma {:induction false} ExecutionOutcome(
      j: Journal, plan: AuthorizedPlan, t: string, responses: seq<Response>, text: ErrorText)
    requires Inv(j) && |responses| == |plan.operations| && Begin(j, plan, t).1.None?
    ensures
      var (k, r) := Execute(j, plan, t, true, responses, text);
      && UnderWay(k, plan, t)
      && (r.Ok? <==> AllConform(plan.operations, responses, |responses|))
      && (r.Ok? <==> IsCompleted(k, t))
      && (r.Ok? ==> k.transactions[t].receipt == Some(r.value))
      && (r.Err? ==> k.transactions[t].state.Failed? && !r.error.JournalRefused?)
  {
    if AllConform(plan.operations, responses, |responses|) {
      ConformingExecution(j, plan, t, responses, text);
    } else {
      var n := FirstMisfit(plan.operations, responses, |responses|);
      MisconformingExecution(j, plan, t, responses, n, text);
    }
  }

  lemma {:induction false} OpenBegins(j: Journal, plan: AuthorizedPlan, t: string)
    requires UnderWay(j, plan, t) && !Blank(t) && !IsCompleted(j, t)
    ensures Begin(j, plan, t).1.None?
  {
    OrderIsInsertion(j, t);
  }

  /**
    A completed execution is taken up again by any later receipt naming one of its operations: the
    write is accepted, the transaction is no longer completed, and it can be begun once more.
   */
  lemma {:induction false} CompletedExecutionReopens(
      j: Journal, plan: AuthorizedPlan, t: string, responses: seq<Response>, text: ErrorText, n: nat,
      write: WriteReceipt)
    requires Inv(j) && |responses| == |plan.operations| && Begin(j, plan, t).1.None?
    requires AllConform(plan.operations, responses, |responses|)
    requires n < |plan.operations| && ReceiptNames(plan.operations[n], write)
    ensures
      var k := Execute(j, plan, t, true, responses, text).0;
      var (w, refusal) := RecordWrite(k, plan.operations[n], write, t);
      IsCompleted(k, t) && refusal.None? && !IsCompleted(w, t) && Begin(w, plan, t).1.None?
  {
    ConformingExecution(j, plan, t, responses, text);
    var k := Execute(j, plan, t, true, responses, text).0;
    WriteLands(k, plan, t, n, write);
    OpenBegins(RecordWrite(k, plan.operations[n], write, t).0, plan, t);
  }

  // --- Retrying --------------------------------------------------------------------------

  predicate Misconforms(plan: AuthorizedPlan, responses: seq<Response>) {
    |responses| == |plan.operations| && !AllConform(plan.operations, responses, |responses|)
  }

  /** The journal after a series of attempts to execute one plan. */
  function AfterAttempts(
      j: Journal, plan: AuthorizedPlan, t: string, attempts: seq<seq<Response>>, text: ErrorText): Journal
    requires forall a :: 0 <= a < |attempts| ==> Misconforms(plan, attempts[a])
    decreases |attempts|
  {
    if attempts == [] then j
    else
      assert Misconforms(plan, attempts[0]);
      AfterAttempts(Execute(j, plan, t, true, attempts[0], text).0, plan, t, attempts[1..], text)
  }

  /**
    Whatever calls a journal has seen, and however many attempts to execute a transaction have
    failed in whatever way, one attempt in which the provider conforms completes it.
   */
  lemma {:induction false} RetryCompletes(j: Journal, plan: AuthorizedPlan, t: string, attempts: seq<seq<Response>>,
                                          good: seq<Response>, text: ErrorText)
    requires Inv(j) && Begin(j, plan, t).1.None?
    requires forall a :: 0 <= a < |attempts| ==> Misconforms(plan, attempts[a])
    requires |good| == |plan.operations| && AllConform(plan.operations, good, |good|)
    ensures
      var (k, r) := Execute(AfterAttempts(j, plan, t, attempts, text), plan, t, true, good, text);
      r.Ok? && IsCompleted(k, t) && k.transactions[t].receipt == Some(r.value)
    decreases |attempts|
  {
    if attempts == [] {
      ExecutionOutcome(j, plan, t, good, text);
    } else {
      ExecutionOutcome(j, plan, t, attempts[0], text);
      var k := Execute(j, plan, t, true, attempts[0], text).0;
      OrderIsInsertion(k, t);
      RetryCompletes(k, plan, t, attempts[1..], good, text);
    }
  }

  /** The same from any history in which the transaction was begun and is not completed. */
  lemma {:induction false} EveryOpenTransactionCanFinish(
      earlier: seq<Call>, plan: AuthorizedPlan, t: string, later: seq<Call>,
      attempts: seq<seq<Response>>, good: seq<Response>, text: ErrorText)
    requires Begin(Run(earlier), plan, t).1.None?
    requires !IsCompleted(Run(earlier + [BeginCall(plan, t)] + later), t)
    requires forall a :: 0 <= a < |attempts| ==> Misconforms(plan, attempts[a])
    requires |good| == |plan.operations| && AllConform(plan.operations, good, |good|)
    ensures
      var j := Run(earlier + [BeginCall(plan, t)] + later);
      var (k, r) := Execute(AfterAttempts(j, plan, t, attempts, text), plan, t, true, good, text);
      r.Ok? && IsCompleted(k, t)
  {
    var calls := earlier + [BeginCall(plan, t)] + later;
    EveryRunIsConsistent(calls);
    ReopeningRefusedIffCompleted(earlier, plan, t, later);
    RetryCompletes(Run(calls), plan, t, attempts, good, text);
  }
}
