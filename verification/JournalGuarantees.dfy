/** What holds in every journal, whatever sequence of calls produced it. */
module JournalGuarantees {
  import opened Common
  import opened Ordering
  import opened ExecutionJournal

  // --- Runs ------------------------------------------------------------------------------

  datatype Call =
    | BeginCall(plan: AuthorizedPlan, transactionId: string)
    | WriteCall(operation: PlannedOperation, write: WriteReceipt, transactionId: string)
    | ReadbackCall(readback: ReadbackReceipt, transactionId: string)
    | FailCall(transactionId: string, operationId: Option<string>, reason: string)
    | CompleteCall(receipt: TransactionReceipt)

  function Step(j: Journal, call: Call): (Journal, Option<JournalError>) {
    match call
    case BeginCall(plan, t) => Begin(j, plan, t)
    case WriteCall(operation, receipt, t) => RecordWrite(j, operation, receipt, t)
    case ReadbackCall(receipt, t) => RecordReadback(j, receipt, t)
    case FailCall(t, operationId, reason) => (Fail(j, t, operationId, reason), None)
    case CompleteCall(receipt) => Complete(j, receipt)
  }

  const EMPTY_JOURNAL := Journal(map[], map[])

  function Run(calls: seq<Call>): Journal {
    if calls == [] then EMPTY_JOURNAL else Step(Run(calls[..|calls| - 1]), calls[|calls| - 1]).0
  }

  /** A raising call changes nothing. */
  lemma {:induction false} RaisingCallRollsBack(j: Journal, call: Call)
    ensures Step(j, call).1.Some? ==> Step(j, call).0 == j
  {
  }

  // --- The invariant ---------------------------------------------------------------------

  ghost predicate RowOk(row: OperationRow) {
    && (row.state.OpWritten? ==> row.writeDigest.Some? && row.providerRecordId.Some? && row.changed.Some?)
    && (row.state.OpVerified? ==>
          && row.writeDigest.Some? && row.readbackDigest == row.writeDigest
          && row.providerRecordId.Some? && row.changed.Some?)
  }

  /** Rows are numbered as they were inserted and no operation id repeats (the primary key). */
  ghost predicate RowsOk(rows: seq<OperationRow>) {
    && rows != []
    && (forall i :: 0 <= i < |rows| ==> RowOk(rows[i]) && rows[i].operation.sequence == i)
    && (forall i, k :: 0 <= i < k < |rows| ==> rows[i].operation.operationId != rows[k].operation.operationId)
  }

  ghost predicate TransactionOk(row: TransactionRow, rows: seq<OperationRow>) {
    && (row.state.Prepared? ==> row.failureReason.None?)
    && (row.state.Failed? ==> row.failureReason.Some?)
    && (row.state.Completed? ==>
          && row.failureReason.None?
          && (forall i :: 0 <= i < |rows| ==> rows[i].state.OpVerified?)
          && row.receipt.Some?
          && ReceiptIds(row.receipt.value.operationReceipts) == OperationIds(rows)
          && row.providerWrites == row.receipt.value.providerWrites)
  }

  /** The row of transaction `t` at `i` and the row of `u` at `k` use one key only if they are one row. */
  ghost predicate KeyOnce(operations: map<string, seq<OperationRow>>, t: string, i: nat, u: string, k: nat) {
    t in operations && u in operations && i < |operations[t]| && k < |operations[u]|
    && SameKey(operations[t][i].operation, operations[u][k].operation)
    ==> t == u && i == k
  }

  /** `UNIQUE (provider, idempotency_key)` across all transactions. */
  ghost predicate KeysUnique(operations: map<string, seq<OperationRow>>) {
    forall t, i, u, k :: KeyOnce(operations, t, i, u, k)
  }

  ghost predicate TransactionConsistent(j: Journal, t: string) {
    t in j.transactions ==> RowsOk(RowsOf(j, t)) && TransactionOk(j.transactions[t], RowsOf(j, t))
  }

  ghost predicate Inv(j: Journal) {
    && j.operations.Keys == j.transactions.Keys
    && (forall t :: TransactionConsistent(j, t))
    && KeysUnique(j.operations)
  }

  /** On stored rows `ORDER BY sequence` is the order of insertion. */
  lemma {:induction false} OrderIsInsertion(j: Journal, t: string)
    requires Inv(j)
    ensures RowsInOrder(j, t) == RowsOf(j, t)
  {
    assert TransactionConsistent(j, t);
    SortedIsFixed(RowsOf(j, t), SequenceLe);
  }

  // --- Operations the journal knows -------------------------------------------------------

  ghost predicate Knows(j: Journal, t: string, operation: PlannedOperation) {
    exists n :: 0 <= n < |RowsOf(j, t)| && RowsOf(j, t)[n].operation == operation
  }

  lemma {:induction false} KnownRow(j: Journal, t: string, operation: PlannedOperation) returns (n: nat)
    requires Inv(j) && Knows(j, t, operation)
    ensures FindRow(RowsOf(j, t), operation.operationId) == Some(n)
    ensures n < |RowsOf(j, t)| && RowsOf(j, t)[n].operation == operation
    ensures t in j.transactions && t in j.operations
  {
    assert TransactionConsistent(j, t);
    n :| 0 <= n < |RowsOf(j, t)| && RowsOf(j, t)[n].operation == operation;
    if FindRow(RowsOf(j, t), operation.operationId).None? {
      FindRowMisses(RowsOf(j, t), operation.operationId);
    }
  }

  // --- Keeping the invariant -------------------------------------------------------------

  /** Rows change only in their progress columns. */
  ghost predicate SameOperations(a: seq<OperationRow>, b: seq<OperationRow>) {
    |a| == |b| && forall i :: 0 <= i < |a| ==> a[i].operation == b[i].operation
  }

  ghost predicate Kept(j: Journal, k: Journal, t: string) {
    t in j.transactions ==>
      && t in k.transactions
      && k.transactions[t].authorizationId == j.transactions[t].authorizationId
      && k.transactions[t].planDigest == j.transactions[t].planDigest
      && SameOperations(RowsOf(j, t), RowsOf(k, t))
  }

  /** Transactions keep their identity and their operations' metadata; none disappears. */
  ghost predicate Extends(j: Journal, k: Journal) {
    forall t :: Kept(j, k, t)
  }

  function Rewritten(j: Journal, t: string, transaction: TransactionRow, rows: seq<OperationRow>): Journal {
    Journal(j.transactions[t := transaction], j.operations[t := rows])
  }

  lemma {:induction false} RewriteKeeps(j: Journal, t: string, transaction: TransactionRow, rows: seq<OperationRow>)
    requires Inv(j) && t in j.transactions
    requires SameOperations(RowsOf(j, t), rows)
    requires forall i :: 0 <= i < |rows| ==> RowOk(rows[i])
    requires TransactionOk(transaction, rows)
    requires transaction.authorizationId == j.transactions[t].authorizationId
    requires transaction.planDigest == j.transactions[t].planDigest
    ensures Keeps(j, Rewritten(j, t, transaction, rows))
  {
    var k := Rewritten(j, t, transaction, rows);
    assert TransactionConsistent(j, t);
    forall u ensures TransactionConsistent(k, u) && Kept(j, k, u) {
      assert TransactionConsistent(j, u);
    }
    forall u, i, v, m ensures KeyOnce(k.operations, u, i, v, m) {
      assert KeyOnce(j.operations, u, i, v, m);
    }
  }

  lemma {:induction false} NewTransactionKeeps(j: Journal, plan: AuthorizedPlan, t: string, transaction: TransactionRow)
    requires Inv(j) && t !in j.transactions && transaction.state.Prepared? && transaction.failureReason.None?
    requires forall i :: 0 <= i < |plan.operations| ==> !KeyTaken(j, plan.operations[i])
    ensures Keeps(j, Rewritten(j, t, transaction, NewRows(plan.operations)))
  {
    var k := Rewritten(j, t, transaction, NewRows(plan.operations));
    forall u ensures TransactionConsistent(k, u) && Kept(j, k, u) {
      assert TransactionConsistent(j, u);
    }
    forall u, i, v, m ensures KeyOnce(k.operations, u, i, v, m) {
      assert KeyOnce(j.operations, u, i, v, m);
    }
  }

  ghost predicate Keeps(j: Journal, k: Journal) {
    Inv(k) && Extends(j, k)
  }

  lemma {:induction false} BeginKeeps(j: Journal, plan: AuthorizedPlan, t: string)
    requires Inv(j)
    ensures Keeps(j, Begin(j, plan, t).0)
  {
    var (k, error) := Begin(j, plan, t);
    if error.None? {
      if t in j.transactions {
        assert TransactionConsistent(j, t);
        RewriteKeeps(j, t, k.transactions[t], RowsOf(j, t));
        assert k == Rewritten(j, t, k.transactions[t], RowsOf(j, t));
      } else {
        NewTransactionKeeps(j, plan, t, k.transactions[t]);
      }
    }
  }

  lemma {:induction false} WriteKeeps(j: Journal, operation: PlannedOperation, receipt: WriteReceipt, t: string)
    requires Inv(j)
    ensures Keeps(j, RecordWrite(j, operation, receipt, t).0)
  {
    var (k, error) := RecordWrite(j, operation, receipt, t);
    if error.None? {
      assert TransactionConsistent(j, t);
      RewriteKeeps(j, t, k.transactions[t], RowsOf(k, t));
    }
  }

  lemma {:induction false} ReadbackKeeps(j: Journal, receipt: ReadbackReceipt, t: string)
    requires Inv(j)
    ensures Keeps(j, RecordReadback(j, receipt, t).0)
  {
    var (k, error) := RecordReadback(j, receipt, t);
    if error.None? {
      assert TransactionConsistent(j, t);
      var rows := RowsOf(j, t);
      var n := FindRow(rows, receipt.operationId).value;
      assert RowOk(rows[n]);
      assert k == Rewritten(j, t, j.transactions[t], RowsOf(k, t));
      RewriteKeeps(j, t, j.transactions[t], RowsOf(k, t));
    }
  }

  lemma {:induction false} FailKeeps(j: Journal, t: string, operationId: Option<string>, reason: string)
    requires Inv(j)
    ensures Keeps(j, Fail(j, t, operationId, reason))
  {
    if t in j.transactions {
      var k := Fail(j, t, operationId, reason);
      assert TransactionConsistent(j, t);
      if operationId.Some? {
        UpdateRowsAt(RowsOf(j, t), operationId.value, MarkFailed);
      }
      RewriteKeeps(j, t, k.transactions[t], RowsOf(k, t));
      assert k == Rewritten(j, t, k.transactions[t], RowsOf(k, t));
    }
  }

  lemma {:induction false} CompletionIsOk(j: Journal, receipt: TransactionReceipt)
    requires Complete(j, receipt).1.None?
    requires RowsInOrder(j, receipt.transactionId) == RowsOf(j, receipt.transactionId)
    ensures
      var t, k := receipt.transactionId, Complete(j, receipt).0;
      && t in j.transactions && t in k.transactions
      && k.transactions[t].authorizationId == j.transactions[t].authorizationId
      && k.transactions[t].planDigest == j.transactions[t].planDigest
      && TransactionOk(k.transactions[t], RowsOf(j, t))
  {
  }

  lemma {:induction false} CompletionRewrites(j: Journal, receipt: TransactionReceipt)
    requires Inv(j) && Complete(j, receipt).1.None?
    ensures
      var t, k := receipt.transactionId, Complete(j, receipt).0;
      t in k.transactions && k == Rewritten(j, t, k.transactions[t], RowsOf(j, t))
  {
  }

  lemma {:induction false} CompleteKeeps(j: Journal, receipt: TransactionReceipt)
    requires Inv(j)
    ensures Keeps(j, Complete(j, receipt).0)
  {
    if Complete(j, receipt).1.None? {
      var t := receipt.transactionId;
      OrderIsInsertion(j, t);
      CompletionIsOk(j, receipt);
      CompletionRewrites(j, receipt);
      assert TransactionConsistent(j, t);
      RewriteKeeps(j, t, Complete(j, receipt).0.transactions[t], RowsOf(j, t));
    }
  }

  lemma {:induction false} StepKeeps(j: Journal, call: Call)
    requires Inv(j)
    ensures Keeps(j, Step(j, call).0)
  {
    match call
    case BeginCall(plan, t) => BeginKeeps(j, plan, t);
    case WriteCall(operation, receipt, t) => WriteKeeps(j, operation, receipt, t);
    case ReadbackCall(receipt, t) => ReadbackKeeps(j, receipt, t);
    case FailCall(t, operationId, reason) => FailKeeps(j, t, operationId, reason);
    case CompleteCall(receipt) => CompleteKeeps(j, receipt);
  }

  /** Every journal any sequence of calls can produce is consistent. */
  lemma {:induction false} EveryRunIsConsistent(calls: seq<Call>)
    ensures Inv(Run(calls))
  {
    if calls != [] {
      EveryRunIsConsistent(calls[..|calls| - 1]);
      StepKeeps(Run(calls[..|calls| - 1]), calls[|calls| - 1]);
    }
  }

  /** The reading of the invariant a completed transaction gives its caller. */
  lemma {:induction false} CompletedMeansVerified(calls: seq<Call>, t: string)
    ensures
      var j := Run(calls);
      t in j.transactions && j.transactions[t].state.Completed? ==>
        var rows := RowsOf(j, t);
        && rows != []
        && j.transactions[t].failureReason.None?
        && forall i :: 0 <= i < |rows| ==>
             rows[i].state.OpVerified? && rows[i].writeDigest.Some? && rows[i].readbackDigest == rows[i].writeDigest
  {
    EveryRunIsConsistent(calls);
    var j := Run(calls);
    assert TransactionConsistent(j, t);
  }

  // --- What no call ever rewrites --------------------------------------------------------

  lemma {:induction false} ExtendsTransitive(j: Journal, k: Journal, l: Journal)
    requires Extends(j, k) && Extends(k, l)
    ensures Extends(j, l)
  {
    forall t ensures Kept(j, l, t) {
      assert Kept(j, k, t) && Kept(k, l, t);
    }
  }

  lemma {:induction false} IdentityNeverChanges(earlier: seq<Call>, later: seq<Call>)
    ensures Extends(Run(earlier), Run(earlier + later))
    decreases |later|
  {
    if later == [] {
      assert earlier + later == earlier;
      assert forall t :: Kept(Run(earlier), Run(earlier), t);
    } else {
      var calls := earlier + later;
      var front := later[..|later| - 1];
      assert calls[..|calls| - 1] == earlier + front;
      IdentityNeverChanges(earlier, front);
      EveryRunIsConsistent(earlier + front);
      StepKeeps(Run(earlier + front), calls[|calls| - 1]);
      ExtendsTransitive(Run(earlier), Run(earlier + front), Run(calls));
    }
  }

  // --- Leaving the completed state -------------------------------------------------------

  predicate IsCompleted(j: Journal, t: string) {
    t in j.transactions && j.transactions[t].state.Completed?
  }

  /** A write is accepted exactly when its receipt names the operation and the journal knows the operation. */
  lemma {:induction false} WriteAcceptedIff(j: Journal, operation: PlannedOperation, receipt: WriteReceipt, t: string)
    requires Inv(j)
    ensures RecordWrite(j, operation, receipt, t).1.None?
      <==> ReceiptNames(operation, receipt) && Knows(j, t, operation)
  {
    if Knows(j, t, operation) {
      var n := KnownRow(j, t, operation);
    }
  }

  predicate ReceiptNames(operation: PlannedOperation, receipt: WriteReceipt) {
    && receipt.operationId == operation.operationId
    && receipt.provider == operation.provider
    && receipt.idempotencyKey == operation.idempotencyKey
  }

  /**
    Completion is not final: a failure recorded on the transaction, or a receipt for an operation
    it knows, takes it out of completion, and nothing else does.
   */
  lemma {:induction false} CompletionLeftExactlyBy(j: Journal, call: Call, t: string)
    requires Inv(j) && IsCompleted(j, t)
    ensures !IsCompleted(Step(j, call).0, t)
       <==> || (call.FailCall? && call.transactionId == t)
            || (call.WriteCall? && call.transactionId == t
                && ReceiptNames(call.operation, call.write) && Knows(j, t, call.operation))
  {
    if call.WriteCall? {
      WriteAcceptedIff(j, call.operation, call.write, call.transactionId);
    }
  }

  // --- The plan a transaction was registered with ----------------------------------------

  ghost predicate Registered(j: Journal, t: string, plan: AuthorizedPlan) {
    && t in j.transactions
    && j.transactions[t].authorizationId == plan.authorizationId
    && j.transactions[t].planDigest == plan.planDigest
    && Operations(RowsOf(j, t)) == plan.operations
  }

  lemma {:induction false} BeginRegistersInOrder(j: Journal, plan: AuthorizedPlan, t: string)
    requires Begin(j, plan, t).1.None?
    requires j.operations.Keys == j.transactions.Keys && RowsInOrder(j, t) == RowsOf(j, t)
    ensures Registered(Begin(j, plan, t).0, t, plan)
    ensures Begin(j, plan, t).0.transactions[t].state.Prepared?
  {
  }

  lemma {:induction false} BeginRegisters(j: Journal, plan: AuthorizedPlan, t: string)
    requires Inv(j) && Begin(j, plan, t).1.None?
    ensures Registered(Begin(j, plan, t).0, t, plan)
    ensures Begin(j, plan, t).0.transactions[t].state.Prepared?
  {
    OrderIsInsertion(j, t);
    BeginRegistersInOrder(j, plan, t);
  }

  lemma {:induction false} ExtensionKeepsRegistered(j: Journal, k: Journal, t: string, plan: AuthorizedPlan)
    requires Inv(j) && Extends(j, k) && Registered(j, t, plan)
    ensures Registered(k, t, plan)
  {
    assert Kept(j, k, t);
  }

  /**
    Whatever happened since a transaction was begun, beginning it again with its own plan is
    refused exactly when it is completed.
   */
  lemma {:induction false} ReopeningRefusedIffCompleted(
      earlier: seq<Call>, plan: AuthorizedPlan, t: string, later: seq<Call>)
    requires Begin(Run(earlier), plan, t).1.None?
    ensures
      var j := Run(earlier + [BeginCall(plan, t)] + later);
      && Registered(j, t, plan)
      && (Begin(j, plan, t).1.None? <==> !IsCompleted(j, t))
  {
    var begun := earlier + [BeginCall(plan, t)];
    assert begun[..|begun| - 1] == earlier;
    EveryRunIsConsistent(earlier);
    EveryRunIsConsistent(begun);
    EveryRunIsConsistent(begun + later);
    BeginRegisters(Run(earlier), plan, t);
    IdentityNeverChanges(begun, later);
    ExtensionKeepsRegistered(Run(begun), Run(begun + later), t, plan);
    OrderIsInsertion(Run(begun + later), t);
  }
}
