/** What every journal call needs and what it leaves, in the columns of the two tables. */
module JournalTransitions {
  import opened Common
  import opened ExecutionJournal
  import opened JournalGuarantees

  /** Transactions other than `t` keep their row and their operations. */
  ghost predicate OthersUntouched(j: Journal, k: Journal, t: string) {
    forall u :: u != t ==>
      Lookup(k.transactions, u) == Lookup(j.transactions, u) && Lookup(k.operations, u) == Lookup(j.operations, u)
  }

  /** The row at `n` of transaction `t` holds the operation id. */
  predicate RowAt(j: Journal, t: string, operationId: string, n: nat) {
    n < |RowsOf(j, t)| && RowsOf(j, t)[n].operation.operationId == operationId
  }

  lemma {:induction false} RowAtIsFound(j: Journal, t: string, operationId: string, n: nat)
    requires Inv(j) && RowAt(j, t, operationId, n)
    ensures t in j.transactions && t in j.operations
    ensures FindRow(RowsOf(j, t), operationId) == Some(n)
  {
    assert TransactionConsistent(j, t);
    if FindRow(RowsOf(j, t), operationId).None? {
      FindRowMisses(RowsOf(j, t), operationId);
    }
  }

  /** Rewriting the rows of one operation id rewrites exactly its row. */
  lemma {:induction false} OneRowRewritten(
      j: Journal, t: string, operationId: string, n: nat, f: OperationRow -> OperationRow)
    requires Inv(j) && RowAt(j, t, operationId, n)
    ensures UpdateRows(RowsOf(j, t), operationId, f) == RowsOf(j, t)[n := f(RowsOf(j, t)[n])]
  {
    assert TransactionConsistent(j, t);
    UpdateRowsAt(RowsOf(j, t), operationId, f);
  }

  // --- begin -----------------------------------------------------------------------------

  /** The provider already has the operation's idempotency key, for any transaction. */
  ghost predicate KeyUsed(j: Journal, operation: PlannedOperation) {
    exists u, n :: && u in j.operations && 0 <= n < |j.operations[u]|
                   && j.operations[u][n].operation.provider == operation.provider
                   && j.operations[u][n].operation.idempotencyKey == operation.idempotencyKey
  }

  /** Beginning is accepted for a new transaction with unused keys, or again for the same one until it is completed. */
  lemma {:induction false} BeginAcceptedIff(j: Journal, plan: AuthorizedPlan, t: string)
    requires Inv(j)
    ensures Begin(j, plan, t).1.None?
       <==> && !Blank(t)
            && if t in j.transactions then
                 && j.transactions[t].authorizationId == plan.authorizationId
                 && j.transactions[t].planDigest == plan.planDigest
                 && j.transactions[t].state != Completed
                 && Operations(RowsOf(j, t)) == plan.operations
               else forall i :: 0 <= i < |plan.operations| ==> !KeyUsed(j, plan.operations[i])
  {
    OrderIsInsertion(j, t);
    forall i | 0 <= i < |plan.operations| ensures KeyTaken(j, plan.operations[i]) <==> KeyUsed(j, plan.operations[i]) {
    }
  }

  /** A new transaction starts prepared with untried operations; a known one is only prepared again. */
  lemma {:induction false} BeginLeaves(j: Journal, plan: AuthorizedPlan, t: string)
    requires Inv(j) && Begin(j, plan, t).1.None?
    ensures
      var k := Begin(j, plan, t).0;
      && OthersUntouched(j, k, t) && t in k.transactions
      && (t in j.transactions ==>
            && k.transactions[t] == j.transactions[t].(state := Prepared, failureReason := None)
            && RowsOf(k, t) == RowsOf(j, t))
      && (t !in j.transactions ==>
            && k.transactions[t] == TransactionRow(plan.authorizationId, plan.planDigest, Prepared, 0, None, None)
            && |RowsOf(k, t)| == |plan.operations|
            && forall i :: 0 <= i < |plan.operations| ==>
                 RowsOf(k, t)[i] == OperationRow(plan.operations[i], OpPrepared, 0, None, None, None, None))
  {
  }

  // --- record_write ----------------------------------------------------------------------

  /** An accepted write marks its row, counts the attempt, and puts the transaction under execution. */
  lemma {:induction false} WriteLeaves(
      j: Journal, operation: PlannedOperation, receipt: WriteReceipt, t: string, n: nat)
    requires Inv(j) && ReceiptNames(operation, receipt)
    requires RowAt(j, t, operation.operationId, n) && RowsOf(j, t)[n].operation == operation
    ensures
      var (k, refusal) := RecordWrite(j, operation, receipt, t);
      var row := RowsOf(j, t)[n];
      && refusal.None? && OthersUntouched(j, k, t) && t in k.transactions && t in j.transactions
      && k.transactions[t] == j.transactions[t].(state := Executing)
      && RowsOf(k, t) == RowsOf(j, t)[n :=
           OperationRow(operation, OpWritten, row.attempts + 1, Some(receipt.providerRecordId),
                        Some(receipt.writeDigest), row.readbackDigest, Some(receipt.changed))]
  {
    RowAtIsFound(j, t, operation.operationId, n);
    OneRowRewritten(j, t, operation.operationId, n, row => MarkWritten(row, receipt));
  }

  // --- record_readback -------------------------------------------------------------------

  /** The row at `n` was written and waits for this record and digest. */
  predicate Awaits(j: Journal, t: string, receipt: ReadbackReceipt, n: nat) {
    && RowAt(j, t, receipt.operationId, n)
    && RowsOf(j, t)[n].state == OpWritten
    && RowsOf(j, t)[n].providerRecordId == Some(receipt.providerRecordId)
    && RowsOf(j, t)[n].writeDigest == Some(receipt.readbackDigest)
  }

  /** A readback is accepted exactly for a written row of the same record and digest. */
  lemma {:induction false} ReadbackAcceptedIff(j: Journal, receipt: ReadbackReceipt, t: string)
    requires Inv(j)
    ensures RecordReadback(j, receipt, t).1.None? <==> exists n: nat :: Awaits(j, t, receipt, n)
  {
    if n: nat :| Awaits(j, t, receipt, n) {
      RowAtIsFound(j, t, receipt.operationId, n);
    }
    if RecordReadback(j, receipt, t).1.None? {
      var n := FindRow(RowsOf(j, t), receipt.operationId).value;
      assert Awaits(j, t, receipt, n);
    }
  }

  /** An accepted readback verifies its row and changes nothing else. */
  lemma {:induction false} ReadbackLeaves(j: Journal, receipt: ReadbackReceipt, t: string, n: nat)
    requires Inv(j) && RecordReadback(j, receipt, t).1.None? && RowAt(j, t, receipt.operationId, n)
    ensures
      var k := RecordReadback(j, receipt, t).0;
      && OthersUntouched(j, k, t) && k.transactions == j.transactions
      && RowsOf(k, t) == RowsOf(j, t)[n :=
           RowsOf(j, t)[n].(state := OpVerified, readbackDigest := Some(receipt.readbackDigest))]
  {
    RowAtIsFound(j, t, receipt.operationId, n);
    OneRowRewritten(j, t, receipt.operationId, n, row => MarkVerified(row, receipt));
  }

  // --- fail ------------------------------------------------------------------------------

  /** The reason kept is the reason given, cut off at four thousand characters. */
  lemma {:induction false} ReasonKept(reason: string)
    ensures Truncated(reason) <= reason && |Truncated(reason)| <= 4000
    ensures |Truncated(reason)| < 4000 ==> Truncated(reason) == reason
  {
  }

  /** A failure marks the transaction and the named operation, and keeps everything else recorded of them. */
  lemma {:induction false} FailLeaves(j: Journal, t: string, operationId: Option<string>, reason: string)
    requires Inv(j)
    ensures
      var k := Fail(j, t, operationId, reason);
      && OthersUntouched(j, k, t) && |RowsOf(k, t)| == |RowsOf(j, t)|
      && (t !in j.transactions ==> k == j)
      && (t in j.transactions ==>
            && t in k.transactions
            && k.transactions[t] == j.transactions[t].(state := Failed, failureReason := Some(Truncated(reason))))
      && forall i :: 0 <= i < |RowsOf(j, t)| ==>
           RowsOf(k, t)[i] == if operationId == Some(RowsOf(j, t)[i].operation.operationId)
                              then RowsOf(j, t)[i].(state := OpFailed) else RowsOf(j, t)[i]
  {
    if operationId.Some? {
      UpdateRowsAt(RowsOf(j, t), operationId.value, MarkFailed);
    }
  }

  // --- complete --------------------------------------------------------------------------

  lemma {:induction false} SameIdsInOrder(receipts: seq<ExecutedOperation>, rows: seq<OperationRow>)
    ensures ReceiptIds(receipts) == OperationIds(rows)
       <==> && |receipts| == |rows|
            && forall i :: 0 <= i < |rows| && i < |receipts| ==>
                 receipts[i].operationId == rows[i].operation.operationId
  {
    var ids, rowIds := ReceiptIds(receipts), OperationIds(rows);
    assert ids == rowIds <==> |ids| == |rowIds| && forall i :: 0 <= i < |ids| ==> ids[i] == rowIds[i];
  }

  lemma {:induction false} CompleteAcceptedInOrder(j: Journal, receipt: TransactionReceipt)
    requires RowsInOrder(j, receipt.transactionId) == RowsOf(j, receipt.transactionId)
    ensures
      var t := receipt.transactionId;
      Complete(j, receipt).1.None?
      <==> && t in j.transactions
           && j.transactions[t].authorizationId == receipt.authorizationId
           && j.transactions[t].planDigest == receipt.planDigest
           && RowsOf(j, t) != []
           && (forall i :: 0 <= i < |RowsOf(j, t)| ==> RowsOf(j, t)[i].state == OpVerified)
           && ReceiptIds(receipt.operationReceipts) == OperationIds(RowsOf(j, t))
  {
  }

  /** Completion is accepted exactly for the transaction's own identity, all rows verified, receipts in order. */
  lemma {:induction false} CompleteAcceptedIff(j: Journal, receipt: TransactionReceipt)
    requires Inv(j)
    ensures
      var t := receipt.transactionId;
      Complete(j, receipt).1.None?
      <==> && t in j.transactions
           && j.transactions[t].authorizationId == receipt.authorizationId
           && j.transactions[t].planDigest == receipt.planDigest
           && (forall i :: 0 <= i < |RowsOf(j, t)| ==> RowsOf(j, t)[i].state == OpVerified)
           && |receipt.operationReceipts| == |RowsOf(j, t)|
           && (forall i :: 0 <= i < |RowsOf(j, t)| && i < |receipt.operationReceipts| ==>
                 receipt.operationReceipts[i].operationId == RowsOf(j, t)[i].operation.operationId)
  {
    OrderIsInsertion(j, receipt.transactionId);
    CompleteAcceptedInOrder(j, receipt);
    SameIdsInOrder(receipt.operationReceipts, RowsOf(j, receipt.transactionId));
    assert TransactionConsistent(j, receipt.transactionId);
  }

  /** An accepted completion records the receipt and leaves the rows alone. */
  lemma {:induction false} CompleteLeaves(j: Journal, receipt: TransactionReceipt)
    requires Complete(j, receipt).1.None?
    ensures
      var t, k := receipt.transactionId, Complete(j, receipt).0;
      && OthersUntouched(j, k, t) && k.operations == j.operations
      && t in j.transactions && t in k.transactions
      && k.transactions[t]
         == j.transactions[t].(state := Completed, providerWrites := receipt.providerWrites,
                               failureReason := None, receipt := Some(receipt))
  {
  }

  // --- Attempts --------------------------------------------------------------------------

  /** The call is an accepted write of the operation in transaction `t`. */
  ghost predicate Attempts(j: Journal, call: Call, t: string, operationId: string) {
    && call.WriteCall? && call.transactionId == t && call.operation.operationId == operationId
    && Step(j, call).1.None?
  }

  ghost function AttemptsIn(calls: seq<Call>, t: string, operationId: string): nat {
    if calls == [] then 0
    else
      var front := calls[..|calls| - 1];
      AttemptsIn(front, t, operationId)
      + if Attempts(Run(front), calls[|calls| - 1], t, operationId) then 1 else 0
  }

  lemma {:induction false} WriteCounts(j: Journal, operation: PlannedOperation, receipt: WriteReceipt, u: string,
                                       t: string, i: nat)
    requires Inv(j) && i < |RowsOf(j, t)|
    ensures
      var (k, refusal) := RecordWrite(j, operation, receipt, u);
      && i < |RowsOf(k, t)|
      && RowsOf(k, t)[i].attempts
         == RowsOf(j, t)[i].attempts
            + if refusal.None? && u == t && operation.operationId == RowsOf(j, t)[i].operation.operationId then 1 else 0
  {
    WriteAcceptedIff(j, operation, receipt, u);
    if RecordWrite(j, operation, receipt, u).1.None? {
      var n := KnownRow(j, u, operation);
      WriteLeaves(j, operation, receipt, u, n);
      assert TransactionConsistent(j, t);
      assert u != t ==> Lookup(RecordWrite(j, operation, receipt, u).0.operations, t) == Lookup(j.operations, t);
    }
  }

  lemma {:induction false} OtherCallsDoNotCount(j: Journal, call: Call, t: string, i: nat)
    requires Inv(j) && i < |RowsOf(j, t)| && !call.WriteCall?
    ensures i < |RowsOf(Step(j, call).0, t)| && RowsOf(Step(j, call).0, t)[i].attempts == RowsOf(j, t)[i].attempts
  {
    match call
    case BeginCall(plan, u) =>
      if Step(j, call).1.None? {
        BeginLeaves(j, plan, u);
        assert u != t ==> Lookup(Step(j, call).0.operations, t) == Lookup(j.operations, t);
      }
    case ReadbackCall(receipt, u) =>
      if Step(j, call).1.None? {
        var n := FindRow(RowsOf(j, u), receipt.operationId).value;
        ReadbackLeaves(j, receipt, u, n);
        assert u != t ==> Lookup(Step(j, call).0.operations, t) == Lookup(j.operations, t);
      }
    case FailCall(u, operationId, reason) =>
      FailLeaves(j, u, operationId, reason);
      assert u != t ==> Lookup(Step(j, call).0.operations, t) == Lookup(j.operations, t);
    case CompleteCall(receipt) =>
      if Step(j, call).1.None? {
        CompleteLeaves(j, receipt);
      }
  }

  /** A row's attempts are the writes accepted for it since its transaction was begun. */
  lemma {:induction false} AttemptsAreWrites(calls: seq<Call>, t: string, i: nat)
    requires i < |RowsOf(Run(calls), t)|
    ensures
      var row := RowsOf(Run(calls), t)[i];
      row.attempts == AttemptsIn(calls, t, row.operation.operationId)
  {
    if calls != [] {
      var front, call := calls[..|calls| - 1], calls[|calls| - 1];
      var j, k := Run(front), Run(calls);
      var id := RowsOf(k, t)[i].operation.operationId;
      EveryRunIsConsistent(front);
      if t in j.transactions {
        StepKeeps(j, call);
        assert Kept(j, k, t);
        AttemptsAreWrites(front, t, i);
        if call.WriteCall? {
          WriteCounts(j, call.operation, call.write, call.transactionId, t, i);
        } else {
          OtherCallsDoNotCount(j, call, t, i);
        }
      } else {
        NotBegunHasNoAttempts(front, t, id);
        FirstAppearance(j, call, t, i);
      }
    }
  }

  lemma {:induction false} NotBegunHasNoAttempts(calls: seq<Call>, t: string, operationId: string)
    requires t !in Run(calls).transactions
    ensures AttemptsIn(calls, t, operationId) == 0
  {
    if calls != [] {
      var front, call := calls[..|calls| - 1], calls[|calls| - 1];
      EveryRunIsConsistent(front);
      StepKeeps(Run(front), call);
      assert Kept(Run(front), Run(calls), t);
      NotBegunHasNoAttempts(front, t, operationId);
      UnknownIsNotWritten(Run(front), call, t, operationId);
    }
  }

  lemma {:induction false} UnknownIsNotWritten(j: Journal, call: Call, t: string, operationId: string)
    requires Inv(j) && t !in j.transactions
    ensures !Attempts(j, call, t, operationId)
  {
    if call.WriteCall? && call.transactionId == t {
      WriteAcceptedIff(j, call.operation, call.write, t);
    }
  }

  /** Only begin brings a transaction into the journal. */
  lemma {:induction false} OnlyBeginAdds(j: Journal, call: Call, t: string)
    requires Inv(j) && t !in j.transactions && !call.BeginCall?
    ensures RowsOf(Step(j, call).0, t) == []
  {
    match call
    case WriteCall(operation, receipt, u) =>
      WriteAcceptedIff(j, operation, receipt, u);
      if Step(j, call).1.None? {
        var n := KnownRow(j, u, operation);
        WriteLeaves(j, operation, receipt, u, n);
      }
    case ReadbackCall(receipt, u) =>
      if Step(j, call).1.None? {
        ReadbackLeaves(j, receipt, u, FindRow(RowsOf(j, u), receipt.operationId).value);
      }
    case FailCall(u, operationId, reason) => FailLeaves(j, u, operationId, reason);
    case CompleteCall(receipt) =>
      if Step(j, call).1.None? {
        CompleteLeaves(j, receipt);
      }
  }

  lemma {:induction false} FirstAppearance(j: Journal, call: Call, t: string, i: nat)
    requires Inv(j) && t !in j.transactions && i < |RowsOf(Step(j, call).0, t)|
    ensures RowsOf(Step(j, call).0, t)[i].attempts == 0
    ensures forall id :: !Attempts(j, call, t, id)
  {
    forall id ensures !Attempts(j, call, t, id) {
      UnknownIsNotWritten(j, call, t, id);
    }
    if call.BeginCall? {
      BeginOnly(j, call.plan, call.transactionId, t, i);
    } else {
      OnlyBeginAdds(j, call, t);
    }
  }

  lemma {:induction false} BeginOnly(j: Journal, plan: AuthorizedPlan, u: string, t: string, i: nat)
    requires Inv(j) && t !in j.transactions && i < |RowsOf(Begin(j, plan, u).0, t)|
    ensures RowsOf(Begin(j, plan, u).0, t)[i].attempts == 0
  {
    if Begin(j, plan, u).1.None? {
      BeginLeaves(j, plan, u);
      assert u != t ==> Lookup(Begin(j, plan, u).0.operations, t) == Lookup(j.operations, t);
    }
  }
}
