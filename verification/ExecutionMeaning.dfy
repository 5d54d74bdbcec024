/** When an attended execution runs at all, when it succeeds, and what its receipt says. */
module ExecutionMeaning {
  import opened Common
  import opened ExecutionJournal
  import opened JournalGuarantees
  import opened AttendedExecution

  /** The provider answers for this operation, and reads back the record and digest it wrote. */
  predicate Honest(operation: PlannedOperation, response: Response) {
    match response
    case Response(Ok(write), Ok(readback)) =>
      && write.operationId == operation.operationId && write.provider == operation.provider
      && write.idempotencyKey == operation.idempotencyKey
      && readback.operationId == operation.operationId && readback.providerRecordId == write.providerRecordId
      && readback.readbackDigest == write.writeDigest
    case _ => false
  }

  lemma {:induction false} ConformsIffHonest(operation: PlannedOperation, response: Response)
    ensures Conforms(operation, response) <==> Honest(operation, response)
  {
  }

  /** Without an id, the guard's permission or the journal's acceptance the execution raises and nothing changes. */
  lemma {:induction false} RefusedChangesNothing(
      j: Journal, plan: AuthorizedPlan, t: string, allowed: bool, responses: seq<Response>, text: ErrorText)
    requires |responses| == |plan.operations|
    requires Blank(t) || !allowed || Begin(j, plan, t).1.Some?
    ensures Execute(j, plan, t, allowed, responses, text).0 == j
    ensures Execute(j, plan, t, allowed, responses, text).1.Err?
  {
    RaisingCallRollsBack(j, BeginCall(plan, t));
  }

  /**
    An execution succeeds exactly when the id is given, the guard permits it, the journal accepts
    the plan and the provider is honest about every operation; exactly then is the transaction
    completed by it.
   */
  lemma {:induction false} SucceedsExactly(
      j: Journal, plan: AuthorizedPlan, t: string, allowed: bool, responses: seq<Response>, text: ErrorText)
    requires Inv(j) && |responses| == |plan.operations|
    ensures
      var (k, r) := Execute(j, plan, t, allowed, responses, text);
      && (r.Ok? <==> && !Blank(t) && allowed && Begin(j, plan, t).1.None?
                     && forall i :: 0 <= i < |responses| ==> Honest(plan.operations[i], responses[i]))
      && (r.Ok? ==> IsCompleted(k, t))
      && (r.Err? && !Blank(t) && allowed && Begin(j, plan, t).1.None? ==>
            t in k.transactions && k.transactions[t].state == Failed)
  {
    forall i | 0 <= i < |responses|
      ensures Conforms(plan.operations[i], responses[i]) <==> Honest(plan.operations[i], responses[i])
    {
      ConformsIffHonest(plan.operations[i], responses[i]);
    }
    if Blank(t) || !allowed || Begin(j, plan, t).1.Some? {
      RefusedChangesNothing(j, plan, t, allowed, responses, text);
    } else {
      ExecutionOutcome(j, plan, t, responses, text);
    }
  }

  predicate WroteChange(response: Response) {
    response.write.Ok? && response.write.value.changed
  }

  lemma {:induction false} ChangesCounted(receipts: seq<ExecutedOperation>, responses: seq<Response>)
    requires |receipts| == |responses|
    requires forall i :: 0 <= i < |receipts| ==> (receipts[i].changed <==> WroteChange(responses[i]))
    ensures CountIf(receipts, IsChange) == CountIf(responses, WroteChange)
  {
    if receipts != [] {
      ChangesCounted(receipts[..|receipts| - 1], responses[..|responses| - 1]);
    }
  }

  /** The receipt lists what the provider answered for every operation, in the plan's order. */
  ghost predicate Lists(r: TransactionReceipt, plan: AuthorizedPlan, t: string, responses: seq<Response>)
    requires |responses| == |plan.operations|
  {
    && r.transactionId == t && r.authorizationId == plan.authorizationId && r.planDigest == plan.planDigest
    && |r.operationReceipts| == |plan.operations|
    && (forall i :: 0 <= i < |plan.operations| ==> responses[i].write.Ok? && responses[i].readback.Ok?)
    && (forall i :: 0 <= i < |plan.operations| ==>
          r.operationReceipts[i]
          == ExecutedOperation(
               plan.operations[i].operationId, plan.operations[i].provider, responses[i].write.value.providerRecordId,
               plan.operations[i].idempotencyKey, responses[i].write.value.writeDigest,
               responses[i].readback.value.readbackDigest, responses[i].write.value.changed))
    && r.providerWrites == CountIf(responses, WroteChange)
  }

  lemma {:induction false} ReceiptMeaning(
      j: Journal, plan: AuthorizedPlan, t: string, allowed: bool, responses: seq<Response>, text: ErrorText)
    requires Inv(j) && |responses| == |plan.operations|
    requires Execute(j, plan, t, allowed, responses, text).1.Ok?
    ensures
      var (k, r) := Execute(j, plan, t, allowed, responses, text);
      && Lists(r.value, plan, t, responses)
      && t in k.transactions && k.transactions[t].receipt == Some(r.value)
      && k.transactions[t].providerWrites == r.value.providerWrites
  {
    SucceedsExactly(j, plan, t, allowed, responses, text);
    ExecutionOutcome(j, plan, t, responses, text);
    ConformingExecution(j, plan, t, responses, text);
    var (k, r) := Execute(j, plan, t, allowed, responses, text);
    ChangesCounted(r.value.operationReceipts, responses);
    assert TransactionConsistent(k, t);
  }
}
