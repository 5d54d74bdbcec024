/** What a cleanup needs before anything runs, and what its receipt tells afterwards. */
module CleanupAuthority {
  import opened Common
  import opened HistoricalCleanup
  import opened CleanupGuarantees

  // --- The gate --------------------------------------------------------------------------

  /** Everything an authorisation must grant, in the plan's and the authorisation's own fields. */
  ghost predicate Permitted(plan: Plan, auth: Authorization) {
    && plan.blockers == []
    && auth.transactionId == plan.transactionId
    && auth.inventoryDigest == plan.inventoryDigest
    && auth.planDigest == plan.planDigest
    && (forall id :: id in auth.exactItemIds <==> exists op :: op in plan.operations && op.itemId == id)
    && (forall op :: op in plan.operations ==> op.action in auth.allowedActions)
    && |plan.operations| <= auth.objectBudget
    && TotalBytes(plan.operations) <= auth.byteBudget
    && (auth.destructiveActionsAuthorized || forall op :: op in plan.operations ==> !op.action.Delete?)
  }

  lemma {:induction false} PlanItemIds(ops: seq<Operation>)
    ensures forall id :: id in ToSet(ItemIds(ops)) <==> exists op :: op in ops && op.itemId == id
  {
    forall op | op in ops ensures op.itemId in ItemIds(ops) {
      var i :| 0 <= i < |ops| && ops[i] == op;
      assert ItemIds(ops)[i] == op.itemId;
    }
    forall id | id in ItemIds(ops) ensures exists op :: op in ops && op.itemId == id {
      var i :| 0 <= i < |ops| && ItemIds(ops)[i] == id;
      assert ops[i] in ops;
    }
  }

  lemma {:induction false} PlanActions(ops: seq<Operation>)
    ensures forall action :: action in ActionsOf(ops) <==> exists op :: op in ops && op.action == action
  {
    forall op | op in ops ensures op.action in ActionsOf(ops) {
      var i :| 0 <= i < |ops| && ops[i] == op;
    }
  }

  lemma {:induction false} SameIds(ops: seq<Operation>, ids: seq<string>)
    ensures ToSet(ItemIds(ops)) == ToSet(ids)
       <==> forall id :: id in ids <==> exists op :: op in ops && op.itemId == id
  {
    PlanItemIds(ops);
    if forall id :: id in ids <==> exists op :: op in ops && op.itemId == id {
      forall id ensures id in ToSet(ItemIds(ops)) <==> id in ToSet(ids) {
      }
    } else {
      var id :| !(id in ids <==> exists op :: op in ops && op.itemId == id);
      assert id in ToSet(ItemIds(ops)) <==> id !in ToSet(ids);
    }
  }

  lemma {:induction false} AllowedActions(ops: seq<Operation>, allowed: seq<Action>)
    ensures ActionsOf(ops) <= ToSet(allowed) <==> forall op :: op in ops ==> op.action in allowed
    ensures Delete in ActionsOf(ops) <==> exists op :: op in ops && op.action.Delete?
  {
    PlanActions(ops);
    if ActionsOf(ops) <= ToSet(allowed) {
      forall op | op in ops ensures op.action in allowed {
        assert op.action in ActionsOf(ops);
      }
    }
  }

  lemma {:induction false} PermittedIff(plan: Plan, auth: Authorization)
    ensures ValidateAuthorization(plan, auth).None? <==> Permitted(plan, auth)
    ensures ValidateAuthorization(plan, auth) != Some(DuplicateOperationResults)
  {
    var ops := plan.operations;
    SameIds(ops, auth.exactItemIds);
    AllowedActions(ops, auth.allowedActions);
  }

  /**
    Live or dry, the operations run exactly when everything is granted; otherwise the store is left
    alone and the refusal is raised.
   */
  lemma {:induction false} RunsExactlyWhenPermitted(
      plan: Plan, auth: Authorization, s: Store, dryRun: bool, sha: Sha256)
    ensures
      var (t, r) := Execute(plan, auth, s, dryRun, sha);
      && (r.Ok? <==> Permitted(plan, auth) && Distinct(OperationIds(plan.operations)))
      && (Permitted(plan, auth) ==> t == if dryRun then s else StoreAfter(s, plan.operations, |plan.operations|, sha))
      && (!Permitted(plan, auth) ==> t == s && r.Err? && r.error != DuplicateOperationResults)
  {
    PermittedIff(plan, auth);
  }

  /** A plan that deletes anything without destructive authorisation is refused, live or dry. */
  lemma {:induction false} UnauthorisedDeletionRefused(
      plan: Plan, auth: Authorization, s: Store, dryRun: bool, sha: Sha256, op: Operation)
    requires op in plan.operations && op.action.Delete? && !auth.destructiveActionsAuthorized
    ensures Execute(plan, auth, s, dryRun, sha).0 == s && Execute(plan, auth, s, dryRun, sha).1.Err?
  {
    RunsExactlyWhenPermitted(plan, auth, s, dryRun, sha);
  }

  /** The bytes counted against the budget are the sum over the operations. */
  lemma {:induction false} BytesAdd(a: seq<Operation>, b: seq<Operation>)
    ensures TotalBytes(a + b) == TotalBytes(a) + TotalBytes(b)
  {
    if b == [] {
      assert a + b == a;
    } else {
      BytesAdd(a, b[..|b| - 1]);
      assert (a + b)[..|a + b| - 1] == a + b[..|b| - 1];
    }
  }

  lemma {:induction false} BytesOfOne(op: Operation)
    ensures TotalBytes([op]) == op.sizeBytes
  {
    assert TotalBytes([op][..0]) == 0;
  }

  // --- The receipt -----------------------------------------------------------------------

  /** A result and a readback of one operation. */
  predicate Reports(op: Operation, result: OperationResult, seen: ReadbackResult) {
    && result.operationId == seen.operationId == op.operationId
    && result.itemId == seen.itemId == op.itemId
    && result.idempotencyKey == op.idempotencyKey && result.action == op.action
  }

  /** A receipt names the plan and the authorisation and lists every operation, in order. */
  ghost predicate Names(r: Receipt, plan: Plan, auth: Authorization) {
    && r.transactionId == plan.transactionId && r.authorizationId == auth.authorizationId
    && r.inventoryDigest == plan.inventoryDigest && r.planDigest == plan.planDigest
    && |r.operationResults| == |r.readbackResults| == |plan.operations|
    && forall i :: 0 <= i < |plan.operations| ==>
         Reports(plan.operations[i], r.operationResults[i], r.readbackResults[i])
  }

  lemma {:induction false} DryResultListed(ops: seq<Operation>, n: nat, i: nat, sha: Sha256)
    requires i < n <= |ops|
    ensures DryResults(ops, n, sha)[i] == DryResult(ops[i], sha)
  {
    if i < n - 1 {
      DryResultListed(ops, n - 1, i, sha);
    }
  }

  lemma {:induction false} LiveReports(s: Store, ops: seq<Operation>, i: nat, sha: Sha256)
    requires i < |ops|
    ensures Reports(ops[i], LiveResults(s, ops, |ops|, sha)[i], LiveReadbacks(s, ops, |ops|, sha)[i])
  {
    LiveResultListed(s, ops, |ops|, i, sha);
    LiveReadbackListed(s, ops, |ops|, i, sha);
  }

  lemma {:induction false} DryReports(s: Store, ops: seq<Operation>, i: nat, sha: Sha256)
    requires i < |ops|
    ensures Reports(ops[i], DryResults(ops, |ops|, sha)[i], DryReadbacks(s, ops, |ops|)[i])
    ensures !DryResults(ops, |ops|, sha)[i].applied && !DryResults(ops, |ops|, sha)[i].changed
  {
    DryResultListed(ops, |ops|, i, sha);
    DryReadbackListed(s, ops, |ops|, i);
  }

  lemma {:induction false} ReceiptNames(plan: Plan, auth: Authorization, s: Store, dryRun: bool, sha: Sha256)
    requires Execute(plan, auth, s, dryRun, sha).1.Ok?
    ensures Names(Execute(plan, auth, s, dryRun, sha).1.value, plan, auth)
  {
    var ops := plan.operations;
    forall i | 0 <= i < |ops|
      ensures
        if dryRun then Reports(ops[i], DryResults(ops, |ops|, sha)[i], DryReadbacks(s, ops, |ops|)[i])
        else Reports(ops[i], LiveResults(s, ops, |ops|, sha)[i], LiveReadbacks(s, ops, |ops|, sha)[i])
    {
      LiveReports(s, ops, i, sha);
      DryReports(s, ops, i, sha);
    }
  }

  /** What one turn of a live run reports: the outcome of applying, and what is then read. */
  lemma {:induction false} LiveTurnReported(s: Store, ops: seq<Operation>, i: nat, sha: Sha256)
    requires i < |ops|
    ensures
      var result, seen := LiveResults(s, ops, |ops|, sha)[i], LiveReadbacks(s, ops, |ops|, sha)[i];
      var outcome, after := OutcomeAt(s, ops, i, sha), StoreAfter(s, ops, i + 1, sha);
      && (result.applied <==> outcome.Ok?)
      && (outcome.Ok? ==> result.changed == outcome.value.changed && result.resultDigest == outcome.value.digest)
      && (outcome.Err? ==> !result.changed && result.error == seen.error == Some(outcome.error))
      && (seen.verified <==> outcome.Ok? && AtTarget(after, ops[i]))
      && (seen.verified <==> seen.error.None?)
      && (ops[i].itemId in after.items ==>
            && seen.observedDigest == Some(after.items[ops[i].itemId].digest)
            && seen.observedState
               == if after.items[ops[i].itemId].state.Other? then Unknown else after.items[ops[i].itemId].state)
      && (ops[i].itemId !in after.items ==> seen.observedDigest.None? && seen.observedState == Deleted)
  {
    LiveResultListed(s, ops, |ops|, i, sha);
    LiveReadbackListed(s, ops, |ops|, i, sha);
    ReadbackIffAtTarget(StoreAfter(s, ops, i + 1, sha), ops[i], sha);
  }

  /** What one turn of a dry run reports: the untouched item, verified exactly when its digest is the expected one. */
  lemma {:induction false} DryTurnReported(s: Store, ops: seq<Operation>, i: nat, sha: Sha256)
    requires i < |ops|
    ensures
      var result, seen := DryResults(ops, |ops|, sha)[i], DryReadbacks(s, ops, |ops|)[i];
      var op := ops[i];
      && !result.applied && !result.changed && result.error.None? && result.resultDigest == sha(DryRunOf(op))
      && (seen.verified <==> && op.itemId in s.items && s.items[op.itemId].digest == op.expectedDigest
                             && s.items[op.itemId].state != Unknown)
      && seen.error == (if seen.verified then None else Some(DryRunReadbackMismatch))
      && seen.observedDigest == (if op.itemId in s.items then Some(s.items[op.itemId].digest) else None)
      && seen.observedState
         == (if op.itemId !in s.items then Deleted
             else if s.items[op.itemId].state.Other? then Unknown else s.items[op.itemId].state)
  {
    DryResultListed(ops, |ops|, i, sha);
    DryReadbackListed(s, ops, |ops|, i);
  }

  ghost predicate AllVerified(r: Receipt) {
    forall i :: 0 <= i < |r.readbackResults| ==> r.readbackResults[i].verified
  }

  ghost predicate NoneVerified(r: Receipt) {
    forall i :: 0 <= i < |r.readbackResults| ==> !r.readbackResults[i].verified
  }

  predicate IsVerified(r: ReadbackResult) { r.verified }

  lemma {:induction false} FailuresAndVerified(readbacks: seq<ReadbackResult>)
    ensures Failures(readbacks) + CountIf(readbacks, IsVerified) == |readbacks|
  {
    if readbacks != [] {
      FailuresAndVerified(readbacks[..|readbacks| - 1]);
    }
  }

  /** The status in terms of the readbacks the receipt itself lists. */
  lemma {:induction false} StatusMeaning(plan: Plan, auth: Authorization, s: Store, dryRun: bool, sha: Sha256)
    requires Execute(plan, auth, s, dryRun, sha).1.Ok?
    ensures
      var r := Execute(plan, auth, s, dryRun, sha).1.value;
      r.status ==
        if dryRun then (if AllVerified(r) then Simulated else Failed)
        else if plan.operations == [] || NoneVerified(r) then Failed
        else if AllVerified(r) then Completed
        else Partial
  {
    var readbacks := Execute(plan, auth, s, dryRun, sha).1.value.readbackResults;
    CountIfZero(readbacks, IsFailure);
    CountIfZero(readbacks, IsVerified);
    FailuresAndVerified(readbacks);
  }

  // --- One operation, in the store's own terms -------------------------------------------

  /** What `apply` must find to change the item. */
  lemma {:induction false} AppliedMeaning(s: Store, op: Operation, sha: Sha256)
    ensures
      var t, r := s.Next(op, sha), s.Outcome(op, sha);
      && (r.Err? <==> && op.idempotencyKey !in s.results
                      && (if op.itemId in s.items then s.items[op.itemId].digest != op.expectedDigest
                          else !op.action.Delete?))
      && (r.Err? ==> t == s)
      && (r.Ok? ==> op.idempotencyKey in t.results && t.results[op.idempotencyKey].digest == r.value.digest)
      && (r.Ok? && r.value.changed ==> t.items != s.items)
      && (op.idempotencyKey !in s.results && r.Ok? ==>
            && AtTarget(t, op) && t.results[op.idempotencyKey] == r.value
            && r.value.digest == (if op.action.Delete? then sha(DeletedItem(op.itemId)) else op.expectedDigest)
            && (r.value.changed <==> op.itemId in s.items && s.items[op.itemId].state != TargetState(op.action)))
      && (op.idempotencyKey in s.results ==> t == s && r == Ok(Applied(false, s.results[op.idempotencyKey].digest)))
  {
    if s.Accepts(op) && !op.action.Delete? {
      assert s.Next(op, sha).items[op.itemId].state == TargetState(op.action);
    }
  }
}
