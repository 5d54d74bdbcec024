/**
  Exact historical cleanup transactions: the in-memory store, authorisation, execution with
  mandatory readback, and the receipt.
 */
module HistoricalCleanup {
  import opened Common

  type Digest = string

  datatype Action = Migrate | Archive | Delete

  datatype Operation = Operation(
    operationId: string, sequence: nat, itemId: string, action: Action,
    sourceLocation: string, destinationLocation: Option<string>,
    expectedDigest: Digest, sizeBytes: nat, idempotencyKey: string)

  datatype Plan = Plan(
    transactionId: string, inventoryDigest: Digest, operations: seq<Operation>,
    blockers: seq<string>, planDigest: Digest)

  datatype Authorization = Authorization(
    authorizationId: string, transactionId: string, inventoryDigest: Digest, planDigest: Digest,
    exactItemIds: seq<string>, allowedActions: seq<Action>, objectBudget: int, byteBudget: int,
    destructiveActionsAuthorized: bool)

  /** Everything the transaction hashes; the hash itself stays a parameter. */
  datatype HashInput =
    | DeletedItem(itemId: string)
    | DryRunOf(operation: Operation)
    | FailureOf(operationId: string, failure: Error)
    | PlanPayload(operations: seq<Operation>, blockers: seq<string>)

  type Sha256 = HashInput -> Digest

  datatype Error =
    | SourceMissing(itemId: string)
    | SourceDigestChanged(itemId: string)
    | UnresolvedBlockers
    | TransactionMismatch
    | InventoryMismatch
    | PlanDigestMismatch
    | ItemSetMismatch
    | ActionsNotCovered
    | ObjectBudgetExceeded
    | ByteBudgetExceeded
    | DeleteNotAuthorized
    | DuplicateOperationResults
    | DryRunReadbackMismatch
    | ReadbackFailed

  /** The five state strings a receipt may show; `Other` is any other stored string. */
  datatype State = Present | Archived | Migrated | Deleted | Unknown | Other(text: string)

  datatype Stored = Stored(state: State, digest: Digest)
  datatype Applied = Applied(changed: bool, digest: Digest)
  datatype Observed = Observed(state: State, digest: Option<Digest>)

  // --- The store -------------------------------------------------------------------------

  datatype Store = Store(items: map<string, Stored>, results: map<string, Applied>)
  {
    function Read(itemId: string): Observed {
      if itemId in items then Observed(items[itemId].state, Some(items[itemId].digest))
      else Observed(Deleted, None)
    }

    /** Whether `apply` gets past its guards and rewrites the item. */
    predicate Accepts(op: Operation) {
      && op.idempotencyKey !in results
      && op.itemId in items
      && items[op.itemId].digest == op.expectedDigest
    }

    /** What `apply` returns or raises. */
    function Outcome(op: Operation, sha: Sha256): Result<Applied, Error> {
      if op.idempotencyKey in results then Ok(Applied(false, results[op.idempotencyKey].digest))
      else if op.itemId !in items then
        if op.action.Delete? then Ok(Applied(false, sha(DeletedItem(op.itemId))))
        else Err(SourceMissing(op.itemId))
      else if items[op.itemId].digest != op.expectedDigest then Err(SourceDigestChanged(op.itemId))
      else
        Ok(Applied(items[op.itemId].state != TargetState(op.action),
                   if op.action.Delete? then sha(DeletedItem(op.itemId)) else op.expectedDigest))
    }

    /** The store `apply` leaves. */
    function Next(op: Operation, sha: Sha256): Store {
      var outcome := Outcome(op, sha);
      Store(
        if !Accepts(op) then items
        else if op.action.Delete? then items - {op.itemId}
        else items[op.itemId := Stored(TargetState(op.action), op.expectedDigest)],
        if op.idempotencyKey in results || outcome.Err? then results
        else results[op.idempotencyKey := outcome.value])
    }
  }

  function TargetState(action: Action): State {
    match action
    case Delete => Deleted
    case Archive => Archived
    case Migrate => Migrated
  }

  class InMemoryHistoricalStore {
    var items: map<string, Stored>
    var idempotencyResults: map<string, Applied>

    constructor (items: map<string, Stored>, idempotencyResults: map<string, Applied>)
      ensures Contents() == Store(items, idempotencyResults)
    {
      this.items := items;
      this.idempotencyResults := idempotencyResults;
    }

    function Contents(): Store
      reads this
    {
      Store(items, idempotencyResults)
    }

    method Read(itemId: string) returns (r: Observed)
      ensures r == Contents().Read(itemId)
    {
      if itemId !in items {
        return Observed(Deleted, None);
      }
      var value := items[itemId];
      r := Observed(value.state, Some(value.digest));
    }

    method Apply(op: Operation, sha: Sha256) returns (r: Result<Applied, Error>)
      modifies this
      ensures Contents() == old(Contents()).Next(op, sha)
      ensures r == old(Contents()).Outcome(op, sha)
    {
      if op.idempotencyKey in idempotencyResults {
        return Ok(Applied(false, idempotencyResults[op.idempotencyKey].digest));
      }
      if op.itemId !in items {
        if op.action.Delete? {
          var result := Applied(false, sha(DeletedItem(op.itemId)));
          idempotencyResults := idempotencyResults[op.idempotencyKey := result];
          return Ok(result);
        }
        return Err(SourceMissing(op.itemId));
      }
      var current := items[op.itemId];
      if current.digest != op.expectedDigest {
        return Err(SourceDigestChanged(op.itemId));
      }
      var resultDigest := current.digest;
      match op.action {
        case Delete =>
          items := items - {op.itemId};
          resultDigest := sha(DeletedItem(op.itemId));
        case Archive =>
          items := items[op.itemId := Stored(Archived, current.digest)];
        case Migrate =>
          items := items[op.itemId := Stored(Migrated, current.digest)];
      }
      var after := if op.itemId in items then items[op.itemId].state else Deleted;
      var result := Applied(current.state != after, resultDigest);
      idempotencyResults := idempotencyResults[op.idempotencyKey := result];
      r := Ok(result);
    }
  }

  // --- Contracts of the plan and its authorisation ---------------------------------------

  function ItemIds(ops: seq<Operation>): (r: seq<string>)
    ensures |r| == |ops|
  {
    seq(|ops|, i requires 0 <= i < |ops| => ops[i].itemId)
  }

  function Keys(ops: seq<Operation>): (r: seq<string>)
    ensures |r| == |ops|
  {
    seq(|ops|, i requires 0 <= i < |ops| => ops[i].idempotencyKey)
  }

  function OperationIds(ops: seq<Operation>): (r: seq<string>)
    ensures |r| == |ops|
  {
    seq(|ops|, i requires 0 <= i < |ops| => ops[i].operationId)
  }

  predicate ValidPlan(plan: Plan, sha: Sha256) {
    && (plan.operations != [] || plan.blockers != [])
    && (forall i :: 0 <= i < |plan.operations| ==> plan.operations[i].sequence == i)
    && Distinct(ItemIds(plan.operations))
    && Distinct(Keys(plan.operations))
    && Distinct(plan.blockers)
    && sha(PlanPayload(plan.operations, plan.blockers)) == plan.planDigest
  }

  function TotalBytes(ops: seq<Operation>): nat {
    if ops == [] then 0 else TotalBytes(ops[..|ops| - 1]) + ops[|ops| - 1].sizeBytes
  }

  function ActionsOf(ops: seq<Operation>): set<Action> {
    set i | 0 <= i < |ops| :: ops[i].action
  }

  function ValidateAuthorization(plan: Plan, auth: Authorization): Option<Error> {
    if plan.blockers != [] then Some(UnresolvedBlockers)
    else if auth.transactionId != plan.transactionId then Some(TransactionMismatch)
    else if auth.inventoryDigest != plan.inventoryDigest then Some(InventoryMismatch)
    else if auth.planDigest != plan.planDigest then Some(PlanDigestMismatch)
    else if ToSet(ItemIds(plan.operations)) != ToSet(auth.exactItemIds) then Some(ItemSetMismatch)
    else if !(ActionsOf(plan.operations) <= ToSet(auth.allowedActions)) then Some(ActionsNotCovered)
    else if |plan.operations| > auth.objectBudget then Some(ObjectBudgetExceeded)
    else if TotalBytes(plan.operations) > auth.byteBudget then Some(ByteBudgetExceeded)
    else if Delete in ActionsOf(plan.operations) && !auth.destructiveActionsAuthorized then
      Some(DeleteNotAuthorized)
    else None
  }

  // --- Execution -------------------------------------------------------------------------

  datatype OperationResult = OperationResult(
    operationId: string, itemId: string, idempotencyKey: string, action: Action,
    applied: bool, changed: bool, resultDigest: Digest, error: Option<Error>)

  datatype ReadbackResult = ReadbackResult(
    operationId: string, itemId: string, observedState: State, observedDigest: Option<Digest>,
    verified: bool, error: Option<Error>)

  datatype Status = Simulated | Completed | Partial | Failed

  datatype Receipt = Receipt(
    transactionId: string, authorizationId: string, inventoryDigest: Digest, planDigest: Digest,
    status: Status, operationResults: seq<OperationResult>, readbackResults: seq<ReadbackResult>,
    providerWrites: nat, destructiveActions: nat)

  function StateValue(state: State): State {
    if state.Other? then Unknown else state
  }

  predicate VerifyReadback(op: Operation, seen: Observed) {
    if op.action.Delete? then seen.state == Deleted && seen.digest == None
    else seen.state == TargetState(op.action) && seen.digest == Some(op.expectedDigest)
  }

  predicate DryRunVerified(op: Operation, seen: Observed) {
    seen.state != Unknown && seen.digest == Some(op.expectedDigest)
  }

  function DryResult(op: Operation, sha: Sha256): OperationResult {
    OperationResult(op.operationId, op.itemId, op.idempotencyKey, op.action,
                    false, false, sha(DryRunOf(op)), None)
  }

  function DryReadback(op: Operation, seen: Observed): ReadbackResult {
    var verified := DryRunVerified(op, seen);
    ReadbackResult(op.operationId, op.itemId, StateValue(seen.state), seen.digest, verified,
                   if verified then None else Some(DryRunReadbackMismatch))
  }

  function LiveResult(op: Operation, outcome: Result<Applied, Error>, sha: Sha256): OperationResult {
    match outcome
    case Ok(a) =>
      OperationResult(op.operationId, op.itemId, op.idempotencyKey, op.action,
                      true, a.changed, a.digest, None)
    case Err(e) =>
      OperationResult(op.operationId, op.itemId, op.idempotencyKey, op.action,
                      false, false, sha(FailureOf(op.operationId, e)), Some(e))
  }

  function LiveReadback(op: Operation, outcome: Result<Applied, Error>, seen: Observed): ReadbackResult {
    var verified := outcome.Ok? && VerifyReadback(op, seen);
    ReadbackResult(op.operationId, op.itemId, StateValue(seen.state), seen.digest, verified,
                   if outcome.Err? then Some(outcome.error)
                   else if verified then None else Some(ReadbackFailed))
  }

  function StatusOf(dryRun: bool, failures: nat, total: nat): Status {
    if dryRun then if failures == 0 then Simulated else Failed
    else if total == 0 then Failed
    else if failures == 0 then Completed
    else if failures == total then Failed
    else Partial
  }

  predicate IsWrite(r: OperationResult) { r.changed }

  predicate IsDestructive(r: OperationResult) { r.changed && r.action.Delete? }

  predicate IsFailure(r: ReadbackResult) { !r.verified }

  function Writes(results: seq<OperationResult>): nat {
    CountIf(results, IsWrite)
  }

  function Destructive(results: seq<OperationResult>): nat {
    CountIf(results, IsDestructive)
  }

  function Failures(readbacks: seq<ReadbackResult>): nat {
    CountIf(readbacks, IsFailure)
  }

  /** The receipt contract refuses two results for one operation id. */
  function MakeReceipt(plan: Plan, auth: Authorization, dryRun: bool, failures: nat,
                       results: seq<OperationResult>, readbacks: seq<ReadbackResult>)
    : Result<Receipt, Error>
  {
    if !Distinct(OperationIds(plan.operations)) then Err(DuplicateOperationResults)
    else
      Ok(Receipt(plan.transactionId, auth.authorizationId, plan.inventoryDigest, plan.planDigest,
                 StatusOf(dryRun, failures, |plan.operations|), results, readbacks,
                 Writes(results), Destructive(results)))
  }

  /** The store after the first `n` operations of a live run. */
  function StoreAfter(s: Store, ops: seq<Operation>, n: nat, sha: Sha256): Store
    requires n <= |ops|
  {
    if n == 0 then s else StoreAfter(s, ops, n - 1, sha).Next(ops[n - 1], sha)
  }

  function OutcomeAt(s: Store, ops: seq<Operation>, i: nat, sha: Sha256): Result<Applied, Error>
    requires i < |ops|
  {
    StoreAfter(s, ops, i, sha).Outcome(ops[i], sha)
  }

  function LiveResultAt(s: Store, ops: seq<Operation>, i: nat, sha: Sha256): OperationResult
    requires i < |ops|
  {
    LiveResult(ops[i], OutcomeAt(s, ops, i, sha), sha)
  }

  function LiveResults(s: Store, ops: seq<Operation>, n: nat, sha: Sha256): (r: seq<OperationResult>)
    requires n <= |ops|
    ensures |r| == n
  {
    if n == 0 then [] else LiveResults(s, ops, n - 1, sha) + [LiveResultAt(s, ops, n - 1, sha)]
  }

  function LiveReadbackAt(s: Store, ops: seq<Operation>, i: nat, sha: Sha256): ReadbackResult
    requires i < |ops|
  {
    LiveReadback(ops[i], OutcomeAt(s, ops, i, sha), StoreAfter(s, ops, i + 1, sha).Read(ops[i].itemId))
  }

  function LiveReadbacks(s: Store, ops: seq<Operation>, n: nat, sha: Sha256): (r: seq<ReadbackResult>)
    requires n <= |ops|
    ensures |r| == n
  {
    if n == 0 then [] else LiveReadbacks(s, ops, n - 1, sha) + [LiveReadbackAt(s, ops, n - 1, sha)]
  }

  function DryResults(ops: seq<Operation>, n: nat, sha: Sha256): (r: seq<OperationResult>)
    requires n <= |ops|
    ensures |r| == n
  {
    if n == 0 then [] else DryResults(ops, n - 1, sha) + [DryResult(ops[n - 1], sha)]
  }

  function DryReadbacks(s: Store, ops: seq<Operation>, n: nat): (r: seq<ReadbackResult>)
    requires n <= |ops|
    ensures |r| == n
  {
    if n == 0 then []
    else DryReadbacks(s, ops, n - 1) + [DryReadback(ops[n - 1], s.Read(ops[n - 1].itemId))]
  }

  /** The final store and the receipt (or exception) of one call to `execute_cleanup`. */
  function Execute(plan: Plan, auth: Authorization, s: Store, dryRun: bool, sha: Sha256)
    : (Store, Result<Receipt, Error>)
  {
    var ops := plan.operations;
    var refusal := ValidateAuthorization(plan, auth);
    if refusal.Some? then (s, Err(refusal.value))
    else if dryRun then
      var seen := DryReadbacks(s, ops, |ops|);
      (s, MakeReceipt(plan, auth, true, Failures(seen), DryResults(ops, |ops|, sha), seen))
    else
      var seen := LiveReadbacks(s, ops, |ops|, sha);
      (StoreAfter(s, ops, |ops|, sha),
       MakeReceipt(plan, auth, false, Failures(seen), LiveResults(s, ops, |ops|, sha), seen))
  }

  /** What the body of the loop reports, from the store it starts in. */
  function Report(op: Operation, s: Store, dryRun: bool, sha: Sha256): (OperationResult, ReadbackResult) {
    if dryRun then (DryResult(op, sha), DryReadback(op, s.Read(op.itemId)))
    else
      var outcome := s.Outcome(op, sha);
      (LiveResult(op, outcome, sha), LiveReadback(op, outcome, s.Next(op, sha).Read(op.itemId)))
  }

  /** The body of the loop over the plan's operations. */
  method ExecuteOne(op: Operation, store: InMemoryHistoricalStore, dryRun: bool, sha: Sha256)
    returns (result: OperationResult, readback: ReadbackResult)
    modifies store
    ensures store.Contents() == if dryRun then old(store.Contents()) else old(store.Contents()).Next(op, sha)
    ensures (result, readback) == Report(op, old(store.Contents()), dryRun, sha)
  {
    if dryRun {
      result := DryResult(op, sha);
      var seen := store.Read(op.itemId);
      readback := DryReadback(op, seen);
    } else {
      var outcome := store.Apply(op, sha);
      result := LiveResult(op, outcome, sha);
      var seen := store.Read(op.itemId);
      readback := LiveReadback(op, outcome, seen);
    }
  }

  datatype Progress = Progress(store: Store, results: seq<OperationResult>, readbacks: seq<ReadbackResult>)

  /** Where the loop stands after `n` operations. */
  function ProgressAfter(s: Store, ops: seq<Operation>, n: nat, dryRun: bool, sha: Sha256): Progress
    requires n <= |ops|
  {
    if dryRun then Progress(s, DryResults(ops, n, sha), DryReadbacks(s, ops, n))
    else Progress(StoreAfter(s, ops, n, sha), LiveResults(s, ops, n, sha), LiveReadbacks(s, ops, n, sha))
  }

  lemma {:induction false} ProgressStep(s: Store, ops: seq<Operation>, n: nat, dryRun: bool, sha: Sha256)
    requires n < |ops|
    ensures
      var p := ProgressAfter(s, ops, n, dryRun, sha);
      var (result, readback) := Report(ops[n], p.store, dryRun, sha);
      ProgressAfter(s, ops, n + 1, dryRun, sha)
        == Progress(if dryRun then p.store else p.store.Next(ops[n], sha), p.results + [result],
          p.readbacks + [readback])
  {
  }

  method ExecuteCleanup(plan: Plan, auth: Authorization, store: InMemoryHistoricalStore,
                        dryRun: bool, sha: Sha256)
    returns (r: Result<Receipt, Error>)
    modifies store
    ensures (store.Contents(), r) == Execute(plan, auth, old(store.Contents()), dryRun, sha)
  {
    var refusal := ValidateAuthorization(plan, auth);
    if refusal.Some? {
      return Err(refusal.value);
    }
    var ops := plan.operations;
    var results: seq<OperationResult> := [];
    var readbacks: seq<ReadbackResult> := [];
    var failures := 0;
    ghost var start := store.Contents();
    for i := 0 to |ops|
      invariant Progress(store.Contents(), results, readbacks) == ProgressAfter(start, ops, i, dryRun, sha)
      invariant failures == Failures(readbacks)
    {
      ProgressStep(start, ops, i, dryRun, sha);
      var result, readback := ExecuteOne(ops[i], store, dryRun, sha);
      results := results + [result];
      CountIfAppend(readbacks, readback, IsFailure);
      readbacks := readbacks + [readback];
      if !readback.verified {
        failures := failures + 1;
      }
    }
    r := MakeReceipt(plan, auth, dryRun, failures, results, readbacks);
  }
}
