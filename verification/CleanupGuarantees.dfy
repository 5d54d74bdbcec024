/**
  What whole cleanup runs guarantee: replay, crash-resume, receipt soundness, dry-run
  prediction and conservation.
 */
module CleanupGuarantees {
  import opened Common
  import opened HistoricalCleanup

  // --- How one operation, and a run, may change the store --------------------------------

  /** Idempotency records only grow, items only disappear, digests never change. */
  ghost predicate Evolves(s: Store, t: Store) {
    && (forall k :: k in s.results ==> k in t.results && t.results[k] == s.results[k])
    && (forall id :: id in t.items ==> id in s.items && t.items[id].digest == s.items[id].digest)
  }

  lemma {:induction false} RunEvolves(s: Store, ops: seq<Operation>, i: nat, j: nat, sha: Sha256)
    requires i <= j <= |ops|
    ensures Evolves(StoreAfter(s, ops, i, sha), StoreAfter(s, ops, j, sha))
  {
    if i < j {
      RunEvolves(s, ops, i, j - 1, sha);
    }
  }

  lemma {:induction false} OtherItemsUntouched(s: Store, ops: seq<Operation>, i: nat, j: nat, id: string, sha: Sha256)
    requires i <= j <= |ops|
    requires forall m :: i <= m < j ==> ops[m].itemId != id
    ensures Lookup(StoreAfter(s, ops, i, sha).items, id) == Lookup(StoreAfter(s, ops, j, sha).items, id)
  {
    if i < j {
      OtherItemsUntouched(s, ops, i, j - 1, id, sha);
    }
  }

  lemma {:induction false} OtherKeysUntouched(s: Store, ops: seq<Operation>, i: nat, j: nat, key: string, sha: Sha256)
    requires i <= j <= |ops|
    requires forall m :: i <= m < j ==> ops[m].idempotencyKey != key
    ensures Lookup(StoreAfter(s, ops, i, sha).results, key) == Lookup(StoreAfter(s, ops, j, sha).results, key)
  {
    if i < j {
      OtherKeysUntouched(s, ops, i, j - 1, key, sha);
    }
  }

  // --- What the receipt lists ------------------------------------------------------------

  lemma {:induction false} LiveResultListed(s: Store, ops: seq<Operation>, n: nat, i: nat, sha: Sha256)
    requires i < n <= |ops|
    ensures LiveResults(s, ops, n, sha)[i] == LiveResultAt(s, ops, i, sha)
  {
    if i < n - 1 {
      LiveResultListed(s, ops, n - 1, i, sha);
    }
  }

  lemma {:induction false} LiveReadbackListed(s: Store, ops: seq<Operation>, n: nat, i: nat, sha: Sha256)
    requires i < n <= |ops|
    ensures LiveReadbacks(s, ops, n, sha)[i] == LiveReadbackAt(s, ops, i, sha)
  {
    if i < n - 1 {
      LiveReadbackListed(s, ops, n - 1, i, sha);
    }
  }

  lemma {:induction false} DryReadbackListed(s: Store, ops: seq<Operation>, n: nat, i: nat)
    requires i < n <= |ops|
    ensures DryReadbacks(s, ops, n)[i] == DryReadback(ops[i], s.Read(ops[i].itemId))
  {
    if i < n - 1 {
      DryReadbackListed(s, ops, n - 1, i);
    }
  }

  // --- Replay ----------------------------------------------------------------------------

  /** Applying the operation again cannot change an item any more. */
  predicate Settled(s: Store, op: Operation) {
    !s.Accepts(op)
  }

  lemma {:induction false} ApplySettles(s: Store, op: Operation, sha: Sha256)
    ensures Settled(s.Next(op, sha), op)
    ensures Settled(s, op) ==>
      && s.Next(op, sha).items == s.items
      && (s.Outcome(op, sha).Ok? ==> !s.Outcome(op, sha).value.changed)
  {
  }

  lemma {:induction false} RunSettles(s: Store, ops: seq<Operation>, sha: Sha256)
    ensures forall op :: op in ops ==> Settled(StoreAfter(s, ops, |ops|, sha), op)
  {
    forall i | 0 <= i < |ops| ensures Settled(StoreAfter(s, ops, |ops|, sha), ops[i]) {
      ApplySettles(StoreAfter(s, ops, i, sha), ops[i], sha);
      RunEvolves(s, ops, i + 1, |ops|, sha);
    }
  }

  lemma {:induction false} SettledRunIsInert(s: Store, ops: seq<Operation>, n: nat, sha: Sha256)
    requires n <= |ops|
    requires forall i :: 0 <= i < n ==> Settled(s, ops[i])
    ensures StoreAfter(s, ops, n, sha).items == s.items
    ensures forall i :: 0 <= i < n ==> !LiveResultAt(s, ops, i, sha).changed
  {
    if n > 0 {
      SettledRunIsInert(s, ops, n - 1, sha);
      RunEvolves(s, ops, 0, n - 1, sha);
      ApplySettles(StoreAfter(s, ops, n - 1, sha), ops[n - 1], sha);
    }
  }

  /** Whatever the plan and whatever the first live run did, a second run writes nothing. */
  lemma {:induction false} ReplayWritesNothing(plan: Plan, auth: Authorization, s: Store, sha: Sha256)
    ensures
      var once := Execute(plan, auth, s, false, sha).0;
      var (twice, receipt) := Execute(plan, auth, once, false, sha);
      && twice.items == once.items
      && (receipt.Ok? ==> receipt.value.providerWrites == 0 && receipt.value.destructiveActions == 0)
  {
    if ValidateAuthorization(plan, auth).None? {
      var ops := plan.operations;
      var once := StoreAfter(s, ops, |ops|, sha);
      RunSettles(s, ops, sha);
      SettledRunIsInert(once, ops, |ops|, sha);
      var results := LiveResults(once, ops, |ops|, sha);
      forall i | 0 <= i < |ops| ensures !results[i].changed {
        LiveResultListed(once, ops, |ops|, i, sha);
      }
      CountIfZero(results, IsWrite);
      CountIfZero(results, IsDestructive);
    }
  }

  // --- Receipt soundness and completeness ------------------------------------------------

  /** The item is where the operation was meant to take it. */
  predicate AtTarget(s: Store, op: Operation) {
    if op.action.Delete? then op.itemId !in s.items
    else Lookup(s.items, op.itemId) == Some(Stored(TargetState(op.action), op.expectedDigest))
  }

  lemma {:induction false} ReadbackIffAtTarget(s: Store, op: Operation, sha: Sha256)
    ensures VerifyReadback(op, s.Read(op.itemId)) <==> AtTarget(s, op)
    ensures AtTarget(s.Next(op, sha), op) ==> s.Outcome(op, sha).Ok?
  {
  }

  /** `status == "completed"` for a live run, before any assumption on the plan. */
  lemma {:induction false} CompletedIffVerified(s: Store, ops: seq<Operation>, sha: Sha256)
    ensures StatusOf(false, Failures(LiveReadbacks(s, ops, |ops|, sha)), |ops|).Completed?
       <==> ops != [] && forall i :: 0 <= i < |ops| ==> AtTarget(StoreAfter(s, ops, i + 1, sha), ops[i])
  {
    var readbacks := LiveReadbacks(s, ops, |ops|, sha);
    CountIfZero(readbacks, IsFailure);
    forall i | 0 <= i < |ops|
      ensures readbacks[i].verified <==> AtTarget(StoreAfter(s, ops, i + 1, sha), ops[i])
    {
      LiveReadbackListed(s, ops, |ops|, i, sha);
      ReadbackIffAtTarget(StoreAfter(s, ops, i, sha), ops[i], sha);
      ReadbackIffAtTarget(StoreAfter(s, ops, i + 1, sha), ops[i], sha);
    }
  }

  lemma {:induction false} ItemSettlesInOneStep(s: Store, ops: seq<Operation>, i: nat, sha: Sha256)
    requires i < |ops| && Distinct(ItemIds(ops))
    ensures Lookup(StoreAfter(s, ops, i, sha).items, ops[i].itemId) == Lookup(s.items, ops[i].itemId)
    ensures Lookup(StoreAfter(s, ops, |ops|, sha).items, ops[i].itemId)
         == Lookup(StoreAfter(s, ops, i + 1, sha).items, ops[i].itemId)
  {
    forall m | 0 <= m < |ops| && m != i ensures ops[m].itemId != ops[i].itemId {
      assert ItemIds(ops)[m] != ItemIds(ops)[i];
    }
    OtherItemsUntouched(s, ops, 0, i, ops[i].itemId, sha);
    OtherItemsUntouched(s, ops, i + 1, |ops|, ops[i].itemId, sha);
  }

  predicate LiveRunCompletes(plan: Plan, auth: Authorization, s: Store, sha: Sha256) {
    var r := Execute(plan, auth, s, false, sha).1;
    r.Ok? && r.value.status.Completed?
  }

  /** The plan can be executed and its receipt can be built. */
  predicate Executable(plan: Plan, auth: Authorization, sha: Sha256) {
    && ValidPlan(plan, sha)
    && ValidateAuthorization(plan, auth).None?
    && Distinct(OperationIds(plan.operations))
  }

  /** A receipt says "completed" exactly when the final store holds what the plan asked for. */
  lemma {:induction false} ReceiptSoundAndComplete(plan: Plan, auth: Authorization, s: Store, sha: Sha256)
    requires Executable(plan, auth, sha)
    ensures LiveRunCompletes(plan, auth, s, sha)
       <==> forall op :: op in plan.operations ==> AtTarget(Execute(plan, auth, s, false, sha).0, op)
  {
    var ops := plan.operations;
    CompletedIffVerified(s, ops, sha);
    forall i | 0 <= i < |ops|
      ensures AtTarget(StoreAfter(s, ops, |ops|, sha), ops[i]) <==> AtTarget(StoreAfter(s, ops, i + 1, sha), ops[i])
    {
      ItemSettlesInOneStep(s, ops, i, sha);
    }
  }

  /** What the starting store must offer for one operation to verify. */
  predicate WillVerify(s: Store, op: Operation) {
    if op.idempotencyKey in s.results then AtTarget(s, op)
    else if op.itemId in s.items then s.items[op.itemId].digest == op.expectedDigest
    else op.action.Delete?
  }

  lemma {:induction false} KeyUntilItsTurn(s: Store, ops: seq<Operation>, i: nat, sha: Sha256)
    requires i < |ops| && Distinct(Keys(ops))
    ensures ops[i].idempotencyKey in StoreAfter(s, ops, i, sha).results <==> ops[i].idempotencyKey in s.results
  {
    forall m | 0 <= m < i ensures ops[m].idempotencyKey != ops[i].idempotencyKey {
      assert Keys(ops)[m] != Keys(ops)[i];
    }
    OtherKeysUntouched(s, ops, 0, i, ops[i].idempotencyKey, sha);
  }

  lemma {:induction false} TurnForetold(s: Store, ops: seq<Operation>, i: nat, sha: Sha256)
    requires i < |ops| && Distinct(ItemIds(ops)) && Distinct(Keys(ops))
    ensures AtTarget(StoreAfter(s, ops, i + 1, sha), ops[i]) <==> WillVerify(s, ops[i])
  {
    ItemSettlesInOneStep(s, ops, i, sha);
    KeyUntilItsTurn(s, ops, i, sha);
  }

  /** Completion decided from the starting store alone, whatever keys it already records. */
  lemma {:induction false} CompletionForetold(plan: Plan, auth: Authorization, s: Store, sha: Sha256)
    requires Executable(plan, auth, sha)
    ensures LiveRunCompletes(plan, auth, s, sha)
       <==> forall op :: op in plan.operations ==> WillVerify(s, op)
  {
    var ops := plan.operations;
    CompletedIffVerified(s, ops, sha);
    forall i | 0 <= i < |ops|
      ensures AtTarget(StoreAfter(s, ops, i + 1, sha), ops[i]) <==> WillVerify(s, ops[i])
    {
      TurnForetold(s, ops, i, sha);
    }
  }

  /** A completed run of a valid plan replays as completed. */
  lemma {:induction false} CompletedReplaysAsCompleted(plan: Plan, auth: Authorization, s: Store, sha: Sha256)
    requires Executable(plan, auth, sha)
    requires LiveRunCompletes(plan, auth, s, sha)
    ensures LiveRunCompletes(plan, auth, Execute(plan, auth, s, false, sha).0, sha)
  {
    var once := Execute(plan, auth, s, false, sha).0;
    ReceiptSoundAndComplete(plan, auth, s, sha);
    ReplayWritesNothing(plan, auth, s, sha);
    ReceiptSoundAndComplete(plan, auth, once, sha);
  }

  // --- Runs that leave no receipt --------------------------------------------------------

  /** The authorisation accepted, a receipt is built exactly when no operation id repeats. */
  lemma {:induction false} ReceiptExistsIff(plan: Plan, auth: Authorization, s: Store, dryRun: bool, sha: Sha256)
    requires ValidateAuthorization(plan, auth).None?
    ensures Execute(plan, auth, s, dryRun, sha).1.Ok? <==> Distinct(OperationIds(plan.operations))
    ensures Execute(plan, auth, s, dryRun, sha).1.Err? ==>
      Execute(plan, auth, s, dryRun, sha).1.error == DuplicateOperationResults
  {
  }

  /** With or without a receipt, an accepted live run leaves exactly the foretold items at their targets. */
  lemma {:induction false} FinalStoreForetold(plan: Plan, auth: Authorization, s: Store, sha: Sha256)
    requires ValidPlan(plan, sha) && ValidateAuthorization(plan, auth).None?
    ensures
      var t := Execute(plan, auth, s, false, sha).0;
      && t == StoreAfter(s, plan.operations, |plan.operations|, sha)
      && forall op :: op in plan.operations ==> (AtTarget(t, op) <==> WillVerify(s, op))
  {
    var ops := plan.operations;
    var t := StoreAfter(s, ops, |ops|, sha);
    forall op | op in ops ensures AtTarget(t, op) <==> WillVerify(s, op) {
      var i :| 0 <= i < |ops| && ops[i] == op;
      ItemSettlesInOneStep(s, ops, i, sha);
      TurnForetold(s, ops, i, sha);
    }
  }

  function Deletion(sequence: nat, itemId: string, key: string): Operation {
    Operation("operation", sequence, itemId, Delete, "source", None, "digest", 0, key)
  }

  /** Two deletions of different items under different keys that share one operation id. */
  function RepeatedIdPlan(a: string, b: string, sha: Sha256): Plan {
    var ops := [Deletion(0, a, a), Deletion(1, b, b)];
    Plan("transaction", "inventory", ops, [], sha(PlanPayload(ops, [])))
  }

  function FullAuthorization(plan: Plan): Authorization {
    Authorization("authorization", plan.transactionId, plan.inventoryDigest, plan.planDigest,
                  ItemIds(plan.operations), [Delete], |plan.operations|, TotalBytes(plan.operations), true)
  }

  /** A valid, fully authorised plan whose run removes both items and then raises. */
  lemma {:induction false} RepeatedIdLosesReceipt(a: string, b: string, s: Store, sha: Sha256)
    requires a != b
    requires a in s.items && b in s.items && s.items[a].digest == s.items[b].digest == "digest"
    requires a !in s.results && b !in s.results
    ensures
      var plan := RepeatedIdPlan(a, b, sha);
      var (t, r) := Execute(plan, FullAuthorization(plan), s, false, sha);
      && ValidPlan(plan, sha) && ValidateAuthorization(plan, FullAuthorization(plan)).None?
      && r == Err(DuplicateOperationResults)
      && t.items == s.items - {a, b}
  {
    var plan := RepeatedIdPlan(a, b, sha);
    var ops := plan.operations;
    assert ItemIds(ops) == [a, b] && Keys(ops) == [a, b];
    assert OperationIds(ops)[0] == OperationIds(ops)[1];
    assert ActionsOf(ops) <= ToSet([Delete]) by {
      assert Delete in [Delete];
    }
    assert StoreAfter(s, ops, 0, sha) == s;
    assert StoreAfter(s, ops, 1, sha) == s.Next(ops[0], sha);
    assert StoreAfter(s, ops, 2, sha) == s.Next(ops[0], sha).Next(ops[1], sha);
    assert s.items - {a} - {b} == s.items - {a, b};
  }

  // --- Dry run ---------------------------------------------------------------------------

  predicate DryRunSimulates(plan: Plan, auth: Authorization, s: Store, sha: Sha256) {
    var r := Execute(plan, auth, s, true, sha).1;
    r.Ok? && r.value.status.Simulated?
  }

  /** The item is there, in a known state, with the digest the plan expects. */
  predicate Present(s: Store, op: Operation) {
    op.itemId in s.items && !s.items[op.itemId].state.Unknown?
  }

  lemma {:induction false} SimulatedIff(plan: Plan, auth: Authorization, s: Store, sha: Sha256)
    requires Executable(plan, auth, sha)
    ensures DryRunSimulates(plan, auth, s, sha)
       <==> forall op :: op in plan.operations ==> DryRunVerified(op, s.Read(op.itemId))
  {
    var ops := plan.operations;
    var readbacks := DryReadbacks(s, ops, |ops|);
    CountIfZero(readbacks, IsFailure);
    forall i | 0 <= i < |ops| ensures IsFailure(readbacks[i]) <==> !DryRunVerified(ops[i], s.Read(ops[i].itemId)) {
      DryReadbackListed(s, ops, |ops|, i);
    }
    assert DryRunSimulates(plan, auth, s, sha) <==> Failures(readbacks) == 0;
    if forall i :: 0 <= i < |readbacks| ==> !IsFailure(readbacks[i]) {
      forall op | op in ops ensures DryRunVerified(op, s.Read(op.itemId)) {
        var i :| 0 <= i < |ops| && ops[i] == op;
        assert !IsFailure(readbacks[i]);
      }
    }
  }

  /**
    A dry run leaves the store alone and, on unused keys, says "simulated" exactly when the live
    run would complete with every item still present in a known state.
   */
  lemma {:induction false} DryRunPredictsLiveRun(plan: Plan, auth: Authorization, s: Store, sha: Sha256)
    requires Executable(plan, auth, sha)
    requires forall op :: op in plan.operations ==> op.idempotencyKey !in s.results
    ensures Execute(plan, auth, s, true, sha).0 == s
    ensures DryRunSimulates(plan, auth, s, sha)
       <==> LiveRunCompletes(plan, auth, s, sha) && forall op :: op in plan.operations ==> Present(s, op)
  {
    SimulatedIff(plan, auth, s, sha);
    CompletionForetold(plan, auth, s, sha);
    forall op | op in plan.operations
      ensures DryRunVerified(op, s.Read(op.itemId)) <==> WillVerify(s, op) && Present(s, op)
    {
    }
  }

  // --- Crash and resume ------------------------------------------------------------------

  /** Same items, and the same idempotency records for the operations from `i` on. */
  ghost predicate Agree(s: Store, t: Store, ops: seq<Operation>, i: nat) {
    && s.items == t.items
    && forall m :: i <= m < |ops| ==>
      Lookup(s.results, ops[m].idempotencyKey) == Lookup(t.results, ops[m].idempotencyKey)
  }

  lemma {:induction false} AgreeStep(s: Store, t: Store, ops: seq<Operation>, i: nat, sha: Sha256)
    requires i < |ops| && Distinct(Keys(ops)) && Agree(s, t, ops, i)
    ensures s.Outcome(ops[i], sha) == t.Outcome(ops[i], sha)
    ensures Agree(s.Next(ops[i], sha), t.Next(ops[i], sha), ops, i + 1)
  {
    assert Lookup(s.results, ops[i].idempotencyKey) == Lookup(t.results, ops[i].idempotencyKey);
    forall m | i < m < |ops| ensures ops[m].idempotencyKey != ops[i].idempotencyKey {
      assert Keys(ops)[i] != Keys(ops)[m];
    }
  }

  /** Re-running the first `k` operations on a store evolved from what they left changes no item. */
  lemma {:induction false} ReplayedPrefixAgrees(s: Store, ops: seq<Operation>, k: nat, crashed: Store, sha: Sha256)
    requires k <= |ops| && Distinct(Keys(ops)) && Evolves(StoreAfter(s, ops, k, sha), crashed)
    ensures Agree(StoreAfter(crashed, ops, k, sha), crashed, ops, k)
  {
    forall i | 0 <= i < k ensures Settled(crashed, ops[i]) {
      ApplySettles(StoreAfter(s, ops, i, sha), ops[i], sha);
      RunEvolves(s, ops, i + 1, k, sha);
    }
    SettledRunIsInert(crashed, ops, k, sha);
    forall m | k <= m < |ops|
      ensures Lookup(StoreAfter(crashed, ops, k, sha).results, ops[m].idempotencyKey)
           == Lookup(crashed.results, ops[m].idempotencyKey)
    {
      forall i | 0 <= i < k ensures ops[i].idempotencyKey != ops[m].idempotencyKey {
        assert Keys(ops)[i] != Keys(ops)[m];
      }
      OtherKeysUntouched(crashed, ops, 0, k, ops[m].idempotencyKey, sha);
    }
  }

  /** Where a run stops: after `done` operations, or `inside` the next one. */
  datatype Stop = Stop(done: nat, inside: bool)

  predicate StopOk(stop: Stop, ops: seq<Operation>) {
    if stop.inside then stop.done < |ops| else stop.done <= |ops|
  }

  /** `apply` cut short after the item is changed and before the idempotency record is made. */
  function HalfApplied(s: Store, op: Operation, sha: Sha256): Store {
    Store(s.Next(op, sha).items, s.results)
  }

  function StoppedStore(s: Store, ops: seq<Operation>, stop: Stop, sha: Sha256): Store
    requires StopOk(stop, ops)
  {
    var t := StoreAfter(s, ops, stop.done, sha);
    if stop.inside then HalfApplied(t, ops[stop.done], sha) else t
  }

  /** Applying a half-applied operation again ends with the same items and the same later keys. */
  lemma {:induction false} HalfStepCatchesUp(t: Store, u: Store, ops: seq<Operation>, k: nat, sha: Sha256)
    requires k < |ops| && Distinct(Keys(ops)) && Agree(u, HalfApplied(t, ops[k], sha), ops, k)
    ensures Agree(u.Next(ops[k], sha), t.Next(ops[k], sha), ops, k + 1)
  {
    assert Lookup(u.results, ops[k].idempotencyKey) == Lookup(t.results, ops[k].idempotencyKey);
    forall m | k < m < |ops| ensures ops[m].idempotencyKey != ops[k].idempotencyKey {
      assert Keys(ops)[k] != Keys(ops)[m];
    }
  }

  lemma {:induction false} ResumedPrefixAgrees(s: Store, ops: seq<Operation>, stop: Stop, sha: Sha256)
    requires StopOk(stop, ops) && Distinct(Keys(ops))
    ensures
      var n := stop.done + if stop.inside then 1 else 0;
      Agree(StoreAfter(StoppedStore(s, ops, stop, sha), ops, n, sha), StoreAfter(s, ops, n, sha), ops, n)
  {
    var crashed := StoppedStore(s, ops, stop, sha);
    ReplayedPrefixAgrees(s, ops, stop.done, crashed, sha);
    if stop.inside {
      var t, u := StoreAfter(s, ops, stop.done, sha), StoreAfter(crashed, ops, stop.done, sha);
      HalfStepCatchesUp(t, u, ops, stop.done, sha);
    }
  }

  lemma {:induction false} ResumedRunAgrees(s: Store, ops: seq<Operation>, stop: Stop, n: nat, sha: Sha256)
    requires StopOk(stop, ops) && Distinct(Keys(ops))
    requires stop.done + (if stop.inside then 1 else 0) <= n <= |ops|
    ensures Agree(StoreAfter(StoppedStore(s, ops, stop, sha), ops, n, sha), StoreAfter(s, ops, n, sha), ops, n)
    decreases n
  {
    var crashed := StoppedStore(s, ops, stop, sha);
    if n == stop.done + if stop.inside then 1 else 0 {
      ResumedPrefixAgrees(s, ops, stop, sha);
    } else {
      ResumedRunAgrees(s, ops, stop, n - 1, sha);
      var a, b := StoreAfter(crashed, ops, n - 1, sha), StoreAfter(s, ops, n - 1, sha);
      AgreeStep(a, b, ops, n - 1, sha);
      assert StoreAfter(crashed, ops, n, sha) == a.Next(ops[n - 1], sha);
      assert StoreAfter(s, ops, n, sha) == b.Next(ops[n - 1], sha);
    }
  }

  predicate StopsOk(stops: seq<Stop>, ops: seq<Operation>) {
    forall j :: 0 <= j < |stops| ==> StopOk(stops[j], ops)
  }

  /** The store after a series of runs of one plan, each of which stopped somewhere. */
  function AfterCrashes(s: Store, ops: seq<Operation>, stops: seq<Stop>, sha: Sha256): Store
    requires StopsOk(stops, ops)
    decreases |stops|
  {
    if stops == [] then s
    else AfterCrashes(StoppedStore(s, ops, stops[0], sha), ops, stops[1..], sha)
  }

  /**
    However often a run was cut short, between operations or inside one, running the plan ends with
    the uninterrupted items.
   */
  lemma {:induction false} CrashResume(plan: Plan, s: Store, stops: seq<Stop>, sha: Sha256)
    requires Distinct(Keys(plan.operations)) && StopsOk(stops, plan.operations)
    ensures
      var ops := plan.operations;
      StoreAfter(AfterCrashes(s, ops, stops, sha), ops, |ops|, sha).items == StoreAfter(s, ops, |ops|, sha).items
    decreases |stops|
  {
    var ops := plan.operations;
    if stops != [] {
      CrashResume(plan, StoppedStore(s, ops, stops[0], sha), stops[1..], sha);
      ResumedRunAgrees(s, ops, stops[0], |ops|, sha);
    }
  }

  /** The run that finally gets through reports completion exactly when an uninterrupted one would. */
  lemma {:induction false} ResumedReceiptAgrees(
      plan: Plan, auth: Authorization, s: Store, stops: seq<Stop>, sha: Sha256)
    requires Executable(plan, auth, sha) && StopsOk(stops, plan.operations)
    ensures LiveRunCompletes(plan, auth, AfterCrashes(s, plan.operations, stops, sha), sha)
       <==> LiveRunCompletes(plan, auth, s, sha)
  {
    CrashResume(plan, s, stops, sha);
    ReceiptSoundAndComplete(plan, auth, s, sha);
    ReceiptSoundAndComplete(plan, auth, AfterCrashes(s, plan.operations, stops, sha), sha);
  }

  // --- Conservation and budgets ----------------------------------------------------------

  /** A deletion that takes away an item already stored as "deleted", and so counts as no change. */
  predicate SilentRemoval(s: Store, op: Operation) {
    op.action.Delete? && s.Accepts(op) && s.items[op.itemId].state.Deleted?
  }

  function SilentRemovals(s: Store, ops: seq<Operation>, n: nat, sha: Sha256): nat
    requires n <= |ops|
  {
    if n == 0 then 0
    else
      SilentRemovals(s, ops, n - 1, sha)
      + if SilentRemoval(StoreAfter(s, ops, n - 1, sha), ops[n - 1]) then 1 else 0
  }

  /** Items still stored, plus every removal so far. */
  ghost function ItemBalance(s: Store, ops: seq<Operation>, n: nat, sha: Sha256): nat
    requires n <= |ops|
  {
    |StoreAfter(s, ops, n, sha).items|
    + Destructive(LiveResults(s, ops, n, sha)) + SilentRemovals(s, ops, n, sha)
  }

  lemma {:induction false} RemovalIsCounted(t: Store, op: Operation, sha: Sha256)
    ensures
      |t.items| == |t.Next(op, sha).items|
                   + (if IsDestructive(LiveResult(op, t.Outcome(op, sha), sha)) then 1 else 0)
                   + (if SilentRemoval(t, op) then 1 else 0)
  {
    var u := t.Next(op, sha);
    assert |t.items| == |t.items.Keys| && |u.items| == |u.items.Keys|;
    if t.Accepts(op) {
      assert u.items.Keys == if op.action.Delete? then t.items.Keys - {op.itemId} else t.items.Keys;
    }
  }

  lemma {:induction false} ItemBalanceKept(s: Store, ops: seq<Operation>, n: nat, sha: Sha256)
    requires n <= |ops|
    ensures ItemBalance(s, ops, n, sha) == |s.items|
  {
    if n > 0 {
      ItemBalanceKept(s, ops, n - 1, sha);
      RemovalIsCounted(StoreAfter(s, ops, n - 1, sha), ops[n - 1], sha);
      CountIfAppend(LiveResults(s, ops, n - 1, sha), LiveResultAt(s, ops, n - 1, sha), IsDestructive);
    }
  }

  ghost predicate NoneStoredAsDeleted(s: Store) {
    forall id :: id in s.items ==> !s.items[id].state.Deleted?
  }

  lemma {:induction false} NoSilentRemovals(s: Store, ops: seq<Operation>, n: nat, sha: Sha256)
    requires n <= |ops| && NoneStoredAsDeleted(s)
    ensures SilentRemovals(s, ops, n, sha) == 0
    ensures NoneStoredAsDeleted(StoreAfter(s, ops, n, sha))
  {
    if n > 0 {
      NoSilentRemovals(s, ops, n - 1, sha);
    }
  }

  function ChangedBytes(ops: seq<Operation>, results: seq<OperationResult>): nat
    requires |ops| == |results|
  {
    if ops == [] then 0
    else
      var n := |ops| - 1;
      ChangedBytes(ops[..n], results[..n]) + if results[n].changed then ops[n].sizeBytes else 0
  }

  lemma {:induction false} ChangedBytesBounded(ops: seq<Operation>, results: seq<OperationResult>)
    requires |ops| == |results|
    ensures ChangedBytes(ops, results) <= TotalBytes(ops)
  {
    if ops != [] {
      ChangedBytesBounded(ops[..|ops| - 1], results[..|ops| - 1]);
    }
  }

  lemma {:induction false} SilentTurnForetold(s: Store, ops: seq<Operation>, i: nat, sha: Sha256)
    requires i < |ops| && Distinct(ItemIds(ops)) && Distinct(Keys(ops))
    ensures SilentRemoval(StoreAfter(s, ops, i, sha), ops[i]) <==> SilentRemoval(s, ops[i])
  {
    ItemSettlesInOneStep(s, ops, i, sha);
    KeyUntilItsTurn(s, ops, i, sha);
  }

  /** The run removes silently exactly when some deletion already would from the starting store. */
  lemma {:induction false} SilentRemovalsForetold(s: Store, ops: seq<Operation>, n: nat, sha: Sha256)
    requires n <= |ops| && Distinct(ItemIds(ops)) && Distinct(Keys(ops))
    ensures SilentRemovals(s, ops, n, sha) == 0 <==> forall i :: 0 <= i < n ==> !SilentRemoval(s, ops[i])
  {
    if n > 0 {
      SilentRemovalsForetold(s, ops, n - 1, sha);
      SilentTurnForetold(s, ops, n - 1, sha);
    }
  }

  /**
    The receipt's destructive actions are the items removed exactly when no deletion has an unused
    key and an item stored as "deleted" under the expected digest.
   */
  lemma {:induction false} RemovalsCountedIff(plan: Plan, auth: Authorization, s: Store, sha: Sha256)
    requires Executable(plan, auth, sha)
    ensures
      var (t, r) := Execute(plan, auth, s, false, sha);
      r.Ok? && (|s.items| - |t.items| == r.value.destructiveActions
                <==> forall op :: op in plan.operations ==> !SilentRemoval(s, op))
  {
    var ops := plan.operations;
    ItemBalanceKept(s, ops, |ops|, sha);
    SilentRemovalsForetold(s, ops, |ops|, sha);
    ReceiptExistsIff(plan, auth, s, false, sha);
  }

  function DeletionPlan(id: string, sha: Sha256): Plan {
    var ops := [Deletion(0, id, id)];
    Plan("transaction", "inventory", ops, [], sha(PlanPayload(ops, [])))
  }

  lemma {:induction false} DeletionPlanExecutable(id: string, sha: Sha256)
    ensures Executable(DeletionPlan(id, sha), FullAuthorization(DeletionPlan(id, sha)), sha)
  {
    var ops := DeletionPlan(id, sha).operations;
    assert ItemIds(ops) == [id] && Keys(ops) == [id] && OperationIds(ops) == ["operation"];
    assert ActionsOf(ops) <= ToSet([Delete]) by {
      assert Delete in [Delete];
    }
  }

  /** One item stored as "deleted": its removal completes and is counted as no destructive action. */
  lemma {:induction false} UncountedRemoval(id: string, sha: Sha256)
    ensures
      var plan, s := DeletionPlan(id, sha), Store(map[id := Stored(Deleted, "digest")], map[]);
      var (t, r) := Execute(plan, FullAuthorization(plan), s, false, sha);
      && Executable(plan, FullAuthorization(plan), sha)
      && id !in t.items && LiveRunCompletes(plan, FullAuthorization(plan), s, sha)
      && r.value.destructiveActions != |s.items| - |t.items|
  {
    var plan, s := DeletionPlan(id, sha), Store(map[id := Stored(Deleted, "digest")], map[]);
    var op := plan.operations[0];
    DeletionPlanExecutable(id, sha);
    assert SilentRemoval(s, op) && WillVerify(s, op);
    FinalStoreForetold(plan, FullAuthorization(plan), s, sha);
    CompletionForetold(plan, FullAuthorization(plan), s, sha);
    RemovalsCountedIff(plan, FullAuthorization(plan), s, sha);
  }

  lemma {:induction false} UnauthorisedItemsSurvive(plan: Plan, auth: Authorization, s: Store, sha: Sha256, id: string)
    requires ValidateAuthorization(plan, auth).None? && id !in auth.exactItemIds
    ensures Lookup(Execute(plan, auth, s, false, sha).0.items, id) == Lookup(s.items, id)
  {
    var ops := plan.operations;
    forall m | 0 <= m < |ops| ensures ops[m].itemId != id {
      assert ItemIds(ops)[m] in ToSet(ItemIds(ops));
    }
    OtherItemsUntouched(s, ops, 0, |ops|, id, sha);
  }

  lemma {:induction false} WithinBudgets(plan: Plan, auth: Authorization, s: Store, sha: Sha256)
    requires ValidateAuthorization(plan, auth).None?
    ensures
      var results := LiveResults(s, plan.operations, |plan.operations|, sha);
      && Destructive(results) <= Writes(results) <= auth.objectBudget
      && ChangedBytes(plan.operations, results) <= auth.byteBudget
  {
    var results := LiveResults(s, plan.operations, |plan.operations|, sha);
    CountIfMonotone(results, IsDestructive, IsWrite);
    ChangedBytesBounded(plan.operations, results);
  }

  /**
    Items removed are exactly the destructive actions plus the silent removals, and none of the
    latter exist when no item is stored as "deleted"; budgets hold; unauthorised items survive.
   */
  lemma {:induction false} ConservationAndBudgets(plan: Plan, auth: Authorization, s: Store, sha: Sha256)
    requires ValidateAuthorization(plan, auth).None?
    ensures
      var (t, r) := Execute(plan, auth, s, false, sha);
      var ops := plan.operations;
      && |s.items| == |t.items| + Destructive(LiveResults(s, ops, |ops|, sha)) + SilentRemovals(s, ops, |ops|, sha)
      && (NoneStoredAsDeleted(s) && r.Ok? ==> |s.items| - |t.items| == r.value.destructiveActions)
      && (r.Ok? ==>
            && r.value.destructiveActions <= r.value.providerWrites <= auth.objectBudget
            && ChangedBytes(ops, r.value.operationResults) <= auth.byteBudget)
      && forall id :: id !in auth.exactItemIds ==> Lookup(t.items, id) == Lookup(s.items, id)
  {
    var ops := plan.operations;
    ItemBalanceKept(s, ops, |ops|, sha);
    if NoneStoredAsDeleted(s) {
      NoSilentRemovals(s, ops, |ops|, sha);
    }
    WithinBudgets(plan, auth, s, sha);
    forall id | id !in auth.exactItemIds
      ensures Lookup(Execute(plan, auth, s, false, sha).0.items, id) == Lookup(s.items, id)
    {
      UnauthorisedItemsSurvive(plan, auth, s, sha, id);
    }
  }
}
