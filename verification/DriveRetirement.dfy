/** The Drive-retirement guard: evidence derived from a ledger, and the phases it lets through. */
module DriveRetirement {
  import opened Common
  import opened MigrationLedger

  datatype Mode = InventoryMode | VerifyMode | PrepareMode | RetireMode | VerifyRetirementMode | OtherMode(text: string)

  datatype Evidence = Evidence(
    v7Active: bool, rollbackRestored: bool, postPromotionReadback: bool, migrationLedgerSha256: string,
    completeForPromotion: bool, readyForRetirement: bool, unresolvedAuthoritativeItems: nat,
    currentDriveDependencies: nat, driveIntegrationRetired: bool)

  /** The activation facts supplied beside the ledger. */
  datatype Activation = Activation(v7Active: bool, rollbackRestored: bool, postPromotionReadback: bool, retired: bool)

  function FromLedger(l: Ledger, a: Activation): Evidence {
    Evidence(a.v7Active, a.rollbackRestored, a.postPromotionReadback, l.ledgerSha256,
             l.derived.completeForPromotion, l.derived.readyForRetirement,
             l.derived.unresolvedAuthoritative, l.derived.stagedDependencies, a.retired)
  }

  datatype PreconditionError =
    | TransactionIdRequired
    | LedgerDigestInvalid
    | PromotionIncomplete
    | UnresolvedItems
    | NotActive
    | RollbackNotRestored
    | ReadbackNotPassed
    | NotReadyForRetirement
    | DependenciesRemain
    | RetirementReadbackMissing
    | UnsupportedMode

  datatype ReceiptStatus = Prepared | Simulated | VerifiedStatus

  datatype Receipt = Receipt(
    mode: Mode, status: ReceiptStatus, transactionId: string, evidenceDigest: string,
    migrationLedgerSha256: string, destructiveActionsPerformed: nat)

  function RequirePromotionReady(e: Evidence): Option<PreconditionError> {
    if !e.completeForPromotion then Some(PromotionIncomplete)
    else if e.unresolvedAuthoritativeItems != 0 then Some(UnresolvedItems)
    else None
  }

  function RequireRetirementReady(e: Evidence): Option<PreconditionError> {
    if !e.v7Active then Some(NotActive)
    else if !e.rollbackRestored then Some(RollbackNotRestored)
    else if !e.postPromotionReadback then Some(ReadbackNotPassed)
    else if RequirePromotionReady(e).Some? then RequirePromotionReady(e)
    else if !e.readyForRetirement then Some(NotReadyForRetirement)
    else if e.currentDriveDependencies != 0 then Some(DependenciesRemain)
    else None
  }

  function Phase(mode: Mode, e: Evidence): Result<ReceiptStatus, PreconditionError> {
    match mode
    case InventoryMode => Ok(Simulated)
    case VerifyMode =>
      if RequirePromotionReady(e).Some? then Err(RequirePromotionReady(e).value) else Ok(VerifiedStatus)
    case PrepareMode =>
      if RequireRetirementReady(e).Some? then Err(RequireRetirementReady(e).value) else Ok(Prepared)
    case RetireMode =>
      if RequireRetirementReady(e).Some? then Err(RequireRetirementReady(e).value) else Ok(Prepared)
    case VerifyRetirementMode =>
      if RequireRetirementReady(e).Some? then Err(RequireRetirementReady(e).value)
      else if !e.driveIntegrationRetired then Err(RetirementReadbackMissing)
      else Ok(VerifiedStatus)
    case OtherMode(_) => Err(UnsupportedMode)
  }

  function RunPhase(mode: Mode, e: Evidence, transactionId: string, digest: Evidence -> string)
    : Result<Receipt, PreconditionError>
  {
    if transactionId == "" then Err(TransactionIdRequired)
    else if !IsSha(e.migrationLedgerSha256) then Err(LedgerDigestInvalid)
    else
      var phase := Phase(mode, e);
      if phase.Err? then Err(phase.error)
      else Ok(Receipt(mode, phase.value, transactionId, digest(e), e.migrationLedgerSha256, 0))
  }

  /** What a mode asks of whatever evidence it is handed, from a ledger or not. */
  predicate EvidenceAllows(mode: Mode, e: Evidence) {
    var promotable := e.completeForPromotion && e.unresolvedAuthoritativeItems == 0;
    var retirable := promotable && e.v7Active && e.rollbackRestored && e.postPromotionReadback
      && e.readyForRetirement && e.currentDriveDependencies == 0;
    || mode == InventoryMode
    || (mode == VerifyMode && promotable)
    || ((mode == PrepareMode || mode == RetireMode) && retirable)
    || (mode == VerifyRetirementMode && retirable && e.driveIntegrationRetired)
  }

  /** A phase succeeds exactly when the transaction is named, the digest well formed and the mode allowed. */
  lemma {:induction false} SucceedsOnEvidenceIff(
      mode: Mode, e: Evidence, transactionId: string, digest: Evidence -> string)
    ensures RunPhase(mode, e, transactionId, digest).Ok?
       <==> transactionId != "" && IsSha(e.migrationLedgerSha256) && EvidenceAllows(mode, e)
  {
  }

  /** What a mode asks of the base facts once the evidence comes from a compiled ledger. */
  ghost predicate ModeAllows(mode: Mode, given: Base, a: Activation) {
    var inventoried := given.traversalComplete && given.inaccessibleItemIds == [] && given.unconsumedPageTokens == 0;
    var promotable := inventoried && EvidenceResolved(given.items);
    var retirable := promotable && NoCurrentItem(given.items) && a.v7Active && a.rollbackRestored
      && a.postPromotionReadback;
    match mode
    case InventoryMode => true
    case VerifyMode => promotable
    case PrepareMode => retirable
    case RetireMode => retirable
    case VerifyRetirementMode => retirable && a.retired
    case OtherMode(_) => false
  }

  /**
    On evidence derived from a compiled ledger, every phase succeeds exactly when the transaction is
    named, the ledger digest is well formed and the mode's condition holds of the inventory itself;
    the count of unresolved items and the count of dependencies never decide anything.
   */
  lemma {:induction false} PhaseSucceedsIff(mode: Mode, given: Base, a: Activation, transactionId: string,
                           sha: Sha256, digest: Evidence -> string)
    requires CompileLedger(given, sha).Ok?
    ensures
      var l := CompileLedger(given, sha).value;
      RunPhase(mode, FromLedger(l, a), transactionId, digest).Ok?
      <==> transactionId != "" && IsSha(l.ledgerSha256) && ModeAllows(mode, given, a)
  {
    LedgerCollapses(given, sha);
    CountIfZero(CompileLedger(given, sha).value.base.items, IsCurrent);
  }

  /** A phase's receipt names the mode, the transaction and the ledger, and performs nothing. */
  lemma {:induction false} ReceiptMeaning(mode: Mode, e: Evidence, transactionId: string, digest: Evidence -> string)
    requires RunPhase(mode, e, transactionId, digest).Ok?
    ensures
      var r := RunPhase(mode, e, transactionId, digest).value;
      && r.mode == mode && r.transactionId == transactionId
      && r.migrationLedgerSha256 == e.migrationLedgerSha256 && r.evidenceDigest == digest(e)
      && r.destructiveActionsPerformed == 0
      && (r.status == Simulated <==> mode == InventoryMode)
      && (r.status == Prepared <==> mode == PrepareMode || mode == RetireMode)
      && (r.status == VerifiedStatus <==> mode == VerifyMode || mode == VerifyRetirementMode)
  {
  }
}
