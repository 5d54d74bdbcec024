/** Governed intent evidence: who may be inferred from, the active index, and the user's controls. */
module IntentMemory {
  import opened Common

  // --- Records ---------------------------------------------------------------------------

  datatype SourceKind = CurrentInstruction | LiveAuthority | ConfirmedInteraction | AttributableHistory

  datatype Freshness = Current | Stale | Expired | Unknown

  datatype Control = Active | Corrected | Retired | ForgettingPending | Forgotten

  datatype Scope = Scope(userId: string, attributes: seq<Option<string>>)

  const SCOPE_ATTRIBUTES := 5

  predicate ValidScope(s: Scope) {
    |s.attributes| == SCOPE_ATTRIBUTES
  }

  datatype Evidence = Evidence(
    evidenceId: string, scope: Scope, interpretation: string, sourceKind: SourceKind,
    sourceReference: string, sourceDigest: string,
    confirmations: nat, corrections: nat, contradictions: nat, confidence: real,
    firstConfirmedAt: int, lastConfirmedAt: int, freshness: Freshness,
    inferenceEligible: bool, control: Control, supersedes: Option<string>, provenance: seq<string>)

  /** The contract a constructed record is checked against; copies made with updates are not. */
  predicate Governed(e: Evidence) {
    && e.evidenceId != "" && e.interpretation != "" && e.sourceReference != "" && |e.sourceDigest| == 64
    && ValidScope(e.scope)
    && 1 <= e.confirmations && 0.0 <= e.confidence <= 1.0
    && e.firstConfirmedAt <= e.lastConfirmedAt
    && (e.inferenceEligible ==> e.control.Active? && e.freshness.Current?)
  }

  /** Windows in days. */
  datatype Policy = Policy(
    currentDays: nat, staleDays: nat, maxInferenceAgeDays: nat,
    unknownRequires: bool, staleRequires: bool, contradictionRequires: bool)

  predicate ValidPolicy(p: Policy) {
    1 <= p.currentDays <= p.staleDays <= p.maxInferenceAgeDays
  }

  const DAY := 86400

  function FreshnessAt(last: int, now: int, p: Policy): Freshness {
    var age := now - last;
    if age < 0 then Unknown
    else if age <= p.currentDays * DAY then Current
    else if age <= p.staleDays * DAY then Stale
    else Expired
  }

  // --- Scopes ----------------------------------------------------------------------------

  /** An attribute the scope names must be the same in the other scope. */
  predicate AttributesApply(a: seq<Option<string>>, b: seq<Option<string>>) {
    |a| == |b| && forall i :: 0 <= i < |a| ==> a[i].Some? ==> a[i] == b[i]
  }

  predicate Applies(a: Scope, b: Scope) {
    a.userId == b.userId && AttributesApply(a.attributes, b.attributes)
  }

  method AppliesTo(a: Scope, b: Scope) returns (r: bool)
    requires ValidScope(a) && ValidScope(b)
    ensures r == Applies(a, b)
  {
    if a.userId != b.userId {
      return false;
    }
    for i := 0 to SCOPE_ATTRIBUTES
      invariant forall j :: 0 <= j < i ==> a.attributes[j].Some? ==> a.attributes[j] == b.attributes[j]
    {
      var required, actual := a.attributes[i], b.attributes[i];
      if required.Some? && required != actual {
        return false;
      }
    }
    r := true;
  }

  // --- Eligibility -----------------------------------------------------------------------

  datatype Mode = Disabled | Inspection | Inference

  datatype Request = Request(
    scope: Scope, policy: Policy, mode: Mode, now: int, consequential: bool,
    currentInstruction: bool, liveAuthority: bool, scopeDisabled: bool, disabledIds: set<string>)

  predicate ValidRequest(q: Request) {
    ValidScope(q.scope) && ValidPolicy(q.policy)
  }

  datatype Status = Eligible | Ineligible | ClarificationRequired | Overridden

  datatype Reason =
    | CurrentInstructionOverrides | LiveAuthorityOverrides | ConfirmedCurrentScoped
    | InferenceDisabled | ScopeDisabled | EvidenceDisabled | ContextScopeMismatch
    | UserControl(control: Control)
    | FreshnessUnknown | EvidenceOutdated(freshness: Freshness) | UnresolvedContradiction
    | MarkedIneligible | LowConfidence | HistoryCannotControl

  /** Reason codes leave as a sorted tuple without repeats, which is a set. */
  datatype Decision = Decision(
    evidenceId: string, status: Status, reasons: set<Reason>, precedence: nat,
    contextMatch: bool, consequential: bool, clarification: bool,
    currentOverride: bool, authorityOverride: bool)

  function Precedence(k: SourceKind): nat {
    match k
    case CurrentInstruction => 1
    case LiveAuthority => 2
    case ConfirmedInteraction => 3
    case AttributableHistory => 4
  }

  /** When a reason against using the evidence holds. */
  predicate Raised(r: Reason, e: Evidence, q: Request) {
    var recency := FreshnessAt(e.lastConfirmedAt, q.now, q.policy);
    match r
    case InferenceDisabled => !q.mode.Inference?
    case ScopeDisabled => q.scopeDisabled
    case EvidenceDisabled => e.evidenceId in q.disabledIds
    case ContextScopeMismatch => !Applies(e.scope, q.scope)
    case UserControl(c) => c == e.control && !c.Active?
    case FreshnessUnknown => recency.Unknown? && q.policy.unknownRequires
    case EvidenceOutdated(f) => f == recency && (f.Stale? || f.Expired?) && q.policy.staleRequires
    case UnresolvedContradiction => e.contradictions > e.corrections && q.policy.contradictionRequires
    case MarkedIneligible => !e.inferenceEligible
    case LowConfidence => e.confidence < 0.70
    case HistoryCannotControl => q.consequential && e.sourceKind.AttributableHistory?
    case CurrentInstructionOverrides => false
    case LiveAuthorityOverrides => false
    case ConfirmedCurrentScoped => false
  }

  /** Reasons that ask the user rather than merely withhold the evidence. */
  predicate Asks(r: Reason, q: Request) {
    match r
    case ContextScopeMismatch => q.consequential
    case FreshnessUnknown => true
    case EvidenceOutdated(_) => true
    case UnresolvedContradiction => true
    case LowConfidence => true
    case HistoryCannotControl => true
    case _ => false
  }

  ghost predicate Unopposed(e: Evidence, q: Request) {
    forall r :: !Raised(r, e, q)
  }

  ghost predicate AsksUser(e: Evidence, q: Request) {
    exists r :: Raised(r, e, q) && Asks(r, q)
  }

  /** The decision follows the order of precedence, and then the reasons raised. */
  ghost predicate Decides(e: Evidence, q: Request, d: Decision) {
    && d.evidenceId == e.evidenceId && d.precedence == Precedence(e.sourceKind)
    && d.consequential == q.consequential
    && d.currentOverride == q.currentInstruction
    && d.authorityOverride == (q.liveAuthority && !q.currentInstruction)
    && if q.currentInstruction then
         d.status == Overridden && d.reasons == {CurrentInstructionOverrides} && !d.contextMatch && !d.clarification
       else if q.liveAuthority then
         d.status == Overridden && d.reasons == {LiveAuthorityOverrides} && !d.contextMatch && !d.clarification
       else if Unopposed(e, q) then
         d.status == Eligible && d.reasons == {ConfirmedCurrentScoped} && d.contextMatch && !d.clarification
       else
         && d.status == (if AsksUser(e, q) then ClarificationRequired else Ineligible)
         && (forall r :: r in d.reasons <==> Raised(r, e, q))
         && d.contextMatch == Applies(e.scope, q.scope)
         && d.clarification == AsksUser(e, q)
  }

  method DecideIntentEligibility(e: Evidence, q: Request) returns (d: Decision)
    requires ValidScope(e.scope) && ValidScope(q.scope)
    ensures Decides(e, q, d)
  {
    var precedence := Precedence(e.sourceKind);
    if q.currentInstruction {
      return Decision(e.evidenceId, Overridden, {CurrentInstructionOverrides}, precedence, false,
                      q.consequential, false, true, false);
    }
    if q.liveAuthority {
      return Decision(e.evidenceId, Overridden, {LiveAuthorityOverrides}, precedence, false,
                      q.consequential, false, false, true);
    }
    var contextMatch := AppliesTo(e.scope, q.scope);
    var reasons: set<Reason> := {};
    var clarification := false;
    if !q.mode.Inference? {
      reasons := reasons + {InferenceDisabled};
    }
    if q.scopeDisabled {
      reasons := reasons + {ScopeDisabled};
    }
    if e.evidenceId in q.disabledIds {
      reasons := reasons + {EvidenceDisabled};
    }
    if !contextMatch {
      reasons := reasons + {ContextScopeMismatch};
      clarification := q.consequential;
    }
    if !e.control.Active? {
      reasons := reasons + {UserControl(e.control)};
    }
    var recency := FreshnessAt(e.lastConfirmedAt, q.now, q.policy);
    assert forall r :: r in reasons <==> Raised(r, e, q) && Withholds(r);
    var more, asks := ReviewRecord(e, q, recency);
    reasons, clarification := reasons + more, clarification || asks;
    assert forall r :: r in reasons <==> Raised(r, e, q);
    assert clarification <==> AsksUser(e, q);
    if reasons != {} {
      assert exists r :: r in reasons;
      return Decision(e.evidenceId, if clarification then ClarificationRequired else Ineligible, reasons,
                      precedence, contextMatch, q.consequential, clarification, false, false);
    }
    d := Decision(e.evidenceId, Eligible, {ConfirmedCurrentScoped}, precedence, true,
                  q.consequential, false, false, false);
  }

  /** Reasons that come from the mode, the switches, the scope and the user's controls. */
  predicate Withholds(r: Reason) {
    r.InferenceDisabled? || r.ScopeDisabled? || r.EvidenceDisabled? || r.ContextScopeMismatch? || r.UserControl?
  }

  /** The rest of the decision: recency, contradiction, mark, confidence and source. */
  method ReviewRecord(e: Evidence, q: Request, recency: Freshness) returns (reasons: set<Reason>, clarification: bool)
    requires recency == FreshnessAt(e.lastConfirmedAt, q.now, q.policy)
    ensures forall r :: r in reasons <==> Raised(r, e, q) && !Withholds(r)
    ensures clarification <==> exists r :: r in reasons && Asks(r, q)
  {
    reasons, clarification := {}, false;
    if recency.Unknown? && q.policy.unknownRequires {
      reasons := reasons + {FreshnessUnknown};
      clarification := true;
    }
    if (recency.Stale? || recency.Expired?) && q.policy.staleRequires {
      reasons := reasons + {EvidenceOutdated(recency)};
      clarification := true;
    }
    if e.contradictions > e.corrections && q.policy.contradictionRequires {
      reasons := reasons + {UnresolvedContradiction};
      clarification := true;
    }
    if !e.inferenceEligible {
      reasons := reasons + {MarkedIneligible};
    }
    if e.confidence < 0.70 {
      reasons := reasons + {LowConfidence};
      clarification := true;
    }
    if q.consequential && e.sourceKind.AttributableHistory? {
      reasons := reasons + {HistoryCannotControl};
      clarification := true;
    }
    assert clarification ==>
      || FreshnessUnknown in reasons || EvidenceOutdated(recency) in reasons || UnresolvedContradiction in reasons
      || LowConfidence in reasons || HistoryCannotControl in reasons;
    assert Asks(FreshnessUnknown, q) && Asks(EvidenceOutdated(recency), q) && Asks(UnresolvedContradiction, q);
    assert Asks(LowConfidence, q) && Asks(HistoryCannotControl, q);
  }
}
