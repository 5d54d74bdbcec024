/** Eligibility and user controls in the records' own fields. */
module IntentEligibility {
  import opened Common
  import opened Ordering
  import opened IntentMemory
  import opened IntentControls
  import opened IntentIndex

  /** The evidence's scope names nothing the request does not have. */
  predicate Covers(a: Scope, b: Scope) {
    && a.userId == b.userId && |a.attributes| == |b.attributes|
    && forall i :: 0 <= i < |a.attributes| ==> a.attributes[i] == None || a.attributes[i] == b.attributes[i]
  }

  predicate TooFarAhead(e: Evidence, q: Request) {
    q.now < e.lastConfirmedAt && q.policy.unknownRequires
  }

  predicate TooOld(e: Evidence, q: Request) {
    q.now - e.lastConfirmedAt > q.policy.currentDays * 86400 && q.policy.staleRequires
  }

  predicate Lapsed(e: Evidence, q: Request) {
    q.now - e.lastConfirmedAt > q.policy.staleDays * 86400
  }

  predicate Disputed(e: Evidence, q: Request) {
    e.contradictions > e.corrections && q.policy.contradictionRequires
  }

  predicate HistoryInControl(e: Evidence, q: Request) {
    q.consequential && e.sourceKind == AttributableHistory
  }

  /** Everything that must hold for the evidence to be inferred from. */
  predicate MayBeUsed(e: Evidence, q: Request) {
    && !q.currentInstruction && !q.liveAuthority
    && q.mode == Inference && !q.scopeDisabled && e.evidenceId !in q.disabledIds
    && Covers(e.scope, q.scope)
    && e.control == Active && e.inferenceEligible && e.confidence >= 0.70
    && !TooFarAhead(e, q) && !TooOld(e, q) && !Disputed(e, q) && !HistoryInControl(e, q)
  }

  /** What makes the user be asked, once the evidence may not be used. */
  predicate MustAsk(e: Evidence, q: Request) {
    || (q.consequential && !Covers(e.scope, q.scope))
    || TooFarAhead(e, q) || TooOld(e, q) || Disputed(e, q) || HistoryInControl(e, q)
    || e.confidence < 0.70
  }

  lemma {:induction false} CoversIff(a: Scope, b: Scope)
    ensures Applies(a, b) <==> Covers(a, b)
  {
  }

  lemma {:induction false} UsableIff(e: Evidence, q: Request)
    requires ValidPolicy(q.policy)
    ensures MayInfer(e, q) <==> MayBeUsed(e, q)
  {
    CoversIff(e.scope, q.scope);
    var recency := FreshnessAt(e.lastConfirmedAt, q.now, q.policy);
    if MayBeUsed(e, q) {
      forall r ensures !Raised(r, e, q) {
      }
    }
    if MayInfer(e, q) {
      assert !Raised(InferenceDisabled, e, q) && !Raised(ScopeDisabled, e, q) && !Raised(EvidenceDisabled, e, q);
      assert !Raised(ContextScopeMismatch, e, q) && !Raised(UserControl(e.control), e, q);
      assert !Raised(FreshnessUnknown, e, q) && !Raised(EvidenceOutdated(recency), e, q);
      assert !Raised(UnresolvedContradiction, e, q) && !Raised(MarkedIneligible, e, q);
      assert !Raised(LowConfidence, e, q) && !Raised(HistoryCannotControl, e, q);
    }
  }

  lemma {:induction false} AskingIff(e: Evidence, q: Request)
    requires ValidPolicy(q.policy)
    ensures AsksUser(e, q) <==> MustAsk(e, q)
  {
    CoversIff(e.scope, q.scope);
    var recency := FreshnessAt(e.lastConfirmedAt, q.now, q.policy);
    assert Asks(FreshnessUnknown, q) && Asks(EvidenceOutdated(recency), q) && Asks(UnresolvedContradiction, q);
    assert Asks(LowConfidence, q) && Asks(HistoryCannotControl, q);
    assert Asks(ContextScopeMismatch, q) == q.consequential;
    assert Raised(FreshnessUnknown, e, q) <==> TooFarAhead(e, q);
    assert Raised(EvidenceOutdated(recency), e, q) <==> TooOld(e, q);
    assert Raised(UnresolvedContradiction, e, q) <==> Disputed(e, q);
    assert Raised(HistoryCannotControl, e, q) <==> HistoryInControl(e, q);
    assert Raised(LowConfidence, e, q) <==> e.confidence < 0.70;
    assert Raised(ContextScopeMismatch, e, q) <==> !Covers(e.scope, q.scope);
  }

  /** A decision's status, clarification and context, in the fields of the evidence and the request. */
  lemma {:induction false} DecisionMeaning(e: Evidence, q: Request, d: Decision)
    requires ValidPolicy(q.policy) && Decides(e, q, d)
    ensures d.evidenceId == e.evidenceId && d.consequential == q.consequential
    ensures d.status ==
      if q.currentInstruction || q.liveAuthority then Overridden
      else if MayBeUsed(e, q) then Eligible
      else if MustAsk(e, q) then ClarificationRequired
      else Ineligible
    ensures d.clarification <==> d.status == ClarificationRequired
    ensures d.contextMatch <==> d.status != Overridden && Covers(e.scope, q.scope)
    ensures d.currentOverride <==> q.currentInstruction
    ensures d.authorityOverride <==> q.liveAuthority && !q.currentInstruction
    ensures 1 <= d.precedence <= 4
    ensures d.precedence == 1 <==> e.sourceKind == CurrentInstruction
    ensures d.precedence == 2 <==> e.sourceKind == LiveAuthority
    ensures d.precedence == 3 <==> e.sourceKind == ConfirmedInteraction
  {
    UsableIff(e, q);
    AskingIff(e, q);
    CoversIff(e.scope, q.scope);
  }

  /** Each reason a decision may carry, once nothing overrides it, in the fields it is about. */
  lemma {:induction false} ReasonsMeaning(e: Evidence, q: Request, d: Decision)
    requires ValidPolicy(q.policy) && Decides(e, q, d) && d.status != Overridden
    ensures ConfirmedCurrentScoped in d.reasons <==> MayBeUsed(e, q)
    ensures InferenceDisabled in d.reasons <==> q.mode != Inference
    ensures ScopeDisabled in d.reasons <==> q.scopeDisabled
    ensures EvidenceDisabled in d.reasons <==> e.evidenceId in q.disabledIds
    ensures ContextScopeMismatch in d.reasons <==> !Covers(e.scope, q.scope)
    ensures forall c :: UserControl(c) in d.reasons <==> c == e.control && c != Active
    ensures FreshnessUnknown in d.reasons <==> TooFarAhead(e, q)
    ensures forall f :: EvidenceOutdated(f) in d.reasons
                   <==> TooOld(e, q) && f == (if Lapsed(e, q) then Expired else Stale)
    ensures UnresolvedContradiction in d.reasons <==> Disputed(e, q)
    ensures MarkedIneligible in d.reasons <==> !e.inferenceEligible
    ensures LowConfidence in d.reasons <==> e.confidence < 0.70
    ensures HistoryCannotControl in d.reasons <==> HistoryInControl(e, q)
    ensures CurrentInstructionOverrides !in d.reasons && LiveAuthorityOverrides !in d.reasons
  {
    UsableIff(e, q);
    CoversIff(e.scope, q.scope);
    RecencyMeaning(e.lastConfirmedAt, q.now, q.policy);
    if MayInfer(e, q) {
      assert d.reasons == {ConfirmedCurrentScoped};
    } else {
      assert forall r :: r in d.reasons <==> Raised(r, e, q);
    }
  }

  /** Recency runs through its four states as the evidence ages. */
  lemma {:induction false} RecencyMeaning(last: int, now: int, p: Policy)
    requires ValidPolicy(p)
    ensures FreshnessAt(last, now, p) == Unknown <==> now < last
    ensures FreshnessAt(last, now, p) == Current <==> 0 <= now - last <= p.currentDays * 86400
    ensures FreshnessAt(last, now, p) == Stale <==> p.currentDays * 86400 < now - last <= p.staleDays * 86400
    ensures FreshnessAt(last, now, p) == Expired <==> p.staleDays * 86400 < now - last
  {
    assert p.currentDays * 86400 <= p.staleDays * 86400;
  }

  // --- Controls --------------------------------------------------------------------------

  /** A record marked by a control: only its state and its mark change. */
  predicate MarkedAs(before: Evidence, after: Evidence, control: Control) {
    after == before.(control := control, inferenceEligible := false)
  }

  /**
    A correction is accepted exactly when its texts are given and its digest has the length of one;
    the original is marked and counts the correction, and the successor says what the correction
    says, in the original's scope, as a current instruction that supersedes it.
   */
  lemma {:induction false} CorrectionMeaning(e: Evidence, c: Correction, digestOf: DigestOf)
    ensures Correct(e, c, digestOf).Some?
       <==> && c.evidenceId != "" && c.interpretation != "" && c.reference != "" && |c.digest| == 64
            && c.correctionId != "" && c.receiptId != ""
    ensures Correct(e, c, digestOf).Some? ==>
      var (original, successor) := Correct(e, c, digestOf).value;
      && MarkedAs(e.(corrections := e.corrections + 1), original, Corrected)
      && successor.evidenceId == c.evidenceId && successor.interpretation == c.interpretation
      && successor.sourceReference == c.reference && successor.sourceDigest == c.digest
      && successor.scope == e.scope && successor.sourceKind == CurrentInstruction
      && successor.supersedes == Some(e.evidenceId)
      && successor.firstConfirmedAt == successor.lastConfirmedAt == c.at
      && successor.control == Active && successor.inferenceEligible && successor.freshness == Current
      && successor.confirmations == 1 && successor.corrections == 0 && successor.contradictions == 0
      && successor.confidence == 1.0 && successor.provenance == [digestOf(e), c.reference]
  {
  }

  /** Retirement and forgetting requests need a receipt id and mark the record, nothing else. */
  lemma {:induction false} MarkingMeaning(e: Evidence, receiptId: string)
    ensures Retire(e, receiptId).Some? <==> receiptId != ""
    ensures RequestForgetting(e, receiptId).Some? <==> receiptId != ""
    ensures Retire(e, receiptId).Some? ==> MarkedAs(e, Retire(e, receiptId).value, Retired)
    ensures RequestForgetting(e, receiptId).Some? ==>
      MarkedAs(e, RequestForgetting(e, receiptId).value, ForgettingPending)
  {
  }

  // --- The index -------------------------------------------------------------------------

  /** The index gives every id's digest, of its last record, and keeps every decision. */
  lemma {:induction false} IndexContents(items: seq<Evidence>, decisions: seq<Decision>, digestOf: DigestOf)
    requires BuildIndex(items, decisions, digestOf).Some?
    ensures
      var x, last := BuildIndex(items, decisions, digestOf).value, ById(items, EvidenceKey);
      && (forall entry :: entry in x.digests <==> entry.0 in last && entry.1 == digestOf(last[entry.0]))
      && multiset(x.decisions) == multiset(decisions) && Sorted(x.decisions, DecisionLe)
  {
    var last := ById(items, EvidenceKey);
    var ids := SortedSet(last.Keys);
    SortedSetSorts(last.Keys);
    var pairs := DigestPairs(ids, last, digestOf);
    forall k | k in last ensures (k, digestOf(last[k])) in pairs {
      var i :| 0 <= i < |ids| && ids[i] == k;
      assert pairs[i] == (k, digestOf(last[k]));
    }
    forall entry | entry in pairs ensures entry.0 in last && entry.1 == digestOf(last[entry.0]) {
      var i :| 0 <= i < |pairs| && pairs[i] == entry;
      assert ids[i] in ids;
    }
    DecisionLeIsPreorder();
    SortBySorts(decisions, DecisionLe);
  }
}
