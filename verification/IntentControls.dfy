/** Inference from governed intent evidence, and what the user's controls guarantee over it. */
module IntentControls {
  import opened Common
  import opened Ordering
  import opened IntentMemory

  /** The decision is to infer from the evidence. */
  ghost predicate MayInfer(e: Evidence, q: Request) {
    !q.currentInstruction && !q.liveAuthority && Unopposed(e, q)
  }

  lemma {:induction false} EligibleMeaning(e: Evidence, q: Request, d: Decision)
    requires Decides(e, q, d)
    ensures d.status.Eligible? <==> MayInfer(e, q)
  {
  }

  // --- What the policy switches leave of the documented exclusions -------------------------

  /** Active indexes exclude stale and contradictory evidence. */
  ghost predicate ExclusionPromise(p: Policy) {
    forall e, q | Governed(e) && ValidRequest(q) && q.policy == p && MayInfer(e, q) ::
      FreshnessAt(e.lastConfirmedAt, q.now, p).Current? && e.contradictions <= e.corrections
  }

  /** No evidence older than the longest inference age is inferred from. */
  ghost predicate AgeLimit(p: Policy) {
    forall e, q | Governed(e) && ValidRequest(q) && q.policy == p && MayInfer(e, q) ::
      q.now - e.lastConfirmedAt <= p.maxInferenceAgeDays * DAY
  }

  const DIGEST := seq(64, _ => '0')

  /** Confirmed evidence as good as it gets, but for its age and its contradictions. */
  function Sample(confirmedAt: int, contradictions: nat): Evidence {
    Evidence("e", Scope("u", seq(SCOPE_ATTRIBUTES, _ => None)), "meaning", ConfirmedInteraction, "r", DIGEST,
             1, 0, contradictions, 1.0, confirmedAt, confirmedAt, Current, true, Active, None, [])
  }

  function SampleRequest(p: Policy): Request {
    Request(Scope("u", seq(SCOPE_ATTRIBUTES, _ => None)), p, Inference, 0, false, false, false, false, {})
  }

  lemma {:induction false} SampleInferred(p: Policy, confirmedAt: int, contradictions: nat)
    requires ValidPolicy(p)
    requires p.contradictionRequires ==> contradictions == 0
    requires p.unknownRequires ==> confirmedAt <= 0
    requires p.staleRequires ==> -(p.currentDays * DAY) <= confirmedAt
    ensures Governed(Sample(confirmedAt, contradictions)) && ValidRequest(SampleRequest(p))
    ensures MayInfer(Sample(confirmedAt, contradictions), SampleRequest(p))
  {
    var e, q := Sample(confirmedAt, contradictions), SampleRequest(p);
    assert Applies(e.scope, q.scope);
    assert forall r :: !Raised(r, e, q);
  }

  lemma {:induction false} ExclusionPromiseIff(p: Policy)
    requires ValidPolicy(p)
    ensures ExclusionPromise(p) <==> p.unknownRequires && p.staleRequires && p.contradictionRequires
  {
    if !p.contradictionRequires {
      SampleInferred(p, 0, 1);
      assert !ExclusionPromise(p);
    } else if !p.unknownRequires {
      SampleInferred(p, 1, 0);
      assert !ExclusionPromise(p);
    } else if !p.staleRequires {
      SampleInferred(p, -(p.currentDays * DAY) - 1, 0);
      assert !ExclusionPromise(p);
    } else {
      forall e, q | Governed(e) && ValidRequest(q) && q.policy == p && MayInfer(e, q)
        ensures FreshnessAt(e.lastConfirmedAt, q.now, p).Current? && e.contradictions <= e.corrections
      {
        assert !Raised(FreshnessUnknown, e, q) && !Raised(UnresolvedContradiction, e, q);
        assert !Raised(EvidenceOutdated(FreshnessAt(e.lastConfirmedAt, q.now, p)), e, q);
      }
    }
  }

  /** The longest inference age bounds nothing by itself: the stale switch decides whether it holds. */
  lemma {:induction false} AgeLimitIff(p: Policy)
    requires ValidPolicy(p)
    ensures AgeLimit(p) <==> p.staleRequires
  {
    if p.staleRequires {
      forall e, q | Governed(e) && ValidRequest(q) && q.policy == p && MayInfer(e, q)
        ensures q.now - e.lastConfirmedAt <= p.maxInferenceAgeDays * DAY
      {
        assert !Raised(EvidenceOutdated(FreshnessAt(e.lastConfirmedAt, q.now, p)), e, q);
      }
    } else {
      SampleInferred(p, -(p.maxInferenceAgeDays * DAY) - 1, 0);
    }
  }

  /** Evidence allowed at two times is allowed at every time between them. */
  lemma {:induction false} InferenceWindowIsConvex(e: Evidence, q: Request, from: int, to: int)
    requires MayInfer(e, q.(now := from)) && MayInfer(e, q.(now := to)) && from <= q.now <= to
    ensures MayInfer(e, q)
  {
    forall r ensures !Raised(r, e, q) {
      assert !Raised(r, e, q.(now := from)) && !Raised(r, e, q.(now := to));
      var p := q.policy;
      assert !Raised(FreshnessUnknown, e, q.(now := from));
      assert !Raised(EvidenceOutdated(FreshnessAt(e.lastConfirmedAt, to, p)), e, q.(now := to));
    }
  }

  // --- User controls ---------------------------------------------------------------------

  datatype Correction = Correction(
    evidenceId: string, interpretation: string, at: int, reference: string, digest: string,
    correctionId: string, receiptId: string)

  datatype Action =
    | CorrectAt(i: nat, correction: Correction)
    | RetireAt(i: nat, receiptId: string)
    | ForgetAt(i: nat, receiptId: string)

  type DigestOf = Evidence -> string

  predicate WellFormed(c: Correction) {
    && c.evidenceId != "" && c.interpretation != "" && c.reference != "" && |c.digest| == 64
    && c.correctionId != "" && c.receiptId != ""
  }

  function Successor(e: Evidence, c: Correction, digestOf: DigestOf): Evidence {
    Evidence(c.evidenceId, e.scope, c.interpretation, CurrentInstruction, c.reference, c.digest,
             1, 0, 0, 1.0, c.at, c.at, Current, true, Active, Some(e.evidenceId), [digestOf(e), c.reference])
  }

  /** The marked original and its successor, unless one of the new records is refused. */
  function Correct(e: Evidence, c: Correction, digestOf: DigestOf): Option<(Evidence, Evidence)> {
    if !WellFormed(c) then None
    else Some((e.(inferenceEligible := false, control := Corrected, corrections := e.corrections + 1),
               Successor(e, c, digestOf)))
  }

  function Retire(e: Evidence, receiptId: string): Option<Evidence> {
    if receiptId == "" then None else Some(e.(inferenceEligible := false, control := Retired))
  }

  function RequestForgetting(e: Evidence, receiptId: string): Option<Evidence> {
    if receiptId == "" then None else Some(e.(inferenceEligible := false, control := ForgettingPending))
  }

  /** The control goes through: its record is there and its receipt is accepted. */
  predicate Accepted(memory: seq<Evidence>, a: Action) {
    a.i < |memory| && match a
      case CorrectAt(_, c) => WellFormed(c)
      case RetireAt(_, receiptId) => receiptId != ""
      case ForgetAt(_, receiptId) => receiptId != ""
  }

  /** The changed record takes its place and a successor is added; a refused control changes nothing. */
  function Step(memory: seq<Evidence>, a: Action, digestOf: DigestOf): seq<Evidence> {
    if a.i >= |memory| then memory
    else
      match a
      case CorrectAt(i, c) =>
        var r := Correct(memory[i], c, digestOf);
        if r.None? then memory else memory[i := r.value.0] + [r.value.1]
      case RetireAt(i, receiptId) =>
        var r := Retire(memory[i], receiptId);
        if r.None? then memory else memory[i := r.value]
      case ForgetAt(i, receiptId) =>
        var r := RequestForgetting(memory[i], receiptId);
        if r.None? then memory else memory[i := r.value]
  }

  function Run(memory: seq<Evidence>, actions: seq<Action>, digestOf: DigestOf): (r: seq<Evidence>)
  {
    if actions == [] then memory
    else Step(Run(memory, actions[..|actions| - 1], digestOf), actions[|actions| - 1], digestOf)
  }

  ghost predicate AllGoverned(memory: seq<Evidence>) {
    forall i :: 0 <= i < |memory| ==> Governed(memory[i])
  }

  /** What no control changes about a record. */
  ghost predicate Preserved(before: Evidence, after: Evidence) {
    && after == before.(inferenceEligible := after.inferenceEligible,
                        control := after.control, corrections := after.corrections)
    && before.corrections <= after.corrections
    && (after.inferenceEligible ==> before.inferenceEligible)
    && (!before.control.Active? ==> !after.control.Active?)
  }

  lemma {:induction false} StepKeeps(memory: seq<Evidence>, a: Action, digestOf: DigestOf)
    ensures |memory| <= |Step(memory, a, digestOf)|
    ensures AllGoverned(memory) ==> AllGoverned(Step(memory, a, digestOf))
    ensures forall i :: 0 <= i < |memory| ==> Preserved(memory[i], Step(memory, a, digestOf)[i])
  {
  }

  /**
    Although the controls copy records around their contract, every record stays governed over any
    run, keeps its content, and once withdrawn is never inferred from again.
   */
  lemma {:induction false} ControlsKeepGovernance(memory: seq<Evidence>, actions: seq<Action>, digestOf: DigestOf)
    ensures |memory| <= |Run(memory, actions, digestOf)|
    ensures AllGoverned(memory) ==> AllGoverned(Run(memory, actions, digestOf))
    ensures forall i :: 0 <= i < |memory| ==> Preserved(memory[i], Run(memory, actions, digestOf)[i])
    ensures forall i, q :: 0 <= i < |memory| && !memory[i].control.Active? ==>
      !MayInfer(Run(memory, actions, digestOf)[i], q)
  {
    if actions != [] {
      var front := actions[..|actions| - 1];
      ControlsKeepGovernance(memory, front, digestOf);
      var before, after := Run(memory, front, digestOf), Run(memory, actions, digestOf);
      StepKeeps(before, actions[|actions| - 1], digestOf);
      forall i | 0 <= i < |memory| ensures Preserved(memory[i], after[i]) {
        assert Preserved(memory[i], before[i]) && Preserved(before[i], after[i]);
      }
    }
    forall i, q | 0 <= i < |memory| && !memory[i].control.Active?
      ensures !MayInfer(Run(memory, actions, digestOf)[i], q)
    {
      var e := Run(memory, actions, digestOf)[i];
      assert Preserved(memory[i], e);
      assert Raised(UserControl(e.control), e, q);
    }
  }

  predicate IsActive(e: Evidence) { e.control.Active? }

  lemma {:induction false} CountIfUpdate(s: seq<Evidence>, i: nat, x: Evidence)
    requires i < |s|
    ensures CountIf(s[i := x], IsActive)
      == CountIf(s, IsActive) - (if IsActive(s[i]) then 1 else 0) + if IsActive(x) then 1 else 0
  {
    CountIfRemove(s, i, IsActive);
    CountIfRemove(s[i := x], i, IsActive);
    assert s[i := x][..i] + s[i := x][i + 1..] == s[..i] + s[i + 1..];
  }

  /** A correction of a record already withdrawn puts a new active record beside it. */
  predicate Revives(memory: seq<Evidence>, a: Action) {
    Accepted(memory, a) && a.CorrectAt? && !memory[a.i].control.Active?
  }

  predicate Withdraws(memory: seq<Evidence>, a: Action) {
    Accepted(memory, a) && !a.CorrectAt? && memory[a.i].control.Active?
  }

  lemma {:induction false} StepBalance(memory: seq<Evidence>, a: Action, digestOf: DigestOf)
    ensures CountIf(Step(memory, a, digestOf), IsActive)
         == CountIf(memory, IsActive) + (if Revives(memory, a) then 1 else 0) - if Withdraws(memory, a) then 1 else 0
  {
    if Accepted(memory, a) {
      var e := memory[a.i];
      match a
      case CorrectAt(i, c) =>
        var r := Correct(e, c, digestOf).value;
        CountIfUpdate(memory, i, r.0);
        CountIfAppend(memory[i := r.0], r.1, IsActive);
      case RetireAt(i, receiptId) =>
        CountIfUpdate(memory, i, Retire(e, receiptId).value);
      case ForgetAt(i, receiptId) =>
        CountIfUpdate(memory, i, RequestForgetting(e, receiptId).value);
    }
  }

  function Revivals(memory: seq<Evidence>, actions: seq<Action>, digestOf: DigestOf): nat {
    if actions == [] then 0
    else
      var front := actions[..|actions| - 1];
      Revivals(memory, front, digestOf)
      + if Revives(Run(memory, front, digestOf), actions[|actions| - 1]) then 1 else 0
  }

  function Withdrawals(memory: seq<Evidence>, actions: seq<Action>, digestOf: DigestOf): nat {
    if actions == [] then 0
    else
      var front := actions[..|actions| - 1];
      Withdrawals(memory, front, digestOf)
      + if Withdraws(Run(memory, front, digestOf), actions[|actions| - 1]) then 1 else 0
  }

  /** Active records are only gained by correcting withdrawn ones and only lost by withdrawing. */
  lemma {:induction false} ActiveBalance(memory: seq<Evidence>, actions: seq<Action>, digestOf: DigestOf)
    ensures CountIf(Run(memory, actions, digestOf), IsActive) + Withdrawals(memory, actions, digestOf)
         == CountIf(memory, IsActive) + Revivals(memory, actions, digestOf)
  {
    if actions != [] {
      var front := actions[..|actions| - 1];
      ActiveBalance(memory, front, digestOf);
      StepBalance(Run(memory, front, digestOf), actions[|actions| - 1], digestOf);
    }
  }

  /** When a correction's successor may be inferred from: the original's state plays no part. */
  predicate CorrectionUsable(c: Correction, q: Request, scope: Scope) {
    && !q.currentInstruction && !q.liveAuthority && q.mode.Inference? && !q.scopeDisabled
    && c.evidenceId !in q.disabledIds && Applies(scope, q.scope)
    && match FreshnessAt(c.at, q.now, q.policy)
       case Current => true
       case Unknown => !q.policy.unknownRequires
       case _ => !q.policy.staleRequires
  }

  lemma {:induction false} SuccessorInferredIff(e: Evidence, c: Correction, q: Request, digestOf: DigestOf)
    ensures MayInfer(Successor(e, c, digestOf), q) <==> CorrectionUsable(c, q, e.scope)
  {
    var n := Successor(e, c, digestOf);
    if CorrectionUsable(c, q, e.scope) {
      assert forall r :: !Raised(r, n, q);
    } else if !q.currentInstruction && !q.liveAuthority {
      assert || Raised(InferenceDisabled, n, q) || Raised(ScopeDisabled, n, q) || Raised(EvidenceDisabled, n, q)
             || Raised(ContextScopeMismatch, n, q) || Raised(FreshnessUnknown, n, q)
             || Raised(EvidenceOutdated(FreshnessAt(c.at, q.now, q.policy)), n, q);
    }
  }

  /** Whatever the record, retiring it and then correcting it leaves a successor as usable as any correction's. */
  lemma {:induction false} RetiredThenCorrected(
      e: Evidence, receiptId: string, c: Correction, q: Request, digestOf: DigestOf)
    requires receiptId != "" && WellFormed(c)
    ensures
      var r := Run([e], [RetireAt(0, receiptId), CorrectAt(0, c)], digestOf);
      |r| == 2 && !MayInfer(r[0], q) && (MayInfer(r[1], q) <==> CorrectionUsable(c, q, e.scope))
  {
    var actions := [RetireAt(0, receiptId), CorrectAt(0, c)];
    var retired := e.(inferenceEligible := false, control := Retired);
    assert actions[..1] == [RetireAt(0, receiptId)] && [RetireAt(0, receiptId)][..0] == [];
    assert Run([e], actions[..1], digestOf) == [retired];
    var r := Run([e], actions, digestOf);
    assert r == Step([retired], CorrectAt(0, c), digestOf);
    SuccessorInferredIff(retired, c, q, digestOf);
    assert Raised(MarkedIneligible, r[0], q);
  }

  /** Turn `k` corrects a record already withdrawn. */
  predicate RevivedBy(memory: seq<Evidence>, actions: seq<Action>, digestOf: DigestOf, k: nat)
    requires k < |actions|
  {
    Revives(Run(memory, actions[..k], digestOf), actions[k])
  }

  /** Turn `k` puts an active successor, usable for some request, beside a record already withdrawn. */
  ghost predicate RevivesAt(memory: seq<Evidence>, actions: seq<Action>, digestOf: DigestOf, k: nat)
    requires k < |actions|
  {
    var before, after := Run(memory, actions[..k], digestOf), Run(memory, actions[..k + 1], digestOf);
    var i, n := actions[k].i, |before|;
    && i < n && !before[i].control.Active?
    && |after| == n + 1 && after[n].control.Active? && after[n].supersedes == Some(before[i].evidenceId)
    && exists q :: MayInfer(after[n], q)
  }

  lemma {:induction false} RevivesAtIff(memory: seq<Evidence>, actions: seq<Action>, digestOf: DigestOf, k: nat)
    requires k < |actions|
    ensures RevivesAt(memory, actions, digestOf, k) <==> RevivedBy(memory, actions, digestOf, k)
  {
    var before := Run(memory, actions[..k], digestOf);
    assert actions[..k + 1][..k] == actions[..k];
    assert Run(memory, actions[..k + 1], digestOf) == Step(before, actions[k], digestOf);
    if Revives(before, actions[k]) {
      var e, c := before[actions[k].i], actions[k].correction;
      var q := Request(e.scope, Policy(1, 1, 1, true, true, true), Inference, c.at, false, false, false, false, {});
      SuccessorInferredIff(e, c, q, digestOf);
      assert MayInfer(Step(before, actions[k], digestOf)[|before|], q);
    }
  }

  lemma {:induction false} RevivalsCount(memory: seq<Evidence>, actions: seq<Action>, digestOf: DigestOf)
    ensures Revivals(memory, actions, digestOf) == 0
       <==> forall k: nat :: k < |actions| ==> !RevivedBy(memory, actions, digestOf, k)
  {
    if actions != [] {
      var n := |actions| - 1;
      var front := actions[..n];
      RevivalsCount(memory, front, digestOf);
      forall k: nat | k < n ensures RevivedBy(memory, front, digestOf, k) <==> RevivedBy(memory, actions, digestOf, k) {
        assert front[..k] == actions[..k];
      }
      assert Revivals(memory, actions, digestOf)
          == Revivals(memory, front, digestOf) + if RevivedBy(memory, actions, digestOf, n) then 1 else 0;
    }
  }

  /** No withdrawn record ever comes back through a successor exactly when no correction meets a withdrawn record. */
  lemma {:induction false} NothingRevivedIff(memory: seq<Evidence>, actions: seq<Action>, digestOf: DigestOf)
    ensures (forall k: nat :: k < |actions| ==> !RevivesAt(memory, actions, digestOf, k))
       <==> Revivals(memory, actions, digestOf) == 0
  {
    forall k: nat | k < |actions|
      ensures RevivesAt(memory, actions, digestOf, k) <==> RevivedBy(memory, actions, digestOf, k)
    {
      RevivesAtIff(memory, actions, digestOf, k);
    }
    RevivalsCount(memory, actions, digestOf);
  }

  // --- Revival foretold from the actions alone -------------------------------------------

  predicate WellFormedAction(a: Action) {
    match a
    case CorrectAt(_, c) => WellFormed(c)
    case RetireAt(_, receiptId) => receiptId != ""
    case ForgetAt(_, receiptId) => receiptId != ""
  }

  /** How many records there are after the actions: one more for every accepted correction. */
  function SizeAfter(size: nat, actions: seq<Action>): nat {
    if actions == [] then size
    else
      var before, a := SizeAfter(size, actions[..|actions| - 1]), actions[|actions| - 1];
      if a.i < before && WellFormedAction(a) && a.CorrectAt? then before + 1 else before
  }

  /** Some accepted action is about record `i`. */
  predicate Touched(size: nat, actions: seq<Action>, i: nat) {
    actions != [] &&
    var front, a := actions[..|actions| - 1], actions[|actions| - 1];
    Touched(size, front, i) || (a.i == i && a.i < SizeAfter(size, front) && WellFormedAction(a))
  }

  /** Withdrawn from the start or by an action so far. */
  predicate WithdrawnAfter(memory: seq<Evidence>, actions: seq<Action>, i: nat) {
    (i < |memory| && !memory[i].control.Active?) || Touched(|memory|, actions, i)
  }

  lemma {:induction false} AcceptedForetold(memory: seq<Evidence>, actions: seq<Action>, a: Action, digestOf: DigestOf)
    ensures |Run(memory, actions, digestOf)| == SizeAfter(|memory|, actions)
    ensures Accepted(Run(memory, actions, digestOf), a) <==> a.i < SizeAfter(|memory|, actions) && WellFormedAction(a)
  {
    if actions != [] {
      AcceptedForetold(memory, actions[..|actions| - 1], actions[|actions| - 1], digestOf);
    }
  }

  /** An accepted action withdraws its record, leaves the others alone, and what it adds is active. */
  lemma {:induction false} StepWithdraws(memory: seq<Evidence>, a: Action, digestOf: DigestOf, i: nat)
    requires i < |Step(memory, a, digestOf)|
    ensures Step(memory, a, digestOf)[i].control.Active?
       <==> (i < |memory| ==> memory[i].control.Active?) && !(Accepted(memory, a) && a.i == i)
  {
  }

  lemma {:induction false} ActiveForetold(memory: seq<Evidence>, actions: seq<Action>, digestOf: DigestOf, i: nat)
    requires i < |Run(memory, actions, digestOf)|
    ensures Run(memory, actions, digestOf)[i].control.Active? <==> !WithdrawnAfter(memory, actions, i)
  {
    if actions != [] {
      var front, a := actions[..|actions| - 1], actions[|actions| - 1];
      var before := Run(memory, front, digestOf);
      AcceptedForetold(memory, front, a, digestOf);
      StepWithdraws(before, a, digestOf, i);
      if i < |before| {
        ActiveForetold(memory, front, digestOf, i);
      } else {
        NewIsUntouched(|memory|, front, i);
        ControlsKeepGovernance(memory, front, digestOf);
      }
    }
  }

  lemma {:induction false} NewIsUntouched(size: nat, actions: seq<Action>, i: nat)
    requires SizeAfter(size, actions) <= i
    ensures !Touched(size, actions, i)
  {
    if actions != [] {
      NewIsUntouched(size, actions[..|actions| - 1], i);
    }
  }

  /** Action `k` corrects a record withdrawn from the start or by an action before it. */
  predicate RevivalForetold(memory: seq<Evidence>, actions: seq<Action>, k: nat)
    requires k < |actions|
  {
    var a := actions[k];
    && a.CorrectAt? && WellFormedAction(a) && a.i < SizeAfter(|memory|, actions[..k])
    && WithdrawnAfter(memory, actions[..k], a.i)
  }

  /** Nothing is revived exactly when no accepted correction is of a record the actions show to be withdrawn. */
  lemma {:induction false} RevivalForetoldIff(memory: seq<Evidence>, actions: seq<Action>, digestOf: DigestOf)
    ensures (forall k: nat :: k < |actions| ==> !RevivesAt(memory, actions, digestOf, k))
       <==> (forall k: nat :: k < |actions| ==> !RevivalForetold(memory, actions, k))
  {
    forall k: nat | k < |actions|
      ensures RevivesAt(memory, actions, digestOf, k) <==> RevivalForetold(memory, actions, k)
    {
      RevivesAtIff(memory, actions, digestOf, k);
      AcceptedForetold(memory, actions[..k], actions[k], digestOf);
      if actions[k].i < SizeAfter(|memory|, actions[..k]) {
        ActiveForetold(memory, actions[..k], digestOf, actions[k].i);
      }
    }
  }

  /** Retiring or correcting the record drops its pending forgetting request. */
  predicate DropsRequest(memory: seq<Evidence>, a: Action, i: nat) {
    Accepted(memory, a) && a.i == i && !a.ForgetAt?
  }

  predicate EverDropped(memory: seq<Evidence>, actions: seq<Action>, digestOf: DigestOf, i: nat) {
    actions != [] &&
    var front := actions[..|actions| - 1];
    EverDropped(memory, front, digestOf, i) || DropsRequest(Run(memory, front, digestOf), actions[|actions| - 1], i)
  }

  predicate PendingAfter(memory: seq<Evidence>, actions: seq<Action>, digestOf: DigestOf, i: nat) {
    var r := Run(memory, actions, digestOf);
    i < |r| && r[i].control.ForgettingPending?
  }

  predicate PendingThroughout(memory: seq<Evidence>, actions: seq<Action>, digestOf: DigestOf, i: nat) {
    && PendingAfter(memory, actions, digestOf, i)
    && (actions == [] || PendingThroughout(memory, actions[..|actions| - 1], digestOf, i))
  }

  /** A pending forgetting request lasts exactly as long as nothing drops it. */
  lemma {:induction false} RequestStaysIff(memory: seq<Evidence>, actions: seq<Action>, digestOf: DigestOf, i: nat)
    requires i < |memory| && memory[i].control.ForgettingPending?
    ensures PendingThroughout(memory, actions, digestOf, i) <==> !EverDropped(memory, actions, digestOf, i)
  {
    if actions != [] {
      var front := actions[..|actions| - 1];
      RequestStaysIff(memory, front, digestOf, i);
      StepKeeps(Run(memory, front, digestOf), actions[|actions| - 1], digestOf);
    }
  }
}
