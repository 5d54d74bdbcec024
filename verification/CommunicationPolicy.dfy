/** The disabled-by-default compiler of user communication policies. */
module CommunicationPolicy {
  import opened Common
  import opened Ordering

  // --- Stripping and bounded uniqueness --------------------------------------------------

  function TrimLeft(s: string): (r: string)
    ensures r == "" || !IsSpace(r[0])
    ensures r == "" <==> Blank(s)
  {
    if s != "" && IsSpace(s[0]) then
      assert Blank(s) <==> Blank(s[1..]) by {
        assert forall i :: 1 <= i < |s| ==> s[1..][i - 1] == s[i];
      }
      TrimLeft(s[1..])
    else s
  }

  function TrimRight(s: string): (r: string)
    ensures r == "" || !IsSpace(r[|r| - 1])
    ensures r == "" <==> Blank(s)
    ensures s != "" && !IsSpace(s[0]) ==> r != "" && r[0] == s[0]
  {
    if s != "" && IsSpace(s[|s| - 1]) then
      assert Blank(s) <==> Blank(s[..|s| - 1]);
      TrimRight(s[..|s| - 1])
    else s
  }

  /** `str.strip`. */
  function Strip(s: string): (r: string)
    ensures r == "" || (!IsSpace(r[0]) && !IsSpace(r[|r| - 1]))
    ensures r == "" <==> Blank(s)
  {
    TrimRight(TrimLeft(s))
  }

  lemma {:induction false} StripClean(s: string)
    requires s != "" && !IsSpace(s[0]) && !IsSpace(s[|s| - 1])
    ensures Strip(s) == s
  {
  }

  /** The distinct non-blank stripped values, in order of first occurrence. */
  function StrippedDistinct(values: seq<string>): seq<string> {
    if values == [] then []
    else
      var earlier := StrippedDistinct(values[..|values| - 1]);
      var last := Strip(values[|values| - 1]);
      if last == "" || last in earlier then earlier else earlier + [last]
  }

  function Take<T>(s: seq<T>, limit: nat): seq<T> {
    if |s| <= limit then s else s[..limit]
  }

  lemma {:induction false} PrefixGrows(values: seq<string>, i: nat, n: nat)
    requires i <= n <= |values|
    ensures StrippedDistinct(values[..i]) <= StrippedDistinct(values[..n])
    decreases n
  {
    if i < n {
      PrefixGrows(values, i, n - 1);
      assert values[..n][..n - 1] == values[..n - 1];
    }
  }

  /** Once the first `limit` values are found the rest of the input adds nothing to them. */
  lemma {:induction false} LimitReached(values: seq<string>, i: nat, limit: nat)
    requires i <= |values| && |StrippedDistinct(values[..i])| == limit
    ensures StrippedDistinct(values[..i]) == Take(StrippedDistinct(values), limit)
  {
    PrefixGrows(values, i, |values|);
    assert values[..|values|] == values;
  }

  lemma {:induction false} StrippedStep(values: seq<string>, i: nat)
    requires i < |values|
    ensures
      var earlier, last := StrippedDistinct(values[..i]), Strip(values[i]);
      StrippedDistinct(values[..i + 1]) == if last == "" || last in earlier then earlier else earlier + [last]
  {
    assert values[..i + 1][..i] == values[..i];
  }

  /** The loop that stops at the limit computes the first `limit` values of the unbounded form. */
  method BoundedUnique(values: seq<string>, limit: nat) returns (result: seq<string>)
    ensures limit > 0 ==> result == Take(StrippedDistinct(values), limit)
  {
    result := [];
    for i := 0 to |values|
      invariant result == StrippedDistinct(values[..i])
      invariant limit > 0 ==> |result| < limit
    {
      StrippedStep(values, i);
      var normalized := Strip(values[i]);
      if normalized != "" && normalized !in result {
        result := result + [normalized];
      }
      if |result| == limit {
        LimitReached(values, i + 1, limit);
        return;
      }
    }
    assert values[..|values|] == values;
  }

  /** The first position that strips to `x`. */
  function FirstAt(values: seq<string>, x: string): (r: nat)
    ensures r <= |values|
    ensures r < |values| ==> Strip(values[r]) == x
    ensures forall i :: 0 <= i < r ==> Strip(values[i]) != x
  {
    if values == [] then 0
    else if Strip(values[0]) == x then 0
    else
      assert forall i :: 1 <= i < |values| ==> values[i] == values[1..][i - 1];
      1 + FirstAt(values[1..], x)
  }

  lemma {:induction false} FirstAtExtends(values: seq<string>, x: string)
    requires values != []
    ensures
      var n := |values| - 1;
      FirstAt(values, x) == if FirstAt(values[..n], x) < n then FirstAt(values[..n], x)
                            else if Strip(values[n]) == x then n else n + 1
  {
    var n := |values| - 1;
    var r, f := FirstAt(values, x), FirstAt(values[..n], x);
    assert forall i :: 0 <= i < n ==> values[..n][i] == values[i];
  }

  /** `r` lists the distinct non-blank stripped values in order of first occurrence. */
  ghost predicate ListsFirsts(values: seq<string>, r: seq<string>) {
    && Distinct(r)
    && (forall x :: x in r <==> x != "" && FirstAt(values, x) < |values|)
    && (forall i, k :: 0 <= i < k < |r| ==> FirstAt(values, r[i]) < FirstAt(values, r[k]))
  }

  lemma {:induction false} FirstsStay(values: seq<string>, earlier: seq<string>)
    requires values != [] && ListsFirsts(values[..|values| - 1], earlier)
    ensures forall x :: x in earlier ==> FirstAt(values, x) == FirstAt(values[..|values| - 1], x) < |values| - 1
  {
    forall x | x in earlier ensures FirstAt(values, x) == FirstAt(values[..|values| - 1], x) < |values| - 1 {
      FirstAtExtends(values, x);
    }
  }

  lemma {:induction false} LastAddsNothing(values: seq<string>, earlier: seq<string>)
    requires values != [] && ListsFirsts(values[..|values| - 1], earlier)
    requires Strip(values[|values| - 1]) == "" || Strip(values[|values| - 1]) in earlier
    ensures ListsFirsts(values, earlier)
  {
    FirstsStay(values, earlier);
    forall x ensures x in earlier <==> x != "" && FirstAt(values, x) < |values| {
      FirstAtExtends(values, x);
    }
    forall i, k | 0 <= i < k < |earlier| ensures FirstAt(values, earlier[i]) < FirstAt(values, earlier[k]) {
      assert earlier[i] in earlier && earlier[k] in earlier;
    }
  }

  lemma {:induction false} LastComesLast(values: seq<string>, earlier: seq<string>, last: string)
    requires values != [] && ListsFirsts(values[..|values| - 1], earlier)
    requires last == Strip(values[|values| - 1]) && last != "" && last !in earlier
    ensures FirstAt(values, last) == |values| - 1
    ensures forall i, k :: 0 <= i < k <= |earlier| ==>
      FirstAt(values, (earlier + [last])[i]) < FirstAt(values, (earlier + [last])[k])
  {
    var n, r := |values| - 1, earlier + [last];
    FirstsStay(values, earlier);
    FirstAtExtends(values, last);
    forall i, k | 0 <= i < k < |r| ensures FirstAt(values, r[i]) < FirstAt(values, r[k]) {
      assert r[i] == earlier[i] && r[i] in earlier;
      assert k < |earlier| ==> r[k] == earlier[k] && r[k] in earlier;
    }
  }

  lemma {:induction false} LastIsAdded(values: seq<string>, earlier: seq<string>, last: string)
    requires values != [] && ListsFirsts(values[..|values| - 1], earlier)
    requires last == Strip(values[|values| - 1]) && last != "" && last !in earlier
    ensures ListsFirsts(values, earlier + [last])
  {
    var r := earlier + [last];
    LastComesLast(values, earlier, last);
    forall x ensures x in r <==> x != "" && FirstAt(values, x) < |values| {
      FirstAtExtends(values, x);
      assert x in r <==> x in earlier || x == last;
    }
  }

  /** No repeats, nothing blank, nothing missing, and in order of first occurrence. */
  lemma {:induction false} StrippedDistinctMeaning(values: seq<string>)
    ensures ListsFirsts(values, StrippedDistinct(values))
  {
    if values != [] {
      var earlier, last := StrippedDistinct(values[..|values| - 1]), Strip(values[|values| - 1]);
      StrippedDistinctMeaning(values[..|values| - 1]);
      if last == "" || last in earlier {
        LastAddsNothing(values, earlier);
      } else {
        LastIsAdded(values, earlier, last);
      }
    }
  }

  // --- Contracts -------------------------------------------------------------------------

  datatype CommunicationContext =
    | General | DecisionSupport | ConflictAccountability | LeadershipDelegation
    | CareerSelfAdvocacy | WorkloadCommitments | SensitiveStressful
  datatype AdaptationMode = Disabled | Inspection | Adaptation
  datatype ConfirmationState =
    | UserConfirmed | AssessmentSupported | Provisional | Contradicted | Rejected | Superseded
  datatype Sensitivity = Standard | Sensitive | Restricted
  datatype OverrideState = Default | ForcedOn | ForcedOff
  datatype ContradictionState = NoContradiction | Open | Resolved

  datatype Preference = Preference(
    preferenceId: string, applicableContexts: seq<CommunicationContext>, preferredBehaviors: seq<string>,
    avoidedBehaviors: seq<string>, confidence: real, confirmation: ConfirmationState, expiresAt: Option<int>,
    override: OverrideState, sensitivity: Sensitivity, contradiction: ContradictionState)

  datatype Profile = Profile(
    profileVersion: string, userId: string, workspaceId: string, repositoryBinding: string,
    reviewDueAt: int, globalEnabled: bool, preferences: seq<Preference>,
    contextDisabled: seq<CommunicationContext>, preferenceDisabled: seq<string>, digest: string)

  function PreferenceIds(preferences: seq<Preference>): (r: seq<string>)
    ensures |r| == |preferences|
    ensures forall i :: 0 <= i < |r| ==> r[i] == preferences[i].preferenceId
  {
    seq(|preferences|, i requires 0 <= i < |preferences| => preferences[i].preferenceId)
  }

  /** The enumeration's text, by which contexts are sorted. */
  function ContextText(c: CommunicationContext): string {
    match c
    case General => "general"
    case DecisionSupport => "decision_support"
    case ConflictAccountability => "conflict_accountability"
    case LeadershipDelegation => "leadership_delegation"
    case CareerSelfAdvocacy => "career_self_advocacy"
    case WorkloadCommitments => "workload_commitments"
    case SensitiveStressful => "sensitive_stressful"
  }

  /** `tuple(sorted(set(values))) == values`. */
  predicate UniqueSorted(values: seq<string>) {
    Sorted(values, StrLe) && Distinct(values)
  }

  predicate ValidPreference(p: Preference) {
    && p.preferenceId != "" && p.applicableContexts != []
    && UniqueSorted(Mapped(p.applicableContexts, ContextText))
    && 0.0 <= p.confidence <= 1.0
    && (p.preferredBehaviors != [] || p.avoidedBehaviors != [])
    && !((p.confirmation.Rejected? || p.confirmation.Superseded?) && p.override.ForcedOn?)
  }

  /** What the bundle's validator guarantees of the preferences and of the disabled lists. */
  predicate ValidProfile(p: Profile) {
    && UniqueSorted(PreferenceIds(p.preferences))
    && (forall i :: 0 <= i < |p.preferences| ==> ValidPreference(p.preferences[i]))
    && UniqueSorted(Mapped(p.contextDisabled, ContextText))
    && UniqueSorted(p.preferenceDisabled)
    && forall x :: x in p.preferenceDisabled ==> x in PreferenceIds(p.preferences)
  }

  datatype Policy = Policy(
    context: CommunicationContext, profileVersion: Option<string>, profileDigest: Option<string>,
    mode: AdaptationMode, adaptationApplied: bool, currentInstructionOverride: bool,
    liveAuthorityOverride: bool, directives: seq<string>, avoidedPatterns: seq<string>,
    appliedIds: seq<string>, excludedIds: seq<string>)

  const DIRECTIVE_LIMIT := 16
  const AVOIDED_LIMIT := 12

  /** `CompiledCommunicationPolicyV1`: lengths and uniqueness. */
  predicate PolicyValid(p: Policy) {
    && |p.directives| <= DIRECTIVE_LIMIT && |p.avoidedPatterns| <= AVOIDED_LIMIT
    && Distinct(p.directives) && Distinct(p.avoidedPatterns)
    && Distinct(p.appliedIds) && Distinct(p.excludedIds)
  }

  /** The directives and avoided patterns every policy starts from. */
  datatype Baseline = Baseline(directives: seq<string>, avoided: seq<string>)

  /** The opening words stand apart because the verifier reads only so far into one long literal. */
  const BASE_DIRECTIVES: seq<string> := [
    "Lead " + "with the conclusion, recommendation, or current state.",
    "Separate " + "verified facts, assumptions, interpretations, risks, and actions.",
    "Explain " + "reasoning for material recommendations.",
    "Present " + "meaningful tradeoffs and recommend a preferred option when supported.",
    "Challenge " + "assumptions respectfully and state uncertainty directly.",
    "Identify " + "diminishing returns when more analysis is unlikely to change the outcome.",
    "Provide " + "a concrete next decision or action when one exists."
  ]

  const BASE_AVOIDED: seq<string> := [
    "empty reassurance",
    "excessive praise",
    "vague motivation",
    "unsupported certainty",
    "unrelated sensitive profile disclosure"
  ]

  const BASELINE := Baseline(BASE_DIRECTIVES, BASE_AVOIDED)

  const REPOSITORY := "Ryan9876/atlas-ros"

  // --- Eligibility -----------------------------------------------------------------------

  datatype Feature = Feature(
    mode: AdaptationMode, selectedProfileVersion: Option<string>,
    disabledContexts: set<CommunicationContext>, disabledPreferenceIds: set<string>)

  datatype Request = Request(
    context: CommunicationContext, now: int, userId: string, workspaceId: string,
    instructions: seq<string>, liveAuthority: bool, consequential: bool)

  predicate ProfileEligible(f: Feature, p: Profile, q: Request) {
    && (f.selectedProfileVersion.Some? && f.selectedProfileVersion.value != "" ==>
          p.profileVersion == f.selectedProfileVersion.value)
    && p.repositoryBinding == REPOSITORY
    && p.userId == q.userId
    && p.workspaceId == q.workspaceId
    && q.now < p.reviewDueAt
  }

  function ConfidenceFloor(p: Preference, consequential: bool): real {
    if p.confirmation.UserConfirmed? then 0.50 else if consequential then 0.80 else 0.70
  }

  predicate PreferenceEligible(f: Feature, p: Preference, q: Request) {
    && p.preferenceId !in f.disabledPreferenceIds
    && !p.override.ForcedOff?
    && q.context in p.applicableContexts
    && (p.expiresAt.Some? ==> q.now < p.expiresAt.value)
    && !p.contradiction.Open?
    && (p.confirmation.UserConfirmed? || p.confirmation.AssessmentSupported?)
    && p.confidence >= ConfidenceFloor(p, q.consequential)
    && (p.sensitivity.Restricted? ==> q.context.SensitiveStressful?)
  }

  /** Every gate between a profile and its effect. */
  predicate GatesOpen(f: Feature, profile: Option<Profile>, q: Request) {
    && f.mode.Adaptation?
    && profile.Some? && ProfileEligible(f, profile.value, q) && profile.value.globalEnabled
    && q.context !in f.disabledContexts
    && q.instructions == []
    && !q.liveAuthority
  }

  predicate Applies(f: Feature, profile: Option<Profile>, q: Request, p: Preference) {
    PreferenceEligible(f, p, q) && GatesOpen(f, profile, q)
  }

  // --- Compilation -----------------------------------------------------------------------

  /** The first `n` preferences of the profile that apply (or, with `keep` false, that do not). */
  function Chosen(f: Feature, profile: Option<Profile>, q: Request, n: nat, keep: bool): seq<Preference>
    requires profile.Some? ==> n <= |profile.value.preferences|
    requires profile.None? ==> n == 0
  {
    if n == 0 then []
    else
      var p := profile.value.preferences[n - 1];
      var earlier := Chosen(f, profile, q, n - 1, keep);
      if Applies(f, profile, q, p) == keep then earlier + [p] else earlier
  }

  function PreferenceCount(profile: Option<Profile>): nat {
    if profile.None? then 0 else |profile.value.preferences|
  }

  function AppliedPreferences(f: Feature, profile: Option<Profile>, q: Request): seq<Preference> {
    Chosen(f, profile, q, PreferenceCount(profile), true)
  }

  function ExcludedPreferences(f: Feature, profile: Option<Profile>, q: Request): seq<Preference> {
    Chosen(f, profile, q, PreferenceCount(profile), false)
  }

  function Preferred(preferences: seq<Preference>): seq<string> {
    if preferences == [] then []
    else Preferred(preferences[..|preferences| - 1]) + preferences[|preferences| - 1].preferredBehaviors
  }

  function Avoided(preferences: seq<Preference>): seq<string> {
    if preferences == [] then []
    else Avoided(preferences[..|preferences| - 1]) + preferences[|preferences| - 1].avoidedBehaviors
  }

  /** Base directives, then what the applied preferences ask for, then the current instructions. */
  function AllDirectives(base: Baseline, f: Feature, profile: Option<Profile>, q: Request): seq<string> {
    base.directives + Preferred(AppliedPreferences(f, profile, q)) + q.instructions
  }

  function AllAvoided(base: Baseline, f: Feature, profile: Option<Profile>, q: Request): seq<string> {
    base.avoided + Avoided(AppliedPreferences(f, profile, q))
  }

  function CompiledPolicy(base: Baseline, f: Feature, profile: Option<Profile>, q: Request): Policy {
    var applied, excluded := AppliedPreferences(f, profile, q), ExcludedPreferences(f, profile, q);
    Policy(q.context,
           if profile.Some? then Some(profile.value.profileVersion) else None,
           if profile.Some? then Some(profile.value.digest) else None,
           f.mode, applied != [], q.instructions != [], q.liveAuthority,
           Take(StrippedDistinct(AllDirectives(base, f, profile, q)), DIRECTIVE_LIMIT),
           Take(StrippedDistinct(AllAvoided(base, f, profile, q)), AVOIDED_LIMIT),
           SortBy(PreferenceIds(applied), StrLe), SortBy(PreferenceIds(excluded), StrLe))
  }

  /** What the loop has gathered from the preferences it chose. */
  datatype Gathered = Gathered(
    directives: seq<string>, avoided: seq<string>, applied: seq<string>, excluded: seq<string>)

  function GatheredFrom(base: Baseline, chosen: seq<Preference>, passed: seq<Preference>): Gathered {
    Gathered(base.directives + Preferred(chosen), base.avoided + Avoided(chosen),
             PreferenceIds(chosen), PreferenceIds(passed))
  }

  lemma {:induction false} GatherChosen(base: Baseline, chosen: seq<Preference>, passed: seq<Preference>, p: Preference)
    ensures
      var g := GatheredFrom(base, chosen, passed);
      GatheredFrom(base, chosen + [p], passed)
        == Gathered(g.directives + p.preferredBehaviors, g.avoided + p.avoidedBehaviors,
                    g.applied + [p.preferenceId], g.excluded)
  {
    BehaviorsAppend(chosen, p);
    assert base.directives + (Preferred(chosen) + p.preferredBehaviors)
        == (base.directives + Preferred(chosen)) + p.preferredBehaviors;
    assert base.avoided + (Avoided(chosen) + p.avoidedBehaviors)
      == (base.avoided + Avoided(chosen)) + p.avoidedBehaviors;
  }

  lemma {:induction false} GatherPassed(base: Baseline, chosen: seq<Preference>, passed: seq<Preference>, p: Preference)
    ensures
      var g := GatheredFrom(base, chosen, passed);
      GatheredFrom(base, chosen, passed + [p]) == g.(excluded := g.excluded + [p.preferenceId])
  {
  }

  /** The loop over the profile's preferences. */
  method Collect(base: Baseline, f: Feature, profile: Option<Profile>, q: Request) returns (g: Gathered)
    ensures g == GatheredFrom(base, AppliedPreferences(f, profile, q), ExcludedPreferences(f, profile, q))
  {
    var directives, avoided, applied, excluded := base.directives, base.avoided, [], [];
    var allowed := GatesOpen(f, profile, q);
    if profile.Some? {
      var preferences := profile.value.preferences;
      for i := 0 to |preferences|
        invariant Gathered(directives, avoided, applied, excluded)
               == GatheredFrom(base, Chosen(f, profile, q, i, true), Chosen(f, profile, q, i, false))
      {
        var p := preferences[i];
        if PreferenceEligible(f, p, q) && allowed {
          GatherChosen(base, Chosen(f, profile, q, i, true), Chosen(f, profile, q, i, false), p);
          directives := directives + p.preferredBehaviors;
          avoided := avoided + p.avoidedBehaviors;
          applied := applied + [p.preferenceId];
        } else {
          GatherPassed(base, Chosen(f, profile, q, i, true), Chosen(f, profile, q, i, false), p);
          excluded := excluded + [p.preferenceId];
        }
      }
    }
    g := Gathered(directives, avoided, applied, excluded);
  }

  /** The validator may refuse a policy. */
  function Validated(p: Policy): Option<Policy> {
    if PolicyValid(p) then Some(p) else None
  }

  method Compile(base: Baseline, f: Feature, profile: Option<Profile>, q: Request) returns (r: Option<Policy>)
    ensures r == Validated(CompiledPolicy(base, f, profile, q))
  {
    var gathered := Collect(base, f, profile, q);
    var directives, applied := gathered.directives, gathered.applied;
    if q.instructions != [] {
      directives := directives + q.instructions;
    }
    assert directives == AllDirectives(base, f, profile, q);
    var compiledDirectives := BoundedUnique(directives, DIRECTIVE_LIMIT);
    var compiledAvoided := BoundedUnique(gathered.avoided, AVOIDED_LIMIT);
    var policy := Policy(
      q.context,
      if profile.Some? then Some(profile.value.profileVersion) else None,
      if profile.Some? then Some(profile.value.digest) else None,
      f.mode, applied != [], q.instructions != [], q.liveAuthority,
      compiledDirectives, compiledAvoided, SortBy(applied, StrLe), SortBy(gathered.excluded, StrLe));
    r := Validated(policy);
  }

  lemma {:induction false} BehaviorsAppend(preferences: seq<Preference>, p: Preference)
    ensures Preferred(preferences + [p]) == Preferred(preferences) + p.preferredBehaviors
    ensures Avoided(preferences + [p]) == Avoided(preferences) + p.avoidedBehaviors
    ensures PreferenceIds(preferences + [p]) == PreferenceIds(preferences) + [p.preferenceId]
  {
    assert (preferences + [p])[..|preferences|] == preferences;
  }

  // --- What compiled policies satisfy ----------------------------------------------------

  lemma {:induction false} BaseIsClean()
    ensures StrippedDistinct(BASE_DIRECTIVES) == BASE_DIRECTIVES
  {
    var base := BASE_DIRECTIVES;
    Sentence(base[0], 'L');
    Sentence(base[1], 'S');
    Sentence(base[2], 'E');
    Sentence(base[3], 'P');
    Sentence(base[4], 'C');
    Sentence(base[5], 'I');
    Sentence(base[6], 'P');
    CleanIsFixed(base);
  }

  lemma {:induction false} Sentence(s: string, first: char)
    requires s != "" && s[0] == first && 'A' <= first <= 'Z' && s[|s| - 1] == '.'
    ensures Clean(s)
  {
  }

  predicate Clean(s: string) {
    s != "" && !IsSpace(s[0]) && !IsSpace(s[|s| - 1])
  }

  lemma {:induction false} CleanIsFixed(values: seq<string>)
    requires Distinct(values)
    requires forall i :: 0 <= i < |values| ==> Clean(values[i])
    ensures StrippedDistinct(values) == values
  {
    if values != [] {
      var n := |values| - 1;
      assert forall i :: 0 <= i < n ==> values[..n][i] == values[i];
      assert forall i :: 0 <= i < n ==> values[i] != values[n];
      CleanIsFixed(values[..n]);
      StripClean(values[n]);
      assert values[n] !in values[..n];
      assert values == values[..n] + [values[n]];
    }
  }

  lemma {:induction false} StartsWithClean(base: Baseline, f: Feature, profile: Option<Profile>, q: Request)
    requires StrippedDistinct(base.directives) == base.directives && |base.directives| <= DIRECTIVE_LIMIT
    ensures base.directives <= CompiledPolicy(base, f, profile, q).directives
  {
    var all := AllDirectives(base, f, profile, q);
    PrefixGrows(all, |base.directives|, |all|);
    assert all[..|base.directives|] == base.directives;
    assert all[..|all|] == all;
  }

  /** Whatever the profile and the request, the seven base directives come first. */
  lemma {:induction false} DirectivesStartWithBase(f: Feature, profile: Option<Profile>, q: Request)
    ensures BASE_DIRECTIVES <= CompiledPolicy(BASELINE, f, profile, q).directives
  {
    BaseIsClean();
    StartsWithClean(BASELINE, f, profile, q);
  }

  /** Preference `i` is on the list that `keep` names, under the id `x`. */
  ghost predicate Listed(f: Feature, profile: Profile, q: Request, i: nat, keep: bool, x: string)
    requires i < |profile.preferences|
  {
    profile.preferences[i].preferenceId == x && Applies(f, Some(profile), q, profile.preferences[i]) == keep
  }

  lemma {:induction false} ChosenIds(f: Feature, profile: Profile, q: Request, n: nat, keep: bool, x: string)
    requires n <= |profile.preferences|
    ensures x in PreferenceIds(Chosen(f, Some(profile), q, n, keep))
       <==> exists i: nat :: i < n && Listed(f, profile, q, i, keep, x)
  {
    if n > 0 {
      ChosenIds(f, profile, q, n - 1, keep, x);
      var earlier, p := Chosen(f, Some(profile), q, n - 1, keep), profile.preferences[n - 1];
      var ids := PreferenceIds(Chosen(f, Some(profile), q, n, keep));
      assert ids == PreferenceIds(earlier) + if Applies(f, Some(profile), q, p) == keep then [p.preferenceId] else [];
      assert x in ids <==> x in PreferenceIds(earlier) || Listed(f, profile, q, n - 1, keep, x);
    }
  }

  /** Every id chosen before position `n` sorts before the preference there. */
  lemma {:induction false} ChosenPrecede(f: Feature, profile: Profile, q: Request, n: nat, keep: bool, x: string)
    requires n < |profile.preferences| && ValidProfile(profile)
    requires x in PreferenceIds(Chosen(f, Some(profile), q, n, keep))
    ensures StrLe(x, profile.preferences[n].preferenceId) && x != profile.preferences[n].preferenceId
  {
    var all := PreferenceIds(profile.preferences);
    ChosenIds(f, profile, q, n, keep, x);
    var i: nat :| i < n && Listed(f, profile, q, i, keep, x);
    assert StrLe(all[i], all[n]) && all[i] != all[n];
  }

  lemma {:induction false} AppendUniqueSorted(ids: seq<string>, last: string)
    requires UniqueSorted(ids) && forall x :: x in ids ==> StrLe(x, last) && x != last
    ensures UniqueSorted(ids + [last])
  {
    AppendSorted(ids, last, StrLe);
  }

  lemma {:induction false} ChosenStep(f: Feature, profile: Profile, q: Request, n: nat, keep: bool)
    requires n < |profile.preferences|
    ensures
      var p, ids := profile.preferences[n], PreferenceIds(Chosen(f, Some(profile), q, n, keep));
      PreferenceIds(Chosen(f, Some(profile), q, n + 1, keep))
        == if Applies(f, Some(profile), q, p) == keep then ids + [p.preferenceId] else ids
  {
  }

  lemma {:induction false} ChosenSortedStep(f: Feature, profile: Profile, q: Request, n: nat, keep: bool)
    requires n < |profile.preferences| && ValidProfile(profile)
    requires UniqueSorted(PreferenceIds(Chosen(f, Some(profile), q, n, keep)))
    ensures UniqueSorted(PreferenceIds(Chosen(f, Some(profile), q, n + 1, keep)))
  {
    var ids, last := PreferenceIds(Chosen(f, Some(profile), q, n, keep)), profile.preferences[n].preferenceId;
    forall x | x in ids ensures StrLe(x, last) && x != last {
      ChosenPrecede(f, profile, q, n, keep, x);
    }
    AppendUniqueSorted(ids, last);
    ChosenStep(f, profile, q, n, keep);
  }

  lemma {:induction false} ChosenAreSorted(f: Feature, profile: Profile, q: Request, n: nat, keep: bool)
    requires n <= |profile.preferences| && ValidProfile(profile)
    ensures UniqueSorted(PreferenceIds(Chosen(f, Some(profile), q, n, keep)))
  {
    if n > 0 {
      ChosenAreSorted(f, profile, q, n - 1, keep);
      ChosenSortedStep(f, profile, q, n - 1, keep);
    }
  }

  lemma {:induction false} ReportedIds(base: Baseline, f: Feature, profile: Option<Profile>, q: Request)
    requires profile.Some? ==> ValidProfile(profile.value)
    ensures CompiledPolicy(base, f, profile, q).appliedIds == PreferenceIds(AppliedPreferences(f, profile, q))
    ensures CompiledPolicy(base, f, profile, q).excludedIds == PreferenceIds(ExcludedPreferences(f, profile, q))
  {
    if profile.Some? {
      ChosenAreSorted(f, profile.value, q, PreferenceCount(profile), true);
      ChosenAreSorted(f, profile.value, q, PreferenceCount(profile), false);
    }
    SortedIsFixed(PreferenceIds(AppliedPreferences(f, profile, q)), StrLe);
    SortedIsFixed(PreferenceIds(ExcludedPreferences(f, profile, q)), StrLe);
  }

  lemma {:induction false} TakeDistinct(values: seq<string>, limit: nat)
    ensures Distinct(Take(StrippedDistinct(values), limit)) && |Take(StrippedDistinct(values), limit)| <= limit
  {
    StrippedDistinctMeaning(values);
  }

  /** On a valid profile the compiler's own validator never refuses its output. */
  lemma {:induction false} NeverRefused(base: Baseline, f: Feature, profile: Option<Profile>, q: Request)
    requires profile.Some? ==> ValidProfile(profile.value)
    ensures PolicyValid(CompiledPolicy(base, f, profile, q))
  {
    TakeDistinct(AllDirectives(base, f, profile, q), DIRECTIVE_LIMIT);
    TakeDistinct(AllAvoided(base, f, profile, q), AVOIDED_LIMIT);
    ReportedIds(base, f, profile, q);
    if profile.Some? {
      ChosenAreSorted(f, profile.value, q, PreferenceCount(profile), true);
      ChosenAreSorted(f, profile.value, q, PreferenceCount(profile), false);
    }
  }

  lemma {:induction false} ProfileIdsDistinct(profile: Profile, i: nat, k: nat)
    requires ValidProfile(profile) && i < |profile.preferences| && k < |profile.preferences|
    requires profile.preferences[i].preferenceId == profile.preferences[k].preferenceId
    ensures i == k
  {
    var ids := PreferenceIds(profile.preferences);
    assert ids[i] == ids[k];
  }

  /** On which of the two lists preference `i` is reported. */
  lemma {:induction false} ReportedAsApplied(f: Feature, profile: Profile, q: Request, i: nat, keep: bool)
    requires ValidProfile(profile) && i < |profile.preferences|
    ensures profile.preferences[i].preferenceId
              in PreferenceIds(Chosen(f, Some(profile), q, |profile.preferences|, keep))
       <==> Applies(f, Some(profile), q, profile.preferences[i]) == keep
  {
    var x := profile.preferences[i].preferenceId;
    ChosenIds(f, profile, q, |profile.preferences|, keep, x);
    if k: nat :| k < |profile.preferences| && Listed(f, profile, q, k, keep, x) {
      ProfileIdsDistinct(profile, i, k);
    }
    assert Applies(f, Some(profile), q, profile.preferences[i]) == keep ==> Listed(f, profile, q, i, keep, x);
  }

  lemma {:induction false} ReportedIsKnown(
      f: Feature, profile: Profile, q: Request, keep: bool, x: string) returns (i: nat)
    requires x in PreferenceIds(Chosen(f, Some(profile), q, |profile.preferences|, keep))
    ensures i < |profile.preferences| && Listed(f, profile, q, i, keep, x)
    ensures x in PreferenceIds(profile.preferences)
  {
    ChosenIds(f, profile, q, |profile.preferences|, keep, x);
    i :| i < |profile.preferences| && Listed(f, profile, q, i, keep, x);
    assert PreferenceIds(profile.preferences)[i] == x;
  }

  /** Every preference is reported exactly once, as applied exactly when it applies. */
  lemma {:induction false} IdsPartitionProfile(base: Baseline, f: Feature, profile: Profile, q: Request)
    requires ValidProfile(profile)
    ensures
      var p := CompiledPolicy(base, f, Some(profile), q);
      && Distinct(p.appliedIds) && Distinct(p.excludedIds) && DisjointSeqs(p.appliedIds, p.excludedIds)
      && forall i :: 0 <= i < |profile.preferences| ==>
           var id := profile.preferences[i].preferenceId;
           && (id in p.appliedIds <==> Applies(f, Some(profile), q, profile.preferences[i]))
           && (id in p.excludedIds <==> !Applies(f, Some(profile), q, profile.preferences[i]))
    ensures
      forall x :: x in CompiledPolicy(base, f, Some(profile), q).appliedIds
               || x in CompiledPolicy(base, f, Some(profile), q).excludedIds
               ==> x in PreferenceIds(profile.preferences)
  {
    var p, n := CompiledPolicy(base, f, Some(profile), q), |profile.preferences|;
    ReportedIds(base, f, Some(profile), q);
    ChosenAreSorted(f, profile, q, n, true);
    ChosenAreSorted(f, profile, q, n, false);
    forall i | 0 <= i < n
      ensures profile.preferences[i].preferenceId in p.appliedIds
        <==> Applies(f, Some(profile), q, profile.preferences[i])
      ensures profile.preferences[i].preferenceId in p.excludedIds
        <==> !Applies(f, Some(profile), q, profile.preferences[i])
    {
      ReportedAsApplied(f, profile, q, i, true);
      ReportedAsApplied(f, profile, q, i, false);
    }
    forall x | x in p.appliedIds ensures x in PreferenceIds(profile.preferences) && x !in p.excludedIds {
      var i := ReportedIsKnown(f, profile, q, true, x);
      ReportedAsApplied(f, profile, q, i, false);
    }
    forall x | x in p.excludedIds ensures x in PreferenceIds(profile.preferences) {
      var i := ReportedIsKnown(f, profile, q, false, x);
    }
  }

  lemma {:induction false} ClosedGatesChooseNothing(f: Feature, profile: Option<Profile>, q: Request, n: nat)
    requires profile.Some? ==> n <= |profile.value.preferences|
    requires profile.None? ==> n == 0
    requires !GatesOpen(f, profile, q)
    ensures Chosen(f, profile, q, n, true) == []
  {
    if n > 0 {
      ClosedGatesChooseNothing(f, profile, q, n - 1);
    }
  }

  /** With any gate closed the directives are those compiled without a profile. */
  lemma {:induction false} ClosedGateMeansBaseline(base: Baseline, f: Feature, profile: Option<Profile>, q: Request)
    requires !GatesOpen(f, profile, q)
    ensures
      var p, baseline := CompiledPolicy(base, f, profile, q), CompiledPolicy(base, f, None, q);
      && p.directives == baseline.directives && p.avoidedPatterns == baseline.avoidedPatterns
      && p.appliedIds == [] && !p.adaptationApplied
  {
    ClosedGatesChooseNothing(f, profile, q, PreferenceCount(profile));
    ClosedGatesChooseNothing(f, None, q, 0);
  }

  lemma {:induction false} AppliesEarlier(
      f: Feature, profile: Profile, q: Request, later: int, consequential: bool, p: Preference)
    requires q.now <= later && (q.consequential ==> consequential)
    requires Applies(f, Some(profile), q.(now := later, consequential := consequential), p)
    ensures Applies(f, Some(profile), q, p)
  {
  }

  lemma {:induction false} AppliedIsKnown(
      base: Baseline, f: Feature, profile: Profile, q: Request, x: string) returns (i: nat)
    requires ValidProfile(profile) && x in CompiledPolicy(base, f, Some(profile), q).appliedIds
    ensures i < |profile.preferences| && profile.preferences[i].preferenceId == x
    ensures Applies(f, Some(profile), q, profile.preferences[i])
  {
    ReportedIds(base, f, Some(profile), q);
    i := ReportedIsKnown(f, profile, q, true, x);
  }

  /** Time passing, or the decision becoming consequential, can only take preferences away. */
  lemma {:induction false} AppliedOnlyShrinks(
      base: Baseline, f: Feature, profile: Profile, q: Request, later: int, consequential: bool)
    requires ValidProfile(profile)
    requires q.now <= later && (q.consequential ==> consequential)
    ensures
      var after := q.(now := later, consequential := consequential);
      ToSet(CompiledPolicy(base, f, Some(profile), after).appliedIds)
        <= ToSet(CompiledPolicy(base, f, Some(profile), q).appliedIds)
  {
    var after := q.(now := later, consequential := consequential);
    forall x | x in CompiledPolicy(base, f, Some(profile), after).appliedIds
      ensures x in CompiledPolicy(base, f, Some(profile), q).appliedIds
    {
      var i := AppliedIsKnown(base, f, profile, after, x);
      AppliesEarlier(f, profile, q, later, consequential, profile.preferences[i]);
      IdsPartitionProfile(base, f, profile, q);
    }
  }

  // --- The bundle's own disabled lists ---------------------------------------------------

  /** Nothing the bundle disables reaches the policy compiled for this request. */
  ghost predicate DisabledStaysOut(base: Baseline, f: Feature, p: Profile, q: Request) {
    var applied := CompiledPolicy(base, f, Some(p), q).appliedIds;
    && (forall x :: x in applied ==> x !in p.preferenceDisabled)
    && (applied != [] ==> q.context !in p.contextDisabled)
  }

  /** Some request in this context applies the preference: all that does not depend on the request. */
  predicate CouldApply(f: Feature, p: Profile, preference: Preference, context: CommunicationContext) {
    && f.mode.Adaptation? && p.globalEnabled && p.repositoryBinding == REPOSITORY
    && (f.selectedProfileVersion.Some? && f.selectedProfileVersion.value != "" ==>
          p.profileVersion == f.selectedProfileVersion.value)
    && context !in f.disabledContexts && context in preference.applicableContexts
    && preference.preferenceId !in f.disabledPreferenceIds
    && !preference.override.ForcedOff? && !preference.contradiction.Open?
    && (preference.confirmation.UserConfirmed? || preference.confirmation.AssessmentSupported?)
    && preference.confidence >= ConfidenceFloor(preference, false)
    && (preference.sensitivity.Restricted? ==> context.SensitiveStressful?)
  }

  /** The request most favourable to a preference in a context. */
  function FavourableRequest(p: Profile, preference: Preference, context: CommunicationContext): Request {
    var expiry := if preference.expiresAt.Some? then preference.expiresAt.value else p.reviewDueAt;
    var now := (if expiry < p.reviewDueAt then expiry else p.reviewDueAt) - 1;
    Request(context, now, p.userId, p.workspaceId, [], false, false)
  }

  lemma {:induction false} CouldApplyMeaning(f: Feature, p: Profile, preference: Preference, q: Request)
    ensures CouldApply(f, p, preference, q.context)
       <==> Applies(f, Some(p), FavourableRequest(p, preference, q.context), preference)
    ensures Applies(f, Some(p), q, preference) ==> CouldApply(f, p, preference, q.context)
  {
  }

  /** If some request in context `c` could apply preference `i`, the bundle disables neither. */
  predicate LeftEnabled(f: Feature, p: Profile, i: nat, c: CommunicationContext)
    requires i < |p.preferences|
  {
    CouldApply(f, p, p.preferences[i], c) ==>
      p.preferences[i].preferenceId !in p.preferenceDisabled && c !in p.contextDisabled
  }

  /**
    No request ever applies a preference the bundle disables, or any preference in a context it
    disables, exactly when every preference and context that some request could apply is left
    enabled: the compiler itself never looks at the bundle's lists.
   */
  lemma {:induction false} DisabledStaysOutIff(base: Baseline, f: Feature, p: Profile)
    requires ValidProfile(p)
    ensures (forall q :: DisabledStaysOut(base, f, p, q))
       <==> forall i: nat, c :: i < |p.preferences| ==> LeftEnabled(f, p, i, c)
  {
    if forall q :: DisabledStaysOut(base, f, p, q) {
      forall i: nat, c | i < |p.preferences| ensures LeftEnabled(f, p, i, c) {
        var q := FavourableRequest(p, p.preferences[i], c);
        CouldApplyMeaning(f, p, p.preferences[i], q);
        IdsPartitionProfile(base, f, p, q);
        assert DisabledStaysOut(base, f, p, q);
      }
    }
    if forall i: nat, c :: i < |p.preferences| ==> LeftEnabled(f, p, i, c) {
      forall q ensures DisabledStaysOut(base, f, p, q) {
        EnabledReachPolicy(base, f, p, q);
      }
    }
  }

  lemma {:induction false} EnabledReachPolicy(base: Baseline, f: Feature, p: Profile, q: Request)
    requires ValidProfile(p)
    requires forall i: nat :: i < |p.preferences| ==> LeftEnabled(f, p, i, q.context)
    ensures DisabledStaysOut(base, f, p, q)
  {
    var applied := CompiledPolicy(base, f, Some(p), q).appliedIds;
    IdsPartitionProfile(base, f, p, q);
    forall x | x in applied ensures x !in p.preferenceDisabled && q.context !in p.contextDisabled {
      var i: nat :| i < |p.preferences| && PreferenceIds(p.preferences)[i] == x;
      CouldApplyMeaning(f, p, p.preferences[i], q);
      assert LeftEnabled(f, p, i, q.context);
    }
    if applied != [] {
      assert applied[0] in applied;
    }
  }

  /** A valid bundle that disables its one preference and the context, and the feature policy that ignores both. */
  function DisablingProfile(): Profile {
    Profile("v", "u", "w", REPOSITORY, 1, true,
            [Preference("p", [General], ["be brief"], [], 1.0, UserConfirmed, None,
                        Default, Standard, NoContradiction)],
            [General], ["p"], "")
  }

  lemma {:induction false} DisablingProfileValid()
    ensures ValidProfile(DisablingProfile())
  {
    assert PreferenceIds(DisablingProfile().preferences) == ["p"];
  }

  lemma {:induction false} DisabledPreferenceApplied(base: Baseline)
    ensures
      var p, f := DisablingProfile(), Feature(Adaptation, None, {}, {});
      var policy := CompiledPolicy(base, f, Some(p), FavourableRequest(p, p.preferences[0], General));
      && ValidProfile(p) && p.preferenceDisabled == ["p"] && p.contextDisabled == [policy.context]
      && "p" in policy.appliedIds
  {
    var p, f := DisablingProfile(), Feature(Adaptation, None, {}, {});
    DisablingProfileValid();
    IdsPartitionProfile(base, f, p, FavourableRequest(p, p.preferences[0], General));
  }
}
