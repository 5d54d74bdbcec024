/** What a compiled communication policy says, in the fields of the profile and the request. */
module CommunicationMeaning {
  import opened Common
  import opened Ordering
  import opened CommunicationPolicy

  // --- Which preferences are applied -----------------------------------------------------

  /** The preference may be used in this context, at this time and for this consequence. */
  predicate Usable(p: Preference, disabledIds: set<string>, q: Request) {
    && p.preferenceId !in disabledIds
    && p.override != ForcedOff
    && q.context in p.applicableContexts
    && (p.expiresAt == None || q.now < p.expiresAt.value)
    && p.contradiction != Open
    && (|| (p.confirmation == UserConfirmed && p.confidence >= 0.50)
        || (p.confirmation == AssessmentSupported && p.confidence >= if q.consequential then 0.80 else 0.70))
    && (p.sensitivity == Restricted ==> q.context == SensitiveStressful)
  }

  /** Adaptation is on and the profile is the selected, current one of this user, workspace and repository. */
  predicate Adapts(f: Feature, p: Profile, q: Request) {
    && f.mode == Adaptation
    && (f.selectedProfileVersion == None || f.selectedProfileVersion == Some("")
        || f.selectedProfileVersion == Some(p.profileVersion))
    && p.repositoryBinding == "Ryan9876/atlas-ros"
    && p.userId == q.userId && p.workspaceId == q.workspaceId
    && q.now < p.reviewDueAt
    && p.globalEnabled
    && q.context !in f.disabledContexts
    && q.instructions == [] && !q.liveAuthority
  }

  lemma {:induction false} AppliesIff(f: Feature, profile: Profile, q: Request, p: Preference)
    ensures Applies(f, Some(profile), q, p) <==> Adapts(f, profile, q) && Usable(p, f.disabledPreferenceIds, q)
  {
  }

  lemma {:induction false} PreferenceOfId(preferences: seq<Preference>)
    ensures forall x :: x in PreferenceIds(preferences) ==> exists p :: p in preferences && p.preferenceId == x
  {
    forall x | x in PreferenceIds(preferences) ensures exists p :: p in preferences && p.preferenceId == x {
      var i :| 0 <= i < |preferences| && PreferenceIds(preferences)[i] == x;
      assert preferences[i] in preferences;
    }
  }

  /** A preference is applied exactly when the profile adapts and it may be used; otherwise it is excluded. */
  lemma {:induction false} AppliedExactly(base: Baseline, f: Feature, profile: Profile, q: Request)
    requires ValidProfile(profile)
    ensures
      var policy := CompiledPolicy(base, f, Some(profile), q);
      && (forall p :: p in profile.preferences ==>
            && (p.preferenceId in policy.appliedIds
                <==> Adapts(f, profile, q) && Usable(p, f.disabledPreferenceIds, q))
            && (p.preferenceId in policy.excludedIds <==> p.preferenceId !in policy.appliedIds))
      && (forall x :: x in policy.appliedIds || x in policy.excludedIds ==>
            exists p :: p in profile.preferences && p.preferenceId == x)
  {
    var policy := CompiledPolicy(base, f, Some(profile), q);
    IdsPartitionProfile(base, f, profile, q);
    forall p | p in profile.preferences
      ensures p.preferenceId in policy.appliedIds <==> Adapts(f, profile, q) && Usable(p, f.disabledPreferenceIds, q)
      ensures p.preferenceId in policy.excludedIds <==> p.preferenceId !in policy.appliedIds
    {
      AppliesIff(f, profile, q, p);
      var i :| 0 <= i < |profile.preferences| && profile.preferences[i] == p;
    }
    PreferenceOfId(profile.preferences);
  }

  // --- What is said ----------------------------------------------------------------------

  lemma {:induction false} ChosenMembers(f: Feature, profile: Profile, q: Request, n: nat)
    requires n <= |profile.preferences|
    ensures forall p :: p in Chosen(f, Some(profile), q, n, true)
                   <==> p in profile.preferences[..n] && Adapts(f, profile, q) && Usable(p, f.disabledPreferenceIds, q)
  {
    if n > 0 {
      ChosenMembers(f, profile, q, n - 1);
      assert profile.preferences[..n] == profile.preferences[..n - 1] + [profile.preferences[n - 1]];
    }
  }

  lemma {:induction false} BehavioursMembers(preferences: seq<Preference>)
    ensures forall x :: x in Preferred(preferences) <==> exists p :: p in preferences && x in p.preferredBehaviors
    ensures forall x :: x in Avoided(preferences) <==> exists p :: p in preferences && x in p.avoidedBehaviors
  {
    if preferences != [] {
      var front, last := preferences[..|preferences| - 1], preferences[|preferences| - 1];
      assert preferences == front + [last];
      BehavioursMembers(front);
    }
  }

  /** The text is one of the values, stripped. */
  ghost predicate StrippedOf(values: seq<string>, x: string) {
    x != "" && exists v :: v in values && Strip(v) == x
  }

  lemma {:induction false} StrippedMembers(values: seq<string>)
    ensures forall x :: x in StrippedDistinct(values) <==> StrippedOf(values, x)
  {
    if values != [] {
      var front, last := values[..|values| - 1], values[|values| - 1];
      assert values == front + [last];
      StrippedMembers(front);
    }
  }

  /** Some applied preference asks for the text. */
  ghost predicate AskedFor(f: Feature, profile: Option<Profile>, q: Request, v: string, avoid: bool) {
    && profile.Some? && Adapts(f, profile.value, q)
    && exists p :: && p in profile.value.preferences && Usable(p, f.disabledPreferenceIds, q)
                   && v in if avoid then p.avoidedBehaviors else p.preferredBehaviors
  }

  lemma {:induction false} AppliedBehaviours(f: Feature, profile: Option<Profile>, q: Request)
    ensures forall v :: v in Preferred(AppliedPreferences(f, profile, q)) <==> AskedFor(f, profile, q, v, false)
    ensures forall v :: v in Avoided(AppliedPreferences(f, profile, q)) <==> AskedFor(f, profile, q, v, true)
  {
    BehavioursMembers(AppliedPreferences(f, profile, q));
    if profile.Some? {
      var preferences := profile.value.preferences;
      ChosenMembers(f, profile.value, q, |preferences|);
      assert preferences[..|preferences|] == preferences;
    }
  }

  /** Where a directive can come from. */
  ghost predicate DirectiveSource(base: Baseline, f: Feature, profile: Option<Profile>, q: Request, x: string) {
    && x != ""
    && exists v :: && Strip(v) == x
                   && (v in base.directives || AskedFor(f, profile, q, v, false) || v in q.instructions)
  }

  ghost predicate AvoidedSource(base: Baseline, f: Feature, profile: Option<Profile>, q: Request, x: string) {
    x != "" && exists v :: Strip(v) == x && (v in base.avoided || AskedFor(f, profile, q, v, true))
  }

  /**
    Directives come only from the base, the applied preferences and the current instructions, and
    all of them are there unless the limit of sixteen is reached; avoided patterns likewise with twelve.
   */
  lemma {:induction false} DirectivesExactly(base: Baseline, f: Feature, profile: Option<Profile>, q: Request)
    ensures
      var policy := CompiledPolicy(base, f, profile, q);
      && (forall x :: x in policy.directives ==> DirectiveSource(base, f, profile, q, x))
      && (|policy.directives| < 16 ==> forall x :: DirectiveSource(base, f, profile, q, x) ==> x in policy.directives)
      && (forall x :: x in policy.avoidedPatterns ==> AvoidedSource(base, f, profile, q, x))
      && (|policy.avoidedPatterns| < 12 ==>
            forall x :: AvoidedSource(base, f, profile, q, x) ==> x in policy.avoidedPatterns)
  {
    AppliedBehaviours(f, profile, q);
    var directives, avoided := AllDirectives(base, f, profile, q), AllAvoided(base, f, profile, q);
    StrippedMembers(directives);
    StrippedMembers(avoided);
    forall x ensures StrippedOf(directives, x) <==> DirectiveSource(base, f, profile, q, x) {
    }
    forall x ensures StrippedOf(avoided, x) <==> AvoidedSource(base, f, profile, q, x) {
    }
  }

  /** A policy never exceeds its limits and never says anything twice. */
  lemma {:induction false} WithinLimits(base: Baseline, f: Feature, profile: Option<Profile>, q: Request)
    requires profile.Some? ==> ValidProfile(profile.value)
    ensures
      var policy := CompiledPolicy(base, f, profile, q);
      && |policy.directives| <= 16 && |policy.avoidedPatterns| <= 12
      && Distinct(policy.directives) && Distinct(policy.avoidedPatterns)
      && Distinct(policy.appliedIds) && Distinct(policy.excludedIds)
  {
    NeverRefused(base, f, profile, q);
    TakeDistinct(AllDirectives(base, f, profile, q), 16);
    TakeDistinct(AllAvoided(base, f, profile, q), 12);
    ReportedIds(base, f, profile, q);
    if profile.Some? {
      ChosenAreSorted(f, profile.value, q, PreferenceCount(profile), true);
      ChosenAreSorted(f, profile.value, q, PreferenceCount(profile), false);
    }
  }

  /** What else the policy records of the request and the profile. */
  lemma {:induction false} PolicyRecords(base: Baseline, f: Feature, profile: Option<Profile>, q: Request)
    requires profile.Some? ==> ValidProfile(profile.value)
    ensures
      var policy := CompiledPolicy(base, f, profile, q);
      && policy.context == q.context && policy.mode == f.mode
      && (policy.adaptationApplied <==> policy.appliedIds != [])
      && (policy.currentInstructionOverride <==> q.instructions != [])
      && (policy.liveAuthorityOverride <==> q.liveAuthority)
      && (profile.None? ==> policy.profileVersion == None && policy.profileDigest == None)
      && (profile.Some? ==> policy.profileVersion == Some(profile.value.profileVersion)
                            && policy.profileDigest == Some(profile.value.digest))
      && Sorted(policy.appliedIds, StrLe) && Sorted(policy.excludedIds, StrLe)
  {
    ReportedIds(base, f, profile, q);
    if profile.Some? {
      ChosenAreSorted(f, profile.value, q, PreferenceCount(profile), true);
      ChosenAreSorted(f, profile.value, q, PreferenceCount(profile), false);
    }
  }

  /** Another user's profile changes nothing but what is reported of it. */
  lemma {:induction false} OtherUserMeansBaseline(base: Baseline, f: Feature, profile: Profile, q: Request)
    requires profile.userId != q.userId || profile.workspaceId != q.workspaceId
    ensures
      var policy, baseline := CompiledPolicy(base, f, Some(profile), q), CompiledPolicy(base, f, None, q);
      && policy.directives == baseline.directives && policy.avoidedPatterns == baseline.avoidedPatterns
      && policy.appliedIds == [] && !policy.adaptationApplied
  {
    ClosedGateMeansBaseline(base, f, Some(profile), q);
  }
}
