/** The snapshot index of active and excluded evidence. */
module IntentIndex {
  import opened Common
  import opened Ordering
  import opened IntentMemory
  import opened IntentControls

  datatype Index = Index(
    active: seq<string>, excluded: seq<string>, digests: seq<(string, string)>, decisions: seq<Decision>)

  function EvidenceKey(e: Evidence): string { e.evidenceId }

  function DecisionKey(d: Decision): string { d.evidenceId }

  predicate DecisionLe(a: Decision, b: Decision) {
    StrLe(a.evidenceId, b.evidenceId)
  }

  // --- Sorted tuples of sets -------------------------------------------------------------

  ghost predicate Least(x: string, s: set<string>) {
    x in s && forall y :: y in s ==> StrLe(x, y)
  }

  lemma {:induction false} LeastExists(s: set<string>)
    requires s != {}
    ensures exists x :: Least(x, s)
  {
    var x :| x in s;
    StrLeIsPreorder();
    if s == {x} {
      assert Least(x, s);
    } else {
      LeastExists(s - {x});
      var y :| Least(y, s - {x});
      assert Least(x, s) || Least(y, s);
    }
  }

  /** `tuple(sorted(s))`. */
  ghost function SortedSet(s: set<string>): seq<string> {
    if s == {} then []
    else
      LeastExists(s);
      var x :| Least(x, s);
      [x] + SortedSet(s - {x})
  }

  lemma {:induction false} SortedSetSorts(s: set<string>)
    ensures Sorted(SortedSet(s), StrLe) && Distinct(SortedSet(s))
    ensures forall x :: x in SortedSet(s) <==> x in s
  {
    if s != {} {
      LeastExists(s);
      var x := SortedSet(s)[0];
      assert Least(x, s);
      var rest := SortedSet(s - {x});
      SortedSetSorts(s - {x});
      forall i | 0 <= i < |rest| ensures rest[i] in s && rest[i] != x {
        assert rest[i] in rest;
      }
    }
  }

  // --- Building --------------------------------------------------------------------------

  ghost function EligibleIds(decided: map<string, Decision>): set<string> {
    set k | k in decided && decided[k].status.Eligible?
  }

  function DigestPairs(ids: seq<string>, known: map<string, Evidence>, digestOf: DigestOf): (r: seq<(string, string)>)
    requires forall i :: 0 <= i < |ids| ==> ids[i] in known
    ensures |r| == |ids| && forall i :: 0 <= i < |r| ==> r[i] == (ids[i], digestOf(known[ids[i]]))
  {
    seq(|ids|, i requires 0 <= i < |ids| => (ids[i], digestOf(known[ids[i]])))
  }

  ghost function BuildIndex(items: seq<Evidence>, decisions: seq<Decision>, digestOf: DigestOf): Option<Index> {
    var byId, decisionById := ById(items, EvidenceKey), ById(decisions, DecisionKey);
    if byId.Keys != decisionById.Keys then None
    else
      var active := EligibleIds(decisionById);
      SortedSetSorts(byId.Keys);
      Some(Index(SortedSet(active), SortedSet(byId.Keys - active),
                 DigestPairs(SortedSet(byId.Keys), byId, digestOf), SortBy(decisions, DecisionLe)))
  }

  /** The index contract: the id lists and the digests are sorted. */
  ghost predicate ValidIndex(x: Index) {
    Sorted(x.active, StrLe) && Sorted(x.excluded, StrLe) && Sorted(x.digests, PairLe)
  }

  // --- Guarantees ------------------------------------------------------------------------

  lemma {:induction false} ByIdMeaning<T>(xs: seq<T>, key: T -> string)
    ensures forall k :: k in ById(xs, key) ==> ById(xs, key)[k] in xs && key(ById(xs, key)[k]) == k
    ensures forall x :: x in xs ==> key(x) in ById(xs, key)
    ensures Distinct(Mapped(xs, key)) ==> forall x :: x in xs ==> ById(xs, key)[key(x)] == x
  {
    if xs != [] {
      var n := |xs| - 1;
      ByIdMeaning(xs[..n], key);
      assert xs == xs[..n] + [xs[n]];
      if Distinct(Mapped(xs, key)) {
        var keys := Mapped(xs, key);
        assert keys[..n] == Mapped(xs[..n], key);
        forall x | x in xs[..n] ensures key(x) != key(xs[n]) {
          var i :| 0 <= i < n && xs[..n][i] == x;
          assert keys[i] != keys[n];
        }
      }
    }
  }

  /** An index always meets its contract and splits the known ids, whatever the inputs. */
  lemma {:induction false} IndexIsValid(items: seq<Evidence>, decisions: seq<Decision>, digestOf: DigestOf)
    requires BuildIndex(items, decisions, digestOf).Some?
    ensures
      var x := BuildIndex(items, decisions, digestOf).value;
      && ValidIndex(x)
      && DisjointSeqs(x.active, x.excluded) && Distinct(x.active) && Distinct(x.excluded)
      && forall k :: k in x.active || k in x.excluded <==> k in Mapped(items, EvidenceKey)
  {
    var byId, decisionById := ById(items, EvidenceKey), ById(decisions, DecisionKey);
    var active := EligibleIds(decisionById);
    SortedSetSorts(active);
    SortedSetSorts(byId.Keys - active);
    SortedSetSorts(byId.Keys);
    var ids := SortedSet(byId.Keys);
    var digests := DigestPairs(ids, byId, digestOf);
    forall i, j | 0 <= i < j < |digests| ensures PairLe(digests[i], digests[j]) {
      assert StrLe(ids[i], ids[j]) && ids[i] != ids[j];
    }
    ByIdMeaning(items, EvidenceKey);
    forall k ensures k in byId <==> k in Mapped(items, EvidenceKey) {
      if k in byId {
        var i :| 0 <= i < |items| && items[i] == byId[k];
        assert Mapped(items, EvidenceKey)[i] == k;
      }
    }
  }

  /** One decision per record, made by the eligibility rules at one request. */
  ghost predicate Decided(items: seq<Evidence>, decisions: seq<Decision>, q: Request) {
    |decisions| == |items| && forall i :: 0 <= i < |items| ==> Decides(items[i], q, decisions[i])
  }

  /** For every id the decision that stays is the one made for the record that stays. */
  lemma {:induction false} DecidedById(items: seq<Evidence>, decisions: seq<Decision>, q: Request)
    requires Decided(items, decisions, q)
    ensures ById(items, EvidenceKey).Keys == ById(decisions, DecisionKey).Keys
    ensures forall k :: k in ById(items, EvidenceKey) ==>
      Decides(ById(items, EvidenceKey)[k], q, ById(decisions, DecisionKey)[k])
  {
    if items != [] {
      DecidedById(items[..|items| - 1], decisions[..|items| - 1], q);
      assert Decides(items[|items| - 1], q, decisions[|items| - 1]);
    }
  }

  /** Whatever ids repeat, an id is active exactly when the last record of that id may be inferred from. */
  lemma {:induction false} LastRecordDecides(
      items: seq<Evidence>, decisions: seq<Decision>, q: Request, digestOf: DigestOf)
    requires Decided(items, decisions, q)
    ensures BuildIndex(items, decisions, digestOf).Some?
    ensures
      var x, last := BuildIndex(items, decisions, digestOf).value, ById(items, EvidenceKey);
      && (forall k :: k in x.active <==> k in last && MayInfer(last[k], q))
      && (forall k :: k in x.excluded <==> k in last && !MayInfer(last[k], q))
  {
    var last, decided := ById(items, EvidenceKey), ById(decisions, DecisionKey);
    DecidedById(items, decisions, q);
    forall k | k in last ensures k in EligibleIds(decided) <==> MayInfer(last[k], q) {
      EligibleMeaning(last[k], q, decided[k]);
    }
    SortedSetSorts(EligibleIds(decided));
    SortedSetSorts(last.Keys - EligibleIds(decided));
  }

  /** Records of one id are judged alike. */
  ghost predicate SameIdSameVerdict(items: seq<Evidence>, q: Request) {
    forall x, y :: x in items && y in items && x.evidenceId == y.evidenceId ==> (MayInfer(x, q) <==> MayInfer(y, q))
  }

  lemma {:induction false} LastVerdictIff(items: seq<Evidence>, q: Request)
    ensures forall e :: e in items ==> e.evidenceId in ById(items, EvidenceKey)
    ensures SameIdSameVerdict(items, q)
       <==> forall e :: e in items ==> (MayInfer(ById(items, EvidenceKey)[e.evidenceId], q) <==> MayInfer(e, q))
  {
    ByIdMeaning(items, EvidenceKey);
  }

  /** Active is exactly the evidence that may be inferred from if and only if records of one id are judged alike. */
  lemma {:induction false} ActiveIffMayInfer(
      items: seq<Evidence>, decisions: seq<Decision>, q: Request, digestOf: DigestOf)
    requires Decided(items, decisions, q)
    ensures BuildIndex(items, decisions, digestOf).Some?
    ensures
      var x := BuildIndex(items, decisions, digestOf).value;
      (forall e :: e in items ==> (e.evidenceId in x.active <==> MayInfer(e, q))) <==> SameIdSameVerdict(items, q)
  {
    LastRecordDecides(items, decisions, q, digestOf);
    LastVerdictIff(items, q);
  }

  // --- Withdrawn records in later indexes ------------------------------------------------

  /**
    After any run of controls a withdrawn record is excluded exactly when the last record of its id
    may not be inferred from; in particular when it is itself the last one.
   */
  lemma {:induction false} WithdrawnStayExcluded(
      memory: seq<Evidence>, actions: seq<Action>, decisions: seq<Decision>, q: Request, digestOf: DigestOf, i: nat)
    requires i < |memory| && !memory[i].control.Active?
    requires Decided(Run(memory, actions, digestOf), decisions, q)
    ensures
      var after, id := Run(memory, actions, digestOf), memory[i].evidenceId;
      var x, last := BuildIndex(after, decisions, digestOf), ById(after, EvidenceKey);
      && x.Some? && id in last
      && (id in x.value.excluded <==> !MayInfer(last[id], q))
      && (LastIs(after, id, i) ==> id in x.value.excluded)
  {
    var after := Run(memory, actions, digestOf);
    ControlsKeepGovernance(memory, actions, digestOf);
    LastRecordDecides(after, decisions, q, digestOf);
    assert Preserved(memory[i], after[i]);
    ByIdMeaning(after, EvidenceKey);
    assert after[i] in after;
    if LastIs(after, memory[i].evidenceId, i) {
      LastIsById(after, memory[i].evidenceId, i);
    }
  }

  /** Position `p` holds the last record of the id. */
  ghost predicate LastIs(memory: seq<Evidence>, id: string, p: nat) {
    p < |memory| && memory[p].evidenceId == id && forall j :: p < j < |memory| ==> memory[j].evidenceId != id
  }

  lemma {:induction false} LastIsById(memory: seq<Evidence>, id: string, p: nat)
    requires LastIs(memory, id, p)
    ensures id in ById(memory, EvidenceKey) && ById(memory, EvidenceKey)[id] == memory[p]
  {
    if p < |memory| - 1 {
      var front := memory[..|memory| - 1];
      assert forall j :: p < j < |front| ==> front[j] == memory[j];
      LastIsById(front, id, p);
    }
  }

  lemma {:induction false} LastExists(memory: seq<Evidence>, id: string) returns (p: nat)
    requires id in ById(memory, EvidenceKey)
    ensures LastIs(memory, id, p)
  {
    var n := |memory| - 1;
    if memory[n].evidenceId == id {
      p := n;
    } else {
      p := LastExists(memory[..n], id);
      assert forall j :: p < j < n ==> memory[..n][j] == memory[j];
    }
  }

  /** The reasons there can be for one record at one request. */
  ghost function PossibleReasons(e: Evidence, q: Request): set<Reason> {
    {InferenceDisabled, ScopeDisabled, EvidenceDisabled, ContextScopeMismatch, UserControl(e.control), FreshnessUnknown,
     EvidenceOutdated(FreshnessAt(e.lastConfirmedAt, q.now, q.policy)), UnresolvedContradiction, MarkedIneligible,
     LowConfidence, HistoryCannotControl}
  }

  lemma {:induction false} RaisedIsPossible(e: Evidence, q: Request)
    ensures forall r :: Raised(r, e, q) ==> r in PossibleReasons(e, q)
  {
  }

  lemma {:induction false} DecisionExists(e: Evidence, q: Request) returns (d: Decision)
    ensures Decides(e, q, d)
  {
    RaisedIsPossible(e, q);
    var raised := set r | r in PossibleReasons(e, q) && Raised(r, e, q);
    var asks := AsksUser(e, q);
    var precedence := Precedence(e.sourceKind);
    if q.currentInstruction {
      d := Decision(e.evidenceId, Overridden, {CurrentInstructionOverrides}, precedence, false, q.consequential,
                    false, true, false);
    } else if q.liveAuthority {
      d := Decision(e.evidenceId, Overridden, {LiveAuthorityOverrides}, precedence, false, q.consequential,
                    false, false, true);
    } else if Unopposed(e, q) {
      d := Decision(e.evidenceId, Eligible, {ConfirmedCurrentScoped}, precedence, true, q.consequential,
                    false, false, false);
    } else {
      d := Decision(e.evidenceId, if asks then ClarificationRequired else Ineligible, raised, precedence,
                    Applies(e.scope, q.scope), q.consequential, asks, false, false);
    }
  }

  lemma {:induction false} DecisionsExist(items: seq<Evidence>, q: Request) returns (decisions: seq<Decision>)
    ensures Decided(items, decisions, q)
  {
    decisions := [];
    for i := 0 to |items|
      invariant Decided(items[..i], decisions, q)
    {
      var d := DecisionExists(items[i], q);
      assert items[..i + 1] == items[..i] + [items[i]];
      decisions := decisions + [d];
    }
    assert items[..|items|] == items;
  }

  /** Every index over the records excludes the id, whatever the request. */
  ghost predicate AlwaysExcluded(memory: seq<Evidence>, id: string, digestOf: DigestOf) {
    forall q, decisions | Decided(memory, decisions, q) ::
      var x := BuildIndex(memory, decisions, digestOf);
      x.Some? && id in x.value.excluded
  }

  /** Turn `k` is an accepted correction under the id. */
  predicate Reuses(memory: seq<Evidence>, actions: seq<Action>, digestOf: DigestOf, id: string, k: nat)
    requires k < |actions|
  {
    var a := actions[k];
    Accepted(Run(memory, actions[..k], digestOf), a) && a.CorrectAt? && a.correction.evidenceId == id
  }

  ghost predicate LastWithdrawn(memory: seq<Evidence>, id: string, p: nat) {
    LastIs(memory, id, p) && !memory[p].control.Active?
  }

  lemma {:induction false} WithdrawnIsExcluded(memory: seq<Evidence>, id: string, p: nat, digestOf: DigestOf)
    requires LastWithdrawn(memory, id, p)
    ensures AlwaysExcluded(memory, id, digestOf)
  {
    LastIsById(memory, id, p);
    forall q, decisions | Decided(memory, decisions, q)
      ensures
        var x := BuildIndex(memory, decisions, digestOf);
        x.Some? && id in x.value.excluded
    {
      LastRecordDecides(memory, decisions, q, digestOf);
      assert Raised(UserControl(memory[p].control), memory[p], q);
    }
  }

  lemma {:induction false} OtherIdKeepsLast(memory: seq<Evidence>, a: Action, digestOf: DigestOf, id: string, p: nat)
    requires LastWithdrawn(memory, id, p)
    requires Accepted(memory, a) && a.CorrectAt? ==> a.correction.evidenceId != id
    ensures LastWithdrawn(Step(memory, a, digestOf), id, p)
  {
    var after := Step(memory, a, digestOf);
    StepKeeps(memory, a, digestOf);
    forall j | p < j < |after| ensures after[j].evidenceId != id {
      assert j < |memory| ==> Preserved(memory[j], after[j]);
    }
    assert Preserved(memory[p], after[p]);
  }

  lemma {:induction false} NoReuseKeepsLast(
      memory: seq<Evidence>, actions: seq<Action>, digestOf: DigestOf, id: string, p: nat, n: nat)
    requires n <= |actions| && LastWithdrawn(memory, id, p)
    requires forall k: nat :: k < n ==> !Reuses(memory, actions, digestOf, id, k)
    ensures LastWithdrawn(Run(memory, actions[..n], digestOf), id, p)
  {
    if n > 0 {
      NoReuseKeepsLast(memory, actions, digestOf, id, p, n - 1);
      assert actions[..n][..n - 1] == actions[..n - 1];
      assert !Reuses(memory, actions, digestOf, id, n - 1);
      OtherIdKeepsLast(Run(memory, actions[..n - 1], digestOf), actions[n - 1], digestOf, id, p);
    }
  }

  /** Any record, corrected under an id, makes the id active again for some request. */
  lemma {:induction false} ReuseActivates(memory: seq<Evidence>, a: Action, digestOf: DigestOf)
    requires Accepted(memory, a) && a.CorrectAt?
    ensures !AlwaysExcluded(Step(memory, a, digestOf), a.correction.evidenceId, digestOf)
  {
    var e, c, after := memory[a.i], a.correction, Step(memory, a, digestOf);
    var q := Request(e.scope, Policy(1, 1, 1, true, true, true), Inference, c.at, false, false, false, false, {});
    var decisions := DecisionsExist(after, q);
    SuccessorInferredIff(e, c, q, digestOf);
    LastIsById(after, c.evidenceId, |memory|);
    LastRecordDecides(after, decisions, q, digestOf);
    assert c.evidenceId !in BuildIndex(after, decisions, digestOf).value.excluded;
  }

  /**
    An id whose last record is withdrawn stays excluded from every index of a run exactly when no
    accepted correction in the run takes the id.
   */
  lemma {:induction false} ExcludedThroughoutIff(
      memory: seq<Evidence>, actions: seq<Action>, digestOf: DigestOf, id: string)
    requires id in ById(memory, EvidenceKey) && !ById(memory, EvidenceKey)[id].control.Active?
    ensures (forall n: nat :: n <= |actions| ==> AlwaysExcluded(Run(memory, actions[..n], digestOf), id, digestOf))
       <==> forall k: nat :: k < |actions| ==> !Reuses(memory, actions, digestOf, id, k)
  {
    var p := LastExists(memory, id);
    LastIsById(memory, id, p);
    if forall k: nat :: k < |actions| ==> !Reuses(memory, actions, digestOf, id, k) {
      forall n: nat | n <= |actions| ensures AlwaysExcluded(Run(memory, actions[..n], digestOf), id, digestOf) {
        NoReuseKeepsLast(memory, actions, digestOf, id, p, n);
        WithdrawnIsExcluded(Run(memory, actions[..n], digestOf), id, p, digestOf);
      }
    } else {
      var k: nat :| k < |actions| && Reuses(memory, actions, digestOf, id, k);
      assert actions[..k + 1][..k] == actions[..k];
      ReuseActivates(Run(memory, actions[..k], digestOf), actions[k], digestOf);
      assert !AlwaysExcluded(Run(memory, actions[..k + 1], digestOf), id, digestOf);
    }
  }

  /** A withdrawn record corrected under its own id is back in the index wherever the correction is usable. */
  lemma {:induction false} ReusedIdComesBack(
      e: Evidence, c: Correction, decisions: seq<Decision>, q: Request, digestOf: DigestOf)
    requires !e.control.Active? && WellFormed(c) && c.evidenceId == e.evidenceId
    requires Decided(Run([e], [CorrectAt(0, c)], digestOf), decisions, q)
    ensures
      var x := BuildIndex(Run([e], [CorrectAt(0, c)], digestOf), decisions, digestOf);
      && x.Some?
      && (e.evidenceId in x.value.active <==> CorrectionUsable(c, q, e.scope))
      && (e.evidenceId in x.value.excluded <==> !CorrectionUsable(c, q, e.scope))
  {
    var after := Run([e], [CorrectAt(0, c)], digestOf);
    assert [CorrectAt(0, c)][..0] == [];
    assert Run([e], [], digestOf) == [e];
    assert |after| == 2 && after[1] == Successor(e, c, digestOf);
    LastIsById(after, e.evidenceId, 1);
    LastRecordDecides(after, decisions, q, digestOf);
    SuccessorInferredIff(e, c, q, digestOf);
  }

  lemma {:induction false} ByIdPermuted<T>(a: seq<T>, b: seq<T>, key: T -> string)
    requires multiset(a) == multiset(b) && Distinct(Mapped(a, key)) && Distinct(Mapped(b, key))
    ensures ById(a, key) == ById(b, key)
  {
    ByIdMeaning(a, key);
    ByIdMeaning(b, key);
    forall x ensures x in a <==> x in b {
      assert x in multiset(a) <==> x in multiset(b);
    }
  }

  lemma {:induction false} DecisionLeIsPreorder()
    ensures Preorder(DecisionLe)
  {
    StrLeIsPreorder();
    forall x: Decision, y: Decision ensures DecisionLe(x, y) || DecisionLe(y, x) {
      assert StrLe(x.evidenceId, y.evidenceId) || StrLe(y.evidenceId, x.evidenceId);
    }
    forall x: Decision, y: Decision, z: Decision | DecisionLe(x, y) && DecisionLe(y, z) ensures DecisionLe(x, z) {
      assert StrLe(x.evidenceId, y.evidenceId) && StrLe(y.evidenceId, z.evidenceId);
    }
  }

  lemma {:induction false} DistinctIdsOrder(s: seq<Decision>)
    requires Distinct(Mapped(s, DecisionKey))
    ensures Antisymmetric(s, DecisionLe)
  {
    forall i, j | 0 <= i < |s| && 0 <= j < |s| && DecisionLe(s[i], s[j]) && DecisionLe(s[j], s[i])
      ensures s[i] == s[j]
    {
      StrLeTotal(s[i].evidenceId, s[j].evidenceId);
      assert Mapped(s, DecisionKey)[i] == Mapped(s, DecisionKey)[j];
    }
  }

  lemma {:induction false} DecisionsSortAlike(a: seq<Decision>, b: seq<Decision>)
    requires multiset(a) == multiset(b) && Distinct(Mapped(a, DecisionKey))
    ensures SortBy(a, DecisionLe) == SortBy(b, DecisionLe)
  {
    DecisionLeIsPreorder();
    SortBySorts(a, DecisionLe);
    var sorted := SortBy(a, DecisionLe);
    MappedPermuted(a, sorted, DecisionKey);
    DistinctPermuted(Mapped(a, DecisionKey), Mapped(sorted, DecisionKey));
    DistinctIdsOrder(sorted);
    SortedAlike(a, b, DecisionLe);
  }

  /** With distinct ids the index does not depend on the order of its inputs. */
  lemma {:induction false} IndexIgnoresOrder(
      items: seq<Evidence>, items': seq<Evidence>, decisions: seq<Decision>, decisions': seq<Decision>,
      digestOf: DigestOf)
    requires multiset(items) == multiset(items') && multiset(decisions) == multiset(decisions')
    requires Distinct(Mapped(items, EvidenceKey)) && Distinct(Mapped(decisions, DecisionKey))
    ensures BuildIndex(items, decisions, digestOf) == BuildIndex(items', decisions', digestOf)
  {
    MappedPermuted(items, items', EvidenceKey);
    MappedPermuted(decisions, decisions', DecisionKey);
    DistinctPermuted(Mapped(items, EvidenceKey), Mapped(items', EvidenceKey));
    DistinctPermuted(Mapped(decisions, DecisionKey), Mapped(decisions', DecisionKey));
    ByIdPermuted(items, items', EvidenceKey);
    ByIdPermuted(decisions, decisions', DecisionKey);
    DecisionsSortAlike(decisions, decisions');
  }

  // --- When the index depends on the order of its inputs ---------------------------------

  /** An index exists exactly when the two id sets are equal, however often an id is listed. */
  lemma {:induction false} IndexExistsIff(items: seq<Evidence>, decisions: seq<Decision>, digestOf: DigestOf)
    ensures BuildIndex(items, decisions, digestOf).Some?
       <==> ToSet(Mapped(items, EvidenceKey)) == ToSet(Mapped(decisions, DecisionKey))
  {
    ByIdKeys(items, EvidenceKey);
    ByIdKeys(decisions, DecisionKey);
  }

  lemma {:induction false} ByIdKeys<T>(xs: seq<T>, key: T -> string)
    ensures ById(xs, key).Keys == ToSet(Mapped(xs, key))
  {
    ByIdMeaning(xs, key);
    forall k ensures k in ById(xs, key) <==> k in Mapped(xs, key) {
      if k in ById(xs, key) {
        var i :| 0 <= i < |xs| && xs[i] == ById(xs, key)[k];
        assert Mapped(xs, key)[i] == k;
      }
    }
  }

  /** Records of one id have one digest. */
  ghost predicate SameIdSameDigest(items: seq<Evidence>, digestOf: DigestOf) {
    forall x, y :: x in items && y in items && x.evidenceId == y.evidenceId ==> digestOf(x) == digestOf(y)
  }

  /** Decisions of one id are one decision. */
  ghost predicate SameIdSameDecision(decisions: seq<Decision>) {
    forall x, y :: x in decisions && y in decisions && x.evidenceId == y.evidenceId ==> x == y
  }

  lemma {:induction false} DigestsAgree(a: seq<Evidence>, b: seq<Evidence>, digestOf: DigestOf)
    requires multiset(a) == multiset(b) && SameIdSameDigest(a, digestOf)
    ensures ById(a, EvidenceKey).Keys == ById(b, EvidenceKey).Keys
    ensures forall k :: k in ById(a, EvidenceKey) ==>
      digestOf(ById(a, EvidenceKey)[k]) == digestOf(ById(b, EvidenceKey)[k])
  {
    SameMembers(a, b);
    ByIdMeaning(a, EvidenceKey);
    ByIdMeaning(b, EvidenceKey);
    forall k ensures k in ById(a, EvidenceKey) <==> k in ById(b, EvidenceKey) {
    }
  }

  lemma {:induction false} AgreeingDecisionsOrder(s: seq<Decision>)
    requires SameIdSameDecision(s)
    ensures Antisymmetric(s, DecisionLe)
  {
    forall i, j | 0 <= i < |s| && 0 <= j < |s| && DecisionLe(s[i], s[j]) && DecisionLe(s[j], s[i])
      ensures s[i] == s[j]
    {
      StrLeTotal(s[i].evidenceId, s[j].evidenceId);
      assert s[i] in s && s[j] in s;
    }
  }

  lemma {:induction false} AgreeingDecisionsSortAlike(a: seq<Decision>, b: seq<Decision>)
    requires multiset(a) == multiset(b) && SameIdSameDecision(a)
    ensures SortBy(a, DecisionLe) == SortBy(b, DecisionLe)
  {
    DecisionLeIsPreorder();
    SortBySorts(a, DecisionLe);
    SameMembers(a, SortBy(a, DecisionLe));
    AgreeingDecisionsOrder(SortBy(a, DecisionLe));
    SortedAlike(a, b, DecisionLe);
  }

  lemma {:induction false} DecisionsAgree(a: seq<Decision>, b: seq<Decision>)
    requires multiset(a) == multiset(b) && SameIdSameDecision(a)
    ensures ById(a, DecisionKey) == ById(b, DecisionKey)
    ensures SortBy(a, DecisionLe) == SortBy(b, DecisionLe)
  {
    SameMembers(a, b);
    ByIdMeaning(a, DecisionKey);
    ByIdMeaning(b, DecisionKey);
    AgreeingDecisionsSortAlike(a, b);
  }

  /** Every way of ordering the inputs gives one index. */
  ghost predicate OrderFree(items: seq<Evidence>, decisions: seq<Decision>, digestOf: DigestOf) {
    forall items', decisions' | multiset(items') == multiset(items) && multiset(decisions') == multiset(decisions) ::
      BuildIndex(items', decisions', digestOf) == BuildIndex(items, decisions, digestOf)
  }

  lemma {:induction false} AgreeingInputsAreOrderFree(
      items: seq<Evidence>, decisions: seq<Decision>, digestOf: DigestOf)
    requires SameIdSameDigest(items, digestOf) && SameIdSameDecision(decisions)
    ensures OrderFree(items, decisions, digestOf)
  {
    forall items', decisions' | multiset(items') == multiset(items) && multiset(decisions') == multiset(decisions)
      ensures BuildIndex(items', decisions', digestOf) == BuildIndex(items, decisions, digestOf)
    {
      DigestsAgree(items, items', digestOf);
      DecisionsAgree(decisions, decisions');
      var ids := SortedSet(ById(items, EvidenceKey).Keys);
      SortedSetSorts(ById(items, EvidenceKey).Keys);
      assert forall i :: 0 <= i < |ids| ==> ids[i] in ids;
      assert DigestPairs(ids, ById(items, EvidenceKey), digestOf)
        == DigestPairs(ids, ById(items', EvidenceKey), digestOf);
    }
  }

  lemma {:induction false} DecisionKeyOrders()
    ensures forall a: Decision, b: Decision :: DecisionKey(a) == DecisionKey(b) ==> DecisionLe(a, b)
  {
    forall a: Decision, b: Decision | DecisionKey(a) == DecisionKey(b) ensures DecisionLe(a, b) {
      StrLeTotal(a.evidenceId, b.evidenceId);
    }
  }

  /** An index shows which digest and which decision it took for an id. */
  lemma {:induction false} IndexShows(
      items: seq<Evidence>, items': seq<Evidence>, decisions: seq<Decision>, decisions': seq<Decision>,
      digestOf: DigestOf)
    requires BuildIndex(items, decisions, digestOf).Some?
    requires BuildIndex(items', decisions', digestOf) == BuildIndex(items, decisions, digestOf)
    ensures ById(decisions, DecisionKey) == ById(decisions', DecisionKey)
    ensures forall k :: k in ById(items, EvidenceKey) && k in ById(items', EvidenceKey) ==>
      digestOf(ById(items, EvidenceKey)[k]) == digestOf(ById(items', EvidenceKey)[k])
  {
    DecisionKeyOrders();
    SortKeepsLast(decisions, DecisionKey, DecisionLe);
    SortKeepsLast(decisions', DecisionKey, DecisionLe);
    var known, known' := ById(items, EvidenceKey), ById(items', EvidenceKey);
    SortedSetSorts(known.Keys);
    SortedSetSorts(known'.Keys);
    DigestPairsShow(SortedSet(known.Keys), SortedSet(known'.Keys), known, known', digestOf);
  }

  lemma {:induction false} DigestPairsShow(
      ids: seq<string>, ids': seq<string>, known: map<string, Evidence>, known': map<string, Evidence>,
      digestOf: DigestOf)
    requires forall i :: 0 <= i < |ids| ==> ids[i] in known
    requires forall i :: 0 <= i < |ids'| ==> ids'[i] in known'
    requires DigestPairs(ids, known, digestOf) == DigestPairs(ids', known', digestOf)
    ensures forall k :: k in ids && k in known && k in known' ==> digestOf(known[k]) == digestOf(known'[k])
  {
    forall k | k in ids && k in known && k in known' ensures digestOf(known[k]) == digestOf(known'[k]) {
      var i :| 0 <= i < |ids| && ids[i] == k;
      assert DigestPairs(ids, known, digestOf)[i] == (k, digestOf(known[k]));
      assert DigestPairs(ids', known', digestOf)[i] == (ids'[i], digestOf(known'[ids'[i]]));
    }
  }

  lemma {:induction false} OrderFreeAgrees(items: seq<Evidence>, decisions: seq<Decision>, digestOf: DigestOf)
    requires BuildIndex(items, decisions, digestOf).Some? && OrderFree(items, decisions, digestOf)
    ensures SameIdSameDigest(items, digestOf) && SameIdSameDecision(decisions)
  {
    forall x, y | x in items && y in items && x.evidenceId == y.evidenceId ensures digestOf(x) == digestOf(y) {
      var i :| 0 <= i < |items| && items[i] == x;
      var k :| 0 <= k < |items| && items[k] == y;
      MovedLastKept(items, i, EvidenceKey);
      MovedLastKept(items, k, EvidenceKey);
      IndexShows(items, MovedLast(items, i), decisions, decisions, digestOf);
      IndexShows(items, MovedLast(items, k), decisions, decisions, digestOf);
      ByIdMeaning(items, EvidenceKey);
    }
    forall x, y | x in decisions && y in decisions && x.evidenceId == y.evidenceId ensures x == y {
      var i :| 0 <= i < |decisions| && decisions[i] == x;
      var k :| 0 <= k < |decisions| && decisions[k] == y;
      MovedLastKept(decisions, i, DecisionKey);
      MovedLastKept(decisions, k, DecisionKey);
      IndexShows(items, items, decisions, MovedLast(decisions, i), digestOf);
      IndexShows(items, items, decisions, MovedLast(decisions, k), digestOf);
    }
  }

  /**
    Where an index exists, it is the same for every order of the inputs exactly when records of one
    id have one digest and decisions of one id are equal.
   */
  lemma {:induction false} OrderFreeIff(items: seq<Evidence>, decisions: seq<Decision>, digestOf: DigestOf)
    requires BuildIndex(items, decisions, digestOf).Some?
    ensures OrderFree(items, decisions, digestOf)
       <==> SameIdSameDigest(items, digestOf) && SameIdSameDecision(decisions)
  {
    if SameIdSameDigest(items, digestOf) && SameIdSameDecision(decisions) {
      AgreeingInputsAreOrderFree(items, decisions, digestOf);
    } else if OrderFree(items, decisions, digestOf) {
      OrderFreeAgrees(items, decisions, digestOf);
    }
  }

  lemma {:induction false} ByIdOfOne<T>(x: T, key: T -> string)
    ensures ById([x], key) == map[key(x) := x]
  {
    assert [x][..0] == [];
  }

  lemma {:induction false} ByIdOfTwo<T>(x: T, y: T, key: T -> string)
    requires key(x) == key(y)
    ensures ById([x, y], key) == map[key(y) := y]
  {
    ByIdOfOne(x, key);
    assert [x, y][..1] == [x];
  }

  /** Two decisions for one id: the last one counts, so the order of the inputs shows in the index. */
  lemma {:induction false} RepeatedIdDependsOnOrder(e: Evidence, good: Decision, bad: Decision, digestOf: DigestOf)
    requires good.evidenceId == bad.evidenceId == e.evidenceId
    requires good.status.Eligible? && !bad.status.Eligible?
    ensures BuildIndex([e], [bad, good], digestOf).Some? && BuildIndex([e], [good, bad], digestOf).Some?
    ensures e.evidenceId in BuildIndex([e], [bad, good], digestOf).value.active
    ensures e.evidenceId in BuildIndex([e], [good, bad], digestOf).value.excluded
  {
    var k := e.evidenceId;
    ByIdOfOne(e, EvidenceKey);
    ByIdOfTwo(bad, good, DecisionKey);
    ByIdOfTwo(good, bad, DecisionKey);
    SortedSetSorts(EligibleIds(map[k := good]));
    assert EligibleIds(map[k := bad]) == {};
    SortedSetSorts({k} - {});
  }
}
