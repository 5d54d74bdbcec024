/** Replaying migration proposals: duplicates within a batch, and batches that feed their ids forward. */
module IntentBatches {
  import opened Common
  import opened Ordering
  import opened IntentMigration

  // --- Duplicates within one proposal ----------------------------------------------------

  /** No two records that create evidence create it under one id. */
  ghost predicate NoSharedIds(records: seq<SourceRecord>, existing: set<string>, idOf: EvidenceIdOf) {
    forall i, k :: 0 <= i < k < |records| && Creates(records[i], existing, idOf) && Creates(records[k], existing, idOf)
      ==> idOf(IdentityOf(records[i])) != idOf(IdentityOf(records[k]))
  }

  function ContributedIdList(records: seq<SourceRecord>, existing: set<string>, idOf: EvidenceIdOf): seq<string> {
    Mapped(Contribution(records, existing, idOf), IdOfEvidence)
  }

  lemma {:induction false} ContributedIdListStep(records: seq<SourceRecord>, existing: set<string>, idOf: EvidenceIdOf)
    requires records != []
    ensures
      var n := |records| - 1;
      ContributedIdList(records, existing, idOf)
        == ContributedIdList(records[..n], existing, idOf)
           + if Creates(records[n], existing, idOf) then [idOf(IdentityOf(records[n]))] else []
  {
  }

  lemma {:induction false} IdListed(records: seq<SourceRecord>, existing: set<string>, idOf: EvidenceIdOf, x: string)
    ensures x in ContributedIdList(records, existing, idOf)
       <==> exists i :: 0 <= i < |records| && Creates(records[i], existing, idOf) && idOf(IdentityOf(records[i])) == x
  {
    var evidence := Contribution(records, existing, idOf);
    ContributedIds(records, existing, idOf);
    assert x in EvidenceIds(evidence) <==> x in ContributedIdList(records, existing, idOf) by {
      if x in EvidenceIds(evidence) {
        var i :| 0 <= i < |evidence| && evidence[i].evidenceId == x;
        assert ContributedIdList(records, existing, idOf)[i] == x;
      }
    }
  }

  lemma {:induction false} NoSharedIdsStep(records: seq<SourceRecord>, existing: set<string>, idOf: EvidenceIdOf)
    requires records != []
    ensures
      var n := |records| - 1;
      NoSharedIds(records, existing, idOf) <==>
        && NoSharedIds(records[..n], existing, idOf)
        && (Creates(records[n], existing, idOf) ==>
              idOf(IdentityOf(records[n])) !in ContributedIdList(records[..n], existing, idOf))
  {
    var n := |records| - 1;
    var front := records[..n];
    assert forall i :: 0 <= i < n ==> front[i] == records[i];
    IdListed(front, existing, idOf, idOf(IdentityOf(records[n])));
  }

  lemma {:induction false} ContributedDistinctStep(
      records: seq<SourceRecord>, existing: set<string>, idOf: EvidenceIdOf)
    requires records != []
    ensures
      var n := |records| - 1;
      Distinct(ContributedIdList(records, existing, idOf)) <==>
        && Distinct(ContributedIdList(records[..n], existing, idOf))
        && (Creates(records[n], existing, idOf) ==>
              idOf(IdentityOf(records[n])) !in ContributedIdList(records[..n], existing, idOf))
  {
    var n := |records| - 1;
    ContributedIdListStep(records, existing, idOf);
    DistinctConcat(ContributedIdList(records[..n], existing, idOf), [idOf(IdentityOf(records[n]))]);
  }

  lemma {:induction false} ContributedDistinctIff(records: seq<SourceRecord>, existing: set<string>, idOf: EvidenceIdOf)
    ensures Distinct(ContributedIdList(records, existing, idOf)) <==> NoSharedIds(records, existing, idOf)
  {
    if records != [] {
      var n := |records| - 1;
      ContributedDistinctIff(records[..n], existing, idOf);
      ContributedDistinctStep(records, existing, idOf);
      NoSharedIdsStep(records, existing, idOf);
    }
  }

  /** A proposal creates no id twice exactly when no two records it creates from share one. */
  lemma {:induction false} NoDuplicatesIff(
      records: seq<SourceRecord>, existingIds: seq<string>, idOf: EvidenceIdOf, ok: IsTimestamp)
    requires Propose(records, existingIds, idOf, ok).Some?
    ensures Distinct(CreatedIds(Propose(records, existingIds, idOf, ok).value))
       <==> NoSharedIds(records, ToSet(existingIds), idOf)
  {
    var p, existing := Propose(records, existingIds, idOf, ok).value, ToSet(existingIds);
    ProposalCreates(records, existingIds, idOf, ok);
    MappedPermuted(CreatedEvidence(p.items), Contribution(records, existing, idOf), IdOfEvidence);
    DistinctPermuted(CreatedIds(p), ContributedIdList(records, existing, idOf));
    ContributedDistinctIff(records, existing, idOf);
  }

  lemma {:induction false} ContributedTwice(r: SourceRecord, existing: set<string>, idOf: EvidenceIdOf)
    requires Creates(r, existing, idOf)
    ensures Contribution([r, r], existing, idOf) == [EvidenceOf(r, idOf), EvidenceOf(r, idOf)]
  {
    assert [r, r] == [r] + [r] && [r][..0] == [];
    ContributionConcat([r], [r], existing, idOf);
    assert Contribution([r], existing, idOf) == [EvidenceOf(r, idOf)];
  }

  /** One record given twice is created twice, under one id. */
  lemma {:induction false} RepeatedRecordCreatedTwice(
      r: SourceRecord, existingIds: seq<string>, idOf: EvidenceIdOf, ok: IsTimestamp)
    requires Creates(r, ToSet(existingIds), idOf) && ok(r.occurredAt.value)
    ensures
      var p := Propose([r, r], existingIds, idOf, ok);
      p.Some? && p.value.createCount == 2 && !Distinct(CreatedIds(p.value))
  {
    var existing := ToSet(existingIds);
    ProposalExistsIff([r, r], existingIds, idOf, ok);
    ProposalCreates([r, r], existingIds, idOf, ok);
    ContributedTwice(r, existing, idOf);
    var p := Propose([r, r], existingIds, idOf, ok).value;
    assert |multiset(CreatedEvidence(p.items))| == |multiset(Contribution([r, r], existing, idOf))|;
    NoDuplicatesIff([r, r], existingIds, idOf, ok);
    assert [r, r][0] == [r, r][1];
  }

  // --- Two batches -----------------------------------------------------------------------

  /** Some record of `b` would be created under an id that `a` creates as well. */
  ghost predicate Collides(a: seq<SourceRecord>, b: seq<SourceRecord>, existing: set<string>, idOf: EvidenceIdOf) {
    exists i, k :: 0 <= i < |a| && 0 <= k < |b| && Creates(a[i], existing, idOf) && Creates(b[k], existing, idOf)
                   && idOf(IdentityOf(a[i])) == idOf(IdentityOf(b[k]))
  }

  lemma {:induction false} ShrunkContribution(
      b: seq<SourceRecord>, small: set<string>, large: set<string>, idOf: EvidenceIdOf)
    requires small <= large
    ensures |Contribution(b, large, idOf)| <= |Contribution(b, small, idOf)|
    ensures |Contribution(b, large, idOf)| == |Contribution(b, small, idOf)|
       <==> forall k :: 0 <= k < |b| && Creates(b[k], small, idOf) ==> Creates(b[k], large, idOf)
    ensures |Contribution(b, large, idOf)| == |Contribution(b, small, idOf)| ==>
      Contribution(b, large, idOf) == Contribution(b, small, idOf)
  {
    if b != [] {
      var n := |b| - 1;
      assert forall k :: 0 <= k < n ==> b[..n][k] == b[k];
      ShrunkContribution(b[..n], small, large, idOf);
    }
  }

  /**
    Two batches with ids fed forward create the evidence of one batch exactly when no record of the
    second would be created under an id the first creates.
   */
  lemma {:induction false} TwoBatchesIff(
      a: seq<SourceRecord>, b: seq<SourceRecord>, existing: set<string>, idOf: EvidenceIdOf)
    ensures
      var first := Contribution(a, existing, idOf);
      multiset(first + Contribution(b, existing + EvidenceIds(first), idOf))
        == multiset(Contribution(a + b, existing, idOf))
      <==> !Collides(a, b, existing, idOf)
  {
    var first := Contribution(a, existing, idOf);
    var large := existing + EvidenceIds(first);
    ContributionConcat(a, b, existing, idOf);
    ShrunkContribution(b, existing, large, idOf);
    ContributedIds(a, existing, idOf);
    var two, one := first + Contribution(b, large, idOf), Contribution(a + b, existing, idOf);
    assert |multiset(two)| == |two| && |multiset(one)| == |one|;
    assert Collides(a, b, existing, idOf)
      <==> exists k :: 0 <= k < |b| && Creates(b[k], existing, idOf) && idOf(IdentityOf(b[k])) in EvidenceIds(first);
  }

  function Flattened(batches: seq<seq<SourceRecord>>): seq<SourceRecord> {
    if batches == [] then [] else batches[0] + Flattened(batches[1..])
  }

  /** Different identities get different evidence ids. */
  ghost predicate InjectiveOn(records: seq<SourceRecord>, idOf: EvidenceIdOf) {
    forall i, k :: 0 <= i < |records| && 0 <= k < |records| && i != k ==>
      idOf(IdentityOf(records[i])) != idOf(IdentityOf(records[k]))
  }

  lemma {:induction false} InjectiveParts(
      a: seq<SourceRecord>, b: seq<SourceRecord>, existing: set<string>, idOf: EvidenceIdOf)
    requires InjectiveOn(a + b, idOf)
    ensures InjectiveOn(b, idOf) && !Collides(a, b, existing, idOf)
  {
    var all := a + b;
    forall i, k | 0 <= i < |b| && 0 <= k < |b| && i != k
      ensures idOf(IdentityOf(b[i])) != idOf(IdentityOf(b[k]))
    {
      assert all[|a| + i] == b[i] && all[|a| + k] == b[k];
    }
    forall i, k | 0 <= i < |a| && 0 <= k < |b| ensures idOf(IdentityOf(a[i])) != idOf(IdentityOf(b[k])) {
      assert all[i] == a[i] && all[|a| + k] == b[k];
    }
  }

  // --- Batches as proposals --------------------------------------------------------------

  /** Creating means the same after a batch that shares no id. */
  lemma {:induction false} CreatesAfterBatch(
      a: seq<SourceRecord>, b: seq<SourceRecord>, existing: set<string>, idOf: EvidenceIdOf, k: nat)
    requires k < |b|
    ensures
      var large := existing + EvidenceIds(Contribution(a, existing, idOf));
      && (Creates(b[k], large, idOf) ==> Creates(b[k], existing, idOf))
      && (!Collides(a, b, existing, idOf) ==> (Creates(b[k], existing, idOf) <==> Creates(b[k], large, idOf)))
  {
    ContributedIds(a, existing, idOf);
  }

  lemma {:induction false} TimestampsConcat(
      a: seq<SourceRecord>, b: seq<SourceRecord>, existing: set<string>, idOf: EvidenceIdOf, ok: IsTimestamp)
    ensures TimestampsOk(a + b, existing, idOf, ok)
       <==> TimestampsOk(a, existing, idOf, ok) && TimestampsOk(b, existing, idOf, ok)
  {
    var all := a + b;
    if TimestampsOk(all, existing, idOf, ok) {
      forall i | 0 <= i < |a| && Creates(a[i], existing, idOf)
        ensures a[i].occurredAt.Some? && ok(a[i].occurredAt.value)
      {
        assert all[i] == a[i];
      }
      forall i | 0 <= i < |b| && Creates(b[i], existing, idOf)
        ensures b[i].occurredAt.Some? && ok(b[i].occurredAt.value)
      {
        assert all[|a| + i] == b[i];
      }
    }
  }

  /**
    One proposal for both batches exists exactly when each batch has one by itself, and then the
    second batch has one after the first as well; without a collision the converse holds too.
   */
  lemma {:induction false} TwoProposalsExist(
      a: seq<SourceRecord>, b: seq<SourceRecord>, ids: seq<string>, idOf: EvidenceIdOf, ok: IsTimestamp)
    requires Propose(a, ids, idOf, ok).Some?
    ensures
      var first := Propose(a, ids, idOf, ok).value;
      var second, one := Propose(b, ids + CreatedIds(first), idOf, ok), Propose(a + b, ids, idOf, ok);
      && (one.Some? <==> Propose(b, ids, idOf, ok).Some?)
      && (one.Some? ==> second.Some?)
      && (!Collides(a, b, ToSet(ids), idOf) ==> (one.Some? <==> second.Some?))
  {
    var first := Propose(a, ids, idOf, ok).value;
    var existing, later := ToSet(ids), ids + CreatedIds(first);
    ProposalExistsIff(a, ids, idOf, ok);
    ProposalExistsIff(b, ids, idOf, ok);
    ProposalExistsIff(a + b, ids, idOf, ok);
    ProposalExistsIff(b, later, idOf, ok);
    TimestampsConcat(a, b, existing, idOf, ok);
    CreatedIdsAre(a, ids, idOf, ok);
    forall k | 0 <= k < |b|
      ensures Creates(b[k], ToSet(later), idOf) ==> Creates(b[k], existing, idOf)
      ensures !Collides(a, b, existing, idOf) ==> (Creates(b[k], existing, idOf) <==> Creates(b[k], ToSet(later), idOf))
    {
      CreatesAfterBatch(a, b, existing, idOf, k);
    }
  }

  /** Two proposals with ids fed forward create the evidence of one exactly when they share no id. */
  lemma {:induction false} TwoProposalsIff(
      a: seq<SourceRecord>, b: seq<SourceRecord>, ids: seq<string>, idOf: EvidenceIdOf, ok: IsTimestamp)
    requires Propose(a + b, ids, idOf, ok).Some? && Propose(a, ids, idOf, ok).Some?
    ensures
      var first, one := Propose(a, ids, idOf, ok).value, Propose(a + b, ids, idOf, ok).value;
      var second := Propose(b, ids + CreatedIds(first), idOf, ok);
      && second.Some?
      && var both := CreatedEvidence(first.items) + CreatedEvidence(second.value.items);
         multiset(both) == multiset(CreatedEvidence(one.items)) <==> !Collides(a, b, ToSet(ids), idOf)
  {
    var first := Propose(a, ids, idOf, ok).value;
    TwoProposalsExist(a, b, ids, idOf, ok);
    CreatedIdsAre(a, ids, idOf, ok);
    ProposalCreates(a, ids, idOf, ok);
    ProposalCreates(b, ids + CreatedIds(first), idOf, ok);
    ProposalCreates(a + b, ids, idOf, ok);
    TwoBatchesIff(a, b, ToSet(ids), idOf);
  }

  /** Batch after batch, each proposal told of the ids created before it. */
  function ProposeInTurn(batches: seq<seq<SourceRecord>>, ids: seq<string>, idOf: EvidenceIdOf, ok: IsTimestamp)
    : Option<seq<Evidence>>
    decreases |batches|
  {
    if batches == [] then Some([])
    else
      var first := Propose(batches[0], ids, idOf, ok);
      if first.None? then None
      else
        var rest := ProposeInTurn(batches[1..], ids + CreatedIds(first.value), idOf, ok);
        if rest.None? then None else Some(CreatedEvidence(first.value.items) + rest.value)
  }

  lemma {:induction false} EmptyProposal(ids: seq<string>, idOf: EvidenceIdOf, ok: IsTimestamp)
    ensures Propose([], ids, idOf, ok).Some? && CreatedEvidence(Propose([], ids, idOf, ok).value.items) == []
  {
    ProposalExistsIff([], ids, idOf, ok);
    ProposalCreates([], ids, idOf, ok);
    assert |multiset(CreatedEvidence(Propose([], ids, idOf, ok).value.items))| == 0;
  }

  /** What the batches propose in turn is what one proposal for all of them creates. */
  ghost predicate TurnsAgree(batches: seq<seq<SourceRecord>>, ids: seq<string>, idOf: EvidenceIdOf, ok: IsTimestamp) {
    var turns, one := ProposeInTurn(batches, ids, idOf, ok), Propose(Flattened(batches), ids, idOf, ok);
    && (turns.Some? <==> one.Some?)
    && (one.Some? ==> multiset(turns.value) == multiset(CreatedEvidence(one.value.items)))
  }

  lemma {:induction false} TurnsAgreeStep(
      batches: seq<seq<SourceRecord>>, ids: seq<string>, idOf: EvidenceIdOf, ok: IsTimestamp)
    requires batches != [] && !Collides(batches[0], Flattened(batches[1..]), ToSet(ids), idOf)
    requires Propose(batches[0], ids, idOf, ok).Some? ==>
      TurnsAgree(batches[1..], ids + CreatedIds(Propose(batches[0], ids, idOf, ok).value), idOf, ok)
    ensures TurnsAgree(batches, ids, idOf, ok)
  {
    var a, rest := batches[0], Flattened(batches[1..]);
    ProposalExistsIff(a, ids, idOf, ok);
    ProposalExistsIff(a + rest, ids, idOf, ok);
    TimestampsConcat(a, rest, ToSet(ids), idOf, ok);
    if Propose(a, ids, idOf, ok).Some? {
      TwoProposalsExist(a, rest, ids, idOf, ok);
      if Propose(a + rest, ids, idOf, ok).Some? {
        TwoProposalsIff(a, rest, ids, idOf, ok);
      }
    }
  }

  /** Records with pairwise different evidence ids create the same evidence however they are cut into proposals. */
  lemma {:induction false} ProposalsInTurnAgree(
      batches: seq<seq<SourceRecord>>, ids: seq<string>, idOf: EvidenceIdOf, ok: IsTimestamp)
    requires InjectiveOn(Flattened(batches), idOf)
    ensures TurnsAgree(batches, ids, idOf, ok)
    decreases |batches|
  {
    if batches == [] {
      EmptyProposal(ids, idOf, ok);
    } else {
      InjectiveParts(batches[0], Flattened(batches[1..]), ToSet(ids), idOf);
      if Propose(batches[0], ids, idOf, ok).Some? {
        ProposalsInTurnAgree(batches[1..], ids + CreatedIds(Propose(batches[0], ids, idOf, ok).value), idOf, ok);
      }
      TurnsAgreeStep(batches, ids, idOf, ok);
    }
  }
}
