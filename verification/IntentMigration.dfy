/** Provider-write-free migration proposals for governed intent evidence. */
module IntentMigration {
  import opened Common
  import opened Ordering

  // --- Records and evidence --------------------------------------------------------------

  datatype Context = Context(contextId: string, userId: string, behavior: Option<string>)

  datatype SourceRecord = SourceRecord(
    sourceSystem: string, sourceRecordId: string, sourceReference: string, sourceDigest: string,
    attributable: bool, confirmed: bool, interpretation: Option<string>, occurredAt: Option<string>,
    context: Option<Context>, stale: bool, contradictory: bool, retired: bool, speculative: bool)

  datatype Evidence = Evidence(
    evidenceId: string, context: Context, confirmedInterpretation: string, representedBehavior: string,
    sourceReference: string, sourceDigest: string, confirmationCount: nat, confidence: real,
    firstConfirmedAt: string, lastConfirmedAt: string, inferenceEligible: bool)

  datatype Reason =
    | Speculative | Unattributable | Unconfirmed | Stale | Contradictory | Retired | Incomplete
    | AlreadyAtDestination
    | ConfirmedScopedEvidence

  datatype Disposition = Create | Skip

  datatype MigrationItem = MigrationItem(
    sourceSystem: string, sourceRecordId: string, sourceDigest: string, disposition: Disposition,
    reason: Reason, proposed: Option<Evidence>)

  type Identity = (string, string)

  /** The truncated digest of a record's identity, as an evidence id. */
  type EvidenceIdOf = Identity -> string

  /** Whether a timestamp parses with a timezone; the evidence contract raises otherwise. */
  type IsTimestamp = string -> bool

  function IdentityOf(r: SourceRecord): Identity {
    (r.sourceSystem, r.sourceRecordId)
  }

  predicate RecordLe(a: SourceRecord, b: SourceRecord) {
    PairLe(IdentityOf(a), IdentityOf(b))
  }

  function SkipReason(r: SourceRecord): Option<Reason> {
    if r.speculative then Some(Speculative)
    else if !r.attributable then Some(Unattributable)
    else if !r.confirmed then Some(Unconfirmed)
    else if r.stale then Some(Stale)
    else if r.contradictory then Some(Contradictory)
    else if r.retired then Some(Retired)
    else if r.interpretation.None? || r.interpretation.value == ""
            || r.occurredAt.None? || r.occurredAt.value == "" || r.context.None?
    then Some(Incomplete)
    else None
  }

  /** The record is migrated unless its evidence is already there. */
  predicate Creates(r: SourceRecord, existing: set<string>, idOf: EvidenceIdOf) {
    SkipReason(r).None? && idOf(IdentityOf(r)) !in existing
  }

  function EvidenceOf(r: SourceRecord, idOf: EvidenceIdOf): Evidence
    requires SkipReason(r).None?
  {
    Evidence(idOf(IdentityOf(r)), r.context.value, r.interpretation.value, r.interpretation.value,
             r.sourceReference, r.sourceDigest, 1, 0.75, r.occurredAt.value, r.occurredAt.value, true)
  }

  function ItemOf(r: SourceRecord, existing: set<string>, idOf: EvidenceIdOf): MigrationItem {
    if SkipReason(r).Some? then
      MigrationItem(r.sourceSystem, r.sourceRecordId, r.sourceDigest, Skip, SkipReason(r).value, None)
    else if idOf(IdentityOf(r)) in existing then
      MigrationItem(r.sourceSystem, r.sourceRecordId, r.sourceDigest, Skip, AlreadyAtDestination, None)
    else
      MigrationItem(r.sourceSystem, r.sourceRecordId, r.sourceDigest, Create, ConfirmedScopedEvidence,
                    Some(EvidenceOf(r, idOf)))
  }

  // --- The proposal ----------------------------------------------------------------------

  type Snapshot = (Identity, string)

  predicate SnapshotLe(a: Snapshot, b: Snapshot) {
    if a.0 != b.0 then PairLe(a.0, b.0) else StrLe(a.1, b.1)
  }

  function EntryOf(r: SourceRecord): Snapshot { (IdentityOf(r), r.sourceDigest) }

  function SnapshotOf(records: seq<SourceRecord>): seq<Snapshot> {
    Mapped(records, EntryOf)
  }

  datatype Proposal = Proposal(
    inputSnapshot: seq<Snapshot>, existingIds: seq<string>, items: seq<MigrationItem>,
    createCount: nat, skipCount: int)

  predicate IsCreate(item: MigrationItem) { item.disposition.Create? }

  function ItemsOf(records: seq<SourceRecord>, existing: set<string>, idOf: EvidenceIdOf): (r: seq<MigrationItem>)
    ensures |r| == |records|
    ensures forall i :: 0 <= i < |r| ==> r[i] == ItemOf(records[i], existing, idOf)
  {
    seq(|records|, i requires 0 <= i < |records| => ItemOf(records[i], existing, idOf))
  }

  /** Every record about to be created has a timestamp the evidence contract accepts. */
  predicate TimestampsOk(records: seq<SourceRecord>, existing: set<string>, idOf: EvidenceIdOf, ok: IsTimestamp) {
    forall i :: 0 <= i < |records| && Creates(records[i], existing, idOf) ==>
      records[i].occurredAt.Some? && ok(records[i].occurredAt.value)
  }

  function Propose(records: seq<SourceRecord>, existingIds: seq<string>, idOf: EvidenceIdOf, ok: IsTimestamp)
    : Option<Proposal>
  {
    var existing := ToSet(existingIds);
    var sorted := SortBy(records, RecordLe);
    if !TimestampsOk(sorted, existing, idOf, ok) then None
    else
      var items := ItemsOf(sorted, existing, idOf);
      var creates := CountIf(items, IsCreate);
      Some(Proposal(SortBy(SnapshotOf(records), SnapshotLe), SortBy(existingIds, StrLe), items,
                    creates, |items| - creates))
  }

  /** The proposal as it leaves, with its id and the sorted sources and targets. */
  datatype Document = Document(
    proposalId: string, dataSources: seq<string>, targetKeys: seq<string>, proposal: Proposal)

  method BuildMigrationProposal(
      proposalId: string, records: seq<SourceRecord>, dataSources: seq<string>, targetKeys: seq<string>,
      existingIds: seq<string>, idOf: EvidenceIdOf, ok: IsTimestamp)
    returns (r: Option<Document>)
    ensures r.Some? <==> Propose(records, existingIds, idOf, ok).Some?
    ensures r.Some? ==>
      r.value == Document(proposalId, SortBy(dataSources, StrLe), SortBy(targetKeys, StrLe),
                          Propose(records, existingIds, idOf, ok).value)
  {
    var existing := ToSet(existingIds);
    var sorted := SortBy(records, RecordLe);
    var items: seq<MigrationItem> := [];
    for i := 0 to |sorted|
      invariant items == ItemsOf(sorted[..i], existing, idOf)
      invariant TimestampsOk(sorted[..i], existing, idOf, ok)
    {
      var record := sorted[i];
      var reason := SkipReason(record);
      var disposition := Skip;
      var proposed: Option<Evidence> := None;
      if reason.None? {
        if idOf(IdentityOf(record)) in existing {
          reason := Some(AlreadyAtDestination);
        } else {
          if !ok(record.occurredAt.value) {
            assert !TimestampsOk(sorted, existing, idOf, ok);
            return None;
          }
          proposed := Some(EvidenceOf(record, idOf));
          disposition := Create;
          reason := Some(ConfirmedScopedEvidence);
        }
      }
      items := items + [MigrationItem(record.sourceSystem, record.sourceRecordId, record.sourceDigest,
                                      disposition, reason.value, proposed)];
    }
    assert sorted[..|sorted|] == sorted;
    var creates := CountIf(items, IsCreate);
    var proposal := Proposal(SortBy(SnapshotOf(records), SnapshotLe), SortBy(existingIds, StrLe), items,
                             creates, |items| - creates);
    r := Some(Document(proposalId, SortBy(dataSources, StrLe), SortBy(targetKeys, StrLe), proposal));
  }

  // --- What is created -------------------------------------------------------------------

  /** The evidence of created items, in order. */
  function CreatedEvidence(items: seq<MigrationItem>): seq<Evidence> {
    if items == [] then []
    else
      var last := items[|items| - 1];
      CreatedEvidence(items[..|items| - 1]) + if last.proposed.Some? then [last.proposed.value] else []
  }

  /** What records contribute, in their own order. */
  function Contribution(records: seq<SourceRecord>, existing: set<string>, idOf: EvidenceIdOf): seq<Evidence> {
    if records == [] then []
    else
      var n := |records| - 1;
      Contribution(records[..n], existing, idOf)
      + if Creates(records[n], existing, idOf) then [EvidenceOf(records[n], idOf)] else []
  }

  lemma {:induction false} LastItem(records: seq<SourceRecord>, existing: set<string>, idOf: EvidenceIdOf)
    requires records != []
    ensures
      var n, items := |records| - 1, ItemsOf(records, existing, idOf);
      items[..n] == ItemsOf(records[..n], existing, idOf) && items[n] == ItemOf(records[n], existing, idOf)
  {
  }

  lemma {:induction false} ItemsContribute(records: seq<SourceRecord>, existing: set<string>, idOf: EvidenceIdOf)
    ensures CreatedEvidence(ItemsOf(records, existing, idOf)) == Contribution(records, existing, idOf)
  {
    if records != [] {
      LastItem(records, existing, idOf);
      ItemsContribute(records[..|records| - 1], existing, idOf);
    }
  }

  lemma {:induction false} ItemsCreated(records: seq<SourceRecord>, existing: set<string>, idOf: EvidenceIdOf)
    ensures CountIf(ItemsOf(records, existing, idOf), IsCreate) == |Contribution(records, existing, idOf)|
  {
    if records != [] {
      LastItem(records, existing, idOf);
      ItemsCreated(records[..|records| - 1], existing, idOf);
    }
  }

  lemma {:induction false} ContributionConcat(
      a: seq<SourceRecord>, b: seq<SourceRecord>, existing: set<string>, idOf: EvidenceIdOf)
    ensures Contribution(a + b, existing, idOf) == Contribution(a, existing, idOf) + Contribution(b, existing, idOf)
  {
    if b == [] {
      assert a + b == a;
    } else {
      var n := |b| - 1;
      assert (a + b)[..|a + b| - 1] == a + b[..n];
      ContributionConcat(a, b[..n], existing, idOf);
    }
  }

  /** The evidence contributed does not depend on the order of the records. */
  lemma {:induction false} ContributionPermuted(
      a: seq<SourceRecord>, b: seq<SourceRecord>, existing: set<string>, idOf: EvidenceIdOf)
    requires multiset(a) == multiset(b)
    ensures multiset(Contribution(a, existing, idOf)) == multiset(Contribution(b, existing, idOf))
    decreases |a|
  {
    assert |multiset(a)| == |a| && |multiset(b)| == |b|;
    if a != [] {
      var n := |a| - 1;
      assert a[n] in multiset(b);
      var i :| 0 <= i < |b| && b[i] == a[n];
      WithoutAt(a, n);
      WithoutAt(b, i);
      ContributionPermuted(a[..n] + a[n + 1..], b[..i] + b[i + 1..], existing, idOf);
      ContributionSplit(a, n, existing, idOf);
      ContributionSplit(b, i, existing, idOf);
    }
  }

  lemma {:induction false} ContributionSplit(b: seq<SourceRecord>, i: nat, existing: set<string>, idOf: EvidenceIdOf)
    requires i < |b|
    ensures multiset(Contribution(b, existing, idOf))
         == multiset(Contribution(b[..i] + b[i + 1..], existing, idOf)) + multiset(Contribution([b[i]], existing, idOf))
  {
    assert b == b[..i] + ([b[i]] + b[i + 1..]);
    ContributionConcat(b[..i], [b[i]] + b[i + 1..], existing, idOf);
    ContributionConcat([b[i]], b[i + 1..], existing, idOf);
    ContributionConcat(b[..i], b[i + 1..], existing, idOf);
  }

  // --- Counting, repetition and order ----------------------------------------------------

  lemma {:induction false} RecordLeIsPreorder()
    ensures Preorder(RecordLe)
  {
    PairLeIsPreorder();
    forall a: SourceRecord, b: SourceRecord ensures RecordLe(a, b) || RecordLe(b, a) {
      assert PairLe(IdentityOf(a), IdentityOf(b)) || PairLe(IdentityOf(b), IdentityOf(a));
    }
    forall a: SourceRecord, b: SourceRecord, c: SourceRecord | RecordLe(a, b) && RecordLe(b, c) ensures RecordLe(a, c) {
      assert PairLe(IdentityOf(a), IdentityOf(b)) && PairLe(IdentityOf(b), IdentityOf(c));
    }
  }

  /** Sorting the records changes neither how many there are nor what they contribute. */
  lemma {:induction false} ProposalCreates(
      records: seq<SourceRecord>, existingIds: seq<string>, idOf: EvidenceIdOf, ok: IsTimestamp)
    requires Propose(records, existingIds, idOf, ok).Some?
    ensures
      var p := Propose(records, existingIds, idOf, ok).value;
      && |p.items| == |records|
      && p.createCount + p.skipCount == |records|
      && p.createCount == |CreatedEvidence(p.items)|
      && multiset(CreatedEvidence(p.items)) == multiset(Contribution(records, ToSet(existingIds), idOf))
  {
    var sorted := SortBy(records, RecordLe);
    RecordLeIsPreorder();
    SortBySorts(records, RecordLe);
    assert |multiset(sorted)| == |sorted| && |multiset(records)| == |records|;
    ItemsContribute(sorted, ToSet(existingIds), idOf);
    ItemsCreated(sorted, ToSet(existingIds), idOf);
    ContributionPermuted(sorted, records, ToSet(existingIds), idOf);
  }

  /** A proposal exists exactly when every record about to be created has a valid timestamp. */
  lemma {:induction false} ProposalExistsIff(
      records: seq<SourceRecord>, existingIds: seq<string>, idOf: EvidenceIdOf, ok: IsTimestamp)
    ensures Propose(records, existingIds, idOf, ok).Some? <==> TimestampsOk(records, ToSet(existingIds), idOf, ok)
  {
    var sorted := SortBy(records, RecordLe);
    RecordLeIsPreorder();
    SortBySorts(records, RecordLe);
    forall r ensures r in sorted <==> r in records {
      assert r in multiset(sorted) <==> r in multiset(records);
    }
    if TimestampsOk(records, ToSet(existingIds), idOf, ok) {
      forall i | 0 <= i < |sorted| && Creates(sorted[i], ToSet(existingIds), idOf)
        ensures sorted[i].occurredAt.Some? && ok(sorted[i].occurredAt.value)
      {
        assert sorted[i] in records;
      }
    } else {
      var i :| 0 <= i < |records| && Creates(records[i], ToSet(existingIds), idOf)
               && !(records[i].occurredAt.Some? && ok(records[i].occurredAt.value));
      assert records[i] in sorted;
    }
  }

  function EvidenceIds(evidence: seq<Evidence>): set<string> {
    set i | 0 <= i < |evidence| :: evidence[i].evidenceId
  }

  lemma {:induction false} ContributedIds(records: seq<SourceRecord>, existing: set<string>, idOf: EvidenceIdOf)
    ensures forall x :: x in EvidenceIds(Contribution(records, existing, idOf))
                   <==> exists i :: 0 <= i < |records| && Creates(records[i], existing, idOf)
                                    && idOf(IdentityOf(records[i])) == x
  {
    if records != [] {
      var n := |records| - 1;
      ContributedIds(records[..n], existing, idOf);
      var front, all := Contribution(records[..n], existing, idOf), Contribution(records, existing, idOf);
      forall x
        ensures x in EvidenceIds(all)
           <==> x in EvidenceIds(front) || (Creates(records[n], existing, idOf) && idOf(IdentityOf(records[n])) == x)
      {
        if x in EvidenceIds(front) {
          var i :| 0 <= i < |front| && front[i].evidenceId == x;
          assert all[i].evidenceId == x;
        } else if Creates(records[n], existing, idOf) && idOf(IdentityOf(records[n])) == x {
          assert all[|front|].evidenceId == x;
        }
      }
      forall x, i | 0 <= i < n && Creates(records[i], existing, idOf) && idOf(IdentityOf(records[i])) == x
        ensures x in EvidenceIds(front)
      {
        assert records[..n][i] == records[i];
      }
      forall x | x in EvidenceIds(front)
        ensures exists i :: && 0 <= i < |records| && Creates(records[i], existing, idOf)
                            && idOf(IdentityOf(records[i])) == x
      {
        var i :| 0 <= i < n && Creates(records[..n][i], existing, idOf) && idOf(IdentityOf(records[..n][i])) == x;
        assert records[i] == records[..n][i];
      }
    }
  }

  lemma {:induction false} NothingLeft(records: seq<SourceRecord>, existing: set<string>, idOf: EvidenceIdOf)
    requires forall i :: 0 <= i < |records| ==> !Creates(records[i], existing, idOf)
    ensures Contribution(records, existing, idOf) == []
  {
    if records != [] {
      assert forall i :: 0 <= i < |records| - 1 ==> records[..|records| - 1][i] == records[i];
      NothingLeft(records[..|records| - 1], existing, idOf);
    }
  }

  /** The ids a proposal creates. */
  function IdOfEvidence(e: Evidence): string { e.evidenceId }

  function CreatedIds(p: Proposal): seq<string> {
    Mapped(CreatedEvidence(p.items), IdOfEvidence)
  }

  lemma {:induction false} SameEvidenceIds(a: seq<Evidence>, b: seq<Evidence>)
    requires multiset(a) == multiset(b)
    ensures EvidenceIds(a) == EvidenceIds(b)
  {
    forall e ensures e in a <==> e in b {
      assert e in multiset(a) <==> e in multiset(b);
    }
    forall x | x in EvidenceIds(a) ensures x in EvidenceIds(b) {
      var i :| 0 <= i < |a| && a[i].evidenceId == x;
      assert a[i] in b;
    }
    forall x | x in EvidenceIds(b) ensures x in EvidenceIds(a) {
      var i :| 0 <= i < |b| && b[i].evidenceId == x;
      assert b[i] in a;
    }
  }

  lemma {:induction false} CreatedIdsAre(
      records: seq<SourceRecord>, existingIds: seq<string>, idOf: EvidenceIdOf, ok: IsTimestamp)
    requires Propose(records, existingIds, idOf, ok).Some?
    ensures
      var p := Propose(records, existingIds, idOf, ok).value;
      ToSet(existingIds + CreatedIds(p))
        == ToSet(existingIds) + EvidenceIds(Contribution(records, ToSet(existingIds), idOf))
  {
    var p := Propose(records, existingIds, idOf, ok).value;
    ProposalCreates(records, existingIds, idOf, ok);
    SameEvidenceIds(CreatedEvidence(p.items), Contribution(records, ToSet(existingIds), idOf));
    CreatedIdSet(p);
  }

  lemma {:induction false} CreatedIdSet(p: Proposal)
    ensures ToSet(CreatedIds(p)) == EvidenceIds(CreatedEvidence(p.items))
  {
    var created := CreatedEvidence(p.items);
    forall x | x in EvidenceIds(created) ensures x in CreatedIds(p) {
      var i :| 0 <= i < |created| && created[i].evidenceId == x;
      assert CreatedIds(p)[i] == x;
    }
  }

  /** Feeding the created ids back as existing leaves nothing to create. */
  lemma {:induction false} SecondProposalCreatesNothing(
      records: seq<SourceRecord>, existingIds: seq<string>, idOf: EvidenceIdOf, ok: IsTimestamp)
    requires Propose(records, existingIds, idOf, ok).Some?
    ensures
      var again := Propose(records, existingIds + CreatedIds(Propose(records, existingIds, idOf, ok).value), idOf, ok);
      again.Some? && again.value.createCount == 0 && again.value.skipCount == |records|
  {
    var existing := ToSet(existingIds);
    var ids := existingIds + CreatedIds(Propose(records, existingIds, idOf, ok).value);
    CreatedIdsAre(records, existingIds, idOf, ok);
    ContributedIds(records, existing, idOf);
    forall i | 0 <= i < |records| ensures !Creates(records[i], ToSet(ids), idOf) {
      assert Creates(records[i], existing, idOf) ==>
        idOf(IdentityOf(records[i])) in EvidenceIds(Contribution(records, existing, idOf));
    }
    ProposalExistsIff(records, ids, idOf, ok);
    NothingLeft(records, ToSet(ids), idOf);
    ProposalCreates(records, ids, idOf, ok);
    assert |multiset(CreatedEvidence(Propose(records, ids, idOf, ok).value.items))| == 0;
  }

  // --- Order of the input ----------------------------------------------------------------

  predicate UniqueIdentities(records: seq<SourceRecord>) {
    forall i, k :: 0 <= i < |records| && 0 <= k < |records| ==>
      IdentityOf(records[i]) == IdentityOf(records[k]) ==> i == k
  }

  lemma {:induction false} SnapshotLeIsPreorder()
    ensures Preorder(SnapshotLe)
  {
    PairLeIsPreorder();
    StrLeIsPreorder();
    forall a: Snapshot, b: Snapshot ensures SnapshotLe(a, b) || SnapshotLe(b, a) {
      assert PairLe(a.0, b.0) || PairLe(b.0, a.0);
      assert StrLe(a.1, b.1) || StrLe(b.1, a.1);
    }
    forall a: Snapshot, b: Snapshot, c: Snapshot | SnapshotLe(a, b) && SnapshotLe(b, c) ensures SnapshotLe(a, c) {
      SnapshotTransitive(a, b, c);
    }
  }

  lemma {:induction false} SnapshotTransitive(a: Snapshot, b: Snapshot, c: Snapshot)
    requires Preorder(PairLe) && Preorder(StrLe)
    requires SnapshotLe(a, b) && SnapshotLe(b, c)
    ensures SnapshotLe(a, c)
  {
    if a.0 == b.0 == c.0 {
      assert StrLe(a.1, c.1);
    } else if a.0 != b.0 && b.0 != c.0 {
      assert PairLe(a.0, b.0) && PairLe(b.0, c.0);
      assert PairLe(a.0, c.0);
      if a.0 == c.0 {
        PairLeAntisymmetric(a.0, b.0);
      }
    }
  }

  lemma {:induction false} SnapshotAntisymmetric(s: seq<Snapshot>)
    ensures Antisymmetric(s, SnapshotLe)
  {
    forall i, k | 0 <= i < |s| && 0 <= k < |s| && SnapshotLe(s[i], s[k]) && SnapshotLe(s[k], s[i])
      ensures s[i] == s[k]
    {
      if s[i].0 != s[k].0 {
        PairLeAntisymmetric(s[i].0, s[k].0);
      } else {
        StrLeTotal(s[i].1, s[k].1);
      }
    }
  }

  lemma {:induction false} SortedIdentitiesUnique(records: seq<SourceRecord>)
    requires UniqueIdentities(records)
    ensures Antisymmetric(SortBy(records, RecordLe), RecordLe)
  {
    var sorted := SortBy(records, RecordLe);
    RecordLeIsPreorder();
    SortBySorts(records, RecordLe);
    forall i, k | && 0 <= i < |sorted| && 0 <= k < |sorted|
                  && RecordLe(sorted[i], sorted[k]) && RecordLe(sorted[k], sorted[i])
      ensures sorted[i] == sorted[k]
    {
      PairLeAntisymmetric(IdentityOf(sorted[i]), IdentityOf(sorted[k]));
      assert sorted[i] in multiset(records) && sorted[k] in multiset(records);
      var m :| 0 <= m < |records| && records[m] == sorted[i];
      var n :| 0 <= n < |records| && records[n] == sorted[k];
    }
  }

  lemma {:induction false} RecordsSortAlike(a: seq<SourceRecord>, b: seq<SourceRecord>)
    requires multiset(a) == multiset(b) && UniqueIdentities(a)
    ensures SortBy(a, RecordLe) == SortBy(b, RecordLe)
  {
    RecordLeIsPreorder();
    SortedIdentitiesUnique(a);
    SortedAlike(a, b, RecordLe);
  }

  lemma {:induction false} SnapshotsSortAlike(a: seq<SourceRecord>, b: seq<SourceRecord>)
    requires multiset(a) == multiset(b)
    ensures SortBy(SnapshotOf(a), SnapshotLe) == SortBy(SnapshotOf(b), SnapshotLe)
  {
    MappedPermuted(a, b, EntryOf);
    SnapshotLeIsPreorder();
    SnapshotAntisymmetric(SortBy(SnapshotOf(a), SnapshotLe));
    SortedAlike(SnapshotOf(a), SnapshotOf(b), SnapshotLe);
  }

  /** With unique identities the whole proposal is the same for every order of the records. */
  lemma {:induction false} OrderDoesNotMatter(a: seq<SourceRecord>, b: seq<SourceRecord>, existingIds: seq<string>,
                                              idOf: EvidenceIdOf, ok: IsTimestamp)
    requires multiset(a) == multiset(b) && UniqueIdentities(a)
    ensures Propose(a, existingIds, idOf, ok) == Propose(b, existingIds, idOf, ok)
  {
    RecordsSortAlike(a, b);
    SnapshotsSortAlike(a, b);
  }

  // --- Exactly when the order matters ----------------------------------------------------

  function ItemIdentity(item: MigrationItem): Identity { (item.sourceSystem, item.sourceRecordId) }

  predicate ItemLe(a: MigrationItem, b: MigrationItem) {
    PairLe(ItemIdentity(a), ItemIdentity(b))
  }

  /** Every order of the records gives one proposal, or none at all. */
  ghost predicate OrderFree(records: seq<SourceRecord>, existingIds: seq<string>, idOf: EvidenceIdOf, ok: IsTimestamp) {
    forall other | multiset(other) == multiset(records) ::
      Propose(other, existingIds, idOf, ok) == Propose(records, existingIds, idOf, ok)
  }

  /** Records of one identity come out as one item. */
  ghost predicate SameIdentitySameItem(records: seq<SourceRecord>, existing: set<string>, idOf: EvidenceIdOf) {
    forall x, y :: x in records && y in records && IdentityOf(x) == IdentityOf(y) ==>
      ItemOf(x, existing, idOf) == ItemOf(y, existing, idOf)
  }

  lemma {:induction false} ItemLeIsPreorder()
    ensures Preorder(ItemLe)
    ensures forall a: MigrationItem, b: MigrationItem :: ItemIdentity(a) == ItemIdentity(b) ==> ItemLe(a, b)
  {
    PairLeIsPreorder();
    forall a: MigrationItem, b: MigrationItem ensures ItemLe(a, b) || ItemLe(b, a) {
      assert PairLe(ItemIdentity(a), ItemIdentity(b)) || PairLe(ItemIdentity(b), ItemIdentity(a));
    }
    forall a: MigrationItem, b: MigrationItem, c: MigrationItem | ItemLe(a, b) && ItemLe(b, c) ensures ItemLe(a, c) {
      assert PairLe(ItemIdentity(a), ItemIdentity(b)) && PairLe(ItemIdentity(b), ItemIdentity(c));
    }
  }

  /** The items of the sorted records are the sorted items. */
  lemma {:induction false} ItemsSort(records: seq<SourceRecord>, existing: set<string>, idOf: EvidenceIdOf)
    ensures ItemsOf(SortBy(records, RecordLe), existing, idOf) == SortBy(ItemsOf(records, existing, idOf), ItemLe)
  {
    var f := (r: SourceRecord) => ItemOf(r, existing, idOf);
    SortMaps(records, f, RecordLe, ItemLe);
    assert Mapped(records, f) == ItemsOf(records, existing, idOf);
    assert Mapped(SortBy(records, RecordLe), f) == ItemsOf(SortBy(records, RecordLe), existing, idOf);
  }

  lemma {:induction false} ItemsPermuted(
      a: seq<SourceRecord>, b: seq<SourceRecord>, existing: set<string>, idOf: EvidenceIdOf)
    requires multiset(a) == multiset(b)
    ensures multiset(ItemsOf(a, existing, idOf)) == multiset(ItemsOf(b, existing, idOf))
  {
    var f := (r: SourceRecord) => ItemOf(r, existing, idOf);
    MappedPermuted(a, b, f);
    assert Mapped(a, f) == ItemsOf(a, existing, idOf) && Mapped(b, f) == ItemsOf(b, existing, idOf);
  }

  lemma {:induction false} OneItemPerIdentity(
      records: seq<SourceRecord>, existing: set<string>, idOf: EvidenceIdOf, x: MigrationItem, y: MigrationItem)
    requires SameIdentitySameItem(records, existing, idOf)
    requires x in ItemsOf(records, existing, idOf) && y in ItemsOf(records, existing, idOf)
    requires ItemIdentity(x) == ItemIdentity(y)
    ensures x == y
  {
    var items := ItemsOf(records, existing, idOf);
    var m :| 0 <= m < |items| && items[m] == x;
    var n :| 0 <= n < |items| && items[n] == y;
    assert records[m] in records && records[n] in records;
  }

  lemma {:induction false} AgreeingItemsOrder(
      records: seq<SourceRecord>, existing: set<string>, idOf: EvidenceIdOf, sorted: seq<MigrationItem>)
    requires SameIdentitySameItem(records, existing, idOf)
    requires multiset(sorted) == multiset(ItemsOf(records, existing, idOf))
    ensures Antisymmetric(sorted, ItemLe)
  {
    SameMembers(sorted, ItemsOf(records, existing, idOf));
    forall i, k | 0 <= i < |sorted| && 0 <= k < |sorted| && ItemLe(sorted[i], sorted[k]) && ItemLe(sorted[k], sorted[i])
      ensures sorted[i] == sorted[k]
    {
      PairLeAntisymmetric(ItemIdentity(sorted[i]), ItemIdentity(sorted[k]));
      assert sorted[i] in sorted && sorted[k] in sorted;
      OneItemPerIdentity(records, existing, idOf, sorted[i], sorted[k]);
    }
  }

  lemma {:induction false} ItemsSortAlike(
      a: seq<SourceRecord>, b: seq<SourceRecord>, existing: set<string>, idOf: EvidenceIdOf)
    requires multiset(a) == multiset(b) && SameIdentitySameItem(a, existing, idOf)
    ensures ItemsOf(SortBy(a, RecordLe), existing, idOf) == ItemsOf(SortBy(b, RecordLe), existing, idOf)
  {
    var items, others := ItemsOf(a, existing, idOf), ItemsOf(b, existing, idOf);
    ItemsSort(a, existing, idOf);
    ItemsSort(b, existing, idOf);
    ItemsPermuted(a, b, existing, idOf);
    ItemLeIsPreorder();
    SortBySorts(items, ItemLe);
    AgreeingItemsOrder(a, existing, idOf, SortBy(items, ItemLe));
    SortedAlike(items, others, ItemLe);
  }

  lemma {:induction false} ExistencePermuted(
      a: seq<SourceRecord>, b: seq<SourceRecord>, existingIds: seq<string>, idOf: EvidenceIdOf, ok: IsTimestamp)
    requires multiset(a) == multiset(b) && Propose(a, existingIds, idOf, ok).Some?
    ensures Propose(b, existingIds, idOf, ok).Some?
  {
    ProposalExistsIff(a, existingIds, idOf, ok);
    ProposalExistsIff(b, existingIds, idOf, ok);
    SameMembers(a, b);
    forall i | 0 <= i < |b| && Creates(b[i], ToSet(existingIds), idOf)
      ensures b[i].occurredAt.Some? && ok(b[i].occurredAt.value)
    {
      assert b[i] in a;
    }
  }

  lemma {:induction false} AgreeingRecordsAreOrderFree(
      a: seq<SourceRecord>, b: seq<SourceRecord>, existingIds: seq<string>, idOf: EvidenceIdOf, ok: IsTimestamp)
    requires multiset(a) == multiset(b)
    requires Propose(a, existingIds, idOf, ok).Some? ==> SameIdentitySameItem(a, ToSet(existingIds), idOf)
    ensures Propose(b, existingIds, idOf, ok) == Propose(a, existingIds, idOf, ok)
  {
    if Propose(a, existingIds, idOf, ok).Some? {
      ExistencePermuted(a, b, existingIds, idOf, ok);
      ItemsSortAlike(a, b, ToSet(existingIds), idOf);
      SnapshotsSortAlike(a, b);
    } else if Propose(b, existingIds, idOf, ok).Some? {
      ExistencePermuted(b, a, existingIds, idOf, ok);
    }
  }

  lemma {:induction false} ItemsMoved(records: seq<SourceRecord>, i: nat, existing: set<string>, idOf: EvidenceIdOf)
    requires i < |records|
    ensures ItemsOf(MovedLast(records, i), existing, idOf) == MovedLast(ItemsOf(records, existing, idOf), i)
  {
  }

  /** The item a proposal shows for an identity when one of its records stands last. */
  lemma {:induction false} LastRecordShows(
      records: seq<SourceRecord>, i: nat, existing: set<string>, idOf: EvidenceIdOf)
    requires i < |records|
    ensures multiset(MovedLast(records, i)) == multiset(records)
    ensures
      var shown := ById(ItemsOf(SortBy(MovedLast(records, i), RecordLe), existing, idOf), ItemIdentity);
      IdentityOf(records[i]) in shown && shown[IdentityOf(records[i])] == ItemOf(records[i], existing, idOf)
  {
    var moved, items := MovedLast(records, i), ItemsOf(records, existing, idOf);
    MovedLastKept(records, i, IdentityOf);
    MovedLastKept(items, i, ItemIdentity);
    ItemsMoved(records, i, existing, idOf);
    ItemsSort(moved, existing, idOf);
    ItemLeIsPreorder();
    SortKeepsLast(ItemsOf(moved, existing, idOf), ItemIdentity, ItemLe);
  }

  lemma {:induction false} OrderFreeAgrees(
      records: seq<SourceRecord>, existingIds: seq<string>, idOf: EvidenceIdOf, ok: IsTimestamp)
    requires OrderFree(records, existingIds, idOf, ok) && Propose(records, existingIds, idOf, ok).Some?
    ensures SameIdentitySameItem(records, ToSet(existingIds), idOf)
  {
    var existing := ToSet(existingIds);
    forall x, y | x in records && y in records && IdentityOf(x) == IdentityOf(y)
      ensures ItemOf(x, existing, idOf) == ItemOf(y, existing, idOf)
    {
      var i :| 0 <= i < |records| && records[i] == x;
      var k :| 0 <= k < |records| && records[k] == y;
      LastRecordShows(records, i, existing, idOf);
      LastRecordShows(records, k, existing, idOf);
      assert Propose(MovedLast(records, i), existingIds, idOf, ok)
          == Propose(MovedLast(records, k), existingIds, idOf, ok);
    }
  }

  /** Every order gives one result exactly when there is none or records of one identity come out as one item. */
  lemma {:induction false} OrderFreeIff(
      records: seq<SourceRecord>, existingIds: seq<string>, idOf: EvidenceIdOf, ok: IsTimestamp)
    ensures OrderFree(records, existingIds, idOf, ok)
       <==> (Propose(records, existingIds, idOf, ok).Some? ==> SameIdentitySameItem(records, ToSet(existingIds), idOf))
  {
    if Propose(records, existingIds, idOf, ok).Some? ==> SameIdentitySameItem(records, ToSet(existingIds), idOf) {
      forall other | multiset(other) == multiset(records)
        ensures Propose(other, existingIds, idOf, ok) == Propose(records, existingIds, idOf, ok)
      {
        AgreeingRecordsAreOrderFree(records, other, existingIds, idOf, ok);
      }
    } else if OrderFree(records, existingIds, idOf, ok) {
      OrderFreeAgrees(records, existingIds, idOf, ok);
    }
  }
}
