/** Which records a migration proposal turns into evidence, and what it says of every record. */
module IntentSelection {
  import opened Common
  import opened Ordering
  import opened IntentMigration

  /** Confirmed, attributable, current, complete evidence of one interpretation in one context. */
  predicate Migratable(r: SourceRecord) {
    && r.attributable && r.confirmed
    && !r.speculative && !r.stale && !r.contradictory && !r.retired
    && r.interpretation.Some? && r.interpretation.value != ""
    && r.occurredAt.Some? && r.occurredAt.value != ""
    && r.context.Some?
  }

  /** What each reason says of a record; `known` is whether its evidence is already there. */
  predicate Because(reason: Reason, r: SourceRecord, known: bool) {
    match reason
    case Speculative => r.speculative
    case Unattributable => !r.attributable
    case Unconfirmed => !r.confirmed
    case Stale => r.stale
    case Contradictory => r.contradictory
    case Retired => r.retired
    case Incomplete =>
      || r.interpretation == None || r.interpretation == Some("")
      || r.occurredAt == None || r.occurredAt == Some("") || r.context == None
    case AlreadyAtDestination => known
    case ConfirmedScopedEvidence => true
  }

  /** Which reason is given when several hold. */
  function Rank(reason: Reason): nat {
    match reason
    case Speculative => 0
    case Unattributable => 1
    case Unconfirmed => 2
    case Stale => 3
    case Contradictory => 4
    case Retired => 5
    case Incomplete => 6
    case AlreadyAtDestination => 7
    case ConfirmedScopedEvidence => 8
  }

  /** The evidence is the record's own interpretation, in its context, at its time. */
  predicate EvidenceFrom(e: Evidence, r: SourceRecord, id: string) {
    && e.evidenceId == id
    && r.context == Some(e.context)
    && r.interpretation == Some(e.confirmedInterpretation) && e.representedBehavior == e.confirmedInterpretation
    && r.occurredAt == Some(e.firstConfirmedAt) && e.lastConfirmedAt == e.firstConfirmedAt
    && e.sourceReference == r.sourceReference && e.sourceDigest == r.sourceDigest
    && e.confirmationCount == 1 && e.confidence == 0.75 && e.inferenceEligible
  }

  /** An item says of its record what the record's own fields say. */
  ghost predicate ItemTells(item: MigrationItem, r: SourceRecord, existingIds: seq<string>, idOf: EvidenceIdOf) {
    var id := idOf((r.sourceSystem, r.sourceRecordId));
    && item.sourceSystem == r.sourceSystem && item.sourceRecordId == r.sourceRecordId
    && item.sourceDigest == r.sourceDigest
    && (item.disposition == Create <==> Migratable(r) && id !in existingIds)
    && (item.proposed.Some? <==> item.disposition == Create)
    && (item.proposed.Some? ==> EvidenceFrom(item.proposed.value, r, id))
    && Because(item.reason, r, id in existingIds)
    && (forall other :: Rank(other) < Rank(item.reason) ==> !Because(other, r, id in existingIds))
  }

  lemma {:induction false} ItemTellsItsRecord(r: SourceRecord, existingIds: seq<string>, idOf: EvidenceIdOf)
    ensures ItemTells(ItemOf(r, ToSet(existingIds), idOf), r, existingIds, idOf)
  {
  }

  /**
    A proposal has one item for every record, ordered by source system and record id, and each item
    is a creation exactly when the record's fields and the known ids allow it, with the first
    reason that holds and the record's own evidence.
   */
  lemma {:induction false} ProposalMeaning(
      records: seq<SourceRecord>, existingIds: seq<string>, idOf: EvidenceIdOf, ok: IsTimestamp)
    returns (ordered: seq<SourceRecord>)
    requires Propose(records, existingIds, idOf, ok).Some?
    ensures multiset(ordered) == multiset(records) && Sorted(ordered, RecordLe)
    ensures
      var items := Propose(records, existingIds, idOf, ok).value.items;
      |items| == |ordered| && forall i :: 0 <= i < |items| ==> ItemTells(items[i], ordered[i], existingIds, idOf)
  {
    RecordLeIsPreorder();
    SortBySorts(records, RecordLe);
    ordered := SortBy(records, RecordLe);
    var items := Propose(records, existingIds, idOf, ok).value.items;
    forall i | 0 <= i < |items| ensures ItemTells(items[i], ordered[i], existingIds, idOf) {
      ItemTellsItsRecord(ordered[i], existingIds, idOf);
    }
  }

  /** A proposal exists exactly when every record to be migrated has a usable timestamp. */
  lemma {:induction false} ExistsExactly(
      records: seq<SourceRecord>, existingIds: seq<string>, idOf: EvidenceIdOf, ok: IsTimestamp)
    ensures Propose(records, existingIds, idOf, ok).Some?
       <==> forall r :: r in records && Migratable(r) && idOf((r.sourceSystem, r.sourceRecordId)) !in existingIds
                        ==> ok(r.occurredAt.value)
  {
    ProposalExistsIff(records, existingIds, idOf, ok);
    if forall r :: r in records && Migratable(r) && idOf((r.sourceSystem, r.sourceRecordId)) !in existingIds
                   ==> ok(r.occurredAt.value)
    {
      forall i | 0 <= i < |records| && Creates(records[i], ToSet(existingIds), idOf)
        ensures records[i].occurredAt.Some? && ok(records[i].occurredAt.value)
      {
        assert records[i] in records;
      }
    }
  }

  /** Speculative, unattributable, unconfirmed, stale, contradictory and retired records never become evidence. */
  lemma {:induction false} NeverMigrated(
      records: seq<SourceRecord>, existingIds: seq<string>, idOf: EvidenceIdOf, ok: IsTimestamp)
    requires forall r :: r in records ==>
      r.speculative || !r.attributable || !r.confirmed || r.stale || r.contradictory || r.retired
    ensures Propose(records, existingIds, idOf, ok).Some?
    ensures Propose(records, existingIds, idOf, ok).value.createCount == 0
    ensures CreatedEvidence(Propose(records, existingIds, idOf, ok).value.items) == []
  {
    ExistsExactly(records, existingIds, idOf, ok);
    var ordered := ProposalMeaning(records, existingIds, idOf, ok);
    SameMembers(ordered, records);
    var items := Propose(records, existingIds, idOf, ok).value.items;
    forall i | 0 <= i < |items| ensures !IsCreate(items[i]) && items[i].proposed.None? {
      assert ordered[i] in ordered;
      assert ItemTells(items[i], ordered[i], existingIds, idOf);
    }
    CountIfZero(items, IsCreate);
    NothingCreated(items);
  }

  lemma {:induction false} NothingCreated(items: seq<MigrationItem>)
    requires forall i :: 0 <= i < |items| ==> items[i].proposed.None?
    ensures CreatedEvidence(items) == []
  {
    if items != [] {
      assert forall i :: 0 <= i < |items| - 1 ==> items[..|items| - 1][i] == items[i];
      NothingCreated(items[..|items| - 1]);
    }
  }

  /** The entry is of one of the records. */
  ghost predicate EntryAmong(records: seq<SourceRecord>, entry: Snapshot) {
    exists r :: r in records && entry == ((r.sourceSystem, r.sourceRecordId), r.sourceDigest)
  }

  lemma {:induction false} SnapshotMembers(records: seq<SourceRecord>)
    ensures forall entry :: entry in SnapshotOf(records) <==> EntryAmong(records, entry)
  {
    if records != [] {
      var front, last := records[..|records| - 1], records[|records| - 1];
      assert records == front + [last];
      assert SnapshotOf(records) == SnapshotOf(front) + [((last.sourceSystem, last.sourceRecordId), last.sourceDigest)];
      SnapshotMembers(front);
    }
  }

  lemma {:induction false} SortedSnapshot(records: seq<SourceRecord>)
    ensures Sorted(SortBy(SnapshotOf(records), SnapshotLe), SnapshotLe)
    ensures forall entry :: entry in SortBy(SnapshotOf(records), SnapshotLe) <==> EntryAmong(records, entry)
  {
    var snapshot := SnapshotOf(records);
    var sorted := SortBy(snapshot, SnapshotLe);
    SnapshotLeIsPreorder();
    SortBySorts(snapshot, SnapshotLe);
    SnapshotMembers(records);
    forall entry ensures entry in sorted <==> EntryAmong(records, entry) {
      assert entry in multiset(sorted) <==> entry in multiset(snapshot);
    }
  }

  /** What the proposal lists beside the items: the records' snapshot and the known ids, both sorted. */
  lemma {:induction false} ListsMeaning(
      records: seq<SourceRecord>, existingIds: seq<string>, idOf: EvidenceIdOf, ok: IsTimestamp)
    requires Propose(records, existingIds, idOf, ok).Some?
    ensures
      var p := Propose(records, existingIds, idOf, ok).value;
      && multiset(p.existingIds) == multiset(existingIds) && Sorted(p.existingIds, StrLe)
      && Sorted(p.inputSnapshot, SnapshotLe)
      && forall entry :: entry in p.inputSnapshot <==> EntryAmong(records, entry)
  {
    StrLeIsPreorder();
    SortBySorts(existingIds, StrLe);
    SortedSnapshot(records);
  }
}
