/** When folder evidence is accepted, in its own fields, and what the report then says. */
module FolderReport {
  import opened Common
  import opened FolderTraversal
  import opened FolderReachability
  import opened FolderTree
  import opened FolderTreeGuarantees

  // --- Acceptance ------------------------------------------------------------------------

  predicate AllNonBlank(ids: seq<string>) {
    forall x :: x in ids ==> !Blank(x)
  }

  /** What each record must be on its own. */
  predicate AcceptableRecord(r: FolderRecord) {
    && !Blank(r.folderId) && !Blank(r.title)
    && (r.parentId.Some? ==> !Blank(r.parentId.value))
    && AllNonBlank(r.childIds) && Distinct(r.childIds)
    && AllNonBlank(r.inaccessibleChildIds) && Distinct(r.inaccessibleChildIds)
    && r.unconsumedPageTokens >= 0
  }

  /** Nothing about the folder is left to be listed. */
  predicate FullyListed(r: FolderRecord) {
    r.listingComplete && r.unconsumedPageTokens == 0 && r.inaccessibleChildIds == []
  }

  /** The flags claim no more than the records and each other allow. */
  ghost predicate FlagsAllowed(e: Evidence) {
    && (e.folderTraversalComplete ==> forall r :: r in e.folders ==> FullyListed(r))
    && (e.itemInventoryComplete ==> e.folderTraversalComplete)
    && (e.itemInventoryComplete <==> e.fileContentChecksumsComplete)
  }

  lemma {:induction false} RecordAcceptedIff(r: FolderRecord)
    ensures RecordFault(r, map[]).None? <==> AcceptableRecord(r)
  {
    assert NonBlankIds(r.childIds) <==> AllNonBlank(r.childIds);
    assert NonBlankIds(r.inaccessibleChildIds) <==> AllNonBlank(r.inaccessibleChildIds);
  }

  lemma {:induction false} RecordsAcceptedIff(records: seq<FolderRecord>)
    ensures WellFormedRecords(records)
       <==> Distinct(IdsOf(records)) && forall r :: r in records ==> AcceptableRecord(r)
  {
    forall i | 0 <= i < |records| ensures RecordFault(records[i], map[]).None? <==> AcceptableRecord(records[i]) {
      RecordAcceptedIff(records[i]);
    }
  }

  lemma {:induction false} TokensZeroIff(records: seq<FolderRecord>)
    requires forall r :: r in records ==> r.unconsumedPageTokens >= 0
    ensures TotalTokens(records) >= 0
    ensures TotalTokens(records) == 0 <==> forall r :: r in records ==> r.unconsumedPageTokens == 0
  {
    if records != [] {
      var front, last := records[..|records| - 1], records[|records| - 1];
      assert records == front + [last];
      TokensZeroIff(front);
    }
  }

  lemma {:induction false} InaccessibleMeaning(records: seq<FolderRecord>)
    ensures forall x :: x in Inaccessible(records) <==> exists r :: r in records && x in r.inaccessibleChildIds
    ensures Inaccessible(records) == {} <==> forall r :: r in records ==> r.inaccessibleChildIds == []
  {
    forall r, x | r in records && x in r.inaccessibleChildIds ensures x in Inaccessible(records) {
      var i :| 0 <= i < |records| && records[i] == r;
      var j :| 0 <= j < |r.inaccessibleChildIds| && r.inaccessibleChildIds[j] == x;
      assert records[i].inaccessibleChildIds[j] == x;
    }
    if r :| r in records && r.inaccessibleChildIds != [] {
      assert r.inaccessibleChildIds[0] in Inaccessible(records);
    }
  }

  lemma {:induction false} IncompleteMeaning(records: seq<FolderRecord>)
    ensures forall x :: x in IncompleteListings(records)
                   <==> exists r :: r in records && !r.listingComplete && r.folderId == x
    ensures IncompleteListings(records) == {} <==> forall r :: r in records ==> r.listingComplete
  {
    forall r | r in records && !r.listingComplete ensures r.folderId in IncompleteListings(records) {
      var i :| 0 <= i < |records| && records[i] == r;
    }
  }

  lemma {:induction false} FlagsAllowedIff(e: Evidence)
    requires forall r :: r in e.folders ==> r.unconsumedPageTokens >= 0
    ensures FlagFault(e).None? <==> FlagsAllowed(e)
  {
    TokensZeroIff(e.folders);
    InaccessibleMeaning(e.folders);
    IncompleteMeaning(e.folders);
  }

  /** The whole validator in the payload's own fields. */
  lemma {:induction false} AcceptedExactly(p: Payload, sha: Sha256)
    ensures
      var e := p.evidence;
      Validate(p, sha).Ok?
      <==> && e.schemaVersion == "1.0" && !Blank(e.sourceRootId)
           && Distinct(IdsOf(e.folders)) && (forall r :: r in e.folders ==> AcceptableRecord(r))
           && RootedTree(FolderMap(e.folders, |e.folders|), e.sourceRootId)
           && FlagsAllowed(e)
           && |p.folderTreeSha256| == 64 && sha(e) == p.folderTreeSha256
  {
    var e := p.evidence;
    AcceptedIffRootedTree(p, sha);
    RecordsAcceptedIff(e.folders);
    if WellFormedRecords(e.folders) {
      assert forall r :: r in e.folders ==> AcceptableRecord(r);
      FlagsAllowedIff(e);
    }
  }

  // --- The report ------------------------------------------------------------------------

  predicate AllFlags(e: Evidence) {
    e.folderTraversalComplete && e.itemInventoryComplete && e.fileContentChecksumsComplete
  }

  /** Readiness and status are decided by the flags, the figures by the records. */
  ghost predicate ReportsOn(r: Report, p: Payload) {
    var e := p.evidence;
    && (r.promotionReady <==> AllFlags(e))
    && (r.status == CompleteForPromotion <==> AllFlags(e))
    && (r.status == TraversalIncomplete <==> !e.folderTraversalComplete)
    && r.sourceRootId == e.sourceRootId && r.folderTreeSha256 == p.folderTreeSha256
    && r.folderCount == |e.folders|
    && r.leafFolderCount == CountIf(e.folders, IsLeaf)
    && r.unconsumedPageTokens == TotalTokens(e.folders)
  }

  /** The id sets are those of the records that are not fully listed. */
  ghost predicate ListsOpenFolders(r: Report, records: seq<FolderRecord>) {
    && (forall x :: x in r.inaccessibleChildIds <==> exists f :: f in records && x in f.inaccessibleChildIds)
    && (forall x :: x in r.incompleteListingFolderIds
               <==> exists f :: f in records && !f.listingComplete && f.folderId == x)
  }

  lemma {:induction false} ReportShape(p: Payload, sha: Sha256)
    requires Validate(p, sha).Ok?
    ensures ReportsOn(Validate(p, sha).value, p)
    ensures Validate(p, sha).value.inaccessibleChildIds == Inaccessible(p.evidence.folders)
    ensures Validate(p, sha).value.incompleteListingFolderIds == IncompleteListings(p.evidence.folders)
  {
    AcceptedIffRootedTree(p, sha);
  }

  lemma {:induction false} ReportMeaning(p: Payload, sha: Sha256)
    requires Validate(p, sha).Ok?
    ensures ReportsOn(Validate(p, sha).value, p)
    ensures ListsOpenFolders(Validate(p, sha).value, p.evidence.folders)
  {
    ReportShape(p, sha);
    InaccessibleMeaning(p.evidence.folders);
    IncompleteMeaning(p.evidence.folders);
  }

  /** An accepted report of a complete traversal has nothing left open, and readiness is all or nothing. */
  lemma {:induction false} CompleteMeansNothingOpen(p: Payload, sha: Sha256)
    requires Validate(p, sha).Ok? && p.evidence.folderTraversalComplete
    ensures
      var r := Validate(p, sha).value;
      && r.unconsumedPageTokens == 0 && r.inaccessibleChildIds == {} && r.incompleteListingFolderIds == {}
      && (r.promotionReady <==> p.evidence.itemInventoryComplete)
  {
    AcceptedExactly(p, sha);
    TokensZeroIff(p.evidence.folders);
    InaccessibleMeaning(p.evidence.folders);
    IncompleteMeaning(p.evidence.folders);
  }

  /** What a report of a compact tree says: nothing is left open, and readiness is decided by the flags. */
  lemma {:induction false} CompactReport(
      p: CompactPayload, csha: CompactSha256, sha: Sha256, inventory: InventoryAnswer)
    requires LoadExpandAndValidate(p, csha, sha, inventory).Ok?
    ensures
      var e, r := p.evidence, LoadExpandAndValidate(p, csha, sha, inventory).value.report;
      && r.unconsumedPageTokens == 0 && r.inaccessibleChildIds == {} && r.incompleteListingFolderIds == {}
      && r.sourceRootId == e.sourceRootId
      && (r.promotionReady <==>
            e.folderTraversalComplete && e.itemInventoryComplete && e.fileContentChecksumsComplete)
      && (r.status == CompleteForPromotion <==> r.promotionReady)
      && (r.status == TraversalIncomplete <==> !e.folderTraversalComplete)
  {
    ExpandMeaning(p, csha, sha);
    RecordsExpanded(p.evidence.tree, None);
    NoOpenListings(Records(p.evidence.tree, None));
    var expanded := ExpandCompactTree(p, csha, sha).value;
    ReportMeaning(expanded, sha);
  }
}
