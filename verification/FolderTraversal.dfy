/**
  Validation of folder-traversal evidence: record checks, parent/child closure, the stack
  traversal, and the fail-closed readiness flags.
 */
module FolderTraversal {
  import opened Common

  datatype FolderRecord = FolderRecord(
    folderId: string, title: string, parentId: Option<string>, childIds: seq<string>,
    listingComplete: bool, unconsumedPageTokens: int, inaccessibleChildIds: seq<string>)

  /** The evidence object without its own digest, which is what the digest covers. */
  datatype Evidence = Evidence(
    schemaVersion: string, capturedOn: string, evidenceBasis: string, sourceRootId: string,
    folderTraversalComplete: bool, itemInventoryComplete: bool, fileContentChecksumsComplete: bool,
    folders: seq<FolderRecord>, sourceEvidenceSha256: Option<string>)

  datatype Payload = Payload(evidence: Evidence, folderTreeSha256: string)

  type Sha256 = Evidence -> string

  datatype Error =
    | WrongSchemaVersion
    | SourceRootRequired
    | NoFolders
    | FolderIdRequired
    | DuplicateFolderId(folderId: string)
    | TitleRequired(folderId: string)
    | InvalidParentId(folderId: string)
    | InvalidChildIds(folderId: string)
    | DuplicateChildIds(folderId: string)
    | InvalidInaccessibleIds(folderId: string)
    | DuplicateInaccessibleIds(folderId: string)
    | NegativePageTokens(folderId: string)
    | SourceRootMissing
    | SourceRootHasParent
    | MissingParent(folderId: string)
    | ParentDoesNotList(folderId: string)
    | UnknownChild(folderId: string, childId: string)
    | ChildParentMismatch(folderId: string, childId: string)
    | CycleOrDuplicatePath(folderId: string)
    | UnreachableRecords
    | IncompleteTraversalClaimedComplete
    | InventoryBeforeTraversal
    | InventoryWithoutChecksums
    | ChecksumsBeforeInventory
    | InvalidDigest
    | DigestMismatch
    | MalformedCompactNode
    | DuplicateCompactId(folderId: string)
    | CompactRootMismatch

  datatype ReadinessStatus = CompleteForPromotion | InventoryIncomplete | TraversalIncomplete

  datatype Report = Report(
    status: ReadinessStatus, sourceRootId: string, folderCount: nat, leafFolderCount: nat,
    maxDepth: nat, unconsumedPageTokens: int, inaccessibleChildIds: set<string>,
    incompleteListingFolderIds: set<string>, folderTreeSha256: string, promotionReady: bool)

  // --- Record checks ---------------------------------------------------------------------

  type Folders = map<string, FolderRecord>

  function FolderMap(records: seq<FolderRecord>, n: nat): Folders
    requires n <= |records|
  {
    if n == 0 then map[]
    else FolderMap(records, n - 1)[records[n - 1].folderId := records[n - 1]]
  }

  predicate NonBlankIds(ids: seq<string>) {
    forall i :: 0 <= i < |ids| ==> !Blank(ids[i])
  }

  function RecordFault(r: FolderRecord, earlier: Folders): Option<Error> {
    if Blank(r.folderId) then Some(FolderIdRequired)
    else if r.folderId in earlier then Some(DuplicateFolderId(r.folderId))
    else if Blank(r.title) then Some(TitleRequired(r.folderId))
    else if r.parentId.Some? && Blank(r.parentId.value) then Some(InvalidParentId(r.folderId))
    else if !NonBlankIds(r.childIds) then Some(InvalidChildIds(r.folderId))
    else if !Distinct(r.childIds) then Some(DuplicateChildIds(r.folderId))
    else if !NonBlankIds(r.inaccessibleChildIds) then Some(InvalidInaccessibleIds(r.folderId))
    else if !Distinct(r.inaccessibleChildIds) then Some(DuplicateInaccessibleIds(r.folderId))
    else if r.unconsumedPageTokens < 0 then Some(NegativePageTokens(r.folderId))
    else None
  }

  function FirstRecordFault(records: seq<FolderRecord>, n: nat): Option<Error>
    requires n <= |records|
  {
    if n == 0 then None
    else if FirstRecordFault(records, n - 1).Some? then FirstRecordFault(records, n - 1)
    else RecordFault(records[n - 1], FolderMap(records, n - 1))
  }

  method CollectFolders(records: seq<FolderRecord>) returns (folders: Folders, fault: Option<Error>)
    ensures fault == FirstRecordFault(records, |records|)
    ensures fault.None? ==> folders == FolderMap(records, |records|)
  {
    folders := map[];
    for i := 0 to |records|
      invariant FirstRecordFault(records, i).None?
      invariant folders == FolderMap(records, i)
    {
      fault := RecordFault(records[i], folders);
      if fault.Some? {
        FirstFaultStands(records, i + 1, |records|);
        return;
      }
      folders := folders[records[i].folderId := records[i]];
    }
    fault := None;
  }

  lemma {:induction false} FirstFaultStands(records: seq<FolderRecord>, i: nat, n: nat)
    requires i <= n <= |records| && FirstRecordFault(records, i).Some?
    ensures FirstRecordFault(records, n) == FirstRecordFault(records, i)
  {
    if i < n {
      FirstFaultStands(records, i, n - 1);
    }
  }

  // --- Parent/child closure --------------------------------------------------------------

  function ParentFault(folders: Folders, root: string, r: FolderRecord): Option<Error> {
    if r.folderId == root then None
    else if r.parentId.None? || r.parentId.value !in folders then Some(MissingParent(r.folderId))
    else if r.folderId !in folders[r.parentId.value].childIds then Some(ParentDoesNotList(r.folderId))
    else None
  }

  function ChildFault(folders: Folders, r: FolderRecord, childId: string): Option<Error> {
    if childId !in folders then Some(UnknownChild(r.folderId, childId))
    else if folders[childId].parentId != Some(r.folderId) then Some(ChildParentMismatch(r.folderId, childId))
    else None
  }

  function ChildrenFault(folders: Folders, r: FolderRecord, n: nat): Option<Error>
    requires n <= |r.childIds|
  {
    if n == 0 then None
    else if ChildrenFault(folders, r, n - 1).Some? then ChildrenFault(folders, r, n - 1)
    else ChildFault(folders, r, r.childIds[n - 1])
  }

  function LinkFault(folders: Folders, root: string, r: FolderRecord): Option<Error> {
    if ParentFault(folders, root, r).Some? then ParentFault(folders, root, r)
    else ChildrenFault(folders, r, |r.childIds|)
  }

  function FirstLinkFault(folders: Folders, root: string, records: seq<FolderRecord>, n: nat): Option<Error>
    requires n <= |records|
  {
    if n == 0 then None
    else if FirstLinkFault(folders, root, records, n - 1).Some? then FirstLinkFault(folders, root, records, n - 1)
    else LinkFault(folders, root, records[n - 1])
  }

  method CheckLinks(folders: Folders, root: string, records: seq<FolderRecord>) returns (fault: Option<Error>)
    ensures fault == FirstLinkFault(folders, root, records, |records|)
  {
    for i := 0 to |records|
      invariant FirstLinkFault(folders, root, records, i).None?
    {
      var record := records[i];
      fault := ParentFault(folders, root, record);
      if fault.Some? {
        FirstLinkFaultStands(folders, root, records, i + 1, |records|);
        return;
      }
      for j := 0 to |record.childIds|
        invariant ChildrenFault(folders, record, j).None?
      {
        fault := ChildFault(folders, record, record.childIds[j]);
        if fault.Some? {
          ChildrenFaultStands(folders, record, j + 1, |record.childIds|);
          FirstLinkFaultStands(folders, root, records, i + 1, |records|);
          return;
        }
      }
    }
    fault := None;
  }

  lemma {:induction false} ChildrenFaultStands(folders: Folders, r: FolderRecord, i: nat, n: nat)
    requires i <= n <= |r.childIds| && ChildrenFault(folders, r, i).Some?
    ensures ChildrenFault(folders, r, n) == ChildrenFault(folders, r, i)
  {
    if i < n {
      ChildrenFaultStands(folders, r, i, n - 1);
    }
  }

  lemma {:induction false} FirstLinkFaultStands(
      folders: Folders, root: string, records: seq<FolderRecord>, i: nat, n: nat)
    requires i <= n <= |records| && FirstLinkFault(folders, root, records, i).Some?
    ensures FirstLinkFault(folders, root, records, n) == FirstLinkFault(folders, root, records, i)
  {
    if i < n {
      FirstLinkFaultStands(folders, root, records, i, n - 1);
    }
  }

  // --- The stack traversal ---------------------------------------------------------------

  datatype Entry = Entry(folderId: string, depth: nat)

  datatype TraversalOutcome = Revisited(folderId: string) | Finished(reached: set<string>, maxDepth: nat)

  predicate ChildrenKnown(folders: Folders) {
    forall id, c :: id in folders && c in folders[id].childIds ==> c in folders
  }

  predicate AllKnown(folders: Folders, stack: seq<Entry>) {
    forall i :: 0 <= i < |stack| ==> stack[i].folderId in folders
  }

  function ChildEntries(childIds: seq<string>, depth: nat): (r: seq<Entry>)
    ensures |r| == |childIds|
    ensures forall i :: 0 <= i < |r| ==> r[i] == Entry(childIds[i], depth)
  {
    seq(|childIds|, i requires 0 <= i < |childIds| => Entry(childIds[i], depth))
  }

  function Max(a: nat, b: nat): nat {
    if a < b then b else a
  }

  /** What the while loop computes from a stack, a reached set and a depth. */
  function TraverseFrom(folders: Folders, stack: seq<Entry>, reached: set<string>, maxDepth: nat): TraversalOutcome
    requires ChildrenKnown(folders) && AllKnown(folders, stack)
    decreases folders.Keys - reached
  {
    if stack == [] then Finished(reached, maxDepth)
    else
      var top := stack[|stack| - 1];
      if top.folderId in reached then Revisited(top.folderId)
      else
        TraverseFrom(folders,
                     stack[..|stack| - 1] + ChildEntries(folders[top.folderId].childIds, top.depth + 1),
                     reached + {top.folderId}, Max(maxDepth, top.depth))
  }

  method Traverse(folders: Folders, root: string) returns (outcome: TraversalOutcome)
    requires ChildrenKnown(folders) && root in folders
    ensures outcome == TraverseFrom(folders, [Entry(root, 0)], {}, 0)
  {
    var reached: set<string> := {};
    var stack := [Entry(root, 0)];
    var maxDepth := 0;
    while stack != []
      invariant AllKnown(folders, stack)
      invariant TraverseFrom(folders, stack, reached, maxDepth) == TraverseFrom(folders, [Entry(root, 0)], {}, 0)
      decreases folders.Keys - reached
    {
      var top := stack[|stack| - 1];
      stack := stack[..|stack| - 1];
      if top.folderId in reached {
        return Revisited(top.folderId);
      }
      reached := reached + {top.folderId};
      maxDepth := Max(maxDepth, top.depth);
      stack := stack + ChildEntries(folders[top.folderId].childIds, top.depth + 1);
    }
    outcome := Finished(reached, maxDepth);
  }

  // --- The whole validator ---------------------------------------------------------------

  function TotalTokens(records: seq<FolderRecord>): int {
    if records == [] then 0
    else TotalTokens(records[..|records| - 1]) + records[|records| - 1].unconsumedPageTokens
  }

  function Inaccessible(records: seq<FolderRecord>): set<string> {
    set i, j | 0 <= i < |records| && 0 <= j < |records[i].inaccessibleChildIds| :: records[i].inaccessibleChildIds[j]
  }

  function IncompleteListings(records: seq<FolderRecord>): set<string> {
    set i | 0 <= i < |records| && !records[i].listingComplete :: records[i].folderId
  }

  predicate IsLeaf(r: FolderRecord) { r.childIds == [] }

  function FlagFault(e: Evidence): Option<Error> {
    if e.folderTraversalComplete
       && (TotalTokens(e.folders) != 0 || Inaccessible(e.folders) != {} || IncompleteListings(e.folders) != {})
    then Some(IncompleteTraversalClaimedComplete)
    else if e.itemInventoryComplete && !e.folderTraversalComplete then Some(InventoryBeforeTraversal)
    else if e.itemInventoryComplete && !e.fileContentChecksumsComplete then Some(InventoryWithoutChecksums)
    else if e.fileContentChecksumsComplete && !e.itemInventoryComplete then Some(ChecksumsBeforeInventory)
    else None
  }

  function DigestFault(p: Payload, sha: Sha256): Option<Error> {
    if |p.folderTreeSha256| != 64 then Some(InvalidDigest)
    else if sha(p.evidence) != p.folderTreeSha256 then Some(DigestMismatch)
    else None
  }

  function MakeReport(p: Payload, maxDepth: nat): Report {
    var e := p.evidence;
    var ready := e.folderTraversalComplete && e.itemInventoryComplete && e.fileContentChecksumsComplete;
    Report(
      if ready then CompleteForPromotion
      else if e.folderTraversalComplete then InventoryIncomplete
      else TraversalIncomplete,
      e.sourceRootId, |FolderMap(e.folders, |e.folders|)|, CountIf(e.folders, IsLeaf), maxDepth,
      TotalTokens(e.folders), Inaccessible(e.folders), IncompleteListings(e.folders),
      p.folderTreeSha256, ready)
  }

  /** Root present, root parentless, every link checked in both directions. */
  function StructureFault(e: Evidence): Option<Error> {
    var folders := FolderMap(e.folders, |e.folders|);
    if e.sourceRootId !in folders then Some(SourceRootMissing)
    else if folders[e.sourceRootId].parentId.Some? then Some(SourceRootHasParent)
    else FirstLinkFault(folders, e.sourceRootId, e.folders, |e.folders|)
  }

  method ValidateFolderTraversal(p: Payload, sha: Sha256) returns (r: Result<Report, Error>)
    ensures r == Validate(p, sha)
  {
    var e := p.evidence;
    if e.schemaVersion != "1.0" { return Err(WrongSchemaVersion); }
    if Blank(e.sourceRootId) { return Err(SourceRootRequired); }
    if e.folders == [] { return Err(NoFolders); }
    var folders, recordFault := CollectFolders(e.folders);
    if recordFault.Some? { return Err(recordFault.value); }
    if e.sourceRootId !in folders { return Err(SourceRootMissing); }
    if folders[e.sourceRootId].parentId.Some? { return Err(SourceRootHasParent); }
    var linkFault := CheckLinks(folders, e.sourceRootId, e.folders);
    if linkFault.Some? { return Err(linkFault.value); }
    AcceptedLinksKnown(e);
    var outcome := Traverse(folders, e.sourceRootId);
    if outcome.Revisited? { return Err(CycleOrDuplicatePath(outcome.folderId)); }
    if outcome.reached != folders.Keys { return Err(UnreachableRecords); }
    var flagFault := FlagFault(e);
    if flagFault.Some? { return Err(flagFault.value); }
    var digestFault := DigestFault(p, sha);
    if digestFault.Some? { return Err(digestFault.value); }
    r := Ok(MakeReport(p, outcome.maxDepth));
  }

  function Validate(p: Payload, sha: Sha256): Result<Report, Error> {
    var e := p.evidence;
    if e.schemaVersion != "1.0" then Err(WrongSchemaVersion)
    else if Blank(e.sourceRootId) then Err(SourceRootRequired)
    else if e.folders == [] then Err(NoFolders)
    else if FirstRecordFault(e.folders, |e.folders|).Some? then Err(FirstRecordFault(e.folders, |e.folders|).value)
    else if StructureFault(e).Some? then Err(StructureFault(e).value)
    else
      AcceptedLinksKnown(e);
      var folders := FolderMap(e.folders, |e.folders|);
      var outcome := TraverseFrom(folders, [Entry(e.sourceRootId, 0)], {}, 0);
      if outcome.Revisited? then Err(CycleOrDuplicatePath(outcome.folderId))
      else if outcome.reached != folders.Keys then Err(UnreachableRecords)
      else if FlagFault(e).Some? then Err(FlagFault(e).value)
      else if DigestFault(p, sha).Some? then Err(DigestFault(p, sha).value)
      else Ok(MakeReport(p, outcome.maxDepth))
  }

  // --- What the checks establish ---------------------------------------------------------

  function IdsOf(records: seq<FolderRecord>): (r: seq<string>)
    ensures |r| == |records|
    ensures forall i :: 0 <= i < |r| ==> r[i] == records[i].folderId
  {
    seq(|records|, i requires 0 <= i < |records| => records[i].folderId)
  }

  /** The map built from the records holds exactly the records, each under its own id. */
  ghost predicate Indexes(folders: Folders, records: seq<FolderRecord>, n: nat)
    requires n <= |records|
  {
    && (forall i :: 0 <= i < n ==> records[i].folderId in folders && folders[records[i].folderId] == records[i])
    && (forall id :: id in folders ==> exists i :: 0 <= i < n && records[i].folderId == id)
  }

  lemma {:induction false} LastIdIsNew(records: seq<FolderRecord>, n: nat)
    requires 0 < n <= |records| && Distinct(IdsOf(records))
    ensures forall i :: 0 <= i < n - 1 ==> records[i].folderId != records[n - 1].folderId
  {
    forall i | 0 <= i < n - 1 ensures records[i].folderId != records[n - 1].folderId {
      assert IdsOf(records)[i] != IdsOf(records)[n - 1];
    }
  }

  lemma {:induction false} IndexesGrow(folders: Folders, records: seq<FolderRecord>, n: nat)
    requires 0 < n <= |records| && Indexes(folders, records, n - 1)
    requires forall i :: 0 <= i < n - 1 ==> records[i].folderId != records[n - 1].folderId
    ensures records[n - 1].folderId !in folders
    ensures Indexes(folders[records[n - 1].folderId := records[n - 1]], records, n)
  {
  }

  lemma {:induction false} DistinctRecordsIndexed(records: seq<FolderRecord>, n: nat)
    requires n <= |records| && Distinct(IdsOf(records))
    ensures Indexes(FolderMap(records, n), records, n)
    ensures |FolderMap(records, n)| == n
  {
    if n > 0 {
      DistinctRecordsIndexed(records, n - 1);
      LastIdIsNew(records, n);
      IndexesGrow(FolderMap(records, n - 1), records, n);
    }
  }

  lemma {:induction false} FolderMapKeys(records: seq<FolderRecord>, n: nat, i: nat)
    requires i < n <= |records|
    ensures records[i].folderId in FolderMap(records, n)
  {
    if i < n - 1 {
      FolderMapKeys(records, n - 1, i);
    }
  }

  lemma {:induction false} FaultFreePrefix(records: seq<FolderRecord>, i: nat, n: nat)
    requires i < n <= |records| && FirstRecordFault(records, n).None?
    ensures RecordFault(records[i], FolderMap(records, i)).None?
  {
    if i < n - 1 {
      FaultFreePrefix(records, i, n - 1);
    }
  }

  lemma {:induction false} NoRecordFault(records: seq<FolderRecord>)
    requires FirstRecordFault(records, |records|).None?
    ensures Distinct(IdsOf(records))
    ensures forall i :: 0 <= i < |records| ==> Distinct(records[i].childIds)
  {
    forall j | 0 <= j < |records| ensures Distinct(records[j].childIds) {
      FaultFreePrefix(records, j, |records|);
    }
    forall i, j | 0 <= i < j < |records| ensures IdsOf(records)[i] != IdsOf(records)[j] {
      FaultFreePrefix(records, j, |records|);
      FolderMapKeys(records, j, i);
    }
  }

  lemma {:induction false} NoChildrenFault(folders: Folders, r: FolderRecord, n: nat)
    requires n <= |r.childIds|
    ensures ChildrenFault(folders, r, n).None?
       <==> forall j :: 0 <= j < n ==> ChildFault(folders, r, r.childIds[j]).None?
  {
    if n > 0 {
      NoChildrenFault(folders, r, n - 1);
    }
  }

  lemma {:induction false} NoLinkFault(folders: Folders, root: string, records: seq<FolderRecord>, n: nat)
    requires n <= |records|
    ensures FirstLinkFault(folders, root, records, n).None?
       <==> forall i :: 0 <= i < n ==> LinkFault(folders, root, records[i]).None?
  {
    if n > 0 {
      NoLinkFault(folders, root, records, n - 1);
    }
  }

  /** A record hangs off a parent that lists it, and each child it lists points back to it. */
  ghost predicate Linked(folders: Folders, root: string, id: string) {
    id in folders ==>
      && (id != root ==>
            && folders[id].parentId.Some?
            && folders[id].parentId.value in folders
            && id in folders[folders[id].parentId.value].childIds)
      && (forall c :: c in folders[id].childIds ==> c in folders && folders[c].parentId == Some(id))
      && Distinct(folders[id].childIds)
  }

  /** Parent pointers and child lists are inverse to each other, and only the root has no parent. */
  ghost predicate Closed(folders: Folders, root: string) {
    && root in folders && folders[root].parentId.None?
    && forall id :: Linked(folders, root, id)
  }

  lemma {:induction false} LinkFaultMeaning(folders: Folders, root: string, r: FolderRecord)
    requires r.folderId in folders && folders[r.folderId] == r && Distinct(r.childIds)
    ensures LinkFault(folders, root, r).None? <==> Linked(folders, root, r.folderId)
  {
    NoChildrenFault(folders, r, |r.childIds|);
  }

  /** The checks before the traversal accept exactly the closed record sets. */
  lemma {:induction false} LinkedRecordsLinkAll(folders: Folders, root: string, records: seq<FolderRecord>)
    requires Indexes(folders, records, |records|)
    ensures (forall i :: 0 <= i < |records| ==> Linked(folders, root, records[i].folderId))
       <==> (forall id :: id in folders ==> Linked(folders, root, id))
  {
    if forall i :: 0 <= i < |records| ==> Linked(folders, root, records[i].folderId) {
      forall id | id in folders ensures Linked(folders, root, id) {
        var i :| 0 <= i < |records| && records[i].folderId == id;
      }
    }
  }

  lemma {:induction false} StructureAcceptedIffClosed(e: Evidence)
    requires Distinct(IdsOf(e.folders))
    requires forall i :: 0 <= i < |e.folders| ==> Distinct(e.folders[i].childIds)
    ensures StructureFault(e).None? <==> Closed(FolderMap(e.folders, |e.folders|), e.sourceRootId)
  {
    var records, root := e.folders, e.sourceRootId;
    var folders := FolderMap(records, |records|);
    DistinctRecordsIndexed(records, |records|);
    NoLinkFault(folders, root, records, |records|);
    forall i | 0 <= i < |records|
      ensures LinkFault(folders, root, records[i]).None? <==> Linked(folders, root, records[i].folderId)
    {
      LinkFaultMeaning(folders, root, records[i]);
    }
    LinkedRecordsLinkAll(folders, root, records);
  }

  lemma {:induction false} AcceptedIsClosed(e: Evidence)
    requires FirstRecordFault(e.folders, |e.folders|).None? && StructureFault(e).None?
    ensures Closed(FolderMap(e.folders, |e.folders|), e.sourceRootId)
  {
    NoRecordFault(e.folders);
    StructureAcceptedIffClosed(e);
  }

  lemma {:induction false} AcceptedLinksKnown(e: Evidence)
    requires FirstRecordFault(e.folders, |e.folders|).None? && StructureFault(e).None?
    ensures
      var folders := FolderMap(e.folders, |e.folders|);
      e.sourceRootId in folders && ChildrenKnown(folders)
  {
    AcceptedIsClosed(e);
    var folders := FolderMap(e.folders, |e.folders|);
    forall id, c | id in folders && c in folders[id].childIds ensures c in folders {
      assert Linked(folders, e.sourceRootId, id);
    }
  }
}
