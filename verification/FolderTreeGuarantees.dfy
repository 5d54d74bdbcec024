/** A compact tree, its expansion and the validator's report describe one and the same tree. */
module FolderTreeGuarantees {
  import opened Common
  import opened FolderTraversal
  import opened FolderReachability
  import opened FolderTree

  // --- Trees, their ids and their records ------------------------------------------------

  predicate TreeOk(node: Node) {
    NodeOk(node) && forall i :: 0 <= i < |node.children| ==> TreeOk(node.children[i])
  }

  /** Folder ids in the order the records are appended: children first. */
  function Ids(node: Node): seq<string>
    decreases node, if node.Node? then |node.children| + 1 else 0
  {
    if node.Malformed? then [] else ChildrenIds(node, |node.children|) + [node.folderId]
  }

  function ChildrenIds(node: Node, n: nat): seq<string>
    requires node.Node? && n <= |node.children|
    decreases node, n
  {
    if n == 0 then [] else ChildrenIds(node, n - 1) + Ids(node.children[n - 1])
  }

  function ChildIdsOf(node: Node): seq<string>
    requires TreeOk(node)
  {
    assert forall i :: 0 <= i < |node.children| ==> TreeOk(node.children[i]);
    ChildIds(node, |node.children|)
  }

  function Records(node: Node, parentId: Option<string>): seq<FolderRecord>
    requires TreeOk(node)
    decreases node, if node.Node? then |node.children| + 1 else 0
  {
    ChildrenRecords(node, |node.children|)
    + [MakeRecord(node.folderId, node.title, parentId, ChildIdsOf(node))]
  }

  function ChildrenRecords(node: Node, n: nat): seq<FolderRecord>
    requires TreeOk(node) && n <= |node.children|
    decreases node, n
  {
    if n == 0 then []
    else ChildrenRecords(node, n - 1) + Records(node.children[n - 1], Some(node.folderId))
  }

  function Size(node: Node): nat
    decreases node, if node.Node? then |node.children| + 1 else 0
  {
    if node.Malformed? then 0 else ChildrenSize(node, |node.children|) + 1
  }

  function ChildrenSize(node: Node, n: nat): nat
    requires node.Node? && n <= |node.children|
    decreases node, n
  {
    if n == 0 then 0 else ChildrenSize(node, n - 1) + Size(node.children[n - 1])
  }

  function Leaves(node: Node): nat
    decreases node, if node.Node? then |node.children| + 1 else 0
  {
    if node.Malformed? then 0
    else if node.children == [] then 1
    else ChildrenLeaves(node, |node.children|)
  }

  function ChildrenLeaves(node: Node, n: nat): nat
    requires node.Node? && n <= |node.children|
    decreases node, n
  {
    if n == 0 then 0 else ChildrenLeaves(node, n - 1) + Leaves(node.children[n - 1])
  }

  function Height(node: Node): nat
    decreases node, if node.Node? then |node.children| + 1 else 0
  {
    if node.Malformed? then 0 else ChildrenHeight(node, |node.children|)
  }

  function ChildrenHeight(node: Node, n: nat): nat
    requires node.Node? && n <= |node.children|
    decreases node, n
  {
    if n == 0 then 0 else Max(ChildrenHeight(node, n - 1), Height(node.children[n - 1]) + 1)
  }

  // --- When the visit succeeds, and what it collects -------------------------------------

  predicate Fresh(ids: seq<string>, seen: set<string>) {
    forall x :: x in ids ==> x !in seen
  }

  lemma {:induction false} VisitMeaning(node: Node, parentId: Option<string>, p: Progress)
    ensures Visit(node, parentId, p).Ok? <==> TreeOk(node) && Distinct(Ids(node)) && Fresh(Ids(node), p.seen)
    ensures Visit(node, parentId, p).Ok? ==>
      Visit(node, parentId, p).value == Progress(p.seen + ToSet(Ids(node)), p.folders + Records(node, parentId))
    decreases node, if node.Node? then |node.children| + 1 else 0
  {
    if NodeOk(node) {
      var n := |node.children|;
      var inner := p.(seen := p.seen + {node.folderId});
      VisitChildrenMeaning(node, n, inner);
      DistinctConcat(ChildrenIds(node, n), [node.folderId]);
      assert Fresh(Ids(node), p.seen) && node.folderId !in ChildrenIds(node, n)
        <==> node.folderId !in p.seen && Fresh(ChildrenIds(node, n), inner.seen) by {
        assert node.folderId in Ids(node);
      }
      assert DisjointSeqs(ChildrenIds(node, n), [node.folderId]) <==> node.folderId !in ChildrenIds(node, n) by {
        assert node.folderId in [node.folderId];
      }
      if Visit(node, parentId, p).Ok? {
        assert inner.seen + ToSet(ChildrenIds(node, n)) == p.seen + ToSet(Ids(node));
        assert p.folders + Records(node, parentId) == p.folders + ChildrenRecords(node, n)
          + [MakeRecord(node.folderId, node.title, parentId, ChildIds(node, n))];
      }
    }
  }

  lemma {:induction false} VisitChildrenMeaning(node: Node, n: nat, p: Progress)
    requires NodeOk(node) && n <= |node.children|
    ensures VisitChildren(node, n, p).Ok?
       <==> (forall i :: 0 <= i < n ==> TreeOk(node.children[i]))
            && Distinct(ChildrenIds(node, n)) && Fresh(ChildrenIds(node, n), p.seen)
    ensures VisitChildren(node, n, p).Ok? ==>
      && VisitChildren(node, n, p).value.seen == p.seen + ToSet(ChildrenIds(node, n))
      && (TreeOk(node) ==> VisitChildren(node, n, p).value.folders == p.folders + ChildrenRecords(node, n))
    decreases node, n
  {
    if n > 0 {
      VisitChildrenMeaning(node, n - 1, p);
      var earlier, last := ChildrenIds(node, n - 1), node.children[n - 1];
      DistinctConcat(earlier, Ids(last));
      var r := VisitChildren(node, n - 1, p);
      if r.Ok? {
        VisitMeaning(last, Some(node.folderId), r.value);
        assert Fresh(Ids(last), r.value.seen) <==> Fresh(Ids(last), p.seen) && DisjointSeqs(earlier, Ids(last));
      }
      assert Fresh(ChildrenIds(node, n), p.seen) <==> Fresh(earlier, p.seen) && Fresh(Ids(last), p.seen);
    }
  }

  // --- Children by index -----------------------------------------------------------------

  lemma {:induction false} ChildInside(node: Node, n: nat, k: nat)
    requires TreeOk(node) && k < n <= |node.children|
    ensures forall x :: x in Ids(node.children[k]) ==> x in ChildrenIds(node, n)
    ensures forall r :: r in Records(node.children[k], Some(node.folderId)) ==> r in ChildrenRecords(node, n)
    ensures Distinct(ChildrenIds(node, n)) ==> Distinct(Ids(node.children[k]))
  {
    DistinctConcat(ChildrenIds(node, n - 1), Ids(node.children[n - 1]));
    if k < n - 1 {
      ChildInside(node, n - 1, k);
    }
  }

  lemma {:induction false} ChildrenApart(node: Node, n: nat, j: nat, k: nat)
    requires TreeOk(node) && j < k < n <= |node.children|
    requires Distinct(ChildrenIds(node, n))
    ensures DisjointSeqs(Ids(node.children[j]), Ids(node.children[k]))
  {
    DistinctConcat(ChildrenIds(node, n - 1), Ids(node.children[n - 1]));
    if k < n - 1 {
      ChildrenApart(node, n - 1, j, k);
    } else {
      ChildInside(node, n - 1, j);
    }
  }

  /** The child subtree that holds an id. */
  lemma {:induction false} ChildHolding(node: Node, n: nat, x: string) returns (k: nat)
    requires TreeOk(node) && n <= |node.children| && x in ChildrenIds(node, n)
    ensures k < n && x in Ids(node.children[k])
  {
    if x in Ids(node.children[n - 1]) {
      k := n - 1;
    } else {
      k := ChildHolding(node, n - 1, x);
    }
  }

  lemma {:induction false} RootIdInside(node: Node)
    requires TreeOk(node)
    ensures node.folderId in Ids(node)
  {
  }

  lemma {:induction false} DistinctTreeParts(node: Node)
    requires TreeOk(node) && Distinct(Ids(node))
    ensures Distinct(ChildrenIds(node, |node.children|))
    ensures node.folderId !in ChildrenIds(node, |node.children|)
    ensures Distinct(ChildIdsOf(node))
  {
    var n := |node.children|;
    DistinctConcat(ChildrenIds(node, n), [node.folderId]);
    assert node.folderId in [node.folderId];
    forall j, k | 0 <= j < k < n ensures node.children[j].folderId != node.children[k].folderId {
      ChildrenApart(node, n, j, k);
      RootIdInside(node.children[j]);
      RootIdInside(node.children[k]);
    }
  }

  // --- The expanded records form the tree ------------------------------------------------

  /** The map holds every record of the tree under its own id. */
  ghost predicate Holds(folders: Folders, records: seq<FolderRecord>) {
    forall r :: r in records ==> r.folderId in folders && folders[r.folderId] == r
  }

  /** What the record of `id` says about its neighbours inside the tree. */
  ghost predicate Placed(folders: Folders, node: Node, parentId: Option<string>, id: string)
    requires node.Node?
  {
    && id in folders
    && (if id == node.folderId then folders[id].parentId == parentId
        else && folders[id].parentId.Some?
             && folders[id].parentId.value in Ids(node)
             && folders[id].parentId.value in folders
             && id in folders[folders[id].parentId.value].childIds)
    && (forall c :: c in folders[id].childIds ==> c in Ids(node) && c in folders && folders[c].parentId == Some(id))
    && Distinct(folders[id].childIds)
  }

  lemma {:induction false} TreePlaced(folders: Folders, node: Node, parentId: Option<string>, id: string)
    requires TreeOk(node) && Distinct(Ids(node)) && Holds(folders, Records(node, parentId))
    requires id in Ids(node)
    ensures Placed(folders, node, parentId, id)
    decreases node
  {
    var n := |node.children|;
    DistinctTreeParts(node);
    var record := MakeRecord(node.folderId, node.title, parentId, ChildIdsOf(node));
    assert record in Records(node, parentId);
    if id == node.folderId {
      forall k | 0 <= k < n
        ensures
          var c := node.children[k].folderId;
          c in Ids(node) && c in folders && folders[c].parentId == Some(id)
      {
        ChildPlaced(folders, node, parentId, k, node.children[k].folderId);
      }
    } else {
      var k := ChildHolding(node, n, id);
      ChildPlaced(folders, node, parentId, k, id);
      assert node.children[k].folderId in folders[node.folderId].childIds by {
        assert ChildIdsOf(node)[k] == node.children[k].folderId;
      }
    }
  }

  lemma {:induction false} ChildPlaced(folders: Folders, node: Node, parentId: Option<string>, k: nat, id: string)
    requires TreeOk(node) && Distinct(Ids(node)) && Holds(folders, Records(node, parentId))
    requires k < |node.children| && TreeOk(node.children[k])
    requires (id in Ids(node.children[k]) || id == node.children[k].folderId)
    ensures id in Ids(node) && Placed(folders, node.children[k], Some(node.folderId), id)
    ensures forall x :: x in Ids(node.children[k]) ==> x in Ids(node)
    decreases node, 0
  {
    DistinctTreeParts(node);
    ChildInside(node, |node.children|, k);
    RootIdInside(node.children[k]);
    TreePlaced(folders, node.children[k], Some(node.folderId), id);
  }

  lemma {:induction false} TreeChains(
      folders: Folders, node: Node, parentId: Option<string>, root: string, d: nat, id: string)
    requires TreeOk(node) && Distinct(Ids(node)) && Holds(folders, Records(node, parentId))
    requires ChainTo(folders, root, node.folderId, d) && id in Ids(node)
    ensures exists e: nat :: d <= e <= d + Height(node) && ChainTo(folders, root, id, e)
    decreases node
  {
    if id != node.folderId {
      var n := |node.children|;
      DistinctTreeParts(node);
      var k := ChildHolding(node, n, id);
      var child := node.children[k];
      ChildInside(node, n, k);
      ChildChain(folders, node, parentId, root, d, k);
      TreeChains(folders, child, Some(node.folderId), root, d + 1, id);
      ChildHeightBound(node, n, k);
      var e: nat :| d + 1 <= e <= d + 1 + Height(child) && ChainTo(folders, root, id, e);
    }
  }

  lemma {:induction false} ChildChain(
      folders: Folders, node: Node, parentId: Option<string>, root: string, d: nat, k: nat)
    requires TreeOk(node) && Distinct(Ids(node)) && Holds(folders, Records(node, parentId))
    requires ChainTo(folders, root, node.folderId, d)
    requires k < |node.children| && TreeOk(node.children[k])
    ensures ChainTo(folders, root, node.children[k].folderId, d + 1)
  {
    ChildPlaced(folders, node, parentId, k, node.children[k].folderId);
  }

  lemma {:induction false} ChildHeightBound(node: Node, n: nat, k: nat)
    requires node.Node? && k < n <= |node.children|
    ensures Height(node.children[k]) + 1 <= ChildrenHeight(node, n)
  {
    if k < n - 1 {
      ChildHeightBound(node, n - 1, k);
    }
  }

  lemma {:induction false} TallestChild(node: Node, n: nat) returns (k: nat)
    requires node.Node? && 0 < n <= |node.children|
    ensures k < n && ChildrenHeight(node, n) == Height(node.children[k]) + 1
  {
    if n == 1 || ChildrenHeight(node, n - 1) < Height(node.children[n - 1]) + 1 {
      k := n - 1;
    } else {
      k := TallestChild(node, n - 1);
    }
  }

  /** Some folder really lies as deep as the tree is high. */
  lemma {:induction false} DeepestFolder(
      folders: Folders, node: Node, parentId: Option<string>, root: string, d: nat) returns (id: string)
    requires TreeOk(node) && Distinct(Ids(node)) && Holds(folders, Records(node, parentId))
    requires ChainTo(folders, root, node.folderId, d)
    ensures ChainTo(folders, root, id, d + Height(node))
    decreases node
  {
    if node.children == [] {
      id := node.folderId;
    } else {
      var k := TallestChild(node, |node.children|);
      ChildInside(node, |node.children|, k);
      DistinctTreeParts(node);
      ChildChain(folders, node, parentId, root, d, k);
      id := DeepestFolder(folders, node.children[k], Some(node.folderId), root, d + 1);
    }
  }

  // --- Counts and record checks ----------------------------------------------------------

  lemma {:induction false} RecordIds(node: Node, parentId: Option<string>)
    requires TreeOk(node)
    ensures IdsOf(Records(node, parentId)) == Ids(node)
    ensures |Ids(node)| == Size(node)
    decreases node, |node.children| + 1
  {
    ChildrenRecordIds(node, |node.children|);
  }

  lemma {:induction false} ChildrenRecordIds(node: Node, n: nat)
    requires TreeOk(node) && n <= |node.children|
    ensures IdsOf(ChildrenRecords(node, n)) == ChildrenIds(node, n)
    ensures |ChildrenIds(node, n)| == ChildrenSize(node, n)
    decreases node, n
  {
    if n > 0 {
      ChildrenRecordIds(node, n - 1);
      RecordIds(node.children[n - 1], Some(node.folderId));
    }
  }

  lemma {:induction false} RecordLeaves(node: Node, parentId: Option<string>)
    requires TreeOk(node)
    ensures CountIf(Records(node, parentId), IsLeaf) == Leaves(node)
    decreases node, |node.children| + 1
  {
    ChildrenRecordLeaves(node, |node.children|);
    CountIfAppend(ChildrenRecords(node, |node.children|),
                  MakeRecord(node.folderId, node.title, parentId, ChildIdsOf(node)), IsLeaf);
  }

  lemma {:induction false} ChildrenRecordLeaves(node: Node, n: nat)
    requires TreeOk(node) && n <= |node.children|
    ensures CountIf(ChildrenRecords(node, n), IsLeaf) == ChildrenLeaves(node, n)
    decreases node, n
  {
    if n > 0 {
      ChildrenRecordLeaves(node, n - 1);
      RecordLeaves(node.children[n - 1], Some(node.folderId));
      CountIfConcat(ChildrenRecords(node, n - 1), Records(node.children[n - 1], Some(node.folderId)), IsLeaf);
    }
  }

  /** A record as the expansion writes it. */
  predicate ExpandedRecord(r: FolderRecord) {
    && !Blank(r.folderId) && !Blank(r.title)
    && (r.parentId.Some? ==> !Blank(r.parentId.value))
    && NonBlankIds(r.childIds)
    && r.listingComplete && r.unconsumedPageTokens == 0 && r.inaccessibleChildIds == []
  }

  lemma {:induction false} RecordsExpanded(node: Node, parentId: Option<string>)
    requires TreeOk(node) && (parentId.Some? ==> !Blank(parentId.value))
    ensures forall r :: r in Records(node, parentId) ==> ExpandedRecord(r)
    decreases node, |node.children| + 1
  {
    ChildrenRecordsExpanded(node, |node.children|);
    assert forall i :: 0 <= i < |node.children| ==> TreeOk(node.children[i]);
  }

  lemma {:induction false} ChildrenRecordsExpanded(node: Node, n: nat)
    requires TreeOk(node) && n <= |node.children|
    ensures forall r :: r in ChildrenRecords(node, n) ==> ExpandedRecord(r)
    decreases node, n
  {
    if n > 0 {
      ChildrenRecordsExpanded(node, n - 1);
      RecordsExpanded(node.children[n - 1], Some(node.folderId));
    }
  }

  lemma {:induction false} NoOpenListings(records: seq<FolderRecord>)
    requires forall r :: r in records ==> ExpandedRecord(r)
    ensures TotalTokens(records) == 0
    ensures Inaccessible(records) == {} && IncompleteListings(records) == {}
  {
    assert forall i :: 0 <= i < |records| ==> ExpandedRecord(records[i]);
    if records != [] {
      NoOpenListings(records[..|records| - 1]);
    }
  }

  // --- The three descriptions agree ------------------------------------------------------

  /** The readiness flags are mutually consistent. */
  predicate FlagsConsistent(e: CompactEvidence) {
    && (e.itemInventoryComplete ==> e.folderTraversalComplete)
    && e.itemInventoryComplete == e.fileContentChecksumsComplete
  }

  function TreeMap(tree: Node): Folders
    requires TreeOk(tree)
  {
    FolderMap(Records(tree, None), |Records(tree, None)|)
  }

  lemma {:induction false} ExpansionIndexed(tree: Node)
    requires TreeOk(tree) && Distinct(Ids(tree))
    ensures Distinct(IdsOf(Records(tree, None)))
    ensures Holds(TreeMap(tree), Records(tree, None))
    ensures forall id :: id in TreeMap(tree) <==> id in Ids(tree)
  {
    var records := Records(tree, None);
    RecordIds(tree, None);
    DistinctRecordsIndexed(records, |records|);
    forall id ensures id in TreeMap(tree) <==> id in Ids(tree) {
      assert forall i :: 0 <= i < |records| ==> Ids(tree)[i] == records[i].folderId;
    }
  }

  lemma {:induction false} ExpansionClosed(tree: Node)
    requires TreeOk(tree) && Distinct(Ids(tree))
    ensures Closed(TreeMap(tree), tree.folderId)
  {
    var folders := TreeMap(tree);
    ExpansionIndexed(tree);
    RootIdInside(tree);
    TreePlaced(folders, tree, None, tree.folderId);
    forall id ensures Linked(folders, tree.folderId, id) {
      if id in folders {
        TreePlaced(folders, tree, None, id);
      }
    }
  }

  lemma {:induction false} ExpansionChains(tree: Node)
    requires TreeOk(tree) && Distinct(Ids(tree))
    ensures forall id :: id in TreeMap(tree) ==> Descends(TreeMap(tree), tree.folderId, id)
    ensures LongestChain(TreeMap(tree), tree.folderId, Height(tree))
  {
    var folders, root := TreeMap(tree), tree.folderId;
    ExpansionIndexed(tree);
    ExpansionClosed(tree);
    assert ChainTo(folders, root, root, 0);
    forall id | id in folders
      ensures exists e: nat :: e <= Height(tree) && ChainTo(folders, root, id, e)
    {
      TreeChains(folders, tree, None, root, 0, id);
    }
    forall id, n: nat | ChainTo(folders, root, id, n) ensures n <= Height(tree) {
      var e: nat :| e <= Height(tree) && ChainTo(folders, root, id, e);
      ChainUnique(folders, root, id, n, e);
    }
    var deepest := DeepestFolder(folders, tree, None, root, 0);
  }

  lemma {:induction false} ExpansionWellFormed(tree: Node)
    requires TreeOk(tree) && Distinct(Ids(tree))
    ensures WellFormedRecords(Records(tree, None))
  {
    var records := Records(tree, None);
    ExpansionIndexed(tree);
    ExpansionClosed(tree);
    RecordsExpanded(tree, None);
    forall i | 0 <= i < |records| ensures RecordFault(records[i], map[]).None? {
      assert records[i] in records && ExpandedRecord(records[i]);
      assert Linked(TreeMap(tree), tree.folderId, records[i].folderId);
    }
  }

  /** The records of a tree with distinct ids are closed and every chain reaches its root. */
  lemma {:induction false} ExpansionIsRootedTree(tree: Node)
    requires TreeOk(tree) && Distinct(Ids(tree))
    ensures WellFormedRecords(Records(tree, None))
    ensures RootedTree(TreeMap(tree), tree.folderId)
    ensures LongestChain(TreeMap(tree), tree.folderId, Height(tree))
  {
    ExpansionWellFormed(tree);
    ExpansionClosed(tree);
    ExpansionChains(tree);
  }

  lemma {:induction false} LongestChainUnique(folders: Folders, root: string, d: nat, e: nat)
    requires LongestChain(folders, root, d) && LongestChain(folders, root, e)
    ensures d == e
  {
  }

  predicate GoodTree(e: CompactEvidence) {
    TreeOk(e.tree) && Distinct(Ids(e.tree)) && e.tree.folderId == e.sourceRootId
  }

  lemma {:induction false} ExpandMeaning(p: CompactPayload, csha: CompactSha256, sha: Sha256)
    ensures
      var e := p.evidence;
      var r := ExpandCompactTree(p, csha, sha);
      && (r.Ok? <==> |p.folderTreeSha256| == 64 && csha(e) == p.folderTreeSha256 && GoodTree(e))
      && (r.Ok? ==>
            var expanded := Expanded(e, csha(e), Records(e.tree, None));
            r.value == Payload(expanded, sha(expanded)))
  {
    VisitMeaning(p.evidence.tree, None, Progress({}, []));
    if TreeOk(p.evidence.tree) {
      assert [] + Records(p.evidence.tree, None) == Records(p.evidence.tree, None);
    }
  }

  lemma {:induction false} ExpansionValidates(e: CompactEvidence, compactDigest: string, sha: Sha256)
    requires GoodTree(e)
    ensures
      var expanded := Expanded(e, compactDigest, Records(e.tree, None));
      var r := Validate(Payload(expanded, sha(expanded)), sha);
      && (r.Ok? <==> e.schemaVersion == "1.0" && FlagsConsistent(e) && |sha(expanded)| == 64)
      && (r.Ok? ==>
            && r.value.folderCount == Size(e.tree)
            && r.value.leafFolderCount == Leaves(e.tree)
            && r.value.maxDepth == Height(e.tree))
  {
    var records := Records(e.tree, None);
    var expanded := Expanded(e, compactDigest, records);
    var p := Payload(expanded, sha(expanded));
    ExpansionIsRootedTree(e.tree);
    RecordsExpanded(e.tree, None);
    NoOpenListings(records);
    RecordIds(e.tree, None);
    RecordLeaves(e.tree, None);
    AcceptedIffRootedTree(p, sha);
    if Validate(p, sha).Ok? {
      LongestChainUnique(TreeMap(e.tree), e.sourceRootId, Height(e.tree), Validate(p, sha).value.maxDepth);
      ReportCounts(p, sha);
    }
  }

  lemma {:induction false} ReportCounts(p: Payload, sha: Sha256)
    requires Validate(p, sha).Ok?
    ensures Validate(p, sha).value.leafFolderCount == CountIf(p.evidence.folders, IsLeaf)
  {
  }

  /**
    A compact payload is accepted exactly when its tree is well formed with distinct ids, is
    rooted at the source root, header, flags and digests are in order, and a file inventory beside
    it, if any, is accepted.  The report then gives the tree's size, leaves and height.
   */
  lemma {:induction false} CompactAcceptedIff(
      p: CompactPayload, csha: CompactSha256, sha: Sha256, inventory: InventoryAnswer)
    ensures
      var e := p.evidence;
      var r := LoadExpandAndValidate(p, csha, sha, inventory);
      && (r.Ok?
          <==> && |p.folderTreeSha256| == 64 && csha(e) == p.folderTreeSha256
               && GoodTree(e) && e.schemaVersion == "1.0" && FlagsConsistent(e)
               && |sha(Expanded(e, csha(e), Records(e.tree, None)))| == 64
               && (inventory.Some? ==> inventory.value.Ok?))
      && (r.Ok? ==>
            && r.value.report.folderCount == Size(e.tree)
            && r.value.report.leafFolderCount == Leaves(e.tree)
            && r.value.report.maxDepth == Height(e.tree)
            && r.value.sourceEvidenceSha256 == p.folderTreeSha256
            && (r.value.fileInventory.Some? <==> inventory.Some?))
  {
    ExpandMeaning(p, csha, sha);
    if GoodTree(p.evidence) {
      ExpansionValidates(p.evidence, csha(p.evidence), sha);
    }
  }
}
