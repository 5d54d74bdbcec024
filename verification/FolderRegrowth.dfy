/** The validator's graph part accepts exactly the record sets that some compact tree expands to. */
module FolderRegrowth {
  import opened Common
  import opened FolderTraversal
  import opened FolderReachability
  import opened FolderTree
  import opened FolderTreeGuarantees

  // --- Composing and splitting parent chains ---------------------------------------------

  lemma {:induction false} ChainCompose(folders: Folders, root: string, a: string, d: nat, x: string, k: nat)
    requires ChainTo(folders, root, a, d) && ChainTo(folders, a, x, k)
    ensures ChainTo(folders, root, x, d + k)
    decreases k
  {
    if k > 0 {
      ChainCompose(folders, root, a, d, folders[x].parentId.value, k - 1);
    }
  }

  lemma {:induction false} ChainEndUnique(folders: Folders, a: string, b: string, x: string, k: nat)
    requires ChainTo(folders, a, x, k) && ChainTo(folders, b, x, k)
    ensures a == b
    decreases k
  {
    if k > 0 {
      ChainEndUnique(folders, a, b, folders[x].parentId.value, k - 1);
    }
  }

  /** A nonempty chain into `a` comes in through one of its children. */
  lemma {:induction false} ChainEntersByChild(folders: Folders, a: string, x: string, k: nat) returns (c: string)
    requires ChainTo(folders, a, x, k) && k > 0
    ensures c in folders && folders[c].parentId == Some(a) && ChainTo(folders, c, x, k - 1)
    decreases k
  {
    var p := folders[x].parentId.value;
    if k == 1 {
      c := x;
    } else {
      c := ChainEntersByChild(folders, a, p, k - 1);
    }
  }

  // --- Growing a tree back from records --------------------------------------------------

  /** The tree below `id`, cut off after `fuel` levels. */
  function Grow(folders: Folders, id: string, fuel: nat): (r: Node)
    requires id in folders && ChildrenKnown(folders)
    ensures r.Node? && r.folderId == id && r.title == folders[id].title
    decreases fuel
  {
    var childIds := folders[id].childIds;
    Node(id, folders[id].title,
         if fuel == 0 then []
         else seq(|childIds|, i requires 0 <= i < |childIds| =>
                assert childIds[i] in childIds; Grow(folders, childIds[i], fuel - 1)))
  }

  /** `id` hangs `d` levels below the root of a tree whose longest chain is `d + fuel`. */
  ghost predicate Growable(folders: Folders, root: string, id: string, d: nat, fuel: nat) {
    && ChildrenKnown(folders) && Closed(folders, root)
    && ChainTo(folders, root, id, d)
    && LongestChain(folders, root, d + fuel)
    && forall x :: x in folders ==> !Blank(x) && !Blank(folders[x].title)
  }

  lemma {:induction false} GrowableChild(folders: Folders, root: string, id: string, d: nat, fuel: nat, c: string)
    requires Growable(folders, root, id, d, fuel) && c in folders[id].childIds
    ensures fuel > 0 && Growable(folders, root, c, d + 1, fuel - 1)
    ensures ChainTo(folders, id, c, 1)
  {
    assert Linked(folders, root, id);
    assert ChainTo(folders, root, c, d + 1);
    assert ChainTo(folders, id, id, 0);
  }

  lemma {:induction false} GrowChildren(folders: Folders, root: string, id: string, d: nat, fuel: nat)
    requires Growable(folders, root, id, d, fuel)
    ensures
      var node := Grow(folders, id, fuel);
      var childIds := folders[id].childIds;
      && |node.children| == |childIds|
      && forall i :: 0 <= i < |childIds| ==>
           && Growable(folders, root, childIds[i], d + 1, fuel - 1)
           && node.children[i] == Grow(folders, childIds[i], fuel - 1)
  {
    var childIds := folders[id].childIds;
    if childIds != [] {
      GrowableChild(folders, root, id, d, fuel, childIds[0]);
    }
    forall i | 0 <= i < |childIds| ensures fuel > 0 && Growable(folders, root, childIds[i], d + 1, fuel - 1) {
      GrowableChild(folders, root, id, d, fuel, childIds[i]);
    }
  }

  lemma {:induction false} GrownIsOk(folders: Folders, root: string, id: string, d: nat, fuel: nat)
    requires Growable(folders, root, id, d, fuel)
    ensures TreeOk(Grow(folders, id, fuel))
    decreases fuel
  {
    GrowChildren(folders, root, id, d, fuel);
    var childIds := folders[id].childIds;
    forall i | 0 <= i < |childIds| ensures TreeOk(Grow(folders, id, fuel).children[i]) {
      GrownIsOk(folders, root, childIds[i], d + 1, fuel - 1);
    }
  }

  /** The folders at or below `id` are `id` and those at or below its children. */
  lemma {:induction false} DescendsThroughChild(
      folders: Folders, root: string, id: string, d: nat, fuel: nat, x: string)
    requires Growable(folders, root, id, d, fuel)
    ensures Descends(folders, id, x) <==>
      x == id || exists i :: 0 <= i < |folders[id].childIds| && Descends(folders, folders[id].childIds[i], x)
  {
    var childIds := folders[id].childIds;
    assert ChainTo(folders, id, id, 0);
    forall i | 0 <= i < |childIds| && Descends(folders, childIds[i], x) ensures Descends(folders, id, x) {
      GrowableChild(folders, root, id, d, fuel, childIds[i]);
      var k: nat :| ChainTo(folders, childIds[i], x, k);
      ChainCompose(folders, id, childIds[i], 1, x, k);
    }
    if Descends(folders, id, x) && x != id {
      var k: nat :| ChainTo(folders, id, x, k);
      var c := ChainEntersByChild(folders, id, x, k);
      assert Linked(folders, root, c);
      var i :| 0 <= i < |childIds| && childIds[i] == c;
      assert Descends(folders, childIds[i], x);
    }
  }

  lemma {:induction false} IdsAreChildrens(node: Node, x: string)
    requires TreeOk(node)
    ensures x in Ids(node) <==>
      x == node.folderId || exists i :: 0 <= i < |node.children| && x in Ids(node.children[i])
  {
    RootIdInside(node);
    forall i | 0 <= i < |node.children| && x in Ids(node.children[i]) ensures x in Ids(node) {
      ChildInside(node, |node.children|, i);
    }
    if x in Ids(node) && x != node.folderId {
      var i := ChildHolding(node, |node.children|, x);
    }
  }

  lemma {:induction false} GrownIds(folders: Folders, root: string, id: string, d: nat, fuel: nat, x: string)
    requires Growable(folders, root, id, d, fuel)
    ensures x in Ids(Grow(folders, id, fuel)) <==> Descends(folders, id, x)
    decreases fuel
  {
    var node := Grow(folders, id, fuel);
    var childIds := folders[id].childIds;
    GrownIsOk(folders, root, id, d, fuel);
    GrowChildren(folders, root, id, d, fuel);
    forall i | 0 <= i < |childIds| ensures x in Ids(node.children[i]) <==> Descends(folders, childIds[i], x) {
      GrownIds(folders, root, childIds[i], d + 1, fuel - 1, x);
    }
    IdsAreChildrens(node, x);
    DescendsThroughChild(folders, root, id, d, fuel, x);
  }

  lemma {:induction false} ChildrenGrowApart(
      folders: Folders, root: string, id: string, d: nat, fuel: nat, a: string, b: string, x: string)
    requires Growable(folders, root, id, d, fuel)
    requires a in folders[id].childIds && b in folders[id].childIds && a != b
    requires Descends(folders, a, x)
    ensures !Descends(folders, b, x)
  {
    GrowableChild(folders, root, id, d, fuel, a);
    GrowableChild(folders, root, id, d, fuel, b);
    var k: nat :| ChainTo(folders, a, x, k);
    ChainCompose(folders, root, a, d + 1, x, k);
    forall m: nat ensures !ChainTo(folders, b, x, m) {
      if ChainTo(folders, b, x, m) {
        ChainCompose(folders, root, b, d + 1, x, m);
        ChainUnique(folders, root, x, d + 1 + k, d + 1 + m);
        ChainEndUnique(folders, a, b, x, k);
      }
    }
  }

  lemma {:induction false} DistinctByParts(node: Node, n: nat)
    requires TreeOk(node) && n <= |node.children|
    requires forall i :: 0 <= i < n ==> Distinct(Ids(node.children[i]))
    requires forall i, j :: 0 <= i < j < n ==> DisjointSeqs(Ids(node.children[i]), Ids(node.children[j]))
    ensures Distinct(ChildrenIds(node, n))
  {
    if n > 0 {
      DistinctByParts(node, n - 1);
      var earlier, last := ChildrenIds(node, n - 1), Ids(node.children[n - 1]);
      forall x | x in earlier ensures x !in last {
        var i := ChildHolding(node, n - 1, x);
      }
      DistinctConcat(earlier, last);
    }
  }

  lemma {:induction false} GrownApart(
      folders: Folders, root: string, id: string, d: nat, fuel: nat, a: string, b: string, x: string)
    requires Growable(folders, root, id, d, fuel)
    requires a in folders[id].childIds && b in folders[id].childIds && a != b
    ensures fuel > 0 && a in folders && b in folders
    ensures x in Ids(Grow(folders, a, fuel - 1)) ==> x !in Ids(Grow(folders, b, fuel - 1))
  {
    GrowableChild(folders, root, id, d, fuel, a);
    GrowableChild(folders, root, id, d, fuel, b);
    GrownIds(folders, root, a, d + 1, fuel - 1, x);
    GrownIds(folders, root, b, d + 1, fuel - 1, x);
    if Descends(folders, a, x) {
      ChildrenGrowApart(folders, root, id, d, fuel, a, b, x);
    }
  }

  lemma {:induction false} ChildTreesApart(folders: Folders, root: string, id: string, d: nat, fuel: nat)
    requires Growable(folders, root, id, d, fuel)
    ensures
      var children := Grow(folders, id, fuel).children;
      forall i, j :: 0 <= i < j < |children| ==> DisjointSeqs(Ids(children[i]), Ids(children[j]))
  {
    GrowChildren(folders, root, id, d, fuel);
    var children, childIds := Grow(folders, id, fuel).children, folders[id].childIds;
    assert Linked(folders, root, id);
    forall i, j | 0 <= i < j < |children| ensures DisjointSeqs(Ids(children[i]), Ids(children[j])) {
      forall x | x in Ids(children[i]) ensures x !in Ids(children[j]) {
        GrownApart(folders, root, id, d, fuel, childIds[i], childIds[j], x);
      }
    }
  }

  lemma {:induction false} OwnIdApart(folders: Folders, root: string, id: string, d: nat, fuel: nat)
    requires Growable(folders, root, id, d, fuel)
    ensures
      var node := Grow(folders, id, fuel);
      id !in ChildrenIds(node, |node.children|)
  {
    var node := Grow(folders, id, fuel);
    var childIds := folders[id].childIds;
    GrownIsOk(folders, root, id, d, fuel);
    GrowChildren(folders, root, id, d, fuel);
    forall i | 0 <= i < |node.children| ensures id !in Ids(node.children[i]) {
      ChildNotAbove(folders, root, id, d, fuel, childIds[i]);
      GrownIds(folders, root, childIds[i], d + 1, fuel - 1, id);
    }
    if id in ChildrenIds(node, |node.children|) {
      var i := ChildHolding(node, |node.children|, id);
      assert false;
    }
  }

  lemma {:induction false} GrownIsDistinct(folders: Folders, root: string, id: string, d: nat, fuel: nat)
    requires Growable(folders, root, id, d, fuel)
    ensures Distinct(Ids(Grow(folders, id, fuel)))
    decreases fuel
  {
    var node := Grow(folders, id, fuel);
    var n := |node.children|;
    GrownIsOk(folders, root, id, d, fuel);
    GrowChildren(folders, root, id, d, fuel);
    forall i | 0 <= i < n ensures Distinct(Ids(node.children[i])) {
      GrownIsDistinct(folders, root, folders[id].childIds[i], d + 1, fuel - 1);
    }
    ChildTreesApart(folders, root, id, d, fuel);
    DistinctByParts(node, n);
    OwnIdApart(folders, root, id, d, fuel);
    DistinctConcat(ChildrenIds(node, n), [id]);
  }

  lemma {:induction false} ChildNotAbove(folders: Folders, root: string, id: string, d: nat, fuel: nat, c: string)
    requires Growable(folders, root, id, d, fuel) && c in folders[id].childIds
    ensures !Descends(folders, c, id)
  {
    GrowableChild(folders, root, id, d, fuel, c);
    forall k: nat ensures !ChainTo(folders, c, id, k) {
      if ChainTo(folders, c, id, k) {
        ChainCompose(folders, root, c, d + 1, id, k);
        ChainUnique(folders, root, id, d, d + 1 + k);
      }
    }
  }

  // --- The grown tree has the records it was grown from ----------------------------------

  /** What the graph part looks at: id, title, parent and children. */
  function Bare(r: FolderRecord): FolderRecord {
    MakeRecord(r.folderId, r.title, r.parentId, r.childIds)
  }

  lemma {:induction false} GrownRecords(folders: Folders, root: string, id: string, d: nat, fuel: nat)
    requires Growable(folders, root, id, d, fuel)
    requires forall x :: x in folders ==> folders[x].folderId == x
    ensures TreeOk(Grow(folders, id, fuel))
    ensures forall r :: r in Records(Grow(folders, id, fuel), folders[id].parentId) ==>
              r.folderId in folders && r == Bare(folders[r.folderId])
    decreases fuel
  {
    var node := Grow(folders, id, fuel);
    var childIds := folders[id].childIds;
    GrownIsOk(folders, root, id, d, fuel);
    GrowChildren(folders, root, id, d, fuel);
    assert ChildIdsOf(node) == childIds;
    assert Linked(folders, root, id);
    forall i | 0 <= i < |childIds|
      ensures forall r :: r in Records(node.children[i], Some(id)) ==>
                r.folderId in folders && r == Bare(folders[r.folderId])
    {
      assert childIds[i] in childIds;
      GrownRecords(folders, root, childIds[i], d + 1, fuel - 1);
    }
    GrownChildrenRecords(folders, node, |childIds|);
  }

  lemma {:induction false} GrownChildrenRecords(folders: Folders, node: Node, n: nat)
    requires TreeOk(node) && n <= |node.children|
    requires forall i :: 0 <= i < n ==>
               forall r :: r in Records(node.children[i], Some(node.folderId)) ==>
                 r.folderId in folders && r == Bare(folders[r.folderId])
    ensures forall r :: r in ChildrenRecords(node, n) ==>
              r.folderId in folders && r == Bare(folders[r.folderId])
  {
    if n > 0 {
      GrownChildrenRecords(folders, node, n - 1);
    }
  }

  /** Two maps describe the same folders. */
  ghost predicate SameFolders(a: Folders, b: Folders) {
    a.Keys == b.Keys && forall id :: id in a ==> Bare(a[id]) == Bare(b[id])
  }

  lemma {:induction false} SameFoldersSameChains(a: Folders, b: Folders, root: string, id: string, n: nat)
    requires SameFolders(a, b) && ChainTo(a, root, id, n)
    ensures ChainTo(b, root, id, n)
    decreases n
  {
    assert Bare(a[id]) == Bare(b[id]);
    if n > 0 {
      SameFoldersSameChains(a, b, root, a[id].parentId.value, n - 1);
    }
  }

  lemma {:induction false} SameFoldersSameTree(a: Folders, b: Folders, root: string)
    requires SameFolders(a, b) && RootedTree(a, root)
    ensures RootedTree(b, root)
  {
    assert forall id :: id in a ==> Bare(a[id]) == Bare(b[id]);
    forall id ensures Linked(b, root, id) {
      assert Linked(a, root, id);
    }
    forall id | id in b ensures Descends(b, root, id) {
      var n: nat :| ChainTo(a, root, id, n);
      SameFoldersSameChains(a, b, root, id, n);
    }
  }

  lemma {:induction false} GrownTreeMatches(folders: Folders, root: string, fuel: nat)
    requires Growable(folders, root, root, 0, fuel) && RootedTree(folders, root)
    requires forall x :: x in folders ==> folders[x].folderId == x
    ensures
      var tree := Grow(folders, root, fuel);
      TreeOk(tree) && Distinct(Ids(tree)) && tree.folderId == root && SameFolders(folders, TreeMap(tree))
  {
    var tree := Grow(folders, root, fuel);
    GrownRecords(folders, root, root, 0, fuel);
    GrownIsDistinct(folders, root, root, 0, fuel);
    ExpansionIndexed(tree);
    forall id ensures id in folders <==> id in TreeMap(tree) {
      GrownIds(folders, root, root, 0, fuel, id);
    }
    forall id | id in folders ensures Bare(folders[id]) == Bare(TreeMap(tree)[id]) {
      MapHoldsRecords(tree, id);
    }
  }

  lemma {:induction false} MapHoldsRecords(tree: Node, id: string)
    requires TreeOk(tree) && Distinct(Ids(tree)) && id in TreeMap(tree)
    ensures TreeMap(tree)[id] in Records(tree, None) && TreeMap(tree)[id].folderId == id
  {
    var records := Records(tree, None);
    RecordIds(tree, None);
    DistinctRecordsIndexed(records, |records|);
    var i :| 0 <= i < |records| && records[i].folderId == id;
  }

  ghost predicate ExpansionOf(tree: Node, folders: Folders, root: string) {
    TreeOk(tree) && Distinct(Ids(tree)) && tree.folderId == root && SameFolders(folders, TreeMap(tree))
  }

  lemma {:induction false} RecordsGrow(records: seq<FolderRecord>, root: string) returns (tree: Node)
    requires WellFormedRecords(records) && RootedTree(FolderMap(records, |records|), root)
    ensures ExpansionOf(tree, FolderMap(records, |records|), root)
  {
    var folders := FolderMap(records, |records|);
    DistinctRecordsIndexed(records, |records|);
    forall id | id in folders ensures folders[id].folderId == id && !Blank(id) && !Blank(folders[id].title) {
      var i :| 0 <= i < |records| && records[i].folderId == id;
      assert RecordFault(records[i], map[]).None?;
    }
    forall id, c | id in folders && c in folders[id].childIds ensures c in folders {
      assert Linked(folders, root, id);
    }
    TraversalIsExact(folders, root);
    var fuel := TraverseFrom(folders, [Entry(root, 0)], {}, 0).maxDepth;
    assert ChainTo(folders, root, root, 0);
    GrownTreeMatches(folders, root, fuel);
    tree := Grow(folders, root, fuel);
  }

  /**
    Well-formed records form a rooted tree exactly when they are, up to order and page bookkeeping,
    the expansion of some compact tree with distinct ids and that root.
   */
  lemma {:induction false} RootedTreeIffExpansion(records: seq<FolderRecord>, root: string)
    requires WellFormedRecords(records)
    ensures RootedTree(FolderMap(records, |records|), root)
       <==> exists tree: Node :: ExpansionOf(tree, FolderMap(records, |records|), root)
  {
    var folders := FolderMap(records, |records|);
    if RootedTree(folders, root) {
      var tree := RecordsGrow(records, root);
    }
    forall tree: Node | ExpansionOf(tree, folders, root) ensures RootedTree(folders, root) {
      ExpansionIsRootedTree(tree);
      SameFoldersSameTree(TreeMap(tree), folders, root);
    }
  }
}
