/**
  The walkers of the pre-v6 deletion plan and exclusion review over a compact tree, and the
  review's accounting.
 */
module FolderReview {
  import opened Common
  import opened Ordering
  import opened FolderTraversal
  import opened FolderReachability
  import opened FolderTree
  import opened FolderTreeGuarantees

  // --- _find and _flatten ----------------------------------------------------------------

  /** Preorder search; a malformed node raises when it is met. */
  function Find(node: Node, id: string): Result<Option<Node>, Error>
    decreases node, if node.Node? then |node.children| + 1 else 0
  {
    if node.Malformed? then Err(MalformedCompactNode)
    else if node.folderId == id then Ok(Some(node))
    else FindFrom(node, 0, id)
  }

  function FindFrom(node: Node, k: nat, id: string): Result<Option<Node>, Error>
    requires node.Node? && k <= |node.children|
    decreases node, |node.children| - k
  {
    if k == |node.children| then Ok(None)
    else
      var found := Find(node.children[k], id);
      if found.Err? || found.value.Some? then found else FindFrom(node, k + 1, id)
  }

  /** A folder's id and title, as the listing shows it. */
  type FolderLine = (string, string)

  function Flatten(node: Node): Result<seq<FolderLine>, Error>
    decreases node, if node.Node? then |node.children| + 1 else 0
  {
    if node.Malformed? then Err(MalformedCompactNode) else FlattenChildren(node, |node.children|)
  }

  function FlattenChildren(node: Node, n: nat): Result<seq<FolderLine>, Error>
    requires node.Node? && n <= |node.children|
    decreases node, n
  {
    if n == 0 then Ok([(node.folderId, node.title)])
    else
      var earlier := FlattenChildren(node, n - 1);
      if earlier.Err? then earlier
      else
        var last := Flatten(node.children[n - 1]);
        if last.Err? then last else Ok(earlier.value + last.value)
  }

  lemma {:induction false} FlattenErrorStands(node: Node, i: nat, n: nat)
    requires node.Node? && i <= n <= |node.children| && FlattenChildren(node, i).Err?
    ensures FlattenChildren(node, n) == FlattenChildren(node, i)
    decreases n
  {
    if i < n {
      FlattenErrorStands(node, i, n - 1);
    }
  }

  method FlattenTree(node: Node) returns (r: Result<seq<FolderLine>, Error>)
    ensures r == Flatten(node)
    decreases node
  {
    if node.Malformed? { return Err(MalformedCompactNode); }
    var records := [(node.folderId, node.title)];
    for i := 0 to |node.children|
      invariant FlattenChildren(node, i) == Ok(records)
    {
      var below := FlattenTree(node.children[i]);
      if below.Err? {
        FlattenErrorStands(node, i + 1, |node.children|);
        return below;
      }
      records := records + below.value;
    }
    r := Ok(records);
  }

  // --- _find returns the subtree at the id -----------------------------------------------

  /** `sub` is a subtree whose records are among those of the map. */
  ghost predicate SubtreeIn(folders: Folders, sub: Node) {
    && TreeOk(sub) && Distinct(Ids(sub))
    && exists parentId :: Holds(folders, Records(sub, parentId))
  }

  lemma {:induction false} FindMeaning(folders: Folders, node: Node, parentId: Option<string>, id: string)
    requires TreeOk(node) && Distinct(Ids(node)) && Holds(folders, Records(node, parentId))
    ensures Find(node, id).Ok?
    ensures Find(node, id).value.None? <==> id !in Ids(node)
    ensures Find(node, id).value.Some? ==>
      var sub := Find(node, id).value.value;
      SubtreeIn(folders, sub) && sub.folderId == id
    decreases node, |node.children| + 1
  {
    RootIdInside(node);
    if node.folderId != id {
      FindFromMeaning(folders, node, parentId, 0, id);
      if id in Ids(node) {
        var k := ChildHolding(node, |node.children|, id);
      }
      forall k | 0 <= k < |node.children| && id in Ids(node.children[k]) ensures id in Ids(node) {
        ChildInside(node, |node.children|, k);
      }
    }
  }

  lemma {:induction false} ChildHolds(folders: Folders, node: Node, parentId: Option<string>, k: nat)
    requires TreeOk(node) && Distinct(Ids(node)) && Holds(folders, Records(node, parentId))
    requires k < |node.children|
    ensures
      var child := node.children[k];
      TreeOk(child) && Distinct(Ids(child)) && Holds(folders, Records(child, Some(node.folderId)))
  {
    DistinctTreeParts(node);
    ChildInside(node, |node.children|, k);
  }

  lemma {:induction false} FindFromMeaning(folders: Folders, node: Node, parentId: Option<string>, k: nat, id: string)
    requires TreeOk(node) && Distinct(Ids(node)) && Holds(folders, Records(node, parentId))
    requires k <= |node.children|
    ensures FindFrom(node, k, id).Ok?
    ensures FindFrom(node, k, id).value.None?
       <==> forall i :: k <= i < |node.children| ==> id !in Ids(node.children[i])
    ensures FindFrom(node, k, id).value.Some? ==>
      var sub := FindFrom(node, k, id).value.value;
      SubtreeIn(folders, sub) && sub.folderId == id
    decreases node, |node.children| - k
  {
    if k < |node.children| {
      ChildHolds(folders, node, parentId, k);
      FindMeaning(folders, node.children[k], Some(node.folderId), id);
      FindFromMeaning(folders, node, parentId, k + 1, id);
    }
  }

  // --- A subtree holds exactly the descendants of its root -------------------------------

  lemma {:induction false} DescendantInSubtree(
      folders: Folders, root: string, sub: Node, parentId: Option<string>, x: string, k: nat)
    requires Closed(folders, root)
    requires TreeOk(sub) && Distinct(Ids(sub)) && Holds(folders, Records(sub, parentId))
    requires ChainTo(folders, sub.folderId, x, k)
    ensures x in Ids(sub)
    decreases k
  {
    RootIdInside(sub);
    if k > 0 {
      var p := folders[x].parentId.value;
      DescendantInSubtree(folders, root, sub, parentId, p, k - 1);
      TreePlaced(folders, sub, parentId, p);
      assert Linked(folders, root, x);
    }
  }

  lemma {:induction false} SubtreeIsDescendants(folders: Folders, root: string, sub: Node)
    requires Closed(folders, root) && SubtreeIn(folders, sub)
    ensures forall x :: x in Ids(sub) <==> Descends(folders, sub.folderId, x)
  {
    var parentId :| Holds(folders, Records(sub, parentId));
    forall x | x in Ids(sub) ensures Descends(folders, sub.folderId, x) {
      RootIdInside(sub);
      TreePlaced(folders, sub, parentId, sub.folderId);
      TreeChains(folders, sub, parentId, sub.folderId, 0, x);
    }
    forall x, k: nat | ChainTo(folders, sub.folderId, x, k) ensures x in Ids(sub) {
      DescendantInSubtree(folders, root, sub, parentId, x, k);
    }
  }

  // --- _flatten lists each folder of a subtree once --------------------------------------

  function FolderOf(entry: FolderLine): string { entry.0 }

  function FirstOf(entries: seq<FolderLine>): seq<string> {
    Mapped(entries, FolderOf)
  }

  lemma {:induction false} FirstOfConcat(a: seq<FolderLine>, b: seq<FolderLine>)
    ensures FirstOf(a + b) == FirstOf(a) + FirstOf(b)
  {
  }

  lemma {:induction false} FlattenMeaning(node: Node)
    requires TreeOk(node)
    ensures Flatten(node).Ok?
    ensures multiset(FirstOf(Flatten(node).value)) == multiset(Ids(node))
    decreases node, |node.children| + 1
  {
    FlattenChildrenMeaning(node, |node.children|);
  }

  lemma {:induction false} FlattenChildrenMeaning(node: Node, n: nat)
    requires TreeOk(node) && n <= |node.children|
    ensures FlattenChildren(node, n).Ok?
    ensures multiset(FirstOf(FlattenChildren(node, n).value)) == multiset(ChildrenIds(node, n) + [node.folderId])
    decreases node, n
  {
    if n > 0 {
      FlattenChildrenMeaning(node, n - 1);
      FlattenMeaning(node.children[n - 1]);
      FirstOfConcat(FlattenChildren(node, n - 1).value, Flatten(node.children[n - 1]).value);
      assert ChildrenIds(node, n) + [node.folderId]
          == ChildrenIds(node, n - 1) + (Ids(node.children[n - 1]) + [node.folderId]);
    } else {
      assert FirstOf([(node.folderId, node.title)]) == [node.folderId];
    }
  }

  /**
    On a well-formed tree with distinct ids, the search fails exactly when the id is absent;
    otherwise flattening what it found lists, each exactly once, the folders whose parent chain in
    the expanded records passes through the id.
   */
  lemma {:induction false} FindThenFlatten(tree: Node, id: string)
    requires TreeOk(tree) && Distinct(Ids(tree))
    ensures Find(tree, id).Ok? && (Find(tree, id).value.None? <==> id !in TreeMap(tree))
    ensures Find(tree, id).value.Some? ==>
      var listed := Flatten(Find(tree, id).value.value);
      && listed.Ok?
      && Distinct(FirstOf(listed.value))
      && forall x :: x in FirstOf(listed.value) <==> Descends(TreeMap(tree), id, x)
  {
    var folders := TreeMap(tree);
    ExpansionIndexed(tree);
    ExpansionClosed(tree);
    FindMeaning(folders, tree, None, id);
    if id in Ids(tree) {
      var sub := Find(tree, id).value.value;
      SubtreeIsDescendants(folders, tree.folderId, sub);
      FlattenMeaning(sub);
      var ids := FirstOf(Flatten(sub).value);
      DistinctPermuted(ids, Ids(sub));
      forall x ensures x in ids <==> x in Ids(sub) {
        assert x in multiset(ids) <==> x in multiset(Ids(sub));
      }
    }
  }

  // --- Review accounting -----------------------------------------------------------------

  datatype Candidate = Candidate(folderId: string, title: string, reviewed: bool)

  predicate Unreviewed(c: Candidate) { !c.reviewed }

  function Candidates(entries: seq<FolderLine>, reviewed: set<string>): (r: seq<Candidate>)
    ensures |r| == |entries|
    ensures forall i :: 0 <= i < |r| ==> r[i] == Candidate(entries[i].0, entries[i].1, entries[i].0 in reviewed)
  {
    seq(|entries|, i requires 0 <= i < |entries| => Candidate(entries[i].0, entries[i].1, entries[i].0 in reviewed))
  }

  datatype ReviewError = TreeError(error: Error) | TargetMissing | InvalidReviewedIds | ReviewedOutOfScope

  datatype Review = Review(candidates: seq<Candidate>, reviewedCount: nat, pendingCount: int)

  /** `_string_list`: unique non-empty strings. */
  predicate StringList(ids: seq<string>) {
    (forall i :: 0 <= i < |ids| ==> ids[i] != "") && Distinct(ids)
  }

  /** The candidate enumeration and its counts, sorted by id and title. */
  function ReviewSubtree(tree: Node, targetId: string, reviewedIds: seq<string>): Result<Review, ReviewError> {
    var target := Find(tree, targetId);
    if target.Err? then Err(TreeError(target.error))
    else if target.value.None? then Err(TargetMissing)
    else
      var listed := Flatten(target.value.value);
      if listed.Err? then Err(TreeError(listed.error))
      else if !StringList(reviewedIds) then Err(InvalidReviewedIds)
      else
        var reviewed := ToSet(reviewedIds);
        if !(reviewed <= ToSet(FirstOf(listed.value))) then Err(ReviewedOutOfScope)
        else
          var candidates := Candidates(SortBy(listed.value, PairLe), reviewed);
          Ok(Review(candidates, |reviewed|, |candidates| - |reviewed|))
  }

  lemma {:induction false} LastIsNew(ids: seq<string>)
    requires ids != [] && Distinct(ids)
    ensures
      var n := |ids| - 1;
      Distinct(ids[..n]) && ids[n] !in ToSet(ids[..n]) && ToSet(ids) == ToSet(ids[..n]) + {ids[n]}
  {
    var n := |ids| - 1;
    assert forall i :: 0 <= i < n ==> ids[..n][i] != ids[n];
    assert ids == ids[..n] + [ids[n]];
  }

  lemma {:induction false} IntersectionGrows(reviewed: set<string>, before: set<string>, x: string)
    requires x !in before
    ensures |reviewed * (before + {x})| == |reviewed * before| + if x in reviewed then 1 else 0
  {
    assert reviewed * (before + {x}) == reviewed * before + (if x in reviewed then {x} else {});
  }

  lemma {:induction false} LastEntry(entries: seq<FolderLine>, reviewed: set<string>)
    requires entries != []
    ensures
      var n := |entries| - 1;
      && FirstOf(entries)[..n] == FirstOf(entries[..n]) && FirstOf(entries)[n] == entries[n].0
      && CountIf(Candidates(entries, reviewed), Unreviewed)
         == CountIf(Candidates(entries[..n], reviewed), Unreviewed) + if entries[n].0 in reviewed then 0 else 1
  {
    var n := |entries| - 1;
    assert Candidates(entries, reviewed)[..n] == Candidates(entries[..n], reviewed);
  }

  lemma {:induction false} ReviewedLast(ids: seq<string>, reviewed: set<string>)
    requires ids != [] && Distinct(ids)
    ensures
      var n := |ids| - 1;
      && Distinct(ids[..n])
      && |reviewed * ToSet(ids)| == |reviewed * ToSet(ids[..n])| + if ids[n] in reviewed then 1 else 0
  {
    LastIsNew(ids);
    IntersectionGrows(reviewed, ToSet(ids[..|ids| - 1]), ids[|ids| - 1]);
  }

  lemma {:induction false} UnreviewedCount(entries: seq<FolderLine>, reviewed: set<string>)
    requires Distinct(FirstOf(entries))
    ensures CountIf(Candidates(entries, reviewed), Unreviewed) + |reviewed * ToSet(FirstOf(entries))| == |entries|
  {
    if entries == [] {
      assert reviewed * ToSet(FirstOf(entries)) == {};
    } else {
      LastEntry(entries, reviewed);
      ReviewedLast(FirstOf(entries), reviewed);
      UnreviewedCount(entries[..|entries| - 1], reviewed);
    }
  }

  lemma {:induction false} SortedEntriesPermute(entries: seq<FolderLine>)
    ensures multiset(FirstOf(SortBy(entries, PairLe))) == multiset(FirstOf(entries))
    ensures |SortBy(entries, PairLe)| == |entries|
  {
    PairLeIsPreorder();
    SortBySorts(entries, PairLe);
    MappedPermuted(entries, SortBy(entries, PairLe), FolderOf);
    assert |multiset(entries)| == |entries| && |multiset(SortBy(entries, PairLe))| == |SortBy(entries, PairLe)|;
  }

  function CandidateIds(candidates: seq<Candidate>): (r: seq<string>)
    ensures |r| == |candidates|
    ensures forall i :: 0 <= i < |r| ==> r[i] == candidates[i].folderId
  {
    seq(|candidates|, i requires 0 <= i < |candidates| => candidates[i].folderId)
  }

  /**
    The review goes through exactly when the target is in the tree and the reviewed ids are unique
    and lie below it.  Its candidates are the folders whose chain passes through the target, each
    once, and the pending count is the number of candidates listed as unreviewed.
   */
  lemma {:induction false} ReviewAccounts(tree: Node, targetId: string, reviewedIds: seq<string>)
    requires TreeOk(tree) && Distinct(Ids(tree))
    ensures
      var folders := TreeMap(tree);
      var r := ReviewSubtree(tree, targetId, reviewedIds);
      && (r.Ok? <==> && targetId in folders && StringList(reviewedIds)
                     && forall x :: x in reviewedIds ==> Descends(folders, targetId, x))
      && (r.Ok? ==>
            var candidates := r.value.candidates;
            && r.value.pendingCount == CountIf(candidates, Unreviewed)
            && Distinct(CandidateIds(candidates))
            && forall x :: x in CandidateIds(candidates) <==> Descends(folders, targetId, x))
  {
    FindThenFlatten(tree, targetId);
    if Find(tree, targetId).value.Some? {
      var entries := Flatten(Find(tree, targetId).value.value).value;
      var sorted := SortBy(entries, PairLe);
      SortedEntriesPermute(entries);
      SameMembers(FirstOf(sorted), FirstOf(entries));
      DistinctPermuted(FirstOf(sorted), FirstOf(entries));
      var reviewed := ToSet(reviewedIds);
      forall x ensures x in ToSet(FirstOf(entries)) <==> Descends(TreeMap(tree), targetId, x) {
        assert x in FirstOf(entries) <==> Descends(TreeMap(tree), targetId, x);
      }
      assert CandidateIds(Candidates(sorted, reviewed)) == FirstOf(sorted);
      UnreviewedCount(sorted, reviewed);
      if reviewed <= ToSet(FirstOf(entries)) {
        assert reviewed * ToSet(FirstOf(sorted)) == reviewed;
      }
    }
  }

  // --- What the review lists -------------------------------------------------------------

  /** Every line shows an id with the title of a record of that id. */
  ghost predicate TitlesOf(lines: seq<FolderLine>, records: seq<FolderRecord>) {
    forall line :: line in lines ==> exists r :: r in records && r.folderId == line.0 && r.title == line.1
  }

  lemma {:induction false} FlattenTitles(node: Node, parentId: Option<string>)
    requires TreeOk(node) && Flatten(node).Ok?
    ensures TitlesOf(Flatten(node).value, Records(node, parentId))
    decreases node, |node.children| + 1
  {
    FlattenChildrenTitles(node, parentId, |node.children|);
  }

  lemma {:induction false} FlattenChildrenTitles(node: Node, parentId: Option<string>, n: nat)
    requires TreeOk(node) && n <= |node.children| && FlattenChildren(node, n).Ok?
    ensures forall line :: line in FlattenChildren(node, n).value ==>
      line == (node.folderId, node.title)
      || exists r :: r in ChildrenRecords(node, n) && r.folderId == line.0 && r.title == line.1
    decreases node, n
  {
    if n > 0 {
      FlattenChildrenTitles(node, parentId, n - 1);
      FlattenTitles(node.children[n - 1], Some(node.folderId));
    }
  }

  predicate CandidateLe(a: Candidate, b: Candidate) {
    PairLe((a.folderId, a.title), (b.folderId, b.title))
  }

  /**
    Candidates stand in order of id and title, show the folder's own title, and are marked reviewed
    exactly when their id is among the reviewed ones, which are counted.
   */
  lemma {:induction false} CandidatesMeaning(tree: Node, targetId: string, reviewedIds: seq<string>)
    requires TreeOk(tree) && Distinct(Ids(tree)) && ReviewSubtree(tree, targetId, reviewedIds).Ok?
    ensures
      var r := ReviewSubtree(tree, targetId, reviewedIds).value;
      && Sorted(r.candidates, CandidateLe)
      && (forall c :: c in r.candidates ==> (c.reviewed <==> c.folderId in reviewedIds))
      && r.reviewedCount == |ToSet(reviewedIds)|
      && r.pendingCount == |r.candidates| - r.reviewedCount
  {
    var entries := Flatten(Find(tree, targetId).value.value).value;
    var sorted := SortBy(entries, PairLe);
    PairLeIsPreorder();
    SortBySorts(entries, PairLe);
    var candidates := Candidates(sorted, ToSet(reviewedIds));
    forall i, k | 0 <= i < k < |candidates| ensures CandidateLe(candidates[i], candidates[k]) {
      assert PairLe(sorted[i], sorted[k]);
    }
  }

  /** A candidate's title is its folder's. */
  lemma {:induction false} CandidateTitles(tree: Node, targetId: string, reviewedIds: seq<string>, c: Candidate)
    requires TreeOk(tree) && Distinct(Ids(tree)) && ReviewSubtree(tree, targetId, reviewedIds).Ok?
    requires c in ReviewSubtree(tree, targetId, reviewedIds).value.candidates
    ensures c.folderId in TreeMap(tree) && TreeMap(tree)[c.folderId].title == c.title
  {
    var folders := TreeMap(tree);
    ExpansionIndexed(tree);
    FindMeaning(folders, tree, None, targetId);
    var sub := Find(tree, targetId).value.value;
    var parentId :| Holds(folders, Records(sub, parentId));
    FlattenMeaning(sub);
    FlattenTitles(sub, parentId);
    var entries := Flatten(sub).value;
    PairLeIsPreorder();
    SortBySorts(entries, PairLe);
    var candidates := Candidates(SortBy(entries, PairLe), ToSet(reviewedIds));
    var i :| 0 <= i < |candidates| && candidates[i] == c;
    var line := SortBy(entries, PairLe)[i];
    assert line in multiset(SortBy(entries, PairLe));
    assert line in entries;
    var r :| r in Records(sub, parentId) && r.folderId == line.0 && r.title == line.1;
  }
}
