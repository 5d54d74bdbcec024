/** What the stack traversal decides once the parent/child closure checks have passed. */
module FolderReachability {
  import opened Common
  import opened FolderTraversal

  /** Following parents from `id` meets the root after exactly `n` steps. */
  ghost predicate ChainTo(folders: Folders, root: string, id: string, n: nat)
    decreases n
  {
    && id in folders
    && if n == 0 then id == root
       else folders[id].parentId.Some? && ChainTo(folders, root, folders[id].parentId.value, n - 1)
  }

  ghost predicate Descends(folders: Folders, root: string, id: string) {
    exists n: nat :: ChainTo(folders, root, id, n)
  }

  /** Closed records in which every parent chain ends at the root. */
  ghost predicate RootedTree(folders: Folders, root: string) {
    Closed(folders, root) && forall id :: id in folders ==> Descends(folders, root, id)
  }

  /** The longest parent chain has exactly `depth` steps. */
  ghost predicate LongestChain(folders: Folders, root: string, depth: nat) {
    && (exists id :: ChainTo(folders, root, id, depth))
    && (forall id, n: nat :: ChainTo(folders, root, id, n) ==> n <= depth)
  }

  lemma {:induction false} ChainUnique(folders: Folders, root: string, id: string, m: nat, n: nat)
    requires root in folders && folders[root].parentId.None?
    requires ChainTo(folders, root, id, m) && ChainTo(folders, root, id, n)
    ensures m == n
    decreases m
  {
    if m > 0 && n > 0 {
      ChainUnique(folders, root, folders[id].parentId.value, m - 1, n - 1);
    }
  }

  // --- Loop invariant of the traversal ---------------------------------------------------

  predicate OnStack(stack: seq<Entry>, id: string) {
    exists i :: 0 <= i < |stack| && stack[i].folderId == id
  }

  ghost predicate StackDistinct(stack: seq<Entry>) {
    forall i, j :: 0 <= i < j < |stack| ==> stack[i].folderId != stack[j].folderId
  }

  /** A folder not yet visited whose depth is right and whose parent has been visited. */
  ghost predicate Pending(folders: Folders, root: string, reached: set<string>, e: Entry) {
    && ChainTo(folders, root, e.folderId, e.depth)
    && e.folderId !in reached
    && (e.folderId != root ==> folders[e.folderId].parentId.value in reached)
  }

  /** A visited folder: within depth, parent visited, children visited or waiting. */
  ghost predicate Visited(
      folders: Folders, root: string, stack: seq<Entry>, reached: set<string>, maxDepth: nat, id: string) {
    && id in folders
    && (exists n: nat :: n <= maxDepth && ChainTo(folders, root, id, n))
    && (id != root ==> folders[id].parentId.Some? && folders[id].parentId.value in reached)
    && (forall c :: c in folders[id].childIds ==> c in reached || OnStack(stack, c))
  }

  ghost predicate Invariant(folders: Folders, root: string, stack: seq<Entry>, reached: set<string>, maxDepth: nat) {
    && StackDistinct(stack)
    && (forall i :: 0 <= i < |stack| ==> Pending(folders, root, reached, stack[i]))
    && (forall id :: id in reached ==> Visited(folders, root, stack, reached, maxDepth, id))
    && (root in reached || OnStack(stack, root))
    && (if reached == {} then maxDepth == 0
        else exists id :: id in reached && ChainTo(folders, root, id, maxDepth))
  }

  lemma {:induction false} NotItsOwnParent(folders: Folders, root: string, id: string, n: nat)
    requires root in folders && folders[root].parentId.None?
    requires ChainTo(folders, root, id, n)
    ensures folders[id].parentId != Some(id)
    decreases n
  {
    if n > 0 && folders[id].parentId == Some(id) {
      NotItsOwnParent(folders, root, id, n - 1);
    }
  }

  lemma {:induction false} NewChildIsPending(
      folders: Folders, root: string, stack: seq<Entry>, reached: set<string>, maxDepth: nat,
      top: Entry, c: string)
    requires Closed(folders, root) && Invariant(folders, root, stack, reached, maxDepth)
    requires Pending(folders, root, reached, top) && c in folders[top.folderId].childIds
    ensures Pending(folders, root, reached + {top.folderId}, Entry(c, top.depth + 1))
    ensures !OnStack(stack, c)
  {
    assert Linked(folders, root, top.folderId);
    assert c in folders && folders[c].parentId == Some(top.folderId);
    assert c in reached ==> Visited(folders, root, stack, reached, maxDepth, c);
    forall i | 0 <= i < |stack| ensures stack[i].folderId != c {
      assert Pending(folders, root, reached, stack[i]);
    }
    NotItsOwnParent(folders, root, top.folderId, top.depth);
  }

  /** The stack after one turn of the loop. */
  function Pushed(folders: Folders, stack: seq<Entry>): seq<Entry>
    requires stack != [] && stack[|stack| - 1].folderId in folders
  {
    var top := stack[|stack| - 1];
    stack[..|stack| - 1] + ChildEntries(folders[top.folderId].childIds, top.depth + 1)
  }

  lemma {:induction false} PushedIsPending(
      folders: Folders, root: string, stack: seq<Entry>, reached: set<string>, maxDepth: nat)
    requires Closed(folders, root) && Invariant(folders, root, stack, reached, maxDepth) && stack != []
    ensures
      var top := stack[|stack| - 1];
      && top.folderId in folders && top.folderId !in reached
      && (forall i :: 0 <= i < |Pushed(folders, stack)| ==>
            Pending(folders, root, reached + {top.folderId}, Pushed(folders, stack)[i]))
      && StackDistinct(Pushed(folders, stack))
  {
    var n := |stack| - 1;
    var top := stack[n];
    assert Pending(folders, root, reached, top);
    var pushed := Pushed(folders, stack);
    assert Linked(folders, root, top.folderId);
    forall i | n <= i < |pushed|
      ensures Pending(folders, root, reached + {top.folderId}, pushed[i]) && !OnStack(stack, pushed[i].folderId)
    {
      NewChildIsPending(folders, root, stack, reached, maxDepth, top, folders[top.folderId].childIds[i - n]);
    }
    forall i | 0 <= i < n
      ensures Pending(folders, root, reached + {top.folderId}, pushed[i]) && OnStack(stack, pushed[i].folderId)
    {
      assert Pending(folders, root, reached, stack[i]) && pushed[i] == stack[i];
    }
    forall i, j | 0 <= i < j < |pushed| ensures pushed[i].folderId != pushed[j].folderId {
      if n <= i {
        assert folders[top.folderId].childIds[i - n] != folders[top.folderId].childIds[j - n];
      }
    }
  }

  lemma {:induction false} VisitedKept(
      folders: Folders, root: string, stack: seq<Entry>, reached: set<string>, maxDepth: nat, id: string)
    requires stack != [] && stack[|stack| - 1].folderId in folders
    requires Visited(folders, root, stack, reached, maxDepth, id)
    ensures
      var top := stack[|stack| - 1];
      Visited(folders, root, Pushed(folders, stack), reached + {top.folderId}, Max(maxDepth, top.depth), id)
  {
    var pushed := Pushed(folders, stack);
    forall i | 0 <= i < |stack| - 1 ensures OnStack(pushed, stack[i].folderId) {
      assert pushed[i] == stack[i];
    }
  }

  lemma {:induction false} TopIsVisited(
      folders: Folders, root: string, stack: seq<Entry>, reached: set<string>, maxDepth: nat)
    requires stack != []
    requires Pending(folders, root, reached, stack[|stack| - 1])
    requires Linked(folders, root, stack[|stack| - 1].folderId)
    ensures
      var top := stack[|stack| - 1];
      Visited(folders, root, Pushed(folders, stack), reached + {top.folderId}, Max(maxDepth, top.depth), top.folderId)
  {
    var n := |stack| - 1;
    var top := stack[n];
    var pushed := Pushed(folders, stack);
    forall i | 0 <= i < |folders[top.folderId].childIds|
      ensures OnStack(pushed, folders[top.folderId].childIds[i])
    {
      assert pushed[n + i].folderId == folders[top.folderId].childIds[i];
    }
  }

  lemma {:induction false} InvariantStep(
      folders: Folders, root: string, stack: seq<Entry>, reached: set<string>, maxDepth: nat)
    requires Closed(folders, root) && Invariant(folders, root, stack, reached, maxDepth) && stack != []
    ensures
      var top := stack[|stack| - 1];
      && top.folderId !in reached && top.folderId in folders
      && Invariant(folders, root, Pushed(folders, stack), reached + {top.folderId}, Max(maxDepth, top.depth))
  {
    var top := stack[|stack| - 1];
    PushedIsPending(folders, root, stack, reached, maxDepth);
    assert Pending(folders, root, reached, top);
    assert Linked(folders, root, top.folderId);
    TopIsVisited(folders, root, stack, reached, maxDepth);
    forall id | id in reached
      ensures Visited(folders, root, Pushed(folders, stack), reached + {top.folderId}, Max(maxDepth, top.depth), id)
    {
      VisitedKept(folders, root, stack, reached, maxDepth, id);
    }
    RootKept(folders, root, stack, reached);
  }

  lemma {:induction false} RootKept(folders: Folders, root: string, stack: seq<Entry>, reached: set<string>)
    requires stack != [] && stack[|stack| - 1].folderId in folders
    requires root in reached || OnStack(stack, root)
    ensures root in reached + {stack[|stack| - 1].folderId} || OnStack(Pushed(folders, stack), root)
  {
    var pushed := Pushed(folders, stack);
    forall i | 0 <= i < |stack| - 1 ensures OnStack(pushed, stack[i].folderId) {
      assert pushed[i] == stack[i];
    }
  }

  lemma {:induction false} TraversalFinishes(
      folders: Folders, root: string, stack: seq<Entry>, reached: set<string>, maxDepth: nat)
    requires ChildrenKnown(folders) && AllKnown(folders, stack)
    requires Closed(folders, root) && Invariant(folders, root, stack, reached, maxDepth)
    ensures
      var outcome := TraverseFrom(folders, stack, reached, maxDepth);
      outcome.Finished? && Invariant(folders, root, [], outcome.reached, outcome.maxDepth)
    decreases folders.Keys - reached
  {
    if stack != [] {
      InvariantStep(folders, root, stack, reached, maxDepth);
      var top := stack[|stack| - 1];
      TraversalFinishes(folders, root, Pushed(folders, stack), reached + {top.folderId}, Max(maxDepth, top.depth));
    }
  }

  lemma {:induction false} DescendantsReached(
      folders: Folders, root: string, reached: set<string>, maxDepth: nat, id: string, n: nat)
    requires Closed(folders, root) && Invariant(folders, root, [], reached, maxDepth)
    requires ChainTo(folders, root, id, n)
    ensures id in reached
    decreases n
  {
    if n > 0 {
      var p := folders[id].parentId.value;
      DescendantsReached(folders, root, reached, maxDepth, p, n - 1);
      assert Linked(folders, root, id);
      assert Visited(folders, root, [], reached, maxDepth, p);
      assert id != root;
    }
  }

  /**
    On closed records the traversal never meets a folder twice, reaches exactly the root's
    descendants, and its depth is the longest parent chain.
   */
  lemma {:induction false} TraversalIsExact(folders: Folders, root: string)
    requires Closed(folders, root) && ChildrenKnown(folders)
    ensures
      var outcome := TraverseFrom(folders, [Entry(root, 0)], {}, 0);
      && outcome.Finished?
      && (forall id :: id in outcome.reached <==> Descends(folders, root, id))
      && LongestChain(folders, root, outcome.maxDepth)
      && (outcome.reached == folders.Keys <==> RootedTree(folders, root))
  {
    assert OnStack([Entry(root, 0)], root) by {
      assert [Entry(root, 0)][0].folderId == root;
    }
    TraversalFinishes(folders, root, [Entry(root, 0)], {}, 0);
    var outcome := TraverseFrom(folders, [Entry(root, 0)], {}, 0);
    var reached, depth := outcome.reached, outcome.maxDepth;
    forall id, n: nat | ChainTo(folders, root, id, n) ensures id in reached && n <= depth {
      DescendantsReached(folders, root, reached, depth, id, n);
      assert Visited(folders, root, [], reached, depth, id);
      var m: nat :| m <= depth && ChainTo(folders, root, id, m);
      ChainUnique(folders, root, id, m, n);
    }
    forall id | id in reached ensures Descends(folders, root, id) && id in folders {
      assert Visited(folders, root, [], reached, depth, id);
    }
  }

  /** The "cycle or duplicate path" error cannot be raised by any evidence whatever. */
  lemma {:induction false} CycleErrorIsUnreachable(p: Payload, sha: Sha256)
    ensures Validate(p, sha).Err? ==> !Validate(p, sha).error.CycleOrDuplicatePath?
  {
    var e := p.evidence;
    if FirstRecordFault(e.folders, |e.folders|).None? && StructureFault(e).None? {
      AcceptedIsClosed(e);
      AcceptedLinksKnown(e);
      TraversalIsExact(FolderMap(e.folders, |e.folders|), e.sourceRootId);
    }
    RecordErrorsAreOther(e.folders, |e.folders|);
    LinkErrorsAreOther(FolderMap(e.folders, |e.folders|), e.sourceRootId, e.folders, |e.folders|);
  }

  lemma {:induction false} RecordErrorsAreOther(records: seq<FolderRecord>, n: nat)
    requires n <= |records|
    ensures FirstRecordFault(records, n).Some? ==> !FirstRecordFault(records, n).value.CycleOrDuplicatePath?
  {
    if n > 0 {
      RecordErrorsAreOther(records, n - 1);
    }
  }

  lemma {:induction false} LinkErrorsAreOther(folders: Folders, root: string, records: seq<FolderRecord>, n: nat)
    requires n <= |records|
    ensures FirstLinkFault(folders, root, records, n).Some? ==>
      !FirstLinkFault(folders, root, records, n).value.CycleOrDuplicatePath?
  {
    if n > 0 {
      LinkErrorsAreOther(folders, root, records, n - 1);
      ChildErrorsAreOther(folders, records[n - 1], |records[n - 1].childIds|);
    }
  }

  lemma {:induction false} ChildErrorsAreOther(folders: Folders, r: FolderRecord, n: nat)
    requires n <= |r.childIds|
    ensures ChildrenFault(folders, r, n).Some? ==> !ChildrenFault(folders, r, n).value.CycleOrDuplicatePath?
  {
    if n > 0 {
      ChildErrorsAreOther(folders, r, n - 1);
    }
  }

  /** Each record is acceptable on its own. */
  predicate WellFormedRecords(records: seq<FolderRecord>) {
    && Distinct(IdsOf(records))
    && forall i :: 0 <= i < |records| ==> RecordFault(records[i], map[]).None?
  }

  lemma {:induction false} AbsentFromMap(records: seq<FolderRecord>, n: nat, id: string)
    requires n <= |records|
    requires forall i :: 0 <= i < n ==> records[i].folderId != id
    ensures id !in FolderMap(records, n)
  {
    if n > 0 {
      AbsentFromMap(records, n - 1, id);
    }
  }

  lemma {:induction false} FreshRecordFault(r: FolderRecord, earlier: Folders)
    requires r.folderId !in earlier
    ensures RecordFault(r, earlier) == RecordFault(r, map[])
  {
  }

  lemma {:induction false} WellFormedHasNoFault(records: seq<FolderRecord>, n: nat)
    requires n <= |records| && WellFormedRecords(records)
    ensures FirstRecordFault(records, n).None?
  {
    if n > 0 {
      WellFormedHasNoFault(records, n - 1);
      LastIdIsNew(records, n);
      AbsentFromMap(records, n - 1, records[n - 1].folderId);
      FreshRecordFault(records[n - 1], FolderMap(records, n - 1));
    }
  }

  lemma {:induction false} NoFaultIffWellFormed(records: seq<FolderRecord>)
    ensures FirstRecordFault(records, |records|).None? <==> WellFormedRecords(records)
  {
    if FirstRecordFault(records, |records|).None? {
      NoRecordFault(records);
      forall i | 0 <= i < |records| ensures RecordFault(records[i], map[]).None? {
        FaultFreePrefix(records, i, |records|);
      }
    } else if WellFormedRecords(records) {
      WellFormedHasNoFault(records, |records|);
    }
  }

  lemma {:induction false} RootedTreeHasRecords(e: Evidence)
    requires WellFormedRecords(e.folders)
    requires RootedTree(FolderMap(e.folders, |e.folders|), e.sourceRootId)
    ensures e.folders != [] && |FolderMap(e.folders, |e.folders|)| == |e.folders|
  {
    DistinctRecordsIndexed(e.folders, |e.folders|);
  }

  /** The closure checks and the traversal together decide whether the records are a rooted tree. */
  lemma {:induction false} GraphAcceptedIff(e: Evidence)
    requires WellFormedRecords(e.folders)
    ensures
      var folders := FolderMap(e.folders, |e.folders|);
      && (StructureFault(e).None? <==> Closed(folders, e.sourceRootId))
      && (StructureFault(e).None? ==>
            && ChildrenKnown(folders) && AllKnown(folders, [Entry(e.sourceRootId, 0)])
            && var outcome := TraverseFrom(folders, [Entry(e.sourceRootId, 0)], {}, 0);
            && outcome.Finished?
            && (outcome.reached == folders.Keys <==> RootedTree(folders, e.sourceRootId))
            && LongestChain(folders, e.sourceRootId, outcome.maxDepth))
  {
    var folders := FolderMap(e.folders, |e.folders|);
    NoFaultIffWellFormed(e.folders);
    StructureAcceptedIffClosed(e);
    if StructureFault(e).None? {
      AcceptedLinksKnown(e);
      TraversalIsExact(folders, e.sourceRootId);
    }
  }

  /**
    Evidence is accepted exactly when its records are well formed and form a tree rooted at the
    source root, and the header, the readiness flags and the digest are in order.  The report
    then counts the records and gives the longest parent chain.
   */
  lemma {:induction false} AcceptedIffRootedTree(p: Payload, sha: Sha256)
    ensures
      var e := p.evidence;
      var folders := FolderMap(e.folders, |e.folders|);
      && (Validate(p, sha).Ok?
          <==> && e.schemaVersion == "1.0" && !Blank(e.sourceRootId)
               && WellFormedRecords(e.folders) && RootedTree(folders, e.sourceRootId)
               && FlagFault(e).None? && DigestFault(p, sha).None?)
      && (Validate(p, sha).Ok? ==>
            && Validate(p, sha).value.folderCount == |e.folders|
            && LongestChain(folders, e.sourceRootId, Validate(p, sha).value.maxDepth))
  {
    var e := p.evidence;
    var folders := FolderMap(e.folders, |e.folders|);
    NoFaultIffWellFormed(e.folders);
    if WellFormedRecords(e.folders) {
      GraphAcceptedIff(e);
      if RootedTree(folders, e.sourceRootId) {
        RootedTreeHasRecords(e);
      }
    }
  }
}
