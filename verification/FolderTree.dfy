/** Expansion of a compact folder tree into explicit parent/child records. */
module FolderTree {
  import opened Common
  import opened FolderTraversal

  /** `[folder_id, title, children]`; `Malformed` is any other JSON value. */
  datatype Node = Malformed | Node(folderId: string, title: string, children: seq<Node>)

  datatype CompactEvidence = CompactEvidence(
    schemaVersion: string, capturedOn: string, evidenceBasis: string, sourceRootId: string,
    folderTraversalComplete: bool, itemInventoryComplete: bool, fileContentChecksumsComplete: bool,
    tree: Node)

  datatype CompactPayload = CompactPayload(evidence: CompactEvidence, folderTreeSha256: string)

  type CompactSha256 = CompactEvidence -> string

  // --- The recursive visit ---------------------------------------------------------------

  predicate NodeOk(node: Node) {
    node.Node? && !Blank(node.folderId) && !Blank(node.title)
  }

  function ChildIds(node: Node, n: nat): (r: seq<string>)
    requires node.Node? && n <= |node.children|
    requires forall i :: 0 <= i < n ==> node.children[i].Node?
    ensures |r| == n
    ensures forall i :: 0 <= i < n ==> r[i] == node.children[i].folderId
  {
    seq(n, i requires 0 <= i < n => node.children[i].folderId)
  }

  function MakeRecord(folderId: string, title: string, parentId: Option<string>, childIds: seq<string>): FolderRecord {
    FolderRecord(folderId, title, parentId, childIds, true, 0, [])
  }

  /** The shared `seen` set and `folders` list. */
  datatype Progress = Progress(seen: set<string>, folders: seq<FolderRecord>)

  function Visit(node: Node, parentId: Option<string>, p: Progress): (r: Result<Progress, Error>)
    ensures r.Ok? ==> NodeOk(node)
    decreases node, if node.Node? then |node.children| + 1 else 0
  {
    if !NodeOk(node) then Err(MalformedCompactNode)
    else if node.folderId in p.seen then Err(DuplicateCompactId(node.folderId))
    else
      var r := VisitChildren(node, |node.children|, p.(seen := p.seen + {node.folderId}));
      if r.Err? then r
      else
        var record := MakeRecord(node.folderId, node.title, parentId, ChildIds(node, |node.children|));
        Ok(r.value.(folders := r.value.folders + [record]))
  }

  function VisitChildren(node: Node, n: nat, p: Progress): (r: Result<Progress, Error>)
    requires node.Node? && n <= |node.children|
    ensures r.Ok? ==> forall i :: 0 <= i < n ==> node.children[i].Node?
    decreases node, n
  {
    if n == 0 then Ok(p)
    else
      var r := VisitChildren(node, n - 1, p);
      if r.Err? then r else Visit(node.children[n - 1], Some(node.folderId), r.value)
  }

  lemma {:induction false} VisitErrorStands(node: Node, i: nat, n: nat, p: Progress)
    requires node.Node? && i <= n <= |node.children| && VisitChildren(node, i, p).Err?
    ensures VisitChildren(node, n, p) == VisitChildren(node, i, p)
    decreases n
  {
    if i < n {
      VisitErrorStands(node, i, n - 1, p);
    }
  }

  class CompactTreeExpander {
    var seen: set<string>
    var folders: seq<FolderRecord>

    constructor ()
      ensures State() == Progress({}, [])
    {
      seen, folders := {}, [];
    }

    function State(): Progress
      reads this
    {
      Progress(seen, folders)
    }

    method VisitNode(node: Node, parentId: Option<string>) returns (r: Result<string, Error>)
      modifies this
      ensures
        var expected := Visit(node, parentId, old(State()));
        if expected.Ok? then r == Ok(node.folderId) && State() == expected.value
        else r == Err(expected.error)
      decreases node
    {
      if !NodeOk(node) { return Err(MalformedCompactNode); }
      if node.folderId in seen { return Err(DuplicateCompactId(node.folderId)); }
      seen := seen + {node.folderId};
      ghost var start := State();
      var childIds: seq<string> := [];
      for i := 0 to |node.children|
        invariant VisitChildren(node, i, start).Ok?
        invariant State() == VisitChildren(node, i, start).value
        invariant childIds == ChildIds(node, i)
      {
        var childId := VisitNode(node.children[i], Some(node.folderId));
        if childId.Err? {
          VisitErrorStands(node, i + 1, |node.children|, start);
          return childId;
        }
        childIds := childIds + [childId.value];
      }
      folders := folders + [MakeRecord(node.folderId, node.title, parentId, childIds)];
      r := Ok(node.folderId);
    }
  }

  // --- Expansion and validation of a compact payload -------------------------------------

  function Expanded(e: CompactEvidence, compactDigest: string, records: seq<FolderRecord>): Evidence {
    Evidence(e.schemaVersion, e.capturedOn, e.evidenceBasis, e.sourceRootId, e.folderTraversalComplete,
             e.itemInventoryComplete, e.fileContentChecksumsComplete, records, Some(compactDigest))
  }

  function ExpandCompactTree(p: CompactPayload, csha: CompactSha256, sha: Sha256): Result<Payload, Error> {
    if |p.folderTreeSha256| != 64 then Err(InvalidDigest)
    else if csha(p.evidence) != p.folderTreeSha256 then Err(DigestMismatch)
    else
      var visited := Visit(p.evidence.tree, None, Progress({}, []));
      if visited.Err? then Err(visited.error)
      else if p.evidence.tree.folderId != p.evidence.sourceRootId then Err(CompactRootMismatch)
      else
        var expanded := Expanded(p.evidence, csha(p.evidence), visited.value.folders);
        Ok(Payload(expanded, sha(expanded)))
  }

  method ExpandTree(p: CompactPayload, csha: CompactSha256, sha: Sha256) returns (r: Result<Payload, Error>)
    ensures r == ExpandCompactTree(p, csha, sha)
  {
    if |p.folderTreeSha256| != 64 { return Err(InvalidDigest); }
    var actual := csha(p.evidence);
    if actual != p.folderTreeSha256 { return Err(DigestMismatch); }
    var expander := new CompactTreeExpander();
    var rootId := expander.VisitNode(p.evidence.tree, None);
    if rootId.Err? { return Err(rootId.error); }
    if rootId.value != p.evidence.sourceRootId { return Err(CompactRootMismatch); }
    var expanded := Expanded(p.evidence, actual, expander.folders);
    r := Ok(Payload(expanded, sha(expanded)));
  }

  /** What the validator of a file inventory found beside the tree answers: its summary, or what it raises. */
  type InventoryAnswer = Option<Result<string, string>>

  datatype Loaded = Loaded(report: Report, sourceEvidenceSha256: string, fileInventory: Option<string>)

  datatype LoadError = TreeRefused(error: Error) | InventoryRefused(text: string)

  method ExpandAndValidate(p: CompactPayload, csha: CompactSha256, sha: Sha256, inventory: InventoryAnswer)
    returns (r: Result<Loaded, LoadError>)
    ensures r == LoadExpandAndValidate(p, csha, sha, inventory)
  {
    var expanded := ExpandTree(p, csha, sha);
    if expanded.Err? { return Err(TreeRefused(expanded.error)); }
    var report := ValidateFolderTraversal(expanded.value, sha);
    if report.Err? { return Err(TreeRefused(report.error)); }
    if inventory.None? { return Ok(Loaded(report.value, csha(p.evidence), None)); }
    if inventory.value.Err? { return Err(InventoryRefused(inventory.value.error)); }
    r := Ok(Loaded(report.value, csha(p.evidence), Some(inventory.value.value)));
  }

  function LoadExpandAndValidate(p: CompactPayload, csha: CompactSha256, sha: Sha256, inventory: InventoryAnswer)
    : Result<Loaded, LoadError>
  {
    var expanded := ExpandCompactTree(p, csha, sha);
    if expanded.Err? then Err(TreeRefused(expanded.error))
    else
      var report := Validate(expanded.value, sha);
      if report.Err? then Err(TreeRefused(report.error))
      else
        match inventory
        case None => Ok(Loaded(report.value, csha(p.evidence), None))
        case Some(Err(text)) => Err(InventoryRefused(text))
        case Some(Ok(summary)) => Ok(Loaded(report.value, csha(p.evidence), Some(summary)))
  }
}
