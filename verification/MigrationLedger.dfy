/** The Drive migration ledger: item validation, compilation, serialisation and reloading. */
module MigrationLedger {
  import opened Common

  // --- Items -----------------------------------------------------------------------------

  /** The declared labels; nothing stops a record from carrying another string. */
  datatype Classification =
    | CurrentUntilActivation | HistoricalAuthority | HistoricalEvidence | Duplicate | Obsolete
    | OtherClassification(text: string)
  datatype MigrationStatus = Verified | Staged | Unresolved | OtherStatus(text: string)
  datatype Disposition =
    | RetireAfterActivation | RetainImmutableGithub | RetainLegacyReadOnly | EligibleForRetirement
    | OtherDisposition(text: string)

  datatype Item = Item(
    driveId: string, title: string, mimeType: string, sizeBytes: Option<int>, modifiedTime: string,
    ownedByMe: bool, shared: bool, driveContentSha256: string, classification: Classification,
    githubTarget: Option<string>, githubContentSha256: Option<string>, contentEquivalent: bool,
    migrationStatus: MigrationStatus, disposition: Disposition, notes: string)

  datatype Error =
    | WrongRelease
    | SourceRootRequired
    | BlankId
    | DuplicateId
    | RootNotVisited
    | NegativeTokens
    | IdentityFieldEmpty
    | InvalidSize
    | InvalidChecksum
    | UnsafeTarget
    | LacksGithubEvidence
    | ChecksumsDiffer
    | CurrentMustBeStaged
    | CurrentMustRetireLater
    | AuthorityNotRepresented
    | InvalidDisposition
    | EmptyInventory
    | DuplicateItems
    | SharedTarget
    | NotAList
    | NotAnInteger
    | ReadbackDiffers

  predicate IsHex(c: char) {
    '0' <= c <= '9' || 'a' <= c <= 'f'
  }

  predicate IsSha(s: string) {
    |s| == 64 && forall i :: 0 <= i < |s| ==> IsHex(s[i])
  }

  /** A path component `..` stands at position `i`. */
  predicate StepsUpAt(s: string, i: nat) {
    && i + 2 <= |s| && s[i] == '.' && s[i + 1] == '.'
    && (i == 0 || s[i - 1] == '/') && (i + 2 == |s| || s[i + 2] == '/')
  }

  /** Relative, and no path component is `..`. */
  predicate SafeTarget(s: string) {
    (s == "" || s[0] != '/') && forall i: nat :: i < |s| ==> !StepsUpAt(s, i)
  }

  predicate Resolved(item: Item) {
    item.migrationStatus.Verified? || item.migrationStatus.Staged?
  }

  function StateFault(item: Item): Option<Error> {
    if Resolved(item)
       && (item.githubTarget.None? || item.githubTarget.value == "" || item.githubContentSha256.None?
           || item.githubContentSha256.value == "" || !item.contentEquivalent)
    then Some(LacksGithubEvidence)
    else if Resolved(item) && Some(item.driveContentSha256) != item.githubContentSha256 then Some(ChecksumsDiffer)
    else if item.classification.CurrentUntilActivation? && !item.migrationStatus.Staged? then Some(CurrentMustBeStaged)
    else if item.classification.CurrentUntilActivation? && !item.disposition.RetireAfterActivation? then
      Some(CurrentMustRetireLater)
    else if item.classification.HistoricalAuthority?
            && (!item.migrationStatus.Verified? || !item.disposition.RetainImmutableGithub?)
    then Some(AuthorityNotRepresented)
    else if (item.classification.Duplicate? || item.classification.Obsolete?)
            && !item.disposition.EligibleForRetirement? && !item.disposition.RetainLegacyReadOnly?
    then Some(InvalidDisposition)
    else None
  }

  function ItemFault(item: Item): Option<Error> {
    if item.driveId == "" || item.title == "" || item.mimeType == "" || item.modifiedTime == "" then
      Some(IdentityFieldEmpty)
    else if item.sizeBytes.Some? && item.sizeBytes.value < 0 then Some(InvalidSize)
    else if !IsSha(item.driveContentSha256) then Some(InvalidChecksum)
    else if item.githubContentSha256.Some? && !IsSha(item.githubContentSha256.value) then Some(InvalidChecksum)
    else if item.githubTarget.Some? && !SafeTarget(item.githubTarget.value) then Some(UnsafeTarget)
    else StateFault(item)
  }

  function FirstItemFault(items: seq<Item>): Option<Error> {
    if items == [] then None
    else if ItemFault(items[0]).Some? then ItemFault(items[0])
    else FirstItemFault(items[1..])
  }

  // --- Compilation -----------------------------------------------------------------------

  datatype Base = Base(
    generatedForRelease: string, sourceRootId: string, traversalComplete: bool,
    visitedFolderIds: seq<string>, inaccessibleItemIds: seq<string>, unconsumedPageTokens: int,
    items: seq<Item>)

  datatype Derived = Derived(
    inventoryComplete: bool, inventorySha256: string, unresolvedAuthoritative: nat,
    stagedDependencies: nat, representations: nat, completeForPromotion: bool, readyForRetirement: bool)

  datatype Ledger = Ledger(base: Base, derived: Derived, ledgerSha256: string)

  datatype HashInput = InventoryPayload(base: Base) | LedgerPayload(base: Base, derived: Derived)

  type Sha256 = HashInput -> string

  const RELEASE := "7.0.0rc1"

  function IdsFault(ids: seq<string>): Option<Error> {
    if exists i :: 0 <= i < |ids| && Blank(ids[i]) then Some(BlankId)
    else if !Distinct(ids) then Some(DuplicateId)
    else None
  }

  function DriveIds(items: seq<Item>): seq<string> {
    seq(|items|, i requires 0 <= i < |items| => items[i].driveId)
  }

  /** The GitHub targets of resolved items, in order. */
  function ResolvedTargets(items: seq<Item>): seq<string> {
    if items == [] then []
    else
      var first := items[0];
      (if Resolved(first) && first.githubTarget.Some? then [first.githubTarget.value] else [])
      + ResolvedTargets(items[1..])
  }

  predicate UnresolvedAuthoritative(item: Item) {
    item.migrationStatus.Unresolved?
    && (item.classification.CurrentUntilActivation? || item.classification.HistoricalAuthority?)
  }

  predicate StagedCurrent(item: Item) {
    item.classification.CurrentUntilActivation? && item.migrationStatus.Staged?
  }

  predicate Represented(item: Item) {
    item.githubTarget.Some? && item.githubContentSha256.Some? && item.contentEquivalent
  }

  predicate PromotionReady(item: Item) {
    && Resolved(item)
    && item.githubTarget.Some?
    && item.githubContentSha256.Some?
    && item.contentEquivalent
    && item.driveContentSha256 == item.githubContentSha256.value
  }

  predicate Gating(item: Item) {
    || item.classification.CurrentUntilActivation?
    || item.classification.HistoricalAuthority?
    || item.classification.HistoricalEvidence?
  }

  function Derive(b: Base, sha: Sha256): Derived {
    var inventoryComplete := b.traversalComplete && b.inaccessibleItemIds == [] && b.unconsumedPageTokens == 0;
    var unresolved := CountIf(b.items, UnresolvedAuthoritative);
    var staged := CountIf(b.items, StagedCurrent);
    var complete :=
      inventoryComplete && unresolved == 0
      && forall i :: 0 <= i < |b.items| && Gating(b.items[i]) ==> PromotionReady(b.items[i]);
    var ready :=
      complete && staged == 0
      && forall i :: 0 <= i < |b.items| ==> !b.items[i].classification.CurrentUntilActivation?;
    Derived(inventoryComplete, sha(InventoryPayload(b)), unresolved, staged, CountIf(b.items, Represented),
            complete, ready)
  }

  /** `visited_folder_ids or (source_root_id,)`. */
  function Visited(b: Base): Base {
    if b.visitedFolderIds == [] then b.(visitedFolderIds := [b.sourceRootId]) else b
  }

  function CompileLedger(given: Base, sha: Sha256): Result<Ledger, Error> {
    var b := Visited(given);
    if b.generatedForRelease != RELEASE then Err(WrongRelease)
    else if Blank(b.sourceRootId) then Err(SourceRootRequired)
    else if IdsFault(b.visitedFolderIds).Some? then Err(IdsFault(b.visitedFolderIds).value)
    else if IdsFault(b.inaccessibleItemIds).Some? then Err(IdsFault(b.inaccessibleItemIds).value)
    else if b.sourceRootId !in b.visitedFolderIds then Err(RootNotVisited)
    else if b.unconsumedPageTokens < 0 then Err(NegativeTokens)
    else if FirstItemFault(b.items).Some? then Err(FirstItemFault(b.items).value)
    else if b.items == [] then Err(EmptyInventory)
    else if !Distinct(DriveIds(b.items)) then Err(DuplicateItems)
    else if !Distinct(ResolvedTargets(b.items)) then Err(SharedTarget)
    else
      var d := Derive(b, sha);
      Ok(Ledger(b, d, sha(LedgerPayload(b, d))))
  }

  // --- What validation leaves of the counts ----------------------------------------------

  lemma {:induction false} EveryItemValid(items: seq<Item>, i: nat)
    requires FirstItemFault(items).None? && i < |items|
    ensures StateFault(items[i]).None?
  {
    if i > 0 {
      EveryItemValid(items[1..], i - 1);
    }
  }

  /** On a validated item the two readiness tests collapse to its status. */
  lemma {:induction false} ValidItem(item: Item)
    requires StateFault(item).None?
    ensures !UnresolvedAuthoritative(item)
    ensures StagedCurrent(item) <==> item.classification.CurrentUntilActivation?
    ensures PromotionReady(item) <==> Resolved(item)
    ensures Gating(item) && !item.classification.HistoricalEvidence? ==> Resolved(item)
  {
  }

  ghost predicate EvidenceResolved(items: seq<Item>) {
    forall i :: 0 <= i < |items| && items[i].classification.HistoricalEvidence? ==> Resolved(items[i])
  }

  ghost predicate NoCurrentItem(items: seq<Item>) {
    forall i :: 0 <= i < |items| ==> !items[i].classification.CurrentUntilActivation?
  }

  predicate IsCurrent(item: Item) { item.classification.CurrentUntilActivation? }

  lemma {:induction false} SameCount(items: seq<Item>, p: Item -> bool, q: Item -> bool)
    requires forall i :: 0 <= i < |items| ==> (p(items[i]) <==> q(items[i]))
    ensures CountIf(items, p) == CountIf(items, q)
  {
    CountIfMonotone(items, p, q);
    CountIfMonotone(items, q, p);
  }

  /**
    In every compiled ledger no authoritative item is unresolved, the staged dependencies are the
    current items, promotion readiness asks only for a complete inventory with every
    historical-evidence item resolved, and retirement readiness adds only that no item is current.
   */
  lemma {:induction false} LedgerCollapses(given: Base, sha: Sha256)
    requires CompileLedger(given, sha).Ok?
    ensures
      var l := CompileLedger(given, sha).value;
      && l.derived.unresolvedAuthoritative == 0
      && l.derived.stagedDependencies == CountIf(l.base.items, IsCurrent)
      && (l.derived.completeForPromotion <==> l.derived.inventoryComplete && EvidenceResolved(l.base.items))
      && (l.derived.readyForRetirement <==> l.derived.completeForPromotion && NoCurrentItem(l.base.items))
      && (l.derived.inventoryComplete
          <==> given.traversalComplete && given.inaccessibleItemIds == [] && given.unconsumedPageTokens == 0)
  {
    var items := given.items;
    forall i | 0 <= i < |items|
      ensures StateFault(items[i]).None? && !UnresolvedAuthoritative(items[i])
      ensures StagedCurrent(items[i]) <==> IsCurrent(items[i])
      ensures Gating(items[i]) ==>
        (PromotionReady(items[i]) <==> !items[i].classification.HistoricalEvidence? || Resolved(items[i]))
    {
      EveryItemValid(items, i);
      ValidItem(items[i]);
    }
    CountIfZero(items, UnresolvedAuthoritative);
    SameCount(items, StagedCurrent, IsCurrent);
    CountIfZero(items, StagedCurrent);
  }

  // --- Serialisation ---------------------------------------------------------------------

  /** JSON scalars that Python compares by numeric value: `False == 0 == 0.0`. */
  datatype Number = Bool(b: bool) | Int(i: int) | Float(r: real)

  datatype Json = Num(n: Number) | Text(s: string) | Texts(ts: seq<string>) | Items(items: seq<Item>) | Null

  type Payload = map<string, Json>

  function NumericValue(n: Number): real {
    match n
    case Bool(b) => if b then 1.0 else 0.0
    case Int(i) => i as real
    case Float(r) => r
  }

  /** Python's `==` on decoded JSON. */
  predicate PyEq(a: Json, b: Json) {
    if a.Num? && b.Num? then NumericValue(a.n) == NumericValue(b.n) else a == b
  }

  predicate PyEqual(a: Payload, b: Payload) {
    a.Keys == b.Keys && forall k :: k in a ==> PyEq(a[k], b[k])
  }

  function Serialize(l: Ledger): Payload {
    map[
      "schema_version" := Text("1.0"),
      "generated_for_release" := Text(l.base.generatedForRelease),
      "source_root_id" := Text(l.base.sourceRootId),
      "traversal_complete" := Num(Bool(l.base.traversalComplete)),
      "visited_folder_ids" := Texts(l.base.visitedFolderIds),
      "inaccessible_item_ids" := Texts(l.base.inaccessibleItemIds),
      "unconsumed_page_tokens" := Num(Int(l.base.unconsumedPageTokens)),
      "inventory_complete" := Num(Bool(l.derived.inventoryComplete)),
      "inventory_sha256" := Text(l.derived.inventorySha256),
      "items" := Items(l.base.items),
      "unresolved_authoritative_items" := Num(Int(l.derived.unresolvedAuthoritative)),
      "staged_current_dependencies" := Num(Int(l.derived.stagedDependencies)),
      "verified_github_representations" := Num(Int(l.derived.representations)),
      "complete_for_promotion_readiness" := Num(Bool(l.derived.completeForPromotion)),
      "ready_for_post_promotion_retirement" := Num(Bool(l.derived.readyForRetirement)),
      "ledger_sha256" := Text(l.ledgerSha256)
    ]
  }

  function Get(p: Payload, key: string, default: Json): Json {
    if key in p then p[key] else default
  }

  /** `str(value)`; how a non-string renders is a parameter. */
  function Str(j: Json, render: Json -> string): string {
    if j.Text? then j.s else render(j)
  }

  /** `load_ledger` after the file has been decoded. */
  function Load(p: Payload, sha: Sha256, render: Json -> string): Result<Ledger, Error> {
    var items := Get(p, "items", Null);
    var visited := Get(p, "visited_folder_ids", Null);
    var inaccessible := Get(p, "inaccessible_item_ids", Null);
    var tokens := Get(p, "unconsumed_page_tokens", Null);
    if !items.Items? then Err(NotAList)
    else if !visited.Texts? || !inaccessible.Texts? then Err(NotAList)
    else if !(tokens.Num? && tokens.n.Int?) then Err(NotAnInteger)
    else
      var compiled := CompileLedger(
        Base(Str(Get(p, "generated_for_release", Text("")), render),
             Str(Get(p, "source_root_id", Text("")), render),
             Get(p, "traversal_complete", Null) == Num(Bool(true)),
             visited.ts, inaccessible.ts, tokens.n.i, items.items),
        sha);
      if compiled.Err? then compiled
      else if !PyEqual(p, Serialize(compiled.value)) then Err(ReadbackDiffers)
      else compiled
  }

  // --- Reloading -------------------------------------------------------------------------

  ghost predicate IsCompiled(l: Ledger, sha: Sha256) {
    exists given: Base :: CompileLedger(given, sha) == Ok(l)
  }

  /** A compiled ledger is what its own base fields compile to. */
  lemma {:induction false} CompiledIsFixed(l: Ledger, sha: Sha256)
    requires IsCompiled(l, sha)
    ensures CompileLedger(l.base, sha) == Ok(l)
  {
    var given: Base :| CompileLedger(given, sha) == Ok(l);
    assert l.base == Visited(given) && Visited(l.base) == l.base;
  }

  /** The two places where the loader looks at the kind of a number, not only its value. */
  predicate KindsRead(p: Payload, l: Ledger) {
    && (l.base.traversalComplete ==> Get(p, "traversal_complete", Null) == Num(Bool(true)))
    && Get(p, "unconsumed_page_tokens", Null) == Num(Int(l.base.unconsumedPageTokens))
  }

  ghost predicate Field(q: Payload, key: string, value: Json) {
    key in q && q[key] == value
  }

  lemma {:induction false} SerializedFields(l: Ledger)
    ensures Field(Serialize(l), "items", Items(l.base.items))
    ensures Field(Serialize(l), "visited_folder_ids", Texts(l.base.visitedFolderIds))
    ensures Field(Serialize(l), "inaccessible_item_ids", Texts(l.base.inaccessibleItemIds))
    ensures Field(Serialize(l), "generated_for_release", Text(l.base.generatedForRelease))
    ensures Field(Serialize(l), "source_root_id", Text(l.base.sourceRootId))
    ensures Field(Serialize(l), "traversal_complete", Num(Bool(l.base.traversalComplete)))
    ensures Field(Serialize(l), "unconsumed_page_tokens", Num(Int(l.base.unconsumedPageTokens)))
  {
  }

  lemma {:induction false} FieldShared(p: Payload, q: Payload, key: string)
    requires PyEqual(p, q) && key in q
    ensures key in p && PyEq(p[key], q[key])
  {
  }

  lemma {:induction false} EqualPayloadsShareTexts(p: Payload, l: Ledger)
    requires PyEqual(p, Serialize(l))
    ensures Get(p, "items", Null) == Items(l.base.items)
    ensures Get(p, "visited_folder_ids", Null) == Texts(l.base.visitedFolderIds)
    ensures Get(p, "inaccessible_item_ids", Null) == Texts(l.base.inaccessibleItemIds)
    ensures Get(p, "generated_for_release", Text("")) == Text(l.base.generatedForRelease)
    ensures Get(p, "source_root_id", Text("")) == Text(l.base.sourceRootId)
    ensures "traversal_complete" in p && PyEq(p["traversal_complete"], Num(Bool(l.base.traversalComplete)))
    ensures "unconsumed_page_tokens" in p && PyEq(p["unconsumed_page_tokens"], Num(Int(l.base.unconsumedPageTokens)))
  {
    SerializedFields(l);
    var q := Serialize(l);
    FieldShared(p, q, "items");
    FieldShared(p, q, "visited_folder_ids");
    FieldShared(p, q, "inaccessible_item_ids");
    FieldShared(p, q, "generated_for_release");
    FieldShared(p, q, "source_root_id");
    FieldShared(p, q, "traversal_complete");
    FieldShared(p, q, "unconsumed_page_tokens");
  }

  lemma {:induction false} LoadsCompiled(p: Payload, l: Ledger, sha: Sha256, render: Json -> string)
    requires IsCompiled(l, sha) && PyEqual(p, Serialize(l)) && KindsRead(p, l)
    ensures Load(p, sha, render) == Ok(l)
  {
    EqualPayloadsShareTexts(p, l);
    CompiledIsFixed(l, sha);
  }

  lemma {:induction false} LoadedIsCompiled(p: Payload, l: Ledger, sha: Sha256, render: Json -> string)
    requires Load(p, sha, render) == Ok(l)
    ensures IsCompiled(l, sha) && PyEqual(p, Serialize(l)) && KindsRead(p, l)
  {
    EqualPayloadsShareTexts(p, l);
  }

  /**
    Loading a payload gives a ledger exactly when that ledger is a compiled one, the payload equals
    its serialisation in Python's sense, and the two kind-sensitive fields have the written kind.
   */
  lemma {:induction false} LoadIff(p: Payload, l: Ledger, sha: Sha256, render: Json -> string)
    ensures Load(p, sha, render) == Ok(l)
       <==> IsCompiled(l, sha) && PyEqual(p, Serialize(l)) && KindsRead(p, l)
  {
    if IsCompiled(l, sha) && PyEqual(p, Serialize(l)) && KindsRead(p, l) {
      LoadsCompiled(p, l, sha, render);
    }
    if Load(p, sha, render) == Ok(l) {
      LoadedIsCompiled(p, l, sha, render);
    }
  }

  /** Writing a compiled ledger and loading it back gives the same ledger. */
  lemma {:induction false} RoundTrip(l: Ledger, sha: Sha256, render: Json -> string)
    requires IsCompiled(l, sha)
    ensures Load(Serialize(l), sha, render) == Ok(l)
  {
    SerializedKinds(l);
    LoadIff(Serialize(l), l, sha, render);
  }

  lemma {:induction false} SerializedKinds(l: Ledger)
    ensures KindsRead(Serialize(l), l)
    ensures "unresolved_authoritative_items" in Serialize(l)
    ensures Serialize(l)["unresolved_authoritative_items"] == Num(Int(l.derived.unresolvedAuthoritative))
  {
  }

  predicate IsBool(p: Payload, key: string) {
    key in p && p[key].Num? && p[key].n.Bool?
  }

  predicate IsInt(p: Payload, key: string) {
    key in p && p[key].Num? && p[key].n.Int?
  }

  /** The payload's flags are booleans and its counts integers, as the writer leaves them. */
  predicate WrittenKinds(p: Payload) {
    && IsBool(p, "traversal_complete") && IsBool(p, "inventory_complete")
    && IsBool(p, "complete_for_promotion_readiness") && IsBool(p, "ready_for_post_promotion_retirement")
    && IsInt(p, "unconsumed_page_tokens") && IsInt(p, "unresolved_authoritative_items")
    && IsInt(p, "staged_current_dependencies") && IsInt(p, "verified_github_representations")
  }

  lemma {:induction false} SerializedKindsWritten(l: Ledger)
    ensures WrittenKinds(Serialize(l))
    ensures forall k :: k in Serialize(l) && Serialize(l)[k].Num? ==> k in NUMBERS
  {
  }

  const NUMBERS := {
    "traversal_complete", "inventory_complete",
    "complete_for_promotion_readiness", "ready_for_post_promotion_retirement",
    "unconsumed_page_tokens", "unresolved_authoritative_items", "staged_current_dependencies",
    "verified_github_representations"
  }

  lemma {:induction false} SameKindSameValue(a: Json, b: Json)
    requires PyEq(a, b)
    requires a.Num? && b.Num? ==> (a.n.Bool? && b.n.Bool?) || (a.n.Int? && b.n.Int?)
    ensures a == b
  {
  }

  lemma {:induction false} SameKindsExact(p: Payload, q: Payload)
    requires PyEqual(p, q) && WrittenKinds(p) && WrittenKinds(q)
    requires forall k :: k in q && q[k].Num? ==> k in NUMBERS
    ensures p == q
  {
    forall k | k in p ensures p[k] == q[k] {
      assert PyEq(p[k], q[k]);
      SameKindSameValue(p[k], q[k]);
    }
  }

  /** An accepted payload is the exact serialisation exactly when its own flags are booleans and its counts integers. */
  lemma {:induction false} AcceptedIsExactIff(p: Payload, l: Ledger, sha: Sha256, render: Json -> string)
    requires Load(p, sha, render) == Ok(l)
    ensures p == Serialize(l) <==> WrittenKinds(p)
  {
    LoadIff(p, l, sha, render);
    SerializedKindsWritten(l);
    if WrittenKinds(p) {
      SameKindsExact(p, Serialize(l));
    }
  }

  /** A boolean in place of the zero count is accepted, although it is not what was written. */
  lemma {:induction false} FalseLoadsAsZero(l: Ledger, sha: Sha256, render: Json -> string)
    requires IsCompiled(l, sha)
    ensures
      var p := Serialize(l)["unresolved_authoritative_items" := Num(Bool(false))];
      p != Serialize(l) && Load(p, sha, render) == Ok(l)
  {
    var p := Serialize(l)["unresolved_authoritative_items" := Num(Bool(false))];
    CompiledIsFixed(l, sha);
    LedgerCollapses(l.base, sha);
    SerializedKinds(l);
    assert p["unresolved_authoritative_items"] == Num(Bool(false));
    assert PyEqual(p, Serialize(l));
    assert KindsRead(p, l);
    LoadIff(p, l, sha, render);
  }
}
