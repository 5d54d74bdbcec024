/** Which inventories compile, in their own fields, and what the compiled ledger records of them. */
module LedgerAcceptance {
  import opened Common
  import opened MigrationLedger

  // --- Items -----------------------------------------------------------------------------

  predicate LowercaseSha(s: string) {
    |s| == 64 && forall c :: c in s ==> c in "0123456789abcdef"
  }

  /** Between the two parts the path has the component `..`. */
  predicate StepsUpBetween(path: string, a: string, b: string) {
    path == a + ".." + b && (a == "" || a[|a| - 1] == '/') && (b == "" || b[0] == '/')
  }

  /** A path that is relative and nowhere steps up. */
  ghost predicate StaysBelow(path: string) {
    (path == "" || path[0] != '/') && forall a, b :: !StepsUpBetween(path, a, b)
  }

  /** What a resolved item must show: the same content on GitHub. */
  predicate ShowsSameContent(item: Item) {
    && item.githubTarget.Some? && item.githubTarget.value != ""
    && item.githubContentSha256 == Some(item.driveContentSha256)
    && item.contentEquivalent
  }

  ghost predicate AcceptableItem(item: Item) {
    && item.driveId != "" && item.title != "" && item.mimeType != "" && item.modifiedTime != ""
    && (item.sizeBytes == None || item.sizeBytes.value >= 0)
    && LowercaseSha(item.driveContentSha256)
    && (item.githubContentSha256 == None || LowercaseSha(item.githubContentSha256.value))
    && (item.githubTarget == None || StaysBelow(item.githubTarget.value))
    && (item.migrationStatus == Verified || item.migrationStatus == Staged ==> ShowsSameContent(item))
    && (item.classification == CurrentUntilActivation ==>
          item.migrationStatus == Staged && item.disposition == RetireAfterActivation)
    && (item.classification == HistoricalAuthority ==>
          item.migrationStatus == Verified && item.disposition == RetainImmutableGithub)
    && (item.classification == Duplicate || item.classification == Obsolete ==>
          item.disposition == EligibleForRetirement || item.disposition == RetainLegacyReadOnly)
  }

  lemma {:induction false} ShaIff(s: string)
    ensures IsSha(s) <==> LowercaseSha(s)
  {
    forall c: char ensures IsHex(c) <==> c in "0123456789abcdef" {
      HexDigits(c);
    }
    if LowercaseSha(s) {
      forall i | 0 <= i < |s| ensures IsHex(s[i]) {
        assert s[i] in s;
      }
    }
  }

  lemma {:induction false} HexDigits(c: char)
    ensures IsHex(c) <==> c in "0123456789abcdef"
  {
    var digits := "0123456789abcdef";
    assert digits[0] == '0' && digits[1] == '1' && digits[2] == '2' && digits[3] == '3' && digits[4] == '4';
    assert digits[5] == '5' && digits[6] == '6' && digits[7] == '7' && digits[8] == '8' && digits[9] == '9';
    assert digits[10] == 'a' && digits[11] == 'b' && digits[12] == 'c' && digits[13] == 'd' && digits[14] == 'e';
    assert digits[15] == 'f' && |digits| == 16;
  }

  lemma {:induction false} SafeTargetIff(s: string)
    ensures SafeTarget(s) <==> StaysBelow(s)
  {
    if i: nat :| i < |s| && StepsUpAt(s, i) {
      assert s == s[..i] + ".." + s[i + 2..];
      assert StepsUpBetween(s, s[..i], s[i + 2..]);
    }
    if a, b :| StepsUpBetween(s, a, b) {
      assert s[|a|] == '.' && s[|a| + 1] == '.';
      assert a != "" ==> s[|a| - 1] == a[|a| - 1];
      assert b != "" ==> s[|a| + 2] == b[0];
      assert StepsUpAt(s, |a|);
    }
  }

  lemma {:induction false} ItemAcceptedIff(item: Item)
    ensures ItemFault(item).None? <==> AcceptableItem(item)
  {
    ShaIff(item.driveContentSha256);
    if item.githubContentSha256.Some? {
      ShaIff(item.githubContentSha256.value);
    }
    if item.githubTarget.Some? {
      SafeTargetIff(item.githubTarget.value);
    }
  }

  lemma {:induction false} ItemsAcceptedIff(items: seq<Item>)
    ensures FirstItemFault(items).None? <==> forall item :: item in items ==> AcceptableItem(item)
  {
    if items != [] {
      assert items == [items[0]] + items[1..];
      ItemAcceptedIff(items[0]);
      ItemsAcceptedIff(items[1..]);
    }
  }

  // --- The inventory ---------------------------------------------------------------------

  predicate ResolvedStatus(item: Item) {
    item.migrationStatus == Verified || item.migrationStatus == Staged
  }

  /** No two resolved items have one target. */
  ghost predicate TargetsApart(items: seq<Item>) {
    forall i, k :: 0 <= i < k < |items| && ResolvedStatus(items[i]) && ResolvedStatus(items[k])
                   && items[i].githubTarget.Some? && items[k].githubTarget.Some?
      ==> items[i].githubTarget != items[k].githubTarget
  }

  ghost predicate HasTarget(items: seq<Item>, target: string) {
    exists i :: 0 <= i < |items| && ResolvedStatus(items[i]) && items[i].githubTarget == Some(target)
  }

  lemma {:induction false} TargetsListed(items: seq<Item>, target: string)
    ensures target in ResolvedTargets(items) <==> HasTarget(items, target)
  {
    if items != [] {
      var rest := items[1..];
      TargetsListed(rest, target);
      if i :| 0 <= i < |rest| && ResolvedStatus(rest[i]) && rest[i].githubTarget == Some(target) {
        assert items[i + 1] == rest[i];
      }
      if i :| 0 <= i < |items| && ResolvedStatus(items[i]) && items[i].githubTarget == Some(target) {
        assert i > 0 ==> items[i] == rest[i - 1];
      }
    }
  }

  lemma {:induction false} TargetsApartStep(items: seq<Item>)
    requires items != []
    ensures TargetsApart(items) <==>
      && TargetsApart(items[1..])
      && (ResolvedStatus(items[0]) && items[0].githubTarget.Some? ==>
            !HasTarget(items[1..], items[0].githubTarget.value))
  {
    var rest := items[1..];
    assert forall i :: 0 <= i < |rest| ==> rest[i] == items[i + 1];
    if TargetsApart(items) {
      forall i, k | 0 <= i < k < |rest| && ResolvedStatus(rest[i]) && ResolvedStatus(rest[k])
                    && rest[i].githubTarget.Some? && rest[k].githubTarget.Some?
        ensures rest[i].githubTarget != rest[k].githubTarget
      {
        assert items[i + 1].githubTarget != items[k + 1].githubTarget;
      }
      if i :| 0 <= i < |rest| && ResolvedStatus(rest[i]) && rest[i].githubTarget == items[0].githubTarget {
        assert items[i + 1] == rest[i];
      }
    } else {
      var i, k :| 0 <= i < k < |items| && ResolvedStatus(items[i]) && ResolvedStatus(items[k])
                  && items[i].githubTarget.Some? && items[k].githubTarget.Some?
                  && items[i].githubTarget == items[k].githubTarget;
      assert items[k] == rest[k - 1];
      assert i > 0 ==> items[i] == rest[i - 1];
    }
  }

  lemma {:induction false} TargetsApartIff(items: seq<Item>)
    ensures Distinct(ResolvedTargets(items)) <==> TargetsApart(items)
  {
    if items != [] {
      TargetsApartIff(items[1..]);
      TargetsApartStep(items);
      var head := if ResolvedStatus(items[0]) && items[0].githubTarget.Some? then [items[0].githubTarget.value] else [];
      assert ResolvedTargets(items) == head + ResolvedTargets(items[1..]);
      DistinctConcat(head, ResolvedTargets(items[1..]));
      if head != [] {
        TargetsListed(items[1..], head[0]);
      }
    }
  }

  lemma {:induction false} DriveIdsApart(items: seq<Item>)
    ensures Distinct(DriveIds(items))
       <==> forall i, k :: 0 <= i < k < |items| ==> items[i].driveId != items[k].driveId
  {
    var ids := DriveIds(items);
    assert forall i :: 0 <= i < |items| ==> ids[i] == items[i].driveId;
  }

  predicate NamedOnce(ids: seq<string>) {
    Distinct(ids) && forall x :: x in ids ==> !Blank(x)
  }

  lemma {:induction false} NamedOnceIff(ids: seq<string>)
    ensures IdsFault(ids).None? <==> NamedOnce(ids)
  {
    if NamedOnce(ids) {
      forall i | 0 <= i < |ids| ensures !Blank(ids[i]) {
        assert ids[i] in ids;
      }
    }
  }

  /** The folders visited: those listed, or the root when none is. */
  function VisitedFolders(given: Base): seq<string> {
    if given.visitedFolderIds == [] then [given.sourceRootId] else given.visitedFolderIds
  }

  /** Everything an inventory must satisfy to compile. */
  ghost predicate Compiles(given: Base) {
    && given.generatedForRelease == "7.0.0rc1" && !Blank(given.sourceRootId)
    && NamedOnce(VisitedFolders(given)) && given.sourceRootId in VisitedFolders(given)
    && NamedOnce(given.inaccessibleItemIds)
    && given.unconsumedPageTokens >= 0
    && given.items != []
    && (forall item :: item in given.items ==> AcceptableItem(item))
    && (forall i, k :: 0 <= i < k < |given.items| ==> given.items[i].driveId != given.items[k].driveId)
    && TargetsApart(given.items)
  }

  lemma {:induction false} CompilesIff(given: Base, sha: Sha256)
    ensures CompileLedger(given, sha).Ok? <==> Compiles(given)
  {
    NamedOnceIff(VisitedFolders(given));
    NamedOnceIff(given.inaccessibleItemIds);
    ItemsAcceptedIff(given.items);
    DriveIdsApart(given.items);
    TargetsApartIff(given.items);
  }

  // --- What is recorded ------------------------------------------------------------------

  predicate OnGithub(item: Item) {
    item.githubTarget != None && item.githubContentSha256 != None && item.contentEquivalent
  }

  /** The ledger keeps what it was given, counts the GitHub representations, and hashes what it records. */
  lemma {:induction false} LedgerRecords(given: Base, sha: Sha256)
    requires CompileLedger(given, sha).Ok?
    ensures
      var l := CompileLedger(given, sha).value;
      && l.base == given.(visitedFolderIds := VisitedFolders(given))
      && l.derived.representations == CountIf(given.items, OnGithub)
      && l.derived.inventorySha256 == sha(InventoryPayload(l.base))
      && l.ledgerSha256 == sha(LedgerPayload(l.base, l.derived))
  {
    SameCount(given.items, Represented, OnGithub);
  }

  /** Resolved items, as `EvidenceResolved` counts them, are the verified and the staged ones. */
  lemma {:induction false} ReadinessExactly(given: Base, sha: Sha256)
    requires CompileLedger(given, sha).Ok?
    ensures
      var d := CompileLedger(given, sha).value.derived;
      && d.unresolvedAuthoritative == 0
      && (d.inventoryComplete
          <==> given.traversalComplete && given.inaccessibleItemIds == [] && given.unconsumedPageTokens == 0)
      && (d.completeForPromotion
          <==> d.inventoryComplete && forall item :: item in given.items ==>
                 (item.classification == HistoricalEvidence ==> ResolvedStatus(item)))
      && (d.readyForRetirement
          <==> d.completeForPromotion && forall item :: item in given.items ==>
                 item.classification != CurrentUntilActivation)
  {
    LedgerCollapses(given, sha);
    var items := given.items;
    assert forall i :: 0 <= i < |items| ==> items[i] in items;
  }
}
