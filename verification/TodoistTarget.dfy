/** The target identity of a Todoist create: which destinations it tells apart. */
module TodoistTarget {
  import opened Common
  import opened Substrings

  datatype Destination = Destination(projectId: string, sectionId: Option<string>, parentId: Option<string>)

  const SECTION := "/section:"
  const PARENT := "/parent:"

  function Places(sectionId: Option<string>, parentId: Option<string>): string {
    Part(SECTION, sectionId) + Part(PARENT, parentId)
  }

  /** `"/".join(parts)` over the project and the optional section and parent. */
  function TargetOf(projectId: string, sectionId: Option<string>, parentId: Option<string>): string {
    "project:" + projectId + Places(sectionId, parentId)
  }

  function Target(d: Destination): string {
    TargetOf(d.projectId, d.sectionId, d.parentId)
  }

  /** The target behind its constant opening. */
  function Written(d: Destination): string {
    d.projectId + Part(SECTION, d.sectionId) + Part(PARENT, d.parentId)
  }

  /** Read a target back: the parent stands behind the first parent mark, the section before it. */
  function Parse(text: string): Destination {
    var (head, parentId) := Partition(text, PARENT);
    var (projectId, sectionId) := Partition(head, SECTION);
    Destination(projectId, sectionId, parentId)
  }

  /** No id before the last place contains the mark of a later place. */
  predicate Canonical(d: Destination) {
    && Free(d.projectId, SECTION) && Free(d.projectId, PARENT)
    && (d.sectionId.Some? ==> Free(d.sectionId.value, PARENT))
  }

  // --- Reading back ----------------------------------------------------------------------

  lemma {:induction false} MarksOpen()
    ensures Opens(SECTION, '/') && Opens(PARENT, '/')
    ensures |SECTION| > 1 && |PARENT| > 1 && SECTION[1] != PARENT[1]
  {
  }

  lemma {:induction false} ParseJoins(text: string)
    ensures Written(Parse(text)) == text
  {
    PartitionJoins(text, PARENT);
    PartitionJoins(Partition(text, PARENT).0, SECTION);
  }

  /** What stands before the parent is free of the parent mark exactly when both ids are. */
  lemma {:induction false} HeadFree(projectId: string, sectionId: Option<string>)
    ensures Free(projectId + Part(SECTION, sectionId), PARENT)
       <==> Free(projectId, PARENT) && (sectionId.Some? ==> Free(sectionId.value, PARENT))
  {
    MarksOpen();
    if sectionId.None? {
      assert projectId + Part(SECTION, sectionId) == projectId;
    } else {
      FreeJoin(projectId, Part(SECTION, sectionId), PARENT, '/');
      FreeBehindMark(SECTION, sectionId.value, PARENT, '/');
    }
  }

  lemma {:induction false} ParseIsCanonical(text: string)
    ensures Canonical(Parse(text))
  {
    var d := Parse(text);
    PartitionJoins(text, PARENT);
    PartitionJoins(Partition(text, PARENT).0, SECTION);
    HeadFree(d.projectId, d.sectionId);
  }

  lemma {:induction false} CanonicalParses(d: Destination)
    requires Canonical(d)
    ensures Parse(Written(d)) == d
  {
    MarksOpen();
    HeadFree(d.projectId, d.sectionId);
    JoinPartitions(d.projectId + Part(SECTION, d.sectionId), PARENT, '/', d.parentId);
    JoinPartitions(d.projectId, SECTION, '/', d.sectionId);
  }

  lemma {:induction false} TargetIsWritten(d: Destination)
    ensures Target(d) == "project:" + Written(d)
    ensures Target(d)[|"project:"|..] == Written(d)
  {
    Regroup("project:", d.projectId, Part(SECTION, d.sectionId), Part(PARENT, d.parentId));
  }

  lemma {:induction false} Regroup(a: string, b: string, c: string, d: string)
    ensures a + b + (c + d) == a + (b + c + d)
  {
  }

  // --- Which destinations share a target -------------------------------------------------

  /** A destination reads back from its own target exactly when it is canonical. */
  lemma {:induction false} CanonicalIff(d: Destination)
    ensures Canonical(d) <==> Parse(Written(d)) == d
  {
    ParseIsCanonical(Written(d));
    if Canonical(d) {
      CanonicalParses(d);
    }
  }

  /** Two destinations share a target exactly when their targets read back as the same destination. */
  lemma {:induction false} TargetsEqualIff(a: Destination, b: Destination)
    ensures Target(a) == Target(b) <==> Parse(Written(a)) == Parse(Written(b))
  {
    TargetIsWritten(a);
    TargetIsWritten(b);
    ParseJoins(Written(a));
    ParseJoins(Written(b));
  }

  /** Among canonical destinations the target determines the destination. */
  lemma {:induction false} CanonicalInjective(a: Destination, b: Destination)
    requires Canonical(a) && Canonical(b) && Target(a) == Target(b)
    ensures a == b
  {
    TargetsEqualIff(a, b);
    CanonicalParses(a);
    CanonicalParses(b);
  }

  /** Every other destination shares its target with exactly one canonical destination, a different one. */
  lemma {:induction false} NonCanonicalShares(d: Destination)
    requires !Canonical(d)
    ensures
      var e := Parse(Written(d));
      && e != d && Canonical(e) && Target(e) == Target(d)
      && forall other :: Canonical(other) && Target(other) == Target(d) ==> other == e
  {
    var e := Parse(Written(d));
    ParseIsCanonical(Written(d));
    ParseJoins(Written(d));
    TargetsEqualIff(d, e);
    CanonicalParses(e);
    forall other | Canonical(other) && Target(other) == Target(d) ensures other == e {
      CanonicalInjective(other, e);
    }
  }

  predicate SlashFree(s: string) {
    '/' !in s
  }

  lemma {:induction false} SlashFreeIsFree(s: string, mark: string)
    requires SlashFree(s) && Opens(mark, '/')
    ensures Free(s, mark)
  {
    FreeMeaning(s, mark);
    forall i: nat ensures !OccursAt(s, mark, i) {
      if i < |s| {
        assert s[i] in s && s[i + 0] != mark[0];
      }
    }
  }

  /** In particular ids without a slash are told apart; the parent may be any text. */
  lemma {:induction false} TargetInjective(a: Destination, b: Destination)
    requires SlashFree(a.projectId) && (a.sectionId.Some? ==> SlashFree(a.sectionId.value))
    requires SlashFree(b.projectId) && (b.sectionId.Some? ==> SlashFree(b.sectionId.value))
    requires Target(a) == Target(b)
    ensures a == b
  {
    MarksOpen();
    forall s: string, mark: string | SlashFree(s) && Opens(mark, '/') ensures Free(s, mark) {
      SlashFreeIsFree(s, mark);
    }
    CanonicalInjective(a, b);
  }

  /** A section mark inside the project id makes a target that names a section. */
  lemma {:induction false} TargetCollision(projectId: string, sectionId: string, parentId: Option<string>)
    ensures TargetOf(projectId + SECTION + sectionId, None, parentId)
         == TargetOf(projectId, Some(sectionId), parentId)
  {
    TargetIsWritten(Destination(projectId + SECTION + sectionId, None, parentId));
    TargetIsWritten(Destination(projectId, Some(sectionId), parentId));
    assert projectId + SECTION + sectionId + "" == projectId + (SECTION + sectionId);
  }
}
