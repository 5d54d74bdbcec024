/** What the career-language playbook reports: its replacements retell the revision. */
module CareerReport {
  import opened Common
  import opened Substrings
  import opened CareerLanguage

  predicate NonEmptyVerbs(verbs: seq<string>) {
    forall i :: 0 <= i < |verbs| ==> verbs[i] != ""
  }

  /** The reported replacements, made one after the other. */
  function Replay(statement: string, replacements: seq<(string, string)>, fold: CharFold): string {
    if replacements == [] then statement
    else
      var n := |replacements| - 1;
      var (weak, strong) := replacements[n];
      var before := Replay(statement, replacements[..n], fold);
      if weak == "" then before else ReplaceAll(before, weak, strong, fold)
  }

  /** Every reported replacement is of a listed verb by the text its evidence supports. */
  ghost predicate Supported(
      replacements: seq<(string, string)>, supported: map<string, string>, verbs: seq<string>) {
    forall x :: x in replacements ==> x.0 in verbs && x.0 in supported && x.1 == supported[x.0] && x.1 != ""
  }

  ghost predicate Unsupported(skipped: seq<string>, supported: map<string, string>, verbs: seq<string>) {
    forall x :: x in skipped ==> x in verbs && (x !in supported || supported[x] == "")
  }

  lemma {:induction false} VerbsPrefix(verbs: seq<string>)
    requires NonEmptyVerbs(verbs) && verbs != []
    ensures NonEmptyVerbs(verbs[..|verbs| - 1]) && verbs == verbs[..|verbs| - 1] + [verbs[|verbs| - 1]]
  {
  }

  /**
    The report keeps the statement, names only supported replacements of listed verbs and
    unsupported listed verbs, and its replacements made in order give the revision.
   */
  lemma {:induction false} ReportRetells(
      statement: string, supported: map<string, string>, verbs: seq<string>, fold: CharFold)
    requires NonEmptyVerbs(verbs)
    ensures
      var r := Strengthened(statement, supported, verbs, fold);
      && r.original == statement
      && r.revised == Replay(statement, r.replacements, fold)
      && Supported(r.replacements, supported, verbs)
      && Unsupported(r.skipped, supported, verbs)
  {
    if verbs != [] {
      VerbsPrefix(verbs);
      var front, weak := verbs[..|verbs| - 1], verbs[|verbs| - 1];
      ReportRetells(statement, supported, front, fold);
      var r := Strengthened(statement, supported, front, fold);
      if weak in supported {
        ReplayStep(statement, r.replacements, weak, supported[weak], fold);
      }
    }
  }

  lemma {:induction false} ReplayStep(
      statement: string, replacements: seq<(string, string)>, weak: string, strong: string, fold: CharFold)
    requires weak != ""
    ensures Replay(statement, replacements + [(weak, strong)], fold)
         == ReplaceAll(Replay(statement, replacements, fold), weak, strong, fold)
  {
    assert (replacements + [(weak, strong)])[..|replacements|] == replacements;
  }

  /** Each verb in its turn: reported exactly when the text then has it, replaced exactly when evidence supports it. */
  lemma {:induction false} TurnReports(
      statement: string, supported: map<string, string>, verbs: seq<string>, fold: CharFold, n: nat)
    requires n < |verbs| && NonEmptyVerbs(verbs[..n]) && NonEmptyVerbs(verbs[..n + 1])
    ensures
      var before := Strengthened(statement, supported, verbs[..n], fold);
      var after := Strengthened(statement, supported, verbs[..n + 1], fold);
      var present := Contains(before.revised, verbs[n], fold);
      var backed := verbs[n] in supported && supported[verbs[n]] != "";
      && after.replacements == before.replacements
         + (if present && backed then [(verbs[n], supported[verbs[n]])] else [])
      && after.skipped == before.skipped + (if present && !backed then [verbs[n]] else [])
      && (!(present && backed) ==> after.revised == before.revised)
  {
    assert verbs[..n + 1][..n] == verbs[..n];
  }
}
