/** Case-insensitive replacement, and the career-language playbook built on it. */
module CareerLanguage {
  import opened Common
  import opened Substrings

  /** Case folding that keeps every string's length, character by character. */
  type CharFold = char -> char

  function Fold(s: string, fold: CharFold): (r: string)
    ensures |r| == |s|
  {
    if s == "" then "" else [fold(s[0])] + Fold(s[1..], fold)
  }

  /** Replace the leftmost occurrence, then go on behind it in the original text. */
  function ReplaceAll(value: string, weak: string, strong: string, fold: CharFold): string
    requires weak != ""
    decreases |value|
  {
    var found := FindFrom(Fold(value, fold), Fold(weak, fold), 0);
    if found.None? then value
    else value[..found.value] + strong + ReplaceAll(value[found.value + |weak|..], weak, strong, fold)
  }

  // --- The loop refines the recursion ----------------------------------------------------

  lemma {:induction false} FoldConcat(a: string, b: string, fold: CharFold)
    ensures Fold(a + b, fold) == Fold(a, fold) + Fold(b, fold)
  {
    if a == "" {
      assert a + b == b;
    } else {
      FoldConcat(a[1..], b, fold);
      assert (a + b)[1..] == a[1..] + b;
    }
  }

  lemma {:induction false} FoldSlice(s: string, i: nat, n: nat, fold: CharFold)
    requires i <= n <= |s|
    ensures Fold(s[i..n], fold) == Fold(s, fold)[i..n]
  {
    FoldConcat(s[..i], s[i..n], fold);
    FoldConcat(s[..i] + s[i..n], s[n..], fold);
    assert s == s[..i] + s[i..n] + s[n..];
  }

  /** Searching on from `n` finds what searching the text behind `n` finds. */
  lemma {:induction false} FindBehind(value: string, n: nat, weak: string, fold: CharFold)
    requires n <= |value|
    ensures FindFrom(Fold(value, fold), Fold(weak, fold), n)
         == Shifted(FindFrom(Fold(value[n..], fold), Fold(weak, fold), 0), n)
  {
    assert value == value[..n] + value[n..];
    FoldConcat(value[..n], value[n..], fold);
    FindSkipsPrefix(Fold(value[..n], fold), Fold(value[n..], fold), Fold(weak, fold));
  }

  lemma {:induction false} ReplaceStep(rest: string, weak: string, strong: string, fold: CharFold, k: nat)
    requires weak != "" && FindFrom(Fold(rest, fold), Fold(weak, fold), 0) == Some(k)
    ensures k + |weak| <= |rest|
    ensures ReplaceAll(rest, weak, strong, fold)
         == rest[..k] + strong + ReplaceAll(rest[k + |weak|..], weak, strong, fold)
  {
  }

  /** The text when what lies before `n` is final and what lies behind it is original text. */
  function Finished(value: string, n: nat, weak: string, strong: string, fold: CharFold): string
    requires weak != "" && n <= |value|
  {
    value[..n] + ReplaceAll(value[n..], weak, strong, fold)
  }

  lemma {:induction false} Cutting(value: string, n: nat, at: nat, behind: nat, tail: string, strong: string)
    requires n <= at <= behind <= |value|
    ensures value[..n] + (value[n..][..at - n] + strong + tail) == (value[..at] + strong) + tail
    ensures value[n..][behind - n..] == value[behind..]
  {
    assert value[..n] + value[n..][..at - n] == value[..at];
  }

  lemma {:induction false} Splicing(head: string, strong: string, rest: string)
    ensures (head + strong + rest)[..|head| + |strong|] == head + strong
    ensures (head + strong + rest)[|head| + |strong|..] == rest
  {
  }

  function Spliced(value: string, at: nat, width: nat, strong: string): (r: string)
    requires at + width <= |value|
    ensures |r| == |value| - width + |strong|
  {
    value[..at] + strong + value[at + width..]
  }

  lemma {:induction false} BehindTwice(value: string, n: nat, at: nat, width: nat)
    requires n <= at && at + width <= |value|
    ensures value[n..][at - n + width..] == value[at + width..]
  {
  }

  lemma {:induction false} ReplaceBehind(
      value: string, n: nat, at: nat, weak: string, strong: string, fold: CharFold)
    requires weak != "" && n <= at && at + |weak| <= |value|
    requires FindFrom(Fold(value, fold), Fold(weak, fold), n) == Some(at)
    ensures ReplaceAll(value[n..], weak, strong, fold)
         == value[n..][..at - n] + strong + ReplaceAll(value[at + |weak|..], weak, strong, fold)
  {
    var rest, k := value[n..], at - n;
    assert FindFrom(Fold(rest, fold), Fold(weak, fold), 0) == Some(k) by {
      FindBehind(value, n, weak, fold);
    }
    assert rest[k + |weak|..] == value[at + |weak|..] by {
      BehindTwice(value, n, at, |weak|);
    }
    ReplaceStep(rest, weak, strong, fold, k);
  }

  lemma {:induction false} TurnAdvances(value: string, n: nat, at: nat, weak: string, strong: string, fold: CharFold)
    requires weak != "" && n <= at && at + |weak| <= |value|
    requires FindFrom(Fold(value, fold), Fold(weak, fold), n) == Some(at)
    ensures Finished(Spliced(value, at, |weak|, strong), at + |strong|, weak, strong, fold)
         == Finished(value, n, weak, strong, fold)
  {
    var tail := ReplaceAll(value[at + |weak|..], weak, strong, fold);
    ReplaceBehind(value, n, at, weak, strong, fold);
    Cutting(value, n, at, at + |weak|, tail, strong);
    Splicing(value[..at], strong, value[at + |weak|..]);
  }

  lemma {:induction false} FinishedAtStart(value: string, weak: string, strong: string, fold: CharFold)
    requires weak != ""
    ensures Finished(value, 0, weak, strong, fold) == ReplaceAll(value, weak, strong, fold)
  {
    assert value[0..] == value;
  }

  lemma {:induction false} LoopEnds(value: string, n: nat, weak: string, strong: string, fold: CharFold)
    requires weak != "" && n <= |value| && FindFrom(Fold(value, fold), Fold(weak, fold), n).None?
    ensures Finished(value, n, weak, strong, fold) == value
  {
    FindBehind(value, n, weak, fold);
    assert value == value[..n] + value[n..];
  }

  method ReplaceCasefold(given: string, weak: string, strong: string, fold: CharFold) returns (value: string)
    requires weak != ""
    ensures value == ReplaceAll(given, weak, strong, fold)
  {
    value := given;
    var target := Fold(weak, fold);
    var start := FindFrom(Fold(value, fold), target, 0);
    ghost var n: nat := 0;
    ghost var result := Finished(given, 0, weak, strong, fold);
    while start.Some?
      invariant n <= |value| && Finished(value, n, weak, strong, fold) == result
      invariant start == FindFrom(Fold(value, fold), target, n)
      decreases |value| - n
    {
      var at := start.value;
      TurnAdvances(value, n, at, weak, strong, fold);
      value := Spliced(value, at, |weak|, strong);
      var next := at + |strong|;
      start := FindFrom(Fold(value, fold), target, next);
      n := next;
    }
    LoopEnds(value, n, weak, strong, fold);
    FinishedAtStart(given, weak, strong, fold);
  }

  // --- What the replacement means --------------------------------------------------------

  /** A text cut at its leftmost non-overlapping matches: one more gap than matches. */
  datatype Cut = Cut(gaps: seq<string>, matches: seq<string>)

  function CutAt(value: string, weak: string, fold: CharFold): (r: Cut)
    requires weak != ""
    ensures |r.gaps| == |r.matches| + 1
    decreases |value|
  {
    var found := FindFrom(Fold(value, fold), Fold(weak, fold), 0);
    if found.None? then Cut([value], [])
    else
      var i := found.value;
      var below := CutAt(value[i + |weak|..], weak, fold);
      Cut([value[..i]] + below.gaps, [value[i..i + |weak|]] + below.matches)
  }

  /** Gaps and the texts between them, alternating. */
  function Interleave(gaps: seq<string>, between: seq<string>): string
    requires |gaps| == |between| + 1
  {
    if between == [] then gaps[0] else gaps[0] + between[0] + Interleave(gaps[1..], between[1..])
  }

  function Repeat(s: string, n: nat): (r: seq<string>)
    ensures |r| == n && forall i :: 0 <= i < n ==> r[i] == s
  {
    seq(n, _ => s)
  }

  /** The target does not occur in the text, whatever the case. */
  predicate FreeOf(s: string, weak: string, fold: CharFold) {
    FindFrom(Fold(s, fold), Fold(weak, fold), 0).None?
  }

  /** A gap and the match behind it. */
  ghost predicate GoodPair(gap: string, text: string, weak: string, fold: CharFold) {
    && Fold(text, fold) == Fold(weak, fold)
    && FindFrom(Fold(gap + text, fold), Fold(weak, fold), 0) == Some(|gap|)
    && FreeOf(gap, weak, fold)
  }

  lemma {:induction false} FirstPairGood(value: string, weak: string, fold: CharFold, i: nat)
    requires weak != "" && FindFrom(Fold(value, fold), Fold(weak, fold), 0) == Some(i)
    ensures GoodPair(value[..i], value[i..i + |weak|], weak, fold)
  {
    FirstInPrefix(Fold(value, fold), Fold(weak, fold), i);
    FoldSlice(value, 0, i, fold);
    FoldSlice(value, 0, i + |weak|, fold);
    FoldSlice(value, i, i + |weak|, fold);
    assert value[0..i] == value[..i] && value[0..i + |weak|] == value[..i + |weak|];
    assert Fold(value, fold)[0..i] == Fold(value, fold)[..i];
    assert Fold(value, fold)[0..i + |weak|] == Fold(value, fold)[..i + |weak|];
    assert value[..i] + value[i..i + |weak|] == value[..i + |weak|];
  }

  lemma {:induction false} InterleaveStep(gap: string, text: string, gaps: seq<string>, between: seq<string>)
    requires |gaps| == |between| + 1
    ensures Interleave([gap] + gaps, [text] + between) == gap + text + Interleave(gaps, between)
  {
    assert ([gap] + gaps)[1..] == gaps && ([text] + between)[1..] == between;
  }

  /** The input is its gaps with the matched texts between them. */
  lemma {:induction false} CutRejoins(value: string, weak: string, fold: CharFold)
    requires weak != ""
    ensures Interleave(CutAt(value, weak, fold).gaps, CutAt(value, weak, fold).matches) == value
    decreases |value|
  {
    var found := FindFrom(Fold(value, fold), Fold(weak, fold), 0);
    if found.Some? {
      var i := found.value;
      var below := CutAt(value[i + |weak|..], weak, fold);
      CutRejoins(value[i + |weak|..], weak, fold);
      InterleaveStep(value[..i], value[i..i + |weak|], below.gaps, below.matches);
      assert value == value[..i] + value[i..i + |weak|] + value[i + |weak|..];
    }
  }

  lemma {:induction false} RepeatStep(s: string, n: nat)
    ensures Repeat(s, n + 1) == [s] + Repeat(s, n)
  {
  }

  /** The result is the same gaps with the replacement between them. */
  lemma {:induction false} ReplacementKeepsGaps(value: string, weak: string, strong: string, fold: CharFold)
    requires weak != ""
    ensures
      var cut := CutAt(value, weak, fold);
      Interleave(cut.gaps, Repeat(strong, |cut.matches|)) == ReplaceAll(value, weak, strong, fold)
    decreases |value|
  {
    var found := FindFrom(Fold(value, fold), Fold(weak, fold), 0);
    if found.Some? {
      var i := found.value;
      var below := CutAt(value[i + |weak|..], weak, fold);
      ReplacementKeepsGaps(value[i + |weak|..], weak, strong, fold);
      RepeatStep(strong, |below.matches|);
      InterleaveStep(value[..i], strong, below.gaps, Repeat(strong, |below.matches|));
      ReplaceStep(value, weak, strong, fold, i);
    }
  }

  /** Every match follows its gap as the first occurrence, and the last gap has none. */
  ghost predicate LeftmostCut(cut: Cut, weak: string, fold: CharFold) {
    && |cut.gaps| == |cut.matches| + 1
    && (forall i :: 0 <= i < |cut.matches| ==> GoodPair(cut.gaps[i], cut.matches[i], weak, fold))
    && FreeOf(cut.gaps[|cut.matches|], weak, fold)
  }

  lemma {:induction false} LeftmostStep(gap: string, text: string, below: Cut, weak: string, fold: CharFold)
    requires GoodPair(gap, text, weak, fold) && LeftmostCut(below, weak, fold)
    ensures LeftmostCut(Cut([gap] + below.gaps, [text] + below.matches), weak, fold)
  {
    var cut := Cut([gap] + below.gaps, [text] + below.matches);
    forall i | 0 <= i < |cut.matches| ensures GoodPair(cut.gaps[i], cut.matches[i], weak, fold) {
      if i > 0 {
        assert GoodPair(below.gaps[i - 1], below.matches[i - 1], weak, fold);
      }
    }
  }

  /**
    Every match is the target in some case and the first occurrence in its gap and itself, and no
    gap, the last included, contains the target: nothing is missed and nothing inserted is looked at.
   */
  lemma {:induction false} MatchesAreLeftmost(value: string, weak: string, fold: CharFold)
    requires weak != ""
    ensures LeftmostCut(CutAt(value, weak, fold), weak, fold)
    decreases |value|
  {
    var found := FindFrom(Fold(value, fold), Fold(weak, fold), 0);
    if found.Some? {
      var i := found.value;
      MatchesAreLeftmost(value[i + |weak|..], weak, fold);
      FirstPairGood(value, weak, fold, i);
      LeftmostStep(value[..i], value[i..i + |weak|], CutAt(value[i + |weak|..], weak, fold), weak, fold);
    }
  }

  // --- The playbook ----------------------------------------------------------------------

  const WEAK_VERBS: seq<string> := ["helped", "supported", "assisted", "worked on", "was involved in"]

  datatype CareerLanguage = CareerLanguage(
    original: string, revised: string, replacements: seq<(string, string)>, skipped: seq<string>)

  /** `weak in revised.casefold()`. */
  predicate Contains(s: string, weak: string, fold: CharFold) {
    FindFrom(Fold(s, fold), weak, 0).Some?
  }

  function Replacement(supported: map<string, string>, weak: string): Option<string> {
    if weak in supported && supported[weak] != "" then Some(supported[weak]) else None
  }

  function Strengthened(
      statement: string, supported: map<string, string>, verbs: seq<string>, fold: CharFold): CareerLanguage
    requires forall i :: 0 <= i < |verbs| ==> verbs[i] != ""
  {
    if verbs == [] then CareerLanguage(statement, statement, [], [])
    else
      var n := |verbs| - 1;
      var weak := verbs[n];
      var r := Strengthened(statement, supported, verbs[..n], fold);
      if !Contains(r.revised, weak, fold) then r
      else
        match Replacement(supported, weak)
        case Some(strong) =>
          r.(revised := ReplaceAll(r.revised, weak, strong, fold), replacements := r.replacements + [(weak, strong)])
        case None => r.(skipped := r.skipped + [weak])
  }

  // --- What can still occur --------------------------------------------------------------

  /** Some gap between the matches contains the verb. */
  ghost predicate InGaps(gaps: seq<string>, verb: string, fold: CharFold) {
    exists i :: 0 <= i < |gaps| && Contains(gaps[i], verb, fold)
  }

  lemma {:induction false} InGapsStep(gap: string, gaps: seq<string>, verb: string, fold: CharFold)
    ensures InGaps([gap] + gaps, verb, fold) <==> Contains(gap, verb, fold) || InGaps(gaps, verb, fold)
  {
    var all := [gap] + gaps;
    assert all[0] == gap && forall i :: 0 <= i < |gaps| ==> all[i + 1] == gaps[i];
    if i :| 0 <= i < |gaps| && Contains(gaps[i], verb, fold) {
      assert Contains(all[i + 1], verb, fold);
    }
    if i :| 0 <= i < |all| && Contains(all[i], verb, fold) {
      assert i > 0 ==> Contains(gaps[i - 1], verb, fold);
    }
  }

  /** No occurrence of the verb can lie partly in the inserted text and partly beside it. */
  predicate SetApart(strong: string, verb: string, fold: CharFold) {
    Apart(Fold(strong, fold), verb)
  }

  lemma {:induction false} ContainsAround(gap: string, strong: string, rest: string, verb: string, fold: CharFold)
    requires SetApart(strong, verb, fold)
    ensures Contains(gap + strong + rest, verb, fold)
       <==> Contains(gap, verb, fold) || Contains(strong, verb, fold) || Contains(rest, verb, fold)
  {
    FoldConcat(gap + strong, rest, fold);
    FoldConcat(gap, strong, fold);
    FreeAround(Fold(gap, fold), Fold(strong, fold), Fold(rest, fold), verb);
  }

  /**
    After a turn a verb occurs exactly when it stood between the matches, or when a match was
    replaced by a text that contains it: then a later verb rewrites inserted text.
   */
  lemma {:induction false} OccursAfterTurn(value: string, weak: string, strong: string, verb: string, fold: CharFold)
    requires weak != "" && SetApart(strong, verb, fold)
    ensures
      var cut := CutAt(value, weak, fold);
      Contains(ReplaceAll(value, weak, strong, fold), verb, fold)
      <==> InGaps(cut.gaps, verb, fold) || (cut.matches != [] && Contains(strong, verb, fold))
    decreases |value|
  {
    var found := FindFrom(Fold(value, fold), Fold(weak, fold), 0);
    if found.None? {
      assert CutAt(value, weak, fold).gaps == [value];
      assert InGaps([value], verb, fold) <==> Contains([value][0], verb, fold);
    } else {
      var i := found.value;
      var rest := value[i + |weak|..];
      var below := CutAt(rest, weak, fold);
      OccursAfterTurn(rest, weak, strong, verb, fold);
      ReplaceStep(value, weak, strong, fold, i);
      ContainsAround(value[..i], strong, ReplaceAll(rest, weak, strong, fold), verb, fold);
      InGapsStep(value[..i], below.gaps, verb, fold);
    }
  }

  /** A verb survives a turn that is set apart from it exactly when it occurred and its replacement contains it. */
  lemma {:induction false} SurvivesOwnTurnIff(value: string, weak: string, strong: string, fold: CharFold)
    requires weak != "" && Fold(weak, fold) == weak && SetApart(strong, weak, fold)
    ensures Contains(ReplaceAll(value, weak, strong, fold), weak, fold)
       <==> Contains(value, weak, fold) && Contains(strong, weak, fold)
  {
    var cut := CutAt(value, weak, fold);
    OccursAfterTurn(value, weak, strong, weak, fold);
    MatchesAreLeftmost(value, weak, fold);
    forall i | 0 <= i < |cut.gaps| ensures !Contains(cut.gaps[i], weak, fold) {
      assert i < |cut.matches| ==> GoodPair(cut.gaps[i], cut.matches[i], weak, fold);
    }
  }

  // --- For which replacements a turn leaves nothing behind ---------------------------------

  /** Whatever the text, the verb survives its turn only where it occurred and its replacement contains it. */
  ghost predicate SurvivesOnlyByReplacement(weak: string, strong: string, fold: CharFold)
    requires weak != ""
  {
    forall value :: Contains(ReplaceAll(value, weak, strong, fold), weak, fold)
               <==> Contains(value, weak, fold) && Contains(strong, weak, fold)
  }

  lemma {:induction false} ContainingSurvives(value: string, weak: string, strong: string, fold: CharFold)
    requires weak != "" && Fold(weak, fold) == weak && Contains(strong, weak, fold)
    ensures Contains(ReplaceAll(value, weak, strong, fold), weak, fold) <==> Contains(value, weak, fold)
  {
    var found := FindFrom(Fold(value, fold), weak, 0);
    if found.Some? {
      var i := found.value;
      var tail := ReplaceAll(value[i + |weak|..], weak, strong, fold);
      ReplaceStep(value, weak, strong, fold, i);
      FoldConcat(value[..i] + strong, tail, fold);
      FoldConcat(value[..i], strong, fold);
      InsideOccurs(Fold(value[..i], fold), Fold(strong, fold), Fold(tail, fold), weak);
    }
  }

  lemma {:induction false} InsideOccurs(a: string, m: string, b: string, mark: string)
    requires !Free(m, mark)
    ensures !Free(a + m + b, mark)
  {
    FreeMeaning(m, mark);
    FreeMeaning(a + m + b, mark);
    var i: nat :| OccursAt(m, mark, i);
    var s := a + m + b;
    OccursBehind(a, m, mark, i);
    assert s[..|a + m|] == a + m;
    OccursInPrefix(s, mark, |a + m|, |a| + i);
  }

  /** One verb between two texts shorter than itself is replaced, and nothing else is. */
  lemma {:induction false} FramedReplaced(a: string, weak: string, b: string, strong: string, fold: CharFold)
    requires weak != "" && Fold(weak, fold) == weak && Borderless(weak) && |a| < |weak| && |b| < |weak|
    ensures Contains(a + weak + b, weak, fold)
    ensures ReplaceAll(a + weak + b, weak, strong, fold) == a + strong + b
  {
    var value := a + weak + b;
    FoldConcat(a + weak, b, fold);
    FoldConcat(a, weak, fold);
    FirstInFrame(Fold(a, fold), weak, Fold(b, fold));
    ReplaceStep(value, weak, strong, fold, |a|);
    assert value[..|a|] == a && value[|a| + |weak|..] == b;
    assert FindFrom(Fold(b, fold), weak, 0).None?;
    assert ReplaceAll(b, weak, strong, fold) == b;
  }

  lemma {:induction false} FixedSlice(weak: string, i: nat, n: nat, fold: CharFold)
    requires Fold(weak, fold) == weak && i <= n <= |weak|
    ensures Fold(weak[i..n], fold) == weak[i..n]
  {
    FoldSlice(weak, i, n, fold);
  }

  lemma {:induction false} FrameFixed(m: string, weak: string, fold: CharFold, o: int)
    requires Fold(weak, fold) == weak && -|weak| < o < |m|
    ensures Fold(Before(weak, o), fold) == Before(weak, o) && Fold(Behind(m, weak, o), fold) == Behind(m, weak, o)
  {
    if o < 0 {
      FixedSlice(weak, 0, -o, fold);
      assert weak[0..-o] == weak[..-o];
    }
    if |m| < o + |weak| {
      FixedSlice(weak, |m| - o, |weak|, fold);
      assert weak[|m| - o..|weak|] == weak[|m| - o..];
    }
  }

  /** Around a replacement that is not set apart, parts of the verb make up the verb again. */
  lemma {:induction false} OverlapSurvives(weak: string, strong: string, fold: CharFold, o: int)
    requires weak != "" && Fold(weak, fold) == weak && Borderless(weak) && Straddles(Fold(strong, fold), weak, o)
    ensures
      var value := Before(weak, o) + weak + Behind(Fold(strong, fold), weak, o);
      Contains(value, weak, fold) && Contains(ReplaceAll(value, weak, strong, fold), weak, fold)
  {
    var m := Fold(strong, fold);
    var a, b := Before(weak, o), Behind(m, weak, o);
    StraddlingOccurs(m, weak, o);
    FramedReplaced(a, weak, b, strong, fold);
    FrameFixed(m, weak, fold, o);
    FoldConcat(a + strong, b, fold);
    FoldConcat(a, strong, fold);
    FreeMeaning(a + m + b, weak);
  }

  /**
    For a verb that cannot overlap itself, no text makes it survive its turn except through a
    replacement that contains it, exactly when the replacement contains it or is set apart from it.
   */
  lemma {:induction false} SurvivesOnlyIff(weak: string, strong: string, fold: CharFold)
    requires weak != "" && Fold(weak, fold) == weak && Borderless(weak)
    ensures SurvivesOnlyByReplacement(weak, strong, fold)
       <==> Contains(strong, weak, fold) || SetApart(strong, weak, fold)
  {
    if Contains(strong, weak, fold) {
      forall value
        ensures Contains(ReplaceAll(value, weak, strong, fold), weak, fold) <==> Contains(value, weak, fold)
      {
        ContainingSurvives(value, weak, strong, fold);
      }
    } else if SetApart(strong, weak, fold) {
      forall value ensures !Contains(ReplaceAll(value, weak, strong, fold), weak, fold) {
        SurvivesOwnTurnIff(value, weak, strong, fold);
      }
    } else {
      var o :| -|weak| < o < |Fold(strong, fold)| && Straddles(Fold(strong, fold), weak, o);
      OverlapSurvives(weak, strong, fold, o);
      var value := Before(weak, o) + weak + Behind(Fold(strong, fold), weak, o);
      assert Contains(ReplaceAll(value, weak, strong, fold), weak, fold);
    }
  }

  /** The last letter of the first four verbs and the opening of the fifth do not come again. */
  lemma {:induction false} WeakVerbsBorderless()
    ensures forall i :: 0 <= i < |WEAK_VERBS| ==> WEAK_VERBS[i] != "" && Borderless(WEAK_VERBS[i])
  {
    LastLetterOnce("helped");
    LastLetterOnce("supported");
    LastLetterOnce("assisted");
    LastLetterOnce("worked on");
    var fifth := "was involved in";
    forall d: nat | 0 < d < |fifth| ensures !Border(fifth, d) {
      assert fifth[d + 0] != fifth[0];
    }
  }

  lemma {:induction false} LastLetterOnce(mark: string)
    requires mark != "" && forall i :: 0 <= i < |mark| - 1 ==> mark[i] != mark[|mark| - 1]
    ensures Borderless(mark)
  {
    forall d: nat | 0 < d < |mark| ensures !Border(mark, d) {
      var j := |mark| - 1 - d;
      assert mark[d + j] != mark[j];
    }
  }

  /** "led" stands apart from "helped". */
  lemma {:induction false} LedSetApart(fold: CharFold)
    requires Fold("led", fold) == "led"
    ensures SetApart("led", "helped", fold)
  {
    var m, mark := "led", "helped";
    forall o | -|mark| < o < |m| ensures !Straddles(m, mark, o) {
      if o >= 0 {
        assert mark[0] != m[o + 0];
      } else {
        var j := if o == -2 then 3 else -o;
        assert mark[j] != m[o + j];
      }
    }
  }

  /** "directed" does not stand apart from "supported", which survives although its replacement does not contain it. */
  lemma {:induction false} DirectedLeavesSupported(fold: CharFold)
    requires Fold("supported", fold) == "supported" && Fold("directed", fold) == "directed"
    ensures
      var revised := ReplaceAll("supporte" + "supported", "supported", "directed", fold);
      && Contains(revised, "supported", fold) && !Contains("directed", "supported", fold)
  {
    var weak, strong := "supported", "directed";
    WeakVerbsBorderless();
    assert WEAK_VERBS[1] == weak;
    assert Straddles(strong, weak, -8);
    OverlapSurvives(weak, strong, fold, -8);
    assert Before(weak, -8) == "supporte" && Behind(strong, weak, -8) == "";
    assert "supporte" + "supported" + "" == "supporte" + "supported";
  }

  /** The text inserted for one verb is itself rewritten when it is a later supported verb. */
  lemma {:induction false} InsertedVerbRewritten(first: string, second: string, strong: string, fold: CharFold)
    requires first != "" && second != "" && first != second && strong != ""
    requires Fold(first, fold) == first && Fold(second, fold) == second
    ensures Strengthened(first, map[first := second, second := strong], [first, second], fold).revised == strong
  {
    var supported := map[first := second, second := strong];
    WholeReplaced(first, second, fold);
    WholeReplaced(second, strong, fold);
    assert [first, second][..1] == [first] && [first][..0] == [];
    assert Strengthened(first, supported, [], fold).revised == first;
    assert Strengthened(first, supported, [first], fold).revised == second;
  }

  lemma {:induction false} WholeReplaced(weak: string, strong: string, fold: CharFold)
    requires weak != "" && Fold(weak, fold) == weak
    ensures Contains(weak, weak, fold) && ReplaceAll(weak, weak, strong, fold) == strong
  {
    assert OccursAt(weak, weak, 0);
    assert FindFrom(weak, weak, 0) == Some(0);
    assert weak[0 + |weak|..] == "" && weak[..0] == "";
    assert !OccursAt("", weak, 0);
    assert ReplaceAll("", weak, strong, fold) == "";
    ReplaceStep(weak, weak, strong, fold, 0);
  }

  method Strengthen(statement: string, supported: map<string, string>, verbs: seq<string>, fold: CharFold)
    returns (r: CareerLanguage)
    requires forall i :: 0 <= i < |verbs| ==> verbs[i] != ""
    ensures r == Strengthened(statement, supported, verbs, fold)
  {
    var revised := statement;
    var replacements: seq<(string, string)> := [];
    var skipped: seq<string> := [];
    for i := 0 to |verbs|
      invariant CareerLanguage(statement, revised, replacements, skipped)
             == Strengthened(statement, supported, verbs[..i], fold)
    {
      assert verbs[..i + 1][..i] == verbs[..i];
      var weak := verbs[i];
      if Contains(revised, weak, fold) {
        var replacement := Replacement(supported, weak);
        if replacement.Some? {
          revised := ReplaceCasefold(revised, weak, replacement.value, fold);
          replacements := replacements + [(weak, replacement.value)];
        } else {
          skipped := skipped + [weak];
        }
      }
    }
    assert verbs[..|verbs|] == verbs;
    r := CareerLanguage(statement, revised, replacements, skipped);
  }

  method StrengthenCareerLanguage(statement: string, supported: map<string, string>, fold: CharFold)
    returns (r: CareerLanguage)
    ensures r == Strengthened(statement, supported, WEAK_VERBS, fold)
  {
    r := Strengthen(statement, supported, WEAK_VERBS, fold);
  }

  /** Without supporting evidence nothing is rewritten, and exactly the verbs that occur are reported. */
  lemma {:induction false} NoEvidenceNoChange(
      statement: string, supported: map<string, string>, verbs: seq<string>, fold: CharFold)
    requires forall i :: 0 <= i < |verbs| ==> verbs[i] != ""
    requires forall i :: 0 <= i < |verbs| ==> Replacement(supported, verbs[i]).None?
    ensures
      var r := Strengthened(statement, supported, verbs, fold);
      && r.revised == statement && r.replacements == []
      && forall x :: x in r.skipped <==> x in verbs && Contains(statement, x, fold)
  {
    if verbs != [] {
      var n := |verbs| - 1;
      assert forall i :: 0 <= i < n ==> verbs[..n][i] == verbs[i];
      NoEvidenceNoChange(statement, supported, verbs[..n], fold);
      assert verbs == verbs[..n] + [verbs[n]];
    }
  }
}
