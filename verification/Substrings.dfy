/** Finding one text in another, and cutting a text at its first occurrence. */
module Substrings {
  import opened Common

  predicate OccursAt(s: string, target: string, i: nat) {
    i + |target| <= |s| && forall j :: 0 <= j < |target| ==> s[i + j] == target[j]
  }

  /** `s.find(target, start)`. */
  function FindFrom(s: string, target: string, start: nat): (r: Option<nat>)
    ensures r.Some? ==> start <= r.value && r.value + |target| <= |s|
    decreases |s| + 1 - start
  {
    if start > |s| then None
    else if OccursAt(s, target, start) then Some(start)
    else FindFrom(s, target, start + 1)
  }

  // --- What is found --------------------------------------------------------------------

  /** `r` is the first position at or after `start`, or none. */
  ghost predicate FirstOccurrence(s: string, target: string, start: nat, r: Option<nat>) {
    && (r.Some? ==> start <= r.value && OccursAt(s, target, r.value))
    && forall i :: start <= i < (if r.Some? then r.value else |s| + 1) ==> !OccursAt(s, target, i)
  }

  lemma {:induction false} FindMeaning(s: string, target: string, start: nat)
    ensures FirstOccurrence(s, target, start, FindFrom(s, target, start))
    decreases |s| + 1 - start
  {
    if start <= |s| && !OccursAt(s, target, start) {
      FindMeaning(s, target, start + 1);
    }
  }

  lemma {:induction false} FindIsUnique(s: string, target: string, start: nat, r: Option<nat>)
    requires FirstOccurrence(s, target, start, r)
    ensures FindFrom(s, target, start) == r
  {
    FindMeaning(s, target, start);
    var f := FindFrom(s, target, start);
    if f.Some? && r.Some? {
      assert !(f.value < r.value) && !(r.value < f.value);
    }
  }

  lemma {:induction false} OccursBehind(done: string, rest: string, target: string, i: nat)
    ensures OccursAt(done + rest, target, |done| + i) <==> OccursAt(rest, target, i)
  {
    if i + |target| <= |rest| {
      assert (done + rest)[|done| + i..|done| + i + |target|] == rest[i..i + |target|];
    }
  }

  function Shifted(r: Option<nat>, n: nat): Option<nat> {
    if r.Some? then Some(n + r.value) else None
  }

  lemma {:induction false} FindSkipsPrefix(done: string, rest: string, target: string)
    ensures FindFrom(done + rest, target, |done|) == Shifted(FindFrom(rest, target, 0), |done|)
  {
    var s := done + rest;
    var r := FindFrom(rest, target, 0);
    FindMeaning(rest, target, 0);
    if r.Some? {
      OccursBehind(done, rest, target, r.value);
    }
    forall i | |done| <= i < (if r.Some? then |done| + r.value else |s| + 1) ensures !OccursAt(s, target, i) {
      OccursBehind(done, rest, target, i - |done|);
    }
    FindIsUnique(s, target, |done|, Shifted(r, |done|));
  }

  lemma {:induction false} OccursInPrefix(s: string, target: string, n: nat, k: nat)
    requires k + |target| <= n <= |s|
    ensures OccursAt(s[..n], target, k) <==> OccursAt(s, target, k)
  {
    assert s[..n][k..k + |target|] == s[k..k + |target|];
  }

  /** Cutting the text behind position `n` hides no earlier occurrence and makes none. */
  lemma {:induction false} NoneBefore(s: string, target: string, i: nat, n: nat)
    requires FirstOccurrence(s, target, 0, Some(i)) && n <= |s|
    ensures forall k: nat :: k < i ==> !OccursAt(s[..n], target, k)
  {
    var p := s[..n];
    forall k: nat | k < i ensures !OccursAt(p, target, k) {
      if k + |target| <= n {
        OccursInPrefix(s, target, n, k);
      }
    }
  }

  lemma {:induction false} FirstInPrefix(s: string, target: string, i: nat)
    requires target != "" && FindFrom(s, target, 0) == Some(i)
    ensures FindFrom(s[..i], target, 0).None?
    ensures FindFrom(s[..i + |target|], target, 0) == Some(i)
    ensures s[i..i + |target|] == target
  {
    FindMeaning(s, target, 0);
    NoneBefore(s, target, i, i);
    FindIsUnique(s[..i], target, 0, None);
    NoneBefore(s, target, i, i + |target|);
    OccursInPrefix(s, target, i + |target|, i);
    FindIsUnique(s[..i + |target|], target, 0, Some(i));
  }

  // --- Cutting at the first occurrence ---------------------------------------------------

  predicate Free(s: string, mark: string) {
    FindFrom(s, mark, 0).None?
  }

  function Part(mark: string, text: Option<string>): string {
    if text.None? then "" else mark + text.value
  }

  /** `text.partition(mark)`: what stands before the first mark and, if there is one, behind it. */
  function Partition(text: string, mark: string): (string, Option<string>) {
    var i := FindFrom(text, mark, 0);
    if i.None? then (text, None) else (text[..i.value], Some(text[i.value + |mark|..]))
  }

  lemma {:induction false} FreeMeaning(s: string, mark: string)
    ensures Free(s, mark) <==> forall i: nat :: !OccursAt(s, mark, i)
  {
    FindMeaning(s, mark, 0);
    if Free(s, mark) {
      forall i: nat ensures !OccursAt(s, mark, i) {
        if i < |s| + 1 {
          assert !OccursAt(s, mark, i);
        }
      }
    }
  }

  lemma {:induction false} ThreeParts(text: string, i: nat, mid: string)
    requires i + |mid| <= |text| && text[i..i + |mid|] == mid
    ensures text == text[..i] + (mid + text[i + |mid|..])
  {
  }

  lemma {:induction false} PartitionJoins(text: string, mark: string)
    requires mark != ""
    ensures
      var (head, tail) := Partition(text, mark);
      Free(head, mark) && text == head + Part(mark, tail)
  {
    var i := FindFrom(text, mark, 0);
    if i.Some? {
      FirstInPrefix(text, mark, i.value);
      ThreeParts(text, i.value, mark);
    }
  }

  /** A mark that begins with a character it does not repeat cannot overlap itself or another such mark. */
  predicate Opens(mark: string, c: char) {
    mark != "" && mark[0] == c && forall j :: 0 < j < |mark| ==> mark[j] != c
  }

  lemma {:induction false} NoneStraddles(a: string, b: string, mark: string, c: char, i: nat)
    requires Opens(mark, c) && b != "" && b[0] == c && i < |a| < i + |mark|
    ensures !OccursAt(a + b, mark, i)
  {
    var j := |a| - i;
    assert mark[j] != c && (i + |mark| <= |a + b| ==> (a + b)[i + j] == c);
  }

  /** Where an occurrence in two joined texts can lie. */
  lemma {:induction false} OccursInJoin(a: string, b: string, mark: string, c: char, i: nat)
    requires Opens(mark, c) && (b != "" ==> b[0] == c) && OccursAt(a + b, mark, i)
    ensures if i < |a| then OccursAt(a, mark, i) else OccursAt(b, mark, i - |a|)
  {
    var s := a + b;
    if i >= |a| {
      OccursBehind(a, b, mark, i - |a|);
    } else if i + |mark| <= |a| {
      assert s[..|a|] == a;
      OccursInPrefix(s, mark, |a|, i);
    } else {
      NoneStraddles(a, b, mark, c, i);
    }
  }

  lemma {:induction false} JoinPartitions(head: string, mark: string, c: char, tail: Option<string>)
    requires Opens(mark, c) && Free(head, mark)
    ensures Partition(head + Part(mark, tail), mark) == (head, tail)
  {
    FreeMeaning(head, mark);
    if tail.None? {
      assert head + Part(mark, tail) == head;
    } else {
      var rest := mark + tail.value;
      var s := head + rest;
      assert OccursAt(rest, mark, 0);
      OccursBehind(head, rest, mark, 0);
      forall i: nat | i < |head| ensures !OccursAt(s, mark, i) {
        if OccursAt(s, mark, i) {
          OccursInJoin(head, rest, mark, c, i);
        }
      }
      FindIsUnique(s, mark, 0, Some(|head|));
      assert s[..|head|] == head && s[|head| + |mark|..] == tail.value;
    }
  }

  /** A join is free of a mark exactly when both texts are. */
  lemma {:induction false} FreeJoin(a: string, b: string, mark: string, c: char)
    requires Opens(mark, c) && (b != "" ==> b[0] == c)
    ensures Free(a + b, mark) <==> Free(a, mark) && Free(b, mark)
  {
    var s := a + b;
    FreeMeaning(s, mark);
    FreeMeaning(a, mark);
    FreeMeaning(b, mark);
    forall i: nat ensures OccursAt(b, mark, i) ==> OccursAt(s, mark, |a| + i) {
      OccursBehind(a, b, mark, i);
    }
    forall i: nat | OccursAt(a, mark, i) ensures OccursAt(s, mark, i) {
      assert s[..|a|] == a;
      OccursInPrefix(s, mark, |a|, i);
    }
    if !Free(s, mark) {
      var i: nat :| OccursAt(s, mark, i);
      OccursInJoin(a, b, mark, c, i);
    }
  }

  lemma {:induction false} NoneInOtherMark(other: string, text: string, mark: string, c: char, i: nat)
    requires Opens(mark, c) && Opens(other, c) && |mark| > 1 && |other| > 1 && mark[1] != other[1]
    requires i < |other|
    ensures !OccursAt(other + text, mark, i)
  {
    var s := other + text;
    assert s[i] == other[i] && s[1] == other[1];
    if i == 0 {
      assert s[i + 1] != mark[1];
    } else {
      assert s[i + 0] != mark[0];
    }
  }

  /** Putting a different mark in front hides nothing and makes nothing. */
  lemma {:induction false} FreeBehindMark(other: string, text: string, mark: string, c: char)
    requires Opens(mark, c) && Opens(other, c) && |mark| > 1 && |other| > 1 && mark[1] != other[1]
    ensures Free(other + text, mark) <==> Free(text, mark)
  {
    var s := other + text;
    FreeMeaning(s, mark);
    FreeMeaning(text, mark);
    forall i: nat ensures OccursAt(text, mark, i) <==> OccursAt(s, mark, |other| + i) {
      OccursBehind(other, text, mark, i);
    }
    forall i: nat | i < |other| ensures !OccursAt(s, mark, i) {
      NoneInOtherMark(other, text, mark, c, i);
    }
    if !Free(s, mark) {
      var i: nat :| OccursAt(s, mark, i);
      assert OccursAt(text, mark, i - |other|);
    }
  }

  // --- Texts set between others ----------------------------------------------------------

  /** Set at offset `o` from the start of `m`, the mark reaches beyond `m` and agrees with it where they overlap. */
  predicate Straddles(m: string, mark: string, o: int) {
    && -|mark| < o < |m| && (o < 0 || |m| < o + |mark|)
    && forall j :: 0 <= j < |mark| && 0 <= o + j < |m| ==> mark[j] == m[o + j]
  }

  /** No occurrence of the mark can lie partly in `m` and partly in what surrounds it. */
  predicate Apart(m: string, mark: string) {
    forall o :: -|mark| < o < |m| ==> !Straddles(m, mark, o)
  }

  lemma {:induction false} NoneAcross(a: string, m: string, b: string, mark: string, i: nat)
    requires -|mark| < i - |a| < |m| && (i < |a| || |a| + |m| < i + |mark|)
    requires !Straddles(m, mark, i - |a|)
    ensures !OccursAt(a + m + b, mark, i)
  {
    var s, o := a + m + b, i - |a|;
    var j :| 0 <= j < |mark| && 0 <= o + j < |m| && mark[j] != m[o + j];
    assert s[i + j] == m[o + j];
  }

  /** With a text set apart between them, an occurrence lies in one of the three. */
  lemma {:induction false} OccursAround(a: string, m: string, b: string, mark: string, i: nat)
    requires Apart(m, mark) && OccursAt(a + m + b, mark, i)
    ensures
      || (i < |a| && OccursAt(a, mark, i))
      || (|a| <= i < |a| + |m| && OccursAt(m, mark, i - |a|))
      || (|a| + |m| <= i && OccursAt(b, mark, i - |a| - |m|))
  {
    var s := a + m + b;
    if |a| + |m| <= i {
      OccursBehind(a + m, b, mark, i - |a| - |m|);
    } else if |a| <= i && i + |mark| <= |a| + |m| {
      assert s[..|a| + |m|] == a + m;
      OccursInPrefix(s, mark, |a| + |m|, i);
      OccursBehind(a, m, mark, i - |a|);
    } else if i + |mark| <= |a| {
      assert s[..|a|] == a;
      OccursInPrefix(s, mark, |a|, i);
    } else {
      NoneAcross(a, m, b, mark, i);
    }
  }

  lemma {:induction false} FreeAround(a: string, m: string, b: string, mark: string)
    requires Apart(m, mark)
    ensures Free(a + m + b, mark) <==> Free(a, mark) && Free(m, mark) && Free(b, mark)
  {
    var s := a + m + b;
    FreeMeaning(s, mark);
    FreeMeaning(a, mark);
    FreeMeaning(m, mark);
    FreeMeaning(b, mark);
    forall i: nat ensures OccursAt(b, mark, i) ==> OccursAt(s, mark, |a + m| + i) {
      OccursBehind(a + m, b, mark, i);
    }
    forall i: nat | OccursAt(m, mark, i) ensures OccursAt(s, mark, |a| + i) {
      OccursBehind(a, m, mark, i);
      assert s[..|a + m|] == a + m;
      OccursInPrefix(s, mark, |a + m|, |a| + i);
    }
    forall i: nat | OccursAt(a, mark, i) ensures OccursAt(s, mark, i) {
      assert s[..|a|] == a;
      OccursInPrefix(s, mark, |a|, i);
    }
    if !Free(s, mark) {
      var i: nat :| OccursAt(s, mark, i);
      OccursAround(a, m, b, mark, i);
    }
  }

  /** The mark agrees with itself when moved by `d`. */
  predicate Border(mark: string, d: nat) {
    d <= |mark| && forall j :: 0 <= j < |mark| - d ==> mark[d + j] == mark[j]
  }

  /** Two occurrences of the mark cannot overlap. */
  predicate Borderless(mark: string) {
    forall d: nat :: 0 < d < |mark| ==> !Border(mark, d)
  }

  /** Behind a text shorter than itself a borderless mark is the first one. */
  lemma {:induction false} FirstInFrame(a: string, mark: string, b: string)
    requires Borderless(mark) && |a| < |mark|
    ensures FindFrom(a + mark + b, mark, 0) == Some(|a|)
  {
    var s := a + mark + b;
    assert OccursAt(s, mark, |a|);
    forall i: nat | i < |a| ensures !OccursAt(s, mark, i) {
      var d := |a| - i;
      assert !Border(mark, d);
      var j :| 0 <= j < |mark| - d && mark[d + j] != mark[j];
      assert s[i + (d + j)] == mark[j];
    }
    FindIsUnique(s, mark, 0, Some(|a|));
  }

  /** What must stand before and behind `m` for the mark to lie across it at offset `o`. */
  function Before(mark: string, o: int): string
    requires -|mark| < o
  {
    if o < 0 then mark[..-o] else ""
  }

  function Behind(m: string, mark: string, o: int): string
    requires -|mark| < o < |m|
  {
    if |m| < o + |mark| then mark[|m| - o..] else ""
  }

  lemma {:induction false} StraddlingOccurs(m: string, mark: string, o: int)
    requires Straddles(m, mark, o)
    ensures OccursAt(Before(mark, o) + m + Behind(m, mark, o), mark, if o < 0 then 0 else o)
    ensures |Before(mark, o)| < |mark| && |Behind(m, mark, o)| < |mark|
  {
    var a, b, i := Before(mark, o), Behind(m, mark, o), if o < 0 then 0 else o;
    var s := a + m + b;
    forall j | 0 <= j < |mark| ensures i + j < |s| && s[i + j] == mark[j] {
      if 0 <= o + j < |m| {
        assert s[i + j] == m[o + j];
      }
    }
  }
}
