/** Python's `sorted`: a stable sort by a total preorder, and the order on strings and pairs. */
module Ordering {
  import opened Common

  // --- Orders ----------------------------------------------------------------------------

  /** Code-point order on strings. */
  predicate StrLe(a: string, b: string) {
    if a == [] then true
    else if b == [] then false
    else a[0] < b[0] || (a[0] == b[0] && StrLe(a[1..], b[1..]))
  }

  predicate PairLe(a: (string, string), b: (string, string)) {
    if a.0 != b.0 then StrLe(a.0, b.0) else StrLe(a.1, b.1)
  }

  lemma {:induction false} StrLeTotal(a: string, b: string)
    ensures StrLe(a, b) || StrLe(b, a)
    ensures StrLe(a, b) && StrLe(b, a) ==> a == b
    decreases |a|
  {
    if a != [] && b != [] {
      StrLeTotal(a[1..], b[1..]);
      assert a == [a[0]] + a[1..] && b == [b[0]] + b[1..];
    }
  }

  lemma {:induction false} StrLeTransitive(a: string, b: string, c: string)
    requires StrLe(a, b) && StrLe(b, c)
    ensures StrLe(a, c)
    decreases |a|
  {
    if a != [] && a[0] == b[0] == c[0] {
      StrLeTransitive(a[1..], b[1..], c[1..]);
    }
  }

  /** Any two values compare, and comparisons chain. */
  ghost predicate Preorder<T(!new)>(le: (T, T) -> bool) {
    && (forall x, y :: le(x, y) || le(y, x))
    && (forall x, y, z :: le(x, y) && le(y, z) ==> le(x, z))
  }

  lemma {:induction false} StrLeIsPreorder()
    ensures Preorder(StrLe)
  {
    forall a: string, b: string ensures StrLe(a, b) || StrLe(b, a) {
      StrLeTotal(a, b);
    }
    forall a: string, b: string, c: string | StrLe(a, b) && StrLe(b, c) ensures StrLe(a, c) {
      StrLeTransitive(a, b, c);
    }
  }

  lemma {:induction false} PairLeIsPreorder()
    ensures Preorder(PairLe)
  {
    forall a: (string, string), b: (string, string) ensures PairLe(a, b) || PairLe(b, a) {
      StrLeTotal(a.0, b.0);
      StrLeTotal(a.1, b.1);
    }
    forall a: (string, string), b: (string, string), c: (string, string) | PairLe(a, b) && PairLe(b, c)
      ensures PairLe(a, c)
    {
      StrLeTotal(a.0, b.0);
      StrLeTotal(b.0, c.0);
      if a.0 == b.0 == c.0 {
        StrLeTransitive(a.1, b.1, c.1);
      } else if StrLe(a.0, b.0) && StrLe(b.0, c.0) {
        StrLeTransitive(a.0, b.0, c.0);
      }
    }
  }

  lemma {:induction false} PairLeAntisymmetric(a: (string, string), b: (string, string))
    requires PairLe(a, b) && PairLe(b, a)
    ensures a == b
  {
    StrLeTotal(a.0, b.0);
    StrLeTotal(a.1, b.1);
  }

  // --- Stable sorting --------------------------------------------------------------------

  predicate Sorted<T>(s: seq<T>, le: (T, T) -> bool) {
    forall i, j :: 0 <= i < j < |s| ==> le(s[i], s[j])
  }

  /** Put `x` behind every element it does not precede. */
  function Insert<T>(s: seq<T>, x: T, le: (T, T) -> bool): seq<T> {
    if s == [] || le(s[|s| - 1], x) then s + [x]
    else Insert(s[..|s| - 1], x, le) + [s[|s| - 1]]
  }

  function SortBy<T>(s: seq<T>, le: (T, T) -> bool): seq<T> {
    if s == [] then [] else Insert(SortBy(s[..|s| - 1], le), s[|s| - 1], le)
  }

  lemma {:induction false} InsertAdds<T>(s: seq<T>, x: T, le: (T, T) -> bool)
    ensures multiset(Insert(s, x, le)) == multiset(s) + multiset{x}
  {
    if s != [] && !le(s[|s| - 1], x) {
      InsertAdds(s[..|s| - 1], x, le);
      assert s == s[..|s| - 1] + [s[|s| - 1]];
    }
  }

  lemma {:induction false} AppendSorted<T>(s: seq<T>, last: T, le: (T, T) -> bool)
    requires Sorted(s, le) && forall y :: y in s ==> le(y, last)
    ensures Sorted(s + [last], le)
  {
  }

  lemma {:induction false} InsertSorts<T(!new)>(s: seq<T>, x: T, le: (T, T) -> bool)
    requires Preorder(le) && Sorted(s, le)
    ensures Sorted(Insert(s, x, le), le)
  {
    if s == [] || le(s[|s| - 1], x) {
      AppendSorted(s, x, le);
    } else {
      var front, last := s[..|s| - 1], s[|s| - 1];
      InsertSorts(front, x, le);
      InsertAdds(front, x, le);
      var r := Insert(front, x, le);
      forall y | y in r ensures le(y, last) {
        assert y in multiset(r);
        assert y == x || y in front;
      }
      AppendSorted(r, last, le);
    }
  }

  lemma {:induction false} SortByPermutes<T>(s: seq<T>, le: (T, T) -> bool)
    ensures multiset(SortBy(s, le)) == multiset(s)
  {
    if s != [] {
      var front, last := s[..|s| - 1], s[|s| - 1];
      SortByPermutes(front, le);
      InsertAdds(SortBy(front, le), last, le);
      assert s == front + [last];
    }
  }

  lemma {:induction false} SortByOrders<T(!new)>(s: seq<T>, le: (T, T) -> bool)
    requires Preorder(le)
    ensures Sorted(SortBy(s, le), le)
  {
    if s != [] {
      SortByOrders(s[..|s| - 1], le);
      InsertSorts(SortBy(s[..|s| - 1], le), s[|s| - 1], le);
    }
  }

  lemma {:induction false} SortBySorts<T(!new)>(s: seq<T>, le: (T, T) -> bool)
    requires Preorder(le)
    ensures Sorted(SortBy(s, le), le)
    ensures multiset(SortBy(s, le)) == multiset(s)
  {
    SortByPermutes(s, le);
    SortByOrders(s, le);
  }

  lemma {:induction false} PrefixSorted<T>(s: seq<T>, n: nat, le: (T, T) -> bool)
    requires Sorted(s, le) && n <= |s|
    ensures Sorted(s[..n], le)
    ensures forall i :: 0 <= i < n < |s| ==> le(s[..n][i], s[n])
  {
  }

  lemma {:induction false} InsertAtEnd<T>(s: seq<T>, x: T, le: (T, T) -> bool)
    requires forall i :: 0 <= i < |s| ==> le(s[i], x)
    ensures Insert(s, x, le) == s + [x]
  {
  }

  lemma {:induction false} SortedIsFixed<T>(s: seq<T>, le: (T, T) -> bool)
    requires Sorted(s, le)
    ensures SortBy(s, le) == s
  {
    if s != [] {
      var front, last := s[..|s| - 1], s[|s| - 1];
      PrefixSorted(s, |front|, le);
      SortedIsFixed(front, le);
      InsertAtEnd(front, last, le);
      assert s == front + [last];
    }
  }

  lemma {:induction false} WithoutAt<T>(s: seq<T>, i: nat)
    requires i < |s|
    ensures multiset(s[..i] + s[i + 1..]) == multiset(s) - multiset{s[i]}
    ensures i == |s| - 1 ==> s[..i] + s[i + 1..] == s[..i]
  {
    assert s == s[..i] + [s[i]] + s[i + 1..];
  }

  /** Mutually comparable elements are equal. */
  ghost predicate Antisymmetric<T>(s: seq<T>, le: (T, T) -> bool) {
    forall i, j :: 0 <= i < |s| && 0 <= j < |s| && le(s[i], s[j]) && le(s[j], s[i]) ==> s[i] == s[j]
  }

  lemma {:induction false} LastAgrees<T>(a: seq<T>, b: seq<T>, le: (T, T) -> bool)
    requires a != [] && |a| == |b|
    requires Sorted(a, le) && Sorted(b, le) && multiset(a) == multiset(b)
    requires Antisymmetric(a, le)
    ensures a[|a| - 1] == b[|a| - 1]
  {
    var n := |a| - 1;
    assert a[n] in multiset(b) && b[n] in multiset(a);
    var i :| 0 <= i <= n && b[i] == a[n];
    var j :| 0 <= j <= n && a[j] == b[n];
    assert i == n || le(b[i], b[n]);
    assert j == n || le(a[j], a[n]);
  }

  /** Sorting is determined by the elements alone when equal keys mean equal elements. */
  lemma {:induction false} SortedUnique<T(!new)>(a: seq<T>, b: seq<T>, le: (T, T) -> bool)
    requires Sorted(a, le) && Sorted(b, le) && multiset(a) == multiset(b)
    requires Antisymmetric(a, le)
    ensures a == b
  {
    assert |multiset(a)| == |a| && |multiset(b)| == |b|;
    if a != [] {
      var n := |a| - 1;
      LastAgrees(a, b, le);
      WithoutAt(a, n);
      WithoutAt(b, n);
      SortedUnique(a[..n], b[..n], le);
    }
  }

  // --- Permutations ----------------------------------------------------------------------

  /** Sorting forgets the order it was given when equal keys mean equal elements. */
  lemma {:induction false} SortedAlike<T(!new)>(a: seq<T>, b: seq<T>, le: (T, T) -> bool)
    requires Preorder(le) && multiset(a) == multiset(b) && Antisymmetric(SortBy(a, le), le)
    ensures SortBy(a, le) == SortBy(b, le)
  {
    SortBySorts(a, le);
    SortBySorts(b, le);
    SortedUnique(SortBy(a, le), SortBy(b, le), le);
  }

  lemma {:induction false} DistinctMultiset<T>(s: seq<T>)
    ensures Distinct(s) <==> forall x :: x in s ==> multiset(s)[x] == 1
  {
    if s != [] {
      var front, last := s[..|s| - 1], s[|s| - 1];
      assert s == front + [last];
      DistinctMultiset(front);
      DistinctConcat(front, [last]);
      assert last in [last] && Distinct([last]);
      if Distinct(s) {
        assert last !in front;
        forall x | x in s ensures multiset(s)[x] == 1 {
          assert x in front || x == last;
        }
      } else if forall x :: x in s ==> multiset(s)[x] == 1 {
        assert multiset(s)[last] == multiset(front)[last] + 1;
        assert last !in front;
        forall x | x in front ensures multiset(front)[x] == 1 {
          assert multiset(s)[x] == multiset(front)[x];
        }
      }
    }
  }

  lemma {:induction false} DistinctPermuted<T>(a: seq<T>, b: seq<T>)
    requires multiset(a) == multiset(b)
    ensures Distinct(a) <==> Distinct(b)
  {
    DistinctMultiset(a);
    DistinctMultiset(b);
    forall x ensures x in a <==> x in b {
      assert x in multiset(a) <==> x in multiset(b);
    }
  }

  lemma {:induction false} CountIfRemove<T>(s: seq<T>, i: nat, p: T -> bool)
    requires i < |s|
    ensures CountIf(s, p) == CountIf(s[..i] + s[i + 1..], p) + if p(s[i]) then 1 else 0
  {
    assert s == s[..i] + ([s[i]] + s[i + 1..]);
    CountIfConcat(s[..i], [s[i]] + s[i + 1..], p);
    CountIfConcat([s[i]], s[i + 1..], p);
    CountIfConcat(s[..i], s[i + 1..], p);
    assert CountIf([s[i]], p) == if p(s[i]) then 1 else 0;
  }

  /** Where the head of `a` is in a permutation of it, and that the rest is a permutation of the rest. */
  lemma {:induction false} HeadWithin<T>(a: seq<T>, b: seq<T>) returns (i: nat)
    requires multiset(a) == multiset(b) && a != []
    ensures i < |b| && b[i] == a[0] && multiset(a[1..]) == multiset(b[..i] + b[i + 1..])
  {
    assert a[0] in multiset(b);
    i :| 0 <= i < |b| && b[i] == a[0];
    WithoutAt(b, i);
    assert a == [a[0]] + a[1..];
  }

  // --- Mapping ---------------------------------------------------------------------------

  function Mapped<A, B>(s: seq<A>, f: A -> B): (r: seq<B>)
    ensures |r| == |s| && forall i :: 0 <= i < |s| ==> r[i] == f(s[i])
  {
    seq(|s|, i requires 0 <= i < |s| => f(s[i]))
  }

  lemma {:induction false} MappedWithout<A, B>(s: seq<A>, i: nat, f: A -> B)
    requires i < |s|
    ensures multiset(Mapped(s, f)) == multiset(Mapped(s[..i] + s[i + 1..], f)) + multiset{f(s[i])}
  {
    var m := Mapped(s, f);
    WithoutAt(m, i);
    assert m[..i] + m[i + 1..] == Mapped(s[..i] + s[i + 1..], f);
    assert m[i] in multiset(m);
  }

  lemma {:induction false} MappedPermuted<A, B>(a: seq<A>, b: seq<A>, f: A -> B)
    requires multiset(a) == multiset(b)
    ensures multiset(Mapped(a, f)) == multiset(Mapped(b, f))
    decreases |a|
  {
    if a == [] {
      assert |multiset(b)| == |b|;
    } else {
      var i := HeadWithin(a, b);
      MappedPermuted(a[1..], b[..i] + b[i + 1..], f);
      MappedWithout(b, i, f);
      assert Mapped(a, f) == [f(a[0])] + Mapped(a[1..], f);
    }
  }

  lemma {:induction false} SameMembers<T>(a: seq<T>, b: seq<T>)
    requires multiset(a) == multiset(b)
    ensures ToSet(a) == ToSet(b) && forall x :: x in a <==> x in b
  {
    forall x ensures x in a <==> x in b {
      assert x in multiset(a) <==> x in multiset(b);
    }
  }

  // --- Keyed elements --------------------------------------------------------------------

  /** `{key(x): x for x in xs}`: the last of several with one key stays. */
  function ById<T, K>(xs: seq<T>, key: T -> K): map<K, T> {
    if xs == [] then map[]
    else ById(xs[..|xs| - 1], key)[key(xs[|xs| - 1]) := xs[|xs| - 1]]
  }

  /** The order that puts element `i` last. */
  function MovedLast<T>(s: seq<T>, i: nat): seq<T>
    requires i < |s|
  {
    s[..i] + s[i + 1..] + [s[i]]
  }

  lemma {:induction false} MovedLastKept<T, K>(s: seq<T>, i: nat, key: T -> K)
    requires i < |s|
    ensures multiset(MovedLast(s, i)) == multiset(s)
    ensures key(s[i]) in ById(MovedLast(s, i), key) && ById(MovedLast(s, i), key)[key(s[i])] == s[i]
  {
    WithoutAt(s, i);
    assert s[i] in multiset(s);
    assert MovedLast(s, i)[..|s| - 1] == s[..i] + s[i + 1..];
  }

  lemma {:induction false} InsertKeepsLast<T(!new), K>(s: seq<T>, x: T, key: T -> K, le: (T, T) -> bool)
    requires forall a: T, b: T :: key(a) == key(b) ==> le(a, b)
    ensures ById(Insert(s, x, le), key) == ById(s, key)[key(x) := x]
  {
    if s == [] || le(s[|s| - 1], x) {
      assert (s + [x])[..|s|] == s;
    } else {
      var front, last := s[..|s| - 1], s[|s| - 1];
      InsertKeepsLast(front, x, key, le);
      var r := Insert(front, x, le);
      assert (r + [last])[..|r|] == r;
      assert key(last) != key(x);
    }
  }

  /** Stable sorting keeps the last element of every key. */
  lemma {:induction false} SortKeepsLast<T(!new), K>(s: seq<T>, key: T -> K, le: (T, T) -> bool)
    requires forall a: T, b: T :: key(a) == key(b) ==> le(a, b)
    ensures ById(SortBy(s, le), key) == ById(s, key)
  {
    if s != [] {
      var front, last := s[..|s| - 1], s[|s| - 1];
      SortKeepsLast(front, key, le);
      InsertKeepsLast(SortBy(front, le), last, key, le);
    }
  }

  lemma {:induction false} InsertMaps<A(!new), B>(
      s: seq<A>, x: A, f: A -> B, le: (A, A) -> bool, leB: (B, B) -> bool)
    requires forall a: A, b: A :: le(a, b) <==> leB(f(a), f(b))
    ensures Mapped(Insert(s, x, le), f) == Insert(Mapped(s, f), f(x), leB)
  {
    if s != [] {
      var front, m := s[..|s| - 1], Mapped(s, f);
      InsertMaps(front, x, f, le, leB);
      assert m[..|m| - 1] == Mapped(front, f);
    }
  }

  /** Sorting by what is kept of the elements is keeping it of the sorted elements. */
  lemma {:induction false} SortMaps<A(!new), B>(s: seq<A>, f: A -> B, le: (A, A) -> bool, leB: (B, B) -> bool)
    requires forall a: A, b: A :: le(a, b) <==> leB(f(a), f(b))
    ensures Mapped(SortBy(s, le), f) == SortBy(Mapped(s, f), leB)
  {
    if s != [] {
      var front, m := s[..|s| - 1], Mapped(s, f);
      SortMaps(front, f, le, leB);
      InsertMaps(SortBy(front, le), s[|s| - 1], f, le, leB);
      assert m[..|m| - 1] == Mapped(front, f);
    }
  }
}
