// Ordering of match lists by name length: the stable specification and the
// in-place bubble sort the finder runs over its results array.

module LengthOrder {
  import opened CStrings

  /** Non-decreasing length from left to right. */
  predicate IsLengthSorted(s: seq<Name>)
  {
    forall i, j :: 0 <= i < j < |s| ==> |s[i]| <= |s[j]|
  }

  /** The names of length len, in the order they occur in s. */
  function OfLength(s: seq<Name>, len: nat): (r: seq<Name>)
    ensures |r| <= |s|
  {
    if s == [] then []
    else (if |s[0]| == len then [s[0]] else []) + OfLength(s[1..], len)
  }

  /**
   * Stability: every length class holds the same names in the same order.
   * With IsLengthSorted this says the result is a stable sort by length.
   */
  ghost predicate SameClasses(a: seq<Name>, b: seq<Name>)
  {
    forall len: nat :: OfLength(a, len) == OfLength(b, len)
  }

  /** A name no longer than the head of a length-sorted list can go in front of it. */
  lemma SortedCons(h: Name, t: seq<Name>)
    requires IsLengthSorted(t) && (t != [] ==> |h| <= |t[0]|)
    ensures IsLengthSorted([h] + t)
  {
    var r := [h] + t;
    forall i, j | 0 <= i < j < |r| ensures |r[i]| <= |r[j]| {
      if i == 0 {
        assert r[j] == t[j - 1];
      } else {
        assert r[i] == t[i - 1] && r[j] == t[j - 1];
      }
    }
  }

  /** Insert x before the first name that is at least as long, so x precedes its equals. */
  function InsertByLength(x: Name, s: seq<Name>): (r: seq<Name>)
    ensures |r| == |s| + 1
    ensures r[0] == x || (s != [] && r[0] == s[0])
  {
    if s == [] || |x| <= |s[0]| then [x] + s
    else [s[0]] + InsertByLength(x, s[1..])
  }

  /** Inserting into a length-sorted list keeps it length-sorted. */
  lemma {:induction false} InsertByLengthSorted(x: Name, s: seq<Name>)
    requires IsLengthSorted(s)
    ensures IsLengthSorted(InsertByLength(x, s))
  {
    if s == [] || |x| <= |s[0]| {
      SortedCons(x, s);
    } else {
      assert IsLengthSorted(s[1..]);
      InsertByLengthSorted(x, s[1..]);
      assert s[1..] != [] ==> s[1..][0] == s[1];
      SortedCons(s[0], InsertByLength(x, s[1..]));
    }
  }

  /** Inserting adds exactly x: the result is a permutation of x and the list. */
  lemma {:induction false} InsertByLengthPermutation(x: Name, s: seq<Name>)
    ensures multiset(InsertByLength(x, s)) == multiset(s) + multiset{x}
  {
    if s != [] && |x| > |s[0]| {
      InsertByLengthPermutation(x, s[1..]);
      assert s == [s[0]] + s[1..];
    }
  }

  /** The reference stable sort by length (insertion sort from the back). */
  function LengthSort(s: seq<Name>): (r: seq<Name>)
    ensures IsLengthSorted(r)
    ensures multiset(r) == multiset(s)
    ensures |r| == |s|
  {
    if s == [] then []
    else
      var rest := LengthSort(s[1..]);
      InsertByLengthSorted(s[0], rest);
      InsertByLengthPermutation(s[0], rest);
      assert s == [s[0]] + s[1..];
      InsertByLength(s[0], rest)
  }

  lemma OfLengthCons(x: Name, s: seq<Name>, len: nat)
    ensures OfLength([x] + s, len) == (if |x| == len then [x] else []) + OfLength(s, len)
  {
    assert ([x] + s)[1..] == s;
  }

  lemma {:induction false} OfLengthAppend(a: seq<Name>, b: seq<Name>, len: nat)
    ensures OfLength(a + b, len) == OfLength(a, len) + OfLength(b, len)
  {
    if a != [] {
      assert a + b == [a[0]] + (a[1..] + b);
      assert a == [a[0]] + a[1..];
      OfLengthCons(a[0], a[1..] + b, len);
      OfLengthCons(a[0], a[1..], len);
      OfLengthAppend(a[1..], b, len);
    } else {
      assert a + b == b;
    }
  }

  /** Inserting x adds x at the front of its own class and changes no other class. */
  lemma {:induction false} InsertByLengthClasses(x: Name, s: seq<Name>, len: nat)
    ensures OfLength(InsertByLength(x, s), len)
         == (if |x| == len then [x] else []) + OfLength(s, len)
  {
    if s == [] || |x| <= |s[0]| {
      OfLengthCons(x, s, len);
    } else {
      assert s == [s[0]] + s[1..];
      OfLengthCons(s[0], InsertByLength(x, s[1..]), len);
      InsertByLengthClasses(x, s[1..], len);
      OfLengthCons(s[0], s[1..], len);
    }
  }

  /** The reference sort is stable. */
  lemma {:induction false} LengthSortStable(s: seq<Name>)
    ensures SameClasses(LengthSort(s), s)
  {
    if s != [] {
      LengthSortStable(s[1..]);
      forall len: nat ensures OfLength(LengthSort(s), len) == OfLength(s, len) {
        InsertByLengthClasses(s[0], LengthSort(s[1..]), len);
        assert s == [s[0]] + s[1..];
        OfLengthCons(s[0], s[1..], len);
      }
    }
  }

  lemma {:induction false} OfLengthCount(s: seq<Name>, x: Name)
    ensures multiset(OfLength(s, |x|))[x] == multiset(s)[x]
  {
    if s != [] {
      OfLengthCount(s[1..], x);
      assert s == [s[0]] + s[1..];
    }
  }

  /** Equal length classes mean the two lists are permutations of each other. */
  lemma SameClassesPermutation(a: seq<Name>, b: seq<Name>)
    requires SameClasses(a, b)
    ensures multiset(a) == multiset(b)
  {
    forall x ensures multiset(a)[x] == multiset(b)[x] {
      OfLengthCount(a, x);
      OfLengthCount(b, x);
      assert OfLength(a, |x|) == OfLength(b, |x|);
    }
  }

  lemma {:induction false} OfLengthNonEmpty(s: seq<Name>, len: nat)
    requires OfLength(s, len) != []
    ensures exists i :: 0 <= i < |s| && |s[i]| == len
  {
    if |s[0]| != len {
      OfLengthNonEmpty(s[1..], len);
      var i :| 0 <= i < |s[1..]| && |s[1..][i]| == len;
      assert |s[i + 1]| == len;
    }
  }

  /** A non-empty list has a non-empty class for the length of its head. */
  lemma HeadClass(s: seq<Name>)
    requires s != []
    ensures OfLength(s, |s[0]|) != []
  {
    assert s == [s[0]] + s[1..];
    OfLengthCons(s[0], s[1..], |s[0]|);
  }

  /** Two length-sorted lists with the same classes start with names of the same length. */
  lemma HeadLengths(a: seq<Name>, b: seq<Name>)
    requires IsLengthSorted(a) && IsLengthSorted(b)
    requires a != [] && b != []
    requires OfLength(a, |b[0]|) == OfLength(b, |b[0]|)
    requires OfLength(b, |a[0]|) == OfLength(a, |a[0]|)
    ensures |a[0]| == |b[0]|
  {
    assert a == [a[0]] + a[1..] && b == [b[0]] + b[1..];
    OfLengthCons(a[0], a[1..], |a[0]|);
    OfLengthCons(b[0], b[1..], |b[0]|);
    OfLengthNonEmpty(b, |a[0]|);
    OfLengthNonEmpty(a, |b[0]|);
  }

  /** Equal heads and equal classes leave equal classes for the tails. */
  lemma TailClasses(a: seq<Name>, b: seq<Name>)
    requires a != [] && b != [] && a[0] == b[0]
    requires SameClasses(a, b)
    ensures SameClasses(a[1..], b[1..])
  {
    assert a == [a[0]] + a[1..] && b == [b[0]] + b[1..];
    forall len: nat ensures OfLength(a[1..], len) == OfLength(b[1..], len) {
      assert OfLength(a, len) == OfLength(b, len);
      OfLengthCons(a[0], a[1..], len);
      OfLengthCons(b[0], b[1..], len);
      var c := if |a[0]| == len then [a[0]] else [];
      assert OfLength(a[1..], len) == (c + OfLength(a[1..], len))[|c|..];
      assert OfLength(b[1..], len) == (c + OfLength(b[1..], len))[|c|..];
    }
  }

  /** A length-sorted list is determined by its length classes. */
  lemma {:induction false} SortedUnique(a: seq<Name>, b: seq<Name>)
    requires IsLengthSorted(a) && IsLengthSorted(b)
    requires SameClasses(a, b)
    ensures a == b
    decreases |a|
  {
    if a != [] && b != [] {
      assert OfLength(a, |b[0]|) == OfLength(b, |b[0]|);
      assert OfLength(b, |a[0]|) == OfLength(a, |a[0]|);
      HeadLengths(a, b);
      var m := |a[0]|;
      assert a == [a[0]] + a[1..] && b == [b[0]] + b[1..];
      OfLengthCons(a[0], a[1..], m);
      OfLengthCons(b[0], b[1..], m);
      assert OfLength(a, m) == OfLength(b, m);
      assert OfLength(a, m)[0] == a[0] && OfLength(b, m)[0] == b[0];
      TailClasses(a, b);
      SortedUnique(a[1..], b[1..]);
    } else if a != [] {
      HeadClass(a);
      assert false;
    } else if b != [] {
      HeadClass(b);
      assert false;
    }
  }

  /** Any stable length sort of s is the reference sort of s. */
  lemma StableSortIsLengthSort(r: seq<Name>, s: seq<Name>)
    requires IsLengthSorted(r) && SameClasses(r, s)
    ensures r == LengthSort(s)
  {
    LengthSortStable(s);
    SortedUnique(r, LengthSort(s));
  }

  /** Two names of different lengths can trade places without changing any class. */
  lemma PairClasses(x: Name, y: Name, len: nat)
    requires |x| != |y|
    ensures OfLength([x, y], len) == OfLength([y, x], len)
  {
    assert [x, y] == [x] + [y] && [y, x] == [y] + [x];
    OfLengthCons(x, [y], len);
    OfLengthCons(y, [x], len);
    assert [y] == [y] + [] && [x] == [x] + [];
    OfLengthCons(x, [], len);
    OfLengthCons(y, [], len);
  }

  /** Swapping two neighbours of different lengths keeps every length class. */
  lemma SwapClasses(s: seq<Name>, j: nat)
    requires j + 1 < |s| && |s[j]| != |s[j + 1]|
    ensures SameClasses(s[j := s[j + 1]][j + 1 := s[j]], s)
  {
    var t := s[j := s[j + 1]][j + 1 := s[j]];
    var pre, post := s[..j], s[j + 2..];
    assert s == pre + ([s[j], s[j + 1]] + post);
    assert t == pre + ([s[j + 1], s[j]] + post);
    forall len: nat ensures OfLength(t, len) == OfLength(s, len) {
      OfLengthAppend(pre, [s[j + 1], s[j]] + post, len);
      OfLengthAppend(pre, [s[j], s[j + 1]] + post, len);
      OfLengthAppend([s[j + 1], s[j]], post, len);
      OfLengthAppend([s[j], s[j + 1]], post, len);
      PairClasses(s[j], s[j + 1], len);
    }
  }

  /**
   * One pass of the inner loop over a[..m]: carries the longest name of
   * a[..m] to a[m - 1], swapping only on strictly greater length. The names
   * of a[..m] stay no longer than those already placed in a[m..n].
   */
  method BubblePass(a: array<Name>, n: nat, m: nat)
    requires 1 <= m <= n <= a.Length
    requires forall p, q :: 0 <= p < m <= q < n ==> |a[p]| <= |a[q]|
    modifies a
    ensures forall p :: 0 <= p < m ==> |a[p]| <= |a[m - 1]|
    ensures forall p, q :: 0 <= p < m <= q < n ==> |a[p]| <= |a[q]|
    ensures SameClasses(a[..n], old(a[..n]))
    ensures a[m..] == old(a[m..])
  {
    var j := 0;
    while j < m - 1
      invariant 0 <= j <= m - 1
      invariant forall p :: 0 <= p <= j ==> |a[p]| <= |a[j]|
      invariant forall p, q :: 0 <= p < m <= q < n ==> |a[p]| <= |a[q]|
      invariant SameClasses(a[..n], old(a[..n]))
      invariant a[m..] == old(a[m..])
    {
      if |a[j]| > |a[j + 1]| {
        ghost var before := a[..n];
        a[j], a[j + 1] := a[j + 1], a[j];
        assert a[..n] == before[j := before[j + 1]][j + 1 := before[j]];
        SwapClasses(before, j);
      }
      j := j + 1;
    }
  }

  /**
   * Bubble sort of a[..n] by length, swapping only on strictly greater length;
   * a[n..] is left alone.
   */
  method BubbleSortByLength(a: array<Name>, n: nat)
    requires n <= a.Length
    modifies a
    ensures a[..n] == LengthSort(old(a[..n]))
    ensures IsLengthSorted(a[..n]) && SameClasses(a[..n], old(a[..n]))
    ensures multiset(a[..n]) == multiset(old(a[..n]))
    ensures a[n..] == old(a[n..])
  {
    var i := 0;
    while i < n - 1
      invariant 0 <= i && (i == 0 || i < n)
      invariant forall p, q :: n - i <= p < q < n ==> |a[p]| <= |a[q]|
      invariant forall p, q :: 0 <= p < n - i <= q < n ==> |a[p]| <= |a[q]|
      invariant SameClasses(a[..n], old(a[..n]))
      invariant a[n..] == old(a[n..])
    {
      ghost var tail := a[n..];
      BubblePass(a, n, n - i);
      assert a[n..] == tail;
      i := i + 1;
    }
    StableSortIsLengthSort(a[..n], old(a[..n]));
    SameClassesPermutation(a[..n], old(a[..n]));
  }
}
