/**
 * `Array.prototype.sort(compare)` as the image processor uses it. The language requires the
 * sort to be stable, so its result is the stable sorted permutation of the input, which is
 * what insertion sort computes: `InsertionSort` specifies it and `SortInPlace` performs it on
 * an array, as the JavaScript runtime does.
 */
module Sorting {

  /** The laws a comparator must satisfy for the sort to be defined: antisymmetric sign and a transitive "not after". */
  ghost predicate ConsistentComparator<T(!new)>(cmp: (T, T) -> int) {
    && (forall x, y :: cmp(y, x) == -cmp(x, y))
    && (forall x, y, z {:trigger NotAfterChain(cmp, x, y, z)} :: NotAfterChain(cmp, x, y, z))
  }

  /** Transitivity at one triple; a proof names the triple it needs. */
  ghost predicate NotAfterChain<T>(cmp: (T, T) -> int, x: T, y: T, z: T) {
    cmp(x, y) <= 0 && cmp(y, z) <= 0 ==> cmp(x, z) <= 0
  }

  /** No element compares after a later one. */
  predicate SortedBy<T>(s: seq<T>, cmp: (T, T) -> int) {
    forall i, j :: 0 <= i < j < |s| ==> cmp(s[i], s[j]) <= 0
  }

  /** Inserts `x` behind every element that does not compare after it, so equal elements keep their arrival order. */
  function Insert<T>(x: T, s: seq<T>, cmp: (T, T) -> int): (r: seq<T>)
    ensures |r| == |s| + 1
  {
    if s == [] || cmp(s[|s| - 1], x) <= 0 then s + [x]
    else Insert(x, s[..|s| - 1], cmp) + [s[|s| - 1]]
  }

  /** The stable sort of `s`: each element in turn is inserted into the sorted prefix before it. */
  function InsertionSort<T>(s: seq<T>, cmp: (T, T) -> int): (r: seq<T>)
    ensures |r| == |s|
  {
    if s == [] then []
    else Insert(s[|s| - 1], InsertionSort(s[..|s| - 1], cmp), cmp)
  }

  /** Inserting adds exactly one occurrence of `x`. */
  lemma {:induction false} InsertPermutes<T>(x: T, s: seq<T>, cmp: (T, T) -> int)
    ensures multiset(Insert(x, s, cmp)) == multiset(s) + multiset{x}
  {
    if s != [] && cmp(s[|s| - 1], x) > 0 {
      InsertPermutes(x, s[..|s| - 1], cmp);
      assert s == s[..|s| - 1] + [s[|s| - 1]];
    }
  }

  /** The sort is a permutation of its input: no element is lost, duplicated or invented. */
  lemma {:induction false} InsertionSortPermutes<T>(s: seq<T>, cmp: (T, T) -> int)
    ensures multiset(InsertionSort(s, cmp)) == multiset(s)
  {
    if s != [] {
      InsertionSortPermutes(s[..|s| - 1], cmp);
      InsertPermutes(s[|s| - 1], InsertionSort(s[..|s| - 1], cmp), cmp);
      assert s == s[..|s| - 1] + [s[|s| - 1]];
    }
  }

  lemma {:induction false} InsertSorted<T(!new)>(x: T, s: seq<T>, cmp: (T, T) -> int)
    requires ConsistentComparator(cmp)
    requires SortedBy(s, cmp)
    ensures SortedBy(Insert(x, s, cmp), cmp)
  {
    if s != [] && cmp(s[|s| - 1], x) <= 0 {
      var last := s[|s| - 1];
      forall i | 0 <= i < |s| ensures cmp(s[i], x) <= 0 {
        assert NotAfterChain(cmp, s[i], last, x);
      }
    } else if s != [] {
      var init, last := s[..|s| - 1], s[|s| - 1];
      InsertSorted(x, init, cmp);
      InsertPermutes(x, init, cmp);
      var r := Insert(x, init, cmp);
      forall i | 0 <= i < |r| ensures cmp(r[i], last) <= 0 {
        assert r[i] in multiset(r);
        if r[i] != x {
          assert r[i] in multiset(init);
          var j :| 0 <= j < |init| && init[j] == r[i];
          assert s[j] == r[i];
        }
      }
    }
  }

  /** The sort yields an ordered sequence. */
  lemma {:induction false} InsertionSortSorted<T(!new)>(s: seq<T>, cmp: (T, T) -> int)
    requires ConsistentComparator(cmp)
    ensures SortedBy(InsertionSort(s, cmp), cmp)
  {
    if s != [] {
      InsertionSortSorted(s[..|s| - 1], cmp);
      InsertSorted(s[|s| - 1], InsertionSort(s[..|s| - 1], cmp), cmp);
    }
  }

  /** An ordered sequence is its own sort: sorting is idempotent. */
  lemma {:induction false} InsertionSortOfSorted<T(!new)>(s: seq<T>, cmp: (T, T) -> int)
    requires ConsistentComparator(cmp)
    requires SortedBy(s, cmp)
    ensures InsertionSort(s, cmp) == s
  {
    if s != [] {
      var init := s[..|s| - 1];
      InsertionSortOfSorted(init, cmp);
      assert s == init + [s[|s| - 1]];
    }
  }

  /** Two ordered arrangements of one multiset start with elements that compare equal. */
  lemma SortedHeadsCompareEqual<T(!new)>(a: seq<T>, b: seq<T>, cmp: (T, T) -> int)
    requires ConsistentComparator(cmp)
    requires SortedBy(a, cmp) && SortedBy(b, cmp)
    requires multiset(a) == multiset(b) && a != []
    ensures |b| > 0 && a[0] in a && b[0] in a && cmp(a[0], b[0]) == 0
  {
    assert |a| == |multiset(a)| == |multiset(b)| == |b|;
    var x, y := a[0], b[0];
    assert x in multiset(b) && y in multiset(a);
    assert cmp(y, x) <= 0 by {
      var j :| 0 <= j < |b| && b[j] == x;
      if j == 0 { assert cmp(y, y) == -cmp(y, y); }
    }
    assert cmp(x, y) <= 0 by {
      var k :| 0 <= k < |a| && a[k] == y;
      if k == 0 { assert cmp(x, x) == -cmp(x, x); }
    }
  }

  /**
   * When no two different elements compare equal, there is only one ordered arrangement of a
   * multiset: the sort's result does not depend on the order the elements arrived in.
   */
  lemma {:induction false} SortedPermutationsEqual<T(!new)>(a: seq<T>, b: seq<T>, cmp: (T, T) -> int)
    requires ConsistentComparator(cmp)
    requires SortedBy(a, cmp) && SortedBy(b, cmp)
    requires multiset(a) == multiset(b)
    requires forall x, y :: x in a && y in a && x != y ==> cmp(x, y) != 0
    ensures a == b
  {
    if a == [] {
      assert |b| == |multiset(b)| == 0;
    } else {
      SortedHeadsCompareEqual(a, b, cmp);
      assert b[0] == a[0];
      SortedTail(a, cmp);
      SortedTail(b, cmp);
      MultisetTail(a, b);
      assert forall z :: z in a[1..] ==> z in a;
      SortedPermutationsEqual(a[1..], b[1..], cmp);
      assert a == [a[0]] + a[1..] && b == [b[0]] + b[1..];
    }
  }

  /** When no two different elements tie, the sorted result depends only on the multiset of the input. */
  lemma InsertionSortUnique<T(!new)>(s1: seq<T>, s2: seq<T>, cmp: (T, T) -> int)
    requires ConsistentComparator(cmp)
    requires multiset(s1) == multiset(s2)
    requires forall x, y :: x in s1 && y in s1 && x != y ==> cmp(x, y) != 0
    ensures InsertionSort(s1, cmp) == InsertionSort(s2, cmp)
  {
    var a, b := InsertionSort(s1, cmp), InsertionSort(s2, cmp);
    InsertionSortPermutes(s1, cmp);
    InsertionSortPermutes(s2, cmp);
    InsertionSortSorted(s1, cmp);
    InsertionSortSorted(s2, cmp);
    forall x, y | x in a && y in a ensures x in s1 && y in s1 {
      assert x in multiset(a) && y in multiset(a);
    }
    SortedPermutationsEqual(a, b, cmp);
  }

  /** The elements of `s` that compare equal to `x`, in their order in `s`. */
  function TiesWith<T>(s: seq<T>, x: T, cmp: (T, T) -> int): (ties: seq<T>)
    ensures |ties| <= |s|
  {
    if s == [] then []
    else TiesWith(s[..|s| - 1], x, cmp) + if cmp(s[|s| - 1], x) == 0 then [s[|s| - 1]] else []
  }

  lemma TiesWithAppend<T>(s: seq<T>, y: T, x: T, cmp: (T, T) -> int)
    ensures TiesWith(s + [y], x, cmp) == TiesWith(s, x, cmp) + if cmp(y, x) == 0 then [y] else []
  {
    assert (s + [y])[..|s|] == s;
  }

  /**
   * `Insert` passes `y` only over elements that compare after it, and no such element ties
   * with anything `y` ties with: among the elements tying with `x`, `y` lands last.
   */
  lemma {:induction false} InsertKeepsTies<T(!new)>(y: T, s: seq<T>, x: T, cmp: (T, T) -> int)
    requires ConsistentComparator(cmp)
    ensures TiesWith(Insert(y, s, cmp), x, cmp) == TiesWith(s, x, cmp) + if cmp(y, x) == 0 then [y] else []
  {
    if s == [] || cmp(s[|s| - 1], y) <= 0 {
      TiesWithAppend(s, y, x, cmp);
    } else {
      var init, last := s[..|s| - 1], s[|s| - 1];
      InsertKeepsTies(y, init, x, cmp);
      TiesWithAppend(Insert(y, init, cmp), last, x, cmp);
      TiesAreNotAfter(last, y, x, cmp);
    }
  }

  /** Two elements that both tie with `x` do not compare after one another. */
  lemma TiesAreNotAfter<T(!new)>(a: T, b: T, x: T, cmp: (T, T) -> int)
    requires ConsistentComparator(cmp)
    ensures cmp(a, x) == 0 && cmp(b, x) == 0 ==> cmp(a, b) <= 0
  {
    if cmp(a, x) == 0 && cmp(b, x) == 0 {
      assert cmp(x, b) == -cmp(b, x);
      assert NotAfterChain(cmp, a, x, b);
    }
  }

  /**
   * Stability: the elements that compare equal to any `x` come out in the order they went
   * in, so records that tie under the comparator keep their input order.
   */
  lemma {:induction false} InsertionSortStable<T(!new)>(s: seq<T>, x: T, cmp: (T, T) -> int)
    requires ConsistentComparator(cmp)
    ensures TiesWith(InsertionSort(s, cmp), x, cmp) == TiesWith(s, x, cmp)
  {
    if s != [] {
      var init, last := s[..|s| - 1], s[|s| - 1];
      InsertionSortStable(init, x, cmp);
      InsertKeepsTies(last, InsertionSort(init, cmp), x, cmp);
    }
  }

  lemma {:induction false} TiesWithConcat<T>(a: seq<T>, b: seq<T>, x: T, cmp: (T, T) -> int)
    ensures TiesWith(a + b, x, cmp) == TiesWith(a, x, cmp) + TiesWith(b, x, cmp)
  {
    if b == [] {
      assert a + b == a;
    } else {
      var init, last := b[..|b| - 1], b[|b| - 1];
      TiesWithConcat(a, init, x, cmp);
      assert a + b == (a + init) + [last] && b == init + [last];
      TiesWithAppend(a + init, last, x, cmp);
      TiesWithAppend(init, last, x, cmp);
    }
  }

  lemma TiesWithCons<T>(a: seq<T>, x: T, cmp: (T, T) -> int)
    requires a != []
    ensures TiesWith(a, x, cmp) == (if cmp(a[0], x) == 0 then [a[0]] else []) + TiesWith(a[1..], x, cmp)
  {
    TiesWithConcat([a[0]], a[1..], x, cmp);
    TiesWithAppend([], a[0], x, cmp);
    assert [a[0]] + a[1..] == a && [] + [a[0]] == [a[0]];
  }

  /**
   * A stable sort has only one possible result: two ordered permutations of one multiset that
   * list the elements of every tie in the same order are equal.
   */
  lemma {:induction false} StableArrangementsEqual<T(!new)>(a: seq<T>, b: seq<T>, cmp: (T, T) -> int)
    requires ConsistentComparator(cmp)
    requires SortedBy(a, cmp) && SortedBy(b, cmp)
    requires multiset(a) == multiset(b)
    requires forall x :: TiesWith(a, x, cmp) == TiesWith(b, x, cmp)
    ensures a == b
  {
    if a == [] {
      assert |b| == |multiset(b)| == 0;
    } else {
      SortedHeadsCompareEqual(a, b, cmp);
      var h := a[0];
      assert cmp(h, h) == -cmp(h, h);
      assert cmp(b[0], h) == -cmp(h, b[0]);
      TiesWithCons(a, h, cmp);
      TiesWithCons(b, h, cmp);
      assert TiesWith(a, h, cmp)[0] == h && TiesWith(b, h, cmp)[0] == b[0];
      SortedTail(a, cmp);
      SortedTail(b, cmp);
      MultisetTail(a, b);
      forall x ensures TiesWith(a[1..], x, cmp) == TiesWith(b[1..], x, cmp) {
        TiesWithCons(a, x, cmp);
        TiesWithCons(b, x, cmp);
        var p := if cmp(h, x) == 0 then [h] else [];
        assert TiesWith(a[1..], x, cmp) == (p + TiesWith(a[1..], x, cmp))[|p|..];
        assert TiesWith(b[1..], x, cmp) == (p + TiesWith(b[1..], x, cmp))[|p|..];
      }
      StableArrangementsEqual(a[1..], b[1..], cmp);
      assert a == [a[0]] + a[1..] && b == [b[0]] + b[1..];
    }
  }

  /**
   * Any stable sort of `s` under a comparator that meets the laws returns `InsertionSort(s, cmp)`:
   * whatever algorithm the runtime uses, an ordered permutation that keeps the order of ties is this one.
   */
  lemma InsertionSortIsTheStableSort<T(!new)>(s: seq<T>, r: seq<T>, cmp: (T, T) -> int)
    requires ConsistentComparator(cmp)
    requires SortedBy(r, cmp) && multiset(r) == multiset(s)
    requires forall x :: TiesWith(r, x, cmp) == TiesWith(s, x, cmp)
    ensures r == InsertionSort(s, cmp)
  {
    var q := InsertionSort(s, cmp);
    InsertionSortSorted(s, cmp);
    InsertionSortPermutes(s, cmp);
    forall x ensures TiesWith(r, x, cmp) == TiesWith(q, x, cmp) {
      InsertionSortStable(s, x, cmp);
    }
    StableArrangementsEqual(r, q, cmp);
  }

  lemma SortedTail<T>(a: seq<T>, cmp: (T, T) -> int)
    requires SortedBy(a, cmp) && a != []
    ensures SortedBy(a[1..], cmp)
  {
    var a' := a[1..];
    forall i, j | 0 <= i < j < |a'| ensures cmp(a'[i], a'[j]) <= 0 {
      assert a'[i] == a[i + 1] && a'[j] == a[j + 1];
    }
  }

  lemma MultisetTail<T>(a: seq<T>, b: seq<T>)
    requires a != [] && b != [] && a[0] == b[0] && multiset(a) == multiset(b)
    ensures multiset(a[1..]) == multiset(b[1..])
  {
    assert a == [a[0]] + a[1..] && b == [b[0]] + b[1..];
    assert multiset(a[1..]) == multiset(a) - multiset{a[0]};
    assert multiset(b[1..]) == multiset(b) - multiset{b[0]};
  }

  /**
   * Where `Insert` puts `x`: behind the last element that does not compare after it, with
   * everything after that position comparing after `x`.
   */
  lemma {:induction false} InsertPosition<T>(x: T, prefix: seq<T>, j: nat, cmp: (T, T) -> int)
    requires j <= |prefix| && (j == 0 || cmp(prefix[j - 1], x) <= 0)
    requires forall k :: j <= k < |prefix| ==> cmp(prefix[k], x) > 0
    ensures Insert(x, prefix, cmp) == prefix[..j] + [x] + prefix[j..]
  {
    if j < |prefix| {
      var init := prefix[..|prefix| - 1];
      InsertPosition(x, init, j, cmp);
      assert init[..j] == prefix[..j];
      assert init[j..] + [prefix[|prefix| - 1]] == prefix[j..];
    } else {
      assert prefix[..j] == prefix;
    }
  }

  /** Moves `a[i]` back into the sorted prefix `a[..i]`, shifting the elements that compare after it up by one. */
  method InsertInPlace<T>(a: array<T>, i: nat, cmp: (T, T) -> int)
    requires i < a.Length
    modifies a
    ensures a[..i + 1] == Insert(old(a[i]), old(a[..i]), cmp)
    ensures forall k :: i < k < a.Length ==> a[k] == old(a[k])
  {
    var x := a[i];
    ghost var prefix := a[..i];
    var j := i;
    while j > 0 && cmp(a[j - 1], x) > 0
      invariant 0 <= j <= i
      invariant forall k :: 0 <= k < j ==> a[k] == prefix[k]
      invariant forall k :: j < k <= i ==> a[k] == prefix[k - 1]
      invariant forall k :: i < k < a.Length ==> a[k] == old(a[k])
      invariant forall k :: j <= k < i ==> cmp(prefix[k], x) > 0
    {
      a[j] := a[j - 1];
      j := j - 1;
    }
    a[j] := x;
    InsertPosition(x, prefix, j, cmp);
    assert a[..i + 1] == prefix[..j] + [x] + prefix[j..];
  }

  /** Stable insertion sort of `a` in place: the sorted prefix grows by one element per round. */
  method SortInPlace<T>(a: array<T>, cmp: (T, T) -> int)
    modifies a
    ensures a[..] == InsertionSort(old(a[..]), cmp)
  {
    ghost var input := a[..];
    var i := 0;
    while i < a.Length
      invariant 0 <= i <= a.Length
      invariant a[..i] == InsertionSort(input[..i], cmp)
      invariant forall k :: i <= k < a.Length ==> a[k] == input[k]
    {
      assert InsertionSort(input[..i + 1], cmp) == Insert(input[i], InsertionSort(input[..i], cmp), cmp) by {
        assert input[..i + 1][..i] == input[..i];
      }
      InsertInPlace(a, i, cmp);
      i := i + 1;
    }
    assert input[..a.Length] == input;
  }
}
