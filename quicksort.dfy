/**
 * The in-place quicksort of main.go: `sort(values, l, r)` sorts the closed
 * index range [l, r] of a slice by Lomuto partitioning around the first
 * element of the range, touching the slice only by swapping, and recurses on
 * [l, i-2] and [i, r] where i-1 is the final position of the pivot.
 */
module QuickSort {

  /** The elements with indices in [lo, hi) are in ascending order. */
  ghost predicate SortedRange(s: seq<int>, lo: int, hi: int)
    requires 0 <= lo <= hi <= |s|
  {
    forall i, j :: lo <= i < j < hi ==> s[i] <= s[j]
  }

  /** The whole sequence is in ascending order. */
  ghost predicate Sorted(s: seq<int>)
  {
    SortedRange(s, 0, |s|)
  }

  /** Every element of `s` is below `x`. */
  ghost predicate AllBelow(s: seq<int>, x: int)
  {
    forall k :: 0 <= k < |s| ==> s[k] < x
  }

  /** Every element of `s` is at least `x`. */
  ghost predicate AllAtLeast(s: seq<int>, x: int)
  {
    forall k :: 0 <= k < |s| ==> x <= s[k]
  }

  /** A bound on every element survives a permutation. */
  lemma AllBelowPermuted(s: seq<int>, t: seq<int>, x: int)
    requires multiset(s) == multiset(t) && AllBelow(t, x)
    ensures AllBelow(s, x)
  {
    forall k | 0 <= k < |s| ensures s[k] < x {
      assert s[k] in multiset(t);
    }
  }

  lemma AllAtLeastPermuted(s: seq<int>, t: seq<int>, x: int)
    requires multiset(s) == multiset(t) && AllAtLeast(t, x)
    ensures AllAtLeast(s, x)
  {
    forall k | 0 <= k < |s| ensures x <= s[k] {
      assert s[k] in multiset(t);
    }
  }

  /** The first element of an ascending sequence is at most any of its elements. */
  lemma SortedFirstLeast(s: seq<int>, x: int)
    requires Sorted(s) && x in multiset(s)
    ensures s[0] <= x
  {
    var k :| 0 <= k < |s| && s[k] == x;
    if k > 0 {
      assert SortedRange(s, 0, |s|);
    }
  }

  /** Dropping the first element keeps a sequence ascending. */
  lemma SortedTail(s: seq<int>)
    requires Sorted(s) && s != []
    ensures Sorted(s[1..])
  {
    forall i, j | 0 <= i < j < |s| - 1 ensures s[1..][i] <= s[1..][j] {
      assert s[1..][i] == s[i + 1] && s[1..][j] == s[j + 1];
    }
  }

  lemma MultisetTail(s: seq<int>)
    requires s != []
    ensures multiset(s[1..]) == multiset(s) - multiset{s[0]}
  {
    assert s == [s[0]] + s[1..];
  }

  /** Two ascending sequences with the same elements are the same sequence. */
  lemma {:induction false} SortedUnique(s: seq<int>, t: seq<int>)
    requires Sorted(s) && Sorted(t) && multiset(s) == multiset(t)
    ensures s == t
  {
    assert |s| == |multiset(s)| == |multiset(t)| == |t|;
    if s != [] {
      assert s[0] in multiset(t) && t[0] in multiset(s);
      SortedFirstLeast(t, s[0]);
      SortedFirstLeast(s, t[0]);
      assert s[0] == t[0];
      MultisetTail(s);
      MultisetTail(t);
      SortedTail(s);
      SortedTail(t);
      SortedUnique(s[1..], t[1..]);
    }
  }

  /** The two-element parallel assignment `values[i], values[j] = values[j], values[i]`. */
  method Swap(a: array<int>, i: int, j: int)
    requires 0 <= i < a.Length && 0 <= j < a.Length
    modifies a
    ensures a[i] == old(a[j]) && a[j] == old(a[i])
    ensures forall k :: 0 <= k < a.Length && k != i && k != j ==> a[k] == old(a[k])
    ensures multiset(a[..]) == old(multiset(a[..]))
  {
    a[i], a[j] := a[j], a[i];
  }

  /** If the whole array keeps its elements and nothing outside [lo, hi) moves,
      then the range [lo, hi) keeps its elements. */
  lemma RangePermuted(s: seq<int>, t: seq<int>, lo: int, hi: int)
    requires 0 <= lo <= hi <= |s| == |t|
    requires multiset(s) == multiset(t)
    requires forall k :: 0 <= k < |s| && !(lo <= k < hi) ==> s[k] == t[k]
    ensures multiset(s[lo..hi]) == multiset(t[lo..hi])
  {
    assert s[..lo] == t[..lo];
    assert s[hi..] == t[hi..];
    assert s == s[..lo] + s[lo..hi] + s[hi..];
    assert t == t[..lo] + t[lo..hi] + t[hi..];
    assert multiset(s) == multiset(s[..lo]) + multiset(s[lo..hi]) + multiset(s[hi..]);
    assert multiset(t) == multiset(s[..lo]) + multiset(t[lo..hi]) + multiset(s[hi..]);
    assert multiset(s[lo..hi]) == multiset(s) - multiset(s[..lo]) - multiset(s[hi..]);
    assert multiset(t[lo..hi]) == multiset(t) - multiset(s[..lo]) - multiset(s[hi..]);
  }

  /** Two ascending ranges either side of a pivot that separates them make one ascending range. */
  lemma JoinAroundPivot(s: seq<int>, lo: int, p: int, hi: int)
    requires 0 <= lo <= p < hi <= |s|
    requires SortedRange(s, lo, p) && SortedRange(s, p + 1, hi)
    requires AllBelow(s[lo..p], s[p]) && AllAtLeast(s[p + 1..hi], s[p])
    ensures SortedRange(s, lo, hi)
  {
    forall i, j | lo <= i < j < hi ensures s[i] <= s[j] {
      if i < p {
        assert s[i] == s[lo..p][i - lo];
      }
      if p < j {
        assert s[j] == s[p + 1..hi][j - p - 1];
      }
    }
  }

  /** Sorting a range that is already ascending changes nothing: the sorted
      range is unique and everything outside it stays put. */
  lemma SortedRangeUnique(s: seq<int>, t: seq<int>, lo: int, hi: int)
    requires 0 <= lo <= hi <= |s| == |t|
    requires SortedRange(s, lo, hi) && SortedRange(t, lo, hi)
    requires multiset(s[lo..hi]) == multiset(t[lo..hi])
    requires forall k :: 0 <= k < |s| && !(lo <= k < hi) ==> s[k] == t[k]
    ensures s == t
  {
    assert Sorted(s[lo..hi]) by {
      forall i, j | 0 <= i < j < hi - lo ensures s[lo..hi][i] <= s[lo..hi][j] {
        assert s[lo..hi][i] == s[lo + i] && s[lo..hi][j] == s[lo + j];
      }
    }
    assert Sorted(t[lo..hi]) by {
      forall i, j | 0 <= i < j < hi - lo ensures t[lo..hi][i] <= t[lo..hi][j] {
        assert t[lo..hi][i] == t[lo + i] && t[lo..hi][j] == t[lo + j];
      }
    }
    SortedUnique(s[lo..hi], t[lo..hi]);
    forall k | 0 <= k < |s| ensures s[k] == t[k] {
      if lo <= k < hi {
        assert s[k] == s[lo..hi][k - lo] && t[k] == t[lo..hi][k - lo];
      }
    }
  }

  /**
   * The loop of `sort` (main.go:131-139) with the pivot `values[l]`: it
   * swaps every element below the pivot to the front of (l, r] and returns
   * the index i that ends that region.
   */
  method Scan(a: array<int>, l: int, r: int) returns (i: int)
    requires 0 <= l < r < a.Length
    modifies a
    ensures l + 1 <= i <= r + 1 && a[l] == old(a[l])
    ensures forall k :: l + 1 <= k < i ==> a[k] < a[l]
    ensures forall k :: i <= k <= r ==> a[l] <= a[k]
    ensures multiset(a[..]) == old(multiset(a[..]))
    ensures forall k :: 0 <= k < a.Length && !(l <= k <= r) ==> a[k] == old(a[k])
  {
    var pivot := a[l];
    i := l + 1;
    var j := l + 1;
    while j <= r
      invariant l + 1 <= i <= j <= r + 1
      invariant a[l] == pivot
      invariant forall k :: l + 1 <= k < i ==> a[k] < pivot
      invariant forall k :: i <= k < j ==> pivot <= a[k]
      invariant multiset(a[..]) == old(multiset(a[..]))
      invariant forall k :: 0 <= k < a.Length && !(l <= k <= r) ==> a[k] == old(a[k])
    {
      if pivot > a[j] {
        Swap(a, i, j);
        i := i + 1;
      }
      j := j + 1;
    }
  }

  /**
   * The partition of `sort` (main.go:131-141): after the loop, the pivot is
   * swapped into index p = i-1, every element of [l, p) is below it and every
   * element of (p, r] is at least it.
   */
  method Partition(a: array<int>, l: int, r: int) returns (p: int)
    requires 0 <= l < r < a.Length
    modifies a
    ensures l <= p <= r
    ensures a[p] == old(a[l])
    ensures AllBelow(a[l..p], a[p]) && AllAtLeast(a[p + 1..r + 1], a[p])
    ensures multiset(a[..]) == old(multiset(a[..]))
    ensures SameOutside(a[..], old(a[..]), l, r + 1)
  {
    var i := Scan(a, l, r);
    Swap(a, l, i - 1);
    p := i - 1;
    assert forall k :: l <= k < p ==> a[l..p][k - l] == a[k];
    assert forall k :: p + 1 <= k <= r ==> a[p + 1..r + 1][k - p - 1] == a[k];
  }

  /** `s` and `t` agree on every index outside [lo, hi). */
  ghost predicate SameOutside(s: seq<int>, t: seq<int>, lo: int, hi: int)
  {
    |s| == |t| && forall k :: 0 <= k < |s| && !(lo <= k < hi) ==> s[k] == t[k]
  }

  /** What the two recursive calls of `sort` leave behind, around the pivot
      placed by the partition, is the sorted permutation of the range. */
  lemma SortStep(a0: seq<int>, a1: seq<int>, a2: seq<int>, a3: seq<int>, l: int, p: int, r: int)
    requires 0 <= l <= p <= r < |a0|
    requires multiset(a1) == multiset(a0) && SameOutside(a1, a0, l, r + 1)
    requires AllBelow(a1[l..p], a1[p]) && AllAtLeast(a1[p + 1..r + 1], a1[p])
    requires SameOutside(a2, a1, l, p) && multiset(a2[l..p]) == multiset(a1[l..p])
    requires SortedRange(a2, l, p)
    requires SameOutside(a3, a2, p + 1, r + 1) && multiset(a3[p + 1..r + 1]) == multiset(a2[p + 1..r + 1])
    requires SortedRange(a3, p + 1, r + 1)
    requires multiset(a3) == multiset(a0)
    ensures SortedRange(a3, l, r + 1)
    ensures multiset(a3[l..r + 1]) == multiset(a0[l..r + 1])
    ensures SameOutside(a3, a0, l, r + 1)
    ensures SortedRange(a0, l, r + 1) ==> a3 == a0
  {
    assert a2[l..p] == a3[l..p];
    assert a1[p + 1..r + 1] == a2[p + 1..r + 1];
    assert a3[p] == a1[p];
    assert SortedRange(a3, l, p);
    AllBelowPermuted(a3[l..p], a1[l..p], a1[p]);
    AllAtLeastPermuted(a3[p + 1..r + 1], a1[p + 1..r + 1], a1[p]);
    JoinAroundPivot(a3, l, p, r + 1);
    assert SameOutside(a3, a0, l, r + 1);
    RangePermuted(a3, a0, l, r + 1);
    if SortedRange(a0, l, r + 1) {
      SortedRangeUnique(a0, a3, l, r + 1);
    }
  }

  /**
   * `sort(values, l, r)`: afterwards [l, r] is ascending and holds the same
   * elements as before, and no element outside [l, r] has changed. A range
   * that was already ascending is left exactly as it was.
   */
  method Sort(a: array<int>, l: int, r: int)
    requires l < r ==> 0 <= l && r < a.Length
    modifies a
    ensures 0 <= l <= r + 1 <= a.Length ==> SortedRange(a[..], l, r + 1)
    ensures 0 <= l <= r + 1 <= a.Length ==> multiset(a[l..r + 1]) == old(multiset(a[l..r + 1]))
    ensures multiset(a[..]) == old(multiset(a[..]))
    ensures SameOutside(a[..], old(a[..]), l, r + 1)
    ensures l >= r ==> a[..] == old(a[..])
    ensures 0 <= l <= r + 1 <= a.Length && SortedRange(old(a[..]), l, r + 1) ==> a[..] == old(a[..])
    decreases r - l
  {
    if l >= r {
      return;
    }
    ghost var a0 := a[..];
    var p := Partition(a, l, r);
    ghost var a1 := a[..];
    Sort(a, l, p - 1);
    ghost var a2 := a[..];
    Sort(a, p + 1, r);
    SortStep(a0, a1, a2, a[..], l, p, r);
  }
}
