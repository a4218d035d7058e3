/**
 * The percentile lookup `v(denominator)` of `collect` in main.go. On the
 * sorted samples `s` of length l, a denominator d <= 0 reads the largest
 * sample `s[l-1]`, and any other d reads `s[l*(d-1)/d - 1]`. The report asks
 * for d = 2, 3, 4, 5, 10, 20, 50, 100 (the 50% to 99% lines) and then -1 (the
 * 100% line). The division by 1000 into milliseconds is floating point and
 * is not modelled; the lookups below return the sample in microseconds.
 */
module Percentile {
  import opened Wrappers
  import opened QuickSort

  /** The denominators passed to `v`, in report order (50% ... 99%, then 100%). */
  const ReportDenominators: seq<int> := [2, 3, 4, 5, 10, 20, 50, 100, -1]

  /** The percent labels printed beside them. */
  const ReportPercents: seq<int> := [50, 66, 75, 80, 90, 95, 98, 99, 100]

  /**
   * The index `v` reads on l samples. Go's `/` truncates toward zero; here
   * the dividend l*(d-1) is never negative, so Dafny's `/` computes the same.
   */
  function IndexAsWritten(l: nat, d: int): int
  {
    if d <= 0 then l - 1 else l * (d - 1) / d - 1
  }

  /** If x*d <= y then x is at most the quotient y/d. */
  lemma QuotientLower(x: int, y: int, d: int)
    requires d > 0 && x * d <= y
    ensures x <= y / d
  {
    var q := y / d;
    assert y == q * d + y % d && y % d < d;
    if x > q {
      NonNegativeProduct(x - q - 1, d);
    }
  }

  lemma NonNegativeProduct(a: int, b: int)
    requires 0 <= a && 0 <= b
    ensures 0 <= a * b
  {
  }

  /** If y < x*d then the quotient y/d is below x. */
  lemma QuotientUpper(x: int, y: int, d: int)
    requires d > 0 && 0 <= y < x * d
    ensures y / d < x
  {
    var q := y / d;
    assert y == q * d + y % d && 0 <= y % d;
  }

  /**
   * The index is a valid position exactly when there are at least two
   * samples and d >= 2, or at least one sample and d is the sentinel. In
   * every other case (no sample, one sample with d > 0, or d = 1) it is -1.
   */
  lemma {:induction false} IndexInRange(l: nat, d: int)
    ensures 0 <= IndexAsWritten(l, d) < l <==> (d <= 0 && l >= 1) || (d >= 2 && l >= 2)
    ensures !(0 <= IndexAsWritten(l, d) < l) ==> IndexAsWritten(l, d) == -1
    ensures d > 0 && l >= 1 ==> IndexAsWritten(l, d) <= l - 2
  {
    if d > 0 {
      var x := l * (d - 1);
      assert x == l * d - l;
      if l == 0 || d == 1 {
        assert x == 0;
      } else if l == 1 {
        assert x == d - 1;
      } else {
        NonNegativeProduct(l - 2, d - 1);
        assert x == (l - 2) * (d - 1) + 2 * (d - 1);
        QuotientLower(1, x, d);
      }
      if l >= 1 {
        QuotientUpper(l, x, d);
      }
    }
  }

  /** A larger denominator never selects an earlier index, and the sentinel
      selects the last index, which no positive denominator passes. */
  lemma {:induction false} IndexMonotone(l: nat, d1: int, d2: int)
    requires 1 <= d1 && (d1 <= d2 || d2 <= 0)
    ensures IndexAsWritten(l, d1) <= IndexAsWritten(l, d2)
  {
    var x1 := l * (d1 - 1);
    var q1 := x1 / d1;
    assert q1 * d1 <= x1;
    if l > 0 {
      QuotientUpper(l, x1, d1);
    } else {
      assert x1 == 0;
    }
    if d2 > 0 {
      // (l - q1) * d1 >= l, hence (l - q1) * d2 >= l, hence q1 * d2 <= l * (d2 - 1)
      assert (l - q1) * d1 >= l;
      assert (l - q1) * d2 >= (l - q1) * d1;
      assert q1 * d2 <= l * (d2 - 1);
      QuotientLower(q1, l * (d2 - 1), d2);
    }
  }

  /** Down the report, the index read by each line is at least the one above it. */
  lemma ReportIndicesAscending(l: nat, i: int, j: int)
    requires 0 <= i <= j < |ReportDenominators|
    ensures IndexAsWritten(l, ReportDenominators[i]) <= IndexAsWritten(l, ReportDenominators[j])
  {
    if i < j {
      IndexMonotone(l, ReportDenominators[i], ReportDenominators[j]);
    }
  }

  /** The three cut points worked out for the samples 0, 1, ..., 999. */
  lemma ThousandSampleCuts()
    ensures IndexAsWritten(1000, 2) == 499
    ensures IndexAsWritten(1000, 100) == 989
    ensures IndexAsWritten(1000, -1) == 999
  {
  }

  /**
   * `v(d)` as written: the sample at the index above, or None where that
   * index is outside the slice and the Go program stops with an
   * index-out-of-range panic.
   */
  function SelectAsWritten(s: seq<int>, d: int): (r: Option<int>)
    ensures r.Some? <==> (d <= 0 && |s| >= 1) || (d >= 2 && |s| >= 2)
    ensures r.Some? ==> 0 <= IndexAsWritten(|s|, d) < |s| && r.value == s[IndexAsWritten(|s|, d)]
  {
    var i := IndexAsWritten(|s|, d);
    IndexInRange(|s|, d);
    if 0 <= i < |s| then Some(s[i]) else None
  }

  /** With a single sample every line but the last reads index -1. */
  lemma SingleSampleCutFails(x: int, k: nat)
    requires k < |ReportDenominators| - 1
    ensures SelectAsWritten([x], ReportDenominators[k]) == None
  {
  }

  /** With no sample at all, every line reads index -1. */
  lemma NoSampleCutFails(d: int)
    ensures SelectAsWritten([], d) == None
  {
  }

  /** The index with the lower bound 0 applied: -1 becomes 0. */
  function Index(l: nat, d: int): (i: int)
    ensures l >= 1 ==> 0 <= i < l
    ensures 0 <= IndexAsWritten(l, d) ==> i == IndexAsWritten(l, d)
  {
    IndexInRange(l, d);
    var i := IndexAsWritten(l, d);
    if i < 0 then 0 else i
  }

  /** The bound keeps the indices ascending. */
  lemma IndexAscending(l: nat, d1: int, d2: int)
    requires 1 <= d1 && (d1 <= d2 || d2 <= 0)
    ensures Index(l, d1) <= Index(l, d2)
  {
    IndexMonotone(l, d1, d2);
  }

  /**
   * The percentile lookup with the index bounded below by 0. It fails only
   * when there is no sample, agrees with `v` wherever `v` reads inside the
   * slice, and on one sample returns that sample for every line. On sorted
   * samples its result bounds every sample at or before the index read.
   */
  function Select(s: seq<int>, d: int): (r: Option<int>)
    ensures r.None? <==> |s| == 0
    ensures SelectAsWritten(s, d).Some? ==> r == SelectAsWritten(s, d)
    ensures |s| == 1 ==> r == Some(s[0])
    ensures r.Some? && d <= 0 ==> r.value == s[|s| - 1]
    ensures r.Some? && Sorted(s) ==> forall k :: 0 <= k <= Index(|s|, d) ==> s[k] <= r.value
  {
    if |s| == 0 then None else Some(s[Index(|s|, d)])
  }

  /**
   * On sorted samples the lookups of the report lines never decrease down
   * the report.
   */
  lemma SelectsAscending(s: seq<int>)
    ensures Sorted(s) && |s| >= 1 ==> forall i, j :: 0 <= i <= j < |ReportDenominators| ==>
              Select(s, ReportDenominators[i]).value <= Select(s, ReportDenominators[j]).value
  {
    if Sorted(s) && |s| >= 1 {
      forall i, j | 0 <= i <= j < |ReportDenominators|
        ensures Select(s, ReportDenominators[i]).value <= Select(s, ReportDenominators[j]).value
      {
        if i < j {
          IndexAscending(|s|, ReportDenominators[i], ReportDenominators[j]);
        }
      }
    }
  }

  /**
   * The cut points of the nine report lines on samples `s`, top to bottom.
   * Wherever `v` as written reads inside the slice they are its values; with
   * no sample they are all missing, otherwise all present; one sample is
   * every line's value; the last line is the last sample; and on sorted
   * samples they never decrease down the report.
   */
  function ReportCuts(s: seq<int>): (cuts: seq<Option<int>>)
    ensures |cuts| == |ReportDenominators|
    ensures forall k :: 0 <= k < |cuts| && SelectAsWritten(s, ReportDenominators[k]).Some? ==>
              cuts[k] == SelectAsWritten(s, ReportDenominators[k])
    ensures |s| == 0 ==> forall k :: 0 <= k < |cuts| ==> cuts[k].None?
    ensures |s| >= 1 ==> forall k :: 0 <= k < |cuts| ==> cuts[k].Some?
    ensures |s| == 1 ==> forall k :: 0 <= k < |cuts| ==> cuts[k] == Some(s[0])
    ensures |s| >= 1 ==> cuts[|cuts| - 1] == Some(s[|s| - 1])
    ensures Sorted(s) && |s| >= 1 ==> forall i, j :: 0 <= i <= j < |cuts| ==>
              cuts[i].Some? && cuts[j].Some? && cuts[i].value <= cuts[j].value
  {
    SelectsAscending(s);
    seq(|ReportDenominators|, k requires 0 <= k < |ReportDenominators| => Select(s, ReportDenominators[k]))
  }
}
