/**
 * The report of `collect` in main.go (lines 147-198): the samples received
 * from the workers are sorted in place, counted, and read at the percentile
 * cut points. The wall-clock duration, the rate per second and the text
 * formatting of the lines are not modelled.
 */
module Report {
  import opened Wrappers
  import opened QuickSort
  import opened Percentile

  /** The figures of the report: the concurrency level, the complete and
      failed requests, and the cut point of each percentile line. */
  datatype Summary = Summary(concurrency: int, complete: int, failed: int, cuts: seq<Option<int>>)

  /** The percent printed on each line is the denominator's share of the
      hundred, rounded down, and the last line is the hundred itself. */
  lemma ReportLabels()
    ensures |ReportPercents| == |ReportDenominators|
    ensures forall k :: 0 <= k < |ReportDenominators| - 1 ==>
              ReportPercents[k] == 100 * (ReportDenominators[k] - 1) / ReportDenominators[k]
    ensures ReportPercents[|ReportPercents| - 1] == 100
  {
  }

  /**
   * `collect`: the samples, in the order they arrived, are copied into a
   * slice and sorted with `sort(s, 0, l-1)`; l samples complete, the other
   * `requests - l` failed, and each line reads its cut point from the sorted
   * samples.
   */
  method Collect(requests: int, concurrency: int, samples: seq<int>) returns (sorted: seq<int>, summary: Summary)
    ensures Sorted(sorted) && multiset(sorted) == multiset(samples)
    ensures summary.concurrency == concurrency
    ensures summary.complete == |samples| && summary.failed == requests - |samples|
    ensures summary.cuts == ReportCuts(sorted)
    ensures |samples| == 0 ==> forall k :: 0 <= k < |summary.cuts| ==> summary.cuts[k].None?
    ensures |samples| >= 1 ==> forall i, j :: 0 <= i <= j < |summary.cuts| ==>
              summary.cuts[i].Some? && summary.cuts[j].Some? && summary.cuts[i].value <= summary.cuts[j].value
    ensures |samples| >= 1 ==> summary.cuts[|summary.cuts| - 1] == Some(sorted[|sorted| - 1])
  {
    var a := new int[|samples|](i requires 0 <= i < |samples| => samples[i]);
    assert a[..] == samples;
    Sort(a, 0, a.Length - 1);
    sorted := a[..];
    summary := Summary(concurrency, a.Length, requests - a.Length, ReportCuts(sorted));
  }
}
