/**
 * One run of `main` (main.go:220-260) put together from its parts: the
 * budget is shared out among the workers, each worker pushes its samples,
 * and `collect` reports them. The goroutines and the channel are not
 * modelled: the samples arrive worker after worker, and each worker's calls
 * come with the outcomes its connection gives them.
 */
module Benchmark {
  import opened QuickSort
  import opened Percentile
  import opened Worker
  import opened Dispatch
  import Report

  /**
   * A run with `requests` calls over `concurrency` workers, where worker k's
   * successive calls have the outcomes `outcomes[k]`: each worker is
   * assigned its share, the report counts the samples pushed, and its failed
   * requests are the calls the workers were assigned but did not complete.
   */
  method Measure(requests: int, concurrency: int, outcomes: seq<seq<Outcome>>)
    returns (counts: seq<nat>, sorted: seq<int>, summary: Report.Summary)
    requires concurrency > 0 && requests > 0
    requires |outcomes| == concurrency && forall k :: 0 <= k < |outcomes| ==> requests <= |outcomes[k]|
    ensures AsInts(counts) == Shares(concurrency, requests / concurrency, requests % concurrency)
    ensures Covers(counts, outcomes)
    ensures Sorted(sorted) && multiset(sorted) == multiset(Collected(counts, outcomes))
    ensures summary.concurrency == concurrency && summary.complete == |sorted|
    ensures summary.complete + summary.failed == requests
    ensures summary.failed == Sum(Shortfall(counts, outcomes)) && 0 <= summary.failed
    ensures summary.failed == 0 <==>
              forall k :: 0 <= k < concurrency ==> |Pushed(counts[k], outcomes[k])| == counts[k]
    ensures summary.cuts == ReportCuts(sorted)
  {
    var shares := Split(requests, concurrency);
    ShareOut(requests, concurrency);
    counts := AsNats(shares);
    forall k | 0 <= k < |counts|
      ensures counts[k] <= |outcomes[k]|
    {
      TermBelowSum(shares, k);
    }
    var samples := Collected(counts, outcomes);
    sorted, summary := Report.Collect(requests, concurrency, samples);
    FailedRequests(requests, counts, outcomes);
  }
}
