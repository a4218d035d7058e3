/**
 * How `main` shares the request budget among the workers (main.go:246-254),
 * and the failed-requests figure of the report (main.go:180). Goroutines,
 * the wait group and the channel are not modelled: the samples of a run are
 * the workers' pushes one after another.
 */
module Dispatch {
  import opened Worker

  /** The sum of a sequence of counts. */
  function Sum(s: seq<int>): int
  {
    if s == [] then 0 else Sum(s[..|s| - 1]) + s[|s| - 1]
  }

  lemma SumAppend(s: seq<int>, x: int)
    ensures Sum(s + [x]) == Sum(s) + x
  {
    assert (s + [x])[..|s|] == s;
  }

  /** The count of worker k when q requests go to every worker and one
      more to each of the first m. */
  function Share(k: int, q: int, m: int): int
  {
    if k < m then q + 1 else q
  }

  /** The counts of the first n workers. */
  function Shares(n: nat, q: int, m: int): seq<int>
  {
    seq(n, k requires 0 <= k < n => Share(k, q, m))
  }

  /** The first n workers get n*q requests and one more for each of them before m. */
  lemma {:induction false} SharesTotal(n: nat, q: int, m: nat)
    ensures Sum(Shares(n, q, m)) == n * q + if n < m then n else m
  {
    if n > 0 {
      assert Shares(n, q, m) == Shares(n - 1, q, m) + [Share(n - 1, q, m)];
      SumAppend(Shares(n - 1, q, m), Share(n - 1, q, m));
      SharesTotal(n - 1, q, m);
      assert n * q == (n - 1) * q + q;
    }
  }

  /**
   * How `main` shares out the requests: with quotient q = requests /
   * concurrency and remainder m = requests % concurrency, worker k runs q+1
   * requests when k < m and q otherwise. The counts add up to `requests` and
   * no two of them differ by more than one.
   */
  lemma ShareOut(requests: int, concurrency: int)
    requires concurrency > 0 && requests > 0
    ensures var counts := Shares(concurrency, requests / concurrency, requests % concurrency);
      && (forall k :: 0 <= k < |counts| ==> 0 <= counts[k])
      && (forall k :: 0 <= k < |counts| ==>
            (counts[k] == requests / concurrency + 1 <==> k < requests % concurrency))
      && (forall k :: 0 <= k < |counts| ==>
            (counts[k] == requests / concurrency <==> requests % concurrency <= k))
      && Sum(counts) == requests
      && (forall j, k :: 0 <= j < |counts| && 0 <= k < |counts| ==> counts[j] - counts[k] <= 1)
  {
    DivMod(requests, concurrency);
    SharesTotal(concurrency, requests / concurrency, requests % concurrency);
  }

  lemma DivMod(x: int, d: int)
    requires d > 0
    ensures x == d * (x / d) + x % d && 0 <= x % d < d
  {
  }

  /** The partition loop of `main` (main.go:246-254): it computes the shares
      above, one worker at a time. */
  method Split(requests: int, concurrency: int) returns (counts: seq<int>)
    requires concurrency > 0 && requests > 0
    ensures counts == Shares(concurrency, requests / concurrency, requests % concurrency)
    ensures |counts| == concurrency && Sum(counts) == requests
  {
    var quotient, remainder := requests / concurrency, requests % concurrency;
    counts := [];
    var i := 0;
    while i < concurrency
      invariant 0 <= i <= concurrency && |counts| == i
      invariant forall k :: 0 <= k < i ==> counts[k] == Share(k, quotient, remainder)
    {
      if i < remainder {
        counts := counts + [quotient + 1];
      } else {
        counts := counts + [quotient];
      }
      i := i + 1;
    }
    ShareOut(requests, concurrency);
  }

  /** Every worker has an outcome for each of the calls it is assigned. */
  ghost predicate Covers(counts: seq<nat>, outcomes: seq<seq<Outcome>>)
  {
    |counts| == |outcomes| && forall k :: 0 <= k < |counts| ==> counts[k] <= |outcomes[k]|
  }

  /** The samples of a whole run: every worker's pushes, worker by worker. */
  function Collected(counts: seq<nat>, outcomes: seq<seq<Outcome>>): seq<int>
    requires Covers(counts, outcomes)
  {
    if counts == [] then []
    else Collected(counts[..|counts| - 1], outcomes[..|outcomes| - 1])
         + Pushed(counts[|counts| - 1], outcomes[|outcomes| - 1])
  }

  /** The calls a worker was assigned but did not complete: the failing
      call and all those after it. */
  function Shortfall(counts: seq<nat>, outcomes: seq<seq<Outcome>>): seq<int>
    requires Covers(counts, outcomes)
  {
    seq(|counts|, k requires 0 <= k < |counts| => counts[k] - |Pushed(counts[k], outcomes[k])|)
  }

  /** The counts as integers. */
  function AsInts(counts: seq<nat>): seq<int>
  {
    seq(|counts|, k requires 0 <= k < |counts| => counts[k] as int)
  }

  /** Non-negative counts as natural numbers, the inverse of `AsInts`. */
  function AsNats(counts: seq<int>): (n: seq<nat>)
    requires forall k :: 0 <= k < |counts| ==> 0 <= counts[k]
    ensures AsInts(n) == counts
  {
    seq(|counts|, k requires 0 <= k < |counts| => counts[k] as nat)
  }

  /** No term of a sum of non-negative numbers exceeds the sum. */
  lemma {:induction false} TermBelowSum(s: seq<int>, k: int)
    requires forall j :: 0 <= j < |s| ==> 0 <= s[j]
    requires 0 <= k < |s|
    ensures s[k] <= Sum(s)
  {
    var n := |s| - 1;
    assert forall j :: 0 <= j < n ==> s[..n][j] == s[j];
    SumNonNegative(s[..n]);
    if k < n {
      TermBelowSum(s[..n], k);
    }
  }

  /** The requests minus the samples collected is the sum of the shortfalls. */
  lemma {:induction false} FailedIsShortfall(requests: int, counts: seq<nat>, outcomes: seq<seq<Outcome>>)
    requires Covers(counts, outcomes) && Sum(AsInts(counts)) == requests
    ensures requests - |Collected(counts, outcomes)| == Sum(Shortfall(counts, outcomes))
    decreases |counts|
  {
    if counts != [] {
      var n := |counts| - 1;
      var c', o' := counts[..n], outcomes[..n];
      AsIntsLast(counts);
      ShortfallLast(counts, outcomes);
      SumAppend(AsInts(c'), counts[n]);
      SumAppend(Shortfall(c', o'), counts[n] - |Pushed(counts[n], outcomes[n])|);
      FailedIsShortfall(Sum(AsInts(c')), c', o');
    }
  }

  /** A sum of non-negative numbers is non-negative, and zero exactly when every term is. */
  lemma {:induction false} SumNonNegative(s: seq<int>)
    requires forall k :: 0 <= k < |s| ==> 0 <= s[k]
    ensures 0 <= Sum(s)
    ensures Sum(s) == 0 <==> forall k :: 0 <= k < |s| ==> s[k] == 0
  {
    if s != [] {
      var n := |s| - 1;
      assert forall k :: 0 <= k < n ==> s[..n][k] == s[k];
      SumNonNegative(s[..n]);
    }
  }

  /**
   * The "Failed requests" figure `*requests - l` (main.go:180), where l is
   * the number of samples collected: when the counts share out `requests`,
   * it is the sum of the workers' shortfalls, so it is never negative, and
   * it is zero exactly when every worker completed all its calls.
   */
  lemma FailedRequests(requests: int, counts: seq<nat>, outcomes: seq<seq<Outcome>>)
    requires Covers(counts, outcomes) && Sum(AsInts(counts)) == requests
    ensures requests - |Collected(counts, outcomes)| == Sum(Shortfall(counts, outcomes))
    ensures 0 <= requests - |Collected(counts, outcomes)|
    ensures requests - |Collected(counts, outcomes)| == 0 <==>
              forall k :: 0 <= k < |counts| ==> |Pushed(counts[k], outcomes[k])| == counts[k]
  {
    var gaps := Shortfall(counts, outcomes);
    assert forall k :: 0 <= k < |counts| ==> gaps[k] == counts[k] - |Pushed(counts[k], outcomes[k])|;
    FailedIsShortfall(requests, counts, outcomes);
    SumNonNegative(gaps);
  }

  lemma AsIntsLast(counts: seq<nat>)
    requires counts != []
    ensures AsInts(counts) == AsInts(counts[..|counts| - 1]) + [counts[|counts| - 1] as int]
  {
  }

  lemma ShortfallLast(counts: seq<nat>, outcomes: seq<seq<Outcome>>)
    requires Covers(counts, outcomes) && counts != []
    ensures Covers(counts[..|counts| - 1], outcomes[..|counts| - 1])
    ensures Shortfall(counts, outcomes) ==
              Shortfall(counts[..|counts| - 1], outcomes[..|counts| - 1])
              + [counts[|counts| - 1] - |Pushed(counts[|counts| - 1], outcomes[|counts| - 1])|]
  {
  }
}
