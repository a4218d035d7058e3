/**
 * The loop of `Processor.process` in main.go (lines 115-123): a worker makes
 * up to `count` calls of the case on its connection, pushes one latency
 * sample in microseconds after each success, and returns at the first
 * error. The clock is not modelled: each successful call comes with its
 * elapsed nanoseconds.
 */
module Worker {
  import opened Wrappers
  import Case

  /** One call of a worker as its caller sees it: a success after some
      elapsed nanoseconds, or an error. */
  datatype Outcome = Success(nanos: int) | Failure

  /**
   * `int(duration / 1000)` with an int64 `duration`: Go's division truncates
   * toward zero, so the magnitude is rounded down and the sign is kept.
   */
  function Micros(nanos: int): (m: int)
    ensures 0 <= nanos ==> 0 <= m && m * 1000 <= nanos < m * 1000 + 1000
    ensures nanos < 0 ==> m <= 0 && nanos <= m * 1000 && m * 1000 - 1000 < nanos
  {
    if nanos >= 0 then nanos / 1000 else -((-nanos) / 1000)
  }

  /**
   * The samples a worker assigned `count` calls pushes when its successive
   * calls have the outcomes `outcomes`: one sample per success, in order,
   * stopping at the first failure or after `count` calls.
   */
  function Pushed(count: nat, outcomes: seq<Outcome>): (samples: seq<int>)
    requires count <= |outcomes|
    ensures |samples| <= count
    ensures forall k :: 0 <= k < |samples| ==>
              outcomes[k].Success? && samples[k] == Micros(outcomes[k].nanos)
    ensures |samples| == count || outcomes[|samples|].Failure?
  {
    if count == 0 then []
    else match outcomes[0]
      case Failure => []
      case Success(nanos) => [Micros(nanos)] + Pushed(count - 1, outcomes[1..])
  }

  /**
   * The loop of `Processor.process`: it pushes a sample after each
   * successful call and returns at the first failing one.
   */
  method Process(count: nat, outcomes: seq<Outcome>) returns (samples: seq<int>)
    requires count <= |outcomes|
    ensures samples == Pushed(count, outcomes)
  {
    samples := [];
    var i := 0;
    while i < count
      invariant 0 <= i <= count && samples == Pushed(i, outcomes)
      invariant |samples| == i
    {
      match outcomes[i]
      case Failure =>
        PushedStops(i, count, outcomes);
        return;
      case Success(nanos) =>
        PushedGrows(i, outcomes);
        samples := samples + [Micros(nanos)];
      i := i + 1;
    }
  }

  /** A success after `i` successes adds one sample. */
  lemma {:induction false} PushedGrows(i: nat, outcomes: seq<Outcome>)
    requires i < |outcomes| && outcomes[i].Success? && |Pushed(i, outcomes)| == i
    ensures Pushed(i + 1, outcomes) == Pushed(i, outcomes) + [Micros(outcomes[i].nanos)]
  {
    if i > 0 {
      PushedGrows(i - 1, outcomes[1..]);
    }
  }

  /** A failure after `i` successes ends the samples there, whatever the count. */
  lemma {:induction false} PushedStops(i: nat, count: nat, outcomes: seq<Outcome>)
    requires i < count <= |outcomes| && outcomes[i].Failure? && |Pushed(i, outcomes)| == i
    ensures Pushed(count, outcomes) == Pushed(i, outcomes)
  {
    if i > 0 {
      PushedStops(i - 1, count - 1, outcomes[1..]);
    }
  }

  /**
   * The outcomes of successive runs of a case on one connection, the k-th
   * taking `nanos[k]` when it succeeds. A case is a function of the number
   * of the next operation on the connection; each run starts where the
   * previous one ended.
   */
  function Outcomes(c: nat -> Case.Run, at: nat, nanos: seq<int>): (o: seq<Outcome>)
    ensures |o| == |nanos|
    ensures nanos != [] ==> o[0] == if c(at).err.None? then Success(nanos[0]) else Failure
    decreases |nanos|
  {
    if nanos == [] then []
    else
      var runs := [if c(at).err.None? then Success(nanos[0]) else Failure];
      runs + Outcomes(c, at + |c(at).ops|, nanos[1..])
  }

  /** The worker pushes a sample for every call it is assigned exactly when
      none of those calls fails. */
  lemma {:induction false} PushedAll(count: nat, outcomes: seq<Outcome>)
    requires count <= |outcomes|
    ensures |Pushed(count, outcomes)| == count <==> forall k :: 0 <= k < count ==> outcomes[k].Success?
  {
    if count > 0 && outcomes[0].Success? {
      PushedAll(count - 1, outcomes[1..]);
      assert forall k :: 1 <= k < count ==> outcomes[k] == outcomes[1..][k - 1];
    }
  }

  /** A case that succeeds wherever it starts gives a worker one sample per call. */
  lemma {:induction false} ReliablePushesAll(c: nat -> Case.Run, at: nat, nanos: seq<int>, count: nat)
    requires forall a :: c(a).err.None?
    requires count <= |nanos|
    ensures |Pushed(count, Outcomes(c, at, nanos))| == count
    decreases count
  {
    if count > 0 {
      var o := Outcomes(c, at, nanos);
      assert o[1..] == Outcomes(c, at + |c(at).ops|, nanos[1..]);
      ReliablePushesAll(c, at + |c(at).ops|, nanos[1..], count - 1);
    }
  }

  /** A case whose first run fails gives the worker no sample at all. */
  lemma FirstFailurePushesNothing(c: nat -> Case.Run, at: nat, nanos: seq<int>, count: nat)
    requires c(at).err.Some? && count <= |nanos|
    ensures Pushed(count, Outcomes(c, at, nanos)) == []
  {
  }

  /** The case `call(name, args...)` as the function value a worker holds. */
  function Called(name: string, args: seq<Case.Arg>, p: Case.Protocol): nat -> Case.Run
  {
    (a: nat) => Case.Call(name, args, p, a)
  }

  /** On a connection that never reports an error, a worker calling with
      supported arguments pushes one sample for every call it is assigned. */
  lemma HealthyWorkerPushesAll(name: string, args: seq<Case.Arg>, p: Case.Protocol, at: nat, nanos: seq<int>, count: nat)
    requires p.failing == {} && Case.AllSupported(args) && count <= |nanos|
    ensures |Pushed(count, Outcomes(Called(name, args, p), at, nanos))| == count
  {
    forall a: nat ensures Case.Call(name, args, p, a).err.None? {
      Case.CallSucceeds(name, args, p, a);
    }
    ReliablePushesAll(Called(name, args, p), at, nanos, count);
  }

  /** An unsupported argument fails the first call, so the worker pushes nothing. */
  lemma UnsupportedWorkerPushesNothing(name: string, args: seq<Case.Arg>, p: Case.Protocol, at: nat, nanos: seq<int>, count: nat)
    requires !Case.AllSupported(args) && count <= |nanos|
    ensures Pushed(count, Outcomes(Called(name, args, p), at, nanos)) == []
  {
    FirstFailurePushesNothing(Called(name, args, p), at, nanos, count);
  }
}
