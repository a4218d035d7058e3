# tenchmark core in Dafny

tenchmark is a load generator for Thrift RPC services, in the style of `ab`,
and all of it lives in `main.go`. `main` shares a budget of `requests` calls
among `concurrency` worker goroutines. Each worker opens one connection and
performs its share of calls of a request `Case`, which is one write and read
round trip built by `call(name, args...)`. After each successful call the
worker pushes the latency in microseconds onto a channel, and it stops at the
first error. `collect` drains the channel, sorts the samples with its own
in-place quicksort, and prints:

- the complete requests;
- the failed requests, computed as `requests - l`;
- nine percentile cut points read by the closure `v(denominator)`.

The model has one module per piece:

- `QuickSort` (quicksort.dfy): `sort` as a recursive method on an `array<int>`. It partitions by swapping and is proved to produce an ascending range that is a permutation of the original. Nothing outside `[l, r]` moves.
- `Percentile` (percentile.dfy): the index arithmetic of `v` as written, where it is in range, how it grows with the denominator, and a bounded variant. See Findings.
- `Case` (case.dfy): the operations a case performs on a protocol and the error it returns.
  - Operations are numbered in the order they are performed. A `Protocol` is the set of numbers at which an operation reports an error.
  - `Plan` is the operation sequence when nothing fails. `Ran` states that a run performed a prefix of a plan and stopped exactly at the first failing checked operation.
  - The error of `WriteFieldBegin` is overwritten by the value write that follows it, so that operation is not checked.
- `Worker` (worker.dfy): the counting loop of `Processor.process` as a method over a sequence of call outcomes, specified by the function `Pushed`.
- `Dispatch` (dispatch.dfy): the quotient/remainder partition loop of `main` and the failed-requests figure.
- `Report` (report.dfy): `collect` without the clock and the text formatting. It reads the cut points with the corrected lookup of Findings. On zero or one sample it therefore returns a report where `collect` panics at main.go:184.
- `Benchmark` (benchmark.dfy): one run of `main` put together from the parts. The budget is split by `Dispatch.Split`, each worker pushes what `Worker.Pushed` says, and the samples go through `Report.Collect`.

Three facts about the code that are easy to get wrong:

- The 66% line uses denominator 3, although `100 / (100 - 66)` would give 2 (main.go:185). `Report.ReportLabels` relates each printed percent to its denominator.
- An unsupported argument is reported only after the message begin, the struct begin and the fields of the earlier arguments have been written (main.go:25-47). `Case.UnsupportedAfterWrites` shows this.
- The percentile index is out of range only for zero or one sample, not whenever there are fewer samples than the denominator. `Percentile.IndexInRange` shows that with two samples it is in range for every denominator of at least 2; see Findings.

## Model

| member | source | states |
|---|---|---|
| QuickSort.Swap | main.go:136-141 | the parallel assignment exchanges the two elements, changes nothing else and keeps the multiset |
| QuickSort.Scan | main.go:131-139 | the loop leaves the pivot at `l`, the elements below it in `(l, i)` and those at least it in `[i, r]`; it keeps the multiset and touches nothing outside `[l, r]` |
| QuickSort.Partition | main.go:131-141 | after the final swap the pivot sits at `p = i-1`, everything in `[l, p)` is below it, everything in `(p, r]` is at least it, the multiset is kept and nothing outside `[l, r]` moves |
| QuickSort.Sort | main.go:126-145 | afterwards `[l, r]` is ascending and a permutation of what it held, the whole array's multiset is kept, nothing outside `[l, r]` changes, an empty or one-element range is untouched, and an already ascending range is left exactly as it was; it terminates on `r - l` |
| QuickSort.SortStep | main.go:141-144 | the pivot placed by the partition, with both sides sorted by the recursive calls, gives an ascending permutation of the range equal to the input when that was already ascending |
| QuickSort.JoinAroundPivot | main.go:141-144 | two ascending ranges separated by the pivot form one ascending range |
| QuickSort.RangePermuted | main.go:134-144 | a whole-array permutation that fixes everything outside `[l, r]` permutes `[l, r]` |
| QuickSort.AllBelowPermuted | main.go:143 | the recursive sort of the left part keeps every element below the pivot |
| QuickSort.AllAtLeastPermuted | main.go:144 | the recursive sort of the right part keeps every element at least the pivot |
| QuickSort.SortedUnique | main.go:126-145 | two ascending sequences with the same multiset are equal, so the sorted result is determined by the samples alone |
| QuickSort.SortedRangeUnique | main.go:126-145 | two arrays that agree outside `[l, r]` and hold the same ascending range are equal |
| Percentile.IndexAsWritten | main.go:163-166 | the index `v` reads on l samples: `l - 1` for a denominator d <= 0, otherwise `l*(d-1)/d - 1` with Go's truncating division, which agrees with Dafny's here since the dividend is never negative; a definition, whose properties the next lemmas state |
| Percentile.IndexInRange | main.go:162-168 | the index read by `v` is inside the slice exactly when there is at least one sample and the denominator is at most 0, or there are at least two samples and the denominator is at least 2; in every other case it is -1; a positive denominator never reads the last sample |
| Percentile.IndexMonotone | main.go:162-168 | a larger positive denominator never reads an earlier index, and the sentinel reads an index at least as late as any positive denominator |
| Percentile.ReportIndicesAscending | main.go:184-192 | down the nine report lines the index read never decreases |
| Percentile.ThousandSampleCuts | main.go:166 | on 1000 samples the 50% line reads index 499, the 99% line 989 and the 100% line 999 |
| Percentile.SelectAsWritten | main.go:162-168 | `v` as written returns the sample at the computed index exactly when that index is in range (at least one sample with the sentinel, at least two samples with d >= 2), and otherwise is the index-out-of-range panic |
| Percentile.SingleSampleCutFails | main.go:166 | with one sample, each of the eight percentile lines 50% to 99% reads index -1 |
| Percentile.NoSampleCutFails | main.go:162-168 | with no sample every line reads out of range |
| Percentile.Index | main.go:166 | the bounded index lies in the slice whenever there is a sample and agrees with the written index whenever that is not negative |
| Percentile.IndexAscending | main.go:184-192 | the bounded index never decreases down the report |
| Percentile.Select | main.go:162-168 | the bounded lookup fails only on no samples, agrees with `v` wherever `v` reads inside the slice, returns the only sample on one sample, returns the last sample for the sentinel, and on sorted samples bounds every sample at or before its index |
| Percentile.SelectsAscending | main.go:184-192 | on sorted non-empty samples the lookups of the nine report lines never decrease down the report |
| Percentile.ReportCuts | main.go:184-192 | one cut point per report line, equal to `v`'s value wherever `v` reads inside the slice; all missing with no sample and all present otherwise; every line is the sample when there is one; the last line is the last sample; on sorted samples they never decrease down the report |
| Dispatch.SharesTotal | main.go:246-252 | the first n workers get `n*q` requests plus one for each of them below the remainder |
| Dispatch.ShareOut | main.go:246-252 | the shares are non-negative, worker k gets `q+1` exactly when `k < remainder` and `q` exactly when not, they add up to `requests`, and no two differ by more than one |
| Dispatch.Split | main.go:246-254 | the loop produces exactly those shares, one per worker, summing to `requests` |
| Dispatch.Collected | main.go:153-155 | the samples of a whole run: what each worker pushes, worker after worker; a definition, whose properties `FailedRequests` states |
| Dispatch.Shortfall | main.go:115-123 | for each worker, the calls it was assigned minus the samples it pushed, that is the failing call and those after it; a definition, whose properties `FailedRequests` states |
| Dispatch.AsNats | main.go:246-252 | the non-negative counts of `Split` as natural numbers, mapped back to the same integers by `AsInts` |
| Dispatch.TermBelowSum | main.go:246-252 | no worker's count exceeds the sum of the counts |
| Dispatch.FailedIsShortfall | main.go:180 | `requests - l` equals the sum over workers of the calls each was assigned but did not complete |
| Dispatch.FailedRequests | main.go:180 | the failed-requests figure is that sum, is never negative, and is zero exactly when every worker pushed a sample for every call it was assigned |
| Worker.Micros | main.go:121-122 | `int(duration / 1000)` truncates toward zero: the result is the number of whole microseconds, with the sign of the duration |
| Worker.Pushed | main.go:115-123 | a worker assigned `count` calls pushes at most `count` samples, one per success and in order, each the microseconds of that call, and stops only at `count` or at a failure |
| Worker.Process | main.go:115-123 | the loop returns exactly the samples `Pushed` describes |
| Worker.PushedGrows | main.go:118-122 | a success after `i` successes appends its microseconds |
| Worker.PushedStops | main.go:117-120 | a failure after `i` successes ends the samples there, whatever the remaining count |
| Worker.PushedAll | main.go:115-123 | a worker pushes `count` samples exactly when its first `count` calls all succeed |
| Worker.Outcomes | main.go:115-117 | successive calls of a case on one connection give one outcome per call, the first being that of the case started where the connection stands |
| Worker.ReliablePushesAll | main.go:115-123 | a case that never fails yields one sample per assigned call |
| Worker.FirstFailurePushesNothing | main.go:117-120 | a case whose first call fails yields no sample |
| Worker.Called | main.go:17 | the `Case` returned by `call(name, args...)`, as the function of the next operation number that a worker holds in `p.fn` (main.go:90, 117); a definition |
| Worker.HealthyWorkerPushesAll | main.go:65-82 | on a protocol that never reports an error, a case with supported arguments yields one sample per assigned call |
| Worker.UnsupportedWorkerPushesNothing | main.go:43-47 | a case with an unsupported argument fails on every call, so its worker pushes nothing |
| Case.FieldId | main.go:29 | `int16(i + 1)` is `i + 1` while that fits in 16 bits and is congruent to it modulo 2^16 always |
| Case.Perform | main.go:25 | one protocol call, here `WriteStructBegin`, performed at an operation number: the operation is performed and reports an error exactly when the protocol fails at that number; a definition |
| Case.FieldBegin | main.go:30-41 | the `WriteFieldBegin` of a supported argument, with the type tag of its Go type (`TypeOf`: `T_I16`, `T_I32`, `T_I64`, `T_STRING`), the field name the case passes and the given field id |
| Case.WriteValue | main.go:33-42 | the value write of a supported argument, `WriteI16`, `WriteI32`, `WriteI64` or `WriteString` with the argument's value; a definition |
| Case.FieldOps | main.go:28-42 | the field begin and value write of each argument from a position on, up to the first unsupported one; its shape is stated by `FieldOpsShape` |
| Case.Request | main.go:24-61 | the operations of the outbound body when nothing fails: the struct begin, the fields, then `BodyEnd` (field stop, struct end, message end and flush) unless an argument is unsupported; the plan `WriteMessageBody` is proved against |
| Case.Plan | main.go:65-80 | the operations of the whole case when nothing fails: the message begin, `Request`, then `Reply` (reply message begin, skip of a struct, reply message end) when every argument is supported; its shape is stated by `PlanShape` and `PlanUnsupported` |
| Case.PerformAll | main.go:50-61 | a chain of checked operations runs as `Ran` says and never reports an unsupported argument |
| Case.FieldFailed | main.go:34-48 | a failing value write returns its error after exactly the field begin and the value write of that argument |
| Case.FieldWritten | main.go:28-49 | a supported argument whose value write succeeds is followed by the loop over the remaining arguments, whatever its field begin returned |
| Case.WriteFields | main.go:28-49 | the argument loop performs a prefix of the field operations and stops at the first failing value write; it succeeds only if every argument is supported, and otherwise reports the first unsupported position with all earlier arguments supported |
| Case.WriteMessageBody | main.go:24-63 | the struct begin, the fields, then the field stop, struct end, message end and flush, stopping at the first checked failure, with the same success and unsupported-position facts |
| Case.Send | main.go:66-71 | the message begin followed by the body, stopping at the first checked failure |
| Case.Call | main.go:65-82 | the whole case performs a prefix of its plan, returns the error of the first failing checked operation and performs nothing after it; a success or unsupported-argument error performs the whole plan with no checked failure; success implies every argument is supported |
| Case.CallSucceeds | main.go:28-82 | a case succeeds exactly when every argument is supported and no checked operation of its plan fails; a failing field begin alone does not make it fail |
| Case.FieldOpsSuffix | main.go:28-49 | past the fields of the first k supported arguments come the fields of the remaining arguments, numbered from k |
| Case.FieldOpsShape | main.go:28-42 | argument k is written as a field begin with its type tag (`T_I16`, `T_I32`, `T_I64`, `T_STRING`), its field name and field id `int16(k + 1)`, then its value write, two operations per argument up to the first unsupported one |
| Case.PlanSplit | main.go:23-83 | the plan is the message and struct begins, the field operations, then the end of the message and the reply when all arguments are supported |
| Case.PlanParts | main.go:23-83 | the same plan, located by position |
| Case.PlanFields | main.go:28-49 | in the plan, argument k's field begin is at position `2 + 2k` and its value write at `3 + 2k`, and the end of the message and the reply follow the last field |
| Case.PlanShape | main.go:65-82 | with supported arguments the plan has `2n + 9` operations in the fixed order message begin, struct begin, the fields, field stop, struct end, message end, flush, reply begin, skip of a struct, reply end |
| Case.PlanUnsupported | main.go:43-47 | with the first unsupported argument at position n the plan ends after the `2n + 2` operations written before it |
| Case.FieldBeginErrorIgnored | main.go:34-36 | an error reported by the field begin of `call("ping", int32(7))` is overwritten and the case succeeds with its whole plan |
| Case.ValueErrorReturned | main.go:36-47 | an error reported by the value write of `call("ping", int32(7))` is returned after four operations, before the field stop |
| Case.UnsupportedAfterWrites | main.go:25-47 | `call("ping", int32(7), x)` with x unsupported writes four operations and then returns the unsupported-type error for position 1 |
| Report.ReportLabels | main.go:184-192 | the percent on each line is `100 * (d - 1) / d` rounded down for its denominator, and the last line is 100 |
| Report.Collect | main.go:147-192 | the samples are sorted into an ascending permutation, `l` of them complete and `requests - l` failed, the cut points are read from the sorted samples, all missing on no samples, and otherwise ascending down the report and ending at the longest request |
| Benchmark.Measure | main.go:220-260 | a whole run: the workers are assigned the shares of `Split`, the report sorts exactly the samples they pushed, complete plus failed is `requests`, and the failed figure is the sum of the workers' shortfalls, never negative, and zero exactly when every worker completed all its calls |

## Left out

- Goroutines, the wait group, and the `ch` and `pipe` channels (main.go:20, 91, 242-259) are concurrency plumbing. The samples of a run are modelled as the workers' pushes, worker after worker, and `QuickSort.SortedUnique` shows that their order does not change the sorted samples or the report.
- The clock (main.go:116, 121, 150, 157) is real time. Each successful call comes with its elapsed nanoseconds as an input.
- The run duration, the requests per second and the conversion to milliseconds (main.go:164, 166, 171-172) are floating point. Cut points are kept in microseconds.
- The worker's log line `fmt.Println(gid, err)` before it returns (main.go:118) is output only, and is not modelled.
- Report.Collect: it reads the cut points with the corrected `Percentile.Select`, so on zero or one sample it returns a report where `collect` panics at main.go:184 (see Findings); `Percentile.SelectAsWritten` models the panic.
- The text layout of the report (main.go:175-192) is formatting and is not modelled.
- The Thrift protocol and transport are foreign library calls and are not modelled. That covers the factories, `NewMultiplexedProtocol` and its service-name prefix, and `trans.Open` and `Close` with their panic (main.go:102-113). A protocol is only the set of operation numbers that report an error. The values returned by `ReadMessageBegin` are discarded by the code and are not modelled.
- `get_transport_wrapper` (main.go:207-218) maps a flag string to a library factory, and it is not modelled.
- Flag parsing, `GOMAXPROCS` and the panics on a non-positive concurrency or request count (main.go:195-205, 221-230) are not modelled. These panics are the precondition `concurrency > 0 && requests > 0` of `Dispatch.Split`.
- Benchmark.Measure: the behaviour of each worker's connection is an input, a list of call outcomes at least `requests` long for every worker. This is how the model supplies the protocol, not a demand of the code.
- Dispatch.Split: the counts are returned as a sequence, whereas the code starts one worker per count. The code runs `main` only with `call("ping")`; the model covers a case with any arguments.
- Percentile.IndexAsWritten: the 64-bit product `l * (d - 1)` is unbounded here. It would wrap only beyond about 9.3 * 10^16 samples, which the program cannot hold.
- QuickSort.Sort: its precondition asks that a non-trivial range lies inside the array. The code would panic otherwise, and `collect` always calls it on `[0, l-1]`.

## Findings

| source | as written | input that shows it | evidently intended | confidence | as-written member | corrected member |
|---|---|---|---|---|---|---|
| main.go:166 | `v(d)` reads `s[l*(d-1)/d - 1]` with no lower bound | one sample (l = 1) and d = 2: `1*1/2 - 1 = -1`, an index-out-of-range panic on the 50% line; the same for every line with no sample | with one sample every line reports that sample; with none no cut point is read | not executed | Percentile.SelectAsWritten (with Percentile.SingleSampleCutFails and Percentile.NoSampleCutFails) | Percentile.Select (with Percentile.ReportCuts, used by Report.Collect) |
