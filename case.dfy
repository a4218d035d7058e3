/**
 * The request `Case` built by `call(name, args...)` in main.go: one
 * write-then-read round trip on a Thrift protocol. The protocol itself is
 * not modelled. Its operations are numbered 0, 1, 2, ... in the order they
 * are performed on a connection, and a `Protocol` is the set of numbers at
 * which an operation reports an error; a `Run` is the operations a case
 * performed and the error it returned.
 */
module Case {
  import opened Wrappers

  type Int16 = x: int | -0x8000 <= x < 0x8000
  type Int32 = x: int | -0x8000_0000 <= x < 0x8000_0000
  type Int64 = x: int | -0x8000_0000_0000_0000 <= x < 0x8000_0000_0000_0000

  /** An argument of `call`, by its dynamic Go type; `ArgOther` is any other type. */
  datatype Arg =
    | ArgI16(i16: Int16)
    | ArgI32(i32: Int32)
    | ArgI64(i64: Int64)
    | ArgString(str: string)
    | ArgOther

  /** The Thrift field types the case writes or skips. */
  datatype TType = TI16 | TI32 | TI64 | TString | TStruct

  /** The Thrift message type of a request. */
  datatype MessageType = TCall

  /** The protocol operations the case performs. */
  datatype Op =
    | WriteMessageBegin(name: string, mtype: MessageType, seqId: int)
    | WriteStructBegin(structName: string)
    | WriteFieldBegin(fieldName: string, ftype: TType, id: Int16)
    | WriteI16(i16: Int16)
    | WriteI32(i32: Int32)
    | WriteI64(i64: Int64)
    | WriteString(str: string)
    | WriteFieldStop
    | WriteStructEnd
    | WriteMessageEnd
    | Flush
    | ReadMessageBegin
    | Skip(skipType: TType)
    | ReadMessageEnd

  /** The error a case returns: the error of a protocol operation, or the
      "unsupport type" error raised at the argument with that 0-based position. */
  datatype Error = Failed(op: Op) | UnsupportedType(position: nat)

  /** The protocol as a case sees it: the numbers of the operations, counted
      from the first one performed on the connection, at which it reports an error. */
  datatype Protocol = Protocol(failing: set<nat>)

  /** What performing (part of) a case did: the operations performed, in
      order, and the error returned. */
  datatype Run = Run(ops: seq<Op>, err: Option<Error>)

  /** Performs operation number `at`; its error is the protocol's. */
  function Perform(p: Protocol, at: nat, op: Op): Run
  {
    Run([op], if at in p.failing then Some(Failed(op)) else None)
  }

  /** `int16(i + 1)`, the field id of the argument at position i; Go's
      conversion wraps modulo 2^16. */
  function FieldId(i: nat): (id: Int16)
    ensures i + 1 < 0x8000 ==> id == i + 1
    ensures (i + 1 - id) % 0x1_0000 == 0
  {
    var x := (i + 1) % 0x1_0000;
    if x < 0x8000 then x else x - 0x1_0000
  }

  predicate Supported(a: Arg)
  {
    !a.ArgOther?
  }

  predicate AllSupported(args: seq<Arg>)
  {
    forall k :: 0 <= k < |args| ==> Supported(args[k])
  }

  /** The Thrift type tag of a supported argument. */
  function TypeOf(a: Arg): TType
    requires Supported(a)
  {
    match a
    case ArgI16(_) => TI16
    case ArgI32(_) => TI32
    case ArgI64(_) => TI64
    case ArgString(_) => TString
  }

  /** The `WriteFieldBegin` of a supported argument, with the field name the case passes. */
  function FieldBegin(a: Arg, id: Int16): (op: Op)
    requires Supported(a)
    ensures op.WriteFieldBegin? && op.ftype == TypeOf(a) && op.id == id
  {
    match a
    case ArgI16(_) => WriteFieldBegin("i16", TI16, id)
    case ArgI32(_) => WriteFieldBegin("i32", TI32, id)
    case ArgI64(_) => WriteFieldBegin("i64", TI64, id)
    case ArgString(_) => WriteFieldBegin("string", TString, id)
  }

  /** The value write of a supported argument. */
  function WriteValue(a: Arg): Op
    requires Supported(a)
  {
    match a
    case ArgI16(v) => WriteI16(v)
    case ArgI32(v) => WriteI32(v)
    case ArgI64(v) => WriteI64(v)
    case ArgString(v) => WriteString(v)
  }

  /** The operations for `args`, the first of which sits at position i,
      up to the first unsupported argument. */
  function FieldOps(args: seq<Arg>, i: nat): seq<Op>
  {
    if args == [] || !Supported(args[0]) then []
    else [FieldBegin(args[0], FieldId(i)), WriteValue(args[0])] + FieldOps(args[1..], i + 1)
  }

  /** The operations after the last argument, ending the outbound message. */
  const BodyEnd: seq<Op> := [WriteFieldStop, WriteStructEnd, WriteMessageEnd, Flush]

  /** The operations reading and discarding the reply. */
  const Reply: seq<Op> := [ReadMessageBegin, Skip(TStruct), ReadMessageEnd]

  /**
   * The operations a case performs when nothing fails: the message and
   * struct begins, each argument's field, then the end of the outbound
   * message and the reading of the reply. An unsupported argument ends the
   * plan at its position.
   */
  function Plan(name: string, args: seq<Arg>): seq<Op>
  {
    [WriteMessageBegin(name, TCall, 0)] + Request(args) + (if AllSupported(args) then Reply else [])
  }

  /** The error of every operation is checked except that of `WriteFieldBegin`,
      which the following value write overwrites. */
  predicate Checked(op: Op)
  {
    !op.WriteFieldBegin?
  }

  /** No checked operation of `ops`, performed from operation number `at` on, fails. */
  ghost predicate Clean(failing: set<nat>, at: nat, ops: seq<Op>)
  {
    forall k :: 0 <= k < |ops| && Checked(ops[k]) ==> at + k !in failing
  }

  /**
   * `r` is what performing the operations of `plan` in order from operation
   * number `at` leads to when each checked failure aborts the rest: it
   * performed a prefix of `plan`; a success (or an unsupported argument,
   * which ends the plan) performed all of `plan` with no checked failure; a
   * protocol error names the last operation performed, which failed, and no
   * checked operation before it failed.
   */
  ghost predicate Ran(p: Protocol, at: nat, plan: seq<Op>, r: Run)
  {
    && r.ops <= plan
    && (r.err.None? || r.err.value.UnsupportedType? ==> r.ops == plan && Clean(p.failing, at, plan))
    && (r.err.Some? && r.err.value.Failed? ==>
          && |r.ops| > 0 && r.ops[|r.ops| - 1] == r.err.value.op && Checked(r.err.value.op)
          && at + |r.ops| - 1 in p.failing
          && Clean(p.failing, at, r.ops[..|r.ops| - 1]))
  }

  lemma CleanAppend(failing: set<nat>, at: nat, xs: seq<Op>, ys: seq<Op>)
    ensures Clean(failing, at, xs + ys) <==> Clean(failing, at, xs) && Clean(failing, at + |xs|, ys)
  {
    if Clean(failing, at, xs) && Clean(failing, at + |xs|, ys) {
      forall k | 0 <= k < |xs + ys| && Checked((xs + ys)[k]) ensures at + k !in failing {
        if k >= |xs| {
          assert (xs + ys)[k] == ys[k - |xs|];
        }
      }
    }
    if Clean(failing, at, xs + ys) {
      forall k | 0 <= k < |xs| && Checked(xs[k]) ensures at + k !in failing {
        assert (xs + ys)[k] == xs[k];
      }
      forall k | 0 <= k < |ys| && Checked(ys[k]) ensures at + |xs| + k !in failing {
        assert (xs + ys)[|xs| + k] == ys[k];
      }
    }
  }

  /** Performing `p1` without error and then `p2` is performing `p1 + p2`. */
  lemma RanThen(p: Protocol, at: nat, p1: seq<Op>, r1: Run, p2: seq<Op>, r2: Run)
    requires Ran(p, at, p1, r1) && r1.err.None? && Ran(p, at + |r1.ops|, p2, r2)
    ensures Ran(p, at, p1 + p2, Run(r1.ops + r2.ops, r2.err))
  {
    CleanAppend(p.failing, at, p1, p2);
    if r2.err.Some? && r2.err.value.Failed? {
      var t := r1.ops + r2.ops;
      assert t[..|t| - 1] == r1.ops + r2.ops[..|r2.ops| - 1];
      CleanAppend(p.failing, at, p1, r2.ops[..|r2.ops| - 1]);
    }
  }

  /** A protocol error while performing `p1` stops before anything of `p2`. */
  lemma RanStopped(p: Protocol, at: nat, p1: seq<Op>, r1: Run, p2: seq<Op>)
    requires Ran(p, at, p1, r1) && r1.err.Some? && r1.err.value.Failed?
    ensures Ran(p, at, p1 + p2, r1)
  {
  }

  /** A protocol error rules out a plan whose checked operations all succeed. */
  lemma RanCleanNotFailed(p: Protocol, at: nat, plan: seq<Op>, r: Run)
    requires Ran(p, at, plan, r) && Clean(p.failing, at, plan)
    ensures r.err.None? || r.err.value.UnsupportedType?
  {
  }

  /** A chain of `if err = op; err != nil { return }` steps over checked operations. */
  function PerformAll(p: Protocol, at: nat, ops: seq<Op>): (r: Run)
    requires forall k :: 0 <= k < |ops| ==> Checked(ops[k])
    ensures Ran(p, at, ops, r)
    ensures r.err.None? || r.err.value.Failed?
    decreases |ops|
  {
    if ops == [] then Run([], None)
    else
      var first := Perform(p, at, ops[0]);
      if first.err.Some? then first
      else
        var rest := PerformAll(p, at + 1, ops[1..]);
        RanThen(p, at, [ops[0]], first, ops[1..], rest);
        assert [ops[0]] + ops[1..] == ops;
        Run(first.ops + rest.ops, rest.err)
  }

  /**
   * The argument loop of `writeMessageBody` (main.go:28-49), from the
   * argument at position i on, starting at operation number `at`: for a
   * supported argument, the field begin (whose error is overwritten) and the
   * value write (whose error is returned); an unsupported argument returns
   * the "unsupport type" error without writing anything for it.
   */
  function WriteFields(args: seq<Arg>, i: nat, p: Protocol, at: nat): (r: Run)
    ensures FieldsSpec(args, i, p, at, r)
    decreases |args|
  {
    if args == [] then Run([], None)
    else if !Supported(args[0]) then Run([], Some(UnsupportedType(i)))
    else
      // the error of the field begin is overwritten by that of the value write
      var pair := [FieldBegin(args[0], FieldId(i)), WriteValue(args[0])];
      if at + 1 in p.failing then
        FieldFailed(args, i, p, at);
        Run(pair, Some(Failed(WriteValue(args[0]))))
      else
        var rest := WriteFields(args[1..], i + 1, p, at + 2);
        FieldWritten(args, i, p, at, rest);
        Run(pair + rest.ops, rest.err)
  }

  /** What the argument loop promises from position i on: it performs the
      fields' operations as `Ran` says, succeeds only if every argument is
      supported, and reports the first unsupported argument by position. */
  ghost predicate FieldsSpec(args: seq<Arg>, i: nat, p: Protocol, at: nat, r: Run)
  {
    && Ran(p, at, FieldOps(args, i), r)
    && (r.err.None? ==> AllSupported(args))
    && (r.err.Some? && r.err.value.UnsupportedType? ==>
          && i <= r.err.value.position < i + |args|
          && !Supported(args[r.err.value.position - i])
          && AllSupported(args[..r.err.value.position - i]))
  }

  /** The value write of the first argument fails: the loop returns its error. */
  lemma FieldFailed(args: seq<Arg>, i: nat, p: Protocol, at: nat)
    requires args != [] && Supported(args[0]) && at + 1 in p.failing
    ensures FieldsSpec(args, i, p, at, Run([FieldBegin(args[0], FieldId(i)), WriteValue(args[0])], Some(Failed(WriteValue(args[0])))))
  {
    var pair := [FieldBegin(args[0], FieldId(i)), WriteValue(args[0])];
    var r := Run(pair, Some(Failed(WriteValue(args[0]))));
    assert Ran(p, at, pair, r) by {
      assert pair[..1] == [pair[0]];
    }
    RanStopped(p, at, pair, r, FieldOps(args[1..], i + 1));
  }

  /** The first argument is written without a checked error: the loop goes on with the rest. */
  lemma FieldWritten(args: seq<Arg>, i: nat, p: Protocol, at: nat, rest: Run)
    requires args != [] && Supported(args[0]) && at + 1 !in p.failing
    requires FieldsSpec(args[1..], i + 1, p, at + 2, rest)
    ensures FieldsSpec(args, i, p, at, Run([FieldBegin(args[0], FieldId(i)), WriteValue(args[0])] + rest.ops, rest.err))
  {
    var pair := [FieldBegin(args[0], FieldId(i)), WriteValue(args[0])];
    assert Ran(p, at, pair, Run(pair, None));
    RanThen(p, at, pair, Run(pair, None), FieldOps(args[1..], i + 1), rest);
    if rest.err.None? {
      assert forall k :: 1 <= k < |args| ==> args[k] == args[1..][k - 1];
    }
    if rest.err.Some? && rest.err.value.UnsupportedType? {
      var n := rest.err.value.position - i;
      assert args[..n] == [args[0]] + args[1..][..n - 1];
    }
  }

  /** The operations of the outbound message body, up to an unsupported argument. */
  function Request(args: seq<Arg>): seq<Op>
  {
    [WriteStructBegin("whatever")] + FieldOps(args, 0) + (if AllSupported(args) then BodyEnd else [])
  }

  /** `writeMessageBody` (main.go:24-63): the struct begin, the arguments,
      then the field stop, struct end, message end and flush. */
  function WriteMessageBody(args: seq<Arg>, p: Protocol, at: nat): (r: Run)
    ensures Ran(p, at, Request(args), r)
    ensures r.err.None? ==> AllSupported(args)
    ensures r.err.Some? && r.err.value.UnsupportedType? ==>
              && r.err.value.position < |args|
              && !Supported(args[r.err.value.position])
              && AllSupported(args[..r.err.value.position])
  {
    var head := [WriteStructBegin("whatever")];
    var end := if AllSupported(args) then BodyEnd else [];
    var begin := PerformAll(p, at, head);
    if begin.err.Some? then
      RanStopped(p, at, head, begin, FieldOps(args, 0) + end);
      assert head + FieldOps(args, 0) + end == head + (FieldOps(args, 0) + end);
      begin
    else
      var fields := WriteFields(args, 0, p, at + 1);
      RanThen(p, at, head, begin, FieldOps(args, 0), fields);
      var sent := Run(begin.ops + fields.ops, fields.err);
      if fields.err.Some? then
        if fields.err.value.Failed? then
          RanStopped(p, at, head + FieldOps(args, 0), sent, end);
          sent
        else
          assert head + FieldOps(args, 0) + end == head + FieldOps(args, 0);
          sent
      else
        var finish := PerformAll(p, at + |sent.ops|, BodyEnd);
        RanThen(p, at, head + FieldOps(args, 0), sent, BodyEnd, finish);
        Run(sent.ops + finish.ops, finish.err)
  }

  /** The outbound half of the case: the message begin, then the body (main.go:66-71). */
  function Send(name: string, args: seq<Arg>, p: Protocol, at: nat): (r: Run)
    ensures Ran(p, at, [WriteMessageBegin(name, TCall, 0)] + Request(args), r)
    ensures r.err.None? ==> AllSupported(args)
    ensures r.err.Some? && r.err.value.UnsupportedType? ==>
              && r.err.value.position < |args|
              && !Supported(args[r.err.value.position])
              && AllSupported(args[..r.err.value.position])
  {
    var head := [WriteMessageBegin(name, TCall, 0)];
    var begin := PerformAll(p, at, head);
    if begin.err.Some? then
      RanStopped(p, at, head, begin, Request(args));
      begin
    else
      var body := WriteMessageBody(args, p, at + 1);
      RanThen(p, at, head, begin, Request(args), body);
      Run(begin.ops + body.ops, body.err)
  }

  /**
   * The `Case` returned by `call(name, args...)` (main.go:65-82), performed
   * on a connection whose next operation has number `at`: the message
   * begin, the body, then the reply's message begin, struct skip and message
   * end, each returning at its first error.
   */
  function Call(name: string, args: seq<Arg>, p: Protocol, at: nat): (r: Run)
    ensures Ran(p, at, Plan(name, args), r)
    ensures r.err.None? ==> AllSupported(args)
    ensures r.err.Some? && r.err.value.UnsupportedType? ==>
              && r.err.value.position < |args|
              && !Supported(args[r.err.value.position])
              && AllSupported(args[..r.err.value.position])
  {
    var sent := [WriteMessageBegin(name, TCall, 0)] + Request(args);
    var send := Send(name, args, p, at);
    if send.err.Some? then
      if send.err.value.Failed? then
        RanStopped(p, at, sent, send, if AllSupported(args) then Reply else []);
        send
      else
        assert sent + [] == sent;
        send
    else
      var reply := PerformAll(p, at + |send.ops|, Reply);
      RanThen(p, at, sent, send, Reply, reply);
      Run(send.ops + reply.ops, reply.err)
  }

  /** A case succeeds exactly when every argument is supported and no checked
      operation of its plan fails; a failing `WriteFieldBegin` alone does not
      make it fail. */
  lemma CallSucceeds(name: string, args: seq<Arg>, p: Protocol, at: nat)
    ensures Call(name, args, p, at).err.None? <==> AllSupported(args) && Clean(p.failing, at, Plan(name, args))
  {
    if AllSupported(args) && Clean(p.failing, at, Plan(name, args)) {
      RanCleanNotFailed(p, at, Plan(name, args), Call(name, args, p, at));
    }
  }

  /** Past the fields of k supported arguments come the fields of the rest. */
  lemma {:induction false} FieldOpsSuffix(args: seq<Arg>, i: nat, k: nat)
    requires k <= |args| && (forall j :: 0 <= j < k ==> Supported(args[j]))
    ensures 2 * k <= |FieldOps(args, i)| && FieldOps(args, i)[2 * k..] == FieldOps(args[k..], i + k)
  {
    if k > 0 {
      var ops, rest := FieldOps(args, i), FieldOps(args[1..], i + 1);
      FieldOpsSuffix(args[1..], i + 1, k - 1);
      assert args[1..][k - 1..] == args[k..];
      assert ops == [FieldBegin(args[0], FieldId(i)), WriteValue(args[0])] + rest;
      assert ops[2 * k..] == rest[2 * (k - 1)..];
    }
  }

  /**
   * The field operations of arguments whose first n are supported and end
   * there: two operations per argument, the field begin of argument k with
   * its type and field id `int16(i + k + 1)`, then its value write.
   */
  lemma FieldOpsShape(args: seq<Arg>, i: nat, n: nat)
    requires n <= |args| && (forall k :: 0 <= k < n ==> Supported(args[k]))
    requires n == |args| || !Supported(args[n])
    ensures |FieldOps(args, i)| == 2 * n
    ensures forall k :: 0 <= k < n ==>
              && FieldOps(args, i)[2 * k] == FieldBegin(args[k], FieldId(i + k))
              && FieldOps(args, i)[2 * k + 1] == WriteValue(args[k])
  {
    var ops := FieldOps(args, i);
    FieldOpsSuffix(args, i, n);
    assert n == |args| || args[n..][0] == args[n];
    forall k | 0 <= k < n
      ensures ops[2 * k] == FieldBegin(args[k], FieldId(i + k))
      ensures ops[2 * k + 1] == WriteValue(args[k])
    {
      FieldOpsSuffix(args, i, k);
      assert args[k..][0] == args[k];
      assert ops[2 * k] == ops[2 * k..][0] && ops[2 * k + 1] == ops[2 * k..][1];
    }
  }

  /** The three parts of a concatenation, found again by position. */
  lemma Parts(a: seq<Op>, b: seq<Op>, c: seq<Op>)
    ensures |a + b + c| == |a| + |b| + |c|
    ensures (a + b + c)[..|a|] == a && (a + b + c)[|a| + |b|..] == c
    ensures forall k :: |a| <= k < |a| + |b| ==> (a + b + c)[k] == b[k - |a|]
  {
    assert (a + b + c)[..|a|] == a;
    assert (a + b + c)[|a| + |b|..] == c;
  }

  /** The message and struct begins that open every plan. */
  function PlanHead(name: string): seq<Op>
  {
    [WriteMessageBegin(name, TCall, 0), WriteStructBegin("whatever")]
  }

  /** A plan is its head, the field operations, then the end of the message and the reply if all arguments are supported. */
  lemma PlanSplit(name: string, args: seq<Arg>)
    ensures Plan(name, args) == PlanHead(name) + FieldOps(args, 0) + (if AllSupported(args) then BodyEnd + Reply else [])
  {
    var m, b, f := [WriteMessageBegin(name, TCall, 0)], [WriteStructBegin("whatever")], FieldOps(args, 0);
    assert PlanHead(name) == m + b;
    if AllSupported(args) {
      assert Plan(name, args) == m + (b + f + BodyEnd) + Reply;
      assert m + (b + f + BodyEnd) + Reply == (m + b) + f + (BodyEnd + Reply);
    } else {
      assert Plan(name, args) == m + (b + f + []) + [];
      assert m + (b + f + []) + [] == (m + b) + f + [];
    }
  }

  /** The plan is its head, the field operations and the tail, in that order. */
  lemma PlanParts(name: string, args: seq<Arg>, n: nat)
    requires n <= |args| && (forall k :: 0 <= k < n ==> Supported(args[k]))
    requires n == |args| || !Supported(args[n])
    ensures var plan := Plan(name, args);
      && |FieldOps(args, 0)| == 2 * n && 2 + 2 * n <= |plan|
      && plan[..2] == PlanHead(name)
      && (forall j :: 2 <= j < 2 + 2 * n ==> plan[j] == FieldOps(args, 0)[j - 2])
      && plan[2 + 2 * n..] == if AllSupported(args) then BodyEnd + Reply else []
  {
    PlanSplit(name, args);
    FieldOpsShape(args, 0, n);
    Parts(PlanHead(name), FieldOps(args, 0), if AllSupported(args) then BodyEnd + Reply else []);
  }

  /** The field operations of the first n arguments, all supported, sit
      after the head of the plan, two per argument. */
  lemma PlanFields(name: string, args: seq<Arg>, n: nat)
    requires n <= |args| && (forall k :: 0 <= k < n ==> Supported(args[k]))
    requires n == |args| || !Supported(args[n])
    ensures var plan := Plan(name, args);
      && 2 + 2 * n <= |plan|
      && plan[..2] == PlanHead(name)
      && (forall k :: 0 <= k < n ==>
            plan[2 + 2 * k] == FieldBegin(args[k], FieldId(k)) && plan[3 + 2 * k] == WriteValue(args[k]))
      && plan[2 + 2 * n..] == if AllSupported(args) then BodyEnd + Reply else []
  {
    var plan, fields := Plan(name, args), FieldOps(args, 0);
    PlanParts(name, args, n);
    FieldOpsShape(args, 0, n);
    forall k | 0 <= k < n
      ensures plan[2 + 2 * k] == FieldBegin(args[k], FieldId(k)) && plan[3 + 2 * k] == WriteValue(args[k])
    {
      assert plan[2 + 2 * k] == fields[2 * k] && plan[3 + 2 * k] == fields[2 * k + 1];
    }
  }

  /**
   * The plan of a case whose arguments are all supported: the message
   * begin, the struct begin, two operations per argument, then the field
   * stop, struct end, message end, flush and the three reply operations.
   */
  lemma PlanShape(name: string, args: seq<Arg>)
    requires AllSupported(args)
    ensures var plan := Plan(name, args);
      && |plan| == 2 * |args| + 9
      && plan[..2] == [WriteMessageBegin(name, TCall, 0), WriteStructBegin("whatever")]
      && (forall k :: 0 <= k < |args| ==>
            plan[2 + 2 * k] == FieldBegin(args[k], FieldId(k)) && plan[3 + 2 * k] == WriteValue(args[k]))
      && plan[2 + 2 * |args|..] == BodyEnd + Reply
  {
    PlanFields(name, args, |args|);
  }

  /**
   * The plan of a case whose first unsupported argument is at position n:
   * the message and struct begins and the fields of the n arguments before
   * it, and nothing after.
   */
  lemma PlanUnsupported(name: string, args: seq<Arg>, n: nat)
    requires n < |args| && AllSupported(args[..n]) && !Supported(args[n])
    ensures var plan := Plan(name, args);
      && |plan| == 2 * n + 2
      && plan[..2] == [WriteMessageBegin(name, TCall, 0), WriteStructBegin("whatever")]
      && (forall k :: 0 <= k < n ==>
            plan[2 + 2 * k] == FieldBegin(args[k], FieldId(k)) && plan[3 + 2 * k] == WriteValue(args[k]))
  {
    assert forall k :: 0 <= k < n ==> args[..n][k] == args[k];
    PlanFields(name, args, n);
  }

  /** A protocol error on the field begin of `call("ping", int32(7))` is
      overwritten by the value write, and the case succeeds. */
  lemma FieldBeginErrorIgnored()
    ensures Call("ping", [ArgI32(7)], Protocol({2}), 0) == Run(Plan("ping", [ArgI32(7)]), None)
  {
    var plan := Plan("ping", [ArgI32(7)]);
    PlanShape("ping", [ArgI32(7)]);
    assert plan[2].WriteFieldBegin?;
    CallSucceeds("ping", [ArgI32(7)], Protocol({2}), 0);
  }

  /** A protocol error on the value write of `call("ping", int32(7))` ends the
      case there, with that error and before the field stop. */
  lemma ValueErrorReturned()
    ensures Call("ping", [ArgI32(7)], Protocol({3}), 0)
              == Run(Plan("ping", [ArgI32(7)])[..4], Some(Failed(WriteI32(7))))
  {
    var plan := Plan("ping", [ArgI32(7)]);
    PlanShape("ping", [ArgI32(7)]);
    assert plan[3] == WriteI32(7);
    assert !Clean({3}, 0, plan);
    CallSucceeds("ping", [ArgI32(7)], Protocol({3}), 0);
  }

  /** `call("ping", int32(7), x)` with x of an unsupported type writes the
      message begin, the struct begin and the first field before it returns
      the "unsupport type" error for position 1. */
  lemma UnsupportedAfterWrites()
    ensures Call("ping", [ArgI32(7), ArgOther], Protocol({}), 0)
              == Run(Plan("ping", [ArgI32(7), ArgOther]), Some(UnsupportedType(1)))
    ensures |Plan("ping", [ArgI32(7), ArgOther])| == 4
  {
    var args := [ArgI32(7), ArgOther];
    assert !Supported(args[1]);
    assert args[..1] == [ArgI32(7)];
    assert AllSupported(args[..1]);
    PlanUnsupported("ping", args, 1);
  }
}
