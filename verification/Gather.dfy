/**
 Commands that touch many keys are split into one request per key, sent separately, and
 answered together. The parts finish in any order and their steps interleave in any way.
 */
module Gather {
  import opened Basics
  import opened Bytes
  import opened RespText
  import opened Resp

  datatype Kind = MSet | MGet | Sum

  function Ascii(s: string): (b: seq<byte>)
    requires forall i :: 0 <= i < |s| ==> s[i] < 128 as char
    ensures |b| == |s|
  {
    seq(|s|, i requires 0 <= i < |s| => s[i] as int as byte)
  }

  // ---------- splitting ----------

  /** Which argument lists the constructors accept; the others are invalid requests. */
  predicate Splittable(kind: Kind, args: seq<Value>) {
    match kind
    case MSet => |args| != 1 && |args| % 2 == 1
    case _ => |args| >= 2
  }

  /** MSET takes one pair or more behind its name, the others one key or more. */
  lemma SplittableExactly(kind: Kind, args: seq<Value>)
    ensures Splittable(kind, args) <==> |args| >= (if kind == MSet then 3 else 2) && (kind == MSet ==> |args| % 2 == 1)
    ensures Splittable(kind, args) && kind == MSet ==> |args| == 2 * PartCount(kind, args) + 1
    ensures Splittable(kind, args) && kind != MSet ==> |args| == PartCount(kind, args) + 1
  {
  }

  /** The part for number i: the key, with its value for MSET, under the command for one key. */
  function Part(kind: Kind, args: seq<Value>, i: nat): Value
    requires Splittable(kind, args) && i < PartCount(kind, args)
  {
    match kind
    case MSet => Array([BulkString(Ascii("set")), args[2 * i + 1], args[2 * (i + 1)]])
    case MGet => Array([BulkString(Ascii("get")), args[i + 1]])
    case Sum => Array([args[0], args[i + 1]])
  }

  function PartCount(kind: Kind, args: seq<Value>): nat
    requires Splittable(kind, args)
  {
    if kind == MSet then |args| / 2 else |args| - 1
  }

  /** The arguments of the parts, one after the other. */
  function Arguments(parts: seq<Value>): seq<Value> {
    if parts == [] then []
    else
      var last := parts[|parts| - 1];
      Arguments(parts[..|parts| - 1]) + if last.Array? && last.items != [] then last.items[1..] else []
  }

  lemma NoArguments()
    ensures Arguments([]) == []
  {
  }

  lemma MoreArguments(parts: seq<Value>, part: Value)
    requires part.Array? && part.items != []
    ensures Arguments(parts + [part]) == Arguments(parts) + part.items[1..]
  {
    assert (parts + [part])[..|parts|] == parts;
  }

  lemma CommandTexts()
    ensures Ascii("set") == [115, 101, 116] && Ascii("get") == [103, 101, 116]
  {
  }

  method SplitMSet(args: seq<Value>) returns (parts: seq<Value>)
    requires Splittable(MSet, args)
    ensures |parts| == PartCount(MSet, args) > 0 && 2 * |parts| + 1 == |args|
    ensures forall i :: 0 <= i < |parts| ==> parts[i] == Part(MSet, args, i)
    ensures forall i :: 0 <= i < |parts| ==>
      parts[i] == Array([BulkString([115, 101, 116]), args[2 * i + 1], args[2 * i + 2]])
    ensures Arguments(parts) == args[1..]
  {
    CommandTexts();
    hide Arguments, Ascii;
    parts := [];
    NoArguments();
    var i := 0;
    while i < |args| / 2
      invariant 0 <= i <= |args| / 2 && |parts| == i
      invariant forall j :: 0 <= j < i ==> parts[j] == Part(MSet, args, j)
      invariant Arguments(parts) == args[1..2 * i + 1]
    {
      var part := Array([BulkString(Ascii("set")), args[2 * i + 1], args[2 * (i + 1)]]);
      MoreArguments(parts, part);
      assert args[1..2 * i + 3] == args[1..2 * i + 1] + [args[2 * i + 1], args[2 * i + 2]];
      assert part.items[1..] == [args[2 * i + 1], args[2 * i + 2]];
      parts := parts + [part];
      i := i + 1;
    }
    assert args[1..2 * i + 1] == args[1..];
  }

  method SplitPerKey(kind: Kind, args: seq<Value>) returns (parts: seq<Value>)
    requires kind != MSet && Splittable(kind, args)
    ensures |parts| == PartCount(kind, args) > 0 && |parts| + 1 == |args|
    ensures forall i :: 0 <= i < |parts| ==> parts[i] == Part(kind, args, i)
    ensures forall i :: 0 <= i < |parts| ==>
      parts[i] == Array([if kind == MGet then BulkString([103, 101, 116]) else args[0], args[i + 1]])
    ensures Arguments(parts) == args[1..]
  {
    CommandTexts();
    hide Arguments, Ascii;
    parts := [];
    NoArguments();
    var i := 1;
    while i < |args|
      invariant 1 <= i <= |args| && |parts| == i - 1
      invariant forall j :: 0 <= j < i - 1 ==> parts[j] == Part(kind, args, j)
      invariant Arguments(parts) == args[1..i]
    {
      var part := Array([if kind == MGet then BulkString(Ascii("get")) else args[0], args[i]]);
      MoreArguments(parts, part);
      assert args[1..i + 1] == args[1..i] + [args[i]];
      assert part.items[1..] == [args[i]];
      parts := parts + [part];
      i := i + 1;
    }
    assert args[1..i] == args[1..];
  }

  // ---------- the answer ----------

  /** 64-bit two's complement. */
  function Wrap(x: int): int64 {
    (x + 0x8000_0000_0000_0000) % 0x1_0000_0000_0000_0000 - 0x8000_0000_0000_0000
  }

  function IntSum(vs: seq<Value>): int {
    if vs == [] then 0
    else IntSum(vs[..|vs| - 1]) + if vs[|vs| - 1].Integer? then vs[|vs| - 1].n else 0
  }

  function OtherCount(vs: seq<Value>): nat {
    if vs == [] then 0
    else OtherCount(vs[..|vs| - 1]) + if vs[|vs| - 1].Integer? then 0 else 1
  }

  /** The sum, reduced to 64 bits, or the number of replies that were no integers. */
  function SumReply(vs: seq<Value>): Value {
    if OtherCount(vs) == 0 then Integer(Wrap(IntSum(vs)))
    else Error(Ascii("finished with ") + Decimal(OtherCount(vs)) + Ascii(" error(s)"))
  }

  function Combined(kind: Kind, vs: seq<Value>): Value {
    match kind
    case MSet => SimpleString(Ascii("OK"))
    case MGet => Array(vs)
    case Sum => SumReply(vs)
  }

  /** The sum of the integers in a list: one integer counts as itself, everything else as nothing, and lists add up. */
  lemma {:induction false} IntSumIs(a: seq<Value>, b: seq<Value>, v: Value)
    ensures IntSum([v]) == (if v.Integer? then v.n else 0) && IntSum([]) == 0
    ensures IntSum(a + b) == IntSum(a) + IntSum(b)
  {
    assert [v][..0] == [];
    if b == [] {
      assert a + b == a;
    } else {
      assert (a + b)[..|a + b| - 1] == a + b[..|b| - 1];
      IntSumIs(a, b[..|b| - 1], v);
    }
  }

  /** Which replies are no integers. */
  ghost function Others(vs: seq<Value>): set<int> {
    set i | 0 <= i < |vs| && !vs[i].Integer?
  }

  lemma {:induction false} OtherCountIs(vs: seq<Value>)
    ensures OtherCount(vs) == |Others(vs)|
  {
    if vs == [] {
      assert Others(vs) == {};
    } else {
      var n := |vs| - 1;
      OtherCountIs(vs[..n]);
      if vs[n].Integer? {
        assert Others(vs) == Others(vs[..n]);
      } else {
        assert Others(vs) == Others(vs[..n]) + {n};
      }
    }
  }

  /**
   What the answer to the command must be, given the replies of its parts in key order: OK for MSET, the replies
   one by one for MGET, and otherwise the sum of the replies, up to a multiple of 2^64, if all of them are integers,
   or the error "finished with n error(s)" if n of them are not.
   */
  ghost predicate IsAnswer(kind: Kind, vs: seq<Value>, answer: Value) {
    match kind
    case MSet => answer == SimpleString([79, 75])
    case MGet => answer.Array? && |answer.items| == |vs| && forall i :: 0 <= i < |vs| ==> answer.items[i] == vs[i]
    case Sum =>
      if forall i :: 0 <= i < |vs| ==> vs[i].Integer? then
        && answer.Integer? && (answer.n - IntSum(vs)) % 0x1_0000_0000_0000_0000 == 0
        && (-0x8000_0000_0000_0000 <= IntSum(vs) <= 0x7fff_ffff_ffff_ffff ==> answer.n == IntSum(vs))
      else
        answer == Error([102, 105, 110, 105, 115, 104, 101, 100, 32, 119, 105, 116, 104, 32] + Decimal(|Others(vs)|)
                        + [32, 101, 114, 114, 111, 114, 40, 115, 41])
  }

  lemma ErrorTexts()
    ensures Ascii("finished with ") == [102, 105, 110, 105, 115, 104, 101, 100, 32, 119, 105, 116, 104, 32]
    ensures Ascii(" error(s)") == [32, 101, 114, 114, 111, 114, 40, 115, 41]
    ensures Ascii("OK") == [79, 75]
  {
  }

  lemma WrapMod(x: int)
    ensures (Wrap(x) - x) % 0x1_0000_0000_0000_0000 == 0
  {
    var m := 0x1_0000_0000_0000_0000;
    var y := x + 0x8000_0000_0000_0000;
    assert y == m * (y / m) + y % m;
    assert Wrap(x) - x == m * -(y / m);
  }

  lemma CombinedIsAnswer(kind: Kind, vs: seq<Value>)
    ensures IsAnswer(kind, vs, Combined(kind, vs))
  {
    hide Ascii, Decimal, Wrap;
    ErrorTexts();
    if kind == Sum {
      OtherCountIs(vs);
      WrapMod(IntSum(vs));
      WrapFits(IntSum(vs));
      if OtherCount(vs) == 0 {
        forall i | 0 <= i < |vs| ensures vs[i].Integer? {
          assert i !in Others(vs);
        }
      } else {
        assert Others(vs) != {};
        var i :| i in Others(vs);
      }
    }
  }

  lemma WrapStep(a: int, n: int)
    ensures Wrap(Wrap(a) + n) == Wrap(a + n)
  {
  }

  /** Adding up with 64-bit wrap-around at every step gives the true sum wrapped once. */
  method SumUp(vs: seq<Value>) returns (r: Value)
    ensures r == SumReply(vs)
    ensures r.Integer? <==> forall i :: 0 <= i < |vs| ==> vs[i].Integer?
    ensures r.Integer? && INT64_MIN <= IntSum(vs) <= INT64_MAX ==> r.n == IntSum(vs)
  {
    hide Wrap;
    var total: int64, errCount := 0, 0;
    WrapZero();
    var i := 0;
    while i < |vs|
      invariant 0 <= i <= |vs|
      invariant total == Wrap(IntSum(vs[..i])) && errCount == OtherCount(vs[..i])
      invariant errCount == 0 <==> forall j :: 0 <= j < i ==> vs[j].Integer?
    {
      assert vs[..i + 1][..i] == vs[..i];
      match vs[i] {
      case Integer(n) =>
        WrapStep(IntSum(vs[..i]), n);
        total := Wrap(total + n);
      case _ =>
        errCount := errCount + 1;
      }
      i := i + 1;
    }
    assert vs[..i] == vs;
    WrapFits(IntSum(vs));
    if errCount == 0 {
      r := Integer(total);
    } else {
      r := Error(Ascii("finished with ") + Decimal(errCount) + Ascii(" error(s)"));
    }
  }

  lemma WrapZero()
    ensures Wrap(0) == 0
  {
  }

  lemma WrapFits(x: int)
    ensures INT64_MIN <= x <= INT64_MAX ==> Wrap(x) == x
  {
  }

  // ---------- the parts at work ----------

  /** A finishing hook, which may rewrite the reply. */
  type Hook = Value -> Value

  /**
   A part: its hooks in the order they were registered, the reply it was given and that reply as
   the hooks have left it, and how many hooks are still to run. The first hook registered, which
   reports to the split command, is not in the list: it runs after all the others.
   */
  datatype Child = Child(hooks: seq<Hook>, given: Option<Value>, resp: Option<Value>, left: nat)

  datatype State = State(kind: Kind, children: seq<Child>, wait: int, answers: seq<Value>)

  datatype Step = SetResponse(i: nat, v: Value) | RunHook(i: nat) | ReportDone(i: nat)

  function Start(kind: Kind, hooks: seq<seq<Hook>>): State {
    State(kind, seq(|hooks|, i requires 0 <= i < |hooks| => Child(hooks[i], None, None, 0)), |hooks|, [])
  }

  /** A part is answered once, as the pipeline guarantees; then its hooks run, the last registered first. */
  predicate Enabled(s: State, step: Step) {
    match step
    case SetResponse(i, _) => i < |s.children| && s.children[i].given.None?
    case RunHook(i) =>
      i < |s.children| && s.children[i].resp.Some? && 1 < s.children[i].left <= |s.children[i].hooks| + 1
    case ReportDone(i) => i < |s.children| && s.children[i].left == 1
  }

  function Responses(children: seq<Child>): (vs: seq<Value>)
    ensures |vs| == |children|
  {
    seq(|children|, i requires 0 <= i < |children| =>
          if children[i].resp.Some? then children[i].resp.value else NullBulkString)
  }

  function Next(s: State, step: Step): State
    requires Enabled(s, step)
  {
    var x := s.children[step.i];
    match step
    case SetResponse(i, v) =>
      s.(children := s.children[i := x.(given := Some(v), resp := Some(v), left := |x.hooks| + 1)])
    case RunHook(i) =>
      s.(children := s.children[i := x.(resp := Some(x.hooks[x.left - 2](x.resp.value)), left := x.left - 1)])
    case ReportDone(i) =>
      var s1 := s.(children := s.children[i := x.(left := 0)], wait := s.wait - 1);
      if s1.wait == 0 then s1.(answers := s1.answers + [Combined(s.kind, Responses(s1.children))]) else s1
  }

  ghost predicate CanRun(s: State, steps: seq<Step>)
    decreases |steps|, 0
  {
    steps == [] || (CanRun(s, steps[..|steps| - 1])
                    && Enabled(Run(s, steps[..|steps| - 1]), steps[|steps| - 1]))
  }

  ghost function Run(s: State, steps: seq<Step>): State
    requires CanRun(s, steps)
    decreases |steps|, 1
  {
    if steps == [] then s else Next(Run(s, steps[..|steps| - 1]), steps[|steps| - 1])
  }

  // ---------- what every run keeps ----------

  /** All hooks applied, the last registered first. */
  function AllHooks(hooks: seq<Hook>, v: Value): Value {
    if hooks == [] then v else AllHooks(hooks[..|hooks| - 1], hooks[|hooks| - 1](v))
  }

  predicate Finished(x: Child) {
    x.given.Some? && x.left == 0
  }

  function Unfinished(children: seq<Child>): nat {
    if children == [] then 0
    else Unfinished(children[..|children| - 1]) + if Finished(children[|children| - 1]) then 0 else 1
  }

  ghost predicate Progress(x: Child) {
    && (x.given.Some? <==> x.resp.Some?)
    && (x.given.None? ==> x.left == 0)
    && x.left <= |x.hooks| + 1
    && (x.given.Some? ==>
          AllHooks(x.hooks, x.given.value)
          == if x.left == 0 then x.resp.value else AllHooks(x.hooks[..x.left - 1], x.resp.value))
  }

  ghost predicate Sound(s: State) {
    && s.children != []
    && (forall i :: 0 <= i < |s.children| ==> Progress(s.children[i]))
    && s.wait == Unfinished(s.children)
    && s.answers == if s.wait == 0 then [Combined(s.kind, Responses(s.children))] else []
  }

  lemma {:induction false} UnfinishedUpdate(children: seq<Child>, i: nat, x: Child)
    requires i < |children|
    ensures Unfinished(children[i := x]) == Unfinished(children)
      + (if Finished(children[i]) then 1 else 0) - (if Finished(x) then 1 else 0)
  {
    var n := |children| - 1;
    if i == n {
      assert children[i := x][..n] == children[..n];
    } else {
      UnfinishedUpdate(children[..n], i, x);
      assert children[i := x][..n] == children[..n][i := x];
    }
  }

  lemma {:induction false} NoneUnfinished(children: seq<Child>)
    ensures Unfinished(children) == 0 <==> forall i :: 0 <= i < |children| ==> Finished(children[i])
  {
    if children != [] {
      var n := |children| - 1;
      NoneUnfinished(children[..n]);
      assert forall i :: 0 <= i < n ==> children[..n][i] == children[i];
    }
  }

  lemma HookProgress(x: Child)
    requires Progress(x) && x.resp.Some? && 1 < x.left <= |x.hooks| + 1
    ensures Progress(x.(resp := Some(x.hooks[x.left - 2](x.resp.value)), left := x.left - 1))
  {
    var p := x.hooks[..x.left - 1];
    assert p[..|p| - 1] == x.hooks[..x.left - 2] && p[|p| - 1] == x.hooks[x.left - 2];
  }

  lemma StartProgress(x: Child, v: Value)
    requires Progress(x) && x.given.None?
    ensures Progress(x.(given := Some(v), resp := Some(v), left := |x.hooks| + 1))
  {
    assert x.hooks[..|x.hooks|] == x.hooks;
  }

  lemma DoneProgress(x: Child)
    requires Progress(x) && x.left == 1
    ensures x.given.Some? && Progress(x.(left := 0))
  {
    assert x.hooks[..0] == [];
  }

  lemma StepKeeps(s: State, step: Step)
    requires Sound(s) && Enabled(s, step)
    ensures Sound(Next(s, step))
  {
    hide Progress, Combined;
    var i := step.i;
    var x, y := s.children[i], Next(s, step).children[i];
    assert Progress(x);
    UnfinishedUpdate(s.children, i, y);
    StepProgress(s, step);
    NoneUnfinished(s.children);
  }

  lemma StepProgress(s: State, step: Step)
    requires Enabled(s, step) && Progress(s.children[step.i])
    ensures var x, y := s.children[step.i], Next(s, step).children[step.i];
      && Progress(y)
      && (step.SetResponse? ==> !Finished(x) && !Finished(y))
      && (step.RunHook? ==> !Finished(x) && !Finished(y))
      && (step.ReportDone? ==> !Finished(x) && Finished(y))
  {
    var x := s.children[step.i];
    match step
    case SetResponse(_, v) => StartProgress(x, v);
    case RunHook(_) => HookProgress(x);
    case ReportDone(_) => DoneProgress(x);
  }

  lemma StartSound(kind: Kind, hooks: seq<seq<Hook>>)
    requires hooks != []
    ensures Sound(Start(kind, hooks))
  {
    StartUnfinished(kind, hooks);
  }

  lemma {:induction false} StartUnfinished(kind: Kind, hooks: seq<seq<Hook>>)
    ensures Unfinished(Start(kind, hooks).children) == |hooks|
  {
    if hooks != [] {
      var n := |hooks| - 1;
      StartUnfinished(kind, hooks[..n]);
      assert Start(kind, hooks).children[..n] == Start(kind, hooks[..n]).children;
    }
  }

  /** Each hook gets what the hook registered after it has left. */
  lemma AllHooksIs(hooks: seq<Hook>, h: Hook, v: Value)
    ensures AllHooks([], v) == v && AllHooks(hooks + [h], v) == AllHooks(hooks, h(v))
  {
    assert (hooks + [h])[..|hooks|] == hooks;
  }

  /** What a part was given is what the run set as its response, once; it is finished once it has reported. */
  ghost predicate Recorded(steps: seq<Step>, s: State) {
    && (forall i, v :: 0 <= i < |s.children| ==> (SetResponse(i, v) in steps <==> s.children[i].given == Some(v)))
    && (forall i :: 0 <= i < |s.children| ==> (ReportDone(i) in steps <==> Finished(s.children[i])))
  }

  lemma {:induction false} RunRecords(kind: Kind, hooks: seq<seq<Hook>>, steps: seq<Step>)
    requires hooks != [] && CanRun(Start(kind, hooks), steps)
    ensures Recorded(steps, Run(Start(kind, hooks), steps))
  {
    hide Sound, Next, Enabled, Recorded, SameHooks;
    if steps == [] {
      NothingRecorded(kind, hooks);
    } else {
      var init, last := steps[..|steps| - 1], steps[|steps| - 1];
      RunRecords(kind, hooks, init);
      StartSound(kind, hooks);
      RunKeeps(Start(kind, hooks), init);
      StepRecords(init, Run(Start(kind, hooks), init), last);
      assert steps == init + [last];
    }
  }

  lemma NothingRecorded(kind: Kind, hooks: seq<seq<Hook>>)
    ensures Recorded([], Start(kind, hooks))
  {
  }

  lemma StepRecords(steps: seq<Step>, s: State, step: Step)
    requires Sound(s) && Recorded(steps, s) && Enabled(s, step)
    ensures Recorded(steps + [step], Next(s, step))
  {
    hide Combined, Responses, AllHooks;
    var s' := Next(s, step);
    assert Progress(s.children[step.i]);
    forall i | 0 <= i < |s'.children|
      ensures ReportDone(i) in steps + [step] <==> Finished(s'.children[i])
    {
      assert ReportDone(i) in steps + [step] <==> ReportDone(i) in steps || step == ReportDone(i);
    }
    forall i, v | 0 <= i < |s'.children|
      ensures SetResponse(i, v) in steps + [step] <==> s'.children[i].given == Some(v)
    {
      assert SetResponse(i, v) in steps + [step] <==> SetResponse(i, v) in steps || step == SetResponse(i, v);
    }
  }

  ghost predicate SameHooks(s: State, s': State) {
    && s'.kind == s.kind && |s'.children| == |s.children|
    && forall i :: 0 <= i < |s.children| ==> s'.children[i].hooks == s.children[i].hooks
  }

  lemma {:induction false} RunKeeps(s: State, steps: seq<Step>)
    requires Sound(s) && CanRun(s, steps)
    ensures Sound(Run(s, steps)) && SameHooks(s, Run(s, steps))
  {
    hide Sound, Enabled;
    if steps != [] {
      var init, last := steps[..|steps| - 1], steps[|steps| - 1];
      RunKeeps(s, init);
      StepKeeps(Run(s, init), last);
      StepSameHooks(Run(s, init), last);
    }
  }

  lemma StepSameHooks(s: State, step: Step)
    requires Enabled(s, step)
    ensures SameHooks(s, Next(s, step))
  {
  }

  /** The replies as their hooks leave them, in key order. */
  ghost predicate Hooked(hooks: seq<seq<Hook>>, replies: seq<Value>, vs: seq<Value>) {
    |replies| == |vs| == |hooks| && forall i :: 0 <= i < |hooks| ==> vs[i] == AllHooks(hooks[i], replies[i])
  }

  /**
   However the parts finish and their steps interleave, the command is answered exactly when the
   last part has reported, and once: with the answer it must have, given for every part the reply that the run set
   for it, in key order, as its hooks have left it.
   */
  lemma AnsweredOnceByTheLast(kind: Kind, hooks: seq<seq<Hook>>, steps: seq<Step>)
    requires hooks != [] && CanRun(Start(kind, hooks), steps)
    ensures var s := Run(Start(kind, hooks), steps);
      var done := forall i :: 0 <= i < |hooks| ==> ReportDone(i) in steps;
      && |s.children| == |hooks|
      && (!done ==> s.answers == [])
      && (done ==> |s.answers| == 1 && exists replies, vs ::
            && Hooked(hooks, replies, vs)
            && (forall i :: 0 <= i < |hooks| ==> SetResponse(i, replies[i]) in steps)
            && IsAnswer(kind, vs, s.answers[0]))
  {
    hide Run, CanRun, IsAnswer, Combined, Responses, Progress;
    StartSound(kind, hooks);
    RunKeeps(Start(kind, hooks), steps);
    RunRecords(kind, hooks, steps);
    var s := Run(Start(kind, hooks), steps);
    NoneUnfinished(s.children);
    if forall i :: 0 <= i < |hooks| ==> ReportDone(i) in steps {
      var replies, vs := FinishedAnswer(s, hooks);
      CombinedIsAnswer(kind, vs);
      assert Hooked(hooks, replies, vs);
    }
  }

  lemma FinishedAnswer(s: State, hooks: seq<seq<Hook>>) returns (replies: seq<Value>, vs: seq<Value>)
    requires Sound(s) && |s.children| == |hooks|
    requires forall i :: 0 <= i < |hooks| ==> Finished(s.children[i]) && s.children[i].hooks == hooks[i]
    ensures Hooked(hooks, replies, vs)
    ensures forall i :: 0 <= i < |hooks| ==> s.children[i].given == Some(replies[i])
    ensures s.answers == [Combined(s.kind, vs)]
  {
    replies := seq(|hooks|, i requires 0 <= i < |hooks| => s.children[i].given.value);
    NoneUnfinished(s.children);
    vs := seq(|hooks|, i requires 0 <= i < |hooks| => AllHooks(hooks[i], replies[i]));
    forall i | 0 <= i < |hooks| ensures vs[i] == Responses(s.children)[i] {
      assert Progress(s.children[i]);
    }
    assert vs == Responses(s.children);
  }

  // ---------- the answer can always still come ----------

  /** How many steps a part has to take. */
  function Todo(x: Child): nat {
    if x.given.None? then |x.hooks| + 2 else x.left
  }

  function AllTodo(children: seq<Child>): nat {
    if children == [] then 0 else AllTodo(children[..|children| - 1]) + Todo(children[|children| - 1])
  }

  lemma {:induction false} TodoUpdate(children: seq<Child>, i: nat, x: Child)
    requires i < |children|
    ensures AllTodo(children[i := x]) == AllTodo(children) - Todo(children[i]) + Todo(x)
  {
    var n := |children| - 1;
    if i == n {
      assert children[i := x][..n] == children[..n];
    } else {
      TodoUpdate(children[..n], i, x);
      assert children[i := x][..n] == children[..n][i := x];
    }
  }

  /** What a part does next. */
  function Onward(x: Child, i: nat): Step {
    if x.given.None? then SetResponse(i, NullBulkString) else if x.left > 1 then RunHook(i) else ReportDone(i)
  }

  lemma OnwardStep(s: State, i: nat)
    requires Sound(s) && i < |s.children| && !Finished(s.children[i])
    ensures Enabled(s, Onward(s.children[i], i))
    ensures AllTodo(Next(s, Onward(s.children[i], i)).children) < AllTodo(s.children)
  {
    hide Combined, Responses, AllHooks;
    assert Progress(s.children[i]);
    var s' := Next(s, Onward(s.children[i], i));
    TodoUpdate(s.children, i, s'.children[i]);
  }

  lemma Extended(s: State, steps: seq<Step>, step: Step)
    requires CanRun(s, steps) && Enabled(Run(s, steps), step)
    ensures CanRun(s, steps + [step]) && Run(s, steps + [step]) == Next(Run(s, steps), step)
  {
    assert (steps + [step])[..|steps|] == steps;
  }

  /** From any point of any run the parts can go on until the command is answered. */
  lemma {:induction false} CanBeAnswered(kind: Kind, hooks: seq<seq<Hook>>, steps: seq<Step>) returns (more: seq<Step>)
    requires hooks != [] && CanRun(Start(kind, hooks), steps)
    ensures CanRun(Start(kind, hooks), steps + more) && |Run(Start(kind, hooks), steps + more).answers| == 1
    decreases AllTodo(Run(Start(kind, hooks), steps).children)
  {
    hide Run, CanRun, Sound, Next, IsAnswer, Hooked, Enabled, SameHooks;
    var start := Start(kind, hooks);
    var s := Run(start, steps);
    StartSound(kind, hooks);
    RunKeeps(start, steps);
    RunRecords(kind, hooks, steps);
    if forall i :: 0 <= i < |s.children| ==> Finished(s.children[i]) {
      AnsweredOnceByTheLast(kind, hooks, steps);
      more := [];
      assert steps + more == steps;
    } else {
      var i :| 0 <= i < |s.children| && !Finished(s.children[i]);
      var step := Onward(s.children[i], i);
      OnwardStep(s, i);
      Extended(start, steps, step);
      var rest := CanBeAnswered(kind, hooks, steps + [step]);
      more := [step] + rest;
      assert steps + more == steps + [step] + rest;
    }
  }
}
