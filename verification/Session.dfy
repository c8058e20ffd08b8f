/**
 A client session: a reader that takes requests off the connection and starts them, and a writer
 that answers them. Requests are numbered by arrival and may be completed in any order.
 */
module Session {
  import opened Bytes
  import opened Resp
  import RespEncoder

  const QUEUE_LEN := 32

  datatype Reader = Reading | Holding(k: nat) | ReaderGone
  datatype Writer = Waiting | Writing(k: nat) | WriterGone

  datatype State = State(
    arrived: nat,
    reader: Reader,
    queue: seq<nat>,            // started requests whose answers are to be written
    writer: Writer,
    responses: map<nat, Value>, // the answer of each completed request
    written: seq<nat>,
    out: seq<byte>,
    quit: bool)

  const INIT := State(0, Reading, [], Waiting, map[], [], [], false)

  datatype Step =
    | Arrives | Completes(k: nat, v: Value) | Pushes | ReaderExits
    | Takes | Encodes | EncodeFails | WriterExits | Quits

  predicate Enabled(s: State, step: Step) {
    match step
    case Arrives => s.reader.Reading?
    case Completes(k, _) => k < s.arrived && k !in s.responses
    case Pushes => s.reader.Holding? && |s.queue| < QUEUE_LEN
    case ReaderExits => s.reader.Reading? || (s.reader.Holding? && s.quit)
    case Takes => s.writer.Waiting? && s.queue != []
    case Encodes => s.writer.Writing? && s.writer.k in s.responses
    case EncodeFails => s.writer.Writing? && s.writer.k in s.responses
    case WriterExits => s.writer.Waiting? && s.quit
    case Quits => true
  }

  function Next(s: State, step: Step): State
    requires Enabled(s, step)
  {
    match step
    case Arrives => s.(arrived := s.arrived + 1, reader := Holding(s.arrived))
    case Completes(k, v) => s.(responses := s.responses[k := v])
    case Pushes => s.(reader := Reading, queue := s.queue + [s.reader.k])
    case ReaderExits => s.(reader := ReaderGone)
    case Takes => s.(queue := s.queue[1..], writer := Writing(s.queue[0]))
    case Encodes =>
      s.(writer := Waiting, written := s.written + [s.writer.k], out := s.out + Encode(s.responses[s.writer.k]))
    case EncodeFails => s.(writer := WriterGone)
    case WriterExits => s.(writer := WriterGone)
    case Quits => s.(quit := true)
  }

  ghost predicate CanRun(s: State, steps: seq<Step>)
    decreases |steps|, 0
  {
    steps == [] || (CanRun(s, steps[..|steps| - 1])
                    && Enabled(Run(s, steps[..|steps| - 1]), steps[|steps| - 1]))
  }

  ghost function Run(s: State, steps: seq<Step>): State
    requires CanRun(s, steps)
    decreases |steps|, 1
  {
    if steps == [] then s else Next(Run(s, steps[..|steps| - 1]), steps[|steps| - 1])
  }

  /** The answers of the given requests. */
  function Answers(responses: map<nat, Value>, ks: seq<nat>): (vs: seq<Value>)
    requires forall k :: k in ks ==> k in responses
    ensures |vs| == |ks|
  {
    seq(|ks|, i requires 0 <= i < |ks| => assert ks[i] in ks; responses[ks[i]])
  }

  /** Everything written, being written, queued and held, in this order. */
  function Line(s: State): seq<nat> {
    s.written
    + (if s.writer.Writing? then [s.writer.k] else [])
    + (if s.writer.WriterGone? then [] else s.queue + if s.reader.Holding? then [s.reader.k] else [])
  }

  ghost predicate Counting(ks: seq<nat>) {
    forall i :: 0 <= i < |ks| ==> ks[i] == i
  }

  /** Requests stand in line by arrival, and the bytes written answer exactly the front of the line. */
  ghost predicate Sound(s: State) {
    && Counting(Line(s))
    && (forall k :: k in s.responses ==> k < s.arrived)
    && (forall k :: k in s.written ==> k in s.responses)
    && s.out == EncodeAll(Answers(s.responses, s.written))
    && (!s.writer.WriterGone? && !s.reader.ReaderGone? ==> |Line(s)| == s.arrived)
  }

  lemma AnswersStable(s: State, k: nat, v: Value)
    requires k !in s.responses && forall j :: j in s.written ==> j in s.responses
    ensures Answers(s.responses[k := v], s.written) == Answers(s.responses, s.written)
  {
    var a, b := Answers(s.responses[k := v], s.written), Answers(s.responses, s.written);
    forall i | 0 <= i < |a| ensures a[i] == b[i] {
      assert s.written[i] in s.written;
    }
  }

  lemma AnswersExtend(responses: map<nat, Value>, ks: seq<nat>, k: nat)
    requires k in responses && forall j :: j in ks ==> j in responses
    ensures Answers(responses, ks + [k]) == Answers(responses, ks) + [responses[k]]
    ensures EncodeAll(Answers(responses, ks + [k])) == EncodeAll(Answers(responses, ks)) + Encode(responses[k])
  {
    assert Answers(responses, ks + [k]) == Answers(responses, ks) + [responses[k]];
    RespEncoder.EncodeAllAppend(Answers(responses, ks), responses[k], []);
    assert forall b: seq<byte> :: [] + b == b;
  }

  /** A step lengthens the line by the new arrival, keeps it, or cuts it off behind. */
  lemma LineStep(s: State, step: Step)
    requires Enabled(s, step)
    ensures var s' := Next(s, step);
      && (step.Arrives? && !s.writer.WriterGone? ==> Line(s') == Line(s) + [s.arrived])
      && (step.Arrives? && s.writer.WriterGone? ==> Line(s') == Line(s))
      && (step.Completes? || step.Pushes? || step.Takes? || step.Encodes? || step.Quits? ==> Line(s') == Line(s))
      && (step.ReaderExits? || step.EncodeFails? || step.WriterExits? ==> Line(s') <= Line(s))
  {
    if step.Takes? {
      assert s.queue == [s.queue[0]] + s.queue[1..];
    }
  }

  lemma StepKeepsAnswers(s: State, step: Step)
    requires Sound(s) && Enabled(s, step)
    ensures var s' := Next(s, step);
      && (forall k :: k in s'.responses ==> k < s'.arrived)
      && (forall k :: k in s'.written ==> k in s'.responses)
      && s'.out == EncodeAll(Answers(s'.responses, s'.written))
  {
    hide Line, EncodeAll, Encode, Answers;
    match step
    case Completes(k, v) => AnswersStable(s, k, v);
    case Encodes => AnswersExtend(s.responses, s.written, s.writer.k);
    case _ =>
  }

  lemma StepKeeps(s: State, step: Step)
    requires Sound(s) && Enabled(s, step)
    ensures Sound(Next(s, step))
  {
    hide Line, EncodeAll, Encode, Answers;
    LineStep(s, step);
    StepKeepsAnswers(s, step);
  }

  lemma {:induction false} RunKeeps(steps: seq<Step>)
    requires CanRun(INIT, steps)
    ensures Sound(Run(INIT, steps))
  {
    if steps == [] {
      assert Answers(map[], []) == [];
    } else {
      RunKeeps(steps[..|steps| - 1]);
      StepKeeps(Run(INIT, steps[..|steps| - 1]), steps[|steps| - 1]);
    }
  }

  /** The first n answers, by arrival. */
  function FirstAnswers(responses: map<nat, Value>, n: nat): (vs: seq<Value>)
    requires forall k :: 0 <= k < n ==> k in responses
    ensures |vs| == n
  {
    seq(n, k requires 0 <= k < n => responses[k])
  }

  /** In every run the bytes written are the encodings of the first answers in order of arrival. */
  lemma WrittenInOrder(steps: seq<Step>)
    requires CanRun(INIT, steps)
    ensures var s := Run(INIT, steps);
      var n := |s.written|;
      && n <= s.arrived
      && (forall k :: 0 <= k < n ==> k in s.responses)
      && s.out == EncodeAll(FirstAnswers(s.responses, n))
  {
    RunKeeps(steps);
    var s := Run(INIT, steps);
    forall k | 0 <= k < |s.written| ensures s.written[k] == k && k in s.responses {
      assert Line(s)[k] == s.written[k];
      assert s.written[k] in s.written;
    }
    assert FirstAnswers(s.responses, |s.written|) == Answers(s.responses, s.written);
    if |s.written| > 0 {
      assert |s.written| - 1 in s.responses;
    }
  }

  // ---------- the answers as the run gives them ----------

  /** How many answers the run encodes. */
  function EncodeSteps(steps: seq<Step>): nat {
    if steps == [] then 0 else EncodeSteps(steps[..|steps| - 1]) + if steps[|steps| - 1].Encodes? then 1 else 0
  }

  /** A recorded answer is the one the request was completed with, which happens once in a run. */
  ghost predicate Recorded(steps: seq<Step>, responses: map<nat, Value>) {
    && (forall k :: k in responses ==> Completes(k, responses[k]) in steps)
    && (forall i :: 0 <= i < |steps| && steps[i].Completes? ==>
          steps[i].k in responses && responses[steps[i].k] == steps[i].v)
  }

  lemma {:induction false} RunRecords(steps: seq<Step>)
    requires CanRun(INIT, steps)
    ensures var s := Run(INIT, steps);
      Recorded(steps, s.responses) && |s.written| == EncodeSteps(steps) && s.arrived == |Arrivals(steps)|
  {
    hide Recorded, Next, Enabled;
    if steps == [] {
      NothingRecorded();
    } else {
      var init, last := steps[..|steps| - 1], steps[|steps| - 1];
      RunRecords(init);
      assert steps == init + [last];
      StepRecords(init, Run(INIT, init), last);
      StepCounts(Run(INIT, init), last);
    }
  }

  lemma NothingRecorded()
    ensures Recorded([], map[])
  {
  }

  lemma StepCounts(s: State, step: Step)
    requires Enabled(s, step)
    ensures |Next(s, step).written| == |s.written| + if step.Encodes? then 1 else 0
    ensures Next(s, step).arrived == s.arrived + if step.Arrives? then 1 else 0
  {
    hide Encode;
  }

  lemma StepRecords(steps: seq<Step>, s: State, step: Step)
    requires Recorded(steps, s.responses) && Enabled(s, step)
    ensures Recorded(steps + [step], Next(s, step).responses)
  {
    hide Encode;
    var more, after := steps + [step], Next(s, step).responses;
    forall k | k in after ensures Completes(k, after[k]) in more {
      if step == Completes(k, after[k]) {
        assert more[|steps|] == step;
      } else {
        assert Completes(k, after[k]) in steps;
      }
    }
    forall i | 0 <= i < |more| && more[i].Completes? ensures more[i].k in after && after[more[i].k] == more[i].v {
      assert i < |steps| ==> more[i] == steps[i];
    }
  }

  /** The positions of the arrivals in the run. */
  function Arrivals(steps: seq<Step>): seq<nat> {
    if steps == [] then []
    else Arrivals(steps[..|steps| - 1]) + if steps[|steps| - 1].Arrives? then [|steps| - 1] else []
  }

  /**
   In every run the bytes written are the encodings of v_0, v_1, ... one after the other, one for each answer the
   run encodes, where v_k is what the run completed the k-th arrival with, before that and only once.
   */
  lemma RepliesInArrivalOrder(steps: seq<Step>) returns (vs: seq<Value>)
    requires CanRun(INIT, steps)
    ensures |vs| == EncodeSteps(steps) <= |Arrivals(steps)|
    ensures forall k :: 0 <= k < |vs| ==> Completes(k, vs[k]) in steps
    ensures forall i, v :: 0 <= i < |vs| && Completes(i, v) in steps ==> v == vs[i]
    ensures Run(INIT, steps).out == EncodeAll(vs)
  {
    hide Run, CanRun, EncodeAll, Encode;
    RunRecords(steps);
    WrittenInOrder(steps);
    var s := Run(INIT, steps);
    vs := FirstAnswers(s.responses, |s.written|);
  }

  // ---------- nothing holds the next answer up ----------

  lemma Extended(steps: seq<Step>, step: Step)
    requires CanRun(INIT, steps) && Enabled(Run(INIT, steps), step)
    ensures CanRun(INIT, steps + [step]) && Run(INIT, steps + [step]) == Next(Run(INIT, steps), step)
  {
    assert (steps + [step])[..|steps|] == steps;
  }

  /** As long as reader and writer are there, the oldest unanswered request is answered as soon as it is completed. */
  lemma NextCanBeWritten(steps: seq<Step>, v: Value) returns (more: seq<Step>)
    requires CanRun(INIT, steps) && !Run(INIT, steps).reader.ReaderGone? && !Run(INIT, steps).writer.WriterGone?
    requires EncodeSteps(steps) < |Arrivals(steps)| && Completes(EncodeSteps(steps), v) in steps
    ensures |more| <= 3 && CanRun(INIT, steps + more)
    ensures Run(INIT, steps + more).out == Run(INIT, steps).out + Encode(v)
  {
    hide CanRun, Run, Encode, EncodeAll, Answers;
    RunRecords(steps);
    RunKeeps(steps);
    var s := Run(INIT, steps);
    var n := |s.written|;
    assert Line(s)[n] == n;
    if s.writer.Writing? {
      Extended(steps, Encodes);
      more := [Encodes];
    } else if s.queue != [] {
      assert s.queue[0] == Line(s)[n];
      Extended(steps, Takes);
      Extended(steps + [Takes], Encodes);
      more := [Takes] + [Encodes];
      assert steps + [Takes] + [Encodes] == steps + more;
    } else {
      assert s.reader.Holding? && s.reader.k == Line(s)[n];
      Extended(steps, Pushes);
      Extended(steps + [Pushes], Takes);
      Extended(steps + [Pushes] + [Takes], Encodes);
      more := [Pushes] + [Takes] + [Encodes];
      assert steps + [Pushes] + [Takes] + [Encodes] == steps + more;
    }
  }

  /** At most 32 requests are queued, and the reader waits only at a full queue. */
  lemma {:induction false} QueueBound(steps: seq<Step>)
    requires CanRun(INIT, steps)
    ensures var s := Run(INIT, steps);
      |s.queue| <= 32 && (s.reader.Holding? ==> (Enabled(s, Pushes) <==> |s.queue| < 32))
  {
    if steps != [] {
      QueueBound(steps[..|steps| - 1]);
    }
  }
}
