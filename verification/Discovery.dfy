/**
 The subscription protocol of the discovery client. Callers subscribe and unsubscribe under a lock
 that they keep until their request is in a channel; a sender batches both channels onto a stream;
 each new stream starts from a snapshot. A run is any interleaving of these steps.
 */
module Discovery {
  import opened Basics

  const CHANNEL_LEN := 16

  /** A request whose caller holds the lock and waits for room in the channel. */
  datatype Caller = NoCaller | Subscribing(name: string) | Unsubscribing(name: string)

  datatype Message = Message(subs: seq<string>, unsubs: seq<string>)

  /** The sender: about to send the snapshot, collecting a batch, or sending the batch. */
  datatype Phase = Greeting | Collecting | Sending

  datatype Stream = Stream(snapshot: set<string>, phase: Phase, batch: Message, sent: seq<Message>)

  datatype State = State(
    subscribed: set<string>,
    caller: Caller,
    subCh: seq<string>,
    unsubCh: seq<string>,
    stream: Option<Stream>)

  const INIT := State({}, NoCaller, [], [], None)
  const NOTHING := Message([], [])

  datatype Step =
    | Subscribe(name: string) | Unsubscribe(name: string) | Put
    | Open | SnapshotSent | TakeSub | TakeUnsub | EndBatch | BatchSent | Close

  predicate Enabled(s: State, step: Step) {
    match step
    case Subscribe(_) => s.caller.NoCaller?
    case Unsubscribe(_) => s.caller.NoCaller?
    case Put =>
      || (s.caller.Subscribing? && |s.subCh| < CHANNEL_LEN)
      || (s.caller.Unsubscribing? && |s.unsubCh| < CHANNEL_LEN)
    case Open => s.stream.None? && s.caller.NoCaller?
    case SnapshotSent => s.stream.Some? && s.stream.value.phase.Greeting?
    case TakeSub => s.stream.Some? && s.stream.value.phase.Collecting? && s.subCh != []
    case TakeUnsub => s.stream.Some? && s.stream.value.phase.Collecting? && s.unsubCh != []
    case EndBatch =>
      && s.stream.Some? && s.stream.value.phase.Collecting? && s.stream.value.batch != NOTHING
      && s.subCh == [] && s.unsubCh == []
    case BatchSent => s.stream.Some? && s.stream.value.phase.Sending?
    case Close => s.stream.Some?
  }

  function WithStream(s: State, t: Stream): State {
    s.(stream := Some(t))
  }

  function Next(s: State, step: Step): State
    requires Enabled(s, step)
  {
    match step
    case Subscribe(n) =>
      if n in s.subscribed then s else s.(subscribed := s.subscribed + {n}, caller := Subscribing(n))
    case Unsubscribe(n) =>
      if n !in s.subscribed then s else s.(subscribed := s.subscribed - {n}, caller := Unsubscribing(n))
    case Put =>
      if s.caller.Subscribing? then s.(subCh := s.subCh + [s.caller.name], caller := NoCaller)
      else s.(unsubCh := s.unsubCh + [s.caller.name], caller := NoCaller)
    case Open => s.(subCh := [], unsubCh := [], stream := Some(Stream(s.subscribed, Greeting, NOTHING, [])))
    case SnapshotSent => WithStream(s, s.stream.value.(phase := Collecting))
    case TakeSub =>
      var t := s.stream.value;
      WithStream(s, t.(batch := t.batch.(subs := t.batch.subs + [s.subCh[0]]))).(subCh := s.subCh[1..])
    case TakeUnsub =>
      var t := s.stream.value;
      WithStream(s, t.(batch := t.batch.(unsubs := t.batch.unsubs + [s.unsubCh[0]]))).(unsubCh := s.unsubCh[1..])
    case EndBatch => WithStream(s, s.stream.value.(phase := Sending))
    case BatchSent =>
      var t := s.stream.value;
      WithStream(s, t.(phase := Collecting, batch := NOTHING, sent := t.sent + [t.batch]))
    case Close => s.(stream := None)
  }

  ghost predicate CanRun(s: State, steps: seq<Step>)
    decreases |steps|, 0
  {
    steps == [] || (CanRun(s, steps[..|steps| - 1])
                    && Enabled(Run(s, steps[..|steps| - 1]), steps[|steps| - 1]))
  }

  ghost function Run(s: State, steps: seq<Step>): State
    requires CanRun(s, steps)
    decreases |steps|, 1
  {
    if steps == [] then s else Next(Run(s, steps[..|steps| - 1]), steps[|steps| - 1])
  }

  // ---------- counting ----------

  function Count(s: seq<string>, n: string): nat {
    multiset(s)[n]
  }

  function Bit(b: bool): int {
    if b then 1 else 0
  }

  function NetOf(m: Message, n: string): int {
    Count(m.subs, n) - Count(m.unsubs, n)
  }

  function Net(sent: seq<Message>, n: string): int {
    if sent == [] then 0 else Net(sent[..|sent| - 1], n) + NetOf(sent[|sent| - 1], n)
  }

  function NetOfCaller(c: Caller, n: string): int {
    match c
    case NoCaller => 0
    case Subscribing(m) => Bit(m == n)
    case Unsubscribing(m) => -Bit(m == n)
  }

  /**
   For every service: subscribed or not is what the snapshot said, plus the subscriptions and minus
   the cancellations that are sent, batched, queued or held by a caller since.
   */
  ghost predicate Balanced(s: State) {
    s.stream.Some? ==>
      var t := s.stream.value;
      forall n ::
        Bit(n in s.subscribed) == Bit(n in t.snapshot) + Net(t.sent, n) + NetOf(t.batch, n)
          + Count(s.subCh, n) - Count(s.unsubCh, n) + NetOfCaller(s.caller, n)
  }

  /** After each message sent, and the one being sent, the stream's balance for a service is 0 or 1. */
  ghost predicate Whole(s: State) {
    && (s.caller.Subscribing? ==> s.caller.name in s.subscribed)
    && (s.caller.Unsubscribing? ==> s.caller.name !in s.subscribed)
    && (s.stream.Some? ==>
      var t := s.stream.value;
      && (forall k, n :: 0 <= k <= |t.sent| ==> 0 <= Bit(n in t.snapshot) + Net(t.sent[..k], n) <= 1)
      && (t.phase.Sending? ==> forall n :: 0 <= Bit(n in t.snapshot) + Net(t.sent, n) + NetOf(t.batch, n) <= 1)
      && (t.phase.Greeting? ==> t.batch == NOTHING && t.sent == []))
  }

  lemma CountAppend(s: seq<string>, x: string, n: string)
    ensures Count(s + [x], n) == Count(s, n) + Bit(x == n)
  {
  }

  lemma CountTail(s: seq<string>, n: string)
    requires s != []
    ensures Count(s, n) == Count(s[1..], n) + Bit(s[0] == n)
  {
    assert s == [s[0]] + s[1..];
  }

  lemma NetAppend(sent: seq<Message>, m: Message, n: string)
    ensures Net(sent + [m], n) == Net(sent, n) + NetOf(m, n)
  {
    assert (sent + [m])[..|sent|] == sent;
  }

  lemma StepBalanced(s: State, step: Step)
    requires Balanced(s) && Enabled(s, step)
    ensures Balanced(Next(s, step))
  {
    hide Count, Net;
    var s' := Next(s, step);
    if s'.stream.Some? && !step.Open? {
      var t, t' := s.stream.value, s'.stream.value;
      forall n
        ensures Bit(n in s'.subscribed) == Bit(n in t'.snapshot) + Net(t'.sent, n) + NetOf(t'.batch, n)
          + Count(s'.subCh, n) - Count(s'.unsubCh, n) + NetOfCaller(s'.caller, n)
      {
        StepBalancedAt(s, step, n);
      }
    } else if step.Open? {
      forall n ensures Net([], n) == 0 && NetOf(NOTHING, n) == 0 && Count([], n) == 0 {
        Zero(n);
      }
    }
  }

  lemma Zero(n: string)
    ensures Net([], n) == 0 && NetOf(NOTHING, n) == 0 && Count([], n) == 0
  {
  }

  lemma StepBalancedAt(s: State, step: Step, n: string)
    requires Enabled(s, step) && !step.Open? && !step.Close? && s.stream.Some?
    requires var t := s.stream.value;
      Bit(n in s.subscribed) == Bit(n in t.snapshot) + Net(t.sent, n) + NetOf(t.batch, n)
        + Count(s.subCh, n) - Count(s.unsubCh, n) + NetOfCaller(s.caller, n)
    ensures var s' := Next(s, step);
      var t' := s'.stream.value;
      Bit(n in s'.subscribed) == Bit(n in t'.snapshot) + Net(t'.sent, n) + NetOf(t'.batch, n)
        + Count(s'.subCh, n) - Count(s'.unsubCh, n) + NetOfCaller(s'.caller, n)
  {
    hide Count, Net;
    var t := s.stream.value;
    Zero(n);
    match step
    case Put =>
      if s.caller.Subscribing? { CountAppend(s.subCh, s.caller.name, n); }
      else { CountAppend(s.unsubCh, s.caller.name, n); }
    case TakeSub =>
      CountTail(s.subCh, n);
      CountAppend(t.batch.subs, s.subCh[0], n);
    case TakeUnsub =>
      CountTail(s.unsubCh, n);
      CountAppend(t.batch.unsubs, s.unsubCh[0], n);
    case BatchSent => NetAppend(t.sent, t.batch, n);
    case _ =>
  }

  lemma StepWhole(s: State, step: Step)
    requires Balanced(s) && Whole(s) && Enabled(s, step)
    ensures Whole(Next(s, step))
  {
    hide Count, Net;
    var s' := Next(s, step);
    match step
    case Open =>
      var sent := s'.stream.value.sent;
      forall k, n | 0 <= k <= 0 ensures Net(sent[..k], n) == 0 {
        Zero(n);
        assert sent[..k] == [];
      }
    case EndBatch =>
      var t := s.stream.value;
      forall n ensures 0 <= Bit(n in t.snapshot) + Net(t.sent, n) + NetOf(t.batch, n) <= 1 {
        Zero(n);
      }
    case BatchSent =>
      var t, t' := s.stream.value, s'.stream.value;
      forall k, n | 0 <= k <= |t'.sent| ensures 0 <= Bit(n in t.snapshot) + Net(t'.sent[..k], n) <= 1 {
        if k == |t'.sent| {
          assert t'.sent[..k] == t.sent + [t.batch];
          NetAppend(t.sent, t.batch, n);
        } else {
          assert t'.sent[..k] == t.sent[..k];
        }
      }
    case _ =>
  }

  lemma {:induction false} RunKeeps(steps: seq<Step>)
    requires CanRun(INIT, steps)
    ensures Balanced(Run(INIT, steps)) && Whole(Run(INIT, steps))
  {
    hide Balanced, Whole, Enabled;
    if steps == [] {
      NoStream(INIT);
    } else {
      var init, last := steps[..|steps| - 1], steps[|steps| - 1];
      RunKeeps(init);
      StepBalanced(Run(INIT, init), last);
      StepWhole(Run(INIT, init), last);
    }
  }

  lemma NoStream(s: State)
    requires s.stream.None? && s.caller.NoCaller?
    ensures Balanced(s) && Whole(s)
  {
  }

  ghost predicate Flushed(s: State) {
    s.stream.Some? && s.caller.NoCaller? && s.subCh == [] && s.unsubCh == [] && s.stream.value.batch == NOTHING
  }

  /** Once queues and batch are empty, the balance sent on the stream is exactly the subscribed set. */
  lemma FlushedNetIsSubscribed(steps: seq<Step>, n: string)
    requires CanRun(INIT, steps) && Flushed(Run(INIT, steps))
    ensures var s := Run(INIT, steps);
      var t := s.stream.value;
      Bit(n in t.snapshot) + Net(t.sent, n) == Bit(n in s.subscribed)
  {
    RunKeeps(steps);
    Zero(n);
  }

  /** Whether the last call about the service in a run was a subscription. */
  function Wanted(steps: seq<Step>, n: string): bool {
    if steps == [] then false
    else
      var last := steps[|steps| - 1];
      if last == Subscribe(n) then true
      else if last == Unsubscribe(n) then false
      else Wanted(steps[..|steps| - 1], n)
  }

  /** The subscribed set is what the calls ask for. */
  lemma {:induction false} SubscribedIsWanted(steps: seq<Step>, n: string)
    requires CanRun(INIT, steps)
    ensures n in Run(INIT, steps).subscribed <==> Wanted(steps, n)
  {
    if steps != [] {
      SubscribedIsWanted(steps[..|steps| - 1], n);
    }
  }

  /**
   Once queues and batch are empty, for every service: the snapshot the stream began with, plus the subscriptions
   and minus the cancellations sent on it, is one if the last call about the service subscribed it, else zero.
   */
  lemma FlushedNetIsWanted(steps: seq<Step>, n: string)
    requires CanRun(INIT, steps) && Flushed(Run(INIT, steps))
    ensures var t := Run(INIT, steps).stream.value;
      (if n in t.snapshot then 1 else 0) + Net(t.sent, n) == if Wanted(steps, n) then 1 else 0
  {
    FlushedNetIsSubscribed(steps, n);
    SubscribedIsWanted(steps, n);
  }

  // ---------- a server that keeps a set ----------

  /** What a server makes of one message, adding before it drops or dropping before it adds. */
  ghost function ServeOne(before: set<string>, m: Message, addsFirst: bool): set<string> {
    var subs, unsubs := (set n | n in m.subs), (set n | n in m.unsubs);
    if addsFirst then (before + subs) - unsubs else (before - unsubs) + subs
  }

  ghost function Serve(set0: set<string>, sent: seq<Message>, addsFirst: bool): set<string> {
    if sent == [] then set0
    else ServeOne(Serve(set0, sent[..|sent| - 1], addsFirst), sent[|sent| - 1], addsFirst)
  }

  predicate Names(m: Message, n: string) {
    n in m.subs || n in m.unsubs
  }

  /** The last message that names the service names it on both sides. */
  ghost predicate LastTwoSided(sent: seq<Message>, n: string) {
    sent != [] &&
      var m := sent[|sent| - 1];
      if Names(m, n) then n in m.subs && n in m.unsubs else LastTwoSided(sent[..|sent| - 1], n)
  }

  lemma CountIn(s: seq<string>, n: string)
    ensures n in s <==> Count(s, n) > 0
  {
    assert n in s <==> n in multiset(s);
  }

  /**
   One message: the server agrees with the balance after it, if and only if a name on both sides of it
   ends up as the server's order of work leaves it. What the server had of a name before matters only if the
   message does not name it.
   */
  lemma MessageAgrees(m: Message, before: set<string>, n: string, balance: int, addsFirst: bool)
    requires 0 <= balance <= 1 && 0 <= balance + NetOf(m, n) <= 1
    ensures Names(m, n) ==>
      (Bit(n in ServeOne(before, m, addsFirst)) == balance + NetOf(m, n)
       <==> (n in m.subs && n in m.unsubs ==> balance + NetOf(m, n) == Bit(!addsFirst)))
    ensures !Names(m, n) ==> NetOf(m, n) == 0 && (n in ServeOne(before, m, addsFirst) <==> n in before)
  {
    CountIn(m.subs, n);
    CountIn(m.unsubs, n);
  }

  lemma {:induction false} ServeAgrees(set0: set<string>, sent: seq<Message>, n: string, addsFirst: bool)
    requires forall k :: 0 <= k <= |sent| ==> 0 <= Bit(n in set0) + Net(sent[..k], n) <= 1
    ensures var balance := Bit(n in set0) + Net(sent, n);
      Bit(n in Serve(set0, sent, addsFirst)) == balance
      <==> (LastTwoSided(sent, n) ==> balance == Bit(!addsFirst))
  {
    if sent != [] {
      hide ServeOne, NetOf;
      var init, m := sent[..|sent| - 1], sent[|sent| - 1];
      assert forall k :: 0 <= k <= |init| ==> init[..k] == sent[..k];
      ServeAgrees(set0, init, n, addsFirst);
      assert sent[..|sent|] == sent && sent[..|init|] == init;
      MessageAgrees(m, Serve(set0, init, addsFirst), n, Bit(n in set0) + Net(init, n), addsFirst);
    }
  }

  /**
   On every run whose stream is flushed, the server has the subscribed set if and only if no service whose
   last message names it on both sides is left the other way round by the server's order of work.
   */
  lemma FlushedServerAgrees(steps: seq<Step>, addsFirst: bool)
    requires CanRun(INIT, steps) && Flushed(Run(INIT, steps))
    ensures var s := Run(INIT, steps);
      var t := s.stream.value;
      Serve(t.snapshot, t.sent, addsFirst) == s.subscribed
      <==> (forall n :: LastTwoSided(t.sent, n) ==> (n in s.subscribed <==> !addsFirst))
  {
    hide Net, Serve, LastTwoSided, Count;
    var s := Run(INIT, steps);
    var t := s.stream.value;
    RunKeeps(steps);
    forall n
      ensures (n in Serve(t.snapshot, t.sent, addsFirst) <==> n in s.subscribed)
         <==> (LastTwoSided(t.sent, n) ==> (n in s.subscribed <==> !addsFirst))
    {
      FlushedNetIsSubscribed(steps, n);
      ServeAgrees(t.snapshot, t.sent, n, addsFirst);
    }
  }

  // ---------- a run on which it fails, for either order ----------

  /** A run of steps with its end. */
  lemma Go(steps: seq<Step>, s: State, step: Step) returns (more: seq<Step>)
    requires CanRun(INIT, steps) && Run(INIT, steps) == s && Enabled(s, step)
    ensures CanRun(INIT, more) && Run(INIT, more) == Next(s, step)
  {
    hide Enabled, Next;
    RunFurther(steps, step);
    more := steps + [step];
  }

  /** An open stream past its snapshot, with the given queues and batch. */
  function Live(snapshot: set<string>, subscribed: set<string>, subCh: seq<string>, unsubCh: seq<string>,
                phase: Phase, batch: Message, sent: seq<Message>): State
  {
    State(subscribed, NoCaller, subCh, unsubCh, Some(Stream(snapshot, phase, batch, sent)))
  }

  /** A stream opened after the given services were subscribed. */
  lemma OpenedWith(a: string) returns (steps: seq<Step>)
    ensures CanRun(INIT, steps) && Run(INIT, steps) == Live({a}, {a}, [], [], Collecting, NOTHING, [])
  {
    hide Run, CanRun;
    StartRun();
    steps := Go([], INIT, Subscribe(a));
    assert INIT.subscribed + {a} == {a};
    steps := Go(steps, State({a}, Subscribing(a), [], [], None), Put);
    steps := Go(steps, State({a}, NoCaller, [a], [], None), Open);
    steps := Go(steps, State({a}, NoCaller, [], [], Some(Stream({a}, Greeting, NOTHING, []))), SnapshotSent);
  }

  lemma StartRun()
    ensures CanRun(INIT, []) && Run(INIT, []) == INIT
  {
  }

  lemma Opened() returns (steps: seq<Step>)
    ensures CanRun(INIT, steps) && Run(INIT, steps) == Live({}, {}, [], [], Collecting, NOTHING, [])
  {
    hide Run, CanRun;
    StartRun();
    steps := Go([], INIT, Open);
    steps := Go(steps, State({}, NoCaller, [], [], Some(Stream({}, Greeting, NOTHING, []))), SnapshotSent);
  }

  /** A batch with one service on both sides is sent off. */
  lemma BothSidesSent(steps: seq<Step>, snapshot: set<string>, subscribed: set<string>, a: string)
    returns (more: seq<Step>)
    requires CanRun(INIT, steps)
    requires Run(INIT, steps) == Live(snapshot, subscribed, [a], [a], Collecting, NOTHING, [])
    ensures CanRun(INIT, more)
    ensures Run(INIT, more) == Live(snapshot, subscribed, [], [], Collecting, NOTHING, [Message([a], [a])])
  {
    hide Run, CanRun;
    more := BothTaken(steps, snapshot, subscribed, a);
    more := Go(more, Live(snapshot, subscribed, [], [], Collecting, Message([a], [a]), []), EndBatch);
    more := Go(more, Live(snapshot, subscribed, [], [], Sending, Message([a], [a]), []), BatchSent);
    assert [] + [Message([a], [a])] == [Message([a], [a])];
  }

  lemma BothTaken(steps: seq<Step>, snapshot: set<string>, subscribed: set<string>, a: string)
    returns (more: seq<Step>)
    requires CanRun(INIT, steps)
    requires Run(INIT, steps) == Live(snapshot, subscribed, [a], [a], Collecting, NOTHING, [])
    ensures CanRun(INIT, more)
    ensures Run(INIT, more) == Live(snapshot, subscribed, [], [], Collecting, Message([a], [a]), [])
  {
    hide Run, CanRun;
    assert [a][1..] == [] && [] + [a] == [a];
    more := Go(steps, Live(snapshot, subscribed, [a], [a], Collecting, NOTHING, []), TakeUnsub);
    more := Go(more, Live(snapshot, subscribed, [a], [], Collecting, Message([], [a]), []), TakeSub);
  }

  /** Cancelled and subscribed again, or the other way, within one batch: the order is lost. */
  lemma DisagreeingRun(addsFirst: bool, a: string) returns (steps: seq<Step>)
    ensures CanRun(INIT, steps) && Flushed(Run(INIT, steps))
    ensures var s := Run(INIT, steps);
      Serve(s.stream.value.snapshot, s.stream.value.sent, addsFirst) != s.subscribed
  {
    hide Run, CanRun, Serve, ServeOne;
    assert {a} - {a} == {} && {} + {a} == {a} && [] + [a] == [a];
    if addsFirst {
      steps := OpenedWith(a);
      steps := Go(steps, Live({a}, {a}, [], [], Collecting, NOTHING, []), Unsubscribe(a));
      steps := Go(steps, Live({a}, {}, [], [], Collecting, NOTHING, []).(caller := Unsubscribing(a)), Put);
      steps := Go(steps, Live({a}, {}, [], [a], Collecting, NOTHING, []), Subscribe(a));
      steps := Go(steps, Live({a}, {a}, [], [a], Collecting, NOTHING, []).(caller := Subscribing(a)), Put);
      steps := BothSidesSent(steps, {a}, {a}, a);
    } else {
      steps := Opened();
      steps := Go(steps, Live({}, {}, [], [], Collecting, NOTHING, []), Subscribe(a));
      steps := Go(steps, Live({}, {a}, [], [], Collecting, NOTHING, []).(caller := Subscribing(a)), Put);
      steps := Go(steps, Live({}, {a}, [a], [], Collecting, NOTHING, []), Unsubscribe(a));
      steps := Go(steps, Live({}, {}, [a], [], Collecting, NOTHING, []).(caller := Unsubscribing(a)), Put);
      steps := BothSidesSent(steps, {}, {}, a);
    }
    BothSidesServed(if addsFirst then {a} else {}, a, addsFirst);
  }

  lemma BothSidesServed(set0: set<string>, a: string, addsFirst: bool)
    ensures a in Serve(set0, [Message([a], [a])], addsFirst) <==> !addsFirst
  {
    assert [Message([a], [a])][..0] == [];
  }

  // ---------- a caller can hold the lock for ever ----------

  /** The caller waits for room in a full channel. */
  predicate Waits(s: State) {
    || (s.caller.Subscribing? && |s.subCh| >= CHANNEL_LEN)
    || (s.caller.Unsubscribing? && |s.unsubCh| >= CHANNEL_LEN)
  }

  /** No sender is there to make room. */
  predicate Stuck(s: State) {
    s.stream.None? && Waits(s)
  }

  /** Then nothing can move: a new stream must first take the lock to read its snapshot. */
  lemma StuckForever(s: State, step: Step)
    requires Stuck(s)
    ensures !Enabled(s, step)
  {
  }

  /**
   The steps that get the client stuck: a call that takes effect on a full channel while there is no stream,
   and the loss of the stream while a caller waits at a full channel.
   */
  predicate GetsStuck(s: State, step: Step) {
    match step
    case Subscribe(n) => s.stream.None? && n !in s.subscribed && |s.subCh| >= CHANNEL_LEN
    case Unsubscribe(n) => s.stream.None? && n in s.subscribed && |s.unsubCh| >= CHANNEL_LEN
    case Close => Waits(s)
    case _ => false
  }

  /** A run ends stuck exactly when its last step is one of those. */
  lemma StuckExactly(steps: seq<Step>)
    requires CanRun(INIT, steps)
    ensures Stuck(Run(INIT, steps)) <==>
      steps != [] && GetsStuck(Run(INIT, steps[..|steps| - 1]), steps[|steps| - 1])
  {
    if steps != [] {
      var s := Run(INIT, steps[..|steps| - 1]);
      if Stuck(s) {
        StuckForever(s, steps[|steps| - 1]);
      }
      StepStuck(s, steps[|steps| - 1]);
    }
  }

  lemma StepStuck(s: State, step: Step)
    requires !Stuck(s) && Enabled(s, step)
    ensures Stuck(Next(s, step)) <==> GetsStuck(s, step)
  {
  }

  /** And stuck is the only way to keep the lock for ever: any other caller can still be served. */
  lemma LockReleasedIff(before: seq<Step>)
    requires CanRun(INIT, before) && !Run(INIT, before).caller.NoCaller?
    ensures var s := Run(INIT, before);
      !Stuck(s) <==> exists steps :: CanRun(s, steps) && Run(s, steps).caller.NoCaller?
  {
    hide CanRun, Run, Enabled, Next;
    var s := Run(INIT, before);
    RunBounded(before);
    if Stuck(s) {
      forall steps | CanRun(s, steps) ensures Run(s, steps) == s {
        StuckStays(s, steps);
      }
    } else {
      var steps := Release(s);
    }
  }

  /** The channels hold no more than they have room for. */
  ghost predicate Bounded(s: State) {
    |s.subCh| <= CHANNEL_LEN && |s.unsubCh| <= CHANNEL_LEN
  }

  lemma {:induction false} RunBounded(steps: seq<Step>)
    requires CanRun(INIT, steps)
    ensures Bounded(Run(INIT, steps))
  {
    if steps != [] {
      RunBounded(steps[..|steps| - 1]);
    }
  }

  lemma StuckStays(s: State, steps: seq<Step>)
    requires Stuck(s) && CanRun(s, steps)
    ensures steps == [] && Run(s, steps) == s
    decreases |steps|
  {
    if steps != [] {
      StuckStays(s, steps[..|steps| - 1]);
      StuckForever(s, steps[|steps| - 1]);
    }
  }

  /** How the lock is released: the sender comes round to collecting, takes one name, and the caller puts its own. */
  lemma Release(s: State) returns (steps: seq<Step>)
    requires !s.caller.NoCaller? && !Stuck(s) && Bounded(s)
    ensures CanRun(s, steps) && Run(s, steps).caller.NoCaller?
  {
    hide CanRun, Run;
    NoSteps(s);
    steps := [];
    if !Waits(s) {
      steps := Further(s, [], Put);
      return;
    }
    if s.stream.value.phase.Greeting? {
      steps := Further(s, [], SnapshotSent);
    } else if s.stream.value.phase.Sending? {
      steps := Further(s, [], BatchSent);
    }
    steps := Further(s, steps, if s.caller.Subscribing? then TakeSub else TakeUnsub);
    steps := Further(s, steps, Put);
  }

  lemma NoSteps(s: State)
    ensures CanRun(s, []) && Run(s, []) == s
  {
  }

  lemma Further(s: State, steps: seq<Step>, step: Step) returns (more: seq<Step>)
    requires CanRun(s, steps) && Enabled(Run(s, steps), step)
    ensures CanRun(s, more) && Run(s, more) == Next(Run(s, steps), step)
  {
    hide Enabled, Next;
    more := steps + [step];
    assert more[..|steps|] == steps;
  }

  lemma RunFurther(steps: seq<Step>, step: Step)
    requires CanRun(INIT, steps) && Enabled(Run(INIT, steps), step)
    ensures CanRun(INIT, steps + [step]) && Run(INIT, steps + [step]) == Next(Run(INIT, steps), step)
  {
    hide Enabled, Next;
    assert (steps + [step])[..|steps|] == steps;
  }

  /** Names of increasing length, all different. */
  function Name(k: nat): (n: string)
    ensures |n| == k
  {
    seq(k, _ => 'a')
  }

  lemma SubscribedToo(steps: seq<Step>, n: string) returns (more: seq<Step>)
    requires CanRun(INIT, steps)
    requires var s := Run(INIT, steps); s.caller.NoCaller? && n !in s.subscribed && |s.subCh| < CHANNEL_LEN
    ensures more == steps + [Subscribe(n)] + [Put] && CanRun(INIT, more)
    ensures var s := Run(INIT, steps);
      Run(INIT, more) == s.(subscribed := s.subscribed + {n}, subCh := s.subCh + [n])
  {
    hide Run, CanRun;
    RunFurther(steps, Subscribe(n));
    RunFurther(steps + [Subscribe(n)], Put);
    more := steps + [Subscribe(n)] + [Put];
  }

  lemma {:induction false} FillChannel(k: nat, open: bool) returns (steps: seq<Step>)
    requires k <= CHANNEL_LEN
    ensures CanRun(INIT, steps)
    ensures var s := Run(INIT, steps);
      s.stream.Some? == open && s.caller.NoCaller? && |s.subCh| == k && forall n :: n in s.subscribed ==> |n| < k
    ensures !open ==> Open !in steps
  {
    hide Run, CanRun, Name;
    if k == 0 {
      StartRun();
      steps := [];
      if open {
        RunFurther([], Open);
        steps := [] + [Open];
      }
    } else {
      steps := FillChannel(k - 1, open);
      steps := SubscribedToo(steps, Name(k - 1));
    }
  }

  /**
   Seventeen subscriptions are enough: before the first stream is open, or while the sender of an open stream
   has not yet taken any and the stream is then lost.
   */
  lemma StuckReachable(open: bool) returns (steps: seq<Step>)
    ensures CanRun(INIT, steps) && Stuck(Run(INIT, steps)) && |Run(INIT, steps).subCh| == 16
    ensures if open then steps != [] && Run(INIT, steps[..|steps| - 1]).stream.Some? else Open !in steps
  {
    steps := FillChannel(CHANNEL_LEN, open);
    RunFurther(steps, Subscribe(Name(CHANNEL_LEN)));
    steps := steps + [Subscribe(Name(CHANNEL_LEN))];
    if open {
      RunFurther(steps, Close);
      assert (steps + [Close])[..|steps|] == steps;
      steps := steps + [Close];
    }
  }
}
