/** The theorems about whole runs of the request pipeline. */
module PipelineRuns {
  import opened Basics
  import opened Pipeline
  import opened PipelineSafety

  /**
   The replies handed out so far are the first ones decoded, each given to the request encoded at
   the same position; while the reader runs, the queue holds exactly the requests encoded next,
   short of at most the one the writer has encoded and not yet queued.
   */
  ghost predicate InOrder(x: Client) {
    && |x.handed| <= |x.replies| <= |x.handed| + 1
    && |x.handed| <= |x.wire|
    && (forall k :: 0 <= k < |x.handed| ==> x.handed[k] == (x.replies[k], x.wire[k]))
    && (!x.readerDone ==>
          var n := |x.handed| + |x.processing|;
          && n <= |x.wire| <= n + 1
          && x.processing == x.wire[|x.handed|..n]
          && (x.writer.Waiting? || x.writer.Filtering? ==> |x.wire| == n)
          && (x.writer.Encoded? || x.writer.Flushed? ==> |x.wire| == n + 1 && x.wire[n] == x.writer.req))
  }

  ghost predicate Sound(x: Client) {
    && InOrder(x)
    && |x.dropped| <= 1
    && (x.dropped != [] ==> x.quit && x.writer.Exited?)
    && (x.drained ==> x.quit && x.readerDone && x.writer.Exited?)
    && (x.relay.Busy? ==> !x.readerDone && |x.handed| == |x.replies| && 1 <= |x.relay.reqs| <= 2)
    && (x.writer.Encoded? ==> x.buffered > 0)
    && |x.pending| <= QUEUE_LEN && |x.processing| <= QUEUE_LEN
  }

  /** A reader that waits for room waits at a client that is there. */
  predicate Aimed(s: State, x: Client) {
    x.relay.Busy? && x.relay.waits ==> x.relay.to in s.clients
  }

  ghost predicate AllSound(s: State) {
    forall c :: c in s.clients ==> Sound(s.clients[c]) && Aimed(s, s.clients[c])
  }

  // ---------- the order of one connection ----------

  lemma MatchKeepsOrder(x: Client, step: Step)
    requires InOrder(x) && step.Handles? && LocalOk(x, step)
    ensures InOrder(Local(x, step))
  {
    var y := Local(x, step);
    assert x.processing[0] == x.wire[|x.handed|];
    assert y.processing == y.wire[|y.handed|..|y.handed| + |y.processing|];
  }

  lemma PushKeepsOrder(x: Client)
    requires InOrder(x) && x.writer.Flushed?
    ensures InOrder(x.(writer := Waiting, processing := x.processing + [x.writer.req]))
  {
    if !x.readerDone {
      var n := |x.handed| + |x.processing|;
      assert x.wire[|x.handed|..n + 1] == x.wire[|x.handed|..n] + [x.wire[n]];
    }
  }

  lemma EncodeKeepsOrder(x: Client, b: Fill)
    requires InOrder(x) && x.writer.Filtering?
    ensures InOrder(x.(writer := Encoded(x.writer.req), buffered := b, wire := x.wire + [x.writer.req]))
  {
    if !x.readerDone {
      var n := |x.handed| + |x.processing|;
      assert (x.wire + [x.writer.req])[|x.handed|..n] == x.wire[|x.handed|..n];
    }
  }

  lemma DecodeKeepsOrder(x: Client, reply: Reply)
    requires InOrder(x) && |x.replies| == |x.handed|
    ensures InOrder(x.(replies := x.replies + [reply]))
  {
  }

  predicate SameWork(v: Writer, w: Writer) {
    || v == w || w.Exited?
    || ((v.Waiting? || v.Filtering?) && (w.Waiting? || w.Filtering?))
    || (v.Encoded? && w == Flushed(v.req))
  }

  /** Steps that touch neither the connection nor the queue of awaited replies, unless the reader is gone. */
  lemma QuietKeepsOrder(x: Client, y: Client)
    requires InOrder(x) && y.handed == x.handed && y.replies == x.replies && y.wire == x.wire
    requires y.readerDone || (y.processing == x.processing && !x.readerDone)
    requires SameWork(x.writer, y.writer)
    ensures InOrder(y)
  {
  }

  lemma StepKeepsOrder(x: Client, step: Step)
    requires IsLocal(step) && LocalOk(x, step) && InOrder(x)
    ensures InOrder(Local(x, step))
  {
    hide InOrder;
    if step.Handles? {
      MatchKeepsOrder(x, step);
    } else if step.Encodes? {
      EncodeKeepsOrder(x, Filled(x.buffered, x.writer.req));
    } else if step.Pushes? {
      PushKeepsOrder(x);
    } else if step.Decodes? {
      DecodeKeepsOrder(x, step.reply);
    } else {
      QuietKeepsOrder(x, Local(x, step));
    }
  }

  // ---------- what every client keeps ----------

  lemma LocalKeepsSound(x: Client, step: Step)
    requires IsLocal(step) && LocalOk(x, step) && Sound(x)
    ensures Sound(Local(x, step))
  {
    StepKeepsOrder(x, step);
    HandedAtMost(x);
    hide InOrder;
    if step.Encodes? {
      FilledSome(x.buffered, x.writer.req);
    }
  }

  lemma HandedAtMost(x: Client)
    requires InOrder(x)
    ensures |x.handed| <= |x.replies| <= |x.handed| + 1
  {
  }

  lemma RelayKeepsSound(x: Client)
    requires Sound(x)
    ensures Sound(Relayed(x)) && (x.relay.Busy? ==> Sound(x.(relay := x.relay.(waits := true))))
  {
  }

  lemma QueueKeepsSound(x: Client, r: Req)
    requires Sound(x)
    ensures Sound(x.(sending := x.sending + [r]))
    ensures |x.pending| < QUEUE_LEN ==> Sound(x.(pending := x.pending + [r]))
  {
  }

  lemma LocalRelay(x: Client, step: Step)
    requires IsLocal(step) && LocalOk(x, step)
    ensures Local(x, step).relay == x.relay || !Local(x, step).relay.Busy? || !Local(x, step).relay.waits
  {
  }

  lemma StepKeepsSound(s: State, step: Step)
    requires AllSound(s) && Enabled(s, step)
    ensures AllSound(Next(s, step))
  {
    hide Sound, LocalOk, Local, Says, Issues;
    if IsLocal(step) {
      LocalKeepsSound(s.clients[step.c], step);
      LocalRelay(s.clients[step.c], step);
    } else if step.Connect? {
      NewIsSound(step.readonly);
    } else if step.Issue? {
      QueueKeepsSound(s.clients[step.c], step.r);
    } else if step.RelayChecks? {
      RelayKeepsSound(s.clients[step.c]);
    } else if step.RelayEnqueues? {
      var x := s.clients[step.c];
      RelayKeepsSound(x);
      var t := With(s, step.c, Relayed(x));
      QueueKeepsSound(t.clients[x.relay.to], x.relay.reqs[0]);
    }
  }

  lemma NewIsSound(r: Req)
    ensures Sound(NewClient(r))
  {
  }

  lemma {:induction false} RunKeeps(s: State, steps: seq<Step>)
    requires OnePlace(s) && AllSound(s) && CanRun(s, steps)
    ensures OnePlace(Run(s, steps)) && AllSound(Run(s, steps))
  {
    hide OnePlace, AllSound, Next, Enabled;
    if steps != [] {
      var init, last := steps[..|steps| - 1], steps[|steps| - 1];
      RunKeeps(s, init);
      StepKeepsOnePlace(Run(s, init), last);
      StepKeepsSound(Run(s, init), last);
    }
  }

  lemma InitKeeps()
    ensures OnePlace(INIT) && AllSound(INIT)
  {
    assert forall p :: At(INIT, p) == [];
  }

  ghost predicate Reachable(s: State) {
    exists steps :: CanRun(INIT, steps) && Run(INIT, steps) == s
  }

  lemma ReachableKeeps(s: State)
    requires Reachable(s)
    ensures OnePlace(s) && AllSound(s)
  {
    var steps :| CanRun(INIT, steps) && Run(INIT, steps) == s;
    InitKeeps();
    RunKeeps(INIT, steps);
  }

  /** In every reachable state the k-th reply decoded on a connection went to the k-th request encoded on it. */
  lemma NthReplyToNthRequest(s: State, c: ClientId, k: nat)
    requires Reachable(s) && c in s.clients && k < |s.clients[c].handed|
    ensures k < |s.clients[c].replies| && k < |s.clients[c].wire|
    ensures s.clients[c].handed[k] == (s.clients[c].replies[k], s.clients[c].wire[k])
  {
    hide OnePlace, Reachable;
    ReachableKeeps(s);
    assert Sound(s.clients[c]);
  }

  /** Every issued request is in one place only, and there only once; so none is answered twice. */
  lemma ExactlyOnePlace(s: State, r: Req)
    requires Reachable(s) && r in s.issued
    ensures exists p :: r in At(s, p) && (forall q :: r in At(s, q) ==> q == p) && multiset(At(s, p))[r] == 1
    ensures multiset(s.answered)[r] <= 1
  {
    hide Reachable;
    ReachableKeeps(s);
    var p :| r in At(s, p);
    OnceIn(At(s, p), r);
    if r in s.answered {
      assert r in At(s, Answered);
      OnceIn(At(s, Answered), r);
    }
  }

  lemma {:induction false} OnceIn<T>(q: seq<T>, r: T)
    requires Distinct(q) && r in q
    ensures multiset(q)[r] == 1
  {
    var i :| 0 <= i < |q| && q[i] == r;
    assert q == q[..i] + [q[i]] + q[i + 1..];
    assert r !in q[..i] && r !in q[i + 1..];
  }

  /** A request is dropped only by the writer of a client that has quit, and each drops one at most. */
  lemma DroppedOnlyOnQuit(s: State, c: ClientId, r: Req)
    requires Reachable(s) && r in At(s, Dropped(c))
    ensures c in s.clients && s.clients[c].quit && s.clients[c].dropped == [r]
  {
    hide OnePlace, Reachable;
    ReachableKeeps(s);
    assert Sound(s.clients[c]);
  }

  /** No queue holds more than 1024 requests, and callers wait only at a full one. */
  lemma QueueBounds(s: State, c: ClientId, i: nat)
    requires Reachable(s) && c in s.clients
    ensures |s.clients[c].pending| <= 1024 && |s.clients[c].processing| <= 1024
    ensures i < |s.clients[c].sending| ==> (Enabled(s, Enqueue(c, i)) <==> |s.clients[c].pending| < 1024)
    ensures s.clients[c].writer.Flushed? ==> (Enabled(s, Pushes(c)) <==> |s.clients[c].processing| < 1024)
  {
    hide OnePlace, Reachable;
    ReachableKeeps(s);
    assert Sound(s.clients[c]);
  }

  /** As long as no client has quit, every request is answered or on its way. */
  lemma NothingLostBeforeQuit(s: State, r: Req)
    requires Reachable(s) && r in s.issued
    requires forall c :: c in s.clients ==> !s.clients[c].quit
    ensures r in s.answered || exists c ::
      && c in s.clients && !s.clients[c].drained
      && (r in s.clients[c].sending || r in s.clients[c].pending
          || r in HeldBy(s.clients[c].writer) || r in s.clients[c].processing
          || r in HeldToRelay(s.clients[c].relay))
  {
    hide Reachable;
    ReachableKeeps(s);
    var p :| r in At(s, p);
    if p != Answered {
      assert p.c in s.clients && Sound(s.clients[p.c]);
    }
  }

  // ---------- shutting down ----------

  predicate IsStopped(x: Client) {
    x.readerDone && x.quit && x.writer.Exited?
  }

  predicate InQueues(x: Client, r: Req) {
    r in x.pending || r in x.processing
  }

  /** Reader and writer of client c are gone; only the drain can take requests out of its queues. */
  ghost predicate Stopped(s: State, c: ClientId) {
    c in s.clients && IsStopped(s.clients[c])
  }

  ghost predicate Queued(s: State, c: ClientId, r: Req) {
    c in s.clients && InQueues(s.clients[c], r)
  }

  lemma StoppedLocal(x: Client, step: Step, r: Req)
    requires IsLocal(step) && LocalOk(x, step) && IsStopped(x)
    ensures var y := Local(x, step);
      && IsStopped(y)
      && (InQueues(x, r) ==> InQueues(y, r) || r in Says(x, step))
      && (InQueues(x, r) && x.drained ==> InQueues(y, r))
      && (x.drained ==> y.drained)
      && (!x.drained && y.drained ==> !InQueues(y, r))
  {
  }

  lemma StoppedOther(s: State, step: Step, c: ClientId, r: Req)
    requires Enabled(s, step) && !IsLocal(step) && c in s.clients
    ensures var s' := Next(s, step);
      && s.answered <= s'.answered && c in s'.clients
      && (IsStopped(s.clients[c]) ==> IsStopped(s'.clients[c])) && s'.clients[c].drained == s.clients[c].drained
      && (InQueues(s.clients[c], r) ==> InQueues(s'.clients[c], r))
  {
    hide LocalOk, Local, Says, Issues;
  }

  /** One step at a stopped client: its queues lose a request only to an answer. */
  lemma StoppedStep(s: State, step: Step, c: ClientId, r: Req)
    requires Enabled(s, step) && Stopped(s, c)
    ensures var s' := Next(s, step);
      && Stopped(s', c) && s.answered <= s'.answered
      && (Queued(s, c, r) ==> Queued(s', c, r) || r in s'.answered)
      && (Queued(s, c, r) && s.clients[c].drained ==> Queued(s', c, r))
      && (s.clients[c].drained ==> s'.clients[c].drained)
      && (!s.clients[c].drained && s'.clients[c].drained ==> !Queued(s', c, r))
  {
    hide LocalOk, Local, Says, Issues;
    if IsLocal(step) {
      if step.c == c {
        StoppedLocal(s.clients[c], step, r);
      }
    } else {
      StoppedOther(s, step, c, r);
    }
  }

  /**
   Whatever is queued when reader and writer have stopped is answered by the time the drain
   has ended, in every run from there on.
   */
  lemma {:induction false} DrainAnswersAll(s: State, steps: seq<Step>, c: ClientId, r: Req)
    requires CanRun(s, steps) && Stopped(s, c) && !s.clients[c].drained && Queued(s, c, r)
    ensures var s' := Run(s, steps);
      && Stopped(s', c)
      && (r in s'.answered || (Queued(s', c, r) && !s'.clients[c].drained))
  {
    hide Queued, Next, Enabled;
    if steps != [] {
      var init, last := steps[..|steps| - 1], steps[|steps| - 1];
      DrainAnswersAll(s, init, c, r);
      StoppedStep(Run(s, init), last, c, r);
    }
  }

  /** A caller already past the quit check can enqueue after the drain; nothing takes that request out again. */
  lemma {:induction false} StrandedForever(s: State, steps: seq<Step>, c: ClientId, r: Req)
    requires CanRun(s, steps) && Stopped(s, c) && s.clients[c].drained && Queued(s, c, r)
    ensures var s' := Run(s, steps); Stopped(s', c) && s'.clients[c].drained && Queued(s', c, r)
  {
    hide Queued, Next, Enabled;
    if steps != [] {
      var init, last := steps[..|steps| - 1], steps[|steps| - 1];
      StrandedForever(s, init, c, r);
      StoppedStep(Run(s, init), last, c, r);
    }
  }

  // ---------- building runs with one client ----------

  /** A request that the filters let through. */
  function Plain(id: nat): Req {
    Req(id, false, [])
  }

  /** A state with one client. */
  function One(x: Client, answered: seq<Req>, issued: set<Req>): State {
    State(map[0 := x], answered, issued)
  }

  ghost predicate Reached(s: State, steps: seq<Step>) {
    CanRun(INIT, steps) && Run(INIT, steps) == s
  }

  lemma ReachedIs(s: State, steps: seq<Step>)
    requires Reached(s, steps)
    ensures Reachable(s)
  {
  }

  lemma Extend(s: State, steps: seq<Step>, step: Step) returns (s': State, steps': seq<Step>)
    requires Reached(s, steps) && Enabled(s, step)
    ensures s' == Next(s, step) && Reached(s', steps')
  {
    hide Next, Enabled;
    steps' := steps + [step];
    assert steps'[..|steps|] == steps;
    s' := Next(s, step);
  }

  /** One of the only client's own steps. */
  lemma Own(s: State, steps: seq<Step>, x: Client, step: Step) returns (s': State, steps': seq<Step>)
    requires Reached(s, steps) && s == One(x, s.answered, s.issued)
    requires IsLocal(step) && !step.Handles? && step.c == 0 && LocalOk(x, step)
    ensures s' == One(Local(x, step), s.answered + Says(x, step), s.issued) && Reached(s', steps')
  {
    hide Reached, LocalOk, Local, Says;
    s', steps' := Extend(s, steps, step);
    assert s'.clients == map[0 := Local(x, step)];
  }

  lemma Arrives(s: State, steps: seq<Step>, x: Client, r: Req) returns (s': State, steps': seq<Step>)
    requires Reached(s, steps) && s == One(x, s.answered, s.issued) && r !in s.issued && !x.quit
    ensures s' == One(x.(sending := x.sending + [r]), s.answered, s.issued + {r}) && Reached(s', steps')
  {
    hide Reached;
    s', steps' := Extend(s, steps, Issue(0, r));
    assert s'.clients == map[0 := x.(sending := x.sending + [r])];
  }

  lemma Connected() returns (s: State, steps: seq<Step>)
    ensures s == One(NewClient(Plain(1)), [], {Plain(1)}) && Reached(s, steps)
  {
    StartRun();
    s, steps := Extend(INIT, [], Connect(0, Plain(1)));
    assert s.clients == map[0 := NewClient(Plain(1))];
  }

  lemma StartRun()
    ensures Reached(INIT, [])
  {
  }

  /** Such a run exists: request 2 passes the check, the client shuts down and drains, and only then is it enqueued. */
  lemma StrandingRun() returns (s: State)
    ensures Reachable(s) && Stopped(s, 0) && s.clients[0].drained
    ensures Queued(s, 0, Plain(2)) && Plain(2) !in s.answered
  {
    hide Reached, Reachable, Queued, Stopped;
    var s1, t1 := Connected();
    var x1 := NewClient(Plain(1));
    var s2, t2 := Arrives(s1, t1, x1, Plain(2));
    var x2 := x1.(sending := [Plain(2)]);
    assert x1.sending + [Plain(2)] == [Plain(2)];
    s := StrandingRunQuits(s2, t2, x2);
  }

  lemma StrandingRunQuits(s2: State, t2: seq<Step>, x2: Client) returns (s: State)
    requires Reached(s2, t2) && s2 == One(x2, [], s2.issued)
    requires x2 == NewClient(Plain(1)).(sending := [Plain(2)])
    ensures Reachable(s) && Stopped(s, 0) && s.clients[0].drained
    ensures Queued(s, 0, Plain(2)) && Plain(2) !in s.answered
  {
    hide Reached, Reachable, Queued, Stopped;
    var s3, t3 := Own(s2, t2, x2, Quits(0));
    var x3 := x2.(quit := true);
    var s4, t4 := Own(s3, t3, x3, WriterQuits(0));
    var x4 := x3.(writer := Exited);
    var s5, t5 := Own(s4, t4, x4, ReaderExits(0));
    s := StrandingRunEnds(s5, t5, x4.(readerDone := true));
  }

  lemma StrandingRunEnds(s5: State, t5: seq<Step>, x5: Client) returns (s: State)
    requires Reached(s5, t5) && s5 == One(x5, [], s5.issued) && CanDrain(x5)
    requires x5.pending == [Plain(1)] && x5.processing == [] && x5.sending == [Plain(2)]
    ensures Reachable(s) && Stopped(s, 0) && s.clients[0].drained
    ensures Queued(s, 0, Plain(2)) && Plain(2) !in s.answered
  {
    hide Reached;
    var s6, t6 := Own(s5, t5, x5, DrainsPending(0));
    var x6 := x5.(pending := []);
    assert x5.pending[1..] == [];
    var s7, t7 := Own(s6, t6, x6, DrainEnds(0));
    var x7 := x6.(drained := true);
    var s8, t8 := Own(s7, t7, x7, Enqueue(0, 0));
    ReachedIs(s8, t8);
    assert Plain(2) in s8.clients[0].pending;
    s := s8;
  }
}
