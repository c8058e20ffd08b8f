/**
 Which requests of the pipeline can still be answered. From any reachable state the answer is exact: every
 request that is not lost.
 */
module PipelineFate {
  import opened Basics
  import opened Pipeline
  import opened PipelineSafety
  import opened PipelineRuns
  import opened PipelineLost
  import opened PipelineLostForever
  import opened PipelineReach
  import opened PipelineFree

  ghost predicate CanBeAnswered(s: State, r: Req) {
    exists steps :: CanRun(s, steps) && r in Run(s, steps).answered
  }

  lemma Done(o: State, s: State, spared: set<ClientId>, r: Req)
    requires CanReach(o, s, spared) && r in s.answered
    ensures CanBeAnswered(o, r)
  {
  }

  lemma SpareNone(o: State, s: State, spared: set<ClientId>)
    requires CanReach(o, s, spared)
    ensures CanReach(o, s, {})
  {
    var steps :| CanRun(o, steps) && Run(o, steps) == s && AllSpare(steps, spared);
    forall k | 0 <= k < |steps| ensures Spares(steps[k], {}) {
    }
  }

  // ---------- waiting for room ----------

  ghost predicate IsFrontAt(s: State, e: ClientId, d: ClientId, r: Req) {
    e in s.clients && IsFront(s.clients[e], r) && s.clients[e].relay.to == d
  }

  /** A caller or a reader waits for room in the client's pending queue. */
  ghost predicate Behind(s: State, d: ClientId, r: Req) {
    d in s.clients && (r in s.clients[d].sending || exists e :: IsFrontAt(s, e, d, r))
  }

  lemma BehindKept(s: State, s': State, d: ClientId, r: Req)
    requires Behind(s, d, r) && Only(s, s', d) && d in s'.clients
    requires s'.clients[d].sending == s.clients[d].sending && s'.clients[d].relay == s.clients[d].relay
    ensures Behind(s', d, r)
  {
    if r !in s.clients[d].sending {
      var e :| IsFrontAt(s, e, d, r);
      assert e == d || Calm(s, s', e);
      assert IsFrontAt(s', e, d, r);
    }
  }

  lemma RelayEnters(o: State, s: State, e: ClientId, d: ClientId, r: Req) returns (s': State)
    requires AllSound(s) && CanReach(o, s, {}) && d in s.clients && IsFrontAt(s, e, d, r) && !Full(s.clients[d].pending)
    ensures AllSound(s') && CanReach(o, s', {}) && d in s'.clients
    ensures var x, y := s.clients[d], s'.clients[d];
      y == x.(pending := x.pending + [r], relay := y.relay) && (x.relay.Idle? ==> y.relay.Idle?)
  {
    hide AllSound, CanReach, LocalOk, Local, Says, Issues;
    s' := Act(o, s, RelayEnqueues(e), {});
  }

  /** There is room, and the request enters the queue. */
  lemma Enter(o: State, s: State, d: ClientId, r: Req) returns (s': State)
    requires AllSound(s) && CanReach(o, s, {}) && Behind(s, d, r) && !Full(s.clients[d].pending)
    ensures AllSound(s') && CanReach(o, s', {}) && d in s'.clients
    ensures var x, y := s.clients[d], s'.clients[d];
      y == x.(pending := x.pending + [r], relay := y.relay, sending := y.sending) && (x.relay.Idle? ==> y.relay.Idle?)
  {
    hide AllSound, CanReach, IsFrontAt;
    if r in s.clients[d].sending {
      var i: nat :| i < |s.clients[d].sending| && s.clients[d].sending[i] == r;
      s' := Move(o, s, d, Enqueue(d, i), {});
    } else {
      var e :| IsFrontAt(s, e, d, r);
      s' := RelayEnters(o, s, e, d, r);
    }
  }

  // ---------- draining ----------

  lemma {:induction false} DrainFate(o: State, s: State, c: ClientId, r: Req)
    requires AllSound(s) && CanReach(o, s, {}) && c in s.clients && CanDrain(s.clients[c]) && Queued(s, c, r)
    ensures CanBeAnswered(o, r)
    decreases |s.clients[c].pending| + |s.clients[c].processing|
  {
    hide CanBeAnswered, AllSound, CanReach, Only;
    var x := s.clients[c];
    var step := if r in x.pending then DrainsPending(c) else DrainsProcessing(c);
    var t := Move(o, s, c, step, {});
    if r in Says(x, step) {
      Done(o, t, {}, r);
    } else {
      DrainFate(o, t, c, r);
    }
  }

  /** A client whose reader is free and can be matched, if it has a reply. */
  ghost predicate FreeAt(s: State, c: ClientId) {
    && c in s.clients && !s.clients[c].drained && s.clients[c].relay.Idle?
    && (Matching(s.clients[c]) ==> s.clients[c].processing != [])
  }

  lemma QueuedFate(o: State, s: State, c: ClientId, r: Req)
    requires AllSound(s) && CanReach(o, s, {}) && FreeAt(s, c) && Queued(s, c, r)
    ensures CanBeAnswered(o, r)
  {
    hide CanBeAnswered, AllSound, CanReach, Only;
    var t := ToDrain(o, s, c, {});
    if r in t.answered {
      Done(o, t, {}, r);
    } else {
      DrainFate(o, t, c, r);
    }
  }

  lemma BehindFate(o: State, s: State, c: ClientId, r: Req)
    requires AllSound(s) && CanReach(o, s, {}) && FreeAt(s, c) && Behind(s, c, r)
    ensures CanBeAnswered(o, r)
  {
    hide CanBeAnswered, AllSound, CanReach, Only, Behind;
    var t := ToDrain(o, s, c, {});
    BehindKept(s, t, c, r);
    if Full(t.clients[c].pending) {
      PendingBound(t, c);
      var u := Move(o, t, c, DrainsPending(c), {});
      BehindKept(t, u, c, r);
      t := u;
    }
    var u := Enter(o, t, c, r);
    assert r in u.clients[c].pending by { InLast(t.clients[c].pending, r); }
    DrainFate(o, u, c, r);
  }

  lemma InLast(q: seq<Req>, r: Req)
    ensures r in q + [r]
  {
  }

  // ---------- the writer's request ----------

  /** The reader makes room for one more awaited reply. */
  lemma MakeRoom(o: State, s: State, c: ClientId) returns (s': State)
    requires AllSound(s) && CanReach(o, s, {}) && c in s.clients && s.clients[c].relay.Idle?
    requires !s.clients[c].readerDone && s.clients[c].processing != []
    ensures AllSound(s') && CanReach(o, s', {}) && c in s'.clients && !Full(s'.clients[c].processing)
    ensures var x, y := s.clients[c], s'.clients[c];
      y == x.(processing := y.processing, replies := y.replies, handed := y.handed, quit := y.quit)
  {
    hide AllSound, CanReach, Only, Sound;
    MatchedAll(s, c);
    var t := s;
    if !Matching(s.clients[c]) {
      t := Move(o, s, c, Decodes(c, Final(0)), {});
    }
    ProcessingBound(t, c);
    s' := HandleOne(o, t, c, {});
  }

  lemma ProcessingBound(s: State, c: ClientId)
    requires AllSound(s) && c in s.clients
    ensures |s.clients[c].processing| <= QUEUE_LEN
  {
    assert Sound(s.clients[c]);
  }

  lemma HeldFate(o: State, s: State, c: ClientId, r: Req)
    requires AllSound(s) && CanReach(o, s, {}) && c in s.clients && r in HeldBy(s.clients[c].writer)
    requires s.clients[c].relay.Idle? && !s.clients[c].drained
    requires !(s.clients[c].readerDone && Full(s.clients[c].processing))
    ensures CanBeAnswered(o, r)
  {
    hide CanBeAnswered, AllSound, CanReach, Only;
    if CanFlush(s.clients[c]) {
      var t := s;
      if Full(s.clients[c].processing) {
        t := MakeRoom(o, s, c);
      }
      var u := LetGo(o, t, c, {});
      InLast(t.clients[c].processing, r);
      QueuedFate(o, u, c, r);
    } else {
      var t: State;
      if HoldsOn(s.clients[c].writer) {
        t := WriterFails(o, s, c, {});
      } else {
        t := Move(o, s, c, FilterStops(c), {});
      }
      Done(o, t, {}, r);
    }
  }

  // ---------- a reader that has a reply and no request ----------

  ghost predicate Starved(x: Client) {
    Unmatched(x) && !x.writer.Exited? && !Fails(x) && !x.drained
  }

  /** The writer, if the filters stop what it holds, is made to wait for the next request. */
  lemma Wait(o: State, s: State, c: ClientId) returns (s': State)
    requires AllSound(s) && CanReach(o, s, {}) && c in s.clients
    requires !s.clients[c].writer.Exited? && !HoldsOn(s.clients[c].writer)
    ensures AllSound(s') && CanReach(o, s', {}) && Only(s, s', c) && c in s'.clients
    ensures s'.clients[c] == s.clients[c].(writer := Waiting)
  {
    hide AllSound, CanReach, Only;
    OnlyOne(s, s, c);
    s' := s;
    if s.clients[c].writer.Filtering? {
      s' := Move(o, s, c, FilterStops(c), {});
    }
  }

  lemma PrefixTail(q: seq<Req>, i: nat)
    requires 0 < i <= |q|
    ensures q[..i][1..] == q[1..][..i - 1]
  {
  }

  /** The writer takes the next request and is not clogged by it. */
  lemma TakesOn(x: Client, c: ClientId, ahead: seq<Req>)
    requires Starved(x) && x.writer.Waiting? && !Clogged(x, ahead)
    requires x.pending != [] && ahead != [] && ahead[0] == x.pending[0]
    ensures var y := Local(x, WriterTakes(c)); Starved(y) && !Clogged(y, ahead[1..])
  {
  }

  lemma {:induction false} PumpFate(o: State, s: State, c: ClientId, r: Req, i: nat)
    requires AllSound(s) && CanReach(o, s, {}) && c in s.clients && Starved(s.clients[c])
    requires i < |s.clients[c].pending| && s.clients[c].pending[i] == r
    requires !Clogged(s.clients[c], s.clients[c].pending[..i])
    ensures CanBeAnswered(o, r)
    decreases |s.clients[c].pending|
  {
    hide CanBeAnswered, AllSound, CanReach, Only;
    if HoldsOn(s.clients[c].writer) {
      var t := LetGo(o, s, c, {});
      QueuedFate(o, t, c, r);
    } else {
      var t := Wait(o, s, c);
      var u := Move(o, t, c, WriterTakes(c), {});
      if i == 0 {
        HeldFate(o, u, c, r);
      } else {
        var x := t.clients[c];
        TakesOn(x, c, x.pending[..i]);
        PrefixTail(x.pending, i);
        PumpFate(o, u, c, r, i - 1);
      }
    }
  }

  lemma PumpBehind(o: State, s: State, c: ClientId, r: Req)
    requires AllSound(s) && CanReach(o, s, {}) && Behind(s, c, r) && Starved(s.clients[c])
    requires !Clogged(s.clients[c], s.clients[c].pending)
    ensures CanBeAnswered(o, r)
  {
    hide CanBeAnswered, AllSound, CanReach, Only;
    BehindThere(s, c, r);
    hide Behind;
    if Full(s.clients[c].pending) && HoldsOn(s.clients[c].writer) {
      var t := LetGo(o, s, c, {});
      BehindKept(s, t, c, r);
      BehindFate(o, t, c, r);
    } else {
      var t := s;
      if Full(s.clients[c].pending) {
        PendingBound(s, c);
        var u := Wait(o, s, c);
        TakesOn(u.clients[c], c, u.clients[c].pending);
        t := Move(o, u, c, WriterTakes(c), {});
        OnlyTrans(s, u, t, c);
        BehindKept(s, t, c, r);
      }
      var u := Enter(o, t, c, r);
      var i := |t.clients[c].pending|;
      assert u.clients[c].pending[..i] == t.clients[c].pending;
      PumpFate(o, u, c, r, i);
    }
  }

  lemma BehindThere(s: State, c: ClientId, r: Req)
    requires Behind(s, c, r)
    ensures c in s.clients
  {
  }

  // ---------- a client whose reader is free ----------

  /** The request is at the client, or waits to get there. */
  ghost predicate HomeAt(s: State, c: ClientId, r: Req) {
    c in s.clients && (Queued(s, c, r) || r in HeldBy(s.clients[c].writer) || Behind(s, c, r))
  }

  /** The writer of a client with an unmatched reader gets past what is ahead of the request. */
  ghost predicate Passable(x: Client, r: Req) {
    && (forall i :: 0 <= i < |x.pending| && x.pending[i] == r ==> !Clogged(x, x.pending[..i]))
    && (!InQueues(x, r) && r !in HeldBy(x.writer) ==> !Clogged(x, x.pending))
  }

  lemma HomeFate(o: State, s: State, c: ClientId, r: Req)
    requires AllSound(s) && CanReach(o, s, {}) && HomeAt(s, c, r) && Passable(s.clients[c], r)
    requires s.clients[c].relay.Idle? && !Shut(s.clients[c])
    requires r in HeldBy(s.clients[c].writer) ==> !(s.clients[c].readerDone && Full(s.clients[c].processing))
    ensures CanBeAnswered(o, r)
  {
    hide CanBeAnswered, AllSound, CanReach, Behind, Clogged;
    if r in HeldBy(s.clients[c].writer) {
      HeldFate(o, s, c, r);
    } else if FreeAt(s, c) {
      if Queued(s, c, r) {
        QueuedFate(o, s, c, r);
      } else {
        BehindFate(o, s, c, r);
      }
    } else if Queued(s, c, r) {
      var i: nat :| i < |s.clients[c].pending| && s.clients[c].pending[i] == r;
      PumpFate(o, s, c, r, i);
    } else {
      PumpBehind(o, s, c, r);
    }
  }

  // ---------- a request at a spared client ----------

  /** What a run that spares the client does not change there. */
  ghost predicate ReaderKept(s: State, s': State, c: ClientId) {
    && c in s.clients && c in s'.clients
    && s'.clients[c].readerDone == s.clients[c].readerDone && s'.clients[c].drained == s.clients[c].drained
    && s'.clients[c].handed == s.clients[c].handed && s'.clients[c].replies == s.clients[c].replies
  }

  lemma SparedLocal(x: Client, step: Step, c: ClientId, r: Req)
    requires IsLocal(step) && LocalOk(x, step) && step.c == c && Spares(step, {c})
    ensures var y := Local(x, step);
      && y.readerDone == x.readerDone && y.drained == x.drained && y.handed == x.handed && y.replies == x.replies
      && y.sending == x.sending && y.relay == x.relay
      && (r in x.pending || r in x.processing || r in HeldBy(x.writer) ==>
            r in y.pending || r in y.processing || r in HeldBy(y.writer) || r in Says(x, step))
  {
  }

  lemma HomeStepLocal(s: State, step: Step, c: ClientId, r: Req)
    requires AllSound(s) && Enabled(s, step) && IsLocal(step) && Spares(step, {c}) && HomeAt(s, c, r)
    ensures var s' := Next(s, step); ReaderKept(s, s', c) && (HomeAt(s', c, r) || r in s'.answered)
  {
    hide LocalOk, Local, Says, Issues, AllSound, Spares;
    var s' := Next(s, step);
    if step.c == c {
      SparedLocal(s.clients[c], step, c, r);
    }
    if exists e :: IsFrontAt(s, e, c, r) {
      var e :| IsFrontAt(s, e, c, r);
      StuckRelayOf(s, step, e);
      assert IsFrontAt(s', e, c, r);
    }
  }

  lemma HomeStepOther(s: State, step: Step, c: ClientId, r: Req)
    requires AllSound(s) && Enabled(s, step) && !IsLocal(step) && HomeAt(s, c, r)
    ensures var s' := Next(s, step); ReaderKept(s, s', c) && (HomeAt(s', c, r) || r in s'.answered)
  {
    hide AllSound, Next, Enabled, Behind, Queued;
    OtherKeeps(s, step, c, r);
    if Behind(s, c, r) {
      BehindStepOther(s, step, c, r);
    }
  }

  lemma OtherKeeps(s: State, step: Step, c: ClientId, r: Req)
    requires Enabled(s, step) && !IsLocal(step) && c in s.clients
    ensures var s' := Next(s, step);
      && ReaderKept(s, s', c) && s'.clients[c].writer == s.clients[c].writer
      && (Queued(s, c, r) ==> Queued(s', c, r))
      && (r in s.clients[c].sending ==> r in s'.clients[c].sending)
  {
    hide LocalOk, Local, Says, Issues;
  }

  lemma BehindStepOther(s: State, step: Step, c: ClientId, r: Req)
    requires Enabled(s, step) && !IsLocal(step) && Behind(s, c, r)
    ensures Behind(Next(s, step), c, r) || Queued(Next(s, step), c, r)
  {
    hide Enabled, Next;
    OtherKeeps(s, step, c, r);
    var s' := Next(s, step);
    if r !in s.clients[c].sending {
      var e :| IsFrontAt(s, e, c, r);
      if Relays(step, e) {
        FrontMoves(s, step, e, c, r);
      } else {
        FrontWaits(s, step, e);
        assert IsFrontAt(s', e, c, r);
      }
    }
  }

  lemma FrontMoves(s: State, step: Step, e: ClientId, c: ClientId, r: Req)
    requires Enabled(s, step) && IsFrontAt(s, e, c, r) && Relays(step, e) && c in s.clients
    ensures Queued(Next(s, step), c, r)
  {
    hide LocalOk, Local, Says, Issues;
    var p := Next(s, step).clients[c].pending;
    assert p[|p| - 1] == r;
  }

  lemma AnsweredGrows(s: State, step: Step)
    requires Enabled(s, step)
    ensures s.answered <= Next(s, step).answered
  {
    hide LocalOk, Local, Says, Issues;
  }

  lemma {:induction false} HomeRun(s: State, steps: seq<Step>, c: ClientId, r: Req)
    requires AllSound(s) && OnePlace(s) && CanRun(s, steps) && AllSpare(steps, {c}) && HomeAt(s, c, r)
    ensures var s' := Run(s, steps); ReaderKept(s, s', c) && (HomeAt(s', c, r) || r in s'.answered)
  {
    hide AllSound, OnePlace, Next, Enabled, HomeAt, Spares;
    if steps == [] {
      HomeThere(s, c, r);
    } else {
      var init, last := steps[..|steps| - 1], steps[|steps| - 1];
      var t := Run(s, init);
      HomeRun(s, init, c, r);
      RunKeeps(s, init);
      AnsweredGrows(t, last);
      if HomeAt(t, c, r) {
        if IsLocal(last) {
          HomeStepLocal(t, last, c, r);
        } else {
          HomeStepOther(t, last, c, r);
        }
      } else {
        KeptStep(t, last, c);
      }
    }
  }

  lemma HomeThere(s: State, c: ClientId, r: Req)
    requires HomeAt(s, c, r)
    ensures c in s.clients
  {
  }

  lemma KeptStep(s: State, step: Step, c: ClientId)
    requires Enabled(s, step) && Spares(step, {c}) && c in s.clients
    ensures ReaderKept(s, Next(s, step), c)
  {
    hide LocalOk, Local, Says, Issues, Enabled, Next;
    if IsLocal(step) {
      LocalElsewhere(s, step, c);
      if step.c == c {
        SparedLocal(s.clients[c], step, c, Plain(0));
      }
    } else {
      OtherKeeps(s, step, c, Plain(0));
    }
  }

  // ---------- clients outside every closed set ----------

  lemma FirstLink(s: State, c: ClientId)
    requires c in s.clients && !InClosed(s, c)
    ensures Chain(s, {}, c, c)
  {
  }

  /** At a client that is not shut and whose reader can be freed, only a request held too late is not answered. */
  lemma OpenFate(s: State, c: ClientId, r: Req)
    requires AllSound(s) && OnePlace(s) && HomeAt(s, c, r) && !InClosed(s, c)
    requires !Shut(s.clients[c]) && Passable(s.clients[c], r)
    requires r in HeldBy(s.clients[c].writer) ==> !(s.clients[c].readerDone && Full(s.clients[c].processing))
    ensures CanBeAnswered(s, r)
  {
    hide CanBeAnswered, AllSound, OnePlace, HomeAt, InClosed, Chain, Shut, Passable;
    HomeThere(s, c, r);
    Start(s, {});
    if s.clients[c].relay.Idle? {
      HomeFate(s, s, c, r);
    } else {
      BusyHas(s, c);
      FirstLink(s, c);
      Start(s, {c});
      var t := Free(s, s, {}, c, c);
      HomeReach(s, t, c, r);
      if r in t.answered {
        Done(s, t, {c}, r);
      } else {
        SpareNone(s, t, {c});
        ShutDrained(s.clients[c]);
        NotShut(t.clients[c], r);
        HomeFate(s, t, c, r);
      }
    }
  }

  lemma NotShut(x: Client, r: Req)
    requires !x.drained && |x.handed| == |x.replies|
    ensures !Shut(x) && Passable(x, r)
  {
  }

  lemma HomeReach(s: State, s': State, c: ClientId, r: Req)
    requires AllSound(s) && OnePlace(s) && CanReach(s, s', {c}) && HomeAt(s, c, r)
    ensures ReaderKept(s, s', c) && (HomeAt(s', c, r) || r in s'.answered)
  {
    hide AllSound, OnePlace, HomeAt;
    var steps :| CanRun(s, steps) && Run(s, steps) == s' && AllSpare(steps, {c});
    HomeRun(s, steps, c, r);
  }

  /** A request behind another one in the hands of a reader that can be freed. */
  lemma TailFate(s: State, c: ClientId, r: Req)
    requires AllSound(s) && c in s.clients && !InClosed(s, c)
    requires WaitsToRelay(s.clients[c]) && s.clients[c].relay.reqs != [] && r in s.clients[c].relay.reqs[1..]
    ensures CanBeAnswered(s, r)
  {
    hide CanBeAnswered, AllSound, InClosed, Chain, CanReach;
    FirstLink(s, c);
    Start(s, {c});
    var t := Free(s, s, {}, c, c);
    Done(s, t, {c}, r);
  }

  lemma UncheckedFate(s: State, c: ClientId, r: Req)
    requires AllSound(s) && c in s.clients && !WaitsToRelay(s.clients[c]) && r in HeldToRelay(s.clients[c].relay)
    ensures CanBeAnswered(s, r)
  {
    hide CanBeAnswered, AllSound, CanReach;
    Start(s, {});
    var t := Resolve(s, s, c, {});
    Done(s, t, {}, r);
  }

  // ---------- clients whose readers never move ----------

  /** The writer answers a request that the filters stop, that spills over the buffer, or that is flushed. */
  lemma HeldAtOnce(o: State, s: State, c: ClientId, r: Req)
    requires AllSound(s) && CanReach(o, s, {}) && c in s.clients
    requires s.clients[c].writer == Filtering(r) || s.clients[c].writer == Encoded(r)
    requires s.clients[c].pending == []
          || (s.clients[c].writer.Filtering? && (r.stops || Spills(s.clients[c].buffered, r)))
    ensures CanBeAnswered(o, r)
  {
    hide CanBeAnswered, AllSound, CanReach, Only;
    var x := s.clients[c];
    var t := s;
    if x.writer.Filtering? {
      var step := if r.stops then FilterStops(c) else if Spills(x.buffered, r) then EncodeFails(c) else Encodes(c);
      t := Move(o, s, c, step, {});
    }
    if t.clients[c].writer.Encoded? {
      EncodedSome(t, c);
      t := Move(o, t, c, FlushFails(c), {});
    }
    Done(o, t, {}, r);
  }

  function Stage(w: Writer): nat {
    match w
    case Waiting => 0
    case Flushed(_) => 1
    case Encoded(_) => 2
    case Filtering(_) => 3
    case Exited => 0
  }

  /** The writer's next step, unless it waits. */
  function Works(x: Client, c: ClientId): Step {
    if x.writer.Flushed? then Pushes(c)
    else if x.writer.Encoded? then SkipsFlush(c)
    else if x.writer.Filtering? && !x.writer.req.stops then Encodes(c)
    else FilterStops(c)
  }

  lemma WorkStep(x: Client, c: ClientId, ahead: seq<Req>, r: Req, last: bool)
    requires Stage(x.writer) > 0 && x.pending != [] && Reaches(x, ahead, r, last)
    ensures LocalOk(x, Works(x, c)) && Reaches(Local(x, Works(x, c)), ahead, r, last)
    ensures var y := Local(x, Works(x, c));
      && Stage(y.writer) < Stage(x.writer)
      && y.pending == x.pending && y.sending == x.sending && y.relay == x.relay
  {
    hide Gets, Spills, Filled;
    WorkReach(x, Works(x, c), ahead, r, last);
  }

  lemma {:induction false} ReachedFate(o: State, s: State, c: ClientId, r: Req, i: nat)
    requires AllSound(s) && CanReach(o, s, {}) && c in s.clients
    requires i < |s.clients[c].pending| && s.clients[c].pending[i] == r
    requires Reaches(s.clients[c], s.clients[c].pending[..i], r, i == |s.clients[c].pending| - 1)
    ensures CanBeAnswered(o, r)
    decreases |s.clients[c].pending|, Stage(s.clients[c].writer)
  {
    hide CanBeAnswered, AllSound, CanReach, Only, Reaches;
    var x := s.clients[c];
    ReachesIn(x, x.pending[..i], r, i == |x.pending| - 1);
    if x.writer.Waiting? {
      var t := Move(o, s, c, WriterTakes(c), {});
      if i == 0 {
        HeldAtOnce(o, t, c, r);
      } else {
        TakeReach(x, WriterTakes(c), x.pending[..i], r, i == |x.pending| - 1);
        PrefixTail(x.pending, i);
        ReachedFate(o, t, c, r, i - 1);
      }
    } else {
      WorkStep(x, c, x.pending[..i], r, i == |x.pending| - 1);
      var t := Move(o, s, c, Works(x, c), {});
      ReachedFate(o, t, c, r, i);
    }
  }

  lemma ReachesIn(x: Client, ahead: seq<Req>, r: Req, last: bool)
    requires Reaches(x, ahead, r, last)
    ensures !x.writer.Exited?
    ensures x.writer.Waiting? && ahead == [] ==> r.stops || Spills(x.buffered, r) || last
  {
  }

  lemma SameReach(x: Client, y: Client, ahead: seq<Req>, r: Req, last: bool)
    requires y == x.(sending := y.sending, pending := y.pending, relay := y.relay)
    ensures Reaches(x, ahead, r, last) == Reaches(y, ahead, r, last)
  {
    hide Gets;
  }

  lemma {:induction false} ReachedBehind(o: State, s: State, c: ClientId, r: Req)
    requires AllSound(s) && CanReach(o, s, {}) && Behind(s, c, r)
    requires Reaches(s.clients[c], s.clients[c].pending, r, true)
    ensures CanBeAnswered(o, r)
    decreases |s.clients[c].pending|, Stage(s.clients[c].writer)
  {
    hide CanBeAnswered, AllSound, CanReach, Only, Reaches;
    BehindThere(s, c, r);
    hide Behind;
    var x := s.clients[c];
    ReachesIn(x, x.pending, r, true);
    if !Full(x.pending) {
      var t := Enter(o, s, c, r);
      var y := t.clients[c];
      SameReach(x, y, x.pending, r, true);
      assert y.pending[..|x.pending|] == x.pending;
      ReachedFate(o, t, c, r, |x.pending|);
    } else {
      PendingBound(s, c);
      var step := if x.writer.Waiting? then WriterTakes(c) else Works(x, c);
      if x.writer.Waiting? {
        TakeReach(x, step, x.pending, r, true);
      } else {
        WorkStep(x, c, x.pending, r, true);
      }
      var t := Move(o, s, c, step, {});
      BehindKept(s, t, c, r);
      ReachedBehind(o, t, c, r);
    }
  }

  // ---------- the theorem ----------

  lemma NotLostTo(s: State, r: Req)
    requires !Lost(s, r)
    ensures forall c :: c in s.clients ==>
      !LostHere(s.clients[c], c in AllStuck(s), r) && !LostFront(s, c, AllStuck(s), r)
    ensures forall c :: c in s.clients && c !in AllStuck(s) ==> !InClosed(s, c)
  {
    hide LostHere, LostFront, Closed;
    AllStuckClosed(s);
    assert !LostTo(s, AllStuck(s), r);
  }

  lemma NotLostHere(s: State, c: ClientId, r: Req)
    requires !Lost(s, r) && c in s.clients
    ensures !LostHere(s.clients[c], c in AllStuck(s), r) && !LostFront(s, c, AllStuck(s), r)
    ensures c !in AllStuck(s) ==> !InClosed(s, c)
  {
    hide LostHere, LostFront, Lost, AllStuck, InClosed;
    NotLostTo(s, r);
  }

  lemma ProcessingFate(s: State, c: ClientId, r: Req)
    requires AllSound(s) && OnePlace(s) && !Lost(s, r) && c in s.clients && r in s.clients[c].processing
    ensures CanBeAnswered(s, r)
  {
    hide AllSound, OnePlace, Lost, CanBeAnswered, InClosed, AllStuck, Behind;
    hide LostPending, LostBehind, LostHeld, LostFront;
    NotLostHere(s, c, r);
    OnlyProcessing(s, c, r);
    OpenFate(s, c, r);
  }

  lemma OnlyProcessing(s: State, c: ClientId, r: Req)
    requires OnePlace(s) && c in s.clients && r in s.clients[c].processing
    ensures r !in HeldBy(s.clients[c].writer)
  {
    assert r in At(s, Processing(c));
    assert r in HeldBy(s.clients[c].writer) ==> r in At(s, Held(c));
  }

  lemma OnlyPending(s: State, c: ClientId, r: Req)
    requires OnePlace(s) && c in s.clients && r in s.clients[c].pending
    ensures r !in HeldBy(s.clients[c].writer)
  {
    assert r in At(s, Pending(c));
    assert r in HeldBy(s.clients[c].writer) ==> r in At(s, Held(c));
  }

  lemma PendingFate(s: State, c: ClientId, r: Req)
    requires AllSound(s) && OnePlace(s) && !Lost(s, r) && c in s.clients && r in s.clients[c].pending
    ensures CanBeAnswered(s, r)
  {
    hide AllSound, OnePlace, Lost, CanBeAnswered, InClosed, AllStuck, Behind, Reaches, Shut;
    hide LostBehind, LostHeld, LostFront;
    NotLostHere(s, c, r);
    OnlyPending(s, c, r);
    var x := s.clients[c];
    var i: nat :| i < |x.pending| && x.pending[i] == r;
    assert !(Shut(x) || (c in AllStuck(s) && !Reaches(x, x.pending[..i], r, i == |x.pending| - 1)));
    if c in AllStuck(s) {
      Start(s, {});
      ReachedFate(s, s, c, r, i);
    } else {
      OpenFate(s, c, r);
    }
  }

  /** For a request that waits for room, wherever it waits. */
  lemma WaitingFate(s: State, d: ClientId, r: Req)
    requires AllSound(s) && OnePlace(s) && !Lost(s, r) && Behind(s, d, r)
    requires r !in HeldBy(s.clients[d].writer) && r !in s.clients[d].pending
    requires !LostBehind(s.clients[d], d in AllStuck(s), r)
    ensures CanBeAnswered(s, r)
  {
    hide AllSound, OnePlace, Lost, CanBeAnswered, LostHere, InClosed, AllStuck, LostFront, Reaches, Shut;
    BehindThere(s, d, r);
    hide Behind;
    NotLostHere(s, d, r);
    if d in AllStuck(s) {
      Start(s, {});
      ReachedBehind(s, s, d, r);
    } else {
      OpenFate(s, d, r);
    }
  }

  lemma SendingFate(s: State, c: ClientId, r: Req)
    requires AllSound(s) && OnePlace(s) && !Lost(s, r) && c in s.clients && r in s.clients[c].sending
    ensures CanBeAnswered(s, r)
  {
    hide AllSound, Lost, CanBeAnswered, LostBehind, LostPending, LostHeld, InClosed, AllStuck, LostFront;
    NotLostHere(s, c, r);
    assert r in At(s, Sending(c));
    assert r in HeldBy(s.clients[c].writer) ==> r in At(s, Held(c));
    assert r in s.clients[c].pending ==> r in At(s, Pending(c));
    WaitingFate(s, c, r);
  }

  lemma RelayingFate(s: State, c: ClientId, r: Req)
    requires AllSound(s) && OnePlace(s) && !Lost(s, r) && c in s.clients && r in HeldToRelay(s.clients[c].relay)
    ensures CanBeAnswered(s, r)
  {
    hide AllSound, OnePlace, Lost, CanBeAnswered, LostBehind, LostPending, LostHeld, InClosed, AllStuck;
    var x := s.clients[c];
    NotLostHere(s, c, r);
    BusyHas(s, c);
    if !WaitsToRelay(x) {
      UncheckedFate(s, c, r);
    } else if x.relay.reqs[0] == r {
      assert IsFrontAt(s, c, x.relay.to, r);
      OnlyRelayed(s, c, x.relay.to, r);
      WaitingFate(s, x.relay.to, r);
    } else {
      TailFate(s, c, r);
    }
  }

  lemma OnlyRelayed(s: State, c: ClientId, d: ClientId, r: Req)
    requires OnePlace(s) && c in s.clients && d in s.clients && r in HeldToRelay(s.clients[c].relay)
    ensures r !in HeldBy(s.clients[d].writer) && r !in s.clients[d].pending
  {
    assert r in At(s, Relaying(c));
    assert r in HeldBy(s.clients[d].writer) ==> r in At(s, Held(d));
    assert r in s.clients[d].pending ==> r in At(s, Pending(d));
  }

  lemma WriterFate(s: State, c: ClientId, r: Req)
    requires AllSound(s) && OnePlace(s) && !Lost(s, r) && c in s.clients && r in HeldBy(s.clients[c].writer)
    ensures CanBeAnswered(s, r)
  {
    hide AllSound, OnePlace, Lost, CanBeAnswered, LostBehind, LostPending, InClosed, AllStuck, LostFront, Behind;
    NotLostHere(s, c, r);
    var x := s.clients[c];
    if !x.writer.Flushed? && (x.pending == [] || (x.writer.Filtering? && (r.stops || Spills(x.buffered, r)))) {
      Start(s, {});
      HeldAtOnce(s, s, c, r);
    } else {
      HeldNotShut(s, c);
      OpenFate(s, c, r);
    }
  }

  lemma HeldNotShut(s: State, c: ClientId)
    requires AllSound(s) && c in s.clients && !s.clients[c].writer.Exited? && !Fails(s.clients[c])
    ensures !Shut(s.clients[c])
  {
    assert Sound(s.clients[c]);
  }

  lemma LostNever(s: State, r: Req)
    requires OnePlace(s) && AllSound(s) && Lost(s, r)
    ensures !CanBeAnswered(s, r)
  {
    hide OnePlace, AllSound, Lost, CanRun, Run;
    forall steps | CanRun(s, steps) ensures r !in Run(s, steps).answered {
      LostForever(s, steps, r);
    }
  }

  /** In every reachable state a request can still be answered if and only if it is not lost. */
  lemma FateExactly(s: State, r: Req)
    requires Reachable(s) && r in s.issued
    ensures CanBeAnswered(s, r) <==> !Lost(s, r)
  {
    hide Reachable, CanBeAnswered, Lost, AllSound;
    ReachableKeeps(s);
    if Lost(s, r) {
      LostNever(s, r);
    } else {
      var p :| r in At(s, p);
      hide OnePlace;
      match p
      case Answered =>
        Start(s, {});
        Done(s, s, {}, r);
      case Sending(c) => SendingFate(s, c, r);
      case Pending(c) => PendingFate(s, c, r);
      case Held(c) => WriterFate(s, c, r);
      case Processing(c) => ProcessingFate(s, c, r);
      case Relaying(c) => RelayingFate(s, c, r);
      case Dropped(c) => DroppedLost(s, c, r);
    }
  }

  lemma DroppedLost(s: State, c: ClientId, r: Req)
    requires c in s.clients && r in s.clients[c].dropped
    ensures Lost(s, r)
  {
    assert Closed(s, {});
    assert LostHere(s.clients[c], c in {}, r);
    assert LostTo(s, {}, r);
  }
}
