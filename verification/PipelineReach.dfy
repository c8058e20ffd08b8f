/** Steps that the clients of the request pipeline can take, put together into runs that spare some of them. */
module PipelineReach {
  import opened Basics
  import opened Pipeline
  import opened PipelineSafety
  import opened PipelineRuns
  import opened PipelineLost

  /** A spared client loses no request: its reader and its drain rest, and its writer neither fails nor quits. */
  predicate Spares(step: Step, spared: set<ClientId>) {
    || step.IssueFails? || step.c !in spared
    || step.Quits? || step.RelayChecks? || step.RelayEnqueues?
    || step.WriterTakes? || step.FilterStops? || step.Encodes? || step.Flushes? || step.SkipsFlush?
    || step.Pushes?
  }

  ghost predicate AllSpare(steps: seq<Step>, spared: set<ClientId>) {
    forall k :: 0 <= k < |steps| ==> Spares(steps[k], spared)
  }

  ghost predicate CanReach(s: State, s': State, spared: set<ClientId>) {
    exists steps :: CanRun(s, steps) && Run(s, steps) == s' && AllSpare(steps, spared)
  }

  lemma Start(s: State, spared: set<ClientId>)
    ensures CanReach(s, s, spared)
  {
    assert CanRun(s, []) && Run(s, []) == s && AllSpare([], spared);
  }

  /** One more step. */
  lemma Act(o: State, s: State, step: Step, spared: set<ClientId>) returns (s': State)
    requires AllSound(s) && CanReach(o, s, spared) && Enabled(s, step) && Spares(step, spared)
    ensures s' == Next(s, step) && AllSound(s') && CanReach(o, s', spared)
  {
    hide AllSound, Next, Enabled, Spares;
    StepKeepsSound(s, step);
    s' := Next(s, step);
    var steps :| CanRun(o, steps) && Run(o, steps) == s && AllSpare(steps, spared);
    var longer := steps + [step];
    assert longer[..|longer| - 1] == steps;
    assert CanRun(o, longer) && Run(o, longer) == s' && AllSpare(longer, spared);
  }

  /** One of a client's own steps. */
  lemma Do(o: State, s: State, step: Step, spared: set<ClientId>) returns (s': State)
    requires AllSound(s) && CanReach(o, s, spared) && Spares(step, spared)
    requires IsLocal(step) && !step.Handles? && step.c in s.clients && LocalOk(s.clients[step.c], step)
    ensures AllSound(s') && CanReach(o, s', spared)
    ensures s'.clients == s.clients[step.c := Local(s.clients[step.c], step)]
    ensures s'.answered == s.answered + Says(s.clients[step.c], step) && s'.issued == s.issued
  {
    hide AllSound, CanReach, LocalOk, Local, Says;
    s' := Act(o, s, step, spared);
  }

  // ---------- what a run leaves alone ----------

  /** The client is as before, except that it may have been told to quit. */
  ghost predicate Calm(s: State, s': State, c: ClientId) {
    && c in s.clients && c in s'.clients
    && s'.clients[c] == s.clients[c].(quit := s'.clients[c].quit)
  }

  /** Every client but one is as before, and what was answered still is. */
  ghost predicate Only(s: State, s': State, d: ClientId) {
    && (forall c :: c in s.clients && c != d ==> Calm(s, s', c))
    && (forall r :: r in s.answered ==> r in s'.answered)
  }

  lemma OnlyTrans(s: State, t: State, u: State, d: ClientId)
    requires Only(s, t, d) && Only(t, u, d)
    ensures Only(s, u, d)
  {
    forall c | c in s.clients && c != d ensures Calm(s, u, c) {
      assert Calm(s, t, c) && Calm(t, u, c);
    }
  }

  lemma OnlyOne(s: State, s': State, c: ClientId)
    requires c in s.clients && s'.clients.Keys == s.clients.Keys
    requires forall d :: d in s.clients && d != c ==> s'.clients[d] == s.clients[d]
    requires s.answered <= s'.answered
    ensures Only(s, s', c)
  {
    forall d | d in s.clients && d != c ensures Calm(s, s', d) {
    }
  }

  // ---------- a reader with something to send on ----------

  lemma QuitsAre(s: State, s': State, to: ClientId, c: ClientId)
    requires to in s.clients && c in s.clients && s'.answered == s.answered
    requires s'.clients == s.clients[to := s.clients[to].(quit := true)]
    ensures Only(s, s', c) && Calm(s, s', c)
  {
  }

  /** The target is closed, if it is there at all. */
  lemma CloseTarget(o: State, s: State, to: ClientId, c: ClientId, spared: set<ClientId>) returns (s': State)
    requires AllSound(s) && CanReach(o, s, spared) && c in s.clients
    ensures AllSound(s') && CanReach(o, s', spared)
    ensures !Open(s', to) && Only(s, s', c) && Calm(s, s', c)
  {
    hide AllSound, CanReach;
    s' := s;
    if to in s.clients {
      s' := Do(o, s, Quits(to), spared);
      QuitsAre(s, s', to, c);
    }
  }

  lemma CheckAnswers(s: State, c: ClientId)
    requires c in s.clients && s.clients[c].relay.Busy? && !s.clients[c].relay.waits
    requires s.clients[c].relay.reqs != [] && !Open(s, s.clients[c].relay.to)
    ensures Enabled(s, RelayChecks(c, false))
    ensures var s', relay := Next(s, RelayChecks(c, false)), s.clients[c].relay;
      && s'.clients == s.clients[c := s.clients[c].(relay := SentOn(relay))]
      && s'.answered == s.answered + [relay.reqs[0]] && Only(s, s', c)
  {
    hide LocalOk, Local, Says, Issues;
  }

  /** What is not past the quit check is answered once the target has quit. */
  lemma {:induction false} Resolve(o: State, s: State, c: ClientId, spared: set<ClientId>) returns (s': State)
    requires AllSound(s) && CanReach(o, s, spared) && c in s.clients && !WaitsToRelay(s.clients[c])
    ensures AllSound(s') && CanReach(o, s', spared) && Only(s, s', c)
    ensures c in s'.clients && s'.clients[c] == s.clients[c].(relay := Idle, quit := s'.clients[c].quit)
    ensures forall r :: r in HeldToRelay(s.clients[c].relay) ==> r in s'.answered
    decreases |HeldToRelay(s.clients[c].relay)|
  {
    hide AllSound, CanReach, Enabled, Next, Only, Open;
    var relay := s.clients[c].relay;
    if relay.Idle? {
      s' := s;
      OnlyOne(s, s, c);
    } else {
      BusyHas(s, c);
      var s1 := CloseTarget(o, s, relay.to, c, spared);
      CheckAnswers(s1, c);
      var s2 := Act(o, s1, RelayChecks(c, false), spared);
      OnlyTrans(s, s1, s2, c);
      s' := Resolve(o, s2, c, spared);
      OnlyTrans(s, s2, s', c);
      AnsweredStays(s2, s', c);
    }
  }

  lemma BusyHas(s: State, c: ClientId)
    requires AllSound(s) && c in s.clients && s.clients[c].relay.Busy?
    ensures 1 <= |s.clients[c].relay.reqs| <= 2 && !s.clients[c].readerDone
    ensures |s.clients[c].handed| == |s.clients[c].replies|
    ensures WaitsToRelay(s.clients[c]) ==> s.clients[c].relay.to in s.clients
  {
  }

  lemma AnsweredStays(s: State, s': State, c: ClientId)
    requires Only(s, s', c)
    ensures forall r :: r in s.answered ==> r in s'.answered
  {
  }

  // ---------- the writer ----------

  lemma Move(o: State, s: State, c: ClientId, step: Step, spared: set<ClientId>) returns (s': State)
    requires AllSound(s) && CanReach(o, s, spared) && Spares(step, spared)
    requires IsLocal(step) && !step.Handles? && step.c == c && c in s.clients && LocalOk(s.clients[c], step)
    ensures AllSound(s') && CanReach(o, s', spared) && Only(s, s', c) && s'.issued == s.issued
    ensures c in s'.clients && s'.clients[c] == Local(s.clients[c], step)
    ensures forall r :: r in Says(s.clients[c], step) ==> r in s'.answered
  {
    hide AllSound, CanReach, LocalOk, Local, Says, Only;
    s' := Do(o, s, step, spared);
    OnlyOne(s, s', c);
  }

  /** The writer can get what it holds past the flush: it need not write to a closed connection. */
  predicate CanFlush(x: Client) {
    HoldsOn(x.writer) && !Fails(x) && (x.writer.Flushed? || !x.closed || x.pending != [])
  }

  /** A request that the filters let through is brought past the flush. */
  lemma ToFlushed(o: State, s: State, c: ClientId, spared: set<ClientId>) returns (s': State)
    requires AllSound(s) && CanReach(o, s, spared) && c in s.clients && CanFlush(s.clients[c])
    ensures AllSound(s') && CanReach(o, s', spared) && Only(s, s', c) && c in s'.clients
    ensures var x, y := s.clients[c], s'.clients[c];
      y == x.(writer := Flushed(x.writer.req), buffered := y.buffered, wire := y.wire)
  {
    hide AllSound, CanReach, Only;
    OnlyOne(s, s, c);
    s' := s;
    if s.clients[c].writer.Filtering? {
      s' := Move(o, s, c, Encodes(c), spared);
    }
    if s'.clients[c].writer.Encoded? {
      var t := s';
      s' := Move(o, t, c, if t.clients[c].pending == [] then Flushes(c) else SkipsFlush(c), spared);
      OnlyTrans(s, t, s', c);
    }
  }

  lemma LetGo(o: State, s: State, c: ClientId, spared: set<ClientId>) returns (s': State)
    requires AllSound(s) && CanReach(o, s, spared) && c in s.clients && CanFlush(s.clients[c])
    requires !Full(s.clients[c].processing)
    ensures AllSound(s') && CanReach(o, s', spared) && Only(s, s', c) && c in s'.clients
    ensures var x, y := s.clients[c], s'.clients[c];
      y == x.(writer := Waiting, processing := x.processing + [x.writer.req], buffered := y.buffered, wire := y.wire)
  {
    hide AllSound, CanReach, Only;
    var t := ToFlushed(o, s, c, spared);
    s' := Move(o, t, c, Pushes(c), spared);
    OnlyTrans(s, t, s', c);
  }

  /** The writer gets to its next request: there is room for the one it holds, if that has to be queued. */
  lemma WriterTurn(o: State, s: State, c: ClientId, spared: set<ClientId>) returns (s': State)
    requires AllSound(s) && CanReach(o, s, spared) && c in s.clients && s.clients[c].pending != []
    requires !s.clients[c].writer.Exited? && !Fails(s.clients[c])
    requires !(HoldsOn(s.clients[c].writer) && Full(s.clients[c].processing))
    ensures AllSound(s') && CanReach(o, s', spared) && Only(s, s', c) && c in s'.clients
    ensures s'.clients[c].pending == s.clients[c].pending[1..] && s'.clients[c].relay == s.clients[c].relay
  {
    hide AllSound, CanReach, Only;
    OnlyOne(s, s, c);
    s' := s;
    if HoldsOn(s.clients[c].writer) {
      s' := LetGo(o, s, c, spared);
    } else if s.clients[c].writer.Filtering? {
      s' := Move(o, s, c, FilterStops(c), spared);
    }
    var t := s';
    s' := Move(o, t, c, WriterTakes(c), spared);
    OnlyTrans(s, t, s', c);
  }

  lemma EncodedSome(s: State, c: ClientId)
    requires AllSound(s) && c in s.clients && s.clients[c].writer.Encoded?
    ensures s.clients[c].buffered > 0
  {
    assert Sound(s.clients[c]);
  }

  /** The writer has to write to a closed connection; what it holds is answered. */
  lemma WriterFails(o: State, s: State, c: ClientId, spared: set<ClientId>) returns (s': State)
    requires AllSound(s) && CanReach(o, s, spared) && c in s.clients && c !in spared
    requires HoldsOn(s.clients[c].writer) && !CanFlush(s.clients[c])
    ensures AllSound(s') && CanReach(o, s', spared) && Only(s, s', c) && c in s'.clients
    ensures s.clients[c].writer.req in s'.answered
    ensures var x, y := s.clients[c], s'.clients[c];
      y == x.(writer := Exited, buffered := y.buffered, wire := y.wire)
  {
    hide AllSound, CanReach, Only;
    OnlyOne(s, s, c);
    if Fails(s.clients[c]) {
      s' := Move(o, s, c, EncodeFails(c), spared);
    } else {
      var t := s;
      if s.clients[c].writer.Filtering? {
        t := Move(o, s, c, Encodes(c), spared);
      }
      EncodedSome(t, c);
      s' := Move(o, t, c, FlushFails(c), spared);
      OnlyTrans(s, t, s', c);
    }
  }

  lemma WriterOut(o: State, s: State, c: ClientId, spared: set<ClientId>) returns (s': State)
    requires AllSound(s) && CanReach(o, s, spared) && c in s.clients && c !in spared && s.clients[c].quit
    ensures AllSound(s') && CanReach(o, s', spared) && Only(s, s', c) && c in s'.clients
    ensures var x, y := s.clients[c], s'.clients[c];
      y == x.(writer := Exited, buffered := y.buffered, wire := y.wire, dropped := y.dropped)
  {
    hide AllSound, CanReach, Only;
    OnlyOne(s, s, c);
    s' := s;
    if CanFlush(s.clients[c]) {
      var t := ToFlushed(o, s, c, spared);
      s' := Move(o, t, c, WriterDrops(c), spared);
      OnlyTrans(s, t, s', c);
    } else if HoldsOn(s.clients[c].writer) {
      s' := WriterFails(o, s, c, spared);
    } else if !s.clients[c].writer.Exited? {
      if s.clients[c].writer.Filtering? {
        s' := Move(o, s, c, FilterStops(c), spared);
      }
      var t := s';
      s' := Move(o, t, c, WriterQuits(c), spared);
      OnlyTrans(s, t, s', c);
    }
  }

  // ---------- the reader ----------

  lemma {:induction false} FreshReq(issued: set<Req>) returns (a: Req)
    ensures !a.stops && forall r :: r in issued ==> r.id < a.id
  {
    if issued == {} {
      a := Plain(0);
    } else {
      var q :| q in issued;
      var b := FreshReq(issued - {q});
      a := if b.id <= q.id then Plain(q.id + 1) else b;
      forall r | r in issued ensures r.id < a.id {
        assert r == q || r in issued - {q};
      }
    }
  }

  lemma HandlesAre(s: State, c: ClientId, a: Req)
    requires c in s.clients && Matching(s.clients[c]) && s.clients[c].processing != [] && !a.stops && a !in s.issued
    ensures Enabled(s, Handles(c, a))
    ensures var s', x := Next(s, Handles(c, a)), s.clients[c];
      var reply := x.replies[|x.handed|];
      && s'.clients == s.clients[c := s'.clients[c]] && Only(s, s', c) && !WaitsToRelay(s'.clients[c])
      && s'.clients[c] == x.(processing := x.processing[1..], handed := x.handed + [(reply, x.processing[0])],
                             relay := s'.clients[c].relay)
      && (x.processing[0] in s'.answered || x.processing[0] in HeldToRelay(s'.clients[c].relay))
  {
    var x := s.clients[c];
    var s' := Next(s, Handles(c, a));
    OnlyOne(s, s', c);
    match x.replies[|x.handed|]
    case Final(_) => assert x.processing[0] in s'.answered;
    case Moved(_, _) => assert x.processing[0] == s'.clients[c].relay.reqs[0];
    case Ask(_, _) => assert x.processing[0] == s'.clients[c].relay.reqs[1];
  }

  /** The reader gives its reply to the first request, which is answered at once or after a refused redirection. */
  lemma HandleOne(o: State, s: State, c: ClientId, spared: set<ClientId>) returns (s': State)
    requires AllSound(s) && CanReach(o, s, spared) && c in s.clients && c !in spared
    requires Matching(s.clients[c]) && s.clients[c].processing != []
    ensures AllSound(s') && CanReach(o, s', spared) && Only(s, s', c) && c in s'.clients
    ensures var x, y := s.clients[c], s'.clients[c];
      && y == x.(processing := x.processing[1..], handed := y.handed, quit := y.quit)
      && AtConnection(y) && x.processing[0] in s'.answered
  {
    hide AllSound, CanReach, Only, Enabled, Next;
    var a := FreshReq(s.issued);
    HandlesAre(s, c, a);
    var t := Act(o, s, Handles(c, a), spared);
    MatchedAll(s, c);
    s' := Resolve(o, t, c, spared);
    AnsweredStays(t, s', c);
    OnlyTrans(s, t, s', c);
  }

  lemma MatchedAll(s: State, c: ClientId)
    requires AllSound(s) && c in s.clients
    ensures |s.clients[c].handed| <= |s.clients[c].replies| <= |s.clients[c].handed| + 1
  {
    assert Sound(s.clients[c]);
  }

  lemma ReaderOut(o: State, s: State, c: ClientId, spared: set<ClientId>) returns (s': State)
    requires AllSound(s) && CanReach(o, s, spared) && c in s.clients && c !in spared
    requires s.clients[c].relay.Idle? && (Matching(s.clients[c]) ==> s.clients[c].processing != [])
    ensures AllSound(s') && CanReach(o, s', spared) && Only(s, s', c) && c in s'.clients
    ensures var x, y := s.clients[c], s'.clients[c];
      && y == x.(readerDone := true, processing := y.processing, handed := y.handed, quit := y.quit)
      && forall r :: r in x.processing ==> r in y.processing || r in s'.answered
  {
    hide AllSound, CanReach, Only;
    OnlyOne(s, s, c);
    MatchedAll(s, c);
    s' := s;
    if Matching(s.clients[c]) {
      s' := HandleOne(o, s, c, spared);
    }
    if !s'.clients[c].readerDone {
      var t := s';
      s' := Move(o, t, c, ReaderExits(c), spared);
      AnsweredStays(t, s', c);
      OnlyTrans(s, t, s', c);
    }
  }

  /** A client whose reader is free can be brought to its drain. */
  lemma ToDrain(o: State, s: State, c: ClientId, spared: set<ClientId>) returns (s': State)
    requires AllSound(s) && CanReach(o, s, spared) && c in s.clients && c !in spared && !s.clients[c].drained
    requires s.clients[c].relay.Idle? && (Matching(s.clients[c]) ==> s.clients[c].processing != [])
    ensures AllSound(s') && CanReach(o, s', spared) && Only(s, s', c) && c in s'.clients
    ensures var x, y := s.clients[c], s'.clients[c];
      && CanDrain(y) && y.pending == x.pending && y.sending == x.sending && y.relay.Idle?
      && forall r :: r in x.processing ==> r in y.processing || r in s'.answered
  {
    hide AllSound, CanReach, Only;
    var t := ReaderOut(o, s, c, spared);
    var u := Move(o, t, c, Quits(c), spared);
    OnlyTrans(s, t, u, c);
    AnsweredStays(t, u, c);
    s' := WriterOut(o, u, c, spared);
    OnlyTrans(s, u, s', c);
    AnsweredStays(u, s', c);
  }
}
