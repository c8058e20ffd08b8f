/** Runs of the request pipeline that end with requests lost. */
module PipelineStalls {
  import opened Basics
  import opened Pipeline
  import opened PipelineSafety
  import opened PipelineRuns
  import opened PipelineLost
  import opened PipelineReach

  // ---------- filling the queues of one client ----------

  /** The only client is up, and its reader has had no reply. */
  ghost predicate Up(s: State, x: Client) {
    && s == One(x, s.answered, s.issued)
    && x.sending == [] && x.relay.Idle? && !x.readerDone && !x.quit && !x.closed && !x.drained
    && x.replies == [] && x.handed == []
  }

  /** A request arrives and is enqueued. */
  lemma Joins(s: State, steps: seq<Step>, x: Client) returns (s': State, steps': seq<Step>, y: Client, a: Req)
    requires Reached(s, steps) && s == One(x, s.answered, s.issued)
    requires x.sending == [] && !x.quit && |x.pending| < QUEUE_LEN
    ensures Reached(s', steps') && s' == One(y, s.answered, s'.issued)
    ensures y == x.(pending := x.pending + [a]) && !a.stops && a !in s.issued
  {
    hide Reached;
    a := FreshReq(s.issued);
    var t, ts := Arrives(s, steps, x, a);
    var z := x.(sending := [a]);
    assert x.sending + [a] == [a];
    s', steps' := Own(t, ts, z, Enqueue(0, 0));
    assert Drop([a], 0) == [];
    y := x.(pending := x.pending + [a]);
    assert Local(z, Enqueue(0, 0)) == y;
  }

  /** The writer takes its only request past the flush. */
  lemma Writes(s: State, steps: seq<Step>, x: Client, a: Req) returns (s': State, steps': seq<Step>, y: Client)
    requires Reached(s, steps) && s == One(x, s.answered, s.issued)
    requires x.writer.Waiting? && x.pending == [a] && !a.stops && !x.closed
    ensures Reached(s', steps') && s' == One(y, s.answered, s.issued)
    ensures y == x.(pending := [], writer := Flushed(a), buffered := 0, wire := y.wire)
  {
    hide Reached, Filled, Spills;
    var s1, t1 := Own(s, steps, x, WriterTakes(0));
    var x1 := x.(pending := [], writer := Filtering(a));
    assert Local(x, WriterTakes(0)) == x1;
    var s2, t2 := Own(s1, t1, x1, Encodes(0));
    var x2 := Local(x1, Encodes(0));
    s', steps' := Own(s2, t2, x2, Flushes(0));
    y := Local(x2, Flushes(0));
  }

  lemma {:induction false} FillProcessing(k: nat) returns (s: State, steps: seq<Step>, x: Client)
    requires 1 <= k <= QUEUE_LEN
    ensures Reached(s, steps) && Up(s, x) && s.answered == []
    ensures x.writer.Waiting? && x.pending == [] && |x.processing| == k
  {
    hide Reached;
    if k == 1 {
      s, steps := Connected();
      x := s.clients[0];
      s, steps, x := Writes(s, steps, x, Plain(1));
    } else {
      s, steps, x := FillProcessing(k - 1);
      var a: Req;
      s, steps, x, a := Joins(s, steps, x);
      s, steps, x := Writes(s, steps, x, a);
    }
    s, steps := Own(s, steps, x, Pushes(0));
    x := Local(x, Pushes(0));
  }

  lemma {:induction false} FillPending(s: State, steps: seq<Step>, x: Client, k: nat)
    returns (s': State, steps': seq<Step>, y: Client)
    requires Reached(s, steps) && s == One(x, s.answered, s.issued) && x.sending == [] && !x.quit
    requires |x.pending| + k <= QUEUE_LEN && forall q :: q in x.pending ==> !q.stops
    ensures Reached(s', steps') && s' == One(y, s.answered, s'.issued)
    ensures y == x.(pending := y.pending) && |y.pending| == |x.pending| + k && forall q :: q in y.pending ==> !q.stops
    decreases k
  {
    hide Reached;
    s', steps', y := s, steps, x;
    if k > 0 {
      var a: Req;
      s', steps', y, a := Joins(s, steps, x);
      s', steps', y := FillPending(s', steps', y, k - 1);
    }
  }

  // ---------- a request held too late ----------

  /** A full processing queue, and the writer past the flush of one request more. */
  lemma Saturated() returns (s: State, steps: seq<Step>, x: Client, a: Req)
    ensures Reached(s, steps) && Up(s, x) && s.answered == []
    ensures x.writer == Flushed(a) && x.pending == [] && |x.processing| == QUEUE_LEN
  {
    hide Reached;
    s, steps, x := FillProcessing(QUEUE_LEN);
    s, steps, x, a := Joins(s, steps, x);
    s, steps, x := Writes(s, steps, x, a);
  }

  /** The connection breaks while the writer waits with a flushed request for room among the awaited replies. */
  lemma LateHeldRun() returns (s: State, a: Req)
    ensures Reachable(s) && 0 in s.clients && Lost(s, a)
    ensures s.clients[0].writer == Flushed(a) && s.clients[0].readerDone && !s.clients[0].quit
  {
    hide Reached, Reachable;
    var t, steps, x, b := Saturated();
    var steps': seq<Step>;
    s, steps' := Own(t, steps, x, ReaderExits(0));
    a := b;
    ReachedIs(s, steps');
    assert LostHeld(s.clients[0], false, a);
    LostAt(s, {}, 0, a);
  }

  lemma LostAt(s: State, stuck: set<ClientId>, c: ClientId, r: Req)
    requires c in s.clients && Closed(s, stuck)
    requires LostHere(s.clients[c], c in stuck, r) || LostFront(s, c, stuck, r)
    ensures Lost(s, r)
  {
    assert LostTo(s, stuck, r);
  }

  // ---------- readers that wait for each other ----------

  /** Whoever waits for room at a client that is full and jammed never moves again, nor does what awaits its replies. */
  lemma StalledByJam(s: State, c: ClientId, r: Req)
    requires c in s.clients && WaitsToRelay(s.clients[c]) && s.clients[c].relay.to in s.clients
    requires Full(s.clients[s.clients[c].relay.to].pending) && Jammed(s.clients[s.clients[c].relay.to])
    requires r in s.clients[c].processing || IsFront(s.clients[c], r)
    ensures Lost(s, r)
  {
    assert WaitsInVain(s, c, {c});
    assert Closed(s, {c});
    if r in s.clients[c].processing {
      assert LostHere(s.clients[c], true, r);
    } else {
      assert LostFront(s, c, {c}, r);
    }
    LostAt(s, {c}, c, r);
  }

  /** The reader matches a redirection to its own backend with the first request. */
  lemma RedirectsToItself(s: State, steps: seq<Step>, x: Client) returns (s': State, steps': seq<Step>, y: Client)
    requires Reached(s, steps) && Up(s, x) && |x.processing| > 0
    ensures Reached(s', steps') && s' == One(y, s.answered, s'.issued)
    ensures y == x.(processing := x.processing[1..], replies := y.replies, handed := y.handed,
                    relay := Busy(0, [x.processing[0]], true))
  {
    hide Reached;
    var s1, t1 := Own(s, steps, x, Decodes(0, Moved(0, 0)));
    var x1 := x.(replies := [Moved(0, 0)]);
    assert Local(x, Decodes(0, Moved(0, 0))) == x1;
    s', steps', y := RelaysToItself(s1, t1, x1);
  }

  lemma RelaysToItself(s1: State, t1: seq<Step>, x1: Client) returns (s': State, steps': seq<Step>, y: Client)
    requires Reached(s1, t1) && s1 == One(x1, s1.answered, s1.issued) && !x1.quit
    requires Matching(x1) && x1.replies[|x1.handed|] == Moved(0, 0) && x1.processing != []
    ensures Reached(s', steps') && s' == One(y, s1.answered, s'.issued)
    ensures y == x1.(processing := x1.processing[1..], handed := y.handed, relay := Busy(0, [x1.processing[0]], true))
  {
    hide Reached;
    var a := FreshReq(s1.issued);
    var s2, t2 := Extend(s1, t1, Handles(0, a));
    var x2 := Local(x1, Handles(0, a));
    assert s2.clients == map[0 := x2];
    s', steps' := Extend(s2, t2, RelayChecks(0, false));
    y := x2.(relay := Busy(0, [x1.processing[0]], true));
    assert s'.clients == map[0 := y];
  }

  /** The writer queues what it holds and takes the next request, for which another one arrives. */
  lemma MovesUp(s: State, steps: seq<Step>, x: Client) returns (s': State, steps': seq<Step>, y: Client)
    requires Reached(s, steps) && s == One(x, s.answered, s.issued) && x.sending == [] && !x.quit
    requires x.writer.Flushed? && |x.processing| == QUEUE_LEN - 1
    requires |x.pending| == QUEUE_LEN && forall q :: q in x.pending ==> !q.stops
    ensures Reached(s', steps') && s' == One(y, s.answered, s'.issued)
    ensures y.relay == x.relay && !y.quit && HoldsOn(y.writer) && Full(y.processing) && Full(y.pending)
  {
    hide Reached;
    var s1, t1 := Own(s, steps, x, Pushes(0));
    var x1 := Local(x, Pushes(0));
    var s2, t2 := Own(s1, t1, x1, WriterTakes(0));
    var x2 := Local(x1, WriterTakes(0));
    assert !x.pending[0].stops;
    var a: Req;
    s', steps', y, a := Joins(s2, t2, x2);
  }

  /**
   With both queues of a client full, a redirection to the client itself stops it for ever: its reader waits for
   room that only its writer could make, and the writer waits for its reader. Nothing has quit or failed.
   */
  lemma SelfRedirectRun() returns (s: State, a: Req)
    ensures Reachable(s) && 0 in s.clients && Closed(s, {0}) && !s.clients[0].quit && s.answered == []
    ensures IsFront(s.clients[0], a) && Lost(s, a)
  {
    hide Reached, Reachable;
    var s1, t1, x1, b := Saturated();
    var s2, t2, x2 := FillPending(s1, t1, x1, QUEUE_LEN);
    var s3, t3, x3 := RedirectsToItself(s2, t2, x2);
    var s4, t4, x4 := MovesUp(s3, t3, x3);
    s, a := s4, x1.processing[0];
    ReachedIs(s, t4);
    StalledByItself(s, x4, a);
  }

  lemma StalledByItself(s: State, x: Client, a: Req)
    requires s == One(x, s.answered, s.issued) && x.relay == Busy(0, [a], true)
    requires HoldsOn(x.writer) && Full(x.processing) && Full(x.pending)
    ensures Closed(s, {0}) && IsFront(x, a) && Lost(s, a)
  {
    hide Gets, Filled;
    assert WaitsInVain(s, 0, {0});
    assert LostFront(s, 0, {0}, a);
    LostAt(s, {0}, 0, a);
  }

  // ---------- a reader left without a request ----------

  /**
   A reply arrives before its request is queued, the client is told to quit, and the writer drops the request.
   The reader then waits for ever with the reply in hand.
   */
  lemma JammingRun() returns (s: State, a: Req)
    ensures Reachable(s) && 0 in s.clients && Jammed(s.clients[0]) && s.clients[0].quit
    ensures a in s.clients[0].pending && Lost(s, a)
  {
    hide Reached, Reachable, Filled, Spills, Lost, Jammed;
    var s1, t1 := Connected();
    var s2, t2, x2 := Writes(s1, t1, NewClient(Plain(1)), Plain(1));
    var s3, t3 := Own(s2, t2, x2, Decodes(0, Final(0)));
    var x3 := x2.(replies := [Final(0)]);
    assert x2.replies + [Final(0)] == [Final(0)];
    s, a := QuitsUnmatched(s3, t3, x3);
  }

  lemma QuitsUnmatched(s3: State, t3: seq<Step>, x3: Client) returns (s: State, a: Req)
    requires Reached(s3, t3) && s3 == One(x3, [], s3.issued) && Matching(x3) && x3.writer.Flushed?
    requires x3.sending == [] && x3.pending == [] && x3.processing == [] && !x3.quit
    ensures Reachable(s) && 0 in s.clients && Jammed(s.clients[0]) && s.clients[0].quit
    ensures a in s.clients[0].pending && Lost(s, a)
  {
    hide Reached, Reachable, Filled, Spills, Lost;
    var s4, t4, x4, b := Joins(s3, t3, x3);
    var s5, t5 := Own(s4, t4, x4, Quits(0));
    var x5 := x4.(quit := true);
    var s6, t6 := Own(s5, t5, x5, WriterDrops(0));
    s, a := s6, b;
    ReachedIs(s, t6);
    JamLoses(s, 0, a);
  }

  lemma JamLoses(s: State, c: ClientId, r: Req)
    requires c in s.clients && Jammed(s.clients[c]) && r in s.clients[c].pending
    ensures Lost(s, r)
  {
    hide Reaches;
    var x := s.clients[c];
    var i :| 0 <= i < |x.pending| && x.pending[i] == r;
    assert LostPending(x, false, r);
    LostAt(s, {}, c, r);
  }
}
