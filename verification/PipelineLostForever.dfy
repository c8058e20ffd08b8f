/** What is lost in the request pipeline stays lost, in every run. */
module PipelineLostForever {
  import opened Basics
  import opened Pipeline
  import opened PipelineSafety
  import opened PipelineRuns
  import opened PipelineLost

  /** A request joins those that wait for room. */
  predicate Called(x: Client, y: Client) {
    y.sending != [] && y == x.(sending := x.sending + [y.sending[|y.sending| - 1]])
  }

  /** A request joins the pending queue. */
  predicate Queues(x: Client, y: Client) {
    && y.pending != [] && |x.pending| < QUEUE_LEN
    && y == x.(pending := x.pending + [y.pending[|y.pending| - 1]])
  }

  lemma CalledKeeps(x: Client, y: Client, stuck: bool, r: Req)
    requires Called(x, y)
    ensures NoRoom(x, stuck) ==> NoRoom(y, stuck)
    ensures LostBehind(x, stuck, r) ==> LostBehind(y, stuck, r)
    ensures LostHere(x, stuck, r) ==> LostHere(y, stuck, r)
  {
    hide Missed, LostPending;
    SameMissed(x, y, stuck, x.pending, r, true);
    if LostPending(x, stuck, r) {
      SendingAside(x, y.sending, stuck, r);
    }
  }

  lemma QueuesKeeps(x: Client, y: Client, stuck: bool, r: Req)
    requires Queues(x, y)
    ensures LostBehind(x, stuck, r) ==> LostBehind(y, stuck, r)
    ensures LostHere(x, stuck, r) ==> LostHere(y, stuck, r)
  {
    hide LostPending, LostBehind;
    var q := y.pending[|y.pending| - 1];
    if LostBehind(x, stuck, r) {
      QueueMore(x, q, stuck, r);
    }
    if LostPending(x, stuck, r) {
      PendingMore(x, q, stuck, r);
    }
  }

  /** What a step that is not a client's own does to a client that is not relaying. */
  lemma Nudged(s: State, step: Step, d: ClientId)
    requires Enabled(s, step) && !IsLocal(step) && d in s.clients
    requires (step.RelayChecks? || step.RelayEnqueues?) ==> step.c != d
    ensures var s' := Next(s, step);
      && d in s'.clients
      && (|| s'.clients[d] == s.clients[d] || Called(s.clients[d], s'.clients[d])
          || Queues(s.clients[d], s'.clients[d]))
  {
  }

  lemma LocalElsewhere(s: State, step: Step, d: ClientId)
    requires Enabled(s, step) && IsLocal(step) && d in s.clients
    ensures var s' := Next(s, step);
      && d in s'.clients
      && LocalOk(s.clients[step.c], step)
      && s'.clients[d] == if d == step.c then Local(s.clients[d], step) else s.clients[d]
  {
  }

  predicate Relays(step: Step, c: ClientId) {
    (step.RelayChecks? || step.RelayEnqueues?) && step.c == c
  }

  /** A reader of a closed set does not move. */
  lemma StuckStays(s: State, step: Step, stuck: set<ClientId>, c: ClientId)
    requires Enabled(s, step) && Closed(s, stuck) && c in stuck
    ensures !Relays(step, c) && c in Next(s, step).clients && Next(s, step).clients[c].relay == s.clients[c].relay
  {
    hide LocalOk, Local, Says, Issues, Closed;
    assert WaitsInVain(s, c, stuck) by { ClosedAt(s, stuck, c); }
    if IsLocal(step) {
      LocalElsewhere(s, step, c);
      StuckRelayOf(s, step, c);
    } else {
      Nudged(s, step, c);
    }
  }

  lemma ClosedAt(s: State, stuck: set<ClientId>, c: ClientId)
    requires Closed(s, stuck) && c in stuck
    ensures WaitsInVain(s, c, stuck)
  {
  }

  lemma StuckRelayOf(s: State, step: Step, c: ClientId)
    requires Enabled(s, step) && IsLocal(step) && c in s.clients && s.clients[c].relay.Busy?
    ensures c in Next(s, step).clients && Next(s, step).clients[c].relay == s.clients[c].relay
  {
    hide LocalOk, Local, Next, Enabled;
    LocalElsewhere(s, step, c);
    if step.c == c {
      StuckRelay(s.clients[c], step);
    }
  }

  lemma CutIsIdle(x: Client, ahead: seq<Req>)
    requires Sound(x) && Cut(x, ahead)
    ensures x.relay.Idle?
  {
    hide Clogs;
  }

  /** The client's pending queue stays full. */
  lemma NoRoomStays(s: State, step: Step, stuck: set<ClientId>, d: ClientId)
    requires AllSound(s) && Enabled(s, step) && Closed(s, stuck)
    requires d in s.clients && NoRoom(s.clients[d], d in stuck)
    ensures d in Next(s, step).clients && NoRoom(Next(s, step).clients[d], d in stuck)
  {
    hide LocalOk, Local, Says, Issues, Closed, Sound, Shut, NoRoom, WaitsInVain, Enabled, Next;
    var x := s.clients[d];
    NoRelaying(s, step, stuck, d);
    if IsLocal(step) {
      LocalElsewhere(s, step, d);
      if step.c == d {
        StuckWaits(s, stuck, d);
        NoRoomStep(x, step, d in stuck);
      }
    } else {
      NudgedFull(s, step, d, d in stuck);
    }
  }

  lemma StuckWaits(s: State, stuck: set<ClientId>, d: ClientId)
    requires Closed(s, stuck) && d in s.clients
    ensures d in stuck ==> WaitsToRelay(s.clients[d])
  {
  }

  lemma NoRelaying(s: State, step: Step, stuck: set<ClientId>, d: ClientId)
    requires AllSound(s) && Enabled(s, step) && Closed(s, stuck) && d in s.clients
    requires d in stuck || Cut(s.clients[d], s.clients[d].pending) || NoRoom(s.clients[d], false)
    ensures !Relays(step, d)
  {
    hide Sound, LocalOk, Local, Says, Issues;
    if d in stuck {
      StuckStays(s, step, stuck, d);
    } else {
      CutIsIdle(s.clients[d], s.clients[d].pending);
    }
  }

  lemma NudgedFull(s: State, step: Step, d: ClientId, stuck: bool)
    requires Enabled(s, step) && !IsLocal(step) && d in s.clients && !Relays(step, d) && NoRoom(s.clients[d], stuck)
    ensures d in Next(s, step).clients && NoRoom(Next(s, step).clients[d], stuck)
  {
    hide Next, Enabled;
    Nudged(s, step, d);
  }

  lemma ClosedStep(s: State, step: Step, stuck: set<ClientId>)
    requires AllSound(s) && Enabled(s, step) && Closed(s, stuck)
    ensures Closed(Next(s, step), stuck)
  {
    hide Next, Enabled, Sound, NoRoom;
    forall c | c in stuck ensures WaitsInVain(Next(s, step), c, stuck) {
      ClosedAt(s, stuck, c);
      StuckStays(s, step, stuck, c);
      NoRoomStays(s, step, stuck, s.clients[c].relay.to);
    }
  }

  /** What is lost while it waits for room stays lost, unless it enters the queue. */
  lemma BehindStays(s: State, step: Step, stuck: set<ClientId>, d: ClientId, r: Req)
    requires AllSound(s) && Enabled(s, step) && Closed(s, stuck)
    requires d in s.clients && LostBehind(s.clients[d], d in stuck, r)
    ensures !Relays(step, d) && d in Next(s, step).clients && LostBehind(Next(s, step).clients[d], d in stuck, r)
  {
    hide Closed, Sound, Reaches, Enabled, Next, LocalOk, Local, Cut;
    var x := s.clients[d];
    NoRelaying(s, step, stuck, d);
    if IsLocal(step) {
      LocalElsewhere(s, step, d);
      if step.c == d {
        StuckWaits(s, stuck, d);
        BehindStep(x, step, d in stuck, r);
      }
    } else {
      NudgedLost(s, step, d, d in stuck, r);
    }
  }

  lemma NudgedLost(s: State, step: Step, d: ClientId, stuck: bool, r: Req)
    requires Enabled(s, step) && !IsLocal(step) && d in s.clients && !Relays(step, d)
    ensures d in Next(s, step).clients
    ensures LostBehind(s.clients[d], stuck, r) ==> LostBehind(Next(s, step).clients[d], stuck, r)
    ensures LostHere(s.clients[d], stuck, r) ==> LostHere(Next(s, step).clients[d], stuck, r)
  {
    hide Next, Enabled, LostHere, LostBehind;
    Nudged(s, step, d);
    var x, y := s.clients[d], Next(s, step).clients[d];
    if Called(x, y) {
      CalledKeeps(x, y, stuck, r);
    } else if Queues(x, y) {
      QueuesKeeps(x, y, stuck, r);
    }
  }

  /** A reader that relays keeps what the writer dropped; nothing else can be lost at its client. */
  lemma RelayingLost(s: State, step: Step, c: ClientId, r: Req)
    requires Enabled(s, step) && c in s.clients && Relays(step, c) && Sound(s.clients[c])
    requires LostHere(s.clients[c], false, r)
    ensures c in Next(s, step).clients && LostHere(Next(s, step).clients[c], false, r)
  {
    hide InOrder, Reaches;
    assert r in s.clients[c].dropped;
  }

  lemma HereStays(s: State, step: Step, stuck: set<ClientId>, c: ClientId, r: Req)
    requires AllSound(s) && Enabled(s, step) && Closed(s, stuck)
    requires c in s.clients && LostHere(s.clients[c], c in stuck, r)
    ensures c in Next(s, step).clients && LostHere(Next(s, step).clients[c], c in stuck, r)
  {
    hide Closed, Sound, LostHere, Enabled, Next, LocalOk, Local;
    if IsLocal(step) {
      LocalElsewhere(s, step, c);
      if step.c == c {
        StuckWaits(s, stuck, c);
        HereStep(s.clients[c], step, c in stuck, r);
      }
    } else if Relays(step, c) {
      if c in stuck {
        StuckStays(s, step, stuck, c);
      } else {
        RelayingLost(s, step, c, r);
      }
    } else {
      NudgedLost(s, step, c, c in stuck, r);
    }
  }

  /** A request at the front of a reader that waits enters the queue, or goes on waiting. */
  lemma FrontStays(s: State, step: Step, stuck: set<ClientId>, c: ClientId, r: Req)
    requires AllSound(s) && Enabled(s, step) && Closed(s, stuck)
    requires c in s.clients && LostFront(s, c, stuck, r)
    ensures LostTo(Next(s, step), stuck, r)
  {
    hide Closed, AllSound, LostBehind, Enabled, Next, LostHere;
    var d := s.clients[c].relay.to;
    BehindStays(s, step, stuck, d, r);
    if Relays(step, c) {
      FrontEnters(s, step, stuck, c, r);
    } else {
      FrontWaits(s, step, c);
    }
  }

  lemma FrontWaits(s: State, step: Step, c: ClientId)
    requires Enabled(s, step) && c in s.clients && s.clients[c].relay.Busy? && !Relays(step, c)
    ensures c in Next(s, step).clients && Next(s, step).clients[c].relay == s.clients[c].relay
  {
    hide LocalOk, Local, Says, Issues, Next, Enabled;
    if IsLocal(step) {
      StuckRelayOf(s, step, c);
    } else {
      Nudged(s, step, c);
    }
  }

  lemma FrontEnters(s: State, step: Step, stuck: set<ClientId>, c: ClientId, r: Req)
    requires Enabled(s, step) && c in s.clients && LostFront(s, c, stuck, r)
    requires Relays(step, c) && s.clients[c].relay.to != c
    ensures LostTo(Next(s, step), stuck, r)
  {
    hide LostPending, LostBehind, LocalOk, Local, Says, Issues;
    var d := s.clients[c].relay.to;
    QueueLast(s.clients[d], d in stuck, r);
    assert LostHere(Next(s, step).clients[d], d in stuck, r);
  }

  lemma LostStep(s: State, step: Step, stuck: set<ClientId>, r: Req)
    requires AllSound(s) && Enabled(s, step) && Closed(s, stuck) && LostTo(s, stuck, r)
    ensures Closed(Next(s, step), stuck) && LostTo(Next(s, step), stuck, r)
  {
    hide Closed, AllSound, LostHere, LostFront, Enabled, Next;
    ClosedStep(s, step, stuck);
    var c :| c in s.clients && (LostHere(s.clients[c], c in stuck, r) || LostFront(s, c, stuck, r));
    if LostHere(s.clients[c], c in stuck, r) {
      HereStays(s, step, stuck, c, r);
    } else {
      FrontStays(s, step, stuck, c, r);
    }
  }

  lemma LostIsSomewhere(s: State, stuck: set<ClientId>, c: ClientId, r: Req)
    requires c in s.clients && (LostHere(s.clients[c], c in stuck, r) || LostFront(s, c, stuck, r))
    ensures exists p :: p != Answered && r in At(s, p)
  {
    var x := s.clients[c];
    if r in x.dropped {
      assert r in At(s, Dropped(c));
    } else if r in x.processing {
      assert r in At(s, Processing(c));
    } else if r in x.pending {
      assert r in At(s, Pending(c));
    } else if r in x.sending {
      assert r in At(s, Sending(c));
    } else if r in HeldBy(x.writer) {
      assert r in At(s, Held(c));
    } else {
      assert r in At(s, Relaying(c));
    }
  }

  lemma LostUnanswered(s: State, r: Req)
    requires OnePlace(s) && Lost(s, r)
    ensures r !in s.answered
  {
    hide LostHere, LostFront;
    var stuck :| Closed(s, stuck) && LostTo(s, stuck, r);
    var c :| c in s.clients && (LostHere(s.clients[c], c in stuck, r) || LostFront(s, c, stuck, r));
    LostIsSomewhere(s, stuck, c, r);
    assert r in s.answered ==> r in At(s, Answered);
  }

  /** In every run from a state in which the request is lost, it stays lost and is never answered. */
  lemma {:induction false} LostForever(s: State, steps: seq<Step>, r: Req)
    requires OnePlace(s) && AllSound(s) && CanRun(s, steps) && Lost(s, r)
    ensures Lost(Run(s, steps), r) && r !in Run(s, steps).answered
  {
    hide OnePlace, AllSound, Next, Enabled, Closed, LostTo;
    RunKeeps(s, steps);
    if steps != [] {
      var init, last := steps[..|steps| - 1], steps[|steps| - 1];
      LostForever(s, init, r);
      RunKeeps(s, init);
      var t := Run(s, init);
      var stuck :| Closed(t, stuck) && LostTo(t, stuck, r);
      LostStep(t, last, stuck, r);
    }
    LostUnanswered(Run(s, steps), r);
  }
}
