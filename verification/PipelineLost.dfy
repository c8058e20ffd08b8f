/**
 Requests that no run can answer any more. A reader that redirects waits for room in another client's pending
 queue; the lost requests are those that depend on a drained or jammed client, or on a set of readers that
 wait for each other.
 */
module PipelineLost {
  import opened Basics
  import opened Pipeline
  import opened PipelineSafety
  import opened PipelineRuns

  // ---------- readers that wait for ever ----------

  /** The writer is about to encode a request that spills over the buffer to a closed connection. */
  predicate Fails(x: Client) {
    x.closed && x.writer.Filtering? && !x.writer.req.stops && Spills(x.buffered, x.writer.req)
  }

  /** The reader waits for a request to match a reply with. */
  predicate Unmatched(x: Client) {
    Matching(x) && x.processing == []
  }

  /**
   The reader waits for a request to match a reply with, and the writer is gone, or as good as gone, and will not
   supply one; so the reader never stops, and the drain never begins.
   */
  predicate Jammed(x: Client) {
    Unmatched(x) && (x.writer.Exited? || Fails(x))
  }

  /** The writer has a request that it can only get rid of through the processing queue. */
  predicate HoldsOn(w: Writer) {
    (w.Filtering? && !w.req.stops) || w.Encoded? || w.Flushed?
  }

  predicate Full(q: seq<Req>) {
    |q| >= QUEUE_LEN
  }

  /** The pending queue is full, and nobody takes from it unless the client's reader moves. */
  predicate NoRoom(x: Client, stuck: bool) {
    && Full(x.pending)
    && (x.drained || Jammed(x)
        || (stuck && (x.writer.Exited? || Fails(x) || (HoldsOn(x.writer) && Full(x.processing)))))
  }

  predicate WaitsToRelay(x: Client) {
    x.relay.Busy? && x.relay.waits
  }

  ghost predicate WaitsInVain(s: State, c: ClientId, stuck: set<ClientId>) {
    && c in s.clients && WaitsToRelay(s.clients[c]) && s.clients[c].relay.to in s.clients
    && NoRoom(s.clients[s.clients[c].relay.to], s.clients[c].relay.to in stuck)
  }

  /** Clients whose readers wait for room that only readers of the same set could make. */
  ghost predicate Closed(s: State, stuck: set<ClientId>) {
    forall c :: c in stuck ==> WaitsInVain(s, c, stuck)
  }

  // ---------- how far a writer gets without its reader ----------

  /**
   With so much room for awaited replies, the writer passes the requests ahead and comes to a point where it can
   answer r: the filters stop it, encoding it writes to the connection, or nothing is pending behind it and the
   buffer is flushed. It does not get past a request that spills over to a closed connection.
   */
  predicate Gets(closed: bool, b: Fill, room: int, ahead: seq<Req>, r: Req, last: bool)
    decreases |ahead|
  {
    if ahead == [] then r.stops || Spills(b, r) || last
    else if ahead[0].stops then Gets(closed, b, room, ahead[1..], r, last)
    else
      && room > 0 && !(closed && Spills(b, ahead[0]))
      && Gets(closed, Filled(b, ahead[0]), room - 1, ahead[1..], r, last)
  }

  predicate Reaches(x: Client, ahead: seq<Req>, r: Req, last: bool) {
    var room := QUEUE_LEN - |x.processing|;
    if x.writer.Exited? || Fails(x) then false
    else if x.writer.Waiting? || !HoldsOn(x.writer) then Gets(x.closed, x.buffered, room, ahead, r, last)
    else if x.writer.Filtering? then
      room > 0 && Gets(x.closed, Filled(x.buffered, x.writer.req), room - 1, ahead, r, last)
    else room > 0 && Gets(x.closed, x.buffered, room - 1, ahead, r, last)
  }

  // ---------- lost requests ----------

  predicate Shut(x: Client) {
    x.drained || Jammed(x)
  }

  /** The first of these requests that the filters let through spills over the buffer. */
  predicate Clogs(b: Fill, ahead: seq<Req>) {
    ahead != [] && if ahead[0].stops then Clogs(b, ahead[1..]) else Spills(b, ahead[0])
  }

  /** The reader is unmatched, the connection closed, and the writer fails before it gets past the requests ahead. */
  predicate Clogged(x: Client, ahead: seq<Req>) {
    Unmatched(x) && x.closed && !x.writer.Exited? && !HoldsOn(x.writer) && Clogs(x.buffered, ahead)
  }

  /** A request behind these is not reached. */
  predicate Cut(x: Client, ahead: seq<Req>) {
    Shut(x) || Clogged(x, ahead)
  }

  /** The writer does not come to answer r behind these, nor does it help the reader on. */
  predicate Missed(x: Client, stuck: bool, ahead: seq<Req>, r: Req, last: bool) {
    Cut(x, ahead) || (stuck && !Reaches(x, ahead, r, last))
  }

  predicate LostPending(x: Client, stuck: bool, r: Req) {
    exists i :: 0 <= i < |x.pending| && x.pending[i] == r
                && Missed(x, stuck, x.pending[..i], r, i == |x.pending| - 1)
  }

  /** A request that waits for room in the pending queue. */
  predicate LostBehind(x: Client, stuck: bool, r: Req) {
    Missed(x, stuck, x.pending, r, true)
  }

  predicate LostHeld(x: Client, stuck: bool, r: Req) {
    && (stuck || (x.readerDone && Full(x.processing)))
    && (|| x.writer == Flushed(r)
        || (x.writer == Encoded(r) && x.pending != [])
        || (x.writer == Filtering(r) && x.pending != [] && !r.stops && !Spills(x.buffered, r)))
  }

  predicate LostHere(x: Client, stuck: bool, r: Req) {
    || r in x.dropped
    || (r in x.processing && (x.drained || stuck))
    || LostPending(x, stuck, r)
    || (r in x.sending && LostBehind(x, stuck, r))
    || LostHeld(x, stuck, r)
    || (stuck && x.relay.Busy? && x.relay.reqs != [] && r in x.relay.reqs[1..])
  }

  predicate IsFront(x: Client, r: Req) {
    WaitsToRelay(x) && x.relay.reqs != [] && x.relay.reqs[0] == r
  }

  ghost predicate LostFront(s: State, c: ClientId, stuck: set<ClientId>, r: Req)
    requires c in s.clients
  {
    var x := s.clients[c];
    IsFront(x, r) && x.relay.to in s.clients && LostBehind(s.clients[x.relay.to], x.relay.to in stuck, r)
  }

  ghost predicate LostTo(s: State, stuck: set<ClientId>, r: Req) {
    exists c :: c in s.clients && (LostHere(s.clients[c], c in stuck, r) || LostFront(s, c, stuck, r))
  }

  ghost predicate Lost(s: State, r: Req) {
    exists stuck :: Closed(s, stuck) && LostTo(s, stuck, r)
  }

  // ---------- the writer's reach ----------

  lemma {:induction false} GetsLast(b: Fill, b': Fill, room: int, ahead: seq<Req>, r: Req)
    ensures Gets(false, b, room, ahead, r, true) == Gets(false, b', room, ahead, r, true)
    decreases |ahead|
  {
    if ahead != [] && ahead[0].stops {
      GetsLast(b, b', room, ahead[1..], r);
    } else if ahead != [] {
      GetsLast(Filled(b, ahead[0]), Filled(b', ahead[0]), room - 1, ahead[1..], r);
    }
  }

  lemma {:induction false} GetsOpen(b: Fill, room: int, ahead: seq<Req>, r: Req, last: bool)
    requires Gets(true, b, room, ahead, r, last)
    ensures Gets(false, b, room, ahead, r, last)
    decreases |ahead|
  {
    if ahead != [] && ahead[0].stops {
      GetsOpen(b, room, ahead[1..], r, last);
    } else if ahead != [] {
      GetsOpen(Filled(b, ahead[0]), room - 1, ahead[1..], r, last);
    }
  }

  lemma CloseReach(x: Client, ahead: seq<Req>, r: Req, last: bool)
    requires Reaches(x.(closed := true), ahead, r, last)
    ensures Reaches(x, ahead, r, last)
  {
    hide Gets;
    var room := QUEUE_LEN - |x.processing|;
    if !x.closed {
      if x.writer.Waiting? || !HoldsOn(x.writer) {
        GetsOpen(x.buffered, room, ahead, r, last);
      } else if x.writer.Filtering? {
        GetsOpen(Filled(x.buffered, x.writer.req), room - 1, ahead, r, last);
      } else {
        GetsOpen(x.buffered, room - 1, ahead, r, last);
      }
    }
  }

  lemma {:induction false} GetsLater(closed: bool, b: Fill, room: int, ahead: seq<Req>, r: Req, last: bool)
    requires Gets(closed, b, room, ahead, r, last)
    ensures Gets(closed, b, room, ahead, r, true)
    decreases |ahead|
  {
    if ahead != [] && ahead[0].stops {
      GetsLater(closed, b, room, ahead[1..], r, last);
    } else if ahead != [] {
      GetsLater(closed, Filled(b, ahead[0]), room - 1, ahead[1..], r, last);
    }
  }

  lemma {:induction false} GetsShorter(closed: bool, b: Fill, room: int, ahead: seq<Req>, q: Req, r: Req)
    requires Gets(closed, b, room, ahead + [q], r, true)
    ensures Gets(closed, b, room, ahead, r, true)
    decreases |ahead|
  {
    if ahead == [] {
    } else {
      assert (ahead + [q])[1..] == ahead[1..] + [q] && (ahead + [q])[0] == ahead[0];
      if ahead[0].stops {
        GetsShorter(closed, b, room, ahead[1..], q, r);
      } else {
        GetsShorter(closed, Filled(b, ahead[0]), room - 1, ahead[1..], q, r);
      }
    }
  }

  lemma ReachesShorter(x: Client, ahead: seq<Req>, q: Req, r: Req)
    requires Reaches(x, ahead + [q], r, true)
    ensures Reaches(x, ahead, r, true)
  {
    hide Gets;
    var room := QUEUE_LEN - |x.processing|;
    if x.writer.Waiting? || !HoldsOn(x.writer) {
      GetsShorter(x.closed, x.buffered, room, ahead, q, r);
    } else if x.writer.Filtering? {
      GetsShorter(x.closed, Filled(x.buffered, x.writer.req), room - 1, ahead, q, r);
    } else {
      GetsShorter(x.closed, x.buffered, room - 1, ahead, q, r);
    }
  }

  lemma ReachesLater(x: Client, ahead: seq<Req>, r: Req, last: bool)
    requires Reaches(x, ahead, r, last)
    ensures Reaches(x, ahead, r, true)
  {
    hide Gets;
    var room := QUEUE_LEN - |x.processing|;
    if x.writer.Waiting? || !HoldsOn(x.writer) {
      GetsLater(x.closed, x.buffered, room, ahead, r, last);
    } else if x.writer.Filtering? {
      GetsLater(x.closed, Filled(x.buffered, x.writer.req), room - 1, ahead, r, last);
    } else {
      GetsLater(x.closed, x.buffered, room - 1, ahead, r, last);
    }
  }

  predicate WriterGoesOn(step: Step) {
    || step.FilterStops? || step.Encodes? || step.SkipsFlush? || step.Pushes? || step.WriterQuits?
    || step.EncodeFails? || step.FlushFails? || step.WriterDrops?
  }

  /** Apart from taking requests and flushing, no step of the writer brings it nearer to an answer for r. */
  lemma WriterStepReach(x: Client, step: Step, ahead: seq<Req>, r: Req, last: bool)
    requires IsLocal(step) && LocalOk(x, step) && WriterGoesOn(step)
    requires !Reaches(x, ahead, r, last)
    ensures !Reaches(Local(x, step), ahead, r, last)
  {
    hide Gets, Spills, Filled;
  }

  /** While the writer works on, its reach stays what it was. */
  lemma WorkReach(x: Client, step: Step, ahead: seq<Req>, r: Req, last: bool)
    requires IsLocal(step) && LocalOk(x, step)
    requires step.FilterStops? || step.Encodes? || step.SkipsFlush? || step.Pushes?
    ensures Reaches(Local(x, step), ahead, r, last) == Reaches(x, ahead, r, last)
  {
    hide Gets, Spills, Filled;
  }

  lemma TakeReach(x: Client, step: Step, ahead: seq<Req>, r: Req, last: bool)
    requires step.WriterTakes? && LocalOk(x, step) && ahead != [] && ahead[0] == x.pending[0]
    ensures Reaches(Local(x, step), ahead[1..], r, last) == Reaches(x, ahead, r, last)
  {
  }

  lemma FlushReach(x: Client, step: Step, ahead: seq<Req>, r: Req)
    requires step.Flushes? && LocalOk(x, step) && !Reaches(x, ahead, r, true)
    ensures !Reaches(Local(x, step), ahead, r, true)
  {
    hide Gets;
    GetsLast(x.buffered, 0, QUEUE_LEN - |x.processing| - 1, ahead, r);
  }

  // ---------- a client's own steps ----------

  lemma ShutStep(x: Client, step: Step)
    requires IsLocal(step) && LocalOk(x, step) && Sound(x) && Shut(x)
    ensures Shut(Local(x, step))
  {
    hide InOrder;
  }

  lemma NoRoomStep(x: Client, step: Step, stuck: bool)
    requires IsLocal(step) && LocalOk(x, step) && Sound(x) && (stuck ==> WaitsToRelay(x)) && NoRoom(x, stuck)
    ensures NoRoom(Local(x, step), stuck)
  {
    hide InOrder, Spills, Filled;
  }

  // ---------- what is missed stays missed ----------

  /** Only these parts of a client matter. */
  lemma SameMissed(x: Client, y: Client, stuck: bool, ahead: seq<Req>, r: Req, last: bool)
    requires y == x.(sending := y.sending, pending := y.pending, quit := y.quit)
    ensures Missed(x, stuck, ahead, r, last) == Missed(y, stuck, ahead, r, last)
  {
    hide Gets, Clogs;
  }

  lemma {:induction false} ClogsLonger(b: Fill, ahead: seq<Req>, q: Req)
    requires Clogs(b, ahead)
    ensures Clogs(b, ahead + [q])
  {
    assert (ahead + [q])[0] == ahead[0] && (ahead + [q])[1..] == ahead[1..] + [q];
    if ahead[0].stops {
      ClogsLonger(b, ahead[1..], q);
    }
  }

  lemma MissedLonger(x: Client, stuck: bool, ahead: seq<Req>, q: Req, r: Req)
    requires Missed(x, stuck, ahead, r, true)
    ensures Missed(x, stuck, ahead + [q], r, true)
  {
    hide Reaches, Clogs;
    if Clogged(x, ahead) {
      ClogsLonger(x.buffered, ahead, q);
    } else if !Shut(x) && Reaches(x, ahead + [q], r, true) {
      ReachesShorter(x, ahead, q, r);
    }
  }

  lemma MissedEarlier(x: Client, stuck: bool, ahead: seq<Req>, r: Req, last: bool)
    requires Missed(x, stuck, ahead, r, last)
    ensures Missed(x, stuck, ahead, r, false)
  {
    hide Reaches, Clogs;
    if !Cut(x, ahead) && last && Reaches(x, ahead, r, false) {
      ReachesLater(x, ahead, r, false);
    }
  }

  lemma ClogStep(x: Client, step: Step, ahead: seq<Req>)
    requires IsLocal(step) && LocalOk(x, step) && Sound(x) && Clogged(x, ahead) && !step.WriterTakes?
    ensures Cut(Local(x, step), ahead)
  {
    hide InOrder, Clogs, Spills, Filled;
  }

  lemma MissedStep(x: Client, step: Step, stuck: bool, ahead: seq<Req>, r: Req, last: bool)
    requires IsLocal(step) && LocalOk(x, step) && Sound(x) && (stuck ==> WaitsToRelay(x))
    requires Missed(x, stuck, ahead, r, last) && !step.WriterTakes? && (step.Flushes? ==> last)
    ensures Missed(Local(x, step), stuck, ahead, r, last)
  {
    hide Reaches, Clogged, Sound, Shut;
    if Shut(x) {
      ShutStep(x, step);
    } else if Clogged(x, ahead) {
      ClogStep(x, step, ahead);
    } else if WriterGoesOn(step) {
      WriterStepReach(x, step, ahead, r, last);
    } else if step.Flushes? {
      FlushReach(x, step, ahead, r);
    } else if step.Closes? {
      if Reaches(x.(closed := true), ahead, r, last) {
        CloseReach(x, ahead, r, last);
      }
    } else {
      StuckQuiet(x, step);
      var y := Local(x, step);
      SameMissed(x, y, stuck, ahead, r, last);
    }
  }

  /** The remaining steps of a client whose reader waits. */
  lemma StuckQuiet(x: Client, step: Step)
    requires IsLocal(step) && LocalOk(x, step) && Sound(x) && WaitsToRelay(x)
    requires !WriterGoesOn(step) && !step.WriterTakes? && !step.Flushes? && !step.Closes?
    ensures var y := Local(x, step); y == x.(sending := y.sending, pending := y.pending, quit := y.quit)
  {
    hide InOrder;
  }

  lemma MissedTake(x: Client, step: Step, stuck: bool, ahead: seq<Req>, r: Req, last: bool)
    requires step.WriterTakes? && LocalOk(x, step) && Sound(x) && ahead != [] && ahead[0] == x.pending[0]
    requires Missed(x, stuck, ahead, r, last)
    ensures Missed(Local(x, step), stuck, ahead[1..], r, last)
  {
    hide Reaches, InOrder;
    TakeReach(x, step, ahead, r, last);
  }

  // ---------- requests in the pending queue and behind it ----------

  lemma QueueMore(x: Client, q: Req, stuck: bool, r: Req)
    requires LostBehind(x, stuck, r)
    ensures LostBehind(x.(pending := x.pending + [q]), stuck, r)
  {
    hide Missed;
    MissedLonger(x, stuck, x.pending, q, r);
    SameMissed(x, x.(pending := x.pending + [q]), stuck, x.pending + [q], r, true);
  }

  lemma QueueLast(x: Client, stuck: bool, r: Req)
    requires LostBehind(x, stuck, r)
    ensures LostPending(x.(pending := x.pending + [r]), stuck, r)
  {
    hide Missed;
    var y, i := x.(pending := x.pending + [r]), |x.pending|;
    assert y.pending[..i] == x.pending && y.pending[i] == r;
    SameMissed(x, y, stuck, x.pending, r, true);
  }

  lemma PendingMore(x: Client, q: Req, stuck: bool, r: Req)
    requires LostPending(x, stuck, r)
    ensures LostPending(x.(pending := x.pending + [q]), stuck, r)
  {
    hide Missed;
    var y := x.(pending := x.pending + [q]);
    var i :| 0 <= i < |x.pending| && x.pending[i] == r && Missed(x, stuck, x.pending[..i], r, i == |x.pending| - 1);
    assert y.pending[..i] == x.pending[..i] && y.pending[i] == r;
    MissedEarlier(x, stuck, x.pending[..i], r, i == |x.pending| - 1);
    SameMissed(x, y, stuck, x.pending[..i], r, false);
  }

  lemma SendingAside(x: Client, sending: seq<Req>, stuck: bool, r: Req)
    requires LostPending(x, stuck, r)
    ensures LostPending(x.(sending := sending), stuck, r)
  {
    hide Missed;
    var y := x.(sending := sending);
    var i :| 0 <= i < |x.pending| && x.pending[i] == r && Missed(x, stuck, x.pending[..i], r, i == |x.pending| - 1);
    SameMissed(x, y, stuck, x.pending[..i], r, i == |x.pending| - 1);
    assert y.pending[i] == r;
  }

  lemma EnqueueIs(x: Client, step: Step)
    requires step.Enqueue? && LocalOk(x, step)
    ensures Local(x, step) == x.(pending := x.pending + [x.sending[step.i]], sending := Drop(x.sending, step.i))
  {
  }

  lemma BehindStep(x: Client, step: Step, stuck: bool, r: Req)
    requires IsLocal(step) && LocalOk(x, step) && Sound(x) && (stuck ==> WaitsToRelay(x))
    requires LostBehind(x, stuck, r)
    ensures LostBehind(Local(x, step), stuck, r)
  {
    hide Missed, Sound;
    var y := Local(x, step);
    if step.WriterTakes? {
      MissedTake(x, step, stuck, x.pending, r, true);
    } else if step.Enqueue? {
      var q := x.sending[step.i];
      MissedLonger(x, stuck, x.pending, q, r);
      EnqueueIs(x, step);
      SameMissed(x, y, stuck, x.pending + [q], r, true);
    } else {
      MissedStep(x, step, stuck, x.pending, r, true);
      MissedKeepsPending(x, step, stuck, x.pending, r, true);
    }
  }

  lemma MissedKeepsPending(x: Client, step: Step, stuck: bool, ahead: seq<Req>, r: Req, last: bool)
    requires IsLocal(step) && LocalOk(x, step) && Sound(x) && (stuck ==> WaitsToRelay(x))
    requires Missed(x, stuck, ahead, r, last) && !step.WriterTakes? && !step.Enqueue?
    ensures Local(x, step).pending == x.pending
  {
    hide InOrder, Clogs, Reaches, Spills, Filled;
  }

  lemma PendingStep(x: Client, step: Step, stuck: bool, r: Req)
    requires IsLocal(step) && LocalOk(x, step) && Sound(x) && (stuck ==> WaitsToRelay(x))
    requires LostPending(x, stuck, r)
    ensures LostPending(Local(x, step), stuck, r) || LostHeld(Local(x, step), stuck, r)
  {
    hide Sound, Missed;
    var y := Local(x, step);
    var i :| 0 <= i < |x.pending| && x.pending[i] == r && Missed(x, stuck, x.pending[..i], r, i == |x.pending| - 1);
    if step.WriterTakes? {
      TakenAt(x, step, stuck, r, i);
    } else if step.Enqueue? {
      EnqueueIs(x, step);
      PendingMore(x, x.sending[step.i], stuck, r);
      SendingAside(x.(pending := x.pending + [x.sending[step.i]]), y.sending, stuck, r);
    } else {
      MissedKeepsPending(x, step, stuck, x.pending[..i], r, i == |x.pending| - 1);
      MissedStep(x, step, stuck, x.pending[..i], r, i == |x.pending| - 1);
      assert y.pending[i] == r;
    }
  }

  lemma TakenAt(x: Client, step: Step, stuck: bool, r: Req, i: nat)
    requires step.WriterTakes? && LocalOk(x, step) && Sound(x) && (stuck ==> WaitsToRelay(x))
    requires i < |x.pending| && x.pending[i] == r && Missed(x, stuck, x.pending[..i], r, i == |x.pending| - 1)
    ensures LostPending(Local(x, step), stuck, r) || LostHeld(Local(x, step), stuck, r)
  {
    hide InOrder;
    var y := Local(x, step);
    if i > 0 {
      MissedTake(x, step, stuck, x.pending[..i], r, i == |x.pending| - 1);
      assert x.pending[..i][1..] == y.pending[..i - 1] && y.pending[i - 1] == r;
    }
  }

  lemma HeldStep(x: Client, step: Step, stuck: bool, r: Req)
    requires IsLocal(step) && LocalOk(x, step) && Sound(x) && (stuck ==> WaitsToRelay(x))
    requires LostHeld(x, stuck, r)
    ensures LostHere(Local(x, step), stuck, r)
  {
    hide InOrder, Reaches, Filled, Spills;
  }

  lemma ProcessingStep(x: Client, step: Step, stuck: bool, r: Req)
    requires IsLocal(step) && LocalOk(x, step) && Sound(x) && (stuck ==> WaitsToRelay(x))
    requires r in x.processing && (x.drained || stuck)
    ensures var y := Local(x, step); r in y.processing && (y.drained || stuck)
  {
    hide InOrder;
  }

  lemma DropKeeps(q: seq<Req>, i: nat, r: Req)
    requires i < |q| && r in q && r != q[i]
    ensures r in Drop(q, i)
  {
    var k :| 0 <= k < |q| && q[k] == r;
    assert Drop(q, i)[if k < i then k else k - 1] == r;
  }

  lemma SendingStep(x: Client, step: Step, stuck: bool, r: Req)
    requires IsLocal(step) && LocalOk(x, step) && Sound(x) && (stuck ==> WaitsToRelay(x))
    requires r in x.sending && LostBehind(x, stuck, r)
    ensures var y := Local(x, step); LostPending(y, stuck, r) || (r in y.sending && LostBehind(y, stuck, r))
  {
    hide Sound, LostBehind, LostPending;
    BehindStep(x, step, stuck, r);
    if step.Enqueue? {
      EnqueueIs(x, step);
      if r == x.sending[step.i] {
        QueueLast(x, stuck, r);
        SendingAside(x.(pending := x.pending + [r]), Drop(x.sending, step.i), stuck, r);
      } else {
        DropKeeps(x.sending, step.i, r);
      }
    }
  }

  /** What is lost at a client stays lost through its own steps. */
  lemma HereStep(x: Client, step: Step, stuck: bool, r: Req)
    requires IsLocal(step) && LocalOk(x, step) && Sound(x) && (stuck ==> WaitsToRelay(x))
    requires LostHere(x, stuck, r)
    ensures LostHere(Local(x, step), stuck, r)
  {
    hide LostPending, LostBehind, LostHeld, Sound;
    if r in x.dropped {
      DroppedStep(x, step, r);
    } else if r in x.processing && (x.drained || stuck) {
      ProcessingStep(x, step, stuck, r);
    } else if LostPending(x, stuck, r) {
      PendingStep(x, step, stuck, r);
    } else if r in x.sending && LostBehind(x, stuck, r) {
      SendingStep(x, step, stuck, r);
    } else if LostHeld(x, stuck, r) {
      HeldStep(x, step, stuck, r);
    } else {
      StuckRelay(x, step);
    }
  }

  lemma DroppedStep(x: Client, step: Step, r: Req)
    requires IsLocal(step) && LocalOk(x, step) && r in x.dropped
    ensures r in Local(x, step).dropped
  {
  }

  lemma StuckRelay(x: Client, step: Step)
    requires IsLocal(step) && LocalOk(x, step) && x.relay.Busy?
    ensures Local(x, step).relay == x.relay
  {
  }
}
