/**
 Freeing a reader. A reader outside every closed set gets its request enqueued: along the chain of readers that
 wait for each other there is one whose target can make room.
 */
module PipelineFree {
  import opened Basics
  import opened Pipeline
  import opened PipelineSafety
  import opened PipelineRuns
  import opened PipelineLost
  import opened PipelineReach

  lemma WaitsMono(s: State, c: ClientId, stuck: set<ClientId>, more: set<ClientId>)
    requires WaitsInVain(s, c, stuck) && stuck <= more
    ensures WaitsInVain(s, c, more)
  {
  }

  ghost predicate InClosed(s: State, c: ClientId) {
    exists stuck :: Closed(s, stuck) && c in stuck
  }

  /** The clients whose readers never move again. */
  ghost function AllStuck(s: State): set<ClientId> {
    set c | c in s.clients && InClosed(s, c)
  }

  lemma AllStuckClosed(s: State)
    ensures Closed(s, AllStuck(s))
    ensures forall stuck :: Closed(s, stuck) ==> stuck <= AllStuck(s)
  {
    forall stuck, c | Closed(s, stuck) && c in stuck ensures c in AllStuck(s) {
      assert WaitsInVain(s, c, stuck);
      assert InClosed(s, c);
    }
    forall c | c in AllStuck(s) ensures WaitsInVain(s, c, AllStuck(s)) {
      var stuck :| Closed(s, stuck) && c in stuck;
      WaitsMono(s, c, stuck, AllStuck(s));
    }
  }

  // ---------- the chain of waiting readers ----------

  /**
   The readers of `seen` wait in vain as long as the one of c does not move, all clients on the way from home have
   full pending queues that only their own readers can get emptied, and home is not in a closed set.
   */
  ghost predicate Chain(s: State, seen: set<ClientId>, c: ClientId, home: ClientId) {
    && seen <= s.clients.Keys && c in s.clients && c !in seen && home in seen + {c}
    && (forall v :: v in seen ==> WaitsInVain(s, v, seen + {c}))
    && (forall v :: v in seen + {c} && v != home ==> NoRoom(s.clients[v], true))
    && !InClosed(s, home)
  }

  /** The part of the chain before its end has not moved. */
  ghost predicate ChainCalm(s: State, s': State, seen: set<ClientId>, home: ClientId) {
    && (forall v :: v in seen && v != home ==> Calm(s, s', v))
    && (home in seen ==>
          home in s.clients && home in s'.clients && s'.clients[home].relay == s.clients[home].relay)
  }

  lemma OnlyCalm(s: State, s': State, d: ClientId, seen: set<ClientId>, home: ClientId)
    requires Only(s, s', d) && seen <= s.clients.Keys && (d in seen ==> d == home)
    requires d in s.clients && d in s'.clients && (d in seen ==> s'.clients[d].relay == s.clients[d].relay)
    ensures ChainCalm(s, s', seen, home)
  {
  }

  lemma CalmTrans(s: State, t: State, u: State, seen: set<ClientId>, home: ClientId)
    requires ChainCalm(s, t, seen, home) && ChainCalm(t, u, seen, home)
    ensures ChainCalm(s, u, seen, home)
  {
    forall v | v in seen && v != home ensures Calm(s, u, v) {
      assert Calm(s, t, v) && Calm(t, u, v);
    }
  }

  lemma CalmPart(s: State, s': State, seen: set<ClientId>, more: set<ClientId>, home: ClientId)
    requires ChainCalm(s, s', more, home) && seen <= more
    ensures ChainCalm(s, s', seen, home)
  {
  }

  /** Where the reader at the end of the chain waits, room can be made. */
  lemma NotInVain(s: State, seen: set<ClientId>, c: ClientId, home: ClientId)
    requires AllSound(s) && Chain(s, seen, c, home) && WaitsToRelay(s.clients[c])
    ensures s.clients[c].relay.to in s.clients
    ensures !NoRoom(s.clients[s.clients[c].relay.to], s.clients[c].relay.to in seen + {c})
  {
    BusyHas(s, c);
    if NoRoom(s.clients[s.clients[c].relay.to], s.clients[c].relay.to in seen + {c}) {
      assert WaitsInVain(s, c, seen + {c});
      assert Closed(s, seen + {c});
      assert InClosed(s, home);
    }
  }

  /** The pending queue of the end of the chain's target: it is on the chain only if it is home. */
  lemma TargetOff(s: State, seen: set<ClientId>, c: ClientId, home: ClientId)
    requires AllSound(s) && Chain(s, seen, c, home) && WaitsToRelay(s.clients[c])
    ensures var d := s.clients[c].relay.to; d in s.clients && (d in seen + {c} ==> d == home)
  {
    NotInVain(s, seen, c, home);
  }

  /** The target needs its own reader to make room, so it is not on the chain, and the chain goes on there. */
  ghost predicate NeedsReader(x: Client) {
    x.writer.Exited? || Fails(x) || (HoldsOn(x.writer) && Full(x.processing))
  }

  lemma ChainGrows(s: State, seen: set<ClientId>, c: ClientId, home: ClientId)
    requires AllSound(s) && Chain(s, seen, c, home) && WaitsToRelay(s.clients[c])
    requires s.clients[c].relay.to in s.clients && Full(s.clients[s.clients[c].relay.to].pending)
    requires NeedsReader(s.clients[s.clients[c].relay.to])
    ensures var d := s.clients[c].relay.to;
      Chain(s, seen + {c}, d, home) && d != home && !Shut(s.clients[d])
  {
    var d := s.clients[c].relay.to;
    NotInVain(s, seen, c, home);
    forall v | v in seen + {c} ensures WaitsInVain(s, v, seen + {c} + {d}) {
      if v in seen {
        WaitsMono(s, v, seen + {c}, seen + {c} + {d});
      }
    }
  }

  /** With its reader free, a client that is not shut makes room by winding up and draining. */
  lemma DrainRoom(o: State, s: State, d: ClientId, home: ClientId) returns (s': State)
    requires AllSound(s) && CanReach(o, s, {home}) && d in s.clients && d != home && s.clients[d].pending != []
    requires s.clients[d].relay.Idle? && !s.clients[d].drained
    requires Matching(s.clients[d]) ==> s.clients[d].processing != []
    ensures AllSound(s') && CanReach(o, s', {home}) && Only(s, s', d) && d in s'.clients
    ensures s'.clients[d].pending == s.clients[d].pending[1..]
  {
    hide AllSound, CanReach, Only;
    var t := ToDrain(o, s, d, {home});
    s' := Move(o, t, d, DrainsPending(d), {home});
    OnlyTrans(s, t, s', d);
  }

  lemma FreedMatches(x: Client, y: Client)
    requires Sound(x) && !Shut(x) && NeedsReader(x) && y == x.(relay := Idle, quit := y.quit)
    ensures Matching(y) ==> y.processing != []
  {
  }

  lemma PendingBound(s: State, c: ClientId)
    requires AllSound(s) && c in s.clients
    ensures |s.clients[c].pending| <= QUEUE_LEN && Sound(s.clients[c])
  {
  }

  /** Room is made in the queue where the reader at the end of the chain waits. */
  lemma {:induction false} RoomAt(o: State, s: State, seen: set<ClientId>, c: ClientId, home: ClientId)
    returns (s': State)
    requires AllSound(s) && CanReach(o, s, {home}) && Chain(s, seen, c, home) && WaitsToRelay(s.clients[c])
    ensures AllSound(s') && CanReach(o, s', {home}) && ChainCalm(s, s', seen + {c}, home)
    ensures s.clients[c].relay.to in s'.clients && !Full(s'.clients[s.clients[c].relay.to].pending)
    decreases s.clients.Keys - seen, 0
  {
    hide AllSound, CanReach, Only, Chain, Calm, NoRoom, ChainCalm, Shut;
    ChainThere(s, seen, c, home);
    var d := s.clients[c].relay.to;
    TargetOff(s, seen, c, home);
    if !Full(s.clients[d].pending) {
      s' := s;
      OnlyOne(s, s, d);
      OnlyCalm(s, s, d, seen + {c}, home);
    } else if NeedsReader(s.clients[d]) {
      ChainGrows(s, seen, c, home);
      ChainThere(s, seen + {c}, d, home);
      assert s.clients.Keys - (seen + {c}) < s.clients.Keys - seen by {
        assert c in s.clients.Keys - seen;
      }
      var t := Free(o, s, seen + {c}, d, home);
      PendingBound(s, d);
      FreedMatches(s.clients[d], t.clients[d]);
      ShutDrained(s.clients[d]);
      s' := DrainRoom(o, t, d, home);
      CalmKeys(s, t, seen + {c}, home);
      OnlyCalm(t, s', d, seen + {c}, home);
      CalmTrans(s, t, s', seen + {c}, home);
    } else {
      PendingBound(s, d);
      s' := WriterTurn(o, s, d, {home});
      OnlyCalm(s, s', d, seen + {c}, home);
    }
  }

  lemma CalmKeys(s: State, s': State, seen: set<ClientId>, home: ClientId)
    requires ChainCalm(s, s', seen, home)
    ensures seen <= s'.clients.Keys
  {
    forall v | v in seen ensures v in s'.clients.Keys {
      if v != home {
        assert Calm(s, s', v);
      }
    }
  }

  lemma ShutDrained(x: Client)
    requires !Shut(x)
    ensures !x.drained
  {
  }

  lemma ChainThere(s: State, seen: set<ClientId>, c: ClientId, home: ClientId)
    requires Chain(s, seen, c, home)
    ensures seen <= s.clients.Keys && c in s.clients && c !in seen && home in seen + {c}
  {
  }

  lemma EnqueuesAre(s: State, c: ClientId)
    requires c in s.clients && WaitsToRelay(s.clients[c]) && s.clients[c].relay.reqs != []
    requires s.clients[c].relay.to in s.clients && !Full(s.clients[s.clients[c].relay.to].pending)
    ensures Enabled(s, RelayEnqueues(c))
    ensures var s', relay := Next(s, RelayEnqueues(c)), s.clients[c].relay;
      && s'.clients.Keys == s.clients.Keys && s'.answered == s.answered
      && s'.clients[c].relay == SentOn(relay)
      && (relay.to != c ==> s'.clients[c] == s.clients[c].(relay := SentOn(relay)))
      && relay.reqs[0] in s'.clients[relay.to].pending
      && (forall v :: v in s.clients && v != c && v != relay.to ==> s'.clients[v] == s.clients[v])
      && (relay.to != c ==> s'.clients[relay.to].relay == s.clients[relay.to].relay)
  {
    var s', relay := Next(s, RelayEnqueues(c)), s.clients[c].relay;
    var p := s'.clients[relay.to].pending;
    assert p[|p| - 1] == relay.reqs[0];
  }

  lemma EnqueueCalm(s: State, c: ClientId, seen: set<ClientId>, home: ClientId)
    requires c in s.clients && WaitsToRelay(s.clients[c]) && s.clients[c].relay.reqs != []
    requires s.clients[c].relay.to in s.clients && !Full(s.clients[s.clients[c].relay.to].pending)
    requires c !in seen && seen <= s.clients.Keys && (s.clients[c].relay.to in seen ==> s.clients[c].relay.to == home)
    ensures Enabled(s, RelayEnqueues(c)) && ChainCalm(s, Next(s, RelayEnqueues(c)), seen, home)
  {
    hide Enabled, Next;
    EnqueuesAre(s, c);
  }

  /** The reader at the end of the chain gets rid of what it has to send on. */
  lemma {:induction false} Free(o: State, s: State, seen: set<ClientId>, c: ClientId, home: ClientId)
    returns (s': State)
    requires AllSound(s) && CanReach(o, s, {home}) && Chain(s, seen, c, home)
    ensures AllSound(s') && CanReach(o, s', {home}) && ChainCalm(s, s', seen, home)
    ensures c in s'.clients && s'.clients[c].relay.Idle?
    ensures c != home ==> s'.clients[c] == s.clients[c].(relay := Idle, quit := s'.clients[c].quit)
    ensures WaitsToRelay(s.clients[c]) ==>
      forall r :: r in s.clients[c].relay.reqs[1..] ==> r in s'.answered
    decreases s.clients.Keys - seen, 1
  {
    hide AllSound, CanReach, Only, Chain, Calm, NoRoom, ChainCalm, Enabled, Next;
    ChainThere(s, seen, c, home);
    if WaitsToRelay(s.clients[c]) {
      BusyHas(s, c);
      TargetOff(s, seen, c, home);
      var t := RoomAt(o, s, seen, c, home);
      CalmAt(s, t, seen, c, home);
      CalmPart(s, t, seen, seen + {c}, home);
      CalmKeys(s, t, seen, home);
      EnqueuesAre(t, c);
      EnqueueCalm(t, c, seen, home);
      var u := Act(o, t, RelayEnqueues(c), {home});
      CalmTrans(s, t, u, seen, home);
      s' := Resolve(o, u, c, {home});
      CalmKeys(s, u, seen, home);
      OnlyCalm(u, s', c, seen, home);
      CalmTrans(s, u, s', seen, home);
    } else {
      s' := Resolve(o, s, c, {home});
      OnlyCalm(s, s', c, seen, home);
    }
  }

  lemma CalmAt(s: State, s': State, seen: set<ClientId>, c: ClientId, home: ClientId)
    requires ChainCalm(s, s', seen + {c}, home) && c in s.clients
    ensures c in s'.clients && s'.clients[c].relay == s.clients[c].relay
    ensures c != home ==> s'.clients[c] == s.clients[c].(quit := s'.clients[c].quit)
  {
    if c != home {
      assert Calm(s, s', c);
    }
  }
}
