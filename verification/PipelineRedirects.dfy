/** Where redirected requests go: each to the client that its reply names, and nowhere else. */
module PipelineRedirects {
  import opened Basics
  import opened Pipeline
  import opened PipelineSafety
  import opened PipelineRuns
  import opened PipelineLostForever

  // ---------- what a reader has decoded ----------

  /** The replies that the run decodes on the connection of a client, in order. */
  function Decoded(steps: seq<Step>, c: ClientId): seq<Reply> {
    if steps == [] then []
    else
      var last := steps[|steps| - 1];
      Decoded(steps[..|steps| - 1], c) + if last.Decodes? && last.c == c then [last.reply] else []
  }

  lemma LocalReplies(x: Client, step: Step)
    requires IsLocal(step) && LocalOk(x, step)
    ensures Local(x, step).replies == if step.Decodes? then x.replies + [step.reply] else x.replies
  {
    hide LocalOk, Filled, RelayOf;
  }

  lemma RepliesStep(s: State, step: Step, c: ClientId)
    requires Enabled(s, step) && c in Next(s, step).clients
    ensures Next(s, step).clients[c].replies
         == (if c in s.clients then s.clients[c].replies else [])
            + if step.Decodes? && step.c == c then [step.reply] else []
    ensures step.Decodes? && step.c == c ==> c in s.clients
  {
    hide LocalOk, Local, Says, Issues;
    if IsLocal(step) {
      LocalReplies(s.clients[step.c], step);
    }
  }

  /** A client keeps every reply as it was decoded, in order; a client that is not there has none. */
  lemma {:induction false} RepliesAreDecoded(steps: seq<Step>, c: ClientId)
    requires CanRun(INIT, steps)
    ensures var s := Run(INIT, steps); Decoded(steps, c) == if c in s.clients then s.clients[c].replies else []
  {
    hide Enabled, Next;
    if steps != [] {
      var init, last := steps[..|steps| - 1], steps[|steps| - 1];
      RepliesAreDecoded(init, c);
      ClientsStay(Run(INIT, init), last, c);
      if c in Run(INIT, steps).clients {
        RepliesStep(Run(INIT, init), last, c);
      }
    }
  }

  lemma ClientsStay(s: State, step: Step, c: ClientId)
    requires Enabled(s, step)
    ensures c in s.clients || (step.Decodes? && step.c == c) ==> c in Next(s, step).clients
  {
    hide LocalOk, Local, Says, Issues;
  }

  /** In every run the k-th reply handed out at a client is the k-th that the run decodes there. */
  lemma HandedAreDecoded(steps: seq<Step>, c: ClientId, k: nat)
    requires CanRun(INIT, steps) && c in Run(INIT, steps).clients && k < |Run(INIT, steps).clients[c].handed|
    ensures var x := Run(INIT, steps).clients[c];
      k < |Decoded(steps, c)| && k < |x.wire| && x.handed[k] == (Decoded(steps, c)[k], x.wire[k])
  {
    hide CanRun, Run, Decoded;
    RepliesAreDecoded(steps, c);
    NthReplyToNthRequest(Run(INIT, steps), c, k);
  }

  // ---------- what a reader has to send on ----------

  /** The last reply handed out on the connection redirects this request to this client. */
  predicate Redirected(x: Client, r: Req, to: ClientId) {
    && x.handed != []
    && var last := x.handed[|x.handed| - 1];
       last.1 == r && !last.0.Final? && last.0.to == to
  }

  /** The reader holds the request it was last handed a redirection for, behind at most one more if that was an ASK. */
  predicate Traced(x: Client) {
    x.relay.Busy? ==>
      var n := |x.relay.reqs|;
      && 1 <= n <= 2 && Redirected(x, x.relay.reqs[n - 1], x.relay.to)
      && (n == 2 ==> x.handed[|x.handed| - 1].0.Ask?)
  }

  ghost predicate AllTraced(s: State) {
    forall c :: c in s.clients ==> Traced(s.clients[c])
  }

  /** Matching a reply changes what the reader has in hand; no other step of the client itself does. */
  lemma LocalReader(x: Client, step: Step)
    requires IsLocal(step) && LocalOk(x, step)
    ensures !step.Handles? ==> Local(x, step).relay == x.relay && Local(x, step).handed == x.handed
  {
  }

  lemma MatchTraced(x: Client, step: Step)
    requires step.Handles? && LocalOk(x, step)
    ensures Traced(Local(x, step))
  {
    var reply, r := x.replies[|x.handed|], x.processing[0];
    var y := Local(x, step);
    assert y.handed[|y.handed| - 1] == (reply, r);
  }

  lemma LocalTraced(x: Client, step: Step)
    requires IsLocal(step) && LocalOk(x, step) && Traced(x)
    ensures Traced(Local(x, step))
  {
    hide LocalOk, Local;
    if step.Handles? {
      MatchTraced(x, step);
    } else {
      LocalReader(x, step);
    }
  }

  lemma SentOnTraced(x: Client)
    requires Traced(x)
    ensures Traced(Relayed(x)) && (x.relay.Busy? ==> Traced(x.(relay := x.relay.(waits := true))))
  {
  }

  /** What a step does to the reader's part of a client, unless it is the client's own. */
  lemma OtherReader(s: State, step: Step, c: ClientId)
    requires Enabled(s, step) && !IsLocal(step) && c in Next(s, step).clients
    ensures var y := Next(s, step).clients[c];
      if c !in s.clients then y.relay.Idle? && y.handed == []
      else
        var x := s.clients[c];
        && y.handed == x.handed
        && (|| y.relay == x.relay
            || (x.relay.Busy? && (y.relay == SentOn(x.relay) || y.relay == x.relay.(waits := true))))
  {
    hide LocalOk, Local, Says, Issues;
  }

  lemma SameReaderTraced(x: Client, y: Client)
    requires Traced(x) && y.relay == x.relay && y.handed == x.handed
    ensures Traced(y)
  {
  }

  lemma StepTraced(s: State, step: Step)
    requires Enabled(s, step) && AllTraced(s)
    ensures AllTraced(Next(s, step))
  {
    hide LocalOk, Local, Enabled, Next, Traced;
    forall c | c in Next(s, step).clients ensures Traced(Next(s, step).clients[c]) {
      if IsLocal(step) {
        LocalClients(s, step);
        if c == step.c {
          LocalTraced(s.clients[c], step);
        }
      } else {
        OtherTraced(s, step, c);
      }
    }
  }

  lemma LocalClients(s: State, step: Step)
    requires Enabled(s, step) && IsLocal(step)
    ensures step.c in s.clients && LocalOk(s.clients[step.c], step)
    ensures Next(s, step).clients == s.clients[step.c := Local(s.clients[step.c], step)]
  {
  }

  lemma OtherTraced(s: State, step: Step, c: ClientId)
    requires Enabled(s, step) && !IsLocal(step) && c in Next(s, step).clients
    requires c in s.clients ==> Traced(s.clients[c])
    ensures Traced(Next(s, step).clients[c])
  {
    hide Enabled, Next;
    OtherReader(s, step, c);
    if c in s.clients {
      var x, y := s.clients[c], Next(s, step).clients[c];
      SentOnTraced(x);
      SameReaderTraced(x.(relay := y.relay), y);
    }
  }

  lemma {:induction false} RunTraced(steps: seq<Step>)
    requires CanRun(INIT, steps)
    ensures AllTraced(Run(INIT, steps))
  {
    hide AllTraced, Next, Enabled;
    if steps == [] {
      NoneTraced();
    } else {
      RunTraced(steps[..|steps| - 1]);
      StepTraced(Run(INIT, steps[..|steps| - 1]), steps[|steps| - 1]);
    }
  }

  lemma NoneTraced()
    ensures AllTraced(INIT)
  {
  }

  /**
   In every reachable state, a reader with something to send on was last handed a MOVED or ASK reply that names the
   client it is for, together with the last of the requests; before that one stands at most the ASKING of an ASK.
   */
  lemma RelayIsRedirection(s: State, c: ClientId)
    requires Reachable(s) && c in s.clients && s.clients[c].relay.Busy?
    ensures var x := s.clients[c];
      && x.handed != [] && x.relay.reqs != []
      && var (reply, r) := x.handed[|x.handed| - 1];
         && (reply.Moved? || reply.Ask?) && reply.to == x.relay.to
         && x.relay.reqs[|x.relay.reqs| - 1] == r
         && (|x.relay.reqs| == 1 || (|x.relay.reqs| == 2 && reply.Ask?))
  {
    hide Run, CanRun;
    var steps :| CanRun(INIT, steps) && Run(INIT, steps) == s;
    RunTraced(steps);
    assert Traced(s.clients[c]);
  }

  // ---------- prefixes of runs ----------

  lemma {:induction false} Prefix(steps: seq<Step>, i: nat)
    requires CanRun(INIT, steps) && i <= |steps|
    ensures CanRun(INIT, steps[..i])
    ensures i < |steps| ==>
      && Enabled(Run(INIT, steps[..i]), steps[i]) && CanRun(INIT, steps[..i + 1])
      && Run(INIT, steps[..i + 1]) == Next(Run(INIT, steps[..i]), steps[i])
  {
    hide Enabled, Next;
    if i == |steps| {
      assert steps[..i] == steps;
    } else if i == |steps| - 1 {
      assert steps[..i + 1] == steps;
    } else {
      var init := steps[..|steps| - 1];
      Prefix(init, i);
      assert init[..i] == steps[..i] && init[..i + 1] == steps[..i + 1];
    }
  }

  /** The state before step number i of a run. */
  ghost function Before(steps: seq<Step>, i: nat): State
    requires CanRun(INIT, steps) && i <= |steps|
  {
    Prefix(steps, i);
    Run(INIT, steps[..i])
  }

  lemma BeforeNext(steps: seq<Step>, i: nat)
    requires CanRun(INIT, steps) && i < |steps|
    ensures Enabled(Before(steps, i), steps[i]) && Before(steps, i + 1) == Next(Before(steps, i), steps[i])
  {
    Prefix(steps, i);
  }

  lemma BeforeInit(steps: seq<Step>, i: nat)
    requires CanRun(INIT, steps) && i < |steps|
    ensures CanRun(INIT, steps[..|steps| - 1]) && Before(steps[..|steps| - 1], i) == Before(steps, i)
    ensures Before(steps, |steps|) == Run(INIT, steps)
  {
    hide Enabled, Next;
    Prefix(steps, i);
    Prefix(steps, |steps| - 1);
    assert steps[..|steps| - 1][..i] == steps[..i] && steps[..|steps|] == steps;
  }

  /** Step number i matches, at client c, the reply with the request r. */
  ghost predicate MatchesAt(steps: seq<Step>, i: nat, c: ClientId, reply: Reply, r: Req)
    requires CanRun(INIT, steps)
  {
    && i < |steps| && steps[i].Handles? && steps[i].c == c && c in Before(steps, i).clients
    && var x := Before(steps, i).clients[c];
       Matching(x) && x.processing != [] && x.replies[|x.handed|] == reply && x.processing[0] == r
  }

  /** Step number i announces, at client c, an ASK reply that names d by this request. */
  ghost predicate AskedAt(steps: seq<Step>, i: nat, c: ClientId, asking: Req, d: ClientId)
    requires CanRun(INIT, steps)
  {
    exists reply, r :: MatchesAt(steps, i, c, reply, r) && steps[i].asking == asking && reply.Ask? && reply.to == d
  }

  ghost predicate Asked(steps: seq<Step>, c: ClientId, asking: Req, d: ClientId)
    requires CanRun(INIT, steps)
  {
    exists i: nat :: AskedAt(steps, i, c, asking, d)
  }

  lemma AskedStays(steps: seq<Step>, c: ClientId, asking: Req, d: ClientId)
    requires CanRun(INIT, steps) && steps != [] && CanRun(INIT, steps[..|steps| - 1])
    requires Asked(steps[..|steps| - 1], c, asking, d)
    ensures Asked(steps, c, asking, d)
  {
    hide Run, CanRun;
    var init := steps[..|steps| - 1];
    var i: nat :| AskedAt(init, i, c, asking, d);
    var reply, r :| MatchesAt(init, i, c, reply, r) && init[i].asking == asking && reply.Ask? && reply.to == d;
    BeforeInit(steps, i);
    assert MatchesAt(steps, i, c, reply, r);
    assert AskedAt(steps, i, c, asking, d);
  }

  /** Of two requests in hand the first is the ASKING of an ASK for the same client. */
  lemma {:induction false} FirstIsAsking(steps: seq<Step>, c: ClientId)
    requires CanRun(INIT, steps) && c in Run(INIT, steps).clients
    ensures var relay := Run(INIT, steps).clients[c].relay;
      relay.Busy? && |relay.reqs| == 2 ==> Asked(steps, c, relay.reqs[0], relay.to)
  {
    hide Enabled, Next, Asked, MatchesAt, AskedAt;
    if steps != [] {
      var init, last := steps[..|steps| - 1], steps[|steps| - 1];
      var s, s' := Run(INIT, init), Run(INIT, steps);
      RunTraced(init);
      var relay := s'.clients[c].relay;
      if relay.Busy? && |relay.reqs| == 2 {
        if last.Handles? && last.c == c {
          AskMatched(steps, c);
        } else {
          RelayFrom(s, last, c);
          FirstIsAsking(init, c);
          AskedStays(steps, c, relay.reqs[0], relay.to);
        }
      }
    }
  }

  /** Two requests are in hand after an ASK was matched, or they were before. */
  lemma RelayFrom(s: State, step: Step, c: ClientId)
    requires Enabled(s, step) && AllTraced(s) && c in Next(s, step).clients
    requires Next(s, step).clients[c].relay.Busy? && |Next(s, step).clients[c].relay.reqs| == 2
    requires !(step.Handles? && step.c == c)
    ensures c in s.clients && s.clients[c].relay.Busy?
    ensures s.clients[c].relay.reqs == Next(s, step).clients[c].relay.reqs
    ensures s.clients[c].relay.to == Next(s, step).clients[c].relay.to
  {
    hide LocalOk, Local, Enabled, Next;
    if IsLocal(step) {
      LocalClients(s, step);
      if step.c == c {
        LocalReader(s.clients[c], step);
      }
    } else {
      OtherReader(s, step, c);
      assert c in s.clients ==> Traced(s.clients[c]);
    }
  }

  lemma AskMatched(steps: seq<Step>, c: ClientId)
    requires CanRun(INIT, steps) && steps != [] && c in Run(INIT, steps).clients
    requires steps[|steps| - 1].Handles? && steps[|steps| - 1].c == c
    requires Run(INIT, steps).clients[c].relay.Busy? && |Run(INIT, steps).clients[c].relay.reqs| == 2
    ensures var relay := Run(INIT, steps).clients[c].relay; Asked(steps, c, relay.reqs[0], relay.to)
  {
    hide CanRun, Run, Says, Issues;
    var i := |steps| - 1;
    BeforeNext(steps, i);
    BeforeInit(steps, i);
    var x := Before(steps, i).clients[c];
    assert MatchesAt(steps, i, c, x.replies[|x.handed|], x.processing[0]);
    assert AskedAt(steps, i, c, steps[i].asking, x.replies[|x.handed|].to);
  }

  // ---------- where requests are queued ----------

  /** The request joins the pending queue of client d, and no other queue changes. */
  ghost predicate JoinsOnly(s: State, s': State, d: ClientId, q: Req) {
    && d in s.clients && s'.clients.Keys == s.clients.Keys
    && s'.clients[d].pending == s.clients[d].pending + [q]
    && forall e :: e in s.clients && e != d ==> s'.clients[e].pending == s.clients[e].pending
  }

  lemma EnqueuedJoins(s: State, c: ClientId)
    requires Enabled(s, RelayEnqueues(c))
    ensures JoinsOnly(s, Next(s, RelayEnqueues(c)), s.clients[c].relay.to, s.clients[c].relay.reqs[0])
  {
    hide LocalOk, Local, Says, Issues;
  }

  /**
   In every run, whatever a reader puts into a pending queue goes to the client named in the last reply it handed
   out: it is the request this reply was for, or the ASKING of an ASK reply that names the same client.
   */
  lemma QueuedWhereNamed(steps: seq<Step>, c: ClientId) returns (d: ClientId, q: Req)
    requires CanRun(INIT, steps) && Enabled(Run(INIT, steps), RelayEnqueues(c))
    ensures var s := Run(INIT, steps);
      && JoinsOnly(s, Next(s, RelayEnqueues(c)), d, q)
      && c in s.clients && (Redirected(s.clients[c], q, d) || Asked(steps, c, q, d))
  {
    hide CanRun, Run, Asked;
    var s := Run(INIT, steps);
    RunTraced(steps);
    EnqueuedJoins(s, c);
    assert Traced(s.clients[c]);
    d, q := s.clients[c].relay.to, s.clients[c].relay.reqs[0];
    FirstIsAsking(steps, c);
  }

  // ---------- what becomes of a redirected request ----------

  /** The reader still has the request in hand, for that client. */
  ghost predicate HeldFor(s: State, c: ClientId, d: ClientId, r: Req) {
    && c in s.clients && s.clients[c].relay.Busy? && s.clients[c].relay.to == d
    && s.clients[c].relay.reqs != [] && s.clients[c].relay.reqs[|s.clients[c].relay.reqs| - 1] == r
  }

  /** The step puts the request into the pending queue of d, or answers it as d is closed or the upstream quits. */
  ghost predicate Disposes(s: State, step: Step, s': State, c: ClientId, d: ClientId, r: Req) {
    || (step == RelayEnqueues(c) && JoinsOnly(s, s', d, r))
    || (step.RelayChecks? && step.c == c && (step.refused || !Open(s, d)) && s'.answered == s.answered + [r])
  }

  lemma HeldStep(s: State, step: Step, c: ClientId, d: ClientId, r: Req)
    requires Enabled(s, step) && HeldFor(s, c, d, r)
    ensures HeldFor(Next(s, step), c, d, r) || Disposes(s, step, Next(s, step), c, d, r)
  {
    hide LocalOk, Local, Says, Issues;
    if Relays(step, c) {
      if step.RelayEnqueues? {
        EnqueuedJoins(s, c);
      }
    } else {
      FrontWaits(s, step, c);
    }
  }

  /** One reply: a final one answers its request, any other puts it into the reader's hand for the client it names. */
  lemma HandledReply(s: State, c: ClientId, asking: Req)
    requires Enabled(s, Handles(c, asking))
    ensures var x := s.clients[c];
      var reply, r, s' := x.replies[|x.handed|], x.processing[0], Next(s, Handles(c, asking));
      if reply.Final? then s'.answered == s.answered + [r] && s'.clients[c].relay.Idle?
      else
        && s'.answered == s.answered && HeldFor(s', c, reply.to, r)
        && s'.clients[c].relay.reqs == if reply.Ask? then [asking, r] else [r]
  {
  }

  ghost predicate DisposedAt(steps: seq<Step>, j: nat, c: ClientId, d: ClientId, r: Req)
    requires CanRun(INIT, steps)
  {
    j < |steps| && Disposes(Before(steps, j), steps[j], Before(steps, j + 1), c, d, r)
  }

  /**
   In every run, once a reader has matched a request with a redirection that names d, the request is in the reader's
   hand for d, or it was put into the pending queue of d, or it was answered as d was closed or the upstream quit.
   */
  lemma {:induction false} RedirectedGoesOn(steps: seq<Step>, i: nat, c: ClientId, reply: Reply, r: Req)
    requires CanRun(INIT, steps) && MatchesAt(steps, i, c, reply, r) && !reply.Final?
    ensures HeldFor(Run(INIT, steps), c, reply.to, r)
         || exists j: nat :: i < j && DisposedAt(steps, j, c, reply.to, r)
  {
    hide CanRun, Run, Enabled, Next, Disposes, HeldFor;
    var n := |steps| - 1;
    BeforeNext(steps, n);
    BeforeInit(steps, n);
    if i == n {
      HandledReply(Before(steps, i), c, steps[i].asking);
      assert steps[i] == Handles(c, steps[i].asking);
    } else {
      var init := steps[..n];
      BeforeInit(steps, i);
      assert MatchesAt(init, i, c, reply, r);
      RedirectedGoesOn(init, i, c, reply, r);
      if j: nat :| i < j && DisposedAt(init, j, c, reply.to, r) {
        BeforeInit(steps, j);
        if j + 1 < |steps| {
          BeforeInit(steps, j + 1);
        }
        assert DisposedAt(steps, j, c, reply.to, r);
      } else {
        InitRun(steps);
        HeldStep(Before(steps, n), steps[n], c, reply.to, r);
        assert !HeldFor(Run(INIT, steps), c, reply.to, r) ==> DisposedAt(steps, n, c, reply.to, r);
      }
    }
  }

  lemma InitRun(steps: seq<Step>)
    requires CanRun(INIT, steps) && steps != []
    ensures CanRun(INIT, steps[..|steps| - 1]) && Before(steps, |steps| - 1) == Run(INIT, steps[..|steps| - 1])
  {
  }
}
