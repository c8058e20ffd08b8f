/** What every run of the request pipeline keeps. */
module PipelineSafety {
  import opened Basics
  import opened Pipeline

  /** Where a request can be. */
  datatype Place =
    | Sending(c: ClientId) | Pending(c: ClientId) | Held(c: ClientId) | Processing(c: ClientId)
    | Relaying(c: ClientId) | Dropped(c: ClientId) | Answered

  function HeldBy(w: Writer): seq<Req> {
    match w
    case Filtering(r) => [r]
    case Encoded(r) => [r]
    case Flushed(r) => [r]
    case _ => []
  }

  function HeldToRelay(relay: Relay): seq<Req> {
    if relay.Busy? then relay.reqs else []
  }

  function At(s: State, p: Place): seq<Req> {
    match p
    case Answered => s.answered
    case Sending(c) => if c in s.clients then s.clients[c].sending else []
    case Pending(c) => if c in s.clients then s.clients[c].pending else []
    case Held(c) => if c in s.clients then HeldBy(s.clients[c].writer) else []
    case Processing(c) => if c in s.clients then s.clients[c].processing else []
    case Relaying(c) => if c in s.clients then HeldToRelay(s.clients[c].relay) else []
    case Dropped(c) => if c in s.clients then s.clients[c].dropped else []
  }

  /** Every issued request is in exactly one place, once. */
  ghost predicate OnePlace(s: State) {
    && (forall p :: Distinct(At(s, p)))
    && (forall p, q, r :: r in At(s, p) && r in At(s, q) ==> p == q)
    && (forall p, r :: r in At(s, p) ==> r in s.issued)
    && (forall r :: r in s.issued ==> exists p :: r in At(s, p))
  }

  // ---------- how a step moves requests ----------

  ghost predicate SameElsewhere(s: State, s': State, p: Place, q: Place) {
    forall x :: x != p && x != q ==> At(s', x) == At(s, x)
  }

  /** Request number i of place p goes to the end of place q. */
  ghost predicate Moves(s: State, s': State, p: Place, i: nat, q: Place) {
    && s'.issued == s.issued && p != q && i < |At(s, p)|
    && At(s', p) == Drop(At(s, p), i)
    && At(s', q) == At(s, q) + [At(s, p)[i]]
    && SameElsewhere(s, s', p, q)
  }

  ghost predicate Appears(s: State, s': State, r: Req, q: Place) {
    && r !in s.issued && s'.issued == s.issued + {r}
    && At(s', q) == At(s, q) + [r]
    && SameElsewhere(s, s', q, q)
  }

  ghost predicate Stays(s: State, s': State) {
    s'.issued == s.issued && forall p :: At(s', p) == At(s, p)
  }

  lemma DropFacts<T>(q: seq<T>, i: nat)
    requires Distinct(q) && i < |q|
    ensures Distinct(Drop(q, i)) && forall x :: x in Drop(q, i) <==> x in q && x != q[i]
  {
    var d := Drop(q, i);
    forall k | 0 <= k < |d| ensures d[k] == q[if k < i then k else k + 1] {
    }
    forall x | x in q && x != q[i] ensures x in d {
      var k :| 0 <= k < |q| && q[k] == x;
      assert d[if k < i then k else k - 1] == x;
    }
  }

  lemma MoveKeeps(s: State, s': State, p: Place, i: nat, q: Place)
    requires OnePlace(s) && Moves(s, s', p, i, q)
    ensures OnePlace(s')
  {
    hide At;
    var r := At(s, p)[i];
    DropFacts(At(s, p), i);
    assert r in At(s, p);
    assert r in At(s', q) by { assert At(s', q)[|At(s, q)|] == r; }
    forall x, y ensures y in At(s', x) <==> (if y == r then x == q else y in At(s, x)) {
      if x == q {
        assert y in At(s', q) <==> y in At(s, q) || y == r;
      } else if x == p {
        assert y in At(s', p) <==> y in At(s, p) && y != r;
      }
    }
    forall y | y in s'.issued ensures exists x :: y in At(s', x) {
      var x :| y in At(s, x);
      assert y in At(s', if y == r then q else x);
    }
    assert r !in At(s, q);
    DistinctAppend(At(s, q), r);
  }

  lemma DistinctAppend<T>(q: seq<T>, x: T)
    requires Distinct(q) && x !in q
    ensures Distinct(q + [x])
  {
  }

  lemma AppearKeeps(s: State, s': State, r: Req, q: Place)
    requires OnePlace(s) && Appears(s, s', r, q)
    ensures OnePlace(s')
  {
    hide At;
    assert r !in At(s, q);
    assert r in At(s', q) by { assert At(s', q)[|At(s, q)|] == r; }
    forall x, y ensures y in At(s', x) <==> (y in At(s, x) || (y == r && x == q)) {
    }
    forall y | y in s'.issued ensures exists x :: y in At(s', x) {
      if y != r {
        var x :| y in At(s, x);
        assert y in At(s', x);
      }
    }
    DistinctAppend(At(s, q), r);
  }

  lemma StayKeeps(s: State, s': State)
    requires OnePlace(s) && Stays(s, s')
    ensures OnePlace(s')
  {
    forall y | y in s'.issued ensures exists x :: y in At(s', x) {
      var x :| y in At(s, x);
      assert y in At(s', x);
    }
  }

  /** Moves made by callers and by the writer. */
  lemma WriterMoves(s: State, step: Step)
    requires Enabled(s, step)
    ensures var s' := Next(s, step);
      match step
      case Enqueue(c, i) => Moves(s, s', Sending(c), i, Pending(c))
      case WriterTakes(c) => Moves(s, s', Pending(c), 0, Held(c))
      case Pushes(c) => Moves(s, s', Held(c), 0, Processing(c))
      case WriterDrops(c) => Moves(s, s', Held(c), 0, Dropped(c))
      case _ => true
  {
    hide Moves, Next;
    match step
    case Enqueue(c, i) => EnqueueMoves(s, c, i);
    case WriterTakes(c) => TakeMoves(s, c);
    case Pushes(c) => PushMoves(s, c);
    case WriterDrops(c) => DropMoves(s, c);
    case _ =>
  }

  lemma EnqueueMoves(s: State, c: ClientId, i: nat)
    requires Enabled(s, Enqueue(c, i))
    ensures Moves(s, Next(s, Enqueue(c, i)), Sending(c), i, Pending(c))
  {
  }

  lemma TakeMoves(s: State, c: ClientId)
    requires Enabled(s, WriterTakes(c))
    ensures Moves(s, Next(s, WriterTakes(c)), Pending(c), 0, Held(c))
  {
    var x := s.clients[c];
    assert Drop(x.pending, 0) == x.pending[1..] && [] + [x.pending[0]] == [x.pending[0]];
  }

  lemma PushMoves(s: State, c: ClientId)
    requires Enabled(s, Pushes(c))
    ensures Moves(s, Next(s, Pushes(c)), Held(c), 0, Processing(c))
  {
    assert Drop([s.clients[c].writer.req], 0) == [];
  }

  lemma DropMoves(s: State, c: ClientId)
    requires Enabled(s, WriterDrops(c))
    ensures Moves(s, Next(s, WriterDrops(c)), Held(c), 0, Dropped(c))
  {
    assert Drop([s.clients[c].writer.req], 0) == [];
  }

  /** Moves that end in an answer, apart from replies. */
  lemma GivingUpMoves(s: State, step: Step)
    requires Enabled(s, step)
    ensures var s' := Next(s, step);
      match step
      case FilterStops(c) => Moves(s, s', Held(c), 0, Answered)
      case EncodeFails(c) => Moves(s, s', Held(c), 0, Answered)
      case FlushFails(c) => Moves(s, s', Held(c), 0, Answered)
      case _ => true
  {
  }

  lemma DrainMoves(s: State, step: Step)
    requires Enabled(s, step)
    ensures var s' := Next(s, step);
      match step
      case DrainsPending(c) => Moves(s, s', Pending(c), 0, Answered)
      case DrainsProcessing(c) => Moves(s, s', Processing(c), 0, Answered)
      case _ => true
  {
    if step.DrainsPending? {
      assert Drop(s.clients[step.c].pending, 0) == s.clients[step.c].pending[1..];
    } else if step.DrainsProcessing? {
      assert Drop(s.clients[step.c].processing, 0) == s.clients[step.c].processing[1..];
    }
  }

  predicate IsQuiet(step: Step) {
    || step.WriterQuits? || step.Encodes? || step.Flushes? || step.SkipsFlush? || step.Decodes?
    || step.ReaderExits? || step.Quits? || step.Closes? || step.DrainEnds?
  }

  lemma QuietLocal(x: Client, step: Step)
    requires IsQuiet(step) && LocalOk(x, step)
    ensures var y := Local(x, step);
      && y.sending == x.sending && y.pending == x.pending && HeldBy(y.writer) == HeldBy(x.writer)
      && y.processing == x.processing && y.relay == x.relay && y.dropped == x.dropped
      && Says(x, step) == [] && Issues(x, step) == {}
  {
  }

  lemma QuietSteps(s: State, step: Step)
    requires Enabled(s, step) && IsQuiet(step)
    ensures Stays(s, Next(s, step))
  {
    hide LocalOk, Local, Says, Issues, HeldBy;
    QuietLocal(s.clients[step.c], step);
  }

  lemma NewRequests(s: State, step: Step)
    requires Enabled(s, step)
    ensures var s' := Next(s, step);
      match step
      case Connect(c, r) => Appears(s, s', r, Pending(c))
      case Issue(c, r) => Appears(s, s', r, if s.clients[c].quit then Answered else Sending(c))
      case IssueFails(r) => Appears(s, s', r, Answered)
      case _ => true
  {
  }

  lemma StepKeepsOnePlace(s: State, step: Step)
    requires OnePlace(s) && Enabled(s, step)
    ensures OnePlace(Next(s, step))
  {
    hide OnePlace, Moves, Appears, Stays, Next;
    WriterMoves(s, step);
    GivingUpMoves(s, step);
    DrainMoves(s, step);
    NewRequests(s, step);
    var s' := Next(s, step);
    match step
    case Connect(c, r) => AppearKeeps(s, s', r, Pending(c));
    case Issue(c, r) => AppearKeeps(s, s', r, if s.clients[c].quit then Answered else Sending(c));
    case IssueFails(r) => AppearKeeps(s, s', r, Answered);
    case Enqueue(c, i) => MoveKeeps(s, s', Sending(c), i, Pending(c));
    case WriterTakes(c) => MoveKeeps(s, s', Pending(c), 0, Held(c));
    case FilterStops(c) => MoveKeeps(s, s', Held(c), 0, Answered);
    case EncodeFails(c) => MoveKeeps(s, s', Held(c), 0, Answered);
    case FlushFails(c) => MoveKeeps(s, s', Held(c), 0, Answered);
    case Pushes(c) => MoveKeeps(s, s', Held(c), 0, Processing(c));
    case WriterDrops(c) => MoveKeeps(s, s', Held(c), 0, Dropped(c));
    case DrainsPending(c) => MoveKeeps(s, s', Pending(c), 0, Answered);
    case DrainsProcessing(c) => MoveKeeps(s, s', Processing(c), 0, Answered);
    case Handles(c, asking) => HandleKeepsOnePlace(s, c, asking);
    case RelayChecks(c, refused) => CheckKeepsOnePlace(s, c, refused);
    case RelayEnqueues(c) => RelayKeepsOnePlace(s, c);
    case _ =>
      QuietSteps(s, step);
      StayKeeps(s, s');
  }

  // ---------- the reader's moves ----------

  /** The ASKING request appears with the reader before the redirected one joins it. */
  lemma HandleKeepsOnePlace(s: State, c: ClientId, asking: Req)
    requires OnePlace(s) && Enabled(s, Handles(c, asking))
    ensures OnePlace(Next(s, Handles(c, asking)))
  {
    hide OnePlace, Moves, Appears;
    var x, s' := s.clients[c], Next(s, Handles(c, asking));
    match x.replies[|x.handed|]
    case Final(_) =>
      FinalMoves(s, c, asking);
      MoveKeeps(s, s', Processing(c), 0, Answered);
    case Moved(_, _) =>
      MovedMoves(s, c, asking);
      MoveKeeps(s, s', Processing(c), 0, Relaying(c));
    case Ask(_, to) =>
      var mid := Announced(s, c, to, asking);
      AskAppears(s, c, to, asking);
      AskMoves(s, c, to, asking);
      AppearKeeps(s, mid, asking, Relaying(c));
      MoveKeeps(mid, s', Processing(c), 0, Relaying(c));
  }

  ghost function Announced(s: State, c: ClientId, to: ClientId, asking: Req): State
    requires c in s.clients
  {
    With(s, c, s.clients[c].(relay := Busy(to, [asking], false))).(issued := s.issued + {asking})
  }

  lemma FinalMoves(s: State, c: ClientId, asking: Req)
    requires Enabled(s, Handles(c, asking)) && s.clients[c].replies[|s.clients[c].handed|].Final?
    ensures Moves(s, Next(s, Handles(c, asking)), Processing(c), 0, Answered)
  {
    assert Drop(s.clients[c].processing, 0) == s.clients[c].processing[1..];
  }

  lemma MovedMoves(s: State, c: ClientId, asking: Req)
    requires Enabled(s, Handles(c, asking)) && s.clients[c].replies[|s.clients[c].handed|].Moved?
    ensures Moves(s, Next(s, Handles(c, asking)), Processing(c), 0, Relaying(c))
  {
    assert Drop(s.clients[c].processing, 0) == s.clients[c].processing[1..];
  }

  lemma AskAppears(s: State, c: ClientId, to: ClientId, asking: Req)
    requires c in s.clients && s.clients[c].relay.Idle? && asking !in s.issued
    ensures Appears(s, Announced(s, c, to, asking), asking, Relaying(c))
  {
  }

  lemma AskMoves(s: State, c: ClientId, to: ClientId, asking: Req)
    requires Enabled(s, Handles(c, asking)) && s.clients[c].replies[|s.clients[c].handed|].Ask?
    requires s.clients[c].replies[|s.clients[c].handed|].to == to
    ensures Moves(Announced(s, c, to, asking), Next(s, Handles(c, asking)), Processing(c), 0, Relaying(c))
  {
    assert Drop(s.clients[c].processing, 0) == s.clients[c].processing[1..];
  }

  lemma CheckKeepsOnePlace(s: State, c: ClientId, refused: bool)
    requires OnePlace(s) && Enabled(s, RelayChecks(c, refused))
    ensures OnePlace(Next(s, RelayChecks(c, refused)))
  {
    hide OnePlace, Moves, Stays;
    var s', relay := Next(s, RelayChecks(c, refused)), s.clients[c].relay;
    CheckMoves(s, c, refused);
    if relay.reqs == [] || (Open(s, relay.to) && !refused) {
      StayKeeps(s, s');
    } else {
      MoveKeeps(s, s', Relaying(c), 0, Answered);
    }
  }

  lemma CheckMoves(s: State, c: ClientId, refused: bool)
    requires Enabled(s, RelayChecks(c, refused))
    ensures var s', relay := Next(s, RelayChecks(c, refused)), s.clients[c].relay;
      if relay.reqs == [] || (Open(s, relay.to) && !refused) then Stays(s, s')
      else Moves(s, s', Relaying(c), 0, Answered)
  {
    var relay := s.clients[c].relay;
    if relay.reqs != [] {
      assert Drop(relay.reqs, 0) == relay.reqs[1..];
    }
  }

  lemma RelayKeepsOnePlace(s: State, c: ClientId)
    requires OnePlace(s) && Enabled(s, RelayEnqueues(c))
    ensures OnePlace(Next(s, RelayEnqueues(c)))
  {
    hide OnePlace, Moves;
    RelayMoves(s, c);
    MoveKeeps(s, Next(s, RelayEnqueues(c)), Relaying(c), 0, Pending(s.clients[c].relay.to));
  }

  lemma RelayMoves(s: State, c: ClientId)
    requires Enabled(s, RelayEnqueues(c))
    ensures Moves(s, Next(s, RelayEnqueues(c)), Relaying(c), 0, Pending(s.clients[c].relay.to))
  {
    var relay := s.clients[c].relay;
    assert Drop(relay.reqs, 0) == relay.reqs[1..];
  }
}
