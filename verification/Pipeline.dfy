/**
 The request pipeline to the backends. Each backend client has a queue of pending requests, a
 writer, a queue of requests whose replies are awaited, and a reader; any number of clients run
 side by side and hand requests to each other when a backend redirects. Every atomic step of
 every goroutine is a step of this machine, and a run is any interleaving of them.
 */
module Pipeline {
  import opened Basics

  const QUEUE_LEN := 1024
  const BUFFER_SIZE := 4096

  type ClientId = nat

  /** A request: whether the filters stop it, and the lengths of the writes that encode it up to the last line end. */
  datatype Req = Req(id: nat, stops: bool, writes: seq<nat>)

  /** What a reply asks for: to be passed on, to be retried elsewhere, or to be retried after ASKING. */
  datatype Reply = Final(id: nat) | Moved(id: nat, to: ClientId) | Ask(id: nat, to: ClientId)

  /** The writer: waiting, with a request for the filters, with one encoded, with one past the flush, or gone. */
  datatype Writer = Waiting | Filtering(req: Req) | Encoded(req: Req) | Flushed(req: Req) | Exited

  /** What the reader has to send on, and whether the first of it is past the quit check and waits for room. */
  datatype Relay = Idle | Busy(to: ClientId, reqs: seq<Req>, waits: bool)

  // ---------- the encoder's buffer ----------

  type Fill = b: nat | b <= BUFFER_SIZE

  /** One write: what is buffered afterwards, and whether the connection had to be written to. */
  function Write(b: Fill, n: nat): (Fill, bool) {
    if b + n <= BUFFER_SIZE then (b + n, false)
    else if b == 0 then (0, true)
    else
      var rest := n - (BUFFER_SIZE - b);
      (if rest > BUFFER_SIZE then 0 else rest, true)
  }

  function WriteAll(b: Fill, writes: seq<nat>): (Fill, bool) {
    if writes == [] then (b, false)
    else
      var (b1, spilled) := WriteAll(b, writes[..|writes| - 1]);
      var (b2, spills) := Write(b1, writes[|writes| - 1]);
      (b2, spilled || spills)
  }

  function Filled(b: Fill, r: Req): Fill {
    Write(WriteAll(b, r.writes).0, 2).0
  }

  /** Encoding the request writes to the connection, so that it can fail. */
  predicate Spills(b: Fill, r: Req) {
    WriteAll(b, r.writes).1 || Write(WriteAll(b, r.writes).0, 2).1
  }

  /** The line end of a request is always left in the buffer. */
  lemma FilledSome(b: Fill, r: Req)
    ensures Filled(b, r) > 0
  {
  }

  function Sum(writes: seq<nat>): nat {
    if writes == [] then 0 else Sum(writes[..|writes| - 1]) + writes[|writes| - 1]
  }

  lemma {:induction false} WriteAllExactly(b: Fill, writes: seq<nat>)
    ensures WriteAll(b, writes).1 <==> b + Sum(writes) > 4096
    ensures b + Sum(writes) <= 4096 ==> WriteAll(b, writes).0 == b + Sum(writes)
  {
    if writes != [] {
      WriteAllExactly(b, writes[..|writes| - 1]);
    }
  }

  /** Encoding a request writes to the connection exactly when what is buffered and the request exceed 4096 bytes. */
  lemma SpillsExactly(b: Fill, r: Req)
    ensures Spills(b, r) <==> b + Sum(r.writes) + 2 > 4096
    ensures !Spills(b, r) ==> Filled(b, r) == b + Sum(r.writes) + 2
  {
    WriteAllExactly(b, r.writes);
  }

  // ---------- clients ----------

  datatype Client = Client(
    sending: seq<Req>,         // held by callers that wait for room in the pending queue
    pending: seq<Req>,
    writer: Writer,
    buffered: Fill,
    processing: seq<Req>,
    relay: Relay,
    readerDone: bool,
    quit: bool,
    closed: bool,              // the connection is closed from this side
    drained: bool,
    dropped: seq<Req>,         // what the writer held when it quit
    wire: seq<Req>,            // everything encoded on the connection, in order
    replies: seq<Reply>,       // everything decoded from the connection, in order
    handed: seq<(Reply, Req)>) // which reply was given to which request

  datatype State = State(clients: map<ClientId, Client>, answered: seq<Req>, issued: set<Req>)

  const INIT := State(map[], [], {})

  function NewClient(readonly: Req): Client {
    Client([], [readonly], Waiting, 0, [], Idle, false, false, false, false, [], [], [], [])
  }

  // ---------- steps ----------

  datatype Step =
    | Connect(c: ClientId, readonly: Req)
    | Issue(c: ClientId, r: Req)
    | IssueFails(r: Req)
    | Enqueue(c: ClientId, i: nat)
    | WriterTakes(c: ClientId)
    | WriterQuits(c: ClientId)
    | FilterStops(c: ClientId)
    | Encodes(c: ClientId)
    | EncodeFails(c: ClientId)
    | Flushes(c: ClientId)
    | FlushFails(c: ClientId)
    | SkipsFlush(c: ClientId)
    | Pushes(c: ClientId)
    | WriterDrops(c: ClientId)
    | Decodes(c: ClientId, reply: Reply)
    | Handles(c: ClientId, asking: Req)
    | RelayChecks(c: ClientId, refused: bool)
    | RelayEnqueues(c: ClientId)
    | ReaderExits(c: ClientId)
    | Quits(c: ClientId)
    | Closes(c: ClientId)
    | DrainsPending(c: ClientId)
    | DrainsProcessing(c: ClientId)
    | DrainEnds(c: ClientId)

  /** Steps that concern one client and what it answers. */
  predicate IsLocal(step: Step) {
    !step.Connect? && !step.Issue? && !step.IssueFails? && !step.RelayChecks? && !step.RelayEnqueues?
  }

  predicate CanDrain(x: Client) {
    x.readerDone && x.quit && x.writer.Exited? && !x.drained
  }

  /** The reader is at the connection, with no reply in hand and nothing to send on. */
  predicate AtConnection(x: Client) {
    !x.readerDone && x.relay.Idle? && |x.replies| == |x.handed|
  }

  /** The reader has a reply and waits for the request it belongs to. */
  predicate Matching(x: Client) {
    !x.readerDone && x.relay.Idle? && |x.handed| < |x.replies|
  }

  predicate LocalOk(x: Client, step: Step)
    requires IsLocal(step)
  {
    match step
    case Enqueue(_, i) => i < |x.sending| && |x.pending| < QUEUE_LEN
    case WriterTakes(_) => x.writer.Waiting? && x.pending != []
    case WriterQuits(_) => x.writer.Waiting? && x.quit
    case FilterStops(_) => x.writer.Filtering? && x.writer.req.stops
    case Encodes(_) => x.writer.Filtering? && !x.writer.req.stops && !(x.closed && Spills(x.buffered, x.writer.req))
    case EncodeFails(_) => x.writer.Filtering? && !x.writer.req.stops && Spills(x.buffered, x.writer.req)
    case Flushes(_) => x.writer.Encoded? && x.pending == [] && !x.closed
    case FlushFails(_) => x.writer.Encoded? && x.pending == [] && x.buffered > 0
    case SkipsFlush(_) => x.writer.Encoded? && x.pending != []
    case Pushes(_) => x.writer.Flushed? && |x.processing| < QUEUE_LEN
    case WriterDrops(_) => x.writer.Flushed? && x.quit
    case Decodes(_, _) => AtConnection(x)
    case Handles(_, asking) => Matching(x) && x.processing != [] && !asking.stops
    case ReaderExits(_) => AtConnection(x)
    case Quits(_) => true
    case Closes(_) => x.quit || x.readerDone || x.writer.Exited?
    case DrainsPending(_) => CanDrain(x) && x.pending != []
    case DrainsProcessing(_) => CanDrain(x) && x.processing != []
    case DrainEnds(_) => CanDrain(x) && x.pending == [] && x.processing == []
    case _ => false
  }

  /** What the reader sends on after matching a reply with a request. */
  function RelayOf(reply: Reply, r: Req, asking: Req): Relay {
    match reply
    case Final(_) => Idle
    case Moved(_, to) => Busy(to, [r], false)
    case Ask(_, to) => Busy(to, [asking, r], false)
  }

  /** The client after one of its own steps. */
  function Local(x: Client, step: Step): Client
    requires IsLocal(step) && LocalOk(x, step)
  {
    match step
    case Enqueue(_, i) => x.(sending := Drop(x.sending, i), pending := x.pending + [x.sending[i]])
    case WriterTakes(_) => x.(pending := x.pending[1..], writer := Filtering(x.pending[0]))
    case WriterQuits(_) => x.(writer := Exited)
    case FilterStops(_) => x.(writer := Waiting)
    case Encodes(_) =>
      var r := x.writer.req;
      x.(writer := Encoded(r), buffered := Filled(x.buffered, r), wire := x.wire + [r])
    case EncodeFails(_) => x.(writer := Exited)
    case Flushes(_) => x.(writer := Flushed(x.writer.req), buffered := 0)
    case FlushFails(_) => x.(writer := Exited)
    case SkipsFlush(_) => x.(writer := Flushed(x.writer.req))
    case Pushes(_) => x.(writer := Waiting, processing := x.processing + [x.writer.req])
    case WriterDrops(_) => x.(writer := Exited, dropped := x.dropped + [x.writer.req])
    case Decodes(_, reply) => x.(replies := x.replies + [reply])
    case Handles(_, asking) =>
      var reply, r := x.replies[|x.handed|], x.processing[0];
      x.(processing := x.processing[1..], handed := x.handed + [(reply, r)], relay := RelayOf(reply, r, asking))
    case ReaderExits(_) => x.(readerDone := true)
    case Quits(_) => x.(quit := true)
    case Closes(_) => x.(closed := true)
    case DrainsPending(_) => x.(pending := x.pending[1..])
    case DrainsProcessing(_) => x.(processing := x.processing[1..])
    case DrainEnds(_) => x.(drained := true)
  }

  /** What the step answers. */
  function Says(x: Client, step: Step): seq<Req>
    requires IsLocal(step) && LocalOk(x, step)
  {
    match step
    case FilterStops(_) => [x.writer.req]
    case EncodeFails(_) => [x.writer.req]
    case FlushFails(_) => [x.writer.req]
    case Handles(_, _) => if x.replies[|x.handed|].Final? then [x.processing[0]] else []
    case DrainsPending(_) => [x.pending[0]]
    case DrainsProcessing(_) => [x.processing[0]]
    case _ => []
  }

  /** What the step issues: the request that announces an ASK. */
  function Issues(x: Client, step: Step): set<Req>
    requires IsLocal(step) && LocalOk(x, step)
  {
    if step.Handles? && x.replies[|x.handed|].Ask? then {step.asking} else {}
  }

  /** A client that takes requests: it is there and not told to quit. */
  predicate Open(s: State, c: ClientId) {
    c in s.clients && !s.clients[c].quit
  }

  predicate LocalEnabled(s: State, step: Step)
    requires IsLocal(step)
  {
    && step.c in s.clients && LocalOk(s.clients[step.c], step)
    && (step.Handles? ==> step.asking !in s.issued)
  }

  predicate Enabled(s: State, step: Step) {
    if IsLocal(step) then LocalEnabled(s, step)
    else if step.Connect? then step.c !in s.clients && step.readonly !in s.issued && !step.readonly.stops
    else if step.Issue? then step.c in s.clients && step.r !in s.issued
    else if step.IssueFails? then step.r !in s.issued
    else if step.RelayChecks? then
      step.c in s.clients && s.clients[step.c].relay.Busy? && !s.clients[step.c].relay.waits
    else step.c in s.clients && CanEnqueue(s, s.clients[step.c].relay)
  }

  /** The reader waits for room in a pending queue, and there is some. */
  predicate CanEnqueue(s: State, relay: Relay) {
    && relay.Busy? && relay.waits && relay.reqs != []
    && relay.to in s.clients && |s.clients[relay.to].pending| < QUEUE_LEN
  }

  function With(s: State, c: ClientId, x: Client): State {
    s.(clients := s.clients[c := x])
  }

  function Answer(s: State, r: Req): State {
    s.(answered := s.answered + [r])
  }

  /** Send: refused with an answer once the client has quit, else the caller waits to enqueue. */
  function Send(s: State, c: ClientId, r: Req): State
    requires c in s.clients
  {
    var x := s.clients[c];
    if x.quit then Answer(s, r) else With(s, c, x.(sending := x.sending + [r]))
  }

  /** The reader is done with the first request it has to send on. */
  function SentOn(relay: Relay): Relay {
    if relay.Idle? || |relay.reqs| <= 1 then Idle else Busy(relay.to, relay.reqs[1..], false)
  }

  function Relayed(x: Client): Client {
    x.(relay := SentOn(x.relay))
  }

  function Queue(s: State, c: ClientId, r: Req): State
    requires c in s.clients
  {
    With(s, c, s.clients[c].(pending := s.clients[c].pending + [r]))
  }

  function LocalNext(s: State, step: Step): State
    requires IsLocal(step) && LocalEnabled(s, step)
  {
    var x := s.clients[step.c];
    State(s.clients[step.c := Local(x, step)], s.answered + Says(x, step), s.issued + Issues(x, step))
  }

  /** The reader's check: it answers, also if the upstream quits, or goes on to wait for room. */
  function Checked(s: State, c: ClientId, refused: bool): State
    requires c in s.clients && s.clients[c].relay.Busy?
  {
    var x := s.clients[c];
    if x.relay.reqs == [] then With(s, c, Relayed(x))
    else if Open(s, x.relay.to) && !refused then With(s, c, x.(relay := x.relay.(waits := true)))
    else Answer(With(s, c, Relayed(x)), x.relay.reqs[0])
  }

  function Enqueued(s: State, c: ClientId): State
    requires c in s.clients && CanEnqueue(s, s.clients[c].relay)
  {
    var relay := s.clients[c].relay;
    Queue(With(s, c, Relayed(s.clients[c])), relay.to, relay.reqs[0])
  }

  function Next(s: State, step: Step): State
    requires Enabled(s, step)
  {
    if IsLocal(step) then LocalNext(s, step)
    else if step.Connect? then With(s, step.c, NewClient(step.readonly)).(issued := s.issued + {step.readonly})
    else if step.Issue? then Send(s.(issued := s.issued + {step.r}), step.c, step.r)
    else if step.IssueFails? then Answer(s.(issued := s.issued + {step.r}), step.r)
    else if step.RelayChecks? then Checked(s, step.c, step.refused)
    else Enqueued(s, step.c)
  }

  ghost predicate CanRun(s: State, steps: seq<Step>)
    decreases |steps|, 0
  {
    steps == [] || (CanRun(s, steps[..|steps| - 1])
                    && Enabled(Run(s, steps[..|steps| - 1]), steps[|steps| - 1]))
  }

  ghost function Run(s: State, steps: seq<Step>): State
    requires CanRun(s, steps)
    decreases |steps|, 1
  {
    if steps == [] then s else Next(Run(s, steps[..|steps| - 1]), steps[|steps| - 1])
  }
}
