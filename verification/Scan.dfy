/**
 SCAN over all nodes behind one cursor: the proxy keeps no state between the client's calls, it
 packs the node index and the node's own cursor into the number it hands out.
 */
module Scan {
  import opened Basics
  import opened Bytes
  import opened RespText

  const SPAN: int := 0x1_0000_0000_0000
  const MAX_NODES: int := 0x8000

  type uint16 = x: int | 0 <= x < 0x1_0000
  type uint64 = x: int | 0 <= x < 0x1_0000_0000_0000_0000

  type Item = seq<byte>

  /** A node's reply, or the proxy's: a cursor with items, or anything else. */
  datatype Reply = Page(cursor: seq<byte>, items: seq<Item>) | Other

  datatype Routing = InvalidCursor | Exhausted | ToNode(node: uint16, cursor: uint64)

  // ---------- cursors ----------

  /** Bitwise disjunction. */
  function Or(a: nat, b: nat): nat {
    if a == 0 && b == 0 then 0
    else 2 * Or(a / 2, b / 2) + (if a % 2 == 1 || b % 2 == 1 then 1 else 0)
  }

  function ParseCursor(c: uint64): (uint16, uint64) {
    (c / SPAN, c % SPAN)
  }

  function GenCursor(node: uint16, cursor: uint64): uint64 {
    GenFits(node, cursor);
    Or(node * SPAN, cursor)
  }

  /** The conversion of a signed to an unsigned 64-bit number. */
  function ToUint64(v: int64): uint64 {
    if v < 0 then v + 0x1_0000_0000_0000_0000 else v
  }

  function Pow2(k: nat): (p: nat)
    ensures p >= 1
  {
    if k == 0 then 1 else 2 * Pow2(k - 1)
  }

  lemma DivMod(c: int, p: int, q: int, r: int)
    requires c == q * p + r && 0 <= r < p
    ensures c / p == q && c % p == r
  {
    assert (c / p - q) * p == r - c % p;
    if c / p != q {
      Multiple(c / p - q, p);
    }
  }

  lemma Multiple(k: int, p: int)
    requires k != 0 && p > 0
    ensures k * p >= p || k * p <= -p
  {
  }

  /** Disjunction works on the high and the low part apart. */
  lemma {:induction false} OrSplits(a: nat, q: nat, r: nat, k: nat)
    requires r < Pow2(k)
    ensures Or(a * Pow2(k), q * Pow2(k) + r) == Or(a, q) * Pow2(k) + r
  {
    if k != 0 {
      OrSplits(a, q, r / 2, k - 1);
      OrSplitsNext(a, q, r, Pow2(k - 1));
    }
  }

  lemma OrSplitsNext(a: nat, q: nat, r: nat, p: nat)
    requires Or(a * p, q * p + r / 2) == Or(a, q) * p + r / 2
    ensures Or(a * (2 * p), q * (2 * p) + r) == Or(a, q) * (2 * p) + r
  {
    hide Or;
    TwiceOver(a, p);
    TwiceOver(q, p);
    TwiceOver(Or(a, q), p);
    OrEven(a * p, 2 * (q * p) + r);
  }

  lemma TwiceOver(x: int, p: int)
    ensures x * (2 * p) == 2 * (x * p)
  {
  }

  lemma OrEven(x: nat, c: nat)
    ensures Or(2 * x, c) == 2 * Or(x, c / 2) + c % 2
  {
  }

  lemma {:induction false} OrZero(a: nat)
    ensures Or(a, 0) == a
  {
    if a != 0 {
      OrZero(a / 2);
    }
  }

  lemma {:induction false} OrBound(a: nat, b: nat, k: nat)
    requires a < Pow2(k) && b < Pow2(k)
    ensures Or(a, b) < Pow2(k)
  {
    if k != 0 {
      OrBound(a / 2, b / 2, k - 1);
    }
  }

  lemma Powers()
    ensures Pow2(16) == 0x1_0000 && Pow2(48) == SPAN
  {
    assert Pow2(8) == 256;
    assert Pow2(16) == 0x1_0000;
    assert Pow2(24) == 0x100_0000;
    assert Pow2(32) == 0x1_0000_0000;
    assert Pow2(40) == 0x100_0000_0000;
  }

  lemma GenSplits(node: uint16, cursor: uint64)
    ensures Or(node * SPAN, cursor) == Or(node, cursor / SPAN) * SPAN + cursor % SPAN
    ensures Or(node, cursor / SPAN) < 0x1_0000
  {
    Powers();
    OrSplits(node, cursor / SPAN, cursor % SPAN, 48);
    OrBound(node, cursor / SPAN, 16);
  }

  lemma GenFits(node: uint16, cursor: uint64)
    ensures 0 <= Or(node * SPAN, cursor) < 0x1_0000_0000_0000_0000
  {
    GenSplits(node, cursor);
  }

  /** A packed cursor gives back its node and cursor exactly when the node's cursor fits 48 bits. */
  lemma CursorRoundTrip(node: uint16, cursor: uint64)
    ensures ParseCursor(GenCursor(node, cursor)) == (node, cursor) <==> cursor < SPAN
    ensures cursor < SPAN ==> GenCursor(node, cursor) == node * SPAN + cursor
  {
    GenSplits(node, cursor);
    OrZero(node);
    DivMod(GenCursor(node, cursor), SPAN, Or(node, cursor / SPAN), cursor % SPAN);
  }

  // ---------- the proxy ----------

  /** Where a cursor leads. Both the host count and the node index are 16 bits wide. */
  function Route(hosts: nat, text: seq<byte>): Routing {
    match ParseDecimal(text)
    case None => InvalidCursor
    case Some(v) =>
      var (node, cursor) := ParseCursor(ToUint64(v));
      if node >= hosts % 0x1_0000 then Exhausted else ToNode(node, cursor)
  }

  /** The node's reply with the cursor the client is to come back with. */
  function Rewrite(node: uint16, reply: Reply): Reply {
    match reply
    case Other => Other
    case Page(text, items) =>
      match ParseDecimal(text)
      case None => reply
      case Some(v) =>
        var next := if v == 0 then (node + 1) % 0x1_0000 else node;
        Page(Decimal(GenCursor(next, ToUint64(v))), items)
  }

  // ---------- a client that iterates ----------

  datatype Visit = Visit(node: nat, sent: seq<byte>)

  datatype Client = Client(cursor: seq<byte>, visits: seq<Visit>, items: seq<Item>, finished: bool)

  function Start(): Client {
    Client(Decimal(0), [], [], false)
  }

  /** The client goes on with the cursor it was given and stops at 0; on any other reply it asks again. */
  function Receive(c: Client, reply: Reply): Client {
    match reply
    case Other => c
    case Page(text, items) => c.(cursor := text, items := c.items + items, finished := text == Decimal(0))
  }

  /** One call of the client, answer being what the node says if one is asked. */
  function Exchange(hosts: nat, c: Client, answer: Reply): Client {
    if c.finished then c
    else
      match Route(hosts, c.cursor)
      case InvalidCursor => c
      case Exhausted => Receive(c, Page(Decimal(0), []))
      case ToNode(node, cursor) =>
        Receive(c.(visits := c.visits + [Visit(node, Decimal(cursor))]), Rewrite(node, answer))
  }

  function Run(hosts: nat, answers: seq<Reply>): Client {
    if answers == [] then Start()
    else Exchange(hosts, Run(hosts, answers[..|answers| - 1]), answers[|answers| - 1])
  }

  // ---------- what the iteration is for: each node in turn, with its own cursor ----------

  datatype Walk = Walk(node: nat, cursor: nat, visits: seq<Visit>, items: seq<Item>, finished: bool)

  function WalkStep(hosts: nat, w: Walk, answer: Reply): Walk {
    if w.finished then w
    else if w.node == hosts then w.(finished := true)
    else
      var asked := w.(visits := w.visits + [Visit(w.node, Decimal(w.cursor))]);
      match answer
      case Other => asked
      case Page(text, items) =>
        var next := Number(text);
        asked.(node := if next == 0 then w.node + 1 else w.node, cursor := next, items := w.items + items)
  }

  function Begin(): Walk {
    Walk(0, 0, [], [], false)
  }

  function WalkRun(hosts: nat, w: Walk, answers: seq<Reply>): Walk {
    if answers == [] then w
    else WalkStep(hosts, WalkRun(hosts, w, answers[..|answers| - 1]), answers[|answers| - 1])
  }

  function Number(text: seq<byte>): nat {
    match ParseDecimal(text)
    case None => 0
    case Some(v) => ToUint64(v)
  }

  /** A page comes with a number of at most 48 bits. */
  predicate SaneAnswer(answer: Reply) {
    answer.Page? ==>
      var v := ParseDecimal(answer.cursor);
      v.Some? && 0 <= v.value < SPAN
  }

  ghost predicate Sane(answers: seq<Reply>) {
    forall i :: 0 <= i < |answers| ==> SaneAnswer(answers[i])
  }

  ghost predicate Follows(hosts: nat, c: Client, w: Walk) {
    && c.visits == w.visits && c.items == w.items && c.finished == w.finished
    && w.node <= hosts && w.cursor < SPAN && (w.node == hosts ==> w.cursor == 0)
    && (!w.finished ==> c.cursor == Decimal(w.node * SPAN + w.cursor))
  }

  lemma DecimalInjective(a: nat, b: nat)
    ensures Decimal(a) == Decimal(b) ==> a == b
  {
    ValueOfDigits(a);
    ValueOfDigits(b);
  }

  lemma RouteOf(hosts: nat, node: nat, cursor: nat)
    requires hosts < MAX_NODES && node <= hosts && cursor < SPAN
    ensures Route(hosts, Decimal(node * SPAN + cursor)) == if node == hosts then Exhausted else ToNode(node, cursor)
  {
    ParseOfDecimal(node * SPAN + cursor);
    DivMod(node * SPAN + cursor, SPAN, node, cursor);
  }

  lemma RewriteOf(node: nat, text: seq<byte>, n: int64, items: seq<Item>)
    requires node + 1 < MAX_NODES && ParseDecimal(text) == Some(n) && 0 <= n < SPAN
    ensures var next := if n == 0 then node + 1 else node;
            Rewrite(node, Page(text, items)) == Page(Decimal(next * SPAN + n), items)
    ensures Number(text) == n
  {
    hide Decimal, ParseDecimal, GenCursor, ParseCursor;
    CursorRoundTrip(if n == 0 then node + 1 else node, n);
  }

  lemma ExchangeFollows(hosts: nat, c: Client, w: Walk, answer: Reply)
    requires hosts < MAX_NODES && Follows(hosts, c, w) && SaneAnswer(answer)
    ensures Follows(hosts, Exchange(hosts, c, answer), WalkStep(hosts, w, answer))
  {
    hide Route, Rewrite, Decimal, Number, ParseDecimal;
    assert c.items + [] == c.items;
    if !w.finished {
      RouteOf(hosts, w.node, w.cursor);
      if w.node < hosts {
        RewriteOther(w.node);
        if answer.Page? {
          var n := ParseDecimal(answer.cursor).value;
          RewriteOf(w.node, answer.cursor, n, answer.items);
          var next := if n == 0 then w.node + 1 else w.node;
          DecimalInjective(next * SPAN + n, 0);
        }
      }
    }
  }

  /**
   The condition on the answers is exact: after any other page the client's next call leaves the walk, by going
   elsewhere, by sending another cursor, or by ending when the walk does not.
   */
  lemma SaneExactly(hosts: nat, c: Client, w: Walk, answer: Reply)
    requires hosts < MAX_NODES && Follows(hosts, c, w) && !w.finished && w.node < hosts && answer.Page?
    ensures var c2 := Exchange(hosts, Exchange(hosts, c, answer), Other);
            var w2 := WalkStep(hosts, WalkStep(hosts, w, answer), Other);
            SaneAnswer(answer) <==> c2.visits == w2.visits && c2.finished == w2.finished
  {
    hide Route, Rewrite, Decimal, Number, ParseDecimal, Follows, SaneAnswer;
    if SaneAnswer(answer) {
      ExchangeFollows(hosts, c, w, answer);
      NothingInsane();
      ExchangeFollows(hosts, Exchange(hosts, c, answer), WalkStep(hosts, w, answer), Other);
      SameVisits(hosts, Exchange(hosts, Exchange(hosts, c, answer), Other),
                 WalkStep(hosts, WalkStep(hosts, w, answer), Other));
    } else {
      InsaneLeaves(hosts, c, w, answer);
    }
  }

  lemma NothingInsane()
    ensures SaneAnswer(Other)
  {
  }

  lemma SameVisits(hosts: nat, c: Client, w: Walk)
    requires Follows(hosts, c, w)
    ensures c.visits == w.visits && c.finished == w.finished
  {
  }

  lemma InsaneLeaves(hosts: nat, c: Client, w: Walk, answer: Reply)
    requires hosts < MAX_NODES && Follows(hosts, c, w) && !w.finished && w.node < hosts
    requires answer.Page? && !SaneAnswer(answer)
    ensures var c2 := Exchange(hosts, Exchange(hosts, c, answer), Other);
            var w2 := WalkStep(hosts, WalkStep(hosts, w, answer), Other);
            c2.visits != w2.visits || c2.finished != w2.finished
  {
    hide Decimal, ParseDecimal, GenCursor, Route;
    RouteOf(hosts, w.node, w.cursor);
    var c1, w1 := Exchange(hosts, c, answer), WalkStep(hosts, w, answer);
    RewriteHeld(w.node, answer);
    NotZero(Rewrite(w.node, answer).cursor);
    assert !c1.finished && c1.cursor == Rewrite(w.node, answer).cursor && c1.visits == w1.visits;
    var u := Number(answer.cursor);
    if ParseDecimal(answer.cursor).Some? {
      assert w1.node == w.node && w1.cursor == u >= SPAN;
      RouteSmall(hosts, c1.cursor);
      if Route(hosts, c1.cursor).ToNode? {
        var r := Route(hosts, c1.cursor);
        DecimalInjective(r.cursor, u);
        LastDiffers(c1.visits, Visit(r.node, Decimal(r.cursor)), Visit(w.node, Decimal(u)));
      }
    } else {
      UnreadableStops(hosts, answer.cursor);
    }
  }

  lemma LastDiffers<T>(s: seq<T>, a: T, b: T)
    requires a != b
    ensures s + [a] != s + [b]
  {
    assert (s + [a])[|s|] == a && (s + [b])[|s|] == b;
  }

  lemma RouteSmall(hosts: nat, text: seq<byte>)
    ensures Route(hosts, text).ToNode? ==> Route(hosts, text).cursor < SPAN
  {
  }

  lemma UnreadableStops(hosts: nat, text: seq<byte>)
    requires ParseDecimal(text).None?
    ensures Route(hosts, text) == InvalidCursor
  {
  }

  /** The stateless proxy makes the client walk the nodes in order, each with its own last cursor. */
  lemma {:induction false} ClientWalks(hosts: nat, answers: seq<Reply>)
    requires hosts < MAX_NODES && Sane(answers)
    ensures Follows(hosts, Run(hosts, answers), WalkRun(hosts, Begin(), answers))
  {
    if answers != [] {
      var last := |answers| - 1;
      ClientWalks(hosts, answers[..last]);
      ExchangeFollows(hosts, Run(hosts, answers[..last]), WalkRun(hosts, Begin(), answers[..last]), answers[last]);
    }
  }

  // ---------- complete iterations ----------

  /** One page of a node's scan. */
  datatype Batch = Batch(next: nat, items: seq<Item>)

  /** A node's scan from beginning to end: only the last page says 0. */
  ghost predicate WholeScan(s: seq<Batch>) {
    && s != [] && s[|s| - 1].next == 0
    && forall j :: 0 <= j < |s| - 1 ==> 0 < s[j].next < SPAN
  }

  function Answers(s: seq<Batch>): (r: seq<Reply>)
    ensures |r| == |s|
  {
    seq(|s|, j requires 0 <= j < |s| => Page(Decimal(s[j].next), s[j].items))
  }

  /** The node is asked with 0, then each time with what it said last. */
  function Visits(node: nat, s: seq<Batch>): (r: seq<Visit>)
    ensures |r| == |s|
  {
    seq(|s|, j requires 0 <= j < |s| => Visit(node, Decimal(if j == 0 then 0 else s[j - 1].next)))
  }

  function Items(s: seq<Batch>): seq<Item> {
    if s == [] then [] else Items(s[..|s| - 1]) + s[|s| - 1].items
  }

  function AllAnswers(scans: seq<seq<Batch>>): seq<Reply> {
    if scans == [] then [] else AllAnswers(scans[..|scans| - 1]) + Answers(scans[|scans| - 1])
  }

  function AllVisits(scans: seq<seq<Batch>>): seq<Visit> {
    if scans == [] then []
    else AllVisits(scans[..|scans| - 1]) + Visits(|scans| - 1, scans[|scans| - 1])
  }

  function AllItems(scans: seq<seq<Batch>>): seq<Item> {
    if scans == [] then [] else AllItems(scans[..|scans| - 1]) + Items(scans[|scans| - 1])
  }

  lemma {:induction false} WalkConcat(hosts: nat, w: Walk, a: seq<Reply>, b: seq<Reply>)
    ensures WalkRun(hosts, w, a + b) == WalkRun(hosts, WalkRun(hosts, w, a), b)
  {
    if b == [] {
      assert a + b == a;
    } else {
      assert (a + b)[..|a + b| - 1] == a + b[..|b| - 1];
      WalkConcat(hosts, w, a, b[..|b| - 1]);
    }
  }

  ghost function Midway(w: Walk, s: seq<Batch>, j: nat): Walk
    requires j <= |s|
  {
    Walk(if j == |s| then w.node + 1 else w.node, if j == 0 then 0 else s[j - 1].next,
         w.visits + Visits(w.node, s)[..j], w.items + Items(s[..j]), false)
  }

  lemma {:induction false} WalkNode(hosts: nat, w: Walk, s: seq<Batch>, j: nat)
    requires !w.finished && w.node < hosts && w.cursor == 0
    requires WholeScan(s) && j <= |s|
    ensures WalkRun(hosts, w, Answers(s)[..j]) == Midway(w, s, j)
  {
    if j == 0 {
      assert w.visits + Visits(w.node, s)[..0] == w.visits && w.items + Items(s[..0]) == w.items;
    } else {
      WalkNode(hosts, w, s, j - 1);
      assert Answers(s)[..j][..j - 1] == Answers(s)[..j - 1];
      WalkPage(hosts, w, s, j);
    }
  }

  lemma WalkPage(hosts: nat, w: Walk, s: seq<Batch>, j: nat)
    requires !w.finished && w.node < hosts && w.cursor == 0
    requires WholeScan(s) && 0 < j <= |s|
    ensures WalkStep(hosts, Midway(w, s, j - 1), Answers(s)[j - 1]) == Midway(w, s, j)
  {
    hide Decimal, ParseDecimal, Number;
    var b := s[j - 1];
    NumberOf(b.next);
    assert s[..j][..j - 1] == s[..j - 1];
    assert Visits(w.node, s)[..j] == Visits(w.node, s)[..j - 1] + [Visits(w.node, s)[j - 1]];
    assert w.items + Items(s[..j]) == w.items + Items(s[..j - 1]) + b.items;
    assert w.visits + Visits(w.node, s)[..j]
        == w.visits + Visits(w.node, s)[..j - 1] + [Visits(w.node, s)[j - 1]];
  }

  lemma NumberOf(n: nat)
    requires n < SPAN
    ensures Number(Decimal(n)) == n
  {
    ParseOfDecimal(n);
  }

  lemma {:induction false} WalkNodes(hosts: nat, scans: seq<seq<Batch>>)
    requires |scans| <= hosts && forall i :: 0 <= i < |scans| ==> WholeScan(scans[i])
    ensures WalkRun(hosts, Begin(), AllAnswers(scans))
         == Walk(|scans|, 0, AllVisits(scans), AllItems(scans), false)
  {
    if scans != [] {
      var k := |scans| - 1;
      WalkNodes(hosts, scans[..k]);
      var w := WalkRun(hosts, Begin(), AllAnswers(scans[..k]));
      WalkConcat(hosts, Begin(), AllAnswers(scans[..k]), Answers(scans[k]));
      WalkNode(hosts, w, scans[k], |scans[k]|);
      assert Answers(scans[k])[..|scans[k]|] == Answers(scans[k]);
      assert Visits(k, scans[k])[..|scans[k]|] == Visits(k, scans[k]);
      assert scans[k][..|scans[k]|] == scans[k];
    }
  }

  lemma AnswersSane(s: seq<Batch>)
    requires WholeScan(s)
    ensures Sane(Answers(s))
  {
    forall j | 0 <= j < |s| ensures SaneAnswer(Answers(s)[j]) {
      ParseOfDecimal(s[j].next);
    }
  }

  lemma {:induction false} AllAnswersSane(scans: seq<seq<Batch>>)
    requires forall i :: 0 <= i < |scans| ==> WholeScan(scans[i])
    ensures Sane(AllAnswers(scans))
  {
    hide Decimal, SaneAnswer;
    if scans != [] {
      AllAnswersSane(scans[..|scans| - 1]);
      AnswersSane(scans[|scans| - 1]);
    }
  }

  /**
   A client that starts at 0 gets every node's items, node by node, each node asked from its own
   beginning to its own end, and sees 0 at the call after the last node's last page, not earlier.
   */
  lemma WholeIteration(scans: seq<seq<Batch>>, last: Reply)
    requires |scans| < MAX_NODES && forall i :: 0 <= i < |scans| ==> WholeScan(scans[i])
    ensures var c := Run(|scans|, AllAnswers(scans));
            && c.visits == AllVisits(scans) && c.items == AllItems(scans) && !c.finished
            && var done := Exchange(|scans|, c, last);
               done.finished && done.visits == c.visits && done.items == c.items
  {
    hide Run, WalkRun, AllAnswers, AllVisits, AllItems, Exchange, Sane, Decimal;
    var hosts := |scans|;
    AllAnswersSane(scans);
    ClientWalks(hosts, AllAnswers(scans));
    WalkNodes(hosts, scans);
    LastCall(hosts, Run(hosts, AllAnswers(scans)), last);
  }

  lemma LastCall(hosts: nat, c: Client, last: Reply)
    requires hosts < MAX_NODES && c.cursor == Decimal(hosts * SPAN) && !c.finished
    ensures var done := Exchange(hosts, c, last);
            done.finished && done.visits == c.visits && done.items == c.items
  {
    hide Route, Decimal;
    RouteOf(hosts, hosts, 0);
    assert c.items + [] == c.items;
  }

  // ---------- too many nodes ----------

  lemma {:induction false} OrNonzero(a: nat, b: nat)
    requires Or(a, b) == 0
    ensures a == 0 && b == 0
  {
    if a != 0 || b != 0 {
      OrNonzero(a / 2, b / 2);
    }
  }

  lemma GenNonzero(node: uint16, cursor: uint64)
    requires node != 0 || cursor != 0
    ensures GenCursor(node, cursor) != 0
  {
    if GenCursor(node, cursor) == 0 {
      OrNonzero(node * SPAN, cursor);
    }
  }

  lemma ParseOfNumber(u: nat)
    ensures ParseDecimal(Decimal(u)) == if u <= INT64_MAX then Some(u) else None
  {
    ValueOfDigits(u);
  }

  /** What a client may hold: a number the proxy wrote, or text nobody can read. */
  ghost predicate Held(c: Client) {
    (exists u: nat :: c.cursor == Decimal(u)) || ParseDecimal(c.cursor) == None
  }

  lemma HeldRoute(hosts: nat, c: Client)
    requires Held(c)
    ensures Route(hosts, c.cursor).ToNode? ==> Route(hosts, c.cursor).node < MAX_NODES
    ensures Route(hosts, c.cursor).Exhausted? ==> hosts % 0x1_0000 < MAX_NODES
  {
    if ParseDecimal(c.cursor) != None {
      var u: nat :| c.cursor == Decimal(u);
      ParseOfNumber(u);
    }
  }

  lemma RewriteHeld(node: uint16, reply: Reply)
    requires node < MAX_NODES && reply.Page?
    ensures Rewrite(node, reply).Page?
    ensures (exists u: nat :: u != 0 && Rewrite(node, reply).cursor == Decimal(u))
         || ParseDecimal(Rewrite(node, reply).cursor) == None
  {
    hide Decimal, ParseDecimal, GenCursor;
    match ParseDecimal(reply.cursor)
    case None =>
    case Some(v) =>
      var next := if v == 0 then (node + 1) % 0x1_0000 else node;
      GenNonzero(next, ToUint64(v));
      assert Rewrite(node, reply).cursor == Decimal(GenCursor(next, ToUint64(v)));
  }

  ghost predicate Visited(c: Client, node: nat) {
    exists v :: v in c.visits && v.node == node
  }

  ghost predicate Below(hosts: nat, c: Client) {
    && Held(c)
    && (forall v :: v in c.visits ==> v.node < MAX_NODES)
    && (c.finished ==> hosts % 0x1_0000 < MAX_NODES)
  }

  lemma ExchangeBelow(hosts: nat, c: Client, answer: Reply)
    requires Below(hosts, c)
    ensures Below(hosts, Exchange(hosts, c, answer))
  {
    hide Route, Rewrite, Decimal, ParseDecimal;
    HeldRoute(hosts, c);
    var route := Route(hosts, c.cursor);
    if route.ToNode? {
      RewriteOther(route.node);
      if answer.Page? {
        RewriteHeld(route.node, answer);
        NotZero(Rewrite(route.node, answer).cursor);
      }
    }
  }

  lemma RewriteOther(node: uint16)
    ensures Rewrite(node, Other) == Other
  {
  }

  lemma NotZero(text: seq<byte>)
    requires (exists u: nat :: u != 0 && text == Decimal(u)) || ParseDecimal(text) == None
    ensures text != Decimal(0)
  {
    ParseOfNumber(0);
    if u: nat :| u != 0 && text == Decimal(u) {
      DecimalInjective(u, 0);
    }
  }

  lemma {:induction false} RunBelow(hosts: nat, answers: seq<Reply>)
    ensures Below(hosts, Run(hosts, answers))
  {
    if answers == [] {
      assert Start().cursor == Decimal(0);
    } else {
      RunBelow(hosts, answers[..|answers| - 1]);
      ExchangeBelow(hosts, Run(hosts, answers[..|answers| - 1]), answers[|answers| - 1]);
    }
  }

  /** The bound on the number of nodes is exact: from 2^15 on no iteration both ends and sees them all. */
  lemma TooManyNodes(hosts: nat, answers: seq<Reply>)
    requires hosts >= MAX_NODES
    ensures var c := Run(hosts, answers);
            !(c.finished && forall i :: 0 <= i < hosts ==> Visited(c, i))
  {
    hide Run, Below, Visited;
    RunBelow(hosts, answers);
    BelowMisses(hosts, Run(hosts, answers));
  }

  lemma BelowMisses(hosts: nat, c: Client)
    requires Below(hosts, c) && hosts >= MAX_NODES
    ensures c.finished ==> hosts > MAX_NODES
    ensures !Visited(c, MAX_NODES)
  {
    hide Held;
  }
}
