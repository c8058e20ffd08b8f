/**
 Health marks in two steps, as they are made: the host's own flag is swapped first, and the set is changed under
 its lock later. In between other marks and changes of the set may come.
 */
module HostMarks {
  import opened Basics
  import opened HostSet
  import opened HostRuns

  /** A mark whose flag is swapped and that waits for the lock. */
  datatype Mark = Mark(host: Host, up: bool)

  /**
   The set, the marks on their way, the addresses that are up as far as the set was told, and those that were last
   told wrong: by a mark that landed when the member's own flag said otherwise, or by an unhealthy host added.
   */
  datatype Marks = Marks(s: State, waiting: seq<Mark>, up: set<Addr>, stale: set<Addr>)

  datatype Step = Swap(host: Host, up: bool) | Land(i: nat) | Change(op: Op)

  const NONE := Marks(State(map[], map[], map[], {}), [], {}, {})

  predicate Enabled(m: Marks, step: Step) {
    match step
    case Swap(_, _) => true
    case Land(i) => i < |m.waiting|
    case Change(op) => op.Add? || op.Remove? || op.ReplaceAll?
  }

  /** The guard at the landing: the flag of the host that is now the member says what the mark said. */
  predicate InTime(m: Marks, mark: Mark)
    requires mark.host.addr in m.s.all
  {
    mark.up <==> m.s.all[mark.host.addr] !in m.s.down
  }

  function Landed(m: Marks, mark: Mark): Marks {
    var a := mark.host.addr;
    if a !in m.s.all then m
    else
      m.(s := if mark.up then ListAll(m.s, [mark.host]) else UnlistAll(m.s, [mark.host]),
         up := if mark.up then m.up + {a} else m.up - {a},
         stale := if InTime(m, mark) then m.stale - {a} else m.stale + {a})
  }

  function Next(m: Marks, step: Step): Marks
    requires Enabled(m, step)
  {
    match step
    case Swap(h, up) =>
      if up && h in m.s.down then
        m.(s := m.s.(down := m.s.down - {h}), waiting := m.waiting + [Mark(h, true)])
      else if !up && h !in m.s.down then
        m.(s := m.s.(down := m.s.down + {h}), waiting := m.waiting + [Mark(h, false)])
      else m
    case Land(i) => Landed(m, m.waiting[i]).(waiting := Drop(m.waiting, i))
    case Change(op) =>
      m.(s := Apply(m.s, op), up := UpAfter(m.s, m.up, op), stale := StaleAfter(m.s, m.stale, op))
  }

  // ---------- what every step keeps ----------

  /** No mark of this host is on its way. */
  ghost predicate Idle(m: Marks, h: Host) {
    forall i :: 0 <= i < |m.waiting| ==> m.waiting[i].host != h
  }

  /** Each address keeps its kind. */
  ghost predicate Proper(m: Marks, step: Step, kindOf: Addr -> Kind) {
    match step
    case Swap(h, _) => h.kind == kindOf(h.addr)
    case Land(_) => true
    case Change(op) => Fits(op, kindOf)
  }

  /** A member none of whose marks is on its way is listed as its flag says, unless its address was last told wrong. */
  ghost predicate Told(m: Marks) {
    forall a :: a in m.s.all && Idle(m, m.s.all[a]) ==>
      ((a in m.up <==> m.s.all[a] !in m.s.down) <==> a !in m.stale)
  }

  lemma LandTold(m: Marks, i: nat)
    requires Keyed(m.s.all) && Told(m) && i < |m.waiting|
    ensures Told(Next(m, Land(i)))
  {
    hide ListAll, UnlistAll;
    var mark := m.waiting[i];
    var m' := Next(m, Land(i));
    ListOne(m.s, mark.host);
    UnlistOne(m.s, mark.host);
    forall a | a in m'.s.all && Idle(m', m'.s.all[a])
      ensures (a in m'.up <==> m'.s.all[a] !in m'.s.down) <==> a !in m'.stale
    {
      if a != mark.host.addr {
        forall k | 0 <= k < |m.waiting| ensures m.waiting[k].host != m.s.all[a] {
          if k != i {
            assert m'.waiting[if k < i then k else k - 1] == m.waiting[k];
          }
        }
      }
    }
  }

  lemma SwapTold(m: Marks, h: Host, up: bool)
    requires Told(m)
    ensures Told(Next(m, Swap(h, up)))
  {
    var m' := Next(m, Swap(h, up));
    forall a | a in m'.s.all && Idle(m', m'.s.all[a]) ensures Idle(m, m.s.all[a]) {
      forall k | 0 <= k < |m.waiting| ensures m.waiting[k].host != m.s.all[a] {
        assert m'.waiting[k] == m.waiting[k];
      }
    }
    assert m' != m ==> m'.waiting[|m.waiting|].host == h;
  }

  lemma ChangeTold(m: Marks, op: Op)
    requires Told(m) && Enabled(m, Change(op))
    ensures Told(Next(m, Change(op)))
  {
    hide OfKind, Put, Addrs;
    if op.Add? {
      PutKeys(m.s.all, op.hosts);
    } else if op.ReplaceAll? {
      PutKeys(map[], op.hosts);
    }
  }

  lemma StepTold(m: Marks, step: Step)
    requires Keyed(m.s.all) && Told(m) && Enabled(m, step)
    ensures Told(Next(m, step))
  {
    hide Told, Next, Keyed;
    match step
    case Swap(h, up) => SwapTold(m, h, up);
    case Land(i) => LandTold(m, i);
    case Change(op) => ChangeTold(m, op);
  }

  // ---------- the lists ----------

  lemma ListSound(s: State, up: set<Addr>, h: Host, kindOf: Addr -> Kind)
    requires Sound(s, up, kindOf) && h.kind == kindOf(h.addr) && h.addr in s.all
    ensures Sound(ListAll(s, [h]), up + {h.addr}, kindOf)
    ensures Sound(UnlistAll(s, [h]), up - {h.addr}, kindOf)
  {
    hide ListAll, UnlistAll;
    ListOne(s, h);
    UnlistOne(s, h);
  }

  ghost predicate MarksFit(m: Marks, kindOf: Addr -> Kind) {
    forall i :: 0 <= i < |m.waiting| ==> m.waiting[i].host.kind == kindOf(m.waiting[i].host.addr)
  }

  lemma StepListed(m: Marks, step: Step, kindOf: Addr -> Kind)
    requires Enabled(m, step) && Proper(m, step, kindOf) && MarksFit(m, kindOf) && Sound(m.s, m.up, kindOf)
    ensures Sound(Next(m, step).s, Next(m, step).up, kindOf) && MarksFit(Next(m, step), kindOf)
  {
    hide Apply, UpAfter, StaleAfter, ListAll, UnlistAll, Fits;
    match step
    case Swap(h, up) =>
    case Land(i) =>
      var mark := m.waiting[i];
      if mark.host.addr in m.s.all {
        ListSound(m.s, m.up, mark.host, kindOf);
      }
      var m' := Next(m, step);
      assert forall k :: 0 <= k < |m'.waiting| ==> m'.waiting[k] == m.waiting[if k < i then k else k + 1];
    case Change(op) => StepSound(m.s, m.up, op, kindOf);
  }

  // ---------- runs ----------

  ghost predicate CanRun(m: Marks, steps: seq<Step>, kindOf: Addr -> Kind)
    decreases |steps|, 0
  {
    steps == [] ||
      var init, last := steps[..|steps| - 1], steps[|steps| - 1];
      CanRun(m, init, kindOf)
      && Enabled(Run(m, init, kindOf), last) && Proper(Run(m, init, kindOf), last, kindOf)
  }

  ghost function Run(m: Marks, steps: seq<Step>, kindOf: Addr -> Kind): Marks
    requires CanRun(m, steps, kindOf)
    decreases |steps|, 1
  {
    if steps == [] then m else Next(Run(m, steps[..|steps| - 1], kindOf), steps[|steps| - 1])
  }

  lemma {:induction false} RunTold(steps: seq<Step>, kindOf: Addr -> Kind)
    requires CanRun(NONE, steps, kindOf)
    ensures var m := Run(NONE, steps, kindOf); Told(m) && MarksFit(m, kindOf) && Sound(m.s, m.up, kindOf)
  {
    hide Told, MarksFit, Next, Enabled, Proper, Right;
    if steps == [] {
      NothingTold(kindOf);
    } else {
      var init, last := steps[..|steps| - 1], steps[|steps| - 1];
      RunTold(init, kindOf);
      StepTold(Run(NONE, init, kindOf), last);
      StepListed(Run(NONE, init, kindOf), last, kindOf);
    }
  }

  lemma NothingTold(kindOf: Addr -> Kind)
    ensures Told(NONE) && MarksFit(NONE, kindOf) && Sound(NONE.s, NONE.up, kindOf)
  {
  }

  /**
   When no mark is on its way, the lists show every member as its flag says if and only if no member's address was
   last told wrong. Any host objects may come and go, as long as each address keeps its kind.
   */
  lemma QuietExactly(steps: seq<Step>, kindOf: Addr -> Kind)
    requires CanRun(NONE, steps, kindOf) && Run(NONE, steps, kindOf).waiting == []
    ensures var m := Run(NONE, steps, kindOf);
      (forall a :: a in m.s.all ==> (IsListed(m.s, a) <==> m.s.all[a] !in m.s.down))
      <==> (forall a :: a in m.s.all ==> a !in m.stale)
  {
    hide Run, CanRun;
    RunTold(steps, kindOf);
    var m := Run(NONE, steps, kindOf);
    forall a | a in m.s.all ensures IsListed(m.s, a) <==> a in m.up {
    }
    assert forall a :: a in m.s.all ==> Idle(m, m.s.all[a]);
  }

  lemma Go(steps: seq<Step>, m: Marks, step: Step, kindOf: Addr -> Kind) returns (more: seq<Step>)
    requires CanRun(NONE, steps, kindOf) && Run(NONE, steps, kindOf) == m
    requires Enabled(m, step) && Proper(m, step, kindOf)
    ensures CanRun(NONE, more, kindOf) && Run(NONE, more, kindOf) == Next(m, step)
  {
    hide Enabled, Proper, Next;
    more := steps + [step];
    assert more[..|steps|] == steps;
  }

  /** Marks that overtake each other: the host ends up listed although its flag says unhealthy. */
  lemma OvertakenMark(h: Host, kindOf: Addr -> Kind) returns (steps: seq<Step>)
    requires h.kind == kindOf(h.addr) == Main
    ensures CanRun(NONE, steps, kindOf)
    ensures var m := Run(NONE, steps, kindOf);
      && m.waiting == [] && m.s.all == map[h.addr := h]
      && IsListed(m.s, h.addr) && h in m.s.down && h.addr in m.stale
  {
    hide Run, CanRun, AddHosts, ListAll, UnlistAll;
    assert CanRun(NONE, [], kindOf) && Run(NONE, [], kindOf) == NONE by { StartRun(kindOf); }
    var a := h.addr;
    AddOne(NONE.s, h);
    AddrsOne(h);
    FirstStale(NONE.s, h);
    steps := Go([], NONE, Change(Add([h])), kindOf);
    var one := map[a := h];
    var up, out := State(one, one, map[], {}), State(one, map[], map[], {h});
    assert {} + {a} == {a} && {} - {a} == {} && {a} - {a} == {} && {} + {h} == {h} && {h} - {h} == {};
    steps := ThreeSwaps(steps, h, kindOf);
    var d, u := Mark(h, false), Mark(h, true);
    var flagged := up.(down := {h});
    UnlistOne(flagged, h);
    UnlistOne(out, h);
    ListOne(out, h);
    assert one - {a} == map[] && out.main - {a} == map[];
    assert Drop([d, u, d], 0) == [u, d] && Drop([u, d], 1) == [u] && Drop([u], 0) == [];
    steps := Go(steps, Marks(flagged, [d, u, d], {a}, {}), Land(0), kindOf);
    steps := Go(steps, Marks(out, [u, d], {}, {}), Land(1), kindOf);
    steps := Go(steps, Marks(out, [u], {}, {}), Land(0), kindOf);
  }

  /**
   The member is replaced by another host object of the same address while a mark of the old one waits: the new
   member ends up unlisted although its flag says healthy.
   */
  lemma ReplacedWhileMarked(h1: Host, h2: Host, h3: Host, kindOf: Addr -> Kind) returns (steps: seq<Step>)
    requires h1.addr == h2.addr == h3.addr && h1.kind == h2.kind == h3.kind == kindOf(h1.addr) == Main && h1 != h3
    ensures CanRun(NONE, steps, kindOf)
    ensures var m := Run(NONE, steps, kindOf);
      && m.waiting == [] && m.s.all == map[h3.addr := h3]
      && !IsListed(m.s, h3.addr) && h3 !in m.s.down && h3.addr in m.stale
  {
    hide Run, CanRun, AddHosts, RemoveHosts, UnlistAll;
    StartRun(kindOf);
    var a, d := h1.addr, Mark(h1, false);
    var one, other := map[a := h1], map[a := h3];
    AddOne(NONE.s, h1);
    AddrsOne(h1);
    assert {} + {a} == {a} && {} - {a} == {} && {a} - {a} == {} && {} + {h1} == {h1};
    FirstStale(NONE.s, h1);
    steps := Go([], NONE, Change(Add([h1])), kindOf);
    assert [] + [d] == [d];
    steps := Go(steps, Marks(State(one, one, map[], {}), [], {a}, {}), Swap(h1, false), kindOf);
    var flagged := State(one, one, map[], {h1});
    RemoveOne(flagged, h2);
    AddrsOne(h2);
    assert one - {a} == map[];
    steps := Go(steps, Marks(flagged, [d], {a}, {}), Change(Remove([h2])), kindOf);
    steps := ReplacedEnds(steps, h1, h3, kindOf);
  }

  lemma ReplacedEnds(before: seq<Step>, h1: Host, h3: Host, kindOf: Addr -> Kind) returns (steps: seq<Step>)
    requires h1.addr == h3.addr && h1.kind == h3.kind == kindOf(h1.addr) == Main && h1 != h3
    requires CanRun(NONE, before, kindOf)
    requires Run(NONE, before, kindOf) == Marks(State(map[], map[], map[], {h1}), [Mark(h1, false)], {}, {})
    ensures CanRun(NONE, steps, kindOf)
    ensures var m := Run(NONE, steps, kindOf);
      && m.waiting == [] && m.s.all == map[h3.addr := h3]
      && !IsListed(m.s, h3.addr) && h3 !in m.s.down && h3.addr in m.stale
  {
    hide Run, CanRun, AddHosts, UnlistAll;
    var a, d := h1.addr, Mark(h1, false);
    var other := map[a := h3];
    var gone := State(map[], map[], map[], {h1});
    AddOne(gone, h3);
    AddrsOne(h3);
    FirstStale(gone, h3);
    assert {} + {a} == {a} && {} - {a} == {};
    steps := Go(before, Marks(gone, [d], {}, {}), Change(Add([h3])), kindOf);
    var back := State(other, other, map[], {h1});
    UnlistOne(back, h1);
    assert Drop([d], 0) == [];
    steps := Go(steps, Marks(back, [d], {a}, {}), Land(0), kindOf);
  }

  lemma FirstStale(s: State, h: Host)
    requires h !in s.down
    ensures AddedDown(s, [h]) == {}
  {
    PutOne(s.all, h);
    AddrsOne(h);
  }

  lemma StartRun(kindOf: Addr -> Kind)
    ensures CanRun(NONE, [], kindOf) && Run(NONE, [], kindOf) == NONE
  {
  }

  lemma ThreeSwaps(steps: seq<Step>, h: Host, kindOf: Addr -> Kind) returns (more: seq<Step>)
    requires h.kind == kindOf(h.addr) && CanRun(NONE, steps, kindOf)
    requires var one := map[h.addr := h];
      Run(NONE, steps, kindOf) == Marks(State(one, one, map[], {}), [], {h.addr}, {})
    ensures CanRun(NONE, more, kindOf)
    ensures var one := map[h.addr := h];
      Run(NONE, more, kindOf)
      == Marks(State(one, one, map[], {h}), [Mark(h, false), Mark(h, true), Mark(h, false)], {h.addr}, {})
  {
    hide Run, CanRun;
    var one := map[h.addr := h];
    var d, u := Mark(h, false), Mark(h, true);
    var up, flagged := State(one, one, map[], {}), State(one, one, map[], {h});
    assert {} + {h} == {h} && {h} - {h} == {};
    assert [] + [d] == [d] && [d] + [u] == [d, u] && [d, u] + [d] == [d, u, d];
    more := Go(steps, Marks(up, [], {h.addr}, {}), Swap(h, false), kindOf);
    more := Go(more, Marks(flagged, [d], {h.addr}, {}), Swap(h, true), kindOf);
    more := Go(more, Marks(up, [d, u], {h.addr}, {}), Swap(h, false), kindOf);
  }
}
