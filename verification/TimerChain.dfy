/**
 How the batched code meets the event flow: arithmetic progressions of prescaler ticks, the
 depth-first cascade started by one root timer, and the left-to-right sweep over the roots.
 */
module TimerChain {
  import opened Prelude
  import opened Interrupts
  import opened TimerModel
  import opened TimerWindow

  /** `n` events from `first`, `stride` cycles apart. */
  function Arith(first: nat, stride: nat, n: nat): seq<nat>
    decreases n
  {
    if n == 0 then [] else [first] + Arith(first + stride, stride, n - 1)
  }

  lemma {:induction false} ArithSplit(first: nat, stride: nat, a: nat, b: nat)
    ensures Arith(first, stride, a + b) == Arith(first, stride, a) + Arith(first + a * stride, stride, b)
    decreases a
  {
    if a != 0 {
      ArithSplit(first + stride, stride, a - 1, b);
      assert first + stride + (a - 1) * stride == first + a * stride;
    }
  }

  lemma {:induction false} ArithLength(first: nat, stride: nat, n: nat)
    ensures |Arith(first, stride, n)| == n
    decreases n
  {
    if n != 0 {
      ArithLength(first + stride, stride, n - 1);
    }
  }

  // ---------------------------------------------------------------- prescaler ticks

  lemma NoMultipleBetween(d: nat, multiple: nat, x: nat)
    requires d in {1, 64, 256, 1024} && multiple % d == 0 && multiple < x < multiple + d
    ensures x % d != 0
  {
  }

  lemma {:induction false} NoTicksBetween(d: nat, multiple: nat, lo: nat, hi: nat)
    requires d in {1, 64, 256, 1024} && multiple % d == 0 && multiple <= lo && hi < multiple + d
    ensures Ticks(d, lo, hi) == []
    decreases hi
  {
    if hi > lo {
      NoMultipleBetween(d, multiple, hi);
      NoTicksBetween(d, multiple, lo, hi - 1);
    }
  }

  lemma NextMultiple(d: nat, multiple: nat)
    requires d in {1, 64, 256, 1024} && multiple % d == 0
    ensures (multiple + d) % d == 0
  {
  }

  lemma QuotientSteps(d: nat, span: nat)
    requires d in {1, 64, 256, 1024}
    ensures span < d ==> span / d == 0
    ensures span >= d ==> span / d == (span - d) / d + 1
  {
  }

  lemma {:induction false} TicksFromMultiple(d: nat, first: nat, hi: nat)
    requires d in {1, 64, 256, 1024} && first % d == 0 && 0 < first <= hi
    ensures Ticks(d, first - 1, hi) == Arith(first, d, (hi - first) / d + 1)
    decreases hi - first
  {
    TicksSplit(d, first - 1, first, hi);
    assert Ticks(d, first - 1, first - 1) == [];
    assert Ticks(d, first - 1, first) == [first];
    QuotientSteps(d, hi - first);
    if hi < first + d {
      NoTicksBetween(d, first, first, hi);
      assert Arith(first + d, d, 0) == [];
    } else {
      TicksSplit(d, first, first + d - 1, hi);
      NoTicksBetween(d, first, first, first + d - 1);
      NextMultiple(d, first);
      TicksFromMultiple(d, first + d, hi);
      assert (hi - first) / d + 1 - 1 == (hi - (first + d)) / d + 1;
    }
  }

  /** The first prescaler tick after cycle `lo`, as the source computes it. */
  function FirstTick(d: nat, lo: nat): nat
    requires d > 0
  {
    (lo + 1 + d - 1) / d * d
  }

  lemma FirstTickBounds(d: nat, lo: nat)
    requires d in {1, 64, 256, 1024}
    ensures FirstTick(d, lo) % d == 0
    ensures d <= FirstTick(d, lo)
    ensures lo < FirstTick(d, lo) <= lo + d
  {
  }

  lemma PreviousMultiple(d: nat, multiple: nat)
    requires d in {1, 64, 256, 1024} && multiple % d == 0 && multiple >= d
    ensures (multiple - d) % d == 0
  {
  }

  /** The closed form of tick(): where the prescaler ticks fall and how many there are. */
  lemma TicksClosedForm(d: nat, lo: nat, hi: nat)
    requires d in {1, 64, 256, 1024} && lo <= hi
    ensures var first := FirstTick(d, lo);
            Ticks(d, lo, hi) == if first > hi then [] else Arith(first, d, (hi - first) / d + 1)
  {
    var first := FirstTick(d, lo);
    FirstTickBounds(d, lo);
    hide FirstTick;
    PreviousMultiple(d, first);
    assert (first - d) % d == 0;
    if first > hi {
      NoTicksBetween(d, first - d, lo, hi);
    } else {
      TicksSplit(d, lo, first - 1, hi);
      NoTicksBetween(d, first - d, lo, first - 1);
      TicksFromMultiple(d, first, hi);
    }
  }

  // ---------------------------------------------------------------- one root, depth first

  /** Wires strictly above `root`: the part of the cascade chain that `root` can reach. */
  function WiresAbove(ts: Bank, root: nat): Wires {
    [false, 1 > root && Listens(ts, 1), 2 > root && Listens(ts, 2), 3 > root && Listens(ts, 3)]
  }

  function Only(root: nat, events: seq<nat>): Sources {
    [if root == 0 then events else [], if root == 1 then events else [],
     if root == 2 then events else [], if root == 3 then events else []]
  }

  /** Drives the cascade chain from `root` with the given pulses. */
  function Drive(ts: Bank, root: nat, events: seq<nat>): Outcome {
    Flow(ts, WiresAbove(ts, root), Only(root, events))
  }

  lemma DriveAppend(ts: Bank, root: nat, a: seq<nat>, b: seq<nat>)
    requires root < TIMER_COUNT
    ensures Drive(ts, root, a + b) == Then(Drive(ts, root, a), Drive(Drive(ts, root, a).ts, root, b))
  {
    hide FlowBank, FlowRaised, FlowFirst;
    var wires := WiresAbove(ts, root);
    OnlyAppend(root, a, b);
    FlowJoined(ts, wires, Only(root, a), Only(root, b));
    DriveKeepsControl(ts, root, a);
  }

  lemma OnlyAppend(root: nat, a: seq<nat>, b: seq<nat>)
    ensures Only(root, a + b) == Joined(Only(root, a), Only(root, b))
  {
    var none: seq<nat> := [];
    assert none + none == none;
  }

  lemma DriveKeepsControl(ts: Bank, root: nat, events: seq<nat>)
    ensures forall i: nat :: i < TIMER_COUNT ==> Drive(ts, root, events).ts[i].control == ts[i].control
    ensures forall i: nat :: i < TIMER_COUNT ==> Deaf(Drive(ts, root, events).ts[i]) == Deaf(ts[i])
    ensures forall r: nat :: WiresAbove(Drive(ts, root, events).ts, r) == WiresAbove(ts, r)
  {
  }

  /** Nothing flows where nothing is fed in and no wire leads from a source. */
  lemma {:induction false} SilentInput(ts: Bank, wires: Wires, e: Sources, i: nat)
    requires i < TIMER_COUNT
    requires forall k: nat :: k <= i ==> e[k] == []
    ensures Input(ts, wires, e, i) == []
    ensures Output(ts, wires, e, i) == []
    ensures FlowTimer(ts, wires, e, i) == ts[i]
    decreases i
  {
    if wires[i] {
      SilentInput(ts, wires, e, i - 1);
    }
  }

  lemma {:induction false} FeedQuiet(t: Timer, events: seq<nat>)
    requires t.counter + |events| <= COUNTER_TOP
    ensures Feed(t, events) == Fed(t.(counter := t.counter + |events|), [])
    decreases |events|
  {
    if events != [] {
      FeedQuiet(Count(t), events[1..]);
    }
  }

  /** The inputs below the root are silent; those above it depend only on the root's overflows. */
  lemma {:induction false} ChainQuiet(ts: Bank, root: nat, events: seq<nat>, i: nat)
    requires root < TIMER_COUNT && i < TIMER_COUNT
    requires Feed(ts[root], events).overflows == []
    ensures Output(ts, WiresAbove(ts, root), Only(root, events), i) == []
    ensures FlowTimer(ts, WiresAbove(ts, root), Only(root, events), i)
         == if i == root then Feed(ts[root], events).timer else ts[i]
    decreases i
  {
    var wires, e := WiresAbove(ts, root), Only(root, events);
    if i > root {
      ChainQuiet(ts, root, events, i - 1);
    } else if i == root {
      assert Input(ts, wires, e, i) == events;
    }
  }

  /** Pulses that do not reach the top only advance the root's counter. */
  lemma DriveQuiet(ts: Bank, root: nat, events: seq<nat>)
    requires root < TIMER_COUNT
    requires ts[root].counter + |events| <= COUNTER_TOP
    ensures Drive(ts, root, events)
         == Outcome(ts[root := ts[root].(counter := ts[root].counter + |events|)], {}, None)
  {
    FeedQuiet(ts[root], events);
    ChainQuiet(ts, root, events, 0);
    ChainQuiet(ts, root, events, 1);
    ChainQuiet(ts, root, events, 2);
    ChainQuiet(ts, root, events, 3);
  }

  /** The effect of one overflow of timer `root` whose counter was already reloaded:
      count it, request its interrupt, and pulse the listening neighbour. */
  function Overflowed(ts: Bank, root: nat, cycle: nat): Outcome
    requires root < TIMER_COUNT
  {
    var counted := ts[root := ts[root].(overflowCount := ts[root].overflowCount + 1)];
    var own := Outcome(counted,
                       if ts[root].control.irq then {TIMER0 + root} else {},
                       if ts[root].control.irq then Some(cycle) else None);
    if root + 1 < TIMER_COUNT && Listens(ts, root + 1) && cycle > Deaf(ts[root + 1])
    then Then(own, Drive(counted, root + 1, [cycle]))
    else own
  }

  /** Above the root, a chain looks the same whether it is entered at the root or one higher. */
  lemma {:induction false} ChainTail(ts: Bank, us: Bank, root: nat, cycle: nat, i: nat)
    requires root + 1 <= i < TIMER_COUNT
    requires ts[root].counter == COUNTER_TOP
    requires Listens(ts, root + 1) && cycle > Deaf(ts[root + 1])
    requires forall k: nat :: k < TIMER_COUNT && k != root ==> us[k] == ts[k]
    requires us[root].control == ts[root].control
    ensures Input(ts, WiresAbove(ts, root), Only(root, [cycle]), i)
         == Input(us, WiresAbove(us, root + 1), Only(root + 1, [cycle]), i)
    ensures Output(ts, WiresAbove(ts, root), Only(root, [cycle]), i)
         == Output(us, WiresAbove(us, root + 1), Only(root + 1, [cycle]), i)
    decreases i
  {
    if i == root + 1 {
      RootInput(ts, root, [cycle]);
      RootInput(us, root + 1, [cycle]);
      FeedOne(ts[root], cycle);
      LaterOne(Deaf(ts[i]), cycle);
    } else {
      ChainTail(ts, us, root, cycle, i - 1);
    }
  }

  lemma RootInput(ts: Bank, root: nat, events: seq<nat>)
    requires root < TIMER_COUNT
    ensures Input(ts, WiresAbove(ts, root), Only(root, events), root) == events
  {
  }

  lemma {:induction false} ChainDeaf(ts: Bank, root: nat, cycle: nat, i: nat)
    requires root + 1 <= i < TIMER_COUNT
    requires !(Listens(ts, root + 1) && cycle > Deaf(ts[root + 1]))
    ensures Input(ts, WiresAbove(ts, root), Only(root, [cycle]), i) == []
    decreases i
  {
    if i == root + 1 {
      RootInput(ts, root, [cycle]);
      FeedOne(ts[root], cycle);
      LaterOne(Deaf(ts[i]), cycle);
    } else {
      ChainDeaf(ts, root, cycle, i - 1);
    }
  }

  /** Each timer's share of one overflowing pulse. */
  lemma OverflowShare(ts: Bank, root: nat, cycle: nat, i: nat)
    requires root < TIMER_COUNT && i < TIMER_COUNT
    requires ts[root].counter == COUNTER_TOP
    ensures var wires, e := WiresAbove(ts, root), Only(root, [cycle]);
            var us := ts[root := Count(ts[root])];
            var hears := root + 1 < TIMER_COUNT && Listens(ts, root + 1) && cycle > Deaf(ts[root + 1]);
            var up, upE := WiresAbove(us, root + 1), Only(root + 1, [cycle]);
            && (i < root ==> Input(ts, wires, e, i) == [] && (hears ==> Input(us, up, upE, i) == []))
            && (i == root ==> Input(ts, wires, e, i) == [cycle] && (hears ==> Input(us, up, upE, i) == []))
            && (i > root && hears ==> Input(ts, wires, e, i) == Input(us, up, upE, i))
            && (i > root && !hears ==> Input(ts, wires, e, i) == [])
  {
    var us := ts[root := Count(ts[root])];
    var hears := root + 1 < TIMER_COUNT && Listens(ts, root + 1) && cycle > Deaf(ts[root + 1]);
    if i < root {
      SilentInput(ts, WiresAbove(ts, root), Only(root, [cycle]), i);
      if hears {
        SilentInput(us, WiresAbove(us, root + 1), Only(root + 1, [cycle]), i);
      }
    } else if i == root {
      RootInput(ts, root, [cycle]);
      if hears {
        SilentInput(us, WiresAbove(us, root + 1), Only(root + 1, [cycle]), i);
      }
    } else if hears {
      ChainTail(ts, us, root, cycle, i);
    } else {
      ChainDeaf(ts, root, cycle, i);
    }
  }

  /** One pulse that wraps the root: the flow is the reload followed by `Overflowed`. */
  lemma DriveWrap(ts: Bank, root: nat, cycle: nat)
    requires root < TIMER_COUNT
    requires ts[root].counter == COUNTER_TOP
    ensures Drive(ts, root, [cycle])
         == Overflowed(ts[root := ts[root].(counter := ts[root].reload)], root, cycle)
  {
    hide Drive, Share, Overflowed;
    var reloaded := ts[root := ts[root].(counter := ts[root].reload)];
    var counted := ts[root := Count(ts[root])];
    WrapShare(ts, root, cycle, 0);
    WrapShare(ts, root, cycle, 1);
    WrapShare(ts, root, cycle, 2);
    WrapShare(ts, root, cycle, 3);
    assert counted == reloaded[root := reloaded[root].(overflowCount := reloaded[root].overflowCount + 1)];
    WrapCombine(ts, reloaded, counted, root, cycle);
  }

  /** What `WrapShare` gives for timer `i`, in terms of the timers after the root has counted. */
  ghost predicate Share(ts: Bank, counted: Bank, root: nat, cycle: nat, i: nat)
    requires root < TIMER_COUNT && i < TIMER_COUNT
  {
    var wires, e := WiresAbove(ts, root), Only(root, [cycle]);
    var hears := root + 1 < TIMER_COUNT && Listens(ts, root + 1) && cycle > Deaf(ts[root + 1]);
    var up, upE := WiresAbove(counted, root + 1), Only(root + 1, [cycle]);
    && FlowTimer(ts, wires, e, i) == (if hears then FlowTimer(counted, up, upE, i) else counted[i])
    && (Raises(ts, wires, e, i)
        <==> (i == root && ts[i].control.irq) || (hears && Raises(counted, up, upE, i)))
    && FirstOf(ts, wires, e, i)
       == Earlier(if i == root && ts[i].control.irq then Some(cycle) else None,
                  if hears then FirstOf(counted, up, upE, i) else None)
  }

  lemma WrapShare(ts: Bank, root: nat, cycle: nat, i: nat)
    requires root < TIMER_COUNT && i < TIMER_COUNT
    requires ts[root].counter == COUNTER_TOP
    ensures Share(ts, ts[root := Count(ts[root])], root, cycle, i)
  {
    var counted := ts[root := Count(ts[root])];
    OverflowShare(ts, root, cycle, i);
    if i == root {
      FeedOne(ts[root], cycle);
      EarliestOne(cycle);
    }
  }

  lemma EarliestOne(cycle: nat)
    ensures Earliest([cycle]) == Some(cycle)
  {
    assert [cycle][1..] == [];
  }

  lemma WrapCombine(ts: Bank, reloaded: Bank, counted: Bank, root: nat, cycle: nat)
    requires root < TIMER_COUNT
    requires reloaded == ts[root := ts[root].(counter := ts[root].reload)]
    requires counted == reloaded[root := reloaded[root].(overflowCount := reloaded[root].overflowCount + 1)]
    requires forall i: nat :: i < TIMER_COUNT ==> Share(ts, counted, root, cycle, i)
    ensures Drive(ts, root, [cycle]) == Overflowed(reloaded, root, cycle)
  {
    hide Input, Output, Feed, FlowTimer, Raises, FirstOf, WiresAbove, Only, EarliestOf, RaisedBy;
    var hears := root + 1 < TIMER_COUNT && Listens(ts, root + 1) && cycle > Deaf(ts[root + 1]);
    assert Share(ts, counted, root, cycle, 0);
    assert Share(ts, counted, root, cycle, 1);
    assert Share(ts, counted, root, cycle, 2);
    assert Share(ts, counted, root, cycle, 3);
    var wires, e := WiresAbove(ts, root), Only(root, [cycle]);
    var up, upE := WiresAbove(counted, root + 1), Only(root + 1, [cycle]);
    CombineRaised(ts[root].control.irq, root,
      Raises(ts, wires, e, 0), Raises(ts, wires, e, 1), Raises(ts, wires, e, 2), Raises(ts, wires, e, 3),
      hears && Raises(counted, up, upE, 0), hears && Raises(counted, up, upE, 1),
      hears && Raises(counted, up, upE, 2), hears && Raises(counted, up, upE, 3));
    CombineFirst(if ts[root].control.irq then Some(cycle) else None, root,
      if hears then FirstOf(counted, up, upE, 0) else None, if hears then FirstOf(counted, up, upE, 1) else None,
      if hears then FirstOf(counted, up, upE, 2) else None, if hears then FirstOf(counted, up, upE, 3) else None);
    NothingRaised();
    var d, o := Drive(ts, root, [cycle]), Overflowed(reloaded, root, cycle);
    assert d.ts == o.ts;
    assert d.raised == o.raised;
    assert d.first == o.first;
  }

  lemma NothingRaised()
    ensures RaisedBy(false, false, false, false) == {}
    ensures EarliestOf(None, None, None, None) == None
  {
  }

  lemma CombineRaised(irq: bool, root: nat, a0: bool, a1: bool, a2: bool, a3: bool, b0: bool, b1: bool, b2: bool, b3: bool)
    requires root < TIMER_COUNT
    requires a0 == ((root == 0 && irq) || b0) && a1 == ((root == 1 && irq) || b1)
    requires a2 == ((root == 2 && irq) || b2) && a3 == ((root == 3 && irq) || b3)
    ensures RaisedBy(a0, a1, a2, a3) == (if irq then {TIMER0 + root} else {}) + RaisedBy(b0, b1, b2, b3)
  {
  }

  lemma CombineFirst(own: Option<nat>, root: nat, b0: Option<nat>, b1: Option<nat>, b2: Option<nat>, b3: Option<nat>)
    requires root < TIMER_COUNT
    ensures EarliestOf(Earlier(if root == 0 then own else None, b0), Earlier(if root == 1 then own else None, b1),
                       Earlier(if root == 2 then own else None, b2), Earlier(if root == 3 then own else None, b3))
         == Earlier(own, EarliestOf(b0, b1, b2, b3))
  {
  }
}
