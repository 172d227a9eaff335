/**
 The four hardware timers as values, described twice: cycle by cycle (`StepBank`), as the
 hardware counts, and as a flow of overflow events through the cascade chain (`Input`),
 which is the form the batched code is proved against in TimerUnit.
 */
module TimerModel {
  import opened Prelude
  import opened Interrupts

  const TIMER_COUNT: nat := 4
  const COUNTER_TOP: int := 0xFFFF

  /** TMxCNT_H after masking with kControlMask == 0x00C7: prescaler, count-up, IRQ, enable. */
  datatype Control = Control(prescaler: nat, countUp: bool, irq: bool, enable: bool)

  datatype Timer = Timer(
    counter: u16,
    reload: u16,
    control: Control,
    overflowCount: nat,
    enableDelay: nat,
    lastEnablePhase: nat,
    enabledAt: nat,
    justEnabled: bool)

  const OFF := Control(0, false, false, false)
  const IDLE := Timer(0, 0, OFF, 0, 0, 0, 0, false)

  type Bank = ts: seq<Timer> | |ts| == TIMER_COUNT witness [IDLE, IDLE, IDLE, IDLE]

  function Divisor(c: Control): (d: nat)
    ensures d in {1, 64, 256, 1024}
  {
    if c.prescaler == 1 then 64
    else if c.prescaler == 2 then 256
    else if c.prescaler == 3 then 1024
    else 1
  }

  /** Timer `i` counts the overflows of timer `i - 1` instead of clock cycles. */
  predicate Listens(ts: Bank, i: nat)
    requires i < TIMER_COUNT
  {
    i != 0 && ts[i].control.enable && ts[i].control.countUp
  }

  predicate FreeRunning(ts: Bank, i: nat)
    requires i < TIMER_COUNT
  {
    ts[i].control.enable && !Listens(ts, i)
  }

  /** The state invariant of every reachable timer: a pending enable delay is one cycle long,
      belongs to an enabled timer, and is anchored at the current cycle. */
  ghost predicate Reachable(t: Timer, now: nat) {
    && t.enableDelay <= 1
    && t.enabledAt <= now
    && t.control.prescaler < 4
    && (t.enableDelay != 0 ==> t.control.enable && t.enabledAt == now)
    && (t.justEnabled ==> t.control.enable && t.enabledAt == now)
  }

  ghost predicate BankReachable(ts: Bank, now: nat) {
    forall i :: 0 <= i < TIMER_COUNT ==> Reachable(ts[i], now)
  }

  // ---------------------------------------------------------------- one cycle at a time

  /** Timer `i` receives a count pulse in cycle `cycle`. */
  predicate Pulsed(ts: Bank, i: nat, cycle: nat)
    requires i < TIMER_COUNT
    decreases i, 0
  {
    && ts[i].control.enable
    && ts[i].enableDelay == 0
    && (if Listens(ts, i) then Wraps(ts, i - 1, cycle) else cycle % Divisor(ts[i].control) == 0)
  }

  predicate Wraps(ts: Bank, i: nat, cycle: nat)
    requires i < TIMER_COUNT
    decreases i, 1
  {
    Pulsed(ts, i, cycle) && ts[i].counter == COUNTER_TOP
  }

  function StepTimer(ts: Bank, i: nat, cycle: nat): Timer
    requires i < TIMER_COUNT
  {
    var t := if Pulsed(ts, i, cycle) then Count(ts[i]) else ts[i];
    t.(enableDelay := if t.control.enable then 0 else t.enableDelay, justEnabled := false)
  }

  /** One count pulse: add one, or reload on overflow. */
  function Count(t: Timer): Timer {
    if t.counter == COUNTER_TOP
    then t.(counter := t.reload, overflowCount := t.overflowCount + 1)
    else t.(counter := t.counter + 1)
  }

  function StepBank(ts: Bank, cycle: nat): Bank {
    [StepTimer(ts, 0, cycle), StepTimer(ts, 1, cycle), StepTimer(ts, 2, cycle), StepTimer(ts, 3, cycle)]
  }

  /** The IF bits of the timers whose flag is set. */
  function RaisedBy(t0: bool, t1: bool, t2: bool, t3: bool): (r: set<nat>)
    ensures TIMER0 in r <==> t0
    ensures TIMER0 + 1 in r <==> t1
    ensures TIMER0 + 2 in r <==> t2
    ensures TIMER0 + 3 in r <==> t3
  {
    (if t0 then {TIMER0} else {}) + (if t1 then {TIMER0 + 1} else {})
    + (if t2 then {TIMER0 + 2} else {}) + (if t3 then {TIMER0 + 3} else {})
  }

  function StepRaised(ts: Bank, cycle: nat): set<nat> {
    RaisedBy(ts[0].control.irq && Wraps(ts, 0, cycle), ts[1].control.irq && Wraps(ts, 1, cycle),
             ts[2].control.irq && Wraps(ts, 2, cycle), ts[3].control.irq && Wraps(ts, 3, cycle))
  }

  /** What a run of cycles leaves behind: the timers, the IF bits it requested, and the
      absolute cycle of the first timer interrupt. */
  datatype Outcome = Outcome(ts: Bank, raised: set<nat>, first: Option<nat>)

  /** `n` single cycles after cycle `start`: the reference semantics. */
  function Poll(ts: Bank, start: nat, n: nat): Outcome {
    if n == 0 then Outcome(ts, {}, None)
    else
      var before := Poll(ts, start, n - 1);
      var raised := StepRaised(before.ts, start + n);
      Outcome(StepBank(before.ts, start + n), before.raised + raised,
              if before.first.None? && raised != {} then Some(start + n) else before.first)
  }

  // ---------------------------------------------------------------- event flow

  datatype Fed = Fed(timer: Timer, overflows: seq<nat>)

  /** Counts one pulse per event; the events are the cycles at which the pulses arrive. */
  function Feed(t: Timer, events: seq<nat>): (f: Fed)
    ensures f.timer == t.(counter := f.timer.counter, overflowCount := f.timer.overflowCount)
    decreases |events|
  {
    if events == [] then Fed(t, [])
    else
      var rest := Feed(Count(t), events[1..]);
      Fed(rest.timer, (if t.counter == COUNTER_TOP then [events[0]] else []) + rest.overflows)
  }

  /** The events strictly later than `limit`. */
  function Later(limit: nat, events: seq<nat>): seq<nat> {
    if events == [] then []
    else (if events[0] > limit then [events[0]] else []) + Later(limit, events[1..])
  }

  /** Cycles in (lo, hi] at which a prescaler of the given divisor ticks. */
  function Ticks(divisor: nat, lo: nat, hi: nat): seq<nat>
    requires divisor > 0
    decreases hi
  {
    if hi <= lo then []
    else Ticks(divisor, lo, hi - 1) + (if hi % divisor == 0 then [hi] else [])
  }

  type Wires = w: seq<bool> | |w| == TIMER_COUNT && !w[0] witness [false, false, false, false]
  type Sources = e: seq<seq<nat>> | |e| == TIMER_COUNT witness [[], [], [], []]

  /** A cascade pulse is lost while the listening timer's enable delay is running. */
  function Deaf(t: Timer): nat {
    t.enabledAt + t.enableDelay
  }

  /** Events that reach timer `i`: along a wire from its neighbour, or from its own source. */
  function Input(ts: Bank, wires: Wires, sources: Sources, i: nat): seq<nat>
    requires i < TIMER_COUNT
    decreases i, 0
  {
    if wires[i] then Later(Deaf(ts[i]), Output(ts, wires, sources, i - 1)) else sources[i]
  }

  function Output(ts: Bank, wires: Wires, sources: Sources, i: nat): seq<nat>
    requires i < TIMER_COUNT
    decreases i, 1
  {
    Feed(ts[i], Input(ts, wires, sources, i)).overflows
  }

  function FlowTimer(ts: Bank, wires: Wires, sources: Sources, i: nat): Timer
    requires i < TIMER_COUNT
  {
    Feed(ts[i], Input(ts, wires, sources, i)).timer
  }

  function FlowBank(ts: Bank, wires: Wires, sources: Sources): (r: Bank)
    ensures forall i :: 0 <= i < TIMER_COUNT ==> r[i] == FlowTimer(ts, wires, sources, i)
  {
    [FlowTimer(ts, wires, sources, 0), FlowTimer(ts, wires, sources, 1),
     FlowTimer(ts, wires, sources, 2), FlowTimer(ts, wires, sources, 3)]
  }

  predicate Raises(ts: Bank, wires: Wires, sources: Sources, i: nat)
    requires i < TIMER_COUNT
  {
    ts[i].control.irq && Output(ts, wires, sources, i) != []
  }

  function FlowRaised(ts: Bank, wires: Wires, sources: Sources): set<nat> {
    RaisedBy(Raises(ts, wires, sources, 0), Raises(ts, wires, sources, 1),
             Raises(ts, wires, sources, 2), Raises(ts, wires, sources, 3))
  }

  function Earliest(events: seq<nat>): Option<nat> {
    if events == [] then None else Earlier(Some(events[0]), Earliest(events[1..]))
  }

  function EarliestOf(a: Option<nat>, b: Option<nat>, c: Option<nat>, d: Option<nat>): Option<nat> {
    Earlier(Earlier(a, b), Earlier(c, d))
  }

  /** First interrupt cycle contributed by timer `i`. */
  function FirstOf(ts: Bank, wires: Wires, sources: Sources, i: nat): Option<nat>
    requires i < TIMER_COUNT
  {
    if ts[i].control.irq then Earliest(Output(ts, wires, sources, i)) else None
  }

  function FlowFirst(ts: Bank, wires: Wires, sources: Sources): Option<nat> {
    EarliestOf(FirstOf(ts, wires, sources, 0), FirstOf(ts, wires, sources, 1),
               FirstOf(ts, wires, sources, 2), FirstOf(ts, wires, sources, 3))
  }

  function Flow(ts: Bank, wires: Wires, sources: Sources): Outcome {
    Outcome(FlowBank(ts, wires, sources), FlowRaised(ts, wires, sources), FlowFirst(ts, wires, sources))
  }

  function Then(a: Outcome, b: Outcome): Outcome {
    Outcome(b.ts, a.raised + b.raised, Earlier(a.first, b.first))
  }

  function Joined(a: Sources, b: Sources): Sources {
    [a[0] + b[0], a[1] + b[1], a[2] + b[2], a[3] + b[3]]
  }

  // ---------------------------------------------------------------- flow is compositional

  lemma {:induction false} FeedAppend(t: Timer, a: seq<nat>, b: seq<nat>)
    ensures Feed(t, a + b).timer == Feed(Feed(t, a).timer, b).timer
    ensures Feed(t, a + b).overflows == Feed(t, a).overflows + Feed(Feed(t, a).timer, b).overflows
    decreases |a|
  {
    if a == [] {
      assert a + b == b;
    } else {
      assert (a + b)[1..] == a[1..] + b;
      FeedAppend(Count(t), a[1..], b);
    }
  }

  lemma {:induction false} LaterAppend(limit: nat, a: seq<nat>, b: seq<nat>)
    ensures Later(limit, a + b) == Later(limit, a) + Later(limit, b)
  {
    if a == [] {
      assert a + b == b;
    } else {
      assert (a + b)[1..] == a[1..] + b;
      LaterAppend(limit, a[1..], b);
    }
  }

  lemma {:induction false} EarliestAppend(a: seq<nat>, b: seq<nat>)
    ensures Earliest(a + b) == Earlier(Earliest(a), Earliest(b))
  {
    if a == [] {
      assert a + b == b;
    } else {
      assert (a + b)[1..] == a[1..] + b;
      EarliestAppend(a[1..], b);
    }
  }

  lemma {:induction false} InputJoined(ts: Bank, wires: Wires, a: Sources, b: Sources, mid: Bank, i: nat)
    requires i < TIMER_COUNT
    requires mid == FlowBank(ts, wires, a)
    ensures Input(ts, wires, Joined(a, b), i) == Input(ts, wires, a, i) + Input(mid, wires, b, i)
    ensures Output(ts, wires, Joined(a, b), i) == Output(ts, wires, a, i) + Output(mid, wires, b, i)
    ensures FlowTimer(ts, wires, Joined(a, b), i) == FlowTimer(mid, wires, b, i)
    decreases i
  {
    assert mid[i] == Feed(ts[i], Input(ts, wires, a, i)).timer;
    assert Input(ts, wires, Joined(a, b), i) == Input(ts, wires, a, i) + Input(mid, wires, b, i) by {
      if wires[i] {
        InputJoined(ts, wires, a, b, mid, i - 1);
        LaterAppend(Deaf(ts[i]), Output(ts, wires, a, i - 1), Output(mid, wires, b, i - 1));
        assert Deaf(mid[i]) == Deaf(ts[i]);
      } else {
        assert Joined(a, b)[i] == a[i] + b[i];
      }
    }
    FeedAppend(ts[i], Input(ts, wires, a, i), Input(mid, wires, b, i));
  }

  /** Events split into two batches flow exactly as the two batches one after the other. */
  lemma FlowJoined(ts: Bank, wires: Wires, a: Sources, b: Sources)
    ensures Flow(ts, wires, Joined(a, b)) == Then(Flow(ts, wires, a), Flow(FlowBank(ts, wires, a), wires, b))
  {
    var mid := FlowBank(ts, wires, a);
    forall i: nat | i < TIMER_COUNT
      ensures FlowTimer(ts, wires, Joined(a, b), i) == FlowTimer(mid, wires, b, i)
      ensures Output(ts, wires, Joined(a, b), i) == Output(ts, wires, a, i) + Output(mid, wires, b, i)
    {
      InputJoined(ts, wires, a, b, mid, i);
    }
    RaisedJoined(ts, wires, a, b, mid);
    FirstJoined(ts, wires, a, b, mid);
    assert FlowBank(ts, wires, Joined(a, b)) == FlowBank(mid, wires, b);
  }

  lemma RaisedJoined(ts: Bank, wires: Wires, a: Sources, b: Sources, mid: Bank)
    requires mid == FlowBank(ts, wires, a)
    ensures FlowRaised(ts, wires, Joined(a, b)) == FlowRaised(ts, wires, a) + FlowRaised(mid, wires, b)
  {
    RaisesJoined(ts, wires, a, b, mid, 0);
    RaisesJoined(ts, wires, a, b, mid, 1);
    RaisesJoined(ts, wires, a, b, mid, 2);
    RaisesJoined(ts, wires, a, b, mid, 3);
    RaisedByUnion(
      Raises(ts, wires, a, 0), Raises(ts, wires, a, 1), Raises(ts, wires, a, 2), Raises(ts, wires, a, 3),
      Raises(mid, wires, b, 0), Raises(mid, wires, b, 1), Raises(mid, wires, b, 2), Raises(mid, wires, b, 3));
  }

  lemma RaisedByUnion(a0: bool, a1: bool, a2: bool, a3: bool, b0: bool, b1: bool, b2: bool, b3: bool)
    ensures RaisedBy(a0 || b0, a1 || b1, a2 || b2, a3 || b3) == RaisedBy(a0, a1, a2, a3) + RaisedBy(b0, b1, b2, b3)
  {
  }

  lemma RaisesJoined(ts: Bank, wires: Wires, a: Sources, b: Sources, mid: Bank, i: nat)
    requires i < TIMER_COUNT
    requires mid == FlowBank(ts, wires, a)
    ensures Raises(ts, wires, Joined(a, b), i) <==> Raises(ts, wires, a, i) || Raises(mid, wires, b, i)
  {
    InputJoined(ts, wires, a, b, mid, i);
    assert mid[i].control == ts[i].control;
  }

  lemma FirstJoined(ts: Bank, wires: Wires, a: Sources, b: Sources, mid: Bank)
    requires mid == FlowBank(ts, wires, a)
    ensures FlowFirst(ts, wires, Joined(a, b)) == Earlier(FlowFirst(ts, wires, a), FlowFirst(mid, wires, b))
  {
    FirstJoinedAt(ts, wires, a, b, mid, 0);
    FirstJoinedAt(ts, wires, a, b, mid, 1);
    FirstJoinedAt(ts, wires, a, b, mid, 2);
    FirstJoinedAt(ts, wires, a, b, mid, 3);
    EarliestOfPairs(
      FirstOf(ts, wires, a, 0), FirstOf(ts, wires, a, 1), FirstOf(ts, wires, a, 2), FirstOf(ts, wires, a, 3),
      FirstOf(mid, wires, b, 0), FirstOf(mid, wires, b, 1), FirstOf(mid, wires, b, 2), FirstOf(mid, wires, b, 3));
  }

  lemma EarliestOfPairs(a0: Option<nat>, a1: Option<nat>, a2: Option<nat>, a3: Option<nat>,
                        b0: Option<nat>, b1: Option<nat>, b2: Option<nat>, b3: Option<nat>)
    ensures EarliestOf(Earlier(a0, b0), Earlier(a1, b1), Earlier(a2, b2), Earlier(a3, b3))
         == Earlier(EarliestOf(a0, a1, a2, a3), EarliestOf(b0, b1, b2, b3))
  {
    hide Earlier;
    EarlierPairs(a0, a1, b0, b1);
    EarlierPairs(a2, a3, b2, b3);
    EarlierPairs(Earlier(a0, a1), Earlier(a2, a3), Earlier(b0, b1), Earlier(b2, b3));
  }

  lemma EarlierPairs(a: Option<nat>, b: Option<nat>, c: Option<nat>, d: Option<nat>)
    ensures Earlier(Earlier(a, c), Earlier(b, d)) == Earlier(Earlier(a, b), Earlier(c, d))
  {
  }

  lemma FirstJoinedAt(ts: Bank, wires: Wires, a: Sources, b: Sources, mid: Bank, i: nat)
    requires i < TIMER_COUNT
    requires mid == FlowBank(ts, wires, a)
    ensures FirstOf(ts, wires, Joined(a, b), i) == Earlier(FirstOf(ts, wires, a, i), FirstOf(mid, wires, b, i))
  {
    InputJoined(ts, wires, a, b, mid, i);
    assert mid[i].control == ts[i].control;
    EarliestAppend(Output(ts, wires, a, i), Output(mid, wires, b, i));
  }
}
