/**
 A whole tick() window as one event flow, and the theorem that it is the same as counting
 the window's cycles one at a time.
 */
module TimerWindow {
  import opened Prelude
  import opened Interrupts
  import opened TimerModel

  function WiresOf(ts: Bank): Wires {
    [false, Listens(ts, 1), Listens(ts, 2), Listens(ts, 3)]
  }

  /** Prescaler ticks of timer `i` in the window (start, start + n], after its enable delay. */
  function SourceOf(ts: Bank, i: nat, start: nat, n: nat): seq<nat>
    requires i < TIMER_COUNT
  {
    if FreeRunning(ts, i)
    then Ticks(Divisor(ts[i].control), start + Min(ts[i].enableDelay, n), start + n)
    else []
  }

  function SourcesOf(ts: Bank, start: nat, n: nat): Sources {
    [SourceOf(ts, 0, start, n), SourceOf(ts, 1, start, n), SourceOf(ts, 2, start, n), SourceOf(ts, 3, start, n)]
  }

  /** The enable delay runs down and the just-enabled mark is dropped. */
  function SettleTimer(t: Timer, n: nat): Timer {
    t.(enableDelay := if t.control.enable then t.enableDelay - Min(t.enableDelay, n) else t.enableDelay,
       justEnabled := false)
  }

  function Settle(ts: Bank, n: nat): Bank {
    [SettleTimer(ts[0], n), SettleTimer(ts[1], n), SettleTimer(ts[2], n), SettleTimer(ts[3], n)]
  }

  /** The effect of tick(n) at cycle `start`. */
  function Window(ts: Bank, start: nat, n: nat): Outcome {
    if n == 0 then Outcome(ts, {}, None)
    else
      var flow := Flow(ts, WiresOf(ts), SourcesOf(ts, start, n));
      flow.(ts := Settle(flow.ts, n))
  }

  // ---------------------------------------------------------------- ranges of events

  ghost predicate Within(events: seq<nat>, lo: nat, hi: nat) {
    forall k :: 0 <= k < |events| ==> lo < events[k] <= hi
  }

  lemma {:induction false} TicksWithin(divisor: nat, lo: nat, hi: nat)
    requires divisor > 0
    ensures Within(Ticks(divisor, lo, hi), lo, hi)
    decreases hi
  {
    if hi > lo {
      TicksWithin(divisor, lo, hi - 1);
    }
  }

  lemma {:induction false} TicksSplit(divisor: nat, lo: nat, mid: nat, hi: nat)
    requires divisor > 0 && lo <= mid <= hi
    ensures Ticks(divisor, lo, hi) == Ticks(divisor, lo, mid) + Ticks(divisor, mid, hi)
    decreases hi
  {
    if hi > mid {
      TicksSplit(divisor, lo, mid, hi - 1);
    }
  }

  lemma {:induction false} FeedWithin(t: Timer, events: seq<nat>, lo: nat, hi: nat)
    requires Within(events, lo, hi)
    ensures Within(Feed(t, events).overflows, lo, hi)
    decreases |events|
  {
    if events != [] {
      assert events[0] > lo;
      assert Within(events[1..], lo, hi) by {
        forall k | 0 <= k < |events[1..]| ensures lo < events[1..][k] <= hi {
          assert events[1..][k] == events[k + 1];
        }
      }
      FeedWithin(Count(t), events[1..], lo, hi);
    }
  }

  lemma {:induction false} LaterWithin(limit: nat, events: seq<nat>, lo: nat, hi: nat)
    requires Within(events, lo, hi)
    ensures Within(Later(limit, events), lo, hi)
    ensures limit <= lo ==> Later(limit, events) == events
    decreases |events|
  {
    if events != [] {
      assert events[0] > lo;
      assert Within(events[1..], lo, hi) by {
        forall k | 0 <= k < |events[1..]| ensures lo < events[1..][k] <= hi {
          assert events[1..][k] == events[k + 1];
        }
      }
      LaterWithin(limit, events[1..], lo, hi);
    }
  }

  lemma {:induction false} EarliestWithin(events: seq<nat>, lo: nat, hi: nat)
    requires Within(events, lo, hi)
    ensures Earliest(events).Some? <==> events != []
    ensures Earliest(events).Some? ==> lo < Earliest(events).value <= hi
    decreases |events|
  {
    if events != [] {
      assert events[0] > lo;
      assert Within(events[1..], lo, hi) by {
        forall k | 0 <= k < |events[1..]| ensures lo < events[1..][k] <= hi {
          assert events[1..][k] == events[k + 1];
        }
      }
      EarliestWithin(events[1..], lo, hi);
    }
  }

  lemma {:induction false} FlowWithin(ts: Bank, wires: Wires, e: Sources, lo: nat, hi: nat, i: nat)
    requires i < TIMER_COUNT
    requires forall k: nat :: k < TIMER_COUNT ==> Within(e[k], lo, hi)
    ensures Within(Input(ts, wires, e, i), lo, hi)
    ensures Within(Output(ts, wires, e, i), lo, hi)
    decreases i
  {
    if wires[i] {
      FlowWithin(ts, wires, e, lo, hi, i - 1);
      LaterWithin(Deaf(ts[i]), Output(ts, wires, e, i - 1), lo, hi);
    }
    FeedWithin(ts[i], Input(ts, wires, e, i), lo, hi);
  }

  lemma SourcesWithin(ts: Bank, start: nat, n: nat)
    ensures forall i: nat :: i < TIMER_COUNT ==> Within(SourcesOf(ts, start, n)[i], start, start + n)
  {
    forall i: nat | i < TIMER_COUNT
      ensures Within(SourcesOf(ts, start, n)[i], start, start + n)
    {
      assert SourcesOf(ts, start, n)[i] == SourceOf(ts, i, start, n);
      TicksWithin(Divisor(ts[i].control), start + Min(ts[i].enableDelay, n), start + n);
    }
  }

  /** The first interrupt of a window lies inside it, and exists exactly when one was raised. */
  lemma WindowFirst(ts: Bank, start: nat, n: nat)
    ensures var w := Window(ts, start, n);
            (w.first.Some? <==> w.raised != {}) && (w.first.Some? ==> start < w.first.value <= start + n)
  {
    if n != 0 {
      var wires, e := WiresOf(ts), SourcesOf(ts, start, n);
      SourcesWithin(ts, start, n);
      FirstAt(ts, wires, e, start, start + n, 0);
      FirstAt(ts, wires, e, start, start + n, 1);
      FirstAt(ts, wires, e, start, start + n, 2);
      FirstAt(ts, wires, e, start, start + n, 3);
      RaisedByEmpty(Raises(ts, wires, e, 0), Raises(ts, wires, e, 1), Raises(ts, wires, e, 2), Raises(ts, wires, e, 3));
      EarliestOfBounds(FirstOf(ts, wires, e, 0), FirstOf(ts, wires, e, 1), FirstOf(ts, wires, e, 2),
                       FirstOf(ts, wires, e, 3), start, start + n);
    }
  }

  lemma RaisedByEmpty(a: bool, b: bool, c: bool, d: bool)
    ensures RaisedBy(a, b, c, d) != {} <==> a || b || c || d
  {
    assert a ==> TIMER0 in RaisedBy(a, b, c, d);
    assert b ==> TIMER0 + 1 in RaisedBy(a, b, c, d);
    assert c ==> TIMER0 + 2 in RaisedBy(a, b, c, d);
    assert d ==> TIMER0 + 3 in RaisedBy(a, b, c, d);
  }

  lemma EarliestOfBounds(a: Option<nat>, b: Option<nat>, c: Option<nat>, d: Option<nat>, lo: nat, hi: nat)
    requires a.Some? ==> lo < a.value <= hi
    requires b.Some? ==> lo < b.value <= hi
    requires c.Some? ==> lo < c.value <= hi
    requires d.Some? ==> lo < d.value <= hi
    ensures EarliestOf(a, b, c, d).Some? <==> a.Some? || b.Some? || c.Some? || d.Some?
    ensures EarliestOf(a, b, c, d).Some? ==> lo < EarliestOf(a, b, c, d).value <= hi
  {
  }

  lemma FirstAt(ts: Bank, wires: Wires, e: Sources, lo: nat, hi: nat, i: nat)
    requires i < TIMER_COUNT
    requires forall k: nat :: k < TIMER_COUNT ==> Within(e[k], lo, hi)
    ensures FirstOf(ts, wires, e, i).Some? <==> Raises(ts, wires, e, i)
    ensures FirstOf(ts, wires, e, i).Some? ==> lo < FirstOf(ts, wires, e, i).value <= hi
  {
    FlowWithin(ts, wires, e, lo, hi, i);
    EarliestWithin(Output(ts, wires, e, i), lo, hi);
  }

  // ---------------------------------------------------------------- restamping

  /** `u` is `t` up to the fields that only matter while an enable is pending. */
  ghost predicate SameCounting(t: Timer, u: Timer) {
    u == t.(enableDelay := u.enableDelay, justEnabled := u.justEnabled, enabledAt := u.enabledAt,
            lastEnablePhase := u.lastEnablePhase)
  }

  lemma {:induction false} FeedSame(t: Timer, u: Timer, events: seq<nat>)
    requires SameCounting(t, u)
    ensures SameCounting(Feed(t, events).timer, Feed(u, events).timer)
    ensures Feed(t, events).overflows == Feed(u, events).overflows
    decreases |events|
  {
    if events != [] {
      FeedSame(Count(t), Count(u), events[1..]);
    }
  }

  /** Enable bookkeeping that is over before the window begins cannot be observed in it. */
  lemma {:induction false} FlowSame(ts: Bank, us: Bank, wires: Wires, e: Sources, lo: nat, hi: nat, i: nat)
    requires i < TIMER_COUNT
    requires forall k: nat :: k < TIMER_COUNT ==> Within(e[k], lo, hi)
    requires forall k: nat :: k < TIMER_COUNT ==> SameCounting(ts[k], us[k])
    requires forall k: nat :: k < TIMER_COUNT ==>
               Deaf(ts[k]) == Deaf(us[k]) || (Deaf(ts[k]) <= lo && Deaf(us[k]) <= lo)
    ensures Input(ts, wires, e, i) == Input(us, wires, e, i)
    ensures Output(ts, wires, e, i) == Output(us, wires, e, i)
    ensures SameCounting(FlowTimer(ts, wires, e, i), FlowTimer(us, wires, e, i))
    decreases i
  {
    assert Input(ts, wires, e, i) == Input(us, wires, e, i) by {
      if wires[i] {
        FlowSame(ts, us, wires, e, lo, hi, i - 1);
        FlowWithin(ts, wires, e, lo, hi, i - 1);
        LaterWithin(Deaf(ts[i]), Output(ts, wires, e, i - 1), lo, hi);
        LaterWithin(Deaf(us[i]), Output(ts, wires, e, i - 1), lo, hi);
      }
    }
    FeedSame(ts[i], us[i], Input(ts, wires, e, i));
  }

  lemma FlowSameOutcome(ts: Bank, us: Bank, wires: Wires, e: Sources, lo: nat, hi: nat)
    requires forall k: nat :: k < TIMER_COUNT ==> Within(e[k], lo, hi)
    requires forall k: nat :: k < TIMER_COUNT ==> SameCounting(ts[k], us[k])
    requires forall k: nat :: k < TIMER_COUNT ==>
               Deaf(ts[k]) == Deaf(us[k]) || (Deaf(ts[k]) <= lo && Deaf(us[k]) <= lo)
    ensures FlowRaised(ts, wires, e) == FlowRaised(us, wires, e)
    ensures FlowFirst(ts, wires, e) == FlowFirst(us, wires, e)
    ensures forall k: nat :: k < TIMER_COUNT ==> SameCounting(FlowBank(ts, wires, e)[k], FlowBank(us, wires, e)[k])
  {
    forall i: nat | i < TIMER_COUNT
      ensures Raises(ts, wires, e, i) == Raises(us, wires, e, i)
      ensures FirstOf(ts, wires, e, i) == FirstOf(us, wires, e, i)
      ensures SameCounting(FlowTimer(ts, wires, e, i), FlowTimer(us, wires, e, i))
    {
      FlowSame(ts, us, wires, e, lo, hi, i);
    }
  }

  // ---------------------------------------------------------------- windows compose

  lemma WindowKeeps(ts: Bank, start: nat, n: nat)
    requires BankReachable(ts, start)
    ensures BankReachable(Window(ts, start, n).ts, start + n)
    ensures WiresOf(Window(ts, start, n).ts) == WiresOf(ts)
    ensures forall i :: 0 <= i < TIMER_COUNT ==> Window(ts, start, n).ts[i].control == ts[i].control
    ensures n > 0 ==> forall i :: 0 <= i < TIMER_COUNT ==> Window(ts, start, n).ts[i].enableDelay == 0
  {
    if n != 0 {
      forall i | 0 <= i < TIMER_COUNT
        ensures Window(ts, start, n).ts[i].control == ts[i].control
        ensures Reachable(Window(ts, start, n).ts[i], start + n)
        ensures Window(ts, start, n).ts[i].enableDelay == 0
      {
        assert Reachable(ts[i], start);
        assert Window(ts, start, n).ts[i] == SettleTimer(FlowTimer(ts, WiresOf(ts), SourcesOf(ts, start, n), i), n);
      }
    }
  }

  /** tick(a) followed by tick(b) is tick(a + b). */
  lemma WindowSplits(ts: Bank, start: nat, a: nat, b: nat)
    requires BankReachable(ts, start)
    ensures Window(ts, start, a + b)
         == Then(Window(ts, start, a), Window(Window(ts, start, a).ts, start + a, b))
  {
    hide FlowBank, FlowRaised, FlowFirst, SourcesOf, WiresOf, Settle, Joined;
    if a == 0 {
    } else if b == 0 {
    } else {
      var settled := Settle(FlowBank(ts, WiresOf(ts), SourcesOf(ts, start, a)), a);
      assert settled == Window(ts, start, a).ts;
      WindowKeeps(ts, start, a);
      SourcesSplit(ts, start, settled, a, b);
      FlowSplits(ts, start, WiresOf(ts), SourcesOf(ts, start, a), SourcesOf(settled, start + a, b), settled, a, b);
    }
  }

  lemma FlowSplits(ts: Bank, start: nat, wires: Wires, ea: Sources, eb: Sources, settled: Bank, a: nat, b: nat)
    requires BankReachable(ts, start) && a > 0 && b > 0
    requires wires == WiresOf(ts) && ea == SourcesOf(ts, start, a)
    requires settled == Settle(FlowBank(ts, wires, ea), a)
    requires eb == SourcesOf(settled, start + a, b)
    ensures Settle(FlowBank(ts, wires, Joined(ea, eb)), a + b) == Settle(FlowBank(settled, wires, eb), b)
    ensures FlowRaised(ts, wires, Joined(ea, eb)) == FlowRaised(ts, wires, ea) + FlowRaised(settled, wires, eb)
    ensures FlowFirst(ts, wires, Joined(ea, eb)) == Earlier(FlowFirst(ts, wires, ea), FlowFirst(settled, wires, eb))
  {
    hide FlowBank, FlowRaised, FlowFirst, Joined, SourcesOf, WiresOf, Settle;
    var mid := FlowBank(ts, wires, ea);
    FlowJoined(ts, wires, ea, eb);
    SourcesWithin(settled, start + a, b);
    SettledSame(ts, start, a);
    FlowSameOutcome(mid, settled, wires, eb, start + a, start + a + b);
    SettleTwice(mid, settled, wires, ea, eb, a, b);
  }

  lemma SourcesSplit(ts: Bank, start: nat, settled: Bank, a: nat, b: nat)
    requires BankReachable(ts, start) && a > 0 && b > 0
    requires forall i: nat :: i < TIMER_COUNT ==> settled[i].control == ts[i].control && settled[i].enableDelay == 0
    ensures SourcesOf(ts, start, a + b) == Joined(SourcesOf(ts, start, a), SourcesOf(settled, start + a, b))
  {
    SourceSplits(ts, start, settled, a, b, 0);
    SourceSplits(ts, start, settled, a, b, 1);
    SourceSplits(ts, start, settled, a, b, 2);
    SourceSplits(ts, start, settled, a, b, 3);
  }

  lemma SourceSplits(ts: Bank, start: nat, settled: Bank, a: nat, b: nat, i: nat)
    requires i < TIMER_COUNT && a > 0 && b > 0
    requires Reachable(ts[i], start)
    requires settled[i].control == ts[i].control && settled[i].enableDelay == 0
    ensures SourceOf(ts, i, start, a + b) == SourceOf(ts, i, start, a) + SourceOf(settled, i, start + a, b)
  {
    hide Ticks, Divisor;
    if FreeRunning(ts, i) {
      TicksSplit(Divisor(ts[i].control), start + ts[i].enableDelay, start + a, start + a + b);
    }
  }

  lemma SettledSame(ts: Bank, start: nat, a: nat)
    requires BankReachable(ts, start) && a > 0
    ensures var mid := FlowBank(ts, WiresOf(ts), SourcesOf(ts, start, a));
            var settled := Settle(mid, a);
            forall k: nat :: k < TIMER_COUNT ==>
              && SameCounting(mid[k], settled[k])
              && Deaf(mid[k]) <= start + a && Deaf(settled[k]) <= start + a
  {
    forall k: nat | k < TIMER_COUNT
      ensures var mid := FlowBank(ts, WiresOf(ts), SourcesOf(ts, start, a));
              var settled := Settle(mid, a);
              SameCounting(mid[k], settled[k])
              && Deaf(mid[k]) <= start + a && Deaf(settled[k]) <= start + a
    {
      assert Reachable(ts[k], start);
    }
  }

  lemma SettleTwice(mid: Bank, settled: Bank, wires: Wires, ea: Sources, eb: Sources, a: nat, b: nat)
    requires settled == Settle(mid, a)
    requires forall k: nat :: k < TIMER_COUNT ==>
               SameCounting(FlowBank(mid, wires, eb)[k], FlowBank(settled, wires, eb)[k])
    ensures Settle(FlowBank(mid, wires, eb), a + b) == Settle(FlowBank(settled, wires, eb), b)
  {
    forall k: nat | k < TIMER_COUNT
      ensures SettleTimer(FlowBank(mid, wires, eb)[k], a + b) == SettleTimer(FlowBank(settled, wires, eb)[k], b)
    {
      assert SameCounting(FlowBank(mid, wires, eb)[k], FlowBank(settled, wires, eb)[k]);
    }
  }

  // ---------------------------------------------------------------- one cycle

  lemma SinglePulse(ts: Bank, start: nat, i: nat)
    requires i < TIMER_COUNT
    requires BankReachable(ts, start)
    ensures Input(ts, WiresOf(ts), SourcesOf(ts, start, 1), i)
         == if Pulsed(ts, i, start + 1) then [start + 1] else []
    ensures Output(ts, WiresOf(ts), SourcesOf(ts, start, 1), i)
         == if Wraps(ts, i, start + 1) then [start + 1] else []
    ensures SettleTimer(FlowTimer(ts, WiresOf(ts), SourcesOf(ts, start, 1), i), 1) == StepTimer(ts, i, start + 1)
    decreases i
  {
    assert Reachable(ts[i], start);
    var wires, e := WiresOf(ts), SourcesOf(ts, start, 1);
    assert Input(ts, wires, e, i) == if Pulsed(ts, i, start + 1) then [start + 1] else [] by {
      if wires[i] {
        assert Listens(ts, i);
        SinglePulse(ts, start, i - 1);
        LaterOne(Deaf(ts[i]), start + 1);
      } else {
        assert !Listens(ts, i);
        assert e[i] == SourceOf(ts, i, start, 1);
        assert Ticks(Divisor(ts[i].control), start, start) == [];
      }
    }
    FeedOne(ts[i], start + 1);
  }

  lemma LaterOne(limit: nat, cycle: nat)
    ensures Later(limit, [cycle]) == if cycle > limit then [cycle] else []
  {
    assert [cycle][1..] == [];
  }

  lemma FeedOne(t: Timer, cycle: nat)
    ensures Feed(t, [cycle]) == Fed(Count(t), if t.counter == COUNTER_TOP then [cycle] else [])
  {
    assert [cycle][1..] == [];
  }

  lemma SingleCycle(ts: Bank, start: nat)
    requires BankReachable(ts, start)
    ensures Window(ts, start, 1).ts == StepBank(ts, start + 1)
    ensures Window(ts, start, 1).raised == StepRaised(ts, start + 1)
    ensures Window(ts, start, 1).first == if StepRaised(ts, start + 1) != {} then Some(start + 1) else None
  {
    forall i: nat | i < TIMER_COUNT
      ensures SettleTimer(FlowTimer(ts, WiresOf(ts), SourcesOf(ts, start, 1), i), 1) == StepTimer(ts, i, start + 1)
      ensures Raises(ts, WiresOf(ts), SourcesOf(ts, start, 1), i) <==> ts[i].control.irq && Wraps(ts, i, start + 1)
    {
      SinglePulse(ts, start, i);
    }
    WindowFirst(ts, start, 1);
  }

  /** A window of `n` cycles is `n` single cycles: same counters, overflow counts, IF bits and
      first interrupt cycle, through cascades, reloads and the one-cycle enable delay. */
  lemma {:induction false} WindowIsPolling(ts: Bank, start: nat, n: nat)
    requires BankReachable(ts, start)
    ensures Window(ts, start, n) == Poll(ts, start, n)
    ensures BankReachable(Poll(ts, start, n).ts, start + n)
    decreases n
  {
    hide StepBank, StepRaised, Flow;
    if n != 0 {
      WindowIsPolling(ts, start, n - 1);
      WindowExtends(ts, start, n - 1);
    }
    WindowKeeps(ts, start, n);
  }

  lemma WindowExtends(ts: Bank, start: nat, n: nat)
    requires BankReachable(ts, start)
    ensures var before := Window(ts, start, n);
            var raised := StepRaised(before.ts, start + n + 1);
            Window(ts, start, n + 1)
              == Outcome(StepBank(before.ts, start + n + 1), before.raised + raised,
                         if before.first.None? && raised != {} then Some(start + n + 1) else before.first)
  {
    hide Window, StepBank, StepRaised;
    var before := Window(ts, start, n);
    WindowKeeps(ts, start, n);
    WindowFirst(ts, start, n);
    WindowSplits(ts, start, n, 1);
    SingleCycle(before.ts, start + n);
  }
}
