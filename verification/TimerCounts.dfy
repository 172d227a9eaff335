/**
 What the timers show after any number of cycles, counted from their registers and the cycle number
 alone: prescaler pulses, overflows, counters and interrupts.
 */
module TimerCounts {
  import opened Prelude
  import opened Words
  import opened TimerModel
  import opened TimerUnit
  import W = TimerWindow

  function Period(prescaler: nat): nat {
    if prescaler == 0 then 1 else if prescaler == 1 then 64 else if prescaler == 2 then 256 else 1024
  }

  /** The counter after it has been pulsed up to `total`, and how often it overflowed on the way. */
  function CounterOf(reload: u16, total: nat): u16 {
    if total < 0x1_0000 then total else reload + (total - reload) % (0x1_0000 - reload)
  }

  function OverflowsOf(reload: u16, total: nat): nat {
    if total < 0x1_0000 then 0
    else
      NonNegativeQuotient(total - reload, 0x1_0000 - reload);
      (total - reload) / (0x1_0000 - reload)
  }

  lemma NonNegativeQuotient(a: nat, b: nat)
    requires b > 0
    ensures a / b >= 0
  {
  }

  /** Pulses timer `i` receives in `n` cycles from `now`: prescaler multiples, or the overflows of its
      neighbour, in either case not before its enable delay is over. */
  function Pulses(ts: Bank, now: nat, n: nat, i: nat): int
    requires i < TIMER_COUNT
    decreases i, 0
  {
    var delay, c := Min(ts[i].enableDelay, n), ts[i].control;
    if !c.enable then 0
    else if i > 0 && c.countUp then Overflows(ts, now, n, i - 1) - Overflows(ts, now, delay, i - 1)
    else Ticked(now + n, c.prescaler) - Ticked(now + delay, c.prescaler)
  }

  /** Prescaler ticks up to cycle `x`. */
  function Ticked(x: nat, prescaler: nat): int {
    x / Period(prescaler)
  }

  function Total(ts: Bank, now: nat, n: nat, i: nat): nat
    requires i < TIMER_COUNT
    decreases i, 1
  {
    Max(0, ts[i].counter + Pulses(ts, now, n, i))
  }

  function Overflows(ts: Bank, now: nat, n: nat, i: nat): nat
    requires i < TIMER_COUNT
    decreases i, 2
  {
    OverflowsOf(ts[i].reload, Total(ts, now, n, i))
  }

  /** One more pulse counts up, or overflows into the reload value. */
  lemma OnePulse(reload: u16, total: nat)
    ensures var wraps := CounterOf(reload, total) == 0xFFFF;
            && CounterOf(reload, total + 1) == (if wraps then reload else CounterOf(reload, total) + 1)
            && OverflowsOf(reload, total + 1) == OverflowsOf(reload, total) + if wraps then 1 else 0
  {
    var span: nat := 0x1_0000 - reload;
    if total == 0xFFFF {
      DivModUnique(span, span, 1, 0);
    } else if total > 0xFFFF {
      var q, r := (total - reload) / span, (total - reload) % span;
      if r == span - 1 {
        assert (q + 1) * span == q * span + span;
        DivModUnique(total + 1 - reload, span, q + 1, 0);
      } else {
        DivModUnique(total + 1 - reload, span, q, r + 1);
      }
    }
  }

  predicate TickDue(cycle: nat, c: Control) {
    cycle % Divisor(c) == 0
  }

  lemma PrescalerStep(x: nat, c: Control)
    requires c.prescaler < 4
    ensures Ticked(x + 1, c.prescaler) == Ticked(x, c.prescaler) + if TickDue(x + 1, c) then 1 else 0
  {
  }

  /** Timer `i` after `n` cycles, in terms of its first state. */
  function CountedTimer(ts: Bank, now: nat, n: nat, i: nat): Timer
    requires i < TIMER_COUNT
  {
    var t := ts[i];
    t.(counter := CounterOf(t.reload, Total(ts, now, n, i)),
       overflowCount := t.overflowCount + Overflows(ts, now, n, i),
       enableDelay := if t.control.enable then t.enableDelay - Min(t.enableDelay, n) else t.enableDelay,
       justEnabled := t.justEnabled && n == 0)
  }

  lemma NothingCounted(ts: Bank, now: nat, i: nat)
    requires i < TIMER_COUNT
    ensures Pulses(ts, now, 0, i) == 0 && Overflows(ts, now, 0, i) == 0 && CountedTimer(ts, now, 0, i) == ts[i]
  {
  }

  /** Cycle `n` + 1 of a bank that has been counted for `n` cycles. */
  lemma {:induction false} CountedStep(ts: Bank, now: nat, n: nat, i: nat, us: Bank)
    requires i < TIMER_COUNT && BankReachable(ts, now)
    requires forall k: nat :: k < TIMER_COUNT ==> us[k] == CountedTimer(ts, now, n, k)
    requires forall k: nat :: k < TIMER_COUNT ==> Pulses(ts, now, n, k) >= 0
    ensures Pulses(ts, now, n + 1, i) == Pulses(ts, now, n, i) + if Pulsed(us, i, now + n + 1) then 1 else 0
    ensures Overflows(ts, now, n + 1, i) == Overflows(ts, now, n, i) + if Wraps(us, i, now + n + 1) then 1 else 0
    ensures CountedTimer(ts, now, n + 1, i) == StepTimer(us, i, now + n + 1)
    decreases i
  {
    var t := ts[i];
    assert Reachable(t, now);
    NothingCounted(ts, now, i);
    if i > 0 {
      NothingCounted(ts, now, i - 1);
      CountedStep(ts, now, n, i - 1, us);
    }
    PulsesStep(ts, now, n, i, us);
    OnePulse(t.reload, Total(ts, now, n, i));
    hide Pulses, CounterOf, OverflowsOf, Reachable;
  }

  lemma {:induction false} PulsesStep(ts: Bank, now: nat, n: nat, i: nat, us: Bank)
    requires i < TIMER_COUNT && Reachable(ts[i], now) && us[i] == CountedTimer(ts, now, n, i)
    requires i > 0 ==>
               Overflows(ts, now, n + 1, i - 1)
               == Overflows(ts, now, n, i - 1) + if Wraps(us, i - 1, now + n + 1) then 1 else 0
    ensures Pulses(ts, now, n + 1, i) == Pulses(ts, now, n, i) + if Pulsed(us, i, now + n + 1) then 1 else 0
  {
    var t, c := ts[i], ts[i].control;
    assert t.enableDelay <= 1 && c.prescaler < 4;
    assert us[i].control == c && (c.enable ==> us[i].enableDelay == t.enableDelay - Min(t.enableDelay, n));
    hide *;
    PulsedWhen(us, i, now + n + 1);
    if c.enable && us[i].enableDelay == 0 {
      DelayRuns(t.enableDelay, n);
      PulsesGrow(ts, now, n, i);
    } else {
      if c.enable {
        DelayRuns(t.enableDelay, n);
      }
      PulsesStill(ts, now, n, i);
    }
  }

  lemma {:induction false} PulsesGrow(ts: Bank, now: nat, n: nat, i: nat)
    requires i < TIMER_COUNT && ts[i].control.enable && ts[i].control.prescaler < 4
    requires Min(ts[i].enableDelay, n + 1) == Min(ts[i].enableDelay, n)
    ensures var c := ts[i].control;
            Pulses(ts, now, n + 1, i)
            == Pulses(ts, now, n, i)
               + if i > 0 && c.countUp then Overflows(ts, now, n + 1, i - 1) - Overflows(ts, now, n, i - 1)
                 else if TickDue(now + n + 1, c) then 1 else 0
  {
    hide *;
    PulsesOf(ts, now, n, i);
    PulsesOf(ts, now, n + 1, i);
    PrescalerStep(now + n, ts[i].control);
  }

  lemma {:induction false} PulsesStill(ts: Bank, now: nat, n: nat, i: nat)
    requires i < TIMER_COUNT
    requires ts[i].control.enable ==> n == 0 && Min(ts[i].enableDelay, 1) == 1 && Min(ts[i].enableDelay, 0) == 0
    ensures Pulses(ts, now, n + 1, i) == Pulses(ts, now, n, i)
  {
    hide *;
    PulsesOf(ts, now, n, i);
    PulsesOf(ts, now, n + 1, i);
  }

  lemma DelayRuns(delay: nat, n: nat)
    requires delay <= 1
    ensures delay - Min(delay, n) == 0 ==> Min(delay, n + 1) == Min(delay, n)
    ensures delay - Min(delay, n) != 0 ==> n == 0 && Min(delay, n + 1) == 1 && Min(delay, n) == 0
  {
  }

  lemma {:induction false} PulsesOf(ts: Bank, now: nat, n: nat, i: nat)
    requires i < TIMER_COUNT
    ensures var delay, c := Min(ts[i].enableDelay, n), ts[i].control;
            Pulses(ts, now, n, i)
            == if !c.enable then 0
               else if i > 0 && c.countUp then Overflows(ts, now, n, i - 1) - Overflows(ts, now, delay, i - 1)
               else Ticked(now + n, c.prescaler) - Ticked(now + delay, c.prescaler)
  {
    hide Overflows, Ticked;
  }

  lemma PulsedWhen(us: Bank, i: nat, cycle: nat)
    requires i < TIMER_COUNT
    ensures Pulsed(us, i, cycle)
       <==> us[i].control.enable && us[i].enableDelay == 0
            && if i > 0 && us[i].control.countUp then Wraps(us, i - 1, cycle) else TickDue(cycle, us[i].control)
  {
    hide Divisor, Wraps;
  }

  /** The outcome of counting for `n` cycles; bit 3 + i of IF belongs to timer i. */
  ghost predicate Counted(ts: Bank, now: nat, n: nat, outcome: Outcome) {
    && (forall i: nat :: i < TIMER_COUNT ==> outcome.ts[i] == CountedTimer(ts, now, n, i) && Pulses(ts, now, n, i) >= 0)
    && outcome.raised <= {3, 4, 5, 6}
    && forall i: nat :: i < TIMER_COUNT ==>
         (3 + i in outcome.raised <==> ts[i].control.irq && Overflows(ts, now, n, i) > 0)
  }

  /** Any number of single cycles leaves the counters, overflow counts and interrupt flags that the
      pulse counts say, for free-running, cascaded, delayed and stopped timers. */
  lemma {:induction false} PollCounted(ts: Bank, now: nat, n: nat)
    requires BankReachable(ts, now)
    ensures Counted(ts, now, n, Poll(ts, now, n))
    decreases n
  {
    hide *;
    if n == 0 {
      NothingPolled(ts, now);
    } else {
      var before := Poll(ts, now, n - 1);
      PollCounted(ts, now, n - 1);
      forall i: nat | i < TIMER_COUNT
        ensures StepsTo(ts, now, n, i, before.ts)
      {
        BankStep(ts, now, n, i, before);
      }
      OneMoreCycle(ts, now, n, before);
    }
  }

  lemma NothingPolled(ts: Bank, now: nat)
    ensures Counted(ts, now, 0, Poll(ts, now, 0))
  {
    forall i: nat | i < TIMER_COUNT
      ensures CountedTimer(ts, now, 0, i) == ts[i] && Pulses(ts, now, 0, i) == 0 && Overflows(ts, now, 0, i) == 0
    {
      NothingCounted(ts, now, i);
    }
    hide Pulses, Overflows, CountedTimer;
  }

  /** Timer `i` of a bank counted for `n` - 1 cycles takes its `n`th as counted. */
  ghost predicate StepsTo(ts: Bank, now: nat, n: nat, i: nat, us: Bank)
    requires i < TIMER_COUNT && n > 0
  {
    && Pulses(ts, now, n, i) >= 0
    && StepBank(us, now + n)[i] == CountedTimer(ts, now, n, i)
    && Overflows(ts, now, n, i) == Overflows(ts, now, n - 1, i) + (if Wraps(us, i, now + n) then 1 else 0)
    && us[i].control == ts[i].control
  }

  lemma {:induction false} BankStep(ts: Bank, now: nat, n: nat, i: nat, before: Outcome)
    requires i < TIMER_COUNT && n > 0 && BankReachable(ts, now) && Counted(ts, now, n - 1, before)
    ensures StepsTo(ts, now, n, i, before.ts)
  {
    hide Pulses, Overflows, CountedTimer, StepTimer, Wraps, Pulsed;
    CountedStep(ts, now, n - 1, i, before.ts);
    SameControl(ts, now, n - 1, i);
    assert now + (n - 1) + 1 == now + n;
  }

  lemma SameControl(ts: Bank, now: nat, n: nat, i: nat)
    requires i < TIMER_COUNT
    ensures CountedTimer(ts, now, n, i).control == ts[i].control
  {
  }

  lemma {:induction false} OneMoreCycle(ts: Bank, now: nat, n: nat, before: Outcome)
    requires n > 0 && before == Poll(ts, now, n - 1) && Counted(ts, now, n - 1, before)
    requires forall i: nat :: i < TIMER_COUNT ==> StepsTo(ts, now, n, i, before.ts)
    ensures Counted(ts, now, n, Poll(ts, now, n))
  {
    hide Pulses, Overflows, CountedTimer, StepTimer, StepBank, Wraps, RaisedBy;
    var raised, after := StepRaised(before.ts, now + n), Poll(ts, now, n);
    StepRaises(before.ts, now + n);
    assert after.raised == before.raised + raised && after.ts == StepBank(before.ts, now + n);
    hide StepRaised, Poll;
    forall i: nat | i < TIMER_COUNT
      ensures after.ts[i] == CountedTimer(ts, now, n, i) && Pulses(ts, now, n, i) >= 0
      ensures 3 + i in after.raised <==> ts[i].control.irq && Overflows(ts, now, n, i) > 0
    {
      assert StepsTo(ts, now, n, i, before.ts);
      assert 3 + i in after.raised <==> 3 + i in before.raised || 3 + i in raised;
    }
  }

  lemma StepRaises(ts: Bank, cycle: nat)
    ensures StepRaised(ts, cycle) <= {3, 4, 5, 6}
    ensures forall i: nat :: i < TIMER_COUNT ==>
              (3 + i in StepRaised(ts, cycle) <==> ts[i].control.irq && Wraps(ts, i, cycle))
  {
    hide Wraps;
    forall i: nat | i < TIMER_COUNT
      ensures 3 + i in StepRaised(ts, cycle) <==> ts[i].control.irq && Wraps(ts, i, cycle)
    {
      if i == 0 {
      } else if i == 1 {
      } else if i == 2 {
      } else {
      }
    }
  }

  /** A timer switched on by register writes: it starts at the reload value, misses the first cycle,
      and then counts and overflows with the period its two prescaler bits select. */
  lemma {:induction false} StartedTimer(ts: Bank, now: nat, i: nat, reload: u16, value: u16, n: nat)
    requires BankReachable(ts, now) && i < TIMER_COUNT && !ts[i].control.enable
    requires value / 128 % 2 == 1 && (i > 0 ==> value / 4 % 2 == 0)
    ensures var started := Deferred(WithControl(WithReload(ts, i, reload), now, i, value));
            var polled := Poll(started, now, n);
            var ticks := (now + n) / Period(value % 4) - (now + Min(1, n)) / Period(value % 4);
            && ticks >= 0
            && polled.ts[i].counter == CounterOf(reload, reload + ticks)
            && polled.ts[i].overflowCount == ts[i].overflowCount + OverflowsOf(reload, reload + ticks)
            && (3 + i in polled.raised <==> value / 64 % 2 == 1 && OverflowsOf(reload, reload + ticks) > 0)
  {
    var started := Deferred(WithControl(WithReload(ts, i, reload), now, i, value));
    StartedRegisters(ts, now, i, reload, value);
    hide *;
    PollCounted(started, now, n);
    StartedCounts(started, now, n, i, reload, value % 4);
    CountedAt(started, now, n, i);
  }

  lemma {:induction false} CountedAt(ts: Bank, now: nat, n: nat, i: nat)
    requires i < TIMER_COUNT && Counted(ts, now, n, Poll(ts, now, n))
    ensures var polled := Poll(ts, now, n);
            && polled.ts[i].counter == CounterOf(ts[i].reload, Total(ts, now, n, i))
            && polled.ts[i].overflowCount == ts[i].overflowCount + Overflows(ts, now, n, i)
            && Total(ts, now, n, i) == ts[i].counter + Pulses(ts, now, n, i) && Pulses(ts, now, n, i) >= 0
            && (3 + i in polled.raised <==> ts[i].control.irq && Overflows(ts, now, n, i) > 0)
            && Overflows(ts, now, n, i) == OverflowsOf(ts[i].reload, Total(ts, now, n, i))
  {
    hide Poll, CounterOf, OverflowsOf, Pulses;
  }

  lemma StartedRegisters(ts: Bank, now: nat, i: nat, reload: u16, value: u16)
    requires BankReachable(ts, now) && i < TIMER_COUNT && !ts[i].control.enable
    requires value / 128 % 2 == 1 && (i > 0 ==> value / 4 % 2 == 0)
    ensures var started := Deferred(WithControl(WithReload(ts, i, reload), now, i, value));
            var t := started[i];
            && BankReachable(started, now)
            && t.counter == reload == t.reload && t.enableDelay == 1 && t.overflowCount == ts[i].overflowCount
            && t.control == Control(value % 4, false, value / 64 % 2 == 1, true)
  {
    var started := Deferred(WithControl(WithReload(ts, i, reload), now, i, value));
    forall k | 0 <= k < TIMER_COUNT
      ensures Reachable(started[k], now)
    {
      assert Reachable(ts[k], now);
    }
  }

  lemma {:induction false} StartedCounts(ts: Bank, now: nat, n: nat, i: nat, reload: u16, prescaler: nat)
    requires i < TIMER_COUNT && ts[i].control.enable && !ts[i].control.countUp && ts[i].enableDelay == 1
    requires ts[i].control.prescaler == prescaler
    ensures Pulses(ts, now, n, i) == (now + n) / Period(prescaler) - (now + Min(1, n)) / Period(prescaler)
  {
    PulsesOf(ts, now, n, i);
    hide Pulses, Period;
  }
}
