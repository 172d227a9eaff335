/** The timer block: register writes, tick() in closed form, and snapshots. */
module TimerUnit {
  import opened Prelude
  import opened Interrupts
  import opened TimerModel
  import opened TimerWindow
  import opened TimerChain
  import opened TimerSweep

  // ---------------------------------------------------------------- control register

  function DecodeControl(value: u16): (c: Control)
    ensures c.prescaler < 4
  {
    Control(value % 4, value / 4 % 2 == 1, value / 64 % 2 == 1, value / 128 % 2 == 1)
  }

  function EncodeControl(c: Control): (value: nat)
    requires c.prescaler < 4
    ensures value < 0x100
  {
    c.prescaler + (if c.countUp then 4 else 0) + (if c.irq then 64 else 0) + (if c.enable then 128 else 0)
  }

  /** The bits of a control word outside kControlMask == 0x00C7. */
  predicate StrayBits(value: u16) {
    value / 256 != 0 || value / 8 % 8 != 0
  }

  lemma ControlRoundTrip(c: Control)
    requires c.prescaler < 4
    ensures DecodeControl(EncodeControl(c)) == c && !StrayBits(EncodeControl(c))
  {
  }

  // ---------------------------------------------------------------- register writes as functions

  function WithReload(ts: Bank, i: nat, value: u16): Bank
    requires i < TIMER_COUNT
  {
    ts[i := ts[i].(reload := value)]
  }

  function WithControl(ts: Bank, now: nat, i: nat, value: u16): Bank
    requires i < TIMER_COUNT
  {
    var decoded := DecodeControl(value);
    var sanitized := if i == 0 then decoded.(countUp := false) else decoded;
    var t := ts[i];
    var written :=
      if !sanitized.enable then
        t.(control := sanitized, enableDelay := 0, lastEnablePhase := 0, enabledAt := 0, justEnabled := false)
      else if !t.control.enable then
        t.(control := sanitized, counter := t.reload, enableDelay := 0,
           lastEnablePhase := now % Divisor(sanitized), enabledAt := now, justEnabled := true)
      else
        t.(control := sanitized);
    ts[i := written]
  }

  function Deferred(ts: Bank): Bank {
    seq(TIMER_COUNT, i requires 0 <= i < TIMER_COUNT =>
      if ts[i].justEnabled then ts[i].(enableDelay := 1) else ts[i])
  }

  // ---------------------------------------------------------------- snapshots

  datatype TimerState = TimerState(
    counter: u16, reload: u16, control: u16, prescalerRemainder: nat, overflowCount: nat,
    enableDelay: nat, lastEnablePhase: nat, justEnabled: bool)

  datatype Snapshot = Snapshot(timers: seq<TimerState>, cycleCounter: nat)

  function SavedTimer(t: Timer): TimerState
    requires t.control.prescaler < 4
  {
    TimerState(t.counter, t.reload, EncodeControl(t.control), 0, t.overflowCount, t.enableDelay,
               t.lastEnablePhase, t.justEnabled)
  }

  predicate LoadableTimer(s: TimerState, i: nat) {
    && !StrayBits(s.control)
    && !(i == 0 && DecodeControl(s.control).countUp)
    && s.enableDelay <= 1
    && !(s.justEnabled && !DecodeControl(s.control).enable)
    && !(s.enableDelay != 0 && !DecodeControl(s.control).enable)
  }

  function LoadedTimer(s: TimerState, now: nat): Timer {
    var control := DecodeControl(s.control);
    Timer(s.counter, s.reload, control, s.overflowCount, s.enableDelay, s.lastEnablePhase,
          if control.enable then now else 0, s.justEnabled)
  }

  /** Timer 0 never has its count-up bit set. */
  ghost predicate RootedBank(ts: Bank) {
    !ts[0].control.countUp
  }

  class Timers {
    const timers: array<Timer>
    var cycleCounter: nat

    ghost predicate Valid()
      reads this, timers
    {
      timers.Length == TIMER_COUNT && BankReachable(timers[..], cycleCounter) && RootedBank(timers[..])
    }

    function Contents(): Bank
      requires timers.Length == TIMER_COUNT
      reads this, timers
    {
      timers[..]
    }

    constructor ()
      ensures Valid() && fresh(timers)
      ensures Contents() == [IDLE, IDLE, IDLE, IDLE] && cycleCounter == 0
    {
      timers := new Timer[TIMER_COUNT](_ => IDLE);
      cycleCounter := 0;
    }

    method WriteReload(i: nat, value: u16)
      requires Valid() && i < TIMER_COUNT
      modifies timers
      ensures Valid() && Contents() == WithReload(old(Contents()), i, value)
    {
      timers[i] := timers[i].(reload := value);
      assert forall k :: 0 <= k < TIMER_COUNT ==> Reachable(old(timers[..])[k], cycleCounter);
    }

    method WriteControl(i: nat, value: u16)
      requires Valid() && i < TIMER_COUNT
      modifies timers
      ensures Valid() && Contents() == WithControl(old(Contents()), cycleCounter, i, value)
    {
      assert forall k :: 0 <= k < TIMER_COUNT ==> Reachable(timers[..][k], cycleCounter);
      var wasEnabled := timers[i].control.enable;
      var sanitized := DecodeControl(value);
      if i == 0 {
        sanitized := sanitized.(countUp := false);
      }
      var t := timers[i].(control := sanitized);
      if !wasEnabled && sanitized.enable {
        t := t.(counter := t.reload, enableDelay := 0, lastEnablePhase := cycleCounter % Divisor(sanitized),
                enabledAt := cycleCounter, justEnabled := true);
      }
      if !sanitized.enable {
        t := t.(enableDelay := 0, lastEnablePhase := 0, enabledAt := 0, justEnabled := false);
      }
      timers[i] := t;
    }

    method DeferNewlyEnabledTicks()
      requires Valid()
      modifies timers
      ensures Valid() && Contents() == Deferred(old(Contents()))
    {
      ghost var before := timers[..];
      assert forall k :: 0 <= k < TIMER_COUNT ==> Reachable(before[k], cycleCounter);
      for i := 0 to TIMER_COUNT
        invariant timers.Length == TIMER_COUNT
        invariant forall k :: 0 <= k < TIMER_COUNT ==>
                    timers[k] == if k < i then Deferred(before)[k] else before[k]
      {
        if timers[i].justEnabled {
          timers[i] := timers[i].(enableDelay := 1);
        }
      }
      assert timers[..] == Deferred(before);
    }

    /** Feeds `ticks` pulses, `stride` cycles apart, to timer `index` and to the cascade above it. */
    method IncrementTimer(index: nat, ticks: nat, interrupts: InterruptController,
                          first: Option<nat>, firstTickCycle: nat, stride: nat)
      returns (newFirst: Option<nat>)
      requires timers.Length == TIMER_COUNT && index < TIMER_COUNT && interrupts.Valid()
      modifies timers, interrupts`flags
      ensures interrupts.Valid()
      ensures var driven := Drive(old(Contents()), index, Arith(firstTickCycle, stride, ticks));
              && Contents() == driven.ts
              && interrupts.flags == old(interrupts.flags) + driven.raised
              && newFirst == Earlier(first, driven.first)
      decreases TIMER_COUNT - index, 0
    {
      hide Drive, Overflowed;
      newFirst := first;
      var remaining: nat := ticks;
      var nextTick: nat := firstTickCycle;
      ghost var before, flagsBefore := Contents(), interrupts.flags;
      ghost var all := Drive(before, index, Arith(firstTickCycle, stride, ticks));
      while remaining > 0
        invariant interrupts.Valid()
        invariant var rest := Drive(Contents(), index, Arith(nextTick, stride, remaining));
                  && rest.ts == all.ts
                  && interrupts.flags + rest.raised == flagsBefore + all.raised
                  && Earlier(newFirst, rest.first) == Earlier(first, all.first)
        decreases remaining
      {
        ghost var now := Contents();
        var toOverflow := 0x1_0000 - timers[index].counter;
        if remaining < toOverflow {
          ArithLength(nextTick, stride, remaining);
          DriveQuiet(now, index, Arith(nextTick, stride, remaining));
          timers[index] := timers[index].(counter := timers[index].counter + remaining);
          assert Contents() == all.ts;
          return;
        }
        remaining := remaining - toOverflow;
        var overflowCycle := nextTick + (toOverflow - 1) * stride;
        timers[index] := timers[index].(counter := timers[index].reload);
        ghost var reloaded := Contents();
        ghost var firstBefore, flagsNow := newFirst, interrupts.flags;
        newFirst := HandleOverflow(index, interrupts, newFirst, overflowCycle);
        ghost var wrap := Overflowed(reloaded, index, overflowCycle);
        DriveToOverflow(now, reloaded, index, nextTick, stride, toOverflow, remaining);
        nextTick := overflowCycle + stride;
      }
      DriveNothing(Contents(), index);
    }

    /** Counts one overflow, requests its interrupt and passes the pulse up the cascade. */
    method HandleOverflow(index: nat, interrupts: InterruptController, first: Option<nat>, cycle: nat)
      returns (newFirst: Option<nat>)
      requires timers.Length == TIMER_COUNT && index < TIMER_COUNT && interrupts.Valid()
      modifies timers, interrupts`flags
      ensures interrupts.Valid()
      ensures var wrap := Overflowed(old(Contents()), index, cycle);
              && Contents() == wrap.ts
              && interrupts.flags == old(interrupts.flags) + wrap.raised
              && newFirst == Earlier(first, wrap.first)
      decreases TIMER_COUNT - index - 1, 1
    {
      hide Drive;
      newFirst := first;
      timers[index] := timers[index].(overflowCount := timers[index].overflowCount + 1);
      if timers[index].control.irq {
        interrupts.Request(TIMER0 + index);
        if newFirst.None? || cycle < newFirst.value {
          newFirst := Some(cycle);
        }
      }
      var next := index + 1;
      if next < TIMER_COUNT && timers[next].control.enable && timers[next].control.countUp {
        if cycle <= timers[next].enabledAt + timers[next].enableDelay {
          return;
        }
        assert Arith(cycle, 1, 1) == [cycle] by {
          assert Arith(cycle + 1, 1, 0) == [];
        }
        newFirst := IncrementTimer(next, 1, interrupts, newFirst, cycle, 1);
      }
    }

    /** The loop body of tick(): timer `index`'s share of the window (start, start + cycles]. */
    method TickTimer(index: nat, start: nat, cycles: nat, interrupts: InterruptController, first: Option<nat>,
                     ghost before: Bank)
      returns (newFirst: Option<nat>)
      requires timers.Length == TIMER_COUNT && index < TIMER_COUNT && interrupts.Valid()
      requires BankReachable(before, start) && cycles > 0
      requires Contents() == SweptWindow(before, start, cycles, index).ts
      modifies timers, interrupts`flags
      ensures interrupts.Valid()
      ensures Contents() == SweptWindow(before, start, cycles, index + 1).ts
      ensures forall earlier: set<nat> ::
                old(interrupts.flags) == earlier + SweptWindow(before, start, cycles, index).raised
                ==> interrupts.flags == earlier + SweptWindow(before, start, cycles, index + 1).raised
      ensures first == SweptWindow(before, start, cycles, index).first
              ==> newFirst == SweptWindow(before, start, cycles, index + 1).first
    {
      hide Drive, Swept, WiresOf, SourceOf, SourcesOf, Ticks, Arith, FirstTick, Divisor;
      newFirst := first;
      ghost var wires, e := WiresOf(before), SourcesOf(before, start, cycles);
      SweptKeeps(before, wires, e, cycles, index);
      SourcesAt(before, start, cycles, index);
      assert Reachable(before[index], start);
      if !timers[index].control.enable {
        timers[index] := timers[index].(justEnabled := false);
        SweepPast(before, wires, e, cycles, index);
        return;
      }
      var skipped := Min(timers[index].enableDelay, cycles);
      timers[index] := timers[index].(enableDelay := timers[index].enableDelay - skipped, justEnabled := false);
      if index != 0 && timers[index].control.countUp {
        SweepPast(before, wires, e, cycles, index);
        return;
      }
      if timers[index].enableDelay != 0 || skipped == cycles {
        NoTicks(Divisor(before[index].control), start + cycles);
        SweepPast(before, wires, e, cycles, index);
        return;
      }
      var divisor := Divisor(timers[index].control);
      var firstActive := start + skipped + 1;
      var firstTick := (firstActive + divisor - 1) / divisor * divisor;
      FirstTickIs(divisor, start + skipped, firstTick);
      TicksClosedForm(divisor, start + skipped, start + cycles);
      if firstTick > start + cycles {
        SweepPast(before, wires, e, cycles, index);
        return;
      }
      SweepRoot(before, wires, e, cycles, index);
      var ticks := (start + cycles - firstTick) / divisor + 1;
      newFirst := IncrementTimer(index, ticks, interrupts, newFirst, firstTick, divisor);
    }

    /** Advances all timers by `cycles`. The result is the first interrupt, relative to the call. */
    method Tick(cycles: nat, interrupts: InterruptController) returns (first: Option<nat>)
      requires Valid() && interrupts.Valid()
      modifies timers, this`cycleCounter, interrupts`flags
      ensures Valid() && interrupts.Valid()
      ensures cycleCounter == old(cycleCounter) + cycles
      ensures var polled := Poll(old(Contents()), old(cycleCounter), cycles);
              && Contents() == polled.ts
              && interrupts.flags == old(interrupts.flags) + polled.raised
              && first == Relative(polled.first, old(cycleCounter))
    {
      hide SweptWindow, Poll, BankReachable, Swept, Flow;
      if cycles == 0 {
        PollNothing(Contents(), cycleCounter);
        return None;
      }
      ghost var before, flagsBefore := Contents(), interrupts.flags;
      var start := cycleCounter;
      cycleCounter := cycleCounter + cycles;
      var absolute: Option<nat> := None;
      SweptWindowNone(before, start, cycles);
      for index := 0 to TIMER_COUNT
        invariant timers.Length == TIMER_COUNT && interrupts.Valid() && cycleCounter == start + cycles
        invariant Contents() == SweptWindow(before, start, cycles, index).ts
        invariant interrupts.flags == flagsBefore + SweptWindow(before, start, cycles, index).raised
        invariant absolute == SweptWindow(before, start, cycles, index).first
      {
        absolute := TickTimer(index, start, cycles, interrupts, absolute, before);
      }
      SweepIsPolling(before, start, cycles);
      assert timers[..] == Poll(before, start, cycles).ts;
      assert RootedBank(before);
      first := if absolute.Some? then Some(absolute.value - start) else None;
    }

    /** Cycles until the next prescaler tick, or 0 when it is not free-running or still delayed. */
    function CyclesUntilNextPrescalerTick(i: nat): (wait: nat)
      requires timers.Length == TIMER_COUNT && i < TIMER_COUNT
      reads this, timers
      ensures wait == NextPrescalerTick(Contents(), i, cycleCounter)
    {
      if !timers[i].control.enable || (i != 0 && timers[i].control.countUp) || timers[i].enableDelay != 0 then 0
      else
        var phase := cycleCounter % Divisor(timers[i].control);
        if phase == 0 then Divisor(timers[i].control) else Divisor(timers[i].control) - phase
    }

    method SaveState() returns (state: Snapshot)
      requires Valid()
      ensures state == Saved(Contents(), cycleCounter)
    {
      var saved: seq<TimerState> := [];
      assert forall k :: 0 <= k < TIMER_COUNT ==> Reachable(timers[..][k], cycleCounter);
      for i := 0 to TIMER_COUNT
        invariant |saved| == i
        invariant forall k :: 0 <= k < i ==> saved[k] == SavedTimer(timers[k])
      {
        saved := saved + [SavedTimer(timers[i])];
      }
      state := Snapshot(saved, cycleCounter);
    }

    /** Rejects malformed snapshots without touching the timers. */
    method LoadState(state: Snapshot) returns (ok: bool)
      requires Valid() && |state.timers| == TIMER_COUNT
      modifies timers, this`cycleCounter
      ensures Valid()
      ensures ok <==> Loadable(state)
      ensures if ok then Contents() == Loaded(state) && cycleCounter == state.cycleCounter
              else Contents() == old(Contents()) && cycleCounter == old(cycleCounter)
    {
      for i := 0 to TIMER_COUNT
        invariant forall k: nat :: k < i ==> LoadableTimer(state.timers[k], k)
      {
        if !LoadableTimer(state.timers[i], i) {
          return false;
        }
      }
      cycleCounter := state.cycleCounter;
      for i := 0 to TIMER_COUNT
        invariant timers.Length == TIMER_COUNT && cycleCounter == state.cycleCounter
        invariant forall k :: 0 <= k < i ==> timers[k] == LoadedTimer(state.timers[k], state.cycleCounter)
      {
        timers[i] := LoadedTimer(state.timers[i], state.cycleCounter);
      }
      assert timers[..] == Loaded(state);
      forall k: nat | k < TIMER_COUNT
        ensures Reachable(timers[k], cycleCounter)
      {
        assert LoadableTimer(state.timers[k], k);
      }
      assert LoadableTimer(state.timers[0], 0);
      return true;
    }
  }

  function Relative(cycle: Option<nat>, start: nat): Option<int> {
    if cycle.Some? then Some(cycle.value - start) else None
  }

  function NextPrescalerTick(ts: Bank, i: nat, now: nat): nat
    requires i < TIMER_COUNT
  {
    if !FreeRunning(ts, i) || ts[i].enableDelay != 0 then 0
    else Divisor(ts[i].control) - now % Divisor(ts[i].control)
  }

  function Saved(ts: Bank, now: nat): Snapshot
    requires BankReachable(ts, now)
  {
    Snapshot(seq(TIMER_COUNT, i requires 0 <= i < TIMER_COUNT => assert Reachable(ts[i], now); SavedTimer(ts[i])), now)
  }

  ghost predicate Loadable(state: Snapshot)
    requires |state.timers| == TIMER_COUNT
  {
    forall i: nat :: i < TIMER_COUNT ==> LoadableTimer(state.timers[i], i)
  }

  function Loaded(state: Snapshot): Bank
    requires |state.timers| == TIMER_COUNT
  {
    seq(TIMER_COUNT, i requires 0 <= i < TIMER_COUNT => LoadedTimer(state.timers[i], state.cycleCounter))
  }

  // ---------------------------------------------------------------- lemmas used by the methods

  /** The timers after tick() has visited the first `k` of them. */
  ghost function SweptWindow(before: Bank, start: nat, n: nat, k: nat): Outcome {
    Swept(before, WiresOf(before), SourcesOf(before, start, n), n, k)
  }

  lemma PollNothing(ts: Bank, start: nat)
    ensures Poll(ts, start, 0) == Outcome(ts, {}, None)
  {
  }

  lemma SweptWindowNone(before: Bank, start: nat, n: nat)
    ensures SweptWindow(before, start, n, 0) == Outcome(before, {}, None)
  {
    SweptNone(before, WiresOf(before), SourcesOf(before, start, n), n);
  }

  /** The completed sweep is single-cycle polling, and its first interrupt is in the window. */
  lemma SweepIsPolling(before: Bank, start: nat, n: nat)
    requires BankReachable(before, start) && n > 0
    ensures SweptWindow(before, start, n, TIMER_COUNT) == Poll(before, start, n)
    ensures BankReachable(Poll(before, start, n).ts, start + n)
    ensures Poll(before, start, n).ts[0].control == before[0].control
    ensures Poll(before, start, n).first.Some? ==> Poll(before, start, n).first.value > start
  {
    SweptAll(before, WiresOf(before), SourcesOf(before, start, n), n);
    WindowFirst(before, start, n);
    WindowIsPolling(before, start, n);
    PollRooted(before, start, n);
  }

  lemma FirstTickIs(divisor: nat, lo: nat, firstTick: nat)
    requires divisor > 0
    requires firstTick == (lo + 1 + divisor - 1) / divisor * divisor
    ensures firstTick == FirstTick(divisor, lo)
  {
  }

  lemma DriveNothing(ts: Bank, root: nat)
    requires root < TIMER_COUNT
    ensures Drive(ts, root, []) == Outcome(ts, {}, None)
  {
    DriveQuiet(ts, root, []);
  }

  /** One turn of the increment loop: quiet pulses, one wrap, and the pulses still to come. */
  lemma DriveToOverflow(ts: Bank, reloaded: Bank, root: nat, next: nat, stride: nat, toOverflow: nat, remaining: nat)
    requires root < TIMER_COUNT
    requires toOverflow == 0x1_0000 - ts[root].counter
    requires reloaded == ts[root := ts[root].(counter := ts[root].reload)]
    ensures var cycle := next + (toOverflow - 1) * stride;
            var wrap := Overflowed(reloaded, root, cycle);
            Drive(ts, root, Arith(next, stride, toOverflow + remaining))
              == Then(wrap, Drive(wrap.ts, root, Arith(cycle + stride, stride, remaining)))
  {
    hide Drive, Overflowed;
    var cycle := next + (toOverflow - 1) * stride;
    var quiet := Arith(next, stride, toOverflow - 1);
    var rest := Arith(cycle + stride, stride, remaining);
    ArithLength(next, stride, toOverflow - 1);
    ArithSplit(next, stride, toOverflow - 1, remaining + 1);
    assert Arith(next, stride, toOverflow + remaining) == quiet + ([cycle] + rest);
    DriveAppend(ts, root, quiet, [cycle] + rest);
    DriveQuiet(ts, root, quiet);
    var topped := ts[root := ts[root].(counter := COUNTER_TOP)];
    DriveAppend(topped, root, [cycle], rest);
    DriveWrap(topped, root, cycle);
    assert topped[root := topped[root].(counter := topped[root].reload)] == reloaded;
  }

  lemma SourcesAt(ts: Bank, start: nat, n: nat, i: nat)
    requires i < TIMER_COUNT
    ensures WiresOf(ts)[i] == Listens(ts, i)
    ensures forall j: nat :: j < TIMER_COUNT ==> WiresOf(ts)[j] == Listens(ts, j)
    ensures SourcesOf(ts, start, n)[i]
         == if FreeRunning(ts, i)
            then Ticks(Divisor(ts[i].control), start + Min(ts[i].enableDelay, n), start + n)
            else []
  {
  }

  lemma NoTicks(divisor: nat, hi: nat)
    requires divisor > 0
    ensures Ticks(divisor, hi, hi) == []
  {
  }

  lemma SweptKeeps(ts: Bank, wires: Wires, e: Sources, n: nat, k: nat)
    requires k < TIMER_COUNT
    ensures var swept := Swept(ts, wires, e, n, k);
            && (forall i: nat :: i < TIMER_COUNT ==> swept.ts[i].control == ts[i].control)
            && (forall i: nat :: k <= i < TIMER_COUNT ==> swept.ts[i].enableDelay == ts[i].enableDelay)
            && SettleTimer(swept.ts[k], n)
               == swept.ts[k].(enableDelay := SettleTimer(ts[k], n).enableDelay, justEnabled := false)
  {
    SweptAt(ts, wires, e, n, k, 0);
    SweptAt(ts, wires, e, n, k, 1);
    SweptAt(ts, wires, e, n, k, 2);
    SweptAt(ts, wires, e, n, k, 3);
  }

  lemma {:induction false} PollRooted(ts: Bank, start: nat, n: nat)
    ensures forall i: nat :: i < TIMER_COUNT ==> Poll(ts, start, n).ts[i].control == ts[i].control
    decreases n
  {
    if n != 0 {
      PollRooted(ts, start, n - 1);
    }
  }
}
