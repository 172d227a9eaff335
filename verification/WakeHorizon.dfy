/**
 How far IntrWait may jump: the distance to the next watched interrupt edge. Each horizon
 shrinks by at most one per cycle and no watched interrupt fires while it exceeds one.
 */
module WakeHorizon {
  import opened Prelude
  import opened Interrupts
  import opened TimerModel
  import opened TimerUnit
  import E = PpuEdges
  import P = Ppu
  import S = Serial
  import D = Devices

  const COARSE_BATCH: nat := 64

  // ---------------------------------------------------------------- PPU

  function HblankDistance(b: P.Beam): int {
    if b.cycle < P.HBLANK_FLAG_CYCLES then P.HBLANK_FLAG_CYCLES - b.cycle
    else P.CYCLES_PER_LINE - b.cycle + P.HBLANK_FLAG_CYCLES
  }

  function VblankDistance(b: P.Beam): int {
    var edge := P.VISIBLE_LINES * P.CYCLES_PER_LINE;
    var position := P.FramePosition(b) % P.CYCLES_PER_FRAME;
    var distance := (edge + P.CYCLES_PER_FRAME - position) % P.CYCLES_PER_FRAME;
    if distance == 0 then P.CYCLES_PER_FRAME else distance
  }

  function MatchDistance(b: P.Beam, setting: u8): int {
    var lines := (setting + P.TOTAL_LINES - b.line) % P.TOTAL_LINES;
    var until := if lines == 0 then P.TOTAL_LINES else lines;
    (until - 1) * P.CYCLES_PER_LINE + (P.CYCLES_PER_LINE - b.cycle)
  }

  function PpuHorizon(r: P.Raster, mask: set<nat>): int {
    var h0: int := COARSE_BATCH;
    var h1 := if HBLANK in mask && r.dispstat.hblankIrq then Min(h0, HblankDistance(r.beam)) else h0;
    var h2 := if VBLANK in mask && r.dispstat.vblankIrq then Min(h1, VblankDistance(r.beam)) else h1;
    if VCOUNT in mask && r.dispstat.vcountIrq then Min(h2, MatchDistance(r.beam, r.dispstat.setting)) else h2
  }

  lemma HblankStep(b: P.Beam)
    requires P.OnScreen(b) && HblankDistance(b) > 1
    ensures !P.EntersHblank(P.StepBeam(b))
    ensures HblankDistance(P.StepBeam(b)) == HblankDistance(b) - 1
  {
  }

  lemma VblankStep(b: P.Beam)
    requires P.OnScreen(b) && VblankDistance(b) > 1
    ensures !P.EntersVblank(P.StepBeam(b))
    ensures VblankDistance(P.StepBeam(b)) == VblankDistance(b) - 1
  {
    P.StepPosition(b);
  }

  lemma MatchStep(b: P.Beam, setting: u8)
    requires P.OnScreen(b) && MatchDistance(b, setting) > 1
    ensures !P.EntersMatch(P.StepBeam(b), setting)
    ensures MatchDistance(P.StepBeam(b), setting) >= MatchDistance(b, setting) - 1
  {
  }

  /** While the PPU horizon exceeds one cycle, no watched PPU interrupt is due in the next cycle. */
  lemma PpuStep(r: P.Raster, mask: set<nat>)
    requires P.OnScreen(r.beam) && PpuHorizon(r, mask) > 1
    ensures P.EdgeInterrupts(P.StepRaster(r)) !! mask
    ensures PpuHorizon(P.StepRaster(r), mask) >= PpuHorizon(r, mask) - 1
  {
    hide HblankDistance, VblankDistance, MatchDistance, P.StepBeam, P.EntersHblank, P.EntersVblank, P.EntersMatch;
    if HBLANK in mask && r.dispstat.hblankIrq {
      HblankStep(r.beam);
    }
    if VBLANK in mask && r.dispstat.vblankIrq {
      VblankStep(r.beam);
    }
    if VCOUNT in mask && r.dispstat.vcountIrq {
      MatchStep(r.beam, r.dispstat.setting);
    }
  }

  /** The other half: a PPU horizon short of the coarse batch ends on a watched interrupt, unless it
      waits for a VCOUNT setting that no line has. */
  lemma PpuHorizonFires(r: P.Raster, mask: set<nat>)
    requires P.OnScreen(r.beam) && PpuHorizon(r, mask) < COARSE_BATCH
    requires !(VCOUNT in mask && r.dispstat.vcountIrq && r.dispstat.setting >= 228)
    ensures PpuHorizon(r, mask) > 0 && P.PollRaster(r, PpuHorizon(r, mask)).raised * mask != {}
  {
    var h := PpuHorizon(r, mask);
    HblankFires(r.beam);
    VblankFires(r.beam);
    if r.dispstat.setting < 228 {
      MatchFires(r.beam, r.dispstat.setting);
    }
    assert h > 0 by { hide P.PollRaster; }
    E.PollClosedForm(r, h);
    hide HblankDistance, VblankDistance, MatchDistance, E.FramePasses, E.HblankPasses, P.PollRaster, E.Position;
    var raised := P.PollRaster(r, h).raised;
    if HBLANK in mask && r.dispstat.hblankIrq && h == HblankDistance(r.beam) {
      assert HBLANK in raised * mask;
    } else if VBLANK in mask && r.dispstat.vblankIrq && h == VblankDistance(r.beam) {
      assert VBLANK in raised * mask;
    } else {
      assert VCOUNT in raised * mask;
    }
  }

  /** Nothing watched fires before the horizon. */
  lemma {:induction false} PpuQuiet(r: P.Raster, mask: set<nat>, n: nat)
    requires P.OnScreen(r.beam) && n < PpuHorizon(r, mask)
    ensures P.PollRaster(r, n).raised !! mask
    decreases n
  {
    hide PpuHorizon, P.EdgeInterrupts;
    if n > 0 {
      PpuStep(r, mask);
      PpuQuiet(P.StepRaster(r), mask, n - 1);
    }
  }

  /** A PPU horizon short of the coarse batch ends on a watched interrupt if and only if it is not a
      watched VCOUNT setting that no line has which alone makes it that short. */
  lemma {:induction false} PpuHorizonExact(r: P.Raster, mask: set<nat>)
    requires P.OnScreen(r.beam) && PpuHorizon(r, mask) < COARSE_BATCH
    ensures PpuHorizon(r, mask) > 0
    ensures P.PollRaster(r, PpuHorizon(r, mask)).raised * mask != {}
       <==> !(VCOUNT in mask && r.dispstat.vcountIrq && r.dispstat.setting >= 228
              && PpuHorizon(r, mask) < PpuHorizon(r, mask - {VCOUNT}))
  {
    var h, others := PpuHorizon(r, mask), mask - {VCOUNT};
    if VCOUNT in mask && r.dispstat.vcountIrq && r.dispstat.setting >= 228 {
      HorizonPositive(r, mask);
      E.PollClosedForm(r, h);
      var raised := P.PollRaster(r, h).raised;
      assert VCOUNT !in raised && raised * mask == raised * others;
      if h < PpuHorizon(r, others) {
        PpuQuiet(r, others, h);
      } else {
        OthersLater(r, mask);
        PpuHorizonFires(r, others);
      }
    } else {
      PpuHorizonFires(r, mask);
    }
  }

  lemma HorizonPositive(r: P.Raster, mask: set<nat>)
    requires P.OnScreen(r.beam)
    ensures PpuHorizon(r, mask) > 0
  {
    VblankFires(r.beam);
    hide VblankDistance, E.FramePasses;
  }

  lemma OthersLater(r: P.Raster, mask: set<nat>)
    ensures PpuHorizon(r, mask) <= PpuHorizon(r, mask - {VCOUNT})
  {
    hide HblankDistance, VblankDistance, MatchDistance;
  }

  /** With setting 230 a horizon of 32 cycles ends at the start of line 2, where nothing fires. */
  lemma OffScreenSetting()
    ensures var r := P.Raster(P.Beam(1, 1200), P.Dispstat(false, false, true, 230));
            PpuHorizon(r, {VCOUNT}) == 32 && P.PollRaster(r, 32).raised * {VCOUNT} == {}
  {
    hide P.PollRaster;
    var r := P.Raster(P.Beam(1, 1200), P.Dispstat(false, false, true, 230));
    assert MatchDistance(r.beam, 230) == 32;
    assert PpuHorizon(r, {VCOUNT} - {VCOUNT}) == 64;
    PpuHorizonExact(r, {VCOUNT});
  }

  lemma HblankFires(b: P.Beam)
    requires P.OnScreen(b)
    ensures HblankDistance(b) > 0 && E.HblankPasses(E.Position(b), HblankDistance(b)) > 0
  {
  }

  lemma VblankFires(b: P.Beam)
    requires P.OnScreen(b)
    ensures VblankDistance(b) > 0 && E.FramePasses(E.Position(b), VblankDistance(b), 160 * 1232) > 0
  {
    var p := E.Position(b);
    assert P.FramePosition(b) % P.CYCLES_PER_FRAME == p;
    VblankAhead(p);
    var d: int := VblankDistance(b);
    assert d == if p < 197120 then 197120 - p else 197120 + 280896 - p;
    hide VblankDistance;
    assert (p + d - 197120) / 280896 == (if p < 197120 then 0 else 1);
    assert (p - 197120) / 280896 == if p < 197120 then -1 else 0;
  }

  lemma VblankAhead(p: nat)
    requires p < 280896
    ensures (197120 + 280896 - p) % 280896
         == if p < 197120 then 197120 - p else if p == 197120 then 0 else 197120 + 280896 - p
  {
  }

  lemma MatchFires(b: P.Beam, setting: u8)
    requires P.OnScreen(b) && setting < 228
    ensures MatchDistance(b, setting) > 0 && E.FramePasses(E.Position(b), MatchDistance(b, setting), setting * 1232) > 0
  {
    var x := E.Position(b) + MatchDistance(b, setting) - setting * 1232;
    assert x == if setting > b.line then 0 else 280896;
  }

  // ---------------------------------------------------------------- timers

  /** The source's lower bound on the cycles to timer `i`'s next overflow. */
  function OverflowDistance(ts: Bank, now: nat, i: nat): int
    requires i < TIMER_COUNT
  {
    NextPrescalerTick(ts, i, now) + (COUNTER_TOP - ts[i].counter) * Divisor(ts[i].control)
  }

  /** The least distance among the free-running timers from `i` on, capped at the coarse batch. */
  function EarliestRoot(ts: Bank, now: nat, i: nat): int
    requires i <= TIMER_COUNT
    decreases TIMER_COUNT - i
  {
    if i == TIMER_COUNT then COARSE_BATCH
    else if FreeRunning(ts, i) then Min(OverflowDistance(ts, now, i), EarliestRoot(ts, now, i + 1))
    else EarliestRoot(ts, now, i + 1)
  }

  /** Some free-running timer sits at or below timer `i`. */
  predicate HasRoot(ts: Bank, i: nat)
    requires i < TIMER_COUNT
  {
    exists root: nat :: root <= i && FreeRunning(ts, root)
  }

  predicate Watched(mask: set<nat>, i: nat) {
    TIMER0 + i in mask
  }

  predicate WatchesRoot(ts: Bank, mask: set<nat>) {
    exists i: nat :: i < TIMER_COUNT && Watched(mask, i) && HasRoot(ts, i)
  }

  function TimerHorizon(ts: Bank, now: nat, mask: set<nat>): int {
    if WatchesRoot(ts, mask) then Min(COARSE_BATCH, Max(EarliestRoot(ts, now, 0), 1)) else COARSE_BATCH
  }

  lemma {:induction false} EarliestIsLeast(ts: Bank, now: nat, from: nat, i: nat)
    requires from <= i < TIMER_COUNT && FreeRunning(ts, i)
    ensures EarliestRoot(ts, now, from) <= OverflowDistance(ts, now, i)
    decreases TIMER_COUNT - from
  {
    if from < i {
      EarliestIsLeast(ts, now, from + 1, i);
    }
  }

  /** One cycle brings an overflow at most one cycle closer, and a wrap needs distance one. */
  lemma RootStep(ts: Bank, now: nat, i: nat)
    requires i < TIMER_COUNT && FreeRunning(ts, i) && OverflowDistance(ts, now, i) > 1
    requires Reachable(ts[i], now)
    ensures !Wraps(ts, i, now + 1)
    ensures FreeRunning(StepBank(ts, now + 1), i)
    ensures OverflowDistance(StepBank(ts, now + 1), now + 1, i) >= OverflowDistance(ts, now, i) - 1
  {
    var t, u := ts[i], StepTimer(ts, i, now + 1);
    assert StepBank(ts, now + 1)[i] == u;
    TickStep(Divisor(t.control), now);
    if Pulsed(ts, i, now + 1) {
      ProductStep(COUNTER_TOP - t.counter, Divisor(t.control));
    }
  }

  lemma TickStep(d: nat, now: nat)
    requires d in {1, 64, 256, 1024}
    ensures (now + 1) % d == 0 ==> d - now % d == 1 && (now + 1) % d == 0
    ensures (now + 1) % d != 0 ==> d - (now + 1) % d == d - now % d - 1
  {
  }

  lemma ProductStep(k: int, d: nat)
    ensures k * d == (k - 1) * d + d
  {
  }

  /** With no free-running timer at or below it, a timer is never pulsed. */
  lemma {:induction false} RootlessQuiet(ts: Bank, cycle: nat, i: nat)
    requires i < TIMER_COUNT && !HasRoot(ts, i)
    ensures !Pulsed(ts, i, cycle)
    decreases i
  {
    assert !FreeRunning(ts, i);
    if i > 0 {
      assert !HasRoot(ts, i - 1);
      RootlessQuiet(ts, cycle, i - 1);
    }
  }

  lemma {:induction false} ChainStill(ts: Bank, now: nat, i: nat)
    requires i < TIMER_COUNT && BankReachable(ts, now)
    requires EarliestRoot(ts, now, 0) > 1
    ensures !Wraps(ts, i, now + 1)
    decreases i
  {
    if FreeRunning(ts, i) {
      EarliestIsLeast(ts, now, 0, i);
      assert Reachable(ts[i], now);
      RootStep(ts, now, i);
    } else if Listens(ts, i) {
      ChainStill(ts, now, i - 1);
    }
  }

  lemma {:induction false} EarliestStep(ts: Bank, now: nat, from: nat)
    requires from <= TIMER_COUNT && BankReachable(ts, now)
    requires EarliestRoot(ts, now, from) > 1
    ensures EarliestRoot(StepBank(ts, now + 1), now + 1, from) >= EarliestRoot(ts, now, from) - 1
    decreases TIMER_COUNT - from
  {
    if from < TIMER_COUNT {
      hide StepBank, OverflowDistance;
      StepKeepsRoots(ts, now + 1, from);
      EarliestStep(ts, now, from + 1);
      if FreeRunning(ts, from) {
        assert Reachable(ts[from], now);
        RootStep(ts, now, from);
      }
    }
  }

  lemma StepKeepsRoots(ts: Bank, cycle: nat, i: nat)
    requires i < TIMER_COUNT
    ensures FreeRunning(StepBank(ts, cycle), i) <==> FreeRunning(ts, i)
  {
    assert StepBank(ts, cycle)[i] == StepTimer(ts, i, cycle);
  }

  lemma StepKeepsWatch(ts: Bank, cycle: nat, mask: set<nat>)
    ensures WatchesRoot(StepBank(ts, cycle), mask) <==> WatchesRoot(ts, mask)
  {
    forall i: nat | i < TIMER_COUNT
      ensures FreeRunning(StepBank(ts, cycle), i) <==> FreeRunning(ts, i)
    {
      StepKeepsRoots(ts, cycle, i);
    }
    forall i: nat | i < TIMER_COUNT
      ensures HasRoot(StepBank(ts, cycle), i) <==> HasRoot(ts, i)
    {
      if HasRoot(ts, i) {
        var root: nat :| root <= i && FreeRunning(ts, root);
        assert FreeRunning(StepBank(ts, cycle), root);
      }
    }
    hide StepBank, HasRoot;
  }

  lemma TimerStep(ts: Bank, now: nat, mask: set<nat>)
    requires BankReachable(ts, now) && TimerHorizon(ts, now, mask) > 1
    ensures StepRaised(ts, now + 1) !! mask
    ensures TimerHorizon(StepBank(ts, now + 1), now + 1, mask) >= TimerHorizon(ts, now, mask) - 1
  {
    hide StepBank, Wraps, Pulsed, EarliestRoot, RaisedBy;
    StepKeepsWatch(ts, now + 1, mask);
    forall i: nat | i < TIMER_COUNT && Watched(mask, i)
      ensures !Wraps(ts, i, now + 1)
    {
      if WatchesRoot(ts, mask) {
        ChainStill(ts, now, i);
      } else {
        assert !HasRoot(ts, i);
        RootlessQuiet(ts, now + 1, i);
        WrapNeedsPulse(ts, now + 1, i);
      }
    }
    if WatchesRoot(ts, mask) {
      EarliestStep(ts, now, 0);
    }
    assert StepRaised(ts, now + 1) !! mask by {
      assert !(Watched(mask, 0) && Wraps(ts, 0, now + 1));
      assert !(Watched(mask, 1) && Wraps(ts, 1, now + 1));
      assert !(Watched(mask, 2) && Wraps(ts, 2, now + 1));
      assert !(Watched(mask, 3) && Wraps(ts, 3, now + 1));
      RaisedOnly(ts[0].control.irq && Wraps(ts, 0, now + 1), ts[1].control.irq && Wraps(ts, 1, now + 1),
                 ts[2].control.irq && Wraps(ts, 2, now + 1), ts[3].control.irq && Wraps(ts, 3, now + 1));
    }
  }

  lemma WrapNeedsPulse(ts: Bank, cycle: nat, i: nat)
    requires i < TIMER_COUNT && !Pulsed(ts, i, cycle)
    ensures !Wraps(ts, i, cycle)
  {
  }

  lemma RaisedOnly(t0: bool, t1: bool, t2: bool, t3: bool)
    ensures forall s :: s in RaisedBy(t0, t1, t2, t3)
              ==> (s == TIMER0 && t0) || (s == TIMER0 + 1 && t1) || (s == TIMER0 + 2 && t2) || (s == TIMER0 + 3 && t3)
  {
  }

  // ---------------------------------------------------------------- serial port and the whole

  function SerialHorizon(s: Option<S.Port>, mask: set<nat>): int {
    if s.None? || SERIAL !in mask || !s.value.active then COARSE_BATCH
    else Max(s.value.remaining, 1)
  }

  lemma SerialStep(s: Option<S.Port>, mask: set<nat>)
    requires SerialHorizon(s, mask) > 1
    ensures D.SerialInterrupt(s) !! mask
    ensures SerialHorizon(D.StepSerial(s), mask) >= SerialHorizon(s, mask) - 1
  {
  }

  /** A serial horizon ends exactly on the interrupt of a transfer that has one. */
  lemma SerialHorizonFires(s: Option<S.Port>, mask: set<nat>, n: nat)
    requires s.Some? && SERIAL in mask && s.value.active && S.IrqEnabled(s.value)
    ensures D.PollSerialRaised(s, n) == if n >= SerialHorizon(s, mask) then {SERIAL} else {}
  {
    S.PollTransfer(s.value, n);
  }

  function BatchCycles(d: D.Devices, mask: set<nat>): (batch: nat)
    ensures 1 <= batch <= COARSE_BATCH
  {
    var least := Min(Min(PpuHorizon(d.raster, mask), TimerHorizon(d.timers, d.now, mask)),
                     SerialHorizon(d.serial, mask));
    Max(1, Min(least, COARSE_BATCH))
  }

  /** A batch longer than one cycle starts with a cycle in which nothing watched fires. */
  lemma BatchStep(d: D.Devices, mask: set<nat>)
    requires D.Good(d) && BatchCycles(d, mask) > 1
    ensures D.NextInterrupts(d) !! mask
    ensures BatchCycles(D.Step(d), mask) >= BatchCycles(d, mask) - 1
  {
    hide PpuHorizon, TimerHorizon, SerialHorizon, StepBank, StepRaised, P.EdgeInterrupts, P.StepRaster,
         D.SerialInterrupt, D.StepSerial;
    PpuStep(d.raster, mask);
    TimerStep(d.timers, d.now, mask);
    SerialStep(d.serial, mask);
  }

  /** No watched interrupt is requested strictly inside a batch. */
  lemma {:induction false} BatchStopsAtEdge(d: D.Devices, mask: set<nat>, k: nat)
    requires D.Good(d) && k < BatchCycles(d, mask)
    ensures D.Run(d, k).flags * mask == d.flags * mask
    decreases k
  {
    hide BatchCycles, D.NextInterrupts, D.Step, D.Good;
    if k != 0 {
      hide D.Run;
      BatchStep(d, mask);
      D.StepKeepsGood(d);
      StepFlags(d);
      UnwatchedAdded(d.flags, D.NextInterrupts(d), mask);
      BatchStopsAtEdge(D.Step(d), mask, k - 1);
      RunFront(d, k);
    }
  }

  lemma UnwatchedAdded(flags: set<nat>, added: set<nat>, mask: set<nat>)
    requires added !! mask
    ensures (flags + added) * mask == flags * mask
  {
  }

  lemma RunFront(d: D.Devices, k: nat)
    requires k > 0
    ensures D.Run(d, k) == D.Run(D.Step(d), k - 1)
  {
    hide D.Step;
  }

  lemma StepFlags(d: D.Devices)
    ensures D.Step(d).flags == d.flags + D.NextInterrupts(d)
  {
  }
}
