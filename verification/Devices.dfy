/** Timers, PPU and serial port running side by side, one cycle at a time. */
module Devices {
  import opened Prelude
  import T = TimerModel
  import W = TimerWindow
  import P = Ppu
  import S = Serial

  datatype Devices = Devices(timers: T.Bank, now: nat, raster: P.Raster, serial: Option<S.Port>, flags: set<nat>)

  ghost predicate Good(d: Devices) {
    T.BankReachable(d.timers, d.now) && P.OnScreen(d.raster.beam)
  }

  function StepSerial(s: Option<S.Port>): Option<S.Port> {
    if s.Some? then Some(S.StepPort(s.value)) else None
  }

  function SerialInterrupt(s: Option<S.Port>): set<nat> {
    if s.Some? then S.StepInterrupt(s.value) else {}
  }

  /** The interrupts requested by the next cycle. */
  function NextInterrupts(d: Devices): set<nat> {
    T.StepRaised(d.timers, d.now + 1) + SerialInterrupt(d.serial) + P.EdgeInterrupts(P.StepRaster(d.raster))
  }

  function Step(d: Devices): Devices {
    Devices(T.StepBank(d.timers, d.now + 1), d.now + 1, P.StepRaster(d.raster), StepSerial(d.serial),
            d.flags + NextInterrupts(d))
  }

  /** `n` single cycles of all devices: the reference that batching is compared with. */
  function Run(d: Devices, n: nat): Devices
    decreases n
  {
    if n == 0 then d else Run(Step(d), n - 1)
  }

  lemma {:induction false} RunSplits(d: Devices, a: nat, b: nat)
    ensures Run(d, a + b) == Run(Run(d, a), b)
    decreases a
  {
    hide Step;
    if a != 0 {
      RunSplits(Step(d), a - 1, b);
    }
  }

  function PollSerial(s: Option<S.Port>, n: nat): Option<S.Port> {
    if s.Some? then Some(S.PollPort(s.value, n).port) else None
  }

  function PollSerialRaised(s: Option<S.Port>, n: nat): set<nat> {
    if s.Some? then S.PollPort(s.value, n).raised else {}
  }

  /** Ticking each device once by `n` cycles, in the order advance_devices uses. */
  function Batch(d: Devices, n: nat): Devices {
    var timers, swept := T.Poll(d.timers, d.now, n), P.PollRaster(d.raster, n);
    Devices(timers.ts, d.now + n, swept.at, PollSerial(d.serial, n),
            d.flags + timers.raised + PollSerialRaised(d.serial, n) + swept.raised)
  }

  lemma {:induction false} PollFront(ts: T.Bank, start: nat, n: nat)
    requires n > 0
    ensures var rest := T.Poll(T.StepBank(ts, start + 1), start + 1, n - 1);
            && T.Poll(ts, start, n).ts == rest.ts
            && T.Poll(ts, start, n).raised == T.StepRaised(ts, start + 1) + rest.raised
    decreases n
  {
    hide T.StepBank, T.StepRaised;
    var next := T.StepBank(ts, start + 1);
    if n == 1 {
      assert T.Poll(ts, start, 0) == T.Outcome(ts, {}, None);
      assert T.Poll(next, start + 1, 0) == T.Outcome(next, {}, None);
    } else {
      PollFront(ts, start, n - 1);
      assert T.Poll(next, start + 1, n - 1).ts
          == T.StepBank(T.Poll(next, start + 1, n - 2).ts, start + n);
    }
  }

  /** The devices do not disturb one another: batching each of them is running all of them. */
  lemma {:induction false} BatchIsRun(d: Devices, n: nat)
    ensures Batch(d, n) == Run(d, n)
    decreases n
  {
    hide T.StepBank, T.StepRaised, P.EdgeInterrupts, P.EdgeEvents, P.StepBeam, S.StepInterrupt;
    if n == 0 {
      assert Batch(d, 0).flags == d.flags;
      assert Batch(d, 0) == d;
    } else {
      PollFront(d.timers, d.now, n);
      BatchIsRun(Step(d), n - 1);
      var b, c := Batch(d, n), Batch(Step(d), n - 1);
      assert b.timers == c.timers && b.now == c.now && b.raster == c.raster && b.serial == c.serial;
      assert b.flags == c.flags;
    }
  }

  lemma StepKeepsGood(d: Devices)
    requires Good(d)
    ensures Good(Step(d))
  {
    hide T.BankReachable, T.StepBank, T.StepRaised, W.Window, P.EdgeInterrupts;
    W.SingleCycle(d.timers, d.now);
    W.WindowKeeps(d.timers, d.now, 1);
  }

  lemma {:induction false} RunKeepsGood(d: Devices, n: nat)
    requires Good(d)
    ensures Good(Run(d, n))
    decreases n
  {
    hide Step, Good;
    if n != 0 {
      StepKeepsGood(d);
      RunKeepsGood(Step(d), n - 1);
    }
  }
}
