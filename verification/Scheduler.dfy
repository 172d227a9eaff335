/**
 The core scheduler's device time: advance_devices, which cuts every interval at PPU edges and
 charges DMA time, and wait_for_interrupt_mask, which jumps from one wake horizon to the next.
 */
module Scheduler {
  import opened Prelude
  import opened Interrupts
  import T = TimerModel
  import W = TimerWindow
  import U = TimerUnit
  import C = TimerCounts
  import P = Ppu
  import E = PpuEdges
  import S = Serial
  import D = Devices
  import H = WakeHorizon
  import I = IntrWait

  const MAX_DMA_CHAIN_EXPANSION: nat := 16
  const MAX_BIOS_WAIT_CYCLES: nat := 280896 * 2

  /** A register write a DMA transfer may perform. */
  datatype IoWrite =
    | TimerReload(timer: nat, value: u16)
    | TimerControl(timer: nat, value: u16)
    | DispstatWrite(value: u16)
    | SiocntWrite(value: u16)
    | FlagsWrite(acknowledge: set<nat>)

  /** What one DMA request does to the devices: anything it likes, at any price. */
  datatype Reply = Reply(busCycles: nat, writes: seq<IoWrite>, requests: set<nat>, stillArmed: bool)

  datatype FifoRequest = FifoRequest(a: bool, b: bool)

  /** One turn of advance_devices' loop: whose time it spends, how much, the direct-sound timer
      overflows in it, and the DMA time its requests have cost. */
  datatype Turn = Turn(dma: bool, cycles: nat, overflows: nat, generated: nat)

  function Before(turns: seq<Turn>): seq<Turn>
    requires turns != []
  {
    turns[..|turns| - 1]
  }

  function Final(turns: seq<Turn>): Turn
    requires turns != []
  {
    turns[|turns| - 1]
  }

  function Spent(turns: seq<Turn>, dma: bool): nat {
    if turns == [] then 0 else Spent(Before(turns), dma) + if Final(turns).dma == dma then Final(turns).cycles else 0
  }

  function Generated(turns: seq<Turn>): nat {
    if turns == [] then 0 else Generated(Before(turns)) + Final(turns).generated
  }

  function Overflowed(turns: seq<Turn>): nat {
    if turns == [] then 0 else Overflowed(Before(turns)) + Final(turns).overflows
  }

  /** What the last CPU turn generated, and what the DMA turns since then did. */
  function Chain(turns: seq<Turn>): (nat, nat) {
    if turns == [] then (0, 0)
    else if Final(turns).dma then (Chain(Before(turns)).0, Chain(Before(turns)).1 + Final(turns).generated)
    else (Final(turns).generated, 0)
  }

  /** After `turns`, may the next turn make requests? DMA turns may until they have generated sixteen
      times what the CPU turn that set them off did. */
  predicate Grants(turns: seq<Turn>, dma: bool) {
    dma ==> Chain(turns).1 < 16 * Chain(turns).0
  }

  /** Outstanding DMA time goes first, and no turn crosses an edge. */
  predicate Orderly(x: nat, cycles: nat, turns: seq<Turn>) {
    turns != [] ==>
      var past, turn := Before(turns), Final(turns);
      var owed := Generated(past) - Spent(past, true);
      && Orderly(x, cycles, past)
      && (turn.dma <==> owed > 0)
      && turn.cycles == Min(if turn.dma then owed else cycles - Spent(past, false),
                            E.ToEdge(x + Elapsed(past)))
  }

  function Elapsed(turns: seq<Turn>): nat {
    Spent(turns, true) + Spent(turns, false)
  }

  lemma NextTurn(turns: seq<Turn>, turn: Turn)
    ensures var more := turns + [turn]; more != [] && Before(more) == turns && Final(more) == turn
  {
  }

  lemma {:induction false} TurnSums(turns: seq<Turn>, turn: Turn)
    ensures var more := turns + [turn];
            && Spent(more, turn.dma) == Spent(turns, turn.dma) + turn.cycles
            && Spent(more, !turn.dma) == Spent(turns, !turn.dma)
            && Generated(more) == Generated(turns) + turn.generated
            && Overflowed(more) == Overflowed(turns) + turn.overflows
            && Chain(more) == if turn.dma then (Chain(turns).0, Chain(turns).1 + turn.generated) else (turn.generated, 0)
    ensures Grants(turns, turn.dma) <==> (turn.dma ==> Chain(turns).1 < 16 * Chain(turns).0)
  {
    NextTurn(turns, turn);
    hide Before, Final;
  }

  /** The loop's counters. */
  datatype Loop = Loop(cpu: nat, dma: nat, elapsed: nat, dmaCycles: nat, budget: nat, made: nat)

  /** They follow from the turns taken. */
  predicate Tracks(cycles: nat, turns: seq<Turn>, loop: Loop) {
    && loop.cpu == cycles - Spent(turns, false) && loop.dma == Generated(turns) - Spent(turns, true)
    && loop.elapsed == Elapsed(turns) && loop.dmaCycles == Generated(turns)
    && loop.budget == 16 * Chain(turns).0 && loop.made == Chain(turns).1
  }

  function NextLoop(loop: Loop, turn: Turn): Loop
    requires turn.cycles <= if turn.dma then loop.dma else loop.cpu
  {
    var g := turn.generated;
    if turn.dma
    then Loop(loop.cpu, loop.dma - turn.cycles + g, loop.elapsed + turn.cycles, loop.dmaCycles + g, loop.budget,
              loop.made + g)
    else Loop(loop.cpu - turn.cycles, loop.dma + g, loop.elapsed + turn.cycles, loop.dmaCycles + g, 16 * g, 0)
  }

  lemma {:induction false} TurnTracked(cycles: nat, turns: seq<Turn>, turn: Turn, loop: Loop)
    requires Tracks(cycles, turns, loop)
    requires turn.cycles <= if turn.dma then loop.dma else loop.cpu
    ensures Tracks(cycles, turns + [turn], NextLoop(loop, turn))
    ensures Overflowed(turns + [turn]) == Overflowed(turns) + turn.overflows
    ensures Grants(turns, turn.dma) <==> (turn.dma ==> loop.made < loop.budget)
  {
    TurnSums(turns, turn);
    hide Spent, Generated, Chain, Overflowed, Grants;
  }

  /** What advance_devices starts from: cycle number, cycles to spend, FIFO event and DMA call numbers,
      whether a channel is enabled, and the devices. */
  datatype Book = Book(x: nat, cycles: nat, events: nat, calls: nat, armed: bool, d0: D.Devices)

  class CoreScheduler {
    const timers: U.Timers
    const interrupts: InterruptController
    const ppu: P.PpuTiming
    const io: S.SerialPort?
    // The DMA controller with the memory behind it, and the FIFO levels, as arbitrary scripts.
    const dmaScript: nat -> Reply
    const fifoScript: nat -> FifoRequest
    var dmaCalls: nat
    var fifoEvents: nat
    // Some DMA channel is enabled.
    var dmaArmed: bool
    var schedulerCycles: nat
    var apuCycles: nat
    var hasObserver: bool
    var observed: seq<nat>

    constructor (timers: U.Timers, interrupts: InterruptController, ppu: P.PpuTiming, io: S.SerialPort?,
                 dmaScript: nat -> Reply, fifoScript: nat -> FifoRequest, dmaArmed: bool, hasObserver: bool)
      requires timers.Valid() && interrupts.Valid() && ppu.Valid()
      ensures Valid() && schedulerCycles == 0 && apuCycles == 0 && observed == []
      ensures this.timers == timers && this.interrupts == interrupts && this.ppu == ppu && this.io == io
    {
      this.timers, this.interrupts, this.ppu, this.io := timers, interrupts, ppu, io;
      this.dmaScript, this.fifoScript := dmaScript, fifoScript;
      dmaCalls, fifoEvents, schedulerCycles, apuCycles := 0, 0, 0, 0;
      this.dmaArmed, this.hasObserver, observed := dmaArmed, hasObserver, [];
    }

    ghost function Repr(): set<object>
    {
      {this, timers, timers.timers, interrupts, ppu} + if io == null then {} else {io}
    }

    ghost predicate Valid()
      reads Repr()
    {
      timers.Valid() && interrupts.Valid() && ppu.Valid()
    }

    /** The devices' state as a value. */
    ghost function Devices(): (d: D.Devices)
      requires Valid()
      reads Repr()
      ensures D.Good(d)
    {
      D.Devices(timers.Contents(), timers.cycleCounter, ppu.State(),
                if io == null then None else Some(io.State()), interrupts.flags)
    }

    ghost function Position(): P.Beam
      reads Repr()
    {
      P.Beam(ppu.line, ppu.lineCycle)
    }

    /** Ticks timers, serial port and PPU once, in the source's order. */
    method TickDevices(interval: nat) returns (first: Option<nat>, events: P.Events)
      requires Valid()
      modifies timers.timers, timers`cycleCounter, interrupts`flags, ppu, io
      ensures Valid()
      ensures Devices() == D.Run(old(Devices()), interval)
      ensures timers.cycleCounter == old(timers.cycleCounter) + interval
      ensures Position() == P.MoveBeam(old(Position()), interval)
      ensures forall i: nat :: i < T.TIMER_COUNT ==>
                timers.timers[i].overflowCount >= old(timers.timers[i].overflowCount)
      ensures first == U.Relative(T.Poll(old(Devices()).timers, old(timers.cycleCounter), interval).first,
                                  old(timers.cycleCounter))
      ensures events == P.PollRaster(old(ppu.State()), interval).events
      ensures timers.Contents() == T.Poll(old(timers.Contents()), old(timers.cycleCounter), interval).ts
    {
      hide T.Poll, P.PollRaster, S.PollPort, D.Run, D.Good, P.MoveBeam, T.BankReachable;
      ghost var before := Devices();
      first := timers.Tick(interval, interrupts);
      if io != null {
        io.Tick(interval, interrupts);
      }
      events := ppu.Tick(interval, interrupts);
      PollCounts(before.timers, before.now, interval);
      P.PollRasterBeam(before.raster, interval);
      D.BatchIsRun(before, interval);
      assert Devices() == D.Batch(before, interval);
    }

    method ApplyWrite(write: IoWrite)
      requires Valid()
      modifies timers.timers, interrupts`flags, ppu`dispstat, io
      ensures Valid()
    {
      match write
      case TimerReload(i, value) =>
        if i < T.TIMER_COUNT {
          timers.WriteReload(i, value);
        }
      case TimerControl(i, value) =>
        if i < T.TIMER_COUNT {
          timers.WriteControl(i, value);
        }
      case DispstatWrite(value) =>
        var newlyMatching := ppu.RecheckVcountMatch(value);
        if newlyMatching && ppu.dispstat.vcountIrq {
          interrupts.Request(VCOUNT);
        }
      case SiocntWrite(value) =>
        if io != null {
          io.WriteSiocnt(value);
        }
      case FlagsWrite(acknowledge) =>
        interrupts.WriteInterruptFlags(acknowledge);
    }

    /** The requests numbered `from` to `to` moved nothing: no enabled channel waited for them. */
    ghost predicate Idle(from: nat, to: nat) {
      forall n: nat :: from <= n < to ==>
        var reply := dmaScript(n);
        reply.busCycles == 0 && reply.writes == [] && reply.requests * SUPPORTED == {}
    }

    lemma IdleParts(a: nat, b: nat, c: nat)
      requires a <= b <= c
      ensures Idle(a, c) ==> Idle(a, b) && Idle(b, c)
    {
    }

    /** Number and outcome of the calls when `requests` are made from call `from` on: while no channel
        is enabled, requests are not passed on. */
    ghost function Asked(from: nat, armed: bool, requests: nat): (r: (nat, bool))
      ensures from <= r.0 <= from + requests && (r.1 ==> armed && r.0 == from + requests)
      ensures !armed ==> r == (from, false)
      decreases requests
    {
      if requests == 0 || !armed then (from, armed) else Asked(from + 1, dmaScript(from).stillArmed, requests - 1)
    }

    /** What calls `from` to `end` cost. */
    ghost function Charged(from: nat, end: nat): nat
      decreases end
    {
      if end <= from then 0 else Charged(from, end - 1) + dmaScript(end - 1).busCycles
    }

    /** The requests the FIFO levels make at overflow events `from` to `end`. */
    ghost function FifoRequests(from: nat, end: nat): nat
      decreases end
    {
      if end <= from then 0
      else
        var request := fifoScript(end - 1);
        FifoRequests(from, end - 1) + (if request.a then 1 else 0) + (if request.b then 1 else 0)
    }

    lemma {:induction false} AskedJoins(from: nat, armed: bool, a: nat, b: nat)
      ensures Asked(from, armed, a + b) == Asked(Asked(from, armed, a).0, Asked(from, armed, a).1, b)
      decreases a
    {
      if a != 0 && armed {
        AskedJoins(from + 1, dmaScript(from).stillArmed, a - 1, b);
      }
    }

    lemma {:induction false} ChargedJoins(a: nat, b: nat, c: nat)
      requires a <= b <= c
      ensures Charged(a, c) == Charged(a, b) + Charged(b, c)
      decreases c
    {
      if b < c {
        ChargedJoins(a, b, c - 1);
      }
    }

    lemma {:induction false} FifoRequestsJoin(a: nat, b: nat, c: nat)
      requires a <= b <= c
      ensures FifoRequests(a, c) == FifoRequests(a, b) + FifoRequests(b, c)
      decreases c
    {
      if b < c {
        FifoRequestsJoin(a, b, c - 1);
      }
    }

    lemma {:induction false} IdleIsFree(from: nat, end: nat)
      requires Idle(from, end)
      ensures Charged(from, end) == 0
      decreases end
    {
      if end > from {
        IdleIsFree(from, end - 1);
      }
    }

    lemma AskedBounds(from: nat, armed: bool, requests: nat)
      ensures var r := Asked(from, armed, requests);
              from <= r.0 <= from + requests && (!armed ==> r == (from, false))
      ensures Asked(from, armed, 0) == (from, armed) && Charged(from, from) == 0
    {
    }

    lemma NoneAsked(calls: nat, armed: bool)
      ensures Asked(calls, armed, 0) == (calls, armed) && Charged(calls, calls) == 0
    {
    }

    lemma NoFifoRequests(events: nat)
      ensures FifoRequests(events, events) == 0
    {
    }

    /** One DMA request. With no channel enabled it is not even made. */
    method RunDma() returns (busCycles: nat)
      requires Valid()
      modifies this`dmaCalls, this`dmaArmed, timers.timers, interrupts`flags, ppu`dispstat, io
      ensures Valid()
      ensures (dmaCalls, dmaArmed) == Asked(old(dmaCalls), old(dmaArmed), 1)
      ensures busCycles == Charged(old(dmaCalls), dmaCalls)
      ensures Idle(old(dmaCalls), dmaCalls) ==> busCycles == 0 && Devices() == old(Devices())
    {
      ghost var from := dmaCalls;
      assert Charged(from, from) == 0 && Charged(from, from + 1) == dmaScript(from).busCycles;
      if !dmaArmed {
        return 0;
      }
      var reply := dmaScript(dmaCalls);
      dmaCalls := dmaCalls + 1;
      for i := 0 to |reply.writes|
        invariant Valid() && (i == 0 ==> Devices() == old(Devices()))
        modifies timers.timers, interrupts`flags, ppu`dispstat, io
      {
        ApplyWrite(reply.writes[i]);
      }
      interrupts.flags := interrupts.flags + reply.requests * SUPPORTED;
      dmaArmed := reply.stillArmed;
      return reply.busCycles;
    }

    /** Sound FIFO service for one overflow of a direct-sound timer. */
    method ServeOverflow(allowNewDma: bool) returns (busCycles: nat)
      requires Valid()
      modifies this`dmaCalls, this`dmaArmed, this`fifoEvents, timers.timers, interrupts`flags, ppu`dispstat, io
      ensures Valid()
      ensures fifoEvents == old(fifoEvents) + 1
      ensures (dmaCalls, dmaArmed)
           == Asked(old(dmaCalls), old(dmaArmed), if allowNewDma then FifoRequests(old(fifoEvents), fifoEvents) else 0)
      ensures busCycles == Charged(old(dmaCalls), dmaCalls)
      ensures Idle(old(dmaCalls), dmaCalls) ==> busCycles == 0 && Devices() == old(Devices())
    {
      hide D.Good, Asked, Charged;
      NoneAsked(dmaCalls, dmaArmed);
      NoFifoRequests(fifoEvents);
      busCycles := 0;
      var request := fifoScript(fifoEvents);
      fifoEvents := fifoEvents + 1;
      if allowNewDma && request.a {
        busCycles := RunDma();
      }
      if allowNewDma && request.b {
        ghost var calls := dmaCalls;
        var cost := RunDma();
        busCycles := busCycles + cost;
        AskedJoins(old(dmaCalls), old(dmaArmed), if request.a then 1 else 0, 1);
        ChargedJoins(old(dmaCalls), calls, dmaCalls);
      }
    }

    /** The same for `overflows` overflows. */
    method ConsumeDirectSoundTimer(overflows: nat, allowNewDma: bool) returns (busCycles: nat)
      requires Valid()
      modifies this`dmaCalls, this`dmaArmed, this`fifoEvents, timers.timers, interrupts`flags, ppu`dispstat, io
      ensures Valid()
      ensures fifoEvents == old(fifoEvents) + overflows
      ensures (dmaCalls, dmaArmed)
           == Asked(old(dmaCalls), old(dmaArmed), if allowNewDma then FifoRequests(old(fifoEvents), fifoEvents) else 0)
      ensures busCycles == Charged(old(dmaCalls), dmaCalls)
      ensures Idle(old(dmaCalls), dmaCalls) ==> busCycles == 0 && Devices() == old(Devices())
    {
      hide D.Good, Asked, Charged, FifoRequests;
      NoneAsked(dmaCalls, dmaArmed);
      NoFifoRequests(fifoEvents);
      busCycles := 0;
      for event := 0 to overflows
        invariant Valid() && fifoEvents == old(fifoEvents) + event
        invariant (dmaCalls, dmaArmed)
               == Asked(old(dmaCalls), old(dmaArmed), if allowNewDma then FifoRequests(old(fifoEvents), fifoEvents) else 0)
        invariant busCycles == Charged(old(dmaCalls), dmaCalls)
        invariant Idle(old(dmaCalls), dmaCalls) ==> busCycles == 0 && Devices() == old(Devices())
      {
        ghost var f0, f, calls := old(fifoEvents), fifoEvents, dmaCalls;
        var cost := ServeOverflow(allowNewDma);
        busCycles := busCycles + cost;
        if allowNewDma {
          AskedJoins(old(dmaCalls), old(dmaArmed), FifoRequests(f0, f), FifoRequests(f, fifoEvents));
        } else {
          NoneAsked(calls, dmaArmed);
        }
        ChargedJoins(old(dmaCalls), calls, dmaCalls);
        FifoRequestsJoin(f0, f, fifoEvents);
      }
    }

    method RunTriggers(count: nat) returns (busCycles: nat)
      requires Valid()
      modifies this`dmaCalls, this`dmaArmed, timers.timers, interrupts`flags, ppu`dispstat, io
      ensures Valid()
      ensures (dmaCalls, dmaArmed) == Asked(old(dmaCalls), old(dmaArmed), count)
      ensures busCycles == Charged(old(dmaCalls), dmaCalls)
      ensures Idle(old(dmaCalls), dmaCalls) ==> busCycles == 0 && Devices() == old(Devices())
    {
      hide D.Good, Asked, Charged;
      NoneAsked(dmaCalls, dmaArmed);
      busCycles := 0;
      for event := 0 to count
        invariant Valid()
        invariant (dmaCalls, dmaArmed) == Asked(old(dmaCalls), old(dmaArmed), event)
        invariant busCycles == Charged(old(dmaCalls), dmaCalls)
        invariant Idle(old(dmaCalls), dmaCalls) ==> busCycles == 0 && Devices() == old(Devices())
      {
        ghost var calls := dmaCalls;
        var cost := RunDma();
        busCycles := busCycles + cost;
        AskedJoins(old(dmaCalls), old(dmaArmed), event, 1);
        ChargedJoins(old(dmaCalls), calls, dmaCalls);
      }
    }

    /** The triggers of the raster, HBlank before VBlank. */
    method ServeRaster(events: P.Events) returns (busCycles: nat)
      requires Valid()
      modifies this`dmaCalls, this`dmaArmed, timers.timers, interrupts`flags, ppu`dispstat, io
      ensures Valid()
      ensures (dmaCalls, dmaArmed) == Asked(old(dmaCalls), old(dmaArmed), events.hblanks + events.vblanks)
      ensures busCycles == Charged(old(dmaCalls), dmaCalls)
      ensures Idle(old(dmaCalls), dmaCalls) ==> busCycles == 0 && Devices() == old(Devices())
    {
      hide D.Good, Asked, Charged;
      busCycles := RunTriggers(events.hblanks);
      ghost var calls := dmaCalls;
      var vblank := RunTriggers(events.vblanks);
      busCycles := busCycles + vblank;
      AskedJoins(old(dmaCalls), old(dmaArmed), events.hblanks, events.vblanks);
      ChargedJoins(old(dmaCalls), calls, dmaCalls);
    }

    /** The FIFO service of both direct-sound timers. */
    method ServeSound(overflows0: nat, overflows1: nat, allowNewDma: bool) returns (busCycles: nat)
      requires Valid()
      modifies this`dmaCalls, this`dmaArmed, this`fifoEvents, timers.timers, interrupts`flags, ppu`dispstat, io
      ensures Valid()
      ensures fifoEvents == old(fifoEvents) + overflows0 + overflows1
      ensures (dmaCalls, dmaArmed)
           == Asked(old(dmaCalls), old(dmaArmed), if allowNewDma then FifoRequests(old(fifoEvents), fifoEvents) else 0)
      ensures busCycles == Charged(old(dmaCalls), dmaCalls)
      ensures Idle(old(dmaCalls), dmaCalls) ==> busCycles == 0 && Devices() == old(Devices())
    {
      hide D.Good, Asked, Charged, FifoRequests;
      busCycles := ConsumeDirectSoundTimer(overflows0, allowNewDma);
      ghost var calls, events := dmaCalls, fifoEvents;
      var sound1 := ConsumeDirectSoundTimer(overflows1, allowNewDma);
      busCycles := busCycles + sound1;
      FifoRequestsJoin(old(fifoEvents), events, fifoEvents);
      AskedJoins(old(dmaCalls), old(dmaArmed), if allowNewDma then FifoRequests(old(fifoEvents), events) else 0,
                 if allowNewDma then FifoRequests(events, fifoEvents) else 0);
      ChargedJoins(old(dmaCalls), calls, dmaCalls);
    }

    /** All DMA that the events of one interval ask for. */
    method ServeEvents(events: P.Events, overflows0: nat, overflows1: nat, allowNewDma: bool) returns (busCycles: nat)
      requires Valid()
      modifies this`dmaCalls, this`dmaArmed, this`fifoEvents, timers.timers, interrupts`flags, ppu`dispstat, io
      ensures Valid()
      ensures fifoEvents == old(fifoEvents) + overflows0 + overflows1
      ensures (dmaCalls, dmaArmed)
           == Asked(old(dmaCalls), old(dmaArmed),
                    if allowNewDma then events.hblanks + events.vblanks + FifoRequests(old(fifoEvents), fifoEvents) else 0)
      ensures busCycles == Charged(old(dmaCalls), dmaCalls)
      ensures Idle(old(dmaCalls), dmaCalls) ==> busCycles == 0 && Devices() == old(Devices())
    {
      hide D.Good, Asked, Charged, FifoRequests;
      NoneAsked(dmaCalls, dmaArmed);
      busCycles := 0;
      if allowNewDma {
        busCycles := ServeRaster(events);
      }
      ghost var calls := dmaCalls;
      var sound := ServeSound(overflows0, overflows1, allowNewDma);
      busCycles := busCycles + sound;
      if allowNewDma {
        AskedJoins(old(dmaCalls), old(dmaArmed), events.hblanks + events.vblanks,
                   FifoRequests(old(fifoEvents), fifoEvents));
      }
      ChargedJoins(old(dmaCalls), calls, dmaCalls);
    }

    method ServeInterval(events: P.Events, overflows0: nat, overflows1: nat, allowNewDma: bool)
      returns (hadEvents: bool, busCycles: nat)
      requires Valid()
      modifies this`dmaCalls, this`dmaArmed, this`fifoEvents, timers.timers, interrupts`flags, ppu`dispstat, io
      ensures Valid()
      ensures hadEvents <==> events.hblanks != 0 || events.vblanks != 0 || overflows0 != 0 || overflows1 != 0
      ensures fifoEvents == old(fifoEvents) + overflows0 + overflows1
      ensures !hadEvents ==> busCycles == 0
      ensures (dmaCalls, dmaArmed)
           == Asked(old(dmaCalls), old(dmaArmed),
                    if allowNewDma then events.hblanks + events.vblanks + FifoRequests(old(fifoEvents), fifoEvents) else 0)
      ensures busCycles == Charged(old(dmaCalls), dmaCalls)
      ensures Idle(old(dmaCalls), dmaCalls) ==> busCycles == 0 && Devices() == old(Devices())
    {
      hide Asked, Charged, D.Good;
      NoneAsked(dmaCalls, dmaArmed);
      NoFifoRequests(fifoEvents);
      hadEvents, busCycles := false, 0;
      if events.hblanks != 0 || events.vblanks != 0 || overflows0 != 0 || overflows1 != 0 {
        hadEvents := true;
        busCycles := ServeEvents(events, overflows0, overflows1, allowNewDma);
      }
    }

    /** `elapsed` cycles after the beam stood at `start`: every clock has moved by exactly that
        much, and the observer has seen exactly the lines completed on the way. */
    ghost predicate Moved(start: P.Beam, seen: seq<nat>, clock: nat, apu: nat, elapsed: nat)
      reads Repr()
    {
      && timers.cycleCounter == clock + elapsed && apuCycles == apu + elapsed
      && Position() == P.MoveBeam(start, elapsed)
      && observed == seen + if hasObserver then P.CompletedLines(start, elapsed) else []
    }

    /** With no DMA time or writes so far, the devices stand where `elapsed` single cycles take them. */
    ghost predicate Undisturbed(d0: D.Devices, elapsed: nat, first: Option<int>)
      requires Valid()
      reads Repr()
    {
      && Devices() == D.Run(d0, elapsed)
      && first == U.Relative(T.Poll(d0.timers, d0.now, elapsed).first, d0.now)
    }

    lemma Started(d0: D.Devices, start: P.Beam, seen: seq<nat>, clock: nat, apu: nat)
      requires Valid() && d0 == Devices() && start == Position() && seen == observed
      requires clock == timers.cycleCounter && apu == apuCycles
      ensures Moved(start, seen, clock, apu, 0) && Undisturbed(d0, 0, None)
      ensures E.At(start, E.Position(start)) && DirectSoundOverflows(d0, 0) == 0
    {
      RunStart(d0);
      P.BeamStart(start);
      NoOverflows(d0);
    }

    lemma InTurn(start: P.Beam, x: nat, seen: seq<nat>, clock: nat, apu: nat, elapsed: nat)
      requires Valid() && E.At(start, x) && Moved(start, seen, clock, apu, elapsed)
      ensures E.At(Position(), x + elapsed)
      ensures P.Boundary(ppu.lineCycle) - ppu.lineCycle == E.ToEdge(x + elapsed) > 0
    {
      hide E.At, P.MoveBeam, E.ToEdge;
      E.BeamMoves(start, x, elapsed);
      E.BoundaryAhead(Position(), x + elapsed);
    }

    /** The requests of one turn: those of the raster's edges, and those of the FIFO levels at the
        direct-sound timers' overflows. */
    ghost function TurnRequests(x: nat, cycles: nat, events: nat, overflows: nat): nat {
      E.EdgeRequests(x, cycles) + FifoRequests(events, events + overflows)
    }

    /** All requests of the turns that may make some, from cycle number `x` and overflow event `events`. */
    ghost function Requests(x: nat, events: nat, turns: seq<Turn>): nat {
      if turns == [] then 0
      else
        var past, turn := Before(turns), Final(turns);
        Requests(x, events, past)
        + if Grants(past, turn.dma)
          then TurnRequests(x + Elapsed(past), turn.cycles, events + Overflowed(past), turn.overflows)
          else 0
    }

    /** What the requests made so far have cost is what the turns so far have generated. */
    ghost predicate Paid(x: nat, events: nat, calls: nat, armed: bool, turns: seq<Turn>) {
      turns != [] ==>
        && Paid(x, events, calls, armed, Before(turns))
        && Generated(turns) == Charged(calls, Asked(calls, armed, Requests(x, events, turns)).0)
    }

    ghost predicate Accounted(x: nat, cycles: nat, events: nat, calls: nat, armed: bool, turns: seq<Turn>,
                              nowEvents: nat, nowCalls: nat, nowArmed: bool)
    {
      && Orderly(x, cycles, turns) && Paid(x, events, calls, armed, turns)
      && nowEvents == events + Overflowed(turns)
      && (nowCalls, nowArmed) == Asked(calls, armed, Requests(x, events, turns))
      && Generated(turns) == Charged(calls, nowCalls)
    }

    lemma NothingAccounted(x: nat, cycles: nat, events: nat, calls: nat, armed: bool)
      ensures Accounted(x, cycles, events, calls, armed, [], events, calls, armed)
    {
    }

    lemma {:induction false} TurnAccounted(x: nat, cycles: nat, events: nat, calls: nat, armed: bool, turns: seq<Turn>,
                                           turn: Turn, e: nat, c: nat, a: bool, e2: nat, c2: nat, a2: bool)
      requires Accounted(x, cycles, events, calls, armed, turns, e, c, a)
      requires var owed := Generated(turns) - Spent(turns, true);
               && (turn.dma <==> owed > 0)
               && turn.cycles == Min(if turn.dma then owed else cycles - Spent(turns, false),
                                     E.ToEdge(x + Elapsed(turns)))
      requires e2 == e + turn.overflows && turn.generated == Charged(c, c2)
      requires (c2, a2) == Asked(c, a, if Grants(turns, turn.dma)
                                       then TurnRequests(x + Elapsed(turns), turn.cycles, e, turn.overflows) else 0)
      ensures Accounted(x, cycles, events, calls, armed, turns + [turn], e2, c2, a2)
    {
      var more := turns + [turn];
      NextTurn(turns, turn);
      hide Asked, Charged, Grants, Chain, TurnRequests, Before, Final;
      AskedJoins(calls, armed, Requests(x, events, turns), Requests(x, events, more) - Requests(x, events, turns));
      ChargedJoins(calls, c, c2);
    }

    /** No turns make more requests than the time and overflows they cover give rise to, and CPU turns
        alone make exactly those. */
    lemma {:induction false} RequestsBounded(x: nat, cycles: nat, events: nat, turns: seq<Turn>)
      requires Orderly(x, cycles, turns)
      ensures Requests(x, events, turns) <= TurnRequests(x, Elapsed(turns), events, Overflowed(turns))
      ensures Generated(turns) == 0 ==>
                Requests(x, events, turns) == TurnRequests(x, Elapsed(turns), events, Overflowed(turns))
      decreases |turns|
    {
      hide E.EdgeRequests, E.ToEdge, FifoRequests, Chain;
      if turns == [] {
        E.EdgeRequestsJoin(x, 0, 0);
        NoFifoRequests(events);
      } else {
        var past, turn := Before(turns), Final(turns);
        RequestsBounded(x, cycles, events, past);
        TurnRequestsJoin(x, Elapsed(past), turn.cycles, events, Overflowed(past), turn.overflows);
        hide TurnRequests;
      }
    }

    lemma {:induction false} TurnRequestsJoin(x: nat, a: nat, b: nat, events: nat, o: nat, p: nat)
      ensures TurnRequests(x, a + b, events, o + p)
           == TurnRequests(x, a, events, o) + TurnRequests(x + a, b, events + o, p)
    {
      hide E.EdgeRequests, FifoRequests;
      E.EdgeRequestsJoin(x, a, b);
      FifoRequestsJoin(events, events + o, events + o + p);
      assert events + o + p == events + (o + p);
    }

    lemma {:induction false} TurnsDone(x: nat, cycles: nat, events: nat, calls: nat, armed: bool, turns: seq<Turn>,
                    nowEvents: nat, nowCalls: nat, nowArmed: bool)
      requires Accounted(x, cycles, events, calls, armed, turns, nowEvents, nowCalls, nowArmed)
      requires Spent(turns, false) == cycles && Spent(turns, true) == Generated(turns)
      ensures nowEvents == events + Overflowed(turns)
      ensures nowCalls <= calls + TurnRequests(x, cycles + Generated(turns), events, nowEvents - events)
      ensures Idle(calls, nowCalls) ==>
                Generated(turns) == 0
                && (nowCalls, nowArmed) == Asked(calls, armed, TurnRequests(x, cycles, events, nowEvents - events))
      ensures Generated(turns) == Charged(calls, nowCalls)
    {
      hide Asked, Charged, Requests, TurnRequests, Spent, Generated, Overflowed, Orderly, Paid, Idle;
      RequestsBounded(x, cycles, events, turns);
      AskedBounds(calls, armed, Requests(x, events, turns));
      if Idle(calls, nowCalls) {
        IdleIsFree(calls, nowCalls);
      }
    }

    /** The loop's counters and the DMA calls so far are accounted for by the turns. */
    ghost predicate Booked(book: Book, turns: seq<Turn>, loop: Loop, events: nat, calls: nat, armed: bool) {
      && Tracks(book.cycles, turns, loop)
      && Accounted(book.x, book.cycles, book.events, book.calls, book.armed, turns, events, calls, armed)
      && calls >= book.calls && (!book.armed ==> !armed && calls == book.calls)
      && (Idle(book.calls, calls) ==> Overflowed(turns) == DirectSoundOverflows(book.d0, loop.elapsed))
    }

    lemma NothingBooked(book: Book)
      ensures Booked(book, [], Loop(book.cycles, 0, 0, 0, 0, 0), book.events, book.calls, book.armed)
    {
      NothingAccounted(book.x, book.cycles, book.events, book.calls, book.armed);
      NoOverflows(book.d0);
      hide Accounted, DirectSoundOverflows;
    }

    lemma {:induction false} TurnBooked(book: Book, turns: seq<Turn>, loop: Loop, turn: Turn, e: nat, c: nat, a: bool,
                                        e2: nat, c2: nat, a2: bool)
      requires D.Good(book.d0) && Booked(book, turns, loop, e, c, a)
      requires turn.dma <==> loop.dma > 0
      requires turn.cycles == Min(if turn.dma then loop.dma else loop.cpu, E.ToEdge(book.x + loop.elapsed))
      requires e2 == e + turn.overflows && turn.generated == Charged(c, c2) && c2 >= c && (!a ==> !a2 && c2 == c)
      requires (c2, a2) == Asked(c, a, if turn.dma ==> loop.made < loop.budget
                                       then TurnRequests(book.x + loop.elapsed, turn.cycles, e, turn.overflows) else 0)
      requires Idle(book.calls, c2) ==>
                 Idle(book.calls, c) && turn.overflows == DirectSoundOverflows(D.Run(book.d0, loop.elapsed), turn.cycles)
      ensures Booked(book, turns + [turn], NextLoop(loop, turn), e2, c2, a2)
    {
      hide Accounted, DirectSoundOverflows, Idle, Asked, Charged, TurnRequests, E.ToEdge, D.Run, D.Good, Grants, Overflowed,
           Spent, Generated, Chain;
      TurnTracked(book.cycles, turns, turn, loop);
      TurnAccounted(book.x, book.cycles, book.events, book.calls, book.armed, turns, turn, e, c, a, e2, c2, a2);
      OverflowsJoin(book.d0, loop.elapsed, turn.cycles);
    }

    lemma {:induction false} AllBooked(book: Book, turns: seq<Turn>, loop: Loop, events: nat, calls: nat, armed: bool)
      requires Booked(book, turns, loop, events, calls, armed) && loop.cpu == 0 && loop.dma == 0
      ensures Spent(turns, false) == book.cycles && Spent(turns, true) == Generated(turns) == loop.dmaCycles
      ensures loop.elapsed == book.cycles + loop.dmaCycles
      ensures Accounted(book.x, book.cycles, book.events, book.calls, book.armed, turns, events, calls, armed)
      ensures events >= book.events && calls >= book.calls && (!book.armed ==> !armed && calls == book.calls)
      ensures calls <= book.calls + TurnRequests(book.x, book.cycles + loop.dmaCycles, book.events, events - book.events)
      ensures Idle(book.calls, calls) ==>
                && loop.dmaCycles == 0 && events == book.events + DirectSoundOverflows(book.d0, book.cycles)
                && (calls, armed)
                   == Asked(book.calls, book.armed, TurnRequests(book.x, book.cycles, book.events, events - book.events))
    {
      hide Accounted, DirectSoundOverflows, Idle, Asked, TurnRequests, Overflowed, Spent, Generated, Chain;
      TurnsDone(book.x, book.cycles, book.events, book.calls, book.armed, turns, events, calls, armed);
    }

    /** A channel that is still armed has been asked for at every edge passed. */
    lemma {:induction false} StillArmed(book: Book, events: nat, calls: nat, armed: bool)
      requires events >= book.events
      ensures armed && FifoRequests(book.events, events) == 0
              && (calls, armed)
                 == Asked(book.calls, book.armed, TurnRequests(book.x, book.cycles, book.events, events - book.events))
              ==> calls - book.calls == E.VisibleHblanks(book.x + book.cycles) - E.VisibleHblanks(book.x)
                                        + E.FramePasses(book.x, book.cycles, 160 * 1232)
    {
      hide FifoRequests, E.VisibleHblanks, E.FramePasses;
    }

    /** The ticking part of an interval, with the observer's call. */
    method TickInterval(interval: nat, elapsed: nat, first: Option<int>, ghost x: nat, ghost start: P.Beam,
                        ghost seen: seq<nat>, ghost clock: nat, ghost apu: nat, ghost d0: D.Devices)
      returns (newFirst: Option<int>, events: P.Events, delta0: nat, delta1: nat)
      requires Valid() && D.Good(d0)
      requires E.At(Position(), x) && 0 < interval <= E.ToEdge(x)
      requires Moved(start, seen, clock, apu, elapsed)
      modifies this`observed, timers.timers, timers`cycleCounter, interrupts`flags, ppu, io
      ensures Valid()
      ensures timers.cycleCounter == clock + elapsed + interval && apuCycles == apu + elapsed
      ensures Position() == P.MoveBeam(start, elapsed + interval)
      ensures observed == seen + if hasObserver then P.CompletedLines(start, elapsed + interval) else []
      ensures events.hblanks + events.vblanks == E.EdgeRequests(x, interval)
      ensures delta0 + delta1 == DirectSoundOverflows(old(Devices()), interval)
      ensures old(Undisturbed(d0, elapsed, first)) ==> Undisturbed(d0, elapsed + interval, newFirst)
    {
      hide D.Run, D.Good, T.Poll, P.MoveBeam, P.CompletedLines, T.BankReachable, E.At, E.EdgeRequests, E.ToEdge, C.Overflows,
           P.PollRaster;
      newFirst := first;
      ghost var before := Devices();
      E.BoundaryAhead(Position(), x);
      E.EventsAre(ppu.State(), x, interval);
      P.MoveBeamSplits(start, elapsed, interval);
      P.CompletedWithin(Position(), interval);
      D.RunSplits(d0, elapsed, interval);
      FirstSplits(d0, elapsed, interval);
      CountedOverflows(before, interval, 0);
      CountedOverflows(before, interval, 1);
      var overflows0, overflows1 := timers.timers[0].overflowCount, timers.timers[1].overflowCount;
      var intervalFirst;
      intervalFirst, events := TickDevices(interval);
      if intervalFirst.Some? && first.None? {
        newFirst := Some(elapsed + intervalFirst.value);
      }
      if ppu.lineCycle == P.VISIBLE_CYCLES && ppu.line < P.VISIBLE_LINES && hasObserver {
        observed := observed + [ppu.line];
      }
      delta0, delta1 := timers.timers[0].overflowCount - overflows0, timers.timers[1].overflowCount - overflows1;
    }

    /** The body of advance_devices' loop: one interval that crosses no edge, and its DMA. While
        requests are allowed, one is made for every HBlank of a visible line, every VBlank, and as the
        FIFO levels ask at the overflows of timers 0 and 1; what they cost is returned. */
    method AdvanceInterval(interval: nat, elapsed: nat, first: Option<int>, allowNewDma: bool,
                           ghost x: nat, ghost start: P.Beam, ghost seen: seq<nat>, ghost clock: nat, ghost apu: nat,
                           ghost d0: D.Devices)
      returns (newFirst: Option<int>, hadEvents: bool, generated: nat, ghost overflows: nat)
      requires Valid() && D.Good(d0)
      requires E.At(Position(), x) && 0 < interval <= E.ToEdge(x)
      requires Moved(start, seen, clock, apu, elapsed)
      modifies this`dmaCalls, this`dmaArmed, this`fifoEvents, this`observed, this`apuCycles,
               timers.timers, timers`cycleCounter, interrupts`flags, ppu, io
      ensures Valid()
      ensures Moved(start, seen, clock, apu, elapsed + interval)
      ensures overflows == DirectSoundOverflows(old(Devices()), interval)
      ensures fifoEvents == old(fifoEvents) + overflows
      ensures (dmaCalls, dmaArmed)
           == Asked(old(dmaCalls), old(dmaArmed),
                    if allowNewDma then TurnRequests(x, interval, old(fifoEvents), overflows) else 0)
      ensures dmaCalls >= old(dmaCalls) && (!old(dmaArmed) ==> !dmaArmed && dmaCalls == old(dmaCalls))
      ensures generated == Charged(old(dmaCalls), dmaCalls) && (!hadEvents || !allowNewDma ==> generated == 0)
      ensures old(Undisturbed(d0, elapsed, first)) && Idle(old(dmaCalls), dmaCalls)
              ==> generated == 0 && Undisturbed(d0, elapsed + interval, newFirst)
                  && overflows == DirectSoundOverflows(D.Run(d0, elapsed), interval)
    {
      hide Idle, D.Run, T.Poll, D.Good, P.MoveBeam, P.CompletedLines, Asked, Charged, FifoRequests, E.EdgeRequests,
           DirectSoundOverflows, E.At, E.ToEdge, T.BankReachable;
      var events, delta0, delta1;
      newFirst, events, delta0, delta1 := TickInterval(interval, elapsed, first, x, start, seen, clock, apu, d0);
      overflows := delta0 + delta1;
      hadEvents, generated := ServeInterval(events, delta0, delta1, allowNewDma);
      AskedBounds(old(dmaCalls), old(dmaArmed),
                  if allowNewDma then TurnRequests(x, interval, old(fifoEvents), overflows) else 0);
      apuCycles := apuCycles + interval;
    }

    /** One turn of advance_devices' loop: the next interval of outstanding DMA time, or else of the
        CPU's, and the budget for the requests that DMA time itself gives rise to. */
    method TakeTurn(loop: Loop, first: Option<int>, ghost book: Book, ghost turns: seq<Turn>, ghost start: P.Beam,
                    ghost seen: seq<nat>, ghost clock: nat, ghost apu: nat)
      returns (next: Loop, newFirst: Option<int>, ghost turn: Turn)
      requires Valid() && D.Good(book.d0) && (loop.cpu != 0 || loop.dma != 0) && dmaCalls >= book.calls
      requires Booked(book, turns, loop, fifoEvents, dmaCalls, dmaArmed)
      requires E.At(start, book.x) && Moved(start, seen, clock, apu, loop.elapsed)
      requires Idle(book.calls, dmaCalls) ==> Undisturbed(book.d0, loop.elapsed, first)
      modifies this`dmaCalls, this`dmaArmed, this`fifoEvents, this`observed, this`apuCycles,
               timers.timers, timers`cycleCounter, interrupts`flags, ppu, io
      ensures Valid() && dmaCalls >= book.calls
      ensures Booked(book, turns + [turn], next, fifoEvents, dmaCalls, dmaArmed)
      ensures Moved(start, seen, clock, apu, next.elapsed)
      ensures Idle(book.calls, dmaCalls) ==> Undisturbed(book.d0, next.elapsed, newFirst)
      ensures next.cpu < loop.cpu
              || (next.cpu == loop.cpu
                  && (Max(0, next.budget - next.made) < Max(0, loop.budget - loop.made)
                      || (Max(0, next.budget - next.made) == Max(0, loop.budget - loop.made) && next.dma < loop.dma)))
    {
      hide D.Run, D.Good, T.Poll, P.MoveBeam, P.CompletedLines, T.BankReachable, TurnRequests, Asked, Charged, E.At, E.ToEdge,
           DirectSoundOverflows, P.Boundary, Booked, Moved, Undisturbed, Idle;
      var dmaInterval := loop.dma != 0;
      InTurn(start, book.x, seen, clock, apu, loop.elapsed);
      var interval := Min(if dmaInterval then loop.dma else loop.cpu, P.Boundary(ppu.lineCycle) - ppu.lineCycle);
      next := if dmaInterval then loop.(dma := loop.dma - interval)
              else loop.(cpu := loop.cpu - interval, budget := 0, made := 0);
      var allowNewDma := !dmaInterval || next.made < next.budget;
      ghost var e, c, a := fifoEvents, dmaCalls, dmaArmed;
      var hadEvents, generated;
      ghost var overflows;
      newFirst, hadEvents, generated, overflows :=
        AdvanceInterval(interval, loop.elapsed, first, allowNewDma, book.x + loop.elapsed, start, seen, clock, apu,
                        book.d0);
      if hadEvents {
        next := next.(dmaCycles := next.dmaCycles + generated, dma := next.dma + generated);
        next := if dmaInterval then next.(made := next.made + generated)
                else next.(budget := generated * MAX_DMA_CHAIN_EXPANSION);
      }
      next := next.(elapsed := next.elapsed + interval);
      turn := Turn(dmaInterval, interval, overflows, generated);
      assert next == NextLoop(loop, turn);
      IdleParts(book.calls, c, dmaCalls);
      TurnBooked(book, turns, loop, turn, e, c, a, fifoEvents, dmaCalls, dmaArmed);
    }

    /**
     Advances every device by `cycles` plus whatever DMA time that gives rise to. It always
     returns; each device is ticked for exactly the total; the beam never jumps over a visible
     line's end, so the observer sees each completed line once and in order. Outstanding DMA time is
     spent first, every request the budget allows is made, and all of their cost is charged. When
     every DMA request on the way is idle the devices end exactly where single cycles would have
     taken them, and exactly the requests of the edges and overflows passed have been made.
     */
    method AdvanceDevices(cycles: nat) returns (first: Option<int>, dmaCycles: nat, ghost turns: seq<Turn>)
      requires Valid()
      modifies this`dmaCalls, this`dmaArmed, this`fifoEvents, this`observed, this`apuCycles, this`schedulerCycles,
               timers.timers, timers`cycleCounter, interrupts`flags, ppu, io
      ensures Valid()
      ensures timers.cycleCounter == old(timers.cycleCounter) + cycles + dmaCycles
      ensures apuCycles == old(apuCycles) + cycles + dmaCycles
      ensures schedulerCycles == old(schedulerCycles) + cycles + dmaCycles
      ensures Position() == P.MoveBeam(old(Position()), cycles + dmaCycles)
      ensures observed == old(observed)
                + if hasObserver then P.CompletedLines(old(Position()), cycles + dmaCycles) else []
      ensures dmaCalls >= old(dmaCalls) && (!old(dmaArmed) ==> !dmaArmed && dmaCalls == old(dmaCalls))
      ensures Spent(turns, false) == cycles && Spent(turns, true) == Generated(turns) == dmaCycles
      ensures Accounted(E.Position(old(Position())), cycles, old(fifoEvents), old(dmaCalls), old(dmaArmed), turns,
                        fifoEvents, dmaCalls, dmaArmed)
      ensures dmaCalls <= old(dmaCalls) + TurnRequests(E.Position(old(Position())), cycles + dmaCycles, old(fifoEvents),
                                                       fifoEvents - old(fifoEvents))
      ensures Idle(old(dmaCalls), dmaCalls) ==>
                && dmaCycles == 0
                && Devices() == D.Run(old(Devices()), cycles)
                && first == U.Relative(T.Poll(old(Devices()).timers, old(timers.cycleCounter), cycles).first,
                                       old(timers.cycleCounter))
                && fifoEvents == old(fifoEvents) + DirectSoundOverflows(old(Devices()), cycles)
                && (dmaCalls, dmaArmed)
                   == Asked(old(dmaCalls), old(dmaArmed),
                            TurnRequests(E.Position(old(Position())), cycles, old(fifoEvents),
                                         fifoEvents - old(fifoEvents)))
      ensures Idle(old(dmaCalls), dmaCalls) && dmaArmed && FifoRequests(old(fifoEvents), fifoEvents) == 0 ==>
                var x := E.Position(old(Position()));
                dmaCalls - old(dmaCalls)
                == E.VisibleHblanks(x + cycles) - E.VisibleHblanks(x) + E.FramePasses(x, cycles, 160 * 1232)
    {
      hide D.Run, D.Good, T.Poll, P.MoveBeam, P.CompletedLines, T.BankReachable, Accounted, TurnRequests, Asked, E.Position,
           DirectSoundOverflows, Spent, Generated, Booked, E.At, E.VisibleHblanks, E.FramePasses, FifoRequests;
      first, dmaCycles, turns := None, 0, [];
      var loop := Loop(cycles, 0, 0, 0, 0, 0);
      ghost var start, clock, seen, apu, d0 := Position(), timers.cycleCounter, observed, apuCycles, Devices();
      ghost var book := Book(E.Position(start), cycles, fifoEvents, dmaCalls, dmaArmed, d0);
      NothingBooked(book);
      Started(d0, start, seen, clock, apu);
      while loop.cpu != 0 || loop.dma != 0
        invariant Valid() && schedulerCycles == old(schedulerCycles) && dmaCalls >= book.calls
        invariant Booked(book, turns, loop, fifoEvents, dmaCalls, dmaArmed)
        invariant Moved(start, seen, clock, apu, loop.elapsed)
        invariant Idle(book.calls, dmaCalls) ==> Undisturbed(d0, loop.elapsed, first)
        decreases loop.cpu, Max(0, loop.budget - loop.made), loop.dma
      {
        hide Moved, Undisturbed, Idle;
        ghost var turn;
        loop, first, turn := TakeTurn(loop, first, book, turns, start, seen, clock, apu);
        turns := turns + [turn];
      }
      AllBooked(book, turns, loop, fifoEvents, dmaCalls, dmaArmed);
      StillArmed(book, fifoEvents, dmaCalls, dmaArmed);
      dmaCycles := loop.dmaCycles;
      schedulerCycles := schedulerCycles + cycles + dmaCycles;
    }

    method IntrWaitPpuHorizonCycles(mask: set<nat>) returns (horizon: int)
      requires Valid()
      ensures horizon == H.PpuHorizon(ppu.State(), mask)
    {
      horizon := H.COARSE_BATCH;
      if HBLANK in mask && ppu.dispstat.hblankIrq {
        var distance := if ppu.lineCycle < P.HBLANK_FLAG_CYCLES
          then P.HBLANK_FLAG_CYCLES - ppu.lineCycle
          else P.CYCLES_PER_LINE - ppu.lineCycle + P.HBLANK_FLAG_CYCLES;
        horizon := Min(horizon, distance);
      }
      if VBLANK in mask && ppu.dispstat.vblankIrq {
        var edge := P.VISIBLE_LINES * P.CYCLES_PER_LINE;
        var position := (ppu.line * P.CYCLES_PER_LINE + ppu.lineCycle) % P.CYCLES_PER_FRAME;
        var distance := (edge + P.CYCLES_PER_FRAME - position) % P.CYCLES_PER_FRAME;
        if distance == 0 {
          distance := P.CYCLES_PER_FRAME;
        }
        horizon := Min(horizon, distance);
      }
      if VCOUNT in mask && ppu.dispstat.vcountIrq {
        var lines := (ppu.dispstat.setting + P.TOTAL_LINES - ppu.line) % P.TOTAL_LINES;
        if lines == 0 {
          lines := P.TOTAL_LINES;
        }
        horizon := Min(horizon, (lines - 1) * P.CYCLES_PER_LINE + (P.CYCLES_PER_LINE - ppu.lineCycle));
      }
    }

    /** Scans for the earliest root overflow, then for a watched timer with a root below it. */
    method IntrWaitTimerHorizonCycles(mask: set<nat>) returns (horizon: int)
      requires Valid()
      ensures horizon == H.TimerHorizon(timers.Contents(), timers.cycleCounter, mask)
    {
      hide H.OverflowDistance, U.NextPrescalerTick;
      ghost var ts := timers.Contents();
      var hasRoot := [false, false, false, false];
      var earliestRoot: int := H.COARSE_BATCH;
      var timer := 0;
      while timer < T.TIMER_COUNT
        invariant timer <= T.TIMER_COUNT && |hasRoot| == T.TIMER_COUNT
        invariant forall k: nat :: k < T.TIMER_COUNT ==> hasRoot[k] == (k < timer && T.FreeRunning(ts, k))
        invariant Min(earliestRoot, H.EarliestRoot(ts, timers.cycleCounter, timer))
               == H.EarliestRoot(ts, timers.cycleCounter, 0)
        invariant earliestRoot <= H.COARSE_BATCH
      {
        if timers.timers[timer].control.enable && !(timer != 0 && timers.timers[timer].control.countUp) {
          hasRoot := hasRoot[timer := true];
          var untilTick := timers.CyclesUntilNextPrescalerTick(timer);
          var ticksToOverflow := 0x1_0000 - timers.timers[timer].counter;
          var distance := untilTick + (ticksToOverflow - 1) * T.Divisor(timers.timers[timer].control);
          DistanceIs(ts, timers.cycleCounter, timer);
          earliestRoot := Min(earliestRoot, distance);
        }
        timer := timer + 1;
      }
      timer := 0;
      while timer < T.TIMER_COUNT
        invariant timer <= T.TIMER_COUNT
        invariant forall k: nat :: k < timer && H.Watched(mask, k) ==> !H.HasRoot(ts, k)
      {
        if TIMER0 + timer in mask {
          var root := 0;
          while root <= timer
            invariant root <= timer + 1
            invariant forall k: nat :: k < root ==> !hasRoot[k]
          {
            if hasRoot[root] {
              assert T.FreeRunning(ts, root) && H.Watched(mask, timer) && H.HasRoot(ts, timer);
              return Min(H.COARSE_BATCH, Max(earliestRoot, 1));
            }
            root := root + 1;
          }
          assert !H.HasRoot(ts, timer);
        }
        timer := timer + 1;
      }
      return H.COARSE_BATCH;
    }

    method IntrWaitSerialHorizonCycles(mask: set<nat>) returns (horizon: int)
      requires Valid()
      ensures horizon == H.SerialHorizon(if io == null then None else Some(io.State()), mask)
    {
      if io == null || SERIAL !in mask || !io.active {
        return H.COARSE_BATCH;
      }
      return Max(io.remaining, 1);
    }

    method IntrWaitBatchCycles(mask: set<nat>) returns (batch: nat)
      requires Valid()
      ensures batch == H.BatchCycles(Devices(), mask)
    {
      hide H.PpuHorizon, H.TimerHorizon, H.SerialHorizon, D.Good;
      var a := IntrWaitPpuHorizonCycles(mask);
      var b := IntrWaitTimerHorizonCycles(mask);
      var c := IntrWaitSerialHorizonCycles(mask);
      batch := Max(1, Min(Min(Min(a, b), c), H.COARSE_BATCH));
    }

    /**
     Waits for a watched interrupt flag, jumping in batches. When every DMA request made on the way is
     idle, and so whenever no DMA channel is enabled, it gives the same answer, after the same number
     of cycles and with the same timers, PPU, serial port and IF, as looking at the flags every single
     cycle.
     */
    method WaitForInterruptMask(mask: set<nat>, discardOldFlags: bool) returns (matched: bool)
      requires Valid()
      modifies this`dmaCalls, this`dmaArmed, this`fifoEvents, this`observed, this`apuCycles, this`schedulerCycles,
               timers.timers, timers`cycleCounter, interrupts`flags, ppu, io
      ensures Valid()
      ensures matched <==> interrupts.flags * mask != {}
      ensures dmaCalls >= old(dmaCalls) && (!old(dmaArmed) ==> !dmaArmed && dmaCalls == old(dmaCalls))
      ensures Idle(old(dmaCalls), dmaCalls) ==>
                var from := old(Devices()).(flags := if discardOldFlags then old(interrupts.flags) - mask
                                                     else old(interrupts.flags));
                var polled := I.PollWait(from, mask, if mask == {} then 0 else 561792);
                && matched == polled.matched
                && Devices() == polled.devices
                && schedulerCycles == old(schedulerCycles) + polled.cycles
    {
      hide Idle, Accounted, TurnRequests, DirectSoundOverflows, Asked, Spent, Generated, E.Position, I.PollWait, D.Good,
           H.BatchCycles, D.Run, T.Poll, P.MoveBeam, P.CompletedLines, U.Relative,
           T.BankReachable, P.OnScreen;
      if mask == {} {
        WaitNothing(Devices());
        assert old(interrupts.flags) - mask == old(interrupts.flags);
        return false;
      }
      if discardOldFlags {
        interrupts.WriteInterruptFlags(mask);
      }
      ghost var from := Devices();
      ghost var polled := I.PollWait(from, mask, MAX_BIOS_WAIT_CYCLES);
      ghost var startCycles := schedulerCycles;
      var cycles: nat := 0;
      while cycles < MAX_BIOS_WAIT_CYCLES
        invariant Valid() && cycles <= MAX_BIOS_WAIT_CYCLES
        invariant dmaCalls >= old(dmaCalls) && (!old(dmaArmed) ==> !dmaArmed && dmaCalls == old(dmaCalls))
        invariant Idle(old(dmaCalls), dmaCalls) ==>
                    && schedulerCycles == startCycles + cycles
                    && polled == I.Delayed(I.PollWait(Devices(), mask, MAX_BIOS_WAIT_CYCLES - cycles), cycles)
      {
        ghost var here := Devices();
        if interrupts.flags * mask != {} {
          WaitOver(here, mask, MAX_BIOS_WAIT_CYCLES - cycles);
          return true;
        }
        var remaining := MAX_BIOS_WAIT_CYCLES - cycles;
        var horizon := IntrWaitBatchCycles(mask);
        var batch := Min(horizon, remaining);
        I.BatchSkipsPolls(here, mask, remaining, batch);
        ghost var calls := dmaCalls;
        var _, _, _ := AdvanceDevices(batch);
        IdleParts(old(dmaCalls), calls, dmaCalls);
        cycles := cycles + batch;
      }
      WaitOver(Devices(), mask, 0);
      matched := interrupts.flags * mask != {};
    }
  }

  /** Overflows of the two direct-sound timers while the devices run undisturbed. */
  function DirectSoundOverflows(d: D.Devices, n: nat): nat {
    C.Overflows(d.timers, d.now, n, 0) + C.Overflows(d.timers, d.now, n, 1)
  }

  lemma {:induction false} OverflowsJoin(d: D.Devices, a: nat, b: nat)
    requires D.Good(d)
    ensures DirectSoundOverflows(d, a + b) == DirectSoundOverflows(d, a) + DirectSoundOverflows(D.Run(d, a), b)
  {
    hide *;
    D.RunKeepsGood(d, a);
    D.RunSplits(d, a, b);
    RunOverflows(d, a);
    RunOverflows(d, a + b);
    RunOverflows(D.Run(d, a), b);
  }

  lemma NoOverflows(d: D.Devices)
    ensures DirectSoundOverflows(d, 0) == 0
  {
    C.NothingCounted(d.timers, d.now, 0);
    C.NothingCounted(d.timers, d.now, 1);
    hide C.Overflows;
  }

  function OverflowCounts(d: D.Devices): nat {
    d.timers[0].overflowCount + d.timers[1].overflowCount
  }

  lemma {:induction false} RunOverflows(d: D.Devices, n: nat)
    requires D.Good(d)
    ensures OverflowCounts(D.Run(d, n)) == OverflowCounts(d) + DirectSoundOverflows(d, n)
  {
    D.BatchIsRun(d, n);
    CountedOverflows(d, n, 0);
    CountedOverflows(d, n, 1);
    hide D.Run, D.Good, T.Poll, C.Overflows;
  }

  lemma {:induction false} CountedOverflows(d: D.Devices, n: nat, i: nat)
    requires D.Good(d) && i < T.TIMER_COUNT
    ensures T.Poll(d.timers, d.now, n).ts[i].overflowCount
         == d.timers[i].overflowCount + C.Overflows(d.timers, d.now, n, i)
  {
    hide T.Poll, C.Overflows;
    C.PollCounted(d.timers, d.now, n);
    C.CountedAt(d.timers, d.now, n, i);
  }

  lemma DistanceIs(ts: T.Bank, now: nat, i: nat)
    requires i < T.TIMER_COUNT
    ensures H.OverflowDistance(ts, now, i)
         == U.NextPrescalerTick(ts, i, now) + (0x1_0000 - ts[i].counter - 1) * T.Divisor(ts[i].control)
  {
  }

  lemma WaitNothing(d: D.Devices)
    ensures I.PollWait(d, {}, 0) == I.Waited(false, 0, d)
  {
  }

  lemma WaitOver(d: D.Devices, mask: set<nat>, budget: nat)
    ensures d.flags * mask != {} ==> I.PollWait(d, mask, budget) == I.Waited(true, 0, d)
    ensures d.flags * mask == {} ==> I.PollWait(d, mask, 0) == I.Waited(false, 0, d)
  {
  }

  /** Overflow counts never go back. */
  lemma {:induction false} PollCounts(ts: T.Bank, start: nat, n: nat)
    ensures forall i: nat :: i < T.TIMER_COUNT ==> T.Poll(ts, start, n).ts[i].overflowCount >= ts[i].overflowCount
    decreases n
  {
    if n != 0 {
      hide T.Pulsed, T.Wraps, T.StepRaised;
      PollCounts(ts, start, n - 1);
    }
  }

  lemma RunStart(d: D.Devices)
    ensures D.Run(d, 0) == d
    ensures T.Poll(d.timers, d.now, 0).first == None
  {
  }

  /** The first timer interrupt of two adjoining intervals. */
  lemma FirstSplits(d: D.Devices, a: nat, b: nat)
    requires D.Good(d)
    ensures var mid := D.Run(d, a);
            var first, second := T.Poll(d.timers, d.now, a).first, T.Poll(mid.timers, mid.now, b).first;
            && mid.now == d.now + a
            && T.Poll(d.timers, d.now, a + b).first == (if first.Some? then first else second)
            && (second.Some? ==> second.value > d.now + a)
  {
    hide D.Run, T.Poll, W.Window, T.BankReachable;
    var mid := D.Run(d, a);
    D.BatchIsRun(d, a);
    D.RunKeepsGood(d, a);
    W.WindowIsPolling(d.timers, d.now, a);
    W.WindowIsPolling(d.timers, d.now, a + b);
    W.WindowIsPolling(mid.timers, mid.now, b);
    W.WindowSplits(d.timers, d.now, a, b);
    W.WindowFirst(d.timers, d.now, a);
    W.WindowFirst(mid.timers, mid.now, b);
  }
}
