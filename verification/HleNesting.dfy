/**
 High-level interrupt dispatch and deferred call costs: the stack of interrupted handlers and the
 stack of unfinished call work, which must stay in step however interrupts nest.
 */
module HleNesting {
  import opened Prelude
  import opened CpuState
  import opened Ppu

  const VECTOR: u32 := 0x18
  const SENTINEL: u32 := 0x0FFF_FF00

  /** What an interrupted handler needs back. */
  datatype IrqFrame = IrqFrame(returnLr: u32, saved: seq<u32>)

  /** Cycles a call still owes, and the interrupt depth it was made at. */
  datatype WorkFrame = WorkFrame(remaining: nat, owner: nat)

  datatype Hle = Hle(cpu: Cpu, returnLr: Option<u32>, saved: Option<seq<u32>>, outer: seq<IrqFrame>,
                     work: seq<WorkFrame>)

  function Depth(s: Hle): nat {
    |s.outer| + if s.saved.Some? then 1 else 0
  }

  /** r0-r12 as the current mode sees them. */
  function LowRegisters(c: Cpu): (r: seq<u32>)
    requires WellShaped(c.banks)
    ensures |r| == 13
  {
    c.banks.low + if c.psr.mode == Fiq then c.banks.fiqHigh else c.banks.high
  }

  function WithLowRegisters(c: Cpu, regs: seq<u32>): (r: Cpu)
    requires WellShaped(c.banks) && |regs| == 13
    ensures WellShaped(r.banks)
  {
    var banks := c.banks.(low := regs[..8]);
    c.(banks := if c.psr.mode == Fiq then banks.(fiqHigh := regs[8..]) else banks.(high := regs[8..]))
  }

  function WithLink(c: Cpu, value: u32): (r: Cpu)
    requires WellShaped(c.banks)
    ensures WellShaped(r.banks)
  {
    c.(banks := c.banks.(lr := c.banks.lr[BankOf(c.psr.mode) := value]))
  }

  function Link(c: Cpu): u32
    requires WellShaped(c.banks)
  {
    c.banks.lr[BankOf(c.psr.mode)]
  }

  /** The state the rest of the scheduler relies on. */
  ghost predicate Shaped(s: Hle) {
    && WellShaped(s.cpu.banks)
    && (s.saved.Some? ==> |s.saved.value| == 13)
    && forall f :: f in s.outer ==> |f.saved| == 13
  }

  /** The checks the snapshot loader makes before it accepts the two stacks. */
  ghost predicate LoaderAccepts(s: Hle) {
    && (s.outer != [] ==> s.returnLr.Some?)
    && (forall i :: 0 <= i < |s.work| ==> s.work[i].remaining > 0 && s.work[i].owner <= Depth(s))
    && forall i, j :: 0 <= i < j < |s.work| ==> s.work[i].owner < s.work[j].owner
  }

  /** What every state of an orderly run satisfies, also between admission and dispatch: an
      outer handler exists only below a dispatched one. */
  ghost predicate Acceptable(s: Hle) {
    Shaped(s) && LoaderAccepts(s) && (s.outer != [] ==> s.saved.Some?)
  }

  /** Every admitted interrupt has been dispatched. */
  ghost predicate Settled(s: Hle) {
    Acceptable(s) && (s.saved.Some? <==> s.returnLr.Some?)
  }

  // ---------------------------------------------------------------- the steps

  predicate AtStub(c: Cpu) {
    c.psr.mode == Irq && (c.banks.pc == VECTOR || c.banks.pc == SENTINEL)
  }

  /** The newest unfinished call belongs to the current depth. */
  predicate OwesWork(s: Hle) {
    s.work != [] && s.work[|s.work| - 1].owner == Depth(s)
  }

  function Queued(s: Hle, cycles: nat): Hle {
    if cycles == 0 then s else s.(work := s.work + [WorkFrame(cycles, Depth(s))])
  }

  /** One slice of the newest call's cost. */
  function Worked(s: Hle, cycles: nat): Hle
    requires s.work != [] && cycles <= s.work[|s.work| - 1].remaining
  {
    var n := |s.work| - 1;
    var left := s.work[n].remaining - cycles;
    s.(work := if left == 0 then s.work[..n] else s.work[n := s.work[n].(remaining := left)])
  }

  /** An interrupt is taken: the CPU enters the exception and the outermost link is latched. */
  function Admitted(s: Hle): (t: Hle)
    requires WellShaped(s.cpu.banks)
    ensures WellShaped(t.cpu.banks)
  {
    var cpu := Entered(s.cpu, IrqLine);
    var link := cpu.banks.lr[BankOf(Irq)];
    s.(cpu := cpu, returnLr := if link != SENTINEL && s.returnLr.None? then Some(link) else s.returnLr)
  }

  predicate Nested(s: Hle)
    requires WellShaped(s.cpu.banks)
  {
    s.returnLr.Some? && s.saved.Some? && Link(s.cpu) != SENTINEL
  }

  /** The vector stub: saves r0-r12 and jumps to the user handler with the sentinel as link. */
  function Dispatched(s: Hle, handler: u32): Hle
    requires WellShaped(s.cpu.banks)
  {
    var cpu := s.cpu.(psr := s.cpu.psr.(thumb := handler % 2 == 1));
    var linked := WithLink(cpu, SENTINEL);
    Hle(linked.(banks := linked.banks.(pc := handler - handler % 2)),
        if Link(s.cpu) != SENTINEL then Some(Link(s.cpu)) else s.returnLr,
        Some(LowRegisters(s.cpu)),
        if Nested(s) then s.outer + [IrqFrame(s.returnLr.value, s.saved.value)] else s.outer,
        s.work)
  }

  /** -4 from ARM state, -2 from Thumb, as the saved status register says. */
  function ReturnOffset(spsr: u32): nat {
    if spsr / 0x20 % 2 == 1 then 2 else 4
  }

  datatype ReturnResult = NotHandled | Failed(state: Hle) | Resumed(state: Hle)

  /** The return stub; `fallback` is the link word kept in memory for a lost latch. */
  function ReturnedTo(s: Hle, fallback: Option<u32>): ReturnResult
    requires Shaped(s)
  {
    if s.cpu.banks.pc != SENTINEL || s.cpu.psr.mode != Irq then NotHandled
    else if s.returnLr.None? && (fallback.None? || fallback.value == 0 || fallback.value == SENTINEL) then NotHandled
    else
      var link := if s.returnLr.Some? then s.returnLr.value else fallback.value;
      var linked := WithLink(s.cpu, link);
      var restored := if s.saved.Some? then WithLowRegisters(linked, s.saved.value) else linked;
      match Returned(restored, ReturnOffset(restored.banks.spsr[BankOf(Irq)]))
      case None => Failed(s.(cpu := restored, returnLr := Some(link), saved := None))
      case Some(cpu) =>
        if s.outer == [] then Resumed(s.(cpu := cpu, returnLr := None, saved := None))
        else
          var n := |s.outer| - 1;
          Resumed(Hle(cpu, Some(s.outer[n].returnLr), Some(s.outer[n].saved), s.outer[..n], s.work))
  }

  // ---------------------------------------------------------------- slices

  function PpuRemaining(lineCycle: nat): (n: nat)
    requires lineCycle < CYCLES_PER_LINE
    ensures n >= 1
  {
    if lineCycle < VISIBLE_CYCLES then VISIBLE_CYCLES - lineCycle
    else if lineCycle < HBLANK_FLAG_CYCLES then HBLANK_FLAG_CYCLES - lineCycle
    else CYCLES_PER_LINE - lineCycle
  }

  /** Cycles charged in one go: as far as the next event, frame end, beam edge and pending latency
      allow. Frames have 280896 cycles, and the beam's edges are cycles 960, 1004 and 1232 of a line. */
  function SliceCycles(remaining: nat, horizon: nat, now: nat, lineCycle: nat, latency: nat): (n: nat)
    requires lineCycle < CYCLES_PER_LINE && horizon >= 1
    ensures n <= remaining && (remaining >= 1 ==> n >= 1)
    ensures n <= horizon && now % 280896 + n <= 280896 && (latency != 0 ==> n <= latency)
    ensures lineCycle + n <= if lineCycle < 960 then 960 else if lineCycle < 1004 then 1004 else 1232
    ensures n == remaining || n == horizon || (now + n) % 280896 == 0 || lineCycle + n in {960, 1004, 1232}
            || n == latency
  {
    var frame := CYCLES_PER_FRAME - now % CYCLES_PER_FRAME;
    var n := Min(remaining, Min(horizon, Min(frame, PpuRemaining(lineCycle))));
    if latency != 0 then Min(n, latency) else n
  }

  class HleScheduler {
    var cpu: Cpu
    var returnLr: Option<u32>
    var savedRegisters: Option<seq<u32>>
    var outerFrames: seq<IrqFrame>
    var workFrames: seq<WorkFrame>

    ghost function State(): Hle
      reads this
    {
      Hle(cpu, returnLr, savedRegisters, outerFrames, workFrames)
    }

    constructor (cpu: Cpu)
      ensures State() == Hle(cpu, None, None, [], [])
    {
      this.cpu := cpu;
      returnLr, savedRegisters, outerFrames, workFrames := None, None, [], [];
    }

    function IrqDepth(): nat
      reads this
    {
      |outerFrames| + if savedRegisters.Some? then 1 else 0
    }

    method QueueHleWork(cycles: nat)
      modifies this`workFrames
      ensures State() == Queued(old(State()), cycles)
    {
      if cycles != 0 {
        workFrames := workFrames + [WorkFrame(cycles, IrqDepth())];
      }
    }

    /** The charging part of advance_hle_work; None when other steps may run instead. */
    method AdvanceHleWork(horizon: nat, now: nat, lineCycle: nat, latency: nat) returns (charged: Option<nat>)
      requires Settled(State()) && lineCycle < CYCLES_PER_LINE && horizon >= 1
      modifies this`workFrames
      ensures charged.Some? <==> OwesWork(old(State())) && !AtStub(cpu)
      ensures charged.Some? ==>
                && charged.value == SliceCycles(old(workFrames)[|old(workFrames)| - 1].remaining, horizon, now,
                                                lineCycle, latency)
                && charged.value > 0
                && State() == Worked(old(State()), charged.value)
      ensures charged.None? ==> State() == old(State())
    {
      var n := |workFrames| - 1;
      if workFrames == [] || workFrames[n].owner != IrqDepth() {
        return None;
      }
      var pc := cpu.banks.pc;
      if cpu.psr.mode == Irq && (pc == VECTOR || pc == SENTINEL) {
        return None;
      }
      assert workFrames[n].remaining > 0;
      var cycles := SliceCycles(workFrames[n].remaining, horizon, now, lineCycle, latency);
      workFrames := workFrames[n := workFrames[n].(remaining := workFrames[n].remaining - cycles)];
      if workFrames[n].remaining == 0 {
        workFrames := workFrames[..n];
        assert workFrames == old(workFrames)[..n];
      }
      return Some(cycles);
    }

    /** Taking a pending interrupt, with the link latched for the return stub. */
    method ServicePendingIrq(lineActive: bool) returns (serviced: bool)
      requires Shaped(State())
      modifies this
      ensures serviced <==> lineActive && !old(cpu).psr.irqDisabled
      ensures State() == if serviced then Admitted(old(State())) else old(State())
    {
      serviced := lineActive && !cpu.psr.irqDisabled;
      if serviced {
        cpu := Entered(cpu, IrqLine);
        var link := cpu.banks.lr[BankOf(Irq)];
        if link != SENTINEL {
          if returnLr.None? {
            returnLr := Some(link);
          }
        }
      }
    }

    method DispatchIrqVector(handler: Option<u32>) returns (dispatched: bool)
      requires Shaped(State())
      modifies this
      ensures dispatched <==> old(cpu).psr.mode == Irq && old(cpu).banks.pc == VECTOR
                              && handler.Some? && handler.value != 0
      ensures State() == if dispatched then Dispatched(old(State()), handler.value) else old(State())
    {
      if cpu.banks.pc != VECTOR || cpu.psr.mode != Irq || handler.None? || handler.value == 0 {
        return false;
      }
      var irqLink := Link(cpu);
      var nested := returnLr.Some? && savedRegisters.Some? && irqLink != SENTINEL;
      if nested {
        outerFrames := outerFrames + [IrqFrame(returnLr.value, savedRegisters.value)];
      }
      if irqLink != SENTINEL {
        returnLr := Some(irqLink);
      }
      savedRegisters := Some(LowRegisters(cpu));
      cpu := cpu.(psr := cpu.psr.(thumb := handler.value % 2 == 1));
      cpu := WithLink(cpu, SENTINEL);
      cpu := cpu.(banks := cpu.banks.(pc := handler.value - handler.value % 2));
      return true;
    }

    method DispatchIrqReturn(fallback: Option<u32>) returns (handled: bool, executed: bool)
      requires Shaped(State())
      modifies this
      ensures match ReturnedTo(old(State()), fallback)
              case NotHandled => !handled && State() == old(State())
              case Failed(s) => handled && !executed && State() == s
              case Resumed(s) => handled && executed && State() == s
    {
      hide Returned, WithLink, WithLowRegisters;
      if cpu.banks.pc != SENTINEL || cpu.psr.mode != Irq {
        return false, false;
      }
      if returnLr.None? {
        if fallback.Some? && fallback.value != 0 && fallback.value != SENTINEL {
          returnLr := fallback;
        } else {
          return false, false;
        }
      }
      var link := returnLr.value;
      cpu := WithLink(cpu, link);
      if savedRegisters.Some? {
        cpu := WithLowRegisters(cpu, savedRegisters.value);
        savedRegisters := None;
      }
      var resumed := Returned(cpu, ReturnOffset(cpu.banks.spsr[BankOf(Irq)]));
      if resumed.None? {
        return true, false;
      }
      cpu := resumed.value;
      returnLr := None;
      if outerFrames != [] {
        var frame := outerFrames[|outerFrames| - 1];
        outerFrames := outerFrames[..|outerFrames| - 1];
        returnLr, savedRegisters := Some(frame.returnLr), Some(frame.saved);
      }
      return true, true;
    }
  }

  // ---------------------------------------------------------------- what each step keeps

  /** Queuing keeps the stacks acceptable exactly when the depth owes no earlier call. */
  lemma QueueKeeps(s: Hle, cycles: nat)
    requires Acceptable(s)
    ensures Acceptable(Queued(s, cycles)) <==> cycles == 0 || !OwesWork(s)
    ensures Settled(s) && Acceptable(Queued(s, cycles)) ==> Settled(Queued(s, cycles))
  {
    var t := Queued(s, cycles);
    var n := |s.work|;
    if cycles != 0 && OwesWork(s) {
      assert t.work[n - 1].owner == t.work[n].owner;
    } else if cycles != 0 {
      forall i, j | 0 <= i < j < |t.work|
        ensures t.work[i].owner < t.work[j].owner
      {
        if j == n && i < n - 1 {
          assert s.work[i].owner < s.work[n - 1].owner;
        }
      }
    }
  }

  lemma CpuChangeKeeps(s: Hle, cpu: Cpu)
    requires Settled(s) && WellShaped(cpu.banks)
    ensures Settled(s.(cpu := cpu)) && (OwesWork(s.(cpu := cpu)) <==> OwesWork(s))
  {
  }

  lemma WorkKeeps(s: Hle, cycles: nat)
    requires Acceptable(s) && s.work != [] && cycles <= s.work[|s.work| - 1].remaining
    ensures Acceptable(Worked(s, cycles)) && (Settled(s) ==> Settled(Worked(s, cycles)))
  {
  }

  /** The link the exception entry leaves for the interrupted program. */
  function EntryLink(s: Hle): u32
    requires WellShaped(s.cpu.banks)
  {
    (s.cpu.banks.pc + LinkOffset(IrqLine, s.cpu.psr.thumb)) % TWO32
  }

  /** Taking an interrupt and dispatching it puts the interrupted handler's link and registers on
      the stack exactly when the new link is not the sentinel itself. */
  lemma DispatchKeeps(s: Hle, handler: u32)
    requires Settled(s)
    ensures var t := Dispatched(Admitted(s), handler);
            && Shaped(t) && t.work == s.work
            && t.saved == Some(LowRegisters(Admitted(s).cpu))
            && (EntryLink(s) != SENTINEL ==>
                  && Settled(t) && Depth(t) == Depth(s) + 1 && t.returnLr == Some(EntryLink(s))
                  && t.outer == if s.saved.None? then s.outer else s.outer + [IrqFrame(s.returnLr.value, s.saved.value)])
            && (s.saved.Some? && EntryLink(s) == SENTINEL ==> t.outer == s.outer && Depth(t) == Depth(s))
  {
    hide EncodePsr;
    var a := Admitted(s);
    assert Link(a.cpu) == EntryLink(s);
    var t := Dispatched(a, handler);
    hide Entered, WithLink, LowRegisters, LinkOffset;
    assert EntryLink(s) != SENTINEL ==> Depth(t) == Depth(s) + 1;
  }

  /** Taking an interrupt leaves the CPU at the IRQ vector in IRQ mode, where the dispatch fires; the
      handler then runs at its address in the state bit 0 names, with the sentinel as its link and
      every other register as the interrupted program left it. */
  lemma HandlerRuns(s: Hle, handler: u32)
    requires Shaped(s)
    ensures var a := Admitted(s).cpu;
            && a.banks.pc == 0x18 && EncodePsr(a.psr) % 32 == 0x12 && !a.psr.thumb && a.psr.irqDisabled
            && a.banks.lr[BankOf(Irq)] == (s.cpu.banks.pc + if s.cpu.psr.thumb then 2 else 4) % 0x1_0000_0000
    ensures var a, t := Admitted(s).cpu, Dispatched(Admitted(s), handler).cpu;
            && t.banks == a.banks.(pc := t.banks.pc, lr := a.banks.lr[BankOf(Irq) := 0x0FFF_FF00])
            && t.banks.pc == handler - handler % 2 && t.psr == a.psr.(thumb := handler % 2 == 1)
    ensures var a := Admitted(s).cpu;
            a.banks == s.cpu.banks.(pc := 0x18, lr := a.banks.lr, spsr := a.banks.spsr)
            && a.banks.spsr[BankOf(Irq)] == EncodePsr(s.cpu.psr)
  {
    hide EncodePsr;
    VectorMeets(s.cpu, IrqLine);
  }

  /** Returning uncovers the frame below, and keeps the stacks acceptable exactly when the handler
      owes no call. */
  lemma ReturnKeeps(s: Hle)
    requires Settled(s) && s.saved.Some? && ReturnedTo(s, None).Resumed?
    ensures var t := ReturnedTo(s, None).state;
            && Shaped(t) && t.work == s.work && Depth(t) == Depth(s) - 1
            && (Settled(t) <==> !OwesWork(s))
            && (if s.outer == [] then t.returnLr.None? && t.saved.None? && t.outer == []
                else s.outer == t.outer + [IrqFrame(t.returnLr.value, t.saved.value)] && t.returnLr.Some? && t.saved.Some?)
  {
    var t := ReturnedTo(s, None).state;
    ReturnShaped(s);
    hide Returned, WithLink, WithLowRegisters;
    var n := |s.work|;
    if !OwesWork(s) {
      forall i | 0 <= i < n
        ensures s.work[i].owner <= Depth(s) - 1
      {
        assert i < n - 1 ==> s.work[i].owner < s.work[n - 1].owner;
      }
    } else {
      assert t.work[n - 1].owner == Depth(s);
    }
  }

  lemma ReturnShaped(s: Hle)
    requires Shaped(s) && ReturnedTo(s, None).Resumed?
    ensures Shaped(ReturnedTo(s, None).state)
  {
    hide DecodePsr;
  }

  // ---------------------------------------------------------------- well-nested runs

  /** What the scheduler does over time. An instruction may do anything to the CPU and may be a
      call with a deferred cost; an interrupt runs its handler to the return stub. */
  datatype Run =
    | Done
    | Slice(cycles: nat, rest: Run)
    | Instruction(cpu: Cpu, cost: nat, rest: Run)
    | Interrupt(handler: u32, body: Run, rest: Run)

  ghost predicate InterruptStarts(s: Hle, handler: u32)
    requires Shaped(s)
  {
    !s.cpu.psr.irqDisabled && handler != 0 && EntryLink(s) != SENTINEL
  }

  /** The handler is back at the return stub and owes no call of its own. */
  ghost predicate HandlerFinished(s: Hle) {
    s.cpu.psr.mode == Irq && s.cpu.banks.pc == SENTINEL && !OwesWork(s)
  }

  /** The interrupted handlers' links and registers. */
  ghost predicate SameFrames(s: Hle, t: Hle) {
    t.returnLr == s.returnLr && t.saved == s.saved && t.outer == s.outer
  }
  /** A handler that kept the frames uncovers exactly the ones the interrupt covered. */
  lemma InterruptKeeps(s: Hle, handler: u32, end: Hle)
    requires Settled(s) && InterruptStarts(s, handler)
    requires Settled(end) && SameFrames(Dispatched(Admitted(s), handler), end)
    requires HandlerFinished(end) && ReturnedTo(end, None).Resumed?
    ensures var t := ReturnedTo(end, None).state;
            Settled(t) && SameFrames(s, t) && t.work == end.work
  {
    hide Admitted, Dispatched, ReturnedTo, EntryLink;
    DispatchKeeps(s, handler);
    ReturnKeeps(end);
    if s.saved.Some? {
      var t := ReturnedTo(end, None).state;
      assert end.outer[..|s.outer|] == s.outer && end.outer[..|s.outer|] == t.outer;
      assert end.outer[|s.outer|] == IrqFrame(s.returnLr.value, s.saved.value);
    }
  }

  /** The state after a run, or None where the scheduler would not take one of its steps. While the
      current depth owes work and the CPU is not at a stub, only slices and interrupts happen. */
  ghost function Execute(s: Hle, run: Run): (r: Option<Hle>)
    requires Settled(s)
    ensures r.Some? ==> Settled(r.value) && SameFrames(s, r.value)
    decreases run
  {
    match run
    case Done => Some(s)
    case Slice(cycles, rest) =>
      if OwesWork(s) && !AtStub(s.cpu) && 1 <= cycles <= s.work[|s.work| - 1].remaining
      then WorkKeeps(s, cycles); Execute(Worked(s, cycles), rest)
      else None
    case Instruction(cpu, cost, rest) =>
      if !OwesWork(s) && !AtStub(s.cpu) && WellShaped(cpu.banks)
      then QueueKeeps(s.(cpu := cpu), cost); Execute(Queued(s.(cpu := cpu), cost), rest)
      else None
    case Interrupt(handler, body, rest) =>
      if !InterruptStarts(s, handler) then None
      else
        DispatchKeeps(s, handler);
        match Execute(Dispatched(Admitted(s), handler), body)
        case None => None
        case Some(end) =>
          if HandlerFinished(end) && ReturnedTo(end, None).Resumed?
          then InterruptKeeps(s, handler, end); Execute(ReturnedTo(end, None).state, rest)
          else None
  }

  // ---------------------------------------------------------------- what runs conserve

  /** Costs queued by a run's calls. */
  function Incurred(run: Run): nat {
    match run
    case Done => 0
    case Slice(_, rest) => Incurred(rest)
    case Instruction(_, cost, rest) => cost + Incurred(rest)
    case Interrupt(_, body, rest) => Incurred(body) + Incurred(rest)
  }

  /** Cycles charged by a run's slices. */
  function Charged(run: Run): nat {
    match run
    case Done => 0
    case Slice(cycles, rest) => cycles + Charged(rest)
    case Instruction(_, _, rest) => Charged(rest)
    case Interrupt(_, body, rest) => Charged(body) + Charged(rest)
  }

  function Owed(work: seq<WorkFrame>): nat
    decreases |work|
  {
    if work == [] then 0 else Owed(work[..|work| - 1]) + work[|work| - 1].remaining
  }

  /** The calls made at depths below `depth`. */
  function Below(work: seq<WorkFrame>, depth: nat): seq<WorkFrame>
    decreases |work|
  {
    if work == [] then [] else if work[|work| - 1].owner >= depth then Below(work[..|work| - 1], depth) else work
  }

  /** Every call's cost is charged exactly once: what a run queues is what it charges plus the
      change in what is still owed, however interrupts cut the calls up. */
  lemma {:induction false} ChargedOnce(s: Hle, run: Run)
    requires Settled(s) && Execute(s, run).Some?
    ensures Owed(s.work) + Incurred(run) == Owed(Execute(s, run).value.work) + Charged(run)
    decreases run
  {
    hide LoaderAccepts, EntryLink, Returned, Entered;
    match run
    case Done =>
    case Slice(cycles, rest) =>
      WorkKeeps(s, cycles);
      WorkedOwes(s, cycles);
      hide Worked;
      ChargedOnce(Worked(s, cycles), rest);
    case Instruction(cpu, cost, rest) =>
      CpuChangeKeeps(s, cpu);
      QueueKeeps(s.(cpu := cpu), cost);
      QueuedOwes(s.(cpu := cpu), cost);
      hide Queued;
      ChargedOnce(Queued(s.(cpu := cpu), cost), rest);
    case Interrupt(handler, body, rest) =>
      var begin := Dispatched(Admitted(s), handler);
      DispatchKeeps(s, handler);
      var end := Execute(begin, body).value;
      InterruptKeeps(s, handler, end);
      hide Dispatched, Admitted, ReturnedTo;
      ChargedOnce(begin, body);
      ChargedOnce(ReturnedTo(end, None).state, rest);
  }

  lemma WorkedOwes(s: Hle, cycles: nat)
    requires s.work != [] && cycles <= s.work[|s.work| - 1].remaining
    ensures Owed(s.work) == Owed(Worked(s, cycles).work) + cycles
    ensures forall depth: nat :: depth <= s.work[|s.work| - 1].owner ==>
              Below(Worked(s, cycles).work, depth) == Below(s.work, depth)
  {
    var n := |s.work| - 1;
    var after := Worked(s, cycles).work;
    if after != s.work[..n] {
      assert after[..n] == s.work[..n];
    }
  }

  lemma QueuedOwes(s: Hle, cycles: nat)
    ensures Owed(Queued(s, cycles).work) == Owed(s.work) + cycles
    ensures forall depth: nat :: depth <= Depth(s) ==> Below(Queued(s, cycles).work, depth) == Below(s.work, depth)
  {
    var after := Queued(s, cycles).work;
    if cycles != 0 {
      assert after[..|s.work|] == s.work;
    }
  }

  /** A handler never touches the calls it interrupted. */
  lemma {:induction false} InterruptedCallsWait(s: Hle, run: Run, depth: nat)
    requires Settled(s) && Execute(s, run).Some? && depth <= Depth(s)
    ensures Below(Execute(s, run).value.work, depth) == Below(s.work, depth)
    decreases run
  {
    hide LoaderAccepts, EntryLink, Returned, Entered;
    match run
    case Done =>
    case Slice(cycles, rest) =>
      WorkKeeps(s, cycles);
      WorkedOwes(s, cycles);
      hide Worked;
      InterruptedCallsWait(Worked(s, cycles), rest, depth);
    case Instruction(cpu, cost, rest) =>
      CpuChangeKeeps(s, cpu);
      QueueKeeps(s.(cpu := cpu), cost);
      QueuedOwes(s.(cpu := cpu), cost);
      hide Queued;
      InterruptedCallsWait(Queued(s.(cpu := cpu), cost), rest, depth);
    case Interrupt(handler, body, rest) =>
      var begin := Dispatched(Admitted(s), handler);
      DispatchKeeps(s, handler);
      var end := Execute(begin, body).value;
      InterruptKeeps(s, handler, end);
      hide Dispatched, Admitted, ReturnedTo;
      InterruptedCallsWait(begin, body, depth);
      InterruptedCallsWait(ReturnedTo(end, None).state, rest, depth);
  }

  /** After a whole interrupt the program has r0-r12 and its return address back, and every frame
      below is as it was; with the handler's SPSR left alone it also has its flags and PC. */
  lemma InterruptRestores(s: Hle, handler: u32, body: Run)
    requires Settled(s) && Execute(s, Interrupt(handler, body, Done)).Some?
    ensures var begin, t := Dispatched(Admitted(s), handler), Execute(s, Interrupt(handler, body, Done)).value;
            && Settled(begin) && Execute(begin, body).Some?
            && var end := Execute(begin, body).value;
               && WellShaped(end.cpu.banks)
               && SameFrames(s, t)
               && Below(t.work, Depth(s) + 1) == Below(s.work, Depth(s) + 1)
               && WellShaped(t.cpu.banks)
               && t.cpu.banks.low == s.cpu.banks.low && t.cpu.banks.high == s.cpu.banks.high
               && t.cpu.banks.pc == (EntryLink(s) - ReturnOffset(end.cpu.banks.spsr[BankOf(Irq)])) % TWO32
               && (end.cpu.banks.spsr[BankOf(Irq)] == EncodePsr(s.cpu.psr) ==>
                     t.cpu.psr == s.cpu.psr && t.cpu.banks.pc == s.cpu.banks.pc)
  {
    DispatchKeeps(s, handler);
    var begin := Dispatched(Admitted(s), handler);
    var end := Execute(begin, body).value;
    InterruptKeeps(s, handler, end);
    InterruptedCallsWait(begin, body, Depth(s) + 1);
    SavedLow(s);
    ReturnDetail(s, end);
  }

  lemma SavedLow(s: Hle)
    requires WellShaped(s.cpu.banks)
    ensures LowRegisters(Admitted(s).cpu) == s.cpu.banks.low + s.cpu.banks.high
  {
    hide EncodePsr;
  }

  lemma ReturnDetail(s: Hle, end: Hle)
    requires Shaped(s) && Shaped(end) && HandlerFinished(end) && ReturnedTo(end, None).Resumed?
    requires end.saved == Some(s.cpu.banks.low + s.cpu.banks.high) && end.returnLr == Some(EntryLink(s))
    ensures var t := ReturnedTo(end, None).state;
            && t.cpu.banks.low == s.cpu.banks.low && t.cpu.banks.high == s.cpu.banks.high
            && t.cpu.banks.pc == (EntryLink(s) - ReturnOffset(end.cpu.banks.spsr[BankOf(Irq)])) % TWO32
            && (end.cpu.banks.spsr[BankOf(Irq)] == EncodePsr(s.cpu.psr) ==>
                  t.cpu.psr == s.cpu.psr && t.cpu.banks.pc == s.cpu.banks.pc)
  {
    PsrRoundTrip(s.cpu.psr);
    OffsetUndone(s.cpu.banks.pc, LinkOffset(IrqLine, s.cpu.psr.thumb));
    ThumbFlag(s.cpu.psr);
    hide EncodePsr, DecodePsr, Depth;
  }

  lemma ThumbFlag(p: Psr)
    ensures ReturnOffset(EncodePsr(p)) == LinkOffset(IrqLine, p.thumb)
  {
    PsrRoundTrip(p);
    hide EncodePsr;
  }

  // ---------------------------------------------------------------- every run

  /** The steps the scheduler can take, in any order, nested or not. */
  datatype Step =
    | SliceStep(cycles: nat)
    | InstructionStep(cpu: Cpu, cost: nat)
    | AdmitStep
    | DispatchStep(handler: u32)
    | ReturnStep(fallback: Option<u32>)

  /** The state after a step, or None where the scheduler does not take it. Instructions run unless
      work is owed away from the stubs; a failed return stops the run. */
  ghost function Taken(s: Hle, step: Step): (r: Option<Hle>)
    requires Shaped(s)
  {
    match step
    case SliceStep(cycles) =>
      if OwesWork(s) && !AtStub(s.cpu) && 1 <= cycles <= s.work[|s.work| - 1].remaining then Some(Worked(s, cycles))
      else None
    case InstructionStep(cpu, cost) =>
      if (!OwesWork(s) || AtStub(s.cpu)) && WellShaped(cpu.banks) then Some(Queued(s.(cpu := cpu), cost)) else None
    case AdmitStep => if s.cpu.psr.irqDisabled then None else Some(Admitted(s))
    case DispatchStep(handler) =>
      if s.cpu.psr.mode == Irq && s.cpu.banks.pc == VECTOR && handler != 0 then Some(Dispatched(s, handler)) else None
    case ReturnStep(fallback) =>
      var result := ReturnedTo(s, fallback);
      if result.Resumed? then Some(result.state) else None
  }

  /** No call is queued, and no handler left, while the current depth owes an earlier call. */
  predicate Orderly(s: Hle, step: Step) {
    match step
    case InstructionStep(_, cost) => cost == 0 || !OwesWork(s)
    case ReturnStep(_) => s.saved.None? || !OwesWork(s)
    case _ => true
  }

  /** Every step keeps the two stacks acceptable to the loader if and only if it is orderly. */
  lemma StepKeeps(s: Hle, step: Step)
    requires Acceptable(s) && Taken(s, step).Some?
    ensures Acceptable(Taken(s, step).value) <==> Orderly(s, step)
  {
    hide Returned, WithLink, WithLowRegisters, LowRegisters, Entered, LinkOffset;
    match step
    case SliceStep(cycles) => WorkKeeps(s, cycles);
    case InstructionStep(cpu, cost) => QueueKeeps(s.(cpu := cpu), cost);
    case AdmitStep =>
    case DispatchStep(handler) => DispatchKeepsAcceptable(s, handler);
    case ReturnStep(fallback) => ReturnKeepsAcceptable(s, fallback);
  }

  lemma DispatchKeepsAcceptable(s: Hle, handler: u32)
    requires Acceptable(s)
    ensures Acceptable(Dispatched(s, handler))
  {
    var t := Dispatched(s, handler);
    hide WithLink, LowRegisters;
    assert Depth(t) >= Depth(s);
  }

  lemma ReturnKeepsAcceptable(s: Hle, fallback: Option<u32>)
    requires Acceptable(s) && ReturnedTo(s, fallback).Resumed?
    ensures Acceptable(ReturnedTo(s, fallback).state) <==> s.saved.None? || !OwesWork(s)
  {
    ReturnKeepsShape(s, fallback);
    hide Returned, WithLink, WithLowRegisters;
    var t := ReturnedTo(s, fallback).state;
    var n := |s.work|;
    if s.saved.Some? && OwesWork(s) {
      assert t.work[n - 1].owner > Depth(t);
    } else {
      forall i | 0 <= i < n
        ensures s.work[i].owner <= Depth(t)
      {
        assert i < n - 1 ==> s.work[i].owner < s.work[n - 1].owner;
      }
    }
  }

  lemma ReturnKeepsShape(s: Hle, fallback: Option<u32>)
    requires Shaped(s) && ReturnedTo(s, fallback).Resumed?
    ensures Shaped(ReturnedTo(s, fallback).state) && ReturnedTo(s, fallback).state.work == s.work
  {
    hide DecodePsr;
  }

  /** The state after a run of steps that are all taken. */
  ghost function RunSteps(s: Hle, steps: seq<Step>): (r: Option<Hle>)
    requires Acceptable(s)
    ensures r.Some? ==> Acceptable(r.value)
    decreases |steps|
  {
    if steps == [] then Some(s)
    else if Taken(s, steps[0]).None? || !Orderly(s, steps[0]) then None
    else
      StepKeeps(s, steps[0]);
      RunSteps(Taken(s, steps[0]).value, steps[1..])
  }

  function StepIncurs(step: Step): nat {
    if step.InstructionStep? then step.cost else 0
  }

  function StepCharges(step: Step): nat {
    if step.SliceStep? then step.cycles else 0
  }

  function Total(steps: seq<Step>, of: Step -> nat): nat
    decreases |steps|
  {
    if steps == [] then 0 else of(steps[0]) + Total(steps[1..], of)
  }

  /** In every orderly run, nested or not, each queued cost is charged exactly once, in slices of at
      least one cycle, and the owners' depths keep strictly increasing up the stack. */
  lemma {:induction false} EveryRunCharges(s: Hle, steps: seq<Step>)
    requires Acceptable(s) && RunSteps(s, steps).Some?
    ensures var t := RunSteps(s, steps).value;
            && Owed(s.work) + Total(steps, StepIncurs) == Owed(t.work) + Total(steps, StepCharges)
            && LoaderAccepts(t)
    decreases |steps|
  {
    if steps != [] {
      StepKeeps(s, steps[0]);
      StepCharge(s, steps[0]);
      hide Taken, Acceptable, Orderly;
      EveryRunCharges(Taken(s, steps[0]).value, steps[1..]);
    }
  }

  lemma StepCharge(s: Hle, step: Step)
    requires Acceptable(s) && Taken(s, step).Some?
    ensures Owed(s.work) + StepIncurs(step) == Owed(Taken(s, step).value.work) + StepCharges(step)
  {
    hide Returned, WithLink, WithLowRegisters, LowRegisters, Entered, LinkOffset;
    match step
    case SliceStep(cycles) => WorkedOwes(s, cycles);
    case InstructionStep(cpu, cost) => QueuedOwes(s.(cpu := cpu), cost);
    case AdmitStep =>
    case DispatchStep(_) =>
    case ReturnStep(fallback) => ReturnKeepsShape(s, fallback);
  }
}
