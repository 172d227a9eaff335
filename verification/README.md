# A verified model of the emulator's deterministic core

This project models the parts of the Game Boy Advance emulator that have to be exact, as state
machines in Dafny, and proves for each of them that its fast form does what its simple form
says, over every input, every run or every reachable state. `dafny verify dfyconfig.toml` checks
all of it.

## What is modelled

**Device time** (`Interrupts`, `TimerModel`, `TimerWindow`, `TimerChain`, `TimerSweep`,
`TimerCounts`, `TimerUnit`, `TimerSnapshots`, `Ppu`, `PpuEdges`, `Serial`, `Devices`,
`WakeHorizon`, `IntrWait`, `Scheduler`). The reference form is one cycle at a time: each device
has a single-cycle step, and `Devices.Run` runs all of them. `Timers::tick` computes prescaler
ticks, overflows and cascades in closed form; the proof goes through flows of pulses along the
cascade wires, and ends with `tick(n)` being n single-cycle steps. `PpuTiming::tick` and the
serial port jump from edge to edge. The single-cycle forms themselves are counted in closed form,
from positions and cycle numbers alone: which interrupts, overflows and events any number of
cycles brings. `advance_devices` cuts time at PPU edges and interleaves DMA, whose bus cycles and
register writes are an arbitrary script; every request it makes and every cycle it charges is
accounted for. On top of it `wait_for_interrupt_mask` jumps in batches; no batch contains a wake
edge strictly inside, so the wait is one-cycle polling as long as no DMA moves anything meanwhile.

**Multiplier** (`Words`, `Multiplier`, `LongMultiply`). The bit-level Booth and carry-save array
of MULL and MLAL, with its early exit, 128-bit shift registers and final rotation, computes the
arithmetic product plus accumulator modulo 2^64 in exactly the iterations the timing code
charges. The invariant is one balance between retired bits, carry-save words, unused accumulator
bits and the Booth digits still to come.

**Register banks and block transfers** (`CpuState`, `Arm7`, `BlockTransfer`). The live register
file and its bank storage refine a view of all banks at once. Mode switches change no register,
exception return undoes exception entry, and matching block transfers and PUSH/POP pairs restore
registers and base. A program interrupted in the handler's own mode loses its link register; the
exact condition is stated.

**HLE nesting** (`HleNesting`). Interrupt frames and deferred call costs are two stacks. Every
orderly run charges each queued cost exactly once, and in every well-nested run each return
restores the registers its dispatch saved and leaves interrupted calls alone. A step keeps the two
stacks acceptable to the snapshot loader if and only if it is orderly: `advance_hle_work` declines
to run at the two stub addresses, so a call queued there, or a return taken there with work of its
own depth outstanding, would break them.

**LZ77** (`Lz77`). The reference is a list of tokens and its serialisation in groups of eight
behind a flag byte. A block decompresses if and only if it is the serialisation of a valid list.

**Storage** (`AtomicFile`, `Flash`, `Dma`, `DmaTrace`, `DmaSnapshots`, `DmaAddresses`). File
replacement is a sequence of file-system calls any of which may fail and after any of which the
process may stop; which of them it survives is stated exactly. The flash chip's command machine is
related to the history of writes. The DMA controller's snapshot invariants are kept by every
register write and FIFO request. Its transfers may write its own registers; the trace of the control
writes a run makes decides, in both directions, whether a snapshot taken after it loads. Where a
transfer reads and writes follows from its control bits and the unit number.

**Presentation** (`Compositor`, `Raster`). Object admission within the line's work budget, object
ownership of columns, the two layers a pixel is mixed from, and publication of whole frames only.

**Streams** (`Ring`, `Apu`, `SoundUnit`, `Sha256`). Drop-oldest ring buffers, sound generators and
their clocking, and streaming SHA-256 with the compression step as a parameter.

## Where the code keeps less than it promises

- `apps/desktop/desktop_persistence.hpp:107-130`: `exists` reports an error as absence. When the
  probe of an existing target fails beside a different `.old` file, or the probe of an orphaned
  `.old` file fails, a later failing call loses the old content. `AtomicFile.SafeExactly` gives
  the exact condition.
- `src/core/dma_controller.cpp:385-409, 548-571`: a transfer can write control registers, and three
  patterns of such writes leave a state that a snapshot does not reproduce. A transfer
  that disables its own channel and leaves a recurring repeat re-arms a disabled channel
  (`DmaSnapshots.SelfDisable`); a recurring one that selects immediate start for its own channel
  leaves the pending flag up for nobody (`DmaSnapshots.StaleFlag`); an immediate one that arms a
  lower channel leaves that channel armed with the flag down (`DmaSnapshots.FlagMissesRequest`).
  All other transfers onto the DMA registers are harmless: `DmaSnapshots.RunKeepsExactly` and
  `DmaSnapshots.SnapshotsLoad` are equivalences. The flag gates fast paths only
  (`src/core/core_scheduler.cpp:1790, 2018, 3196, 3228, 3377`), and the next immediate run serves
  the armed channel whatever the flag says (`DmaSnapshots.NextRunServes`).
- `src/core/core_scheduler.cpp:2906-2918`: for a VCOUNT setting of 228 or more, which no line has, the
  wake horizon is the distance to the line 228 lower, where nothing fires (`WakeHorizon.OffScreenSetting`).
  The wait only stops to look there. `WakeHorizon.PpuHorizonExact` says exactly when a PPU horizon
  ends on an interrupt.
- `src/core/apu.cpp:200-201`: the cycle remainders are 32-bit, so a single tick close to 2^32
  cycles loses a whole turn that two shorter ticks would not (`Apu.LongTickLoses`).
  `Apu.TickSplits` is an equivalence, and `Apu.ShortTicksSplit` covers all totals up to
  2^32 - 32768. The program never ticks that long: its only call passes intervals cut at PPU edges
  (`src/core/core_scheduler.cpp:1657`).
- `src/core/core_scheduler.cpp:2592-2598`: an interrupt whose link value equals the return sentinel
  does not push the interrupted handler's frame (`HleNesting.DispatchKeeps`). That takes an
  interrupt inside a handler with the PC at 0x0FFFFEFC in ARM state, in the cartridge save range, so
  that the link is 0x0FFFFF00.

## Model

| member | source | states |
|---|---|---|
| `TimerWindow.WindowIsPolling` | src/core/timers.cpp:95-150 | one tick of n cycles leaves the counters, overflow counts, IF bits and earliest interrupt cycle that n single-cycle steps leave, through prescalers, reloads, cascades and the one-cycle enable delay |
| `TimerWindow.WindowSplits` | src/core/timers.cpp:95-150 | tick(a) then tick(b) is tick(a + b) in every reachable bank of timers |
| `TimerWindow.WindowFirst` | src/core/timers.cpp:95-150 | the reported first interrupt exists exactly when one was raised, and lies inside the window |
| `TimerModel.FlowJoined` | src/core/timers.cpp:291-340 | pulses split into two batches give the same counters, overflows and interrupts as the two batches in turn, along every cascade |
| `TimerChain.TicksClosedForm` | src/core/timers.cpp:95-150 | the computed first tick and tick count are exactly the prescaler multiples inside the window |
| `TimerChain.DriveWrap` | src/core/timers.cpp:316-340 | one wrapping pulse reloads the timer, counts and requests its overflow, and passes exactly one pulse up the cascade, unless the listener is still deaf |
| `TimerSweep.SweepRoot` | src/core/timers.cpp:95-150 | visiting the timers in index order and driving each free-running one through its own cascade is the same as all of them counting together |
| `TimerUnit.Timers.Tick` | src/core/timers.cpp:95-150 | tick is cycle-by-cycle polling of all four timers: contents, requested interrupts and the first interrupt relative to the call; TimerCounts.PollCounted says in numbers what that polling leaves |
| `TimerUnit.Timers.IncrementTimer` | src/core/timers.cpp:291-314 | the jump-to-overflow loop feeds every pulse of an arithmetic progression to the timer and its cascade |
| `TimerUnit.Timers.HandleOverflow` | src/core/timers.cpp:316-340 | an overflow is counted, requested and passed on to the count-up timer above |
| `TimerUnit.Timers.WriteControl` | src/core/timers.cpp:60-85 | enabling latches the reload value and starts the enable delay; disabling clears the bookkeeping |
| `TimerUnit.Timers.WriteReload` | src/core/timers.cpp:56-58 | only the reload register changes |
| `TimerUnit.Timers.DeferNewlyEnabledTicks` | src/core/timers.cpp:87-93 | only timers enabled since the last tick have their delay moved |
| `TimerUnit.Timers.CyclesUntilNextPrescalerTick` | src/core/timers.cpp:244-253 | the distance to the next prescaler multiple, or 0 for a timer that does not run freely yet |
| `TimerUnit.Timers.SaveState` | src/core/timers.cpp:152-168 | a snapshot holds every timer without its enable cycle, and the cycle counter |
| `TimerUnit.Timers.LoadState` | src/core/timers.cpp:170-210 | a snapshot loads exactly when it passes all checks; a rejected one changes nothing |
| `TimerUnit.ControlRoundTrip` | src/core/timers.cpp:60-85 | decoding an encoded control register gives the control back, with no stray bits for the loader to reject |
| `TimerCounts.PollCounted` | src/core/timers.cpp:22-150 | after n cycles every timer shows its counter plus the pulses received, wrapped into reload..0xFFFF, and one overflow per wrap; a free-running timer receives the multiples of 1, 64, 256 or 1024 in the interval, a count-up timer the overflows below it, both from the end of the enable delay on; a timer interrupt is raised if and only if it is enabled and the timer overflowed |
| `TimerCounts.StartedTimer` | src/core/timers.cpp:56-150 | the same from the register writes: a timer switched on starts at the reload value, misses one cycle, and overflows with the period bits 0 and 1 select |
| `TimerCounts.CountedStep` | src/core/timers.cpp:291-340 | one more cycle adds the pulse, the overflow and the timer state that the single-cycle step adds, along the cascade |
| `TimerSnapshots.ReachableFromReset` | src/core/timers.cpp:60-93 | in every state reached from reset a running enable delay implies the timer was enabled at the current cycle |
| `TimerSnapshots.SavedLoads` | src/core/timers.cpp:152-210 | every reachable state saves to a snapshot that loads |
| `TimerSnapshots.RunAlike` | src/core/timers.cpp:95-210 | two machines that differ only in remembered enable cycles stay so, with equal outputs, under every history of operations |
| `TimerSnapshots.SnapshotIsTransparent` | src/core/timers.cpp:152-210 | saving and loading at any point of any history changes no later counter, overflow, interrupt or result |
| `Interrupts.InterruptController.WriteInterruptFlags` | src/core/interrupt_controller.cpp:45-48 | IF is write-one-to-clear |
| `Interrupts.InterruptController.Request` | src/core/interrupt_controller.cpp:58-61 | a request sets exactly its own supported flag |
| `Interrupts.InterruptController.PendingMask` | src/core/interrupt_controller.cpp:71-73 | pending sources are those both enabled and requested |
| `Ppu.PollRasterSplits` | src/core/ppu_timing.cpp:179-197 | polling the raster a cycles and then b cycles is polling it a + b cycles: position, interrupts and event counts |
| `Ppu.BeamPosition` | src/core/ppu_timing.cpp:179-197 | after any number of cycles the beam is where the frame position modulo the frame length says |
| `Ppu.SegmentStep` | src/core/ppu_timing.cpp:179-323 | jumping to the next HBlank or line boundary gives the events and interrupts of the single cycles jumped over |
| `Ppu.PpuTiming.Tick` | src/core/ppu_timing.cpp:179-197 | tick is cycle-by-cycle polling of the beam, its HBlank, VBlank and VCOUNT interrupts and its event counts; PpuEdges.PollClosedForm says in numbers what that polling brings |
| `Ppu.CompletedWithin` | src/core/core_scheduler.cpp:1546-1669 | a stretch that crosses no visible edge completes a line only at its end |
| `PpuEdges.PollClosedForm` | src/core/ppu_timing.cpp:179-323 | in n cycles from a frame position VBLANK is raised if and only if it is enabled and cycle 160 * 1232 of the frame is passed, HBLANK likewise for cycle 1004 of a line, VCOUNT for the start of line `setting` if there is such a line; the three event counts are the numbers of these passages, HBlanks of visible lines only |
| `PpuEdges.LinesCompleted` | src/core/ppu_timing.cpp:179-323 | the visible lines completed in n cycles are the next ones in turn, one for each cycle 960 of a visible line passed |
| `PpuEdges.EventsAre` | src/core/ppu_timing.cpp:288-323 | the DMA events of n cycles are as many as the passages of HBlank on visible lines and of VBlank |
| `Serial.PollTransfer` | src/core/io_registers.cpp:305-319 | a transfer counts down and completes once, requesting its interrupt only if enabled |
| `Serial.SerialPort.Tick` | src/core/io_registers.cpp:305-319 | the subtraction is cycle-by-cycle polling of the port |
| `Serial.SerialPort.WriteSiocnt` | src/core/io_registers.cpp:536-545 | the SIOCNT write arms exactly the transfers the mode table gives a duration |
| `Serial.TransferTakes` | src/core/io_registers.cpp:305-319 | a SIOCNT write starts a transfer exactly with start bit, internal clock and a normal mode; it ends, with bit 7 of IF if enabled, after 104, 296, 552 or 2088 cycles |
| `Devices.BatchIsRun` | src/core/core_scheduler.cpp:1546-1669 | ticking timers, serial port and PPU once each for n cycles is n single cycles of all of them together |
| `Scheduler.CoreScheduler.AdvanceInterval` | src/core/core_scheduler.cpp:1546-1669 | one interval, cut at a PPU edge, ticks every device by the interval and reports a completed line once; while requests are allowed and a channel stays armed it makes exactly one per HBlank of a visible line, one per VBlank and those the FIFO levels ask for at overflows of timers 0 and 1, and returns the sum of what they cost |
| `Scheduler.CoreScheduler.AdvanceDevices` | src/core/core_scheduler.cpp:1546-1669 | terminates for every DMA script; every device is ticked exactly cycles + DMA bus cycles; the observer sees each completed visible line once, in order; the turns it returns account for every request made and every cycle charged, outstanding DMA time first, with at most one request per edge and FIFO demand passed; when every DMA request made is idle it is the single-cycle run, and while a channel stays armed exactly those requests are made |
| `Scheduler.FirstSplits` | src/core/core_scheduler.cpp:1546-1669 | the first timer interrupt of adjoining intervals is the first one of their union |
| `Scheduler.CoreScheduler.TakeTurn` | src/core/core_scheduler.cpp:1546-1669 | one turn of the loop spends outstanding DMA time before the CPU's, lets DMA time set off further requests up to sixteen times the cost of those that caused it, and keeps the account |
| `Scheduler.CoreScheduler.RequestsBounded` | src/core/core_scheduler.cpp:1546-1669 | no sequence of turns makes more requests than the edges and overflows it passes, and one without DMA time makes exactly those |
| `WakeHorizon.PpuStep` | src/core/core_scheduler.cpp:2876-2920 | while the PPU horizon exceeds one cycle no watched PPU interrupt fires in the next cycle, and the horizon shrinks by at most one |
| `WakeHorizon.PpuHorizonFires` | src/core/core_scheduler.cpp:2876-2920 | a PPU horizon below 64 ends on a watched interrupt, unless VCOUNT is watched with a setting that no line has |
| `WakeHorizon.PpuHorizonExact` | src/core/core_scheduler.cpp:2876-2920 | a PPU horizon below 64 ends on a watched interrupt if and only if it is not such a setting that alone makes it that short |
| `WakeHorizon.OffScreenSetting` | src/core/core_scheduler.cpp:2900-2920 | with VCOUNT setting 230 a horizon of 32 cycles ends where nothing fires |
| `WakeHorizon.TimerStep` | src/core/core_scheduler.cpp:2922-2960 | the same for timers: an interrupt of a watched timer, cascaded or not, needs the earliest free-running overflow at or below it |
| `WakeHorizon.SerialStep` | src/core/core_scheduler.cpp:2962-2973 | the same for the serial port |
| `WakeHorizon.SerialHorizonFires` | src/core/core_scheduler.cpp:2962-2973 | a serial horizon is exactly the distance to the interrupt of a running transfer |
| `WakeHorizon.BatchStep` | src/core/core_scheduler.cpp:2975-2980 | a batch longer than one cycle starts with a cycle in which nothing watched fires, and leaves a batch at most one shorter |
| `WakeHorizon.BatchStopsAtEdge` | src/core/core_scheduler.cpp:2975-2980 | no watched interrupt is requested strictly inside a batch |
| `IntrWait.BatchSkipsPolls` | src/core/core_scheduler.cpp:2982-3012 | skipping a batch of polls does not change the result, the cycle count or the device state of the polling wait |
| `IntrWait.PollWaitIsFirst` | src/core/core_scheduler.cpp:2982-3012 | polling stops at the first cycle with a watched flag set, or when the budget is spent |
| `Scheduler.CoreScheduler.IntrWaitPpuHorizonCycles` | src/core/core_scheduler.cpp:2876-2920 | computes the PPU horizon the edge lemmas are about |
| `Scheduler.CoreScheduler.IntrWaitTimerHorizonCycles` | src/core/core_scheduler.cpp:2922-2960 | computes the timer horizon the edge lemmas are about |
| `Scheduler.CoreScheduler.IntrWaitSerialHorizonCycles` | src/core/core_scheduler.cpp:2962-2973 | computes the serial horizon |
| `Scheduler.CoreScheduler.IntrWaitBatchCycles` | src/core/core_scheduler.cpp:2975-2980 | computes the clamped minimum of the three horizons |
| `Scheduler.CoreScheduler.WaitForInterruptMask` | src/core/core_scheduler.cpp:2982-3012 | the batched wait returns the result, cycle count, device state and flags of one-cycle polling, for every mask, whenever the DMA requests made on the way, if any, are idle; with no channel enabled none is made |
| `Words.CarrySave` | src/core/arm7tdmi.cpp:168-172 | the two words of a carry-save adder sum to its three addends |
| `Multiplier.BoothDigit` | src/core/arm7tdmi.cpp:138-166 | a recoded chunk stands for its Booth digit times the multiplicand, on 34 bits, with the negation carry |
| `Multiplier.RowSum` | src/core/arm7tdmi.cpp:174-206 | one carry-save row keeps the represented sum: old value plus digit times multiplicand equals the two retired bit pairs plus four times the new value |
| `Multiplier.DigitsTelescope` | src/core/arm7tdmi.cpp:174-206 | the four Booth digits of a byte add up to the byte, corrected by the bits on either side |
| `Multiplier.MultiplyCsaCycle` | src/core/arm7tdmi.cpp:174-206 | four rows consume eight multiplier bits: the balance of retired bits, carry-save words, accumulator and remaining multiplier is kept |
| `LongMultiply.ConservedStart` | src/core/arm7tdmi.cpp:213-278 | loading the accumulator and the low digit establishes the balance |
| `LongMultiply.ConservedStep` | src/core/arm7tdmi.cpp:213-278 | each iteration keeps the balance |
| `LongMultiply.IterationsExact` | src/core/arm7tdmi.cpp:549-573 | the early exit happens after exactly the iterations the timing code charges |
| `LongMultiply.FinishShort` | src/core/arm7tdmi.cpp:213-278 | assembling the shift registers after an early exit gives the balance modulo 2^64 |
| `LongMultiply.FinishFull` | src/core/arm7tdmi.cpp:213-278 | assembling them after four iterations gives the balance modulo 2^64 |
| `LongMultiply.MultiplyLongOutput` | src/core/arm7tdmi.cpp:213-278 | the bit-level array computes rm * rs + accumulator modulo 2^64, signed and unsigned, in exactly the charged iterations |
| `LongMultiply.ExecuteMultiplyLong` | src/core/arm7tdmi.cpp:2893-2921 | the arithmetic result written to RdHi:RdLo and the array output agree and are the product plus the accumulated value modulo 2^64; with S, N and Z describe it and carry is the array's |
| `CpuState.PsrRoundTrip` | src/core/arm7tdmi.cpp:2331-2372 | decoding the status word of any flags and mode gives them back |
| `CpuState.ReturnUndoesEntry` | src/core/arm7tdmi.cpp:3312-3369 | a return with the link offset used at entry restores all banks, PC and flags except the handler bank's own link register and SPSR, for every exception but reset |
| `CpuState.ProgramRestored` | src/core/arm7tdmi.cpp:3312-3369 | the interrupted program gets all sixteen registers and its flags back if and only if it ran in another bank than the handler or its link register already held the new link |
| `CpuState.VectorTable` | src/core/arm7tdmi.cpp:3312-3355 | the seven exceptions by address, mode, link offset and masked interrupts: each enters ARM state with IRQs masked and the flags kept, and all but reset save the old status word |
| `CpuState.SharedRegisters` | src/core/arm7tdmi.cpp:2444-2518 | two modes see the same register if and only if it is r0-r7 or the PC, r8-r12 outside FIQ, or SP or LR of user and system mode |
| `Arm7.Arm7tdmi.SaveBankedRegisters` | src/core/arm7tdmi.cpp:2444-2482 | exactly the current mode's bank slots receive r8-r14 |
| `Arm7.Arm7tdmi.LoadBankedRegisters` | src/core/arm7tdmi.cpp:2484-2518 | r8-r14 receive exactly the current mode's bank slots |
| `Arm7.Arm7tdmi.SwitchMode` | src/core/arm7tdmi.cpp:2520-2527 | no register of any bank changes its value; only the mode does |
| `Arm7.Arm7tdmi.Cpsr` | src/core/arm7tdmi.cpp:2331-2355 | the status word decodes to the current flags and mode, so writing it back is the identity |
| `Arm7.Arm7tdmi.SetCpsr` | src/core/arm7tdmi.cpp:2357-2372 | accepts exactly the words whose mode field names a mode; every bank keeps its registers |
| `Arm7.Arm7tdmi.EnterException` | src/core/arm7tdmi.cpp:3312-3355 | entry on the live register file is entry on the all-banks view |
| `Arm7.Arm7tdmi.ReturnFromException` | src/core/arm7tdmi.cpp:3357-3369 | return on the live register file is return on the all-banks view; without an SPSR or with an invalid one nothing changes |
| `Arm7.EnteredComposition` | src/core/arm7tdmi.cpp:3312-3355 | writing link, SPSR, flags and PC after the mode switch touches no other bank |
| `BlockTransfer.ComplementaryModes` | src/core/arm7tdmi.cpp:481-489 | DB/IA, DA/IB, IA/DB and IB/DA pairs walk the same words and put the base back, for every base and list size |
| `BlockTransfer.WordsMoved` | src/core/arm7tdmi.cpp:481-489 | the words moved are [base, moved) for IA, (base, moved] for IB, [moved, base) for DB and (moved, base] for DA |
| `BlockTransfer.DistinctAddresses` | src/core/arm7tdmi.cpp:481-489 | two listed registers never share a word, with addresses modulo 2^32 |
| `BlockTransfer.StoreThenLoad` | src/core/arm7tdmi.cpp:3478-3554 | an STM and the LDM with the complementary mode restore every listed register and the base, for every list without PC and base |
| `BlockTransfer.PushThenPop` | src/core/arm7tdmi.cpp:3183-3260 | a PUSH and the POP of the same list restore the registers and SP; PUSH {LR} with POP {PC} returns to the pushed address in the state its bit 0 names |
| `Arm7.Arm7tdmi.ExecuteBlockTransfer` | src/core/arm7tdmi.cpp:3478-3554 | LDM and STM without the S bit: what is stored, loaded, written back and branched to, when the transfer is refused with the registers unchanged, and which words a refused store has written |
| `Arm7.Arm7tdmi.Push` | src/core/arm7tdmi.cpp:3183-3212 | stores the list and optionally LR below SP and moves SP, or leaves the registers alone with the words before the first unmapped one stored |
| `Arm7.Arm7tdmi.Pop` | src/core/arm7tdmi.cpp:3214-3260 | loads the list and optionally PC with interworking and moves SP, or leaves the registers alone |
| `HleNesting.HleScheduler.QueueHleWork` | src/core/core_scheduler.cpp:2466-2468 | a nonzero cost is queued for the current interrupt depth |
| `HleNesting.HleScheduler.AdvanceHleWork` | src/core/core_scheduler.cpp:2470-2527 | a slice is charged to the newest call exactly when it belongs to the current depth and the CPU is not at a stub, and it is the slice the five limits leave |
| `HleNesting.SliceCycles` | src/core/core_scheduler.cpp:2506-2520 | a slice is at least one cycle, crosses no frame end, beam edge, wake horizon or latency, and ends at one of them or with the call |
| `HleNesting.HleScheduler.ServicePendingIrq` | src/core/core_scheduler.cpp:1734-1745 | admission enters the exception and latches the link only if none is latched and it is not the sentinel |
| `HleNesting.HleScheduler.DispatchIrqVector` | src/core/core_scheduler.cpp:2556-2626 | dispatch saves r0-r12, pushes the interrupted handler's frame when nested, and jumps to the handler with the sentinel as link |
| `HleNesting.HleScheduler.DispatchIrqReturn` | src/core/core_scheduler.cpp:2628-2679 | return restores r0-r12 and the link, returns from the exception and uncovers the frame below; a failed return keeps the latch |
| `HleNesting.HandlerRuns` | src/core/core_scheduler.cpp:2556-2626 | taking an interrupt leaves the CPU at 0x18 in IRQ mode, and dispatch starts the handler at its address, in the state bit 0 names, with 0x0FFFFF00 as link and every other register as the program left it |
| `HleNesting.DispatchKeeps` | src/core/core_scheduler.cpp:2556-2626 | the interrupted handler's link and registers are on the stack after dispatch; with the sentinel itself as link they are not pushed and the depth does not grow |
| `HleNesting.QueueKeeps` | src/core/save_state_codec.cpp:792-807 | queuing keeps owner depths strictly increasing, so that the snapshot loads, if and only if the current depth owes no earlier call |
| `HleNesting.ReturnKeeps` | src/core/save_state_codec.cpp:790-807 | returning keeps the stacks loadable if and only if the returning handler owes no call |
| `HleNesting.StepKeeps` | src/core/save_state_codec.cpp:790-807 | every step the scheduler can take, in any state, keeps both stacks as the snapshot loader demands -- owner depths strictly increasing and not above the current depth, no spent frame, a latched link under outer frames -- if and only if it queues no call and leaves no handler while the current depth owes an earlier call |
| `HleNesting.EveryRunCharges` | src/core/core_scheduler.cpp:2461-2527 | in every orderly run, nested or not, queued costs equal charged cycles plus the change in what is owed, with owner depths increasing up the stack |
| `HleNesting.Execute` | src/core/core_scheduler.cpp:2461-2683 | every well-nested run keeps the stacks loadable and leaves the interrupted links and registers as they were |
| `HleNesting.ChargedOnce` | src/core/core_scheduler.cpp:2461-2527 | over every well-nested run the queued costs equal the charged cycles plus the change in what is owed |
| `HleNesting.InterruptedCallsWait` | src/core/core_scheduler.cpp:2470-2477 | a handler never touches the calls it interrupted |
| `HleNesting.InterruptRestores` | src/core/core_scheduler.cpp:2556-2683 | after a whole interrupt r0-r12 and the return address are those at dispatch, with the frames below untouched; if the handler left its SPSR alone, flags and PC are restored too |
| `Lz77.DecompressFromSource` | src/core/core_scheduler.cpp:3765-3846 | the decoding loops compute the reference decoding, its end address and its failures |
| `Lz77.RoundTrip` | src/core/core_scheduler.cpp:3765-3846 | decoding the serialisation of any valid token list gives its expansion cut to the declared size, and stops just past the last byte of the last token needed |
| `Lz77.Explained` | src/core/core_scheduler.cpp:3765-3846 | whatever decodes is the serialisation of a valid token list, every token of it needed |
| `Lz77.Accepted` | src/core/core_scheduler.cpp:3765-3846 | a non-empty block decompresses if and only if it is the serialisation of some valid token list |
| `Lz77.NeededIsLeast` | src/core/core_scheduler.cpp:3765-3846 | the tokens needed are the shortest prefix whose expansion reaches the declared size |
| `Lz77.CopyRepeats` | src/core/core_scheduler.cpp:3831-3841 | a back-reference repeats with its displacement as period, also where it overlaps its own output |
| `Lz77.FlagByteAgrees` | src/core/core_scheduler.cpp:3800-3808 | the flag byte names the kinds of its group, most significant bit first |
| `Lz77.BlockFormat` | src/core/core_scheduler.cpp:3765-3841 | a copy is a big-endian halfword of length less three and displacement less one, and the header is 0x10 and a little-endian size |
| `AtomicFile.Folder.WriteFileAtomic` | apps/desktop/desktop_persistence.hpp:78-160 | the sequence of file-system calls and early exits passes through exactly the modelled states; it succeeds if and only if the temporary file is filled, an orphan it sees is recovered, and the replacement works or there is a target and both renames of the fallback work; then the target holds the bytes, else only a temporary file may be left over |
| `AtomicFile.Folder.LoadSave` | apps/desktop/desktop_app.cpp:224-243 | start-up puts an orphaned backup in place before reading |
| `AtomicFile.WriteIsSafe` | apps/desktop/desktop_persistence.hpp:78-160 | with probes that do not mislead, after every call and under every pattern of failing calls the old or the new content is recoverable; true means new, false means old |
| `AtomicFile.WriteSucceeds` | apps/desktop/desktop_persistence.hpp:78-160 | exactly which failing calls a write survives, and what it leaves in either case |
| `AtomicFile.UnhinderedWrite` | apps/desktop/desktop_persistence.hpp:78-160 | with no failing call a write succeeds and leaves the new target alone, without temporary file and backup |
| `AtomicFile.MisleadingProbesLose` | apps/desktop/desktop_persistence.hpp:107-130 | with misleading probes some pattern of failing calls loses the old content without the new one in place |
| `AtomicFile.SafeExactly` | apps/desktop/desktop_persistence.hpp:107-130 | writing is safe under all patterns of failing calls if and only if the probes do not mislead |
| `AtomicFile.SaveIsAtomic` | apps/desktop/desktop_app.cpp:224-243 | through every history of writes, failures, crashes after any call and start-ups, one commit-or-discard outcome per crashed write, fixed for good, explains the recoverable contents after every event |
| `Flash.FlashSave.WriteFlashByte` | src/core/memory_bus.cpp:1134-1238 | the command state machine on the byte array is the reference transition |
| `Flash.StateShowsHistory` | src/core/memory_bus.cpp:1134-1238 | in every reachable command state the last writes are exactly that state's unlock sequence |
| `Flash.ChangeNeedsCommand` | src/core/memory_bus.cpp:1134-1238 | a stored byte changes only on the last write of an exact unlock+program or unlock+erase sequence that covers it; programming ANDs, erasing sets 0xFF |
| `Flash.UntouchedBytes` | src/core/memory_bus.cpp:1134-1238 | over a whole history a byte no exact command covered still holds its first value |
| `Flash.ProgrammingClears` | src/core/memory_bus.cpp:1190-1195 | without an erase, bits are only ever cleared |
| `Flash.BankNeedsCommand` | src/core/memory_bus.cpp:1225-1234 | the bank changes only on the last write of an exact bank-select sequence of a 128K device |
| `Flash.Effective` | src/core/memory_bus.cpp:1084-1088 | every access stays inside the device and inside the selected bank |
| `Flash.EraseWorks` | src/core/memory_bus.cpp:1211-1223 | a sector erase sets exactly one aligned 4 KiB block of the selected bank |
| `Flash.ProgramWorks` | src/core/memory_bus.cpp:1190-1195 | the program sequence stores old AND value at the selected byte and changes nothing else |
| `Flash.StoreAndReadBack` | src/core/memory_bus.cpp:1113-1238 | erase, program and read give the programmed byte back outside ID mode, with no byte outside the sector changed |
| `Flash.ChipEraseWorks` | src/core/memory_bus.cpp:1203-1223 | a chip erase sets every byte of the device and changes nothing else |
| `Flash.SelectWorks` | src/core/memory_bus.cpp:1225-1234 | a bank select selects the bank bit 0 names on a 128K device, bank 0 on a 64K one, and changes nothing else |
| `Dma.SnapshotIdentity` | src/core/dma_controller.cpp:332-371 | a saved state loads back to itself if and only if it is consistent, and whatever loads is consistent |
| `Dma.ControlWriteKeeps` | src/core/dma_controller.cpp:227-262 | a control write keeps the pending flag equal to "some enabled channel is immediate", disabled channels at count 0 and counts within capacity |
| `Dma.RegisterWriteKeeps` | src/core/io_registers.cpp:565-590 | so does every write to the DMA registers |
| `Dma.EnableLatches` | src/core/dma_controller.cpp:227-262 | enabling a channel latches its programmed addresses and count, zero meaning the whole range of 14 bits, 16 on channel 3 |
| `Dma.ControlBits` | src/core/dma_controller.cpp:227-262 | of a control word bits 5 to 15 are kept, bit 11 on channel 3 only |
| `Dma.MovedKeeps` | src/core/dma_controller.cpp:505-546 | so do all units of a transfer, wherever they land |
| `Dma.CompletionKeeps` | src/core/dma_controller.cpp:548-571 | completing a transfer keeps the controller consistent if and only if its units did not turn the channel off while leaving it repeating, nor make it the only immediate one |
| `Dma.FifoKeeps` | src/core/dma_controller.cpp:413-437 | sound FIFO requests always keep the controller consistent |
| `DmaTrace.MovedFollows` | src/core/dma_controller.cpp:505-546 | until it completes, a transfer leaves every channel with the last control value written to it, within the loader's checks, or under way as before if none was written |
| `DmaTrace.TransferOwn` | src/core/dma_controller.cpp:482-572 | a started transfer leaves its channel off the immediate queue, and acceptable to the loader unless its last write to its own control register disabled it with a recurring repeat |
| `DmaTrace.RunAccepts` | src/core/dma_controller.cpp:379-411 | after a run a channel passes the loader's checks if and only if the last write to its control register was not its own transfer disabling it with a recurring repeat |
| `DmaTrace.RunArms` | src/core/dma_controller.cpp:379-411 | after an unrefused immediate run a channel is armed if and only if a higher channel's transfer made the last write to its control register and armed it |
| `DmaTrace.RunFlags` | src/core/dma_controller.cpp:379-411 | the armed channels and the pending flag after the channels served are what the control writes and completions of the run make of them, in order |
| `DmaTrace.FlagSurvives` | src/core/dma_controller.cpp:253-261 | outside immediate runs a right flag goes wrong if and only if a transfer ends as the only armed channel and nothing arms one afterwards |
| `DmaSnapshots.ImmediateFlag` | src/core/dma_controller.cpp:379-411 | an immediate run leaves the flag up exactly when it was refused, and the flag is right if and only if it was refused or no transfer armed a channel the run had already passed |
| `DmaSnapshots.RunKeepsExactly` | src/core/dma_controller.cpp:379-411 | for every trigger and every memory content, a run keeps a consistent controller consistent if and only if the control writes of its transfers meet the stated condition |
| `DmaSnapshots.TransferKeeps` | src/core/dma_controller.cpp:482-572 | one transfer keeps a consistent controller consistent if and only if what its units leave in the registers meets the completion guard |
| `DmaSnapshots.SparedTransfer` | src/core/dma_controller.cpp:482-572 | a transfer whose addresses spare its own control halfword moves exactly the latched count, raises its interrupt exactly when asked, and ends re-armed with a fresh count if it repeats on a recurring trigger, else off with count 0 |
| `DmaAddresses.TransferAddresses` | src/core/dma_controller.cpp:482-572 | of a transfer that spares its own control register unit i writes at destination + i * size, - i * size or destination, as bits 5 and 6 say, and reads at the source stepped i times; it makes as many accesses as latched, and leaves the addresses of the unit after the last, or the programmed destination where a recurring repeat reloads it |
| `DmaAddresses.SourceClosedForm` | src/core/dma_controller.cpp:38-51 | the source stepped n times is source + n * size, - n * size or source outside cartridge ROM, as bits 7 and 8 say, and source + n * size inside it |
| `DmaAddresses.TransferValues` | src/core/dma_controller.cpp:505-546 | every unit writes what it read, or else what the data latch still holds |
| `DmaSnapshots.RunServes` | src/core/dma_controller.cpp:379-411 | a run whose transfers spare the control registers completes exactly the channels of the next two rows, each once |
| `DmaSnapshots.ServedAre` | src/core/dma_controller.cpp:379-411 | those started on the timing before the first one with the refused source mode |
| `DmaSnapshots.ServedInOrder` | src/core/dma_controller.cpp:379-411 | in ascending order |
| `DmaSnapshots.SparedRunKeeps` | src/core/dma_controller.cpp:379-411 | a run whose transfers, by addresses and counts known when it starts, spare the four control halfwords keeps the controller consistent |
| `DmaSnapshots.QuietMoved` | src/core/dma_controller.cpp:505-546 | a transfer that stays off the DMA registers changes only its own data latch until it completes |
| `DmaSnapshots.QuietTransfer` | src/core/dma_controller.cpp:482-572 | a transfer that stays off the DMA registers changes only its own channel, as for a sparing transfer |
| `DmaSnapshots.SelfDisable` | src/core/dma_controller.cpp:548-571 | a transfer onto its own control register can leave a disabled channel with a nonzero count, and the next snapshot is rejected |
| `DmaSnapshots.StaleFlag` | src/core/dma_controller.cpp:548-571 | a recurring transfer that selects immediate start for its own channel leaves the flag up with nothing armed |
| `DmaSnapshots.FlagMissesRequest` | src/core/dma_controller.cpp:379-411 | an immediate transfer that arms a lower channel leaves that channel armed with the flag down |
| `DmaSnapshots.NextRunServes` | src/core/dma_controller.cpp:385-409 | whatever the flag says, the next immediate run starts at the first armed channel: it serves that channel, or is refused there |
| `DmaSnapshots.OperationKeepsExactly` | src/core/dma_controller.cpp:227-437 | register writes, FIFO requests and loads always keep the controller consistent, and a trigger does if and only if its run meets the condition |
| `DmaSnapshots.SnapshotsLoad` | src/core/dma_controller.cpp:332-371 | from reset, a snapshot saved after any operation of a history loads and is the identity, at every point of it, if and only if every run of the history meets the condition |
| `DmaSnapshots.SparingIsSafe` | src/core/dma_controller.cpp:332-371 | every history whose transfers spare the control halfwords is such a history |
| `Dma.DmaController.WriteControl` | src/core/dma_controller.cpp:227-262 | latching on enable, the FIFO stop sequence and the pending flag, as the reference says |
| `Dma.DmaController.RefreshImmediatePending` | src/core/dma_controller.cpp:453-461 | the flag becomes "some enabled channel is immediate" |
| `Dma.DmaController.LoadState` | src/core/dma_controller.cpp:332-371 | loads exactly the accepted snapshots, and a rejected one changes nothing |
| `Dma.DmaController.ExecuteChannel` | src/core/dma_controller.cpp:482-571 | the unit loop, with its counter looked up before each unit, is the reference transfer, and the accesses it makes are the reference accesses in order; terminates although units may write the controller |
| `Dma.DmaController.RunTrigger` | src/core/dma_controller.cpp:379-411 | runs the enabled channels of a timing in order up to the first refused one and settles the pending flag |
| `Compositor.AdmitSprites` | src/core/ppu_renderer.cpp:286-337 | the admission loop computes the reference admission |
| `Compositor.AdmissionWithinBudget` | src/core/ppu_renderer.cpp:286-337 | admitted work never exceeds the line budget; objects are admitted in OAM order, none that could be fetched is skipped, and only the last is cut short |
| `Compositor.AdmissionIsMaximal` | src/core/ppu_renderer.cpp:286-337 | an object is cut only if one more column of it would exceed the budget, and one is left out only after a cut or after an object with no room for a column |
| `Compositor.FetchedColumns` | src/core/ppu_renderer.cpp:300-325 | of an object only columns on or right of the left screen edge are fetched, ordinary ones with the rest of their pair; a column costs one, or two and ten once for an affine object |
| `Compositor.LowestNumberedWins` | src/core/ppu_renderer.cpp:372-406 | a column belongs to the lowest-numbered admitted object with an opaque texel there |
| `Compositor.DrawObject` | src/core/ppu_renderer.cpp:377-405 | drawing one object changes only the columns it covers that are still free |
| `Compositor.ResolveObjects` | src/core/ppu_renderer.cpp:372-406 | the row buffers hold, at every column, the owner's candidate, its blending flag and the object-window hit |
| `Compositor.PrecedesIsStrictOrder` | src/core/ppu_renderer.cpp:203-212 | layer precedence is a strict order that decides between any two different layers |
| `Compositor.PrecedenceTable` | src/core/ppu_renderer.cpp:203-212 | a lower priority number wins; at equal priority objects precede BG0, BG0 precedes BG1 and so on, and the backdrop is last |
| `Compositor.FoldIsTwoLeast` | src/core/ppu_renderer.cpp:416-428 | the best/second fold yields the least candidate and the least of the others |
| `Compositor.OrderDoesNotMatter` | src/core/ppu_renderer.cpp:416-428 | the pair mixed is the same in whatever order the layers are evaluated |
| `Compositor.MixPixel` | src/core/ppu_renderer.cpp:416-428 | the loop with two variables computes that pair |
| `Raster.AndroidRuntime.CaptureScanline` | src/core/android_runtime.cpp:201-221 | a complete scratch frame is frozen, a line out of turn starts over, and rows in turn are consecutive events |
| `Raster.AndroidRuntime.StepFrame` | src/core/android_runtime.cpp:232-300 | a call shows the scratch frame only when it completed and the raster is whole, and what is visible stays blank or one whole raster |
| `Raster.CaptureKeeps` | src/core/android_runtime.cpp:201-221 | captured rows stay consecutive events of one state |
| `Raster.BeginKeeps` | src/core/android_runtime.cpp:233-240 | entering a frame keeps the scratch frame coherent whatever happened since the last call: a changed generation or cycle count starts it over |
| `Raster.NeverSpliced` | src/core/android_runtime.cpp:201-300 | through every history of calls, restores and clears, the visible frame is blank or one whole raster of a single state |
| `Raster.NeverSplicedFromStart` | src/core/android_runtime.cpp:201-300 | in particular from a fresh runtime |
| `Raster.CompleteFrameShows` | src/core/android_runtime.cpp:201-300 | a completed call that sees lines 0 to 159 in order shows exactly those rows, whatever was half captured before and whatever lines follow |
| `Ring.RingBuffer.Push` | src/core/apu.cpp:553-562 | a push on the circular buffer is a push on a bounded drop-oldest queue |
| `Ring.RingBuffer.Pop` | src/core/apu.cpp:564-573 | a pop takes the oldest entry, if any |
| `Apu.AdvancedOk` | src/core/apu.cpp:683-707 | advancing keeps every phase below its period and the noise register nonzero |
| `Apu.LfsrLives` | src/core/apu.cpp:694-705 | the shift register never reaches zero, in wide and in narrow mode |
| `Apu.LfsrShifts` | src/core/apu.cpp:694-705 | the bits move down by one and bit 14, in narrow mode bit 6 too, becomes the exclusive or of bits 0 and 1 |
| `Apu.AdvancedClosedForm` | src/core/apu.cpp:683-707 | after n samples every phase has turned by n and the noise register has shifted once per completed period |
| `Apu.PhaseStep` | src/core/apu.cpp:629-662 | duty and wave indices stay inside their tables |
| `Apu.SquareLevels` | src/core/apu.cpp:629-645 | a square is high for the first 1, 2, 4 or 6 eighths of its period, at 128 per volume step |
| `Apu.WaveSamples` | src/core/apu.cpp:647-656 | a wave RAM halfword is four samples, the first in the top nibble |
| `Apu.MixedSides` | src/core/apu.cpp:575-627 | which channel goes to which side how loud: NR50 and NR51 by side, Direct Sound by its own four bits |
| `Apu.TickedCounts` | src/core/apu.cpp:195-218 | in ticks of up to 2^32 - 32768 cycles, a sample every 512 cycles and a frame step every 32768, of which the even ones clock lengths, 2 and 6 sweeps and 7 envelopes |
| `Apu.TickSplits` | src/core/apu.cpp:195-218 | tick(a); tick(b) is tick(a + b) on samples, generators and frame sequencer if and only if both 32-bit remainders lose the same number of turns |
| `Apu.ShortTicksSplit` | src/core/apu.cpp:195-218 | up to 2^32 - 32768 cycles in all, tick(a); tick(b) is tick(a + b) without condition |
| `Apu.LongTickLoses` | src/core/apu.cpp:200-201 | one cycle before a frame step, a tick of 2^32 - 1 cycles differs from a tick of 1 and one of the rest |
| `SoundUnit.ApuUnit.Tick` | src/core/apu.cpp:195-218 | the two accumulation loops are the reference tick, with the buffer as a queue |
| `SoundUnit.ApuUnit.GenerateAudioSample` | src/core/apu.cpp:676-681 | one mixed sample is queued and all generators advance once |
| `SoundUnit.ApuUnit.WriteFifo` | src/core/apu.cpp:138-142 | the four bytes of a word enter lowest first, dropping the oldest |
| `SoundUnit.ApuUnit.PopFifo` | src/core/apu.cpp:564-573 | the oldest sample is taken and a refill is asked for at half full |
| `SoundUnit.ApuUnit.ConfigureNoiseChannel` | src/core/apu.cpp:168-178 | configuring starts a live register with a clamped period |
| `SoundUnit.ApuUnit.ClearSoundCircuit` | src/core/apu.cpp:709-731 | everything but the wave RAM goes back to the initial state: generators, counters, mixer, master bit, both FIFOs and the sample buffer |
| `SoundUnit.ApuUnit.WriteSoundcntX` | src/core/apu.cpp:108-115 | clearing the master bit silences and empties everything; setting it changes nothing else |
| `Sha256.Streaming.Update` | apps/desktop/main.cpp:271-284 | however the input is cut, the state is the fold of the whole blocks of all input and the buffer its tail |
| `Sha256.Streaming.Digest` | apps/desktop/main.cpp:286-311 | the digest is the block fold of the message padded as section 5.1.1 of FIPS 180-4 says |
| `Sha256.FoldAppends` | apps/desktop/main.cpp:271-284 | appending bytes changes only the tail until they complete a block, which is then folded |
| `Sha256.PaddedFillsBlocks` | apps/desktop/main.cpp:286-305 | the padding fills whole blocks and adds less than two |
| `Sha256.PaddedByte` | apps/desktop/main.cpp:286-305 | the padding byte by byte: 0x80, zeros, and the bit length in eight bytes, highest first |
| `Sha256.PaddingIsInjective` | apps/desktop/main.cpp:286-305 | different messages of admissible length pad differently |

## Left out

- Scheduler.CoreScheduler.WaitForInterruptMask: claims nothing beyond termination, the match result and device consistency about waits during which a DMA request moves something, because DMA time inside a batch can cross a wake edge.
- Scheduler.CoreScheduler.AdvanceDevices: DMA transfers and FIFO service are an arbitrary script of bus cycles and I/O writes rather than the memory-level controller, which is modelled separately in `Dma`; auto-IRQ latency and the timer access gap are not part of it, since both are fitted to traces.
- TimerUnit.Timers.Tick: cycle and overflow counters are unbounded here, where the source counts on 64 bits; 32-bit and 16-bit event counters of one call do not wrap either.
- TimerUnit.Timers.LoadState: an index of 4 or more, for which the source throws, cannot be expressed.
- Ppu.PpuTiming.Tick: starts from a beam position on the screen; loading a snapshot with a position off it is not modelled.
- Words.CarrySave: words are unbounded here, so the discarded top carry appears as an extra bit.
- LongMultiply.MultiplyLongOutput: the carry flag of the array is computed but not characterised, because it has no arithmetic meaning; `ExecuteMultiplyLong` passes it on.
- Arm7.Arm7tdmi.ExecuteBlockTransfer: the S bit, condition codes, unaligned addresses and the decoder are not modelled; memory is a map from word addresses to words.
- HleNesting.HleScheduler.AdvanceHleWork: the interrupt admissions and DMA around a slice are separate steps of a run; return and dispatch timing flags, the memory copy of the link at 0x03007FF8 and the Thumb misfetch recovery are left out.
- HleNesting.HleScheduler.ServicePendingIrq: the latency flags of the admission are left out.
- HleNesting.HleScheduler.DispatchIrqVector: the memory copy of the link at 0x03007FF8 and the dispatch timing flags are left out.
- HleNesting.HleScheduler.DispatchIrqReturn: the Thumb misfetch recovery and the servicing of a pending interrupt on the way out are left out.
- HleNesting.Execute: covers well-nested runs, in which a handler reaches the return stub owing no call; runs with abandoned handlers are covered by the step and charging results only.
- Lz77.DecompressFromSource: cycle costs, the destination address and the writes to it are left out.
- AtomicFile.Folder.WriteFileAtomic: renames are atomic and reported accurately, a failing write leaves some prefix, closing the stream cannot fail after a successful flush, and durability beyond the process is not claimed, as the source says.
- Flash.FlashSave.WriteFlashByte: SRAM, EEPROM and save-type detection are left out.
- Dma.DmaController.ExecuteChannel: bus cycles and open-bus values are left out, and memory is a script of values read; sound FIFO bytes go to no sound unit.
- Dma.DmaController.RunTrigger: bus cycles of the run are left out.
- Compositor.ResolveObjects: texel fetch, mosaic and colour arithmetic are abstract; windows and blending formulas are left out.
- Raster.AndroidRuntime.StepFrame: the session is represented by the events, cycle counts and generation it shows to the runtime; no event goes unobserved without the cycle count or the generation showing it.
- SoundUnit.ApuUnit.Tick: loading snapshots with unchecked phases and periods is left out; sample counts are unbounded.
- Sha256.Streaming.Digest: the compression function is a parameter, and calling digest twice is not modelled.
- Trace-fitted timing, prefetch bubbles, HLE call profiles other than LZ77, affine and bitmap fetch details, state hashes, the SDL and Android hosts, the command line and the tools are left out.
