/**
 When DMA snapshots load: exactly which runs and histories keep the controller consistent, for
 transfers that may write the controller's own registers.
 */
module DmaSnapshots {
  import opened Prelude
  import opened Dma
  import opened DmaTrace

  // ---------------------------------------------------------------- exactly which runs keep snapshots loadable

  /** Channel `k`'s last control write came from its own transfer and switched it off still repeating. */
  predicate SwitchedOff(trace: seq<Event>, k: Index) {
    var w := LastWrite(trace, k);
    w.Some? && w.value.runner == k && SelfDisables(w.value.value)
  }

  /** Channel `k`'s last control write armed it after an immediate run had passed it. */
  predicate ArmedBehind(trace: seq<Event>, k: Index) {
    var w := LastWrite(trace, k);
    w.Some? && w.value.runner > k && Arms(w.value.value)
  }

  /** No channel an immediate run has served is still armed. */
  lemma {:induction false} ServedAreOff(d: Controller, c: nat, bus: Bus)
    requires Bounded(d) && c <= CHANNELS
    ensures !RunFrom(d, Immediate, c, bus).stillPending
    decreases CHANNELS - c
  {
    if c < CHANNELS {
      var ch := d.channels[c];
      if !Enabled(ch) || StartTiming(ch) != Immediate {
        ServedAreOff(d, c + 1, bus);
      } else if SourceStep(ch) != IncrementReload {
        TransferOwn(d, c, bus);
        hide ImmediateArmed, Transferred;
        ServedAreOff(Transferred(d, c, bus).controller, c + 1, bus);
      }
    }
  }

  /** An immediate run leaves the flag up exactly when it was refused, and the flag is right exactly
      when it was refused or no transfer armed a channel the run had already passed. */
  lemma ImmediateFlag(d: Controller, bus: Bus)
    requires Bounded(d)
    ensures var run := Run(d, Immediate, bus);
            && run.controller.immediatePending == run.unsupported
            && (PendingExact(run.controller)
                <==> run.unsupported || forall k: Index :: !ArmedBehind(RunTrace(d, Immediate, 0, bus), k))
  {
    ServedAreOff(d, 0, bus);
    var run := RunFrom(d, Immediate, 0, bus);
    if run.unsupported {
      RefusedStaysArmed(d, 0, bus);
    } else {
      forall k: Index
        ensures ImmediateArmed(run.controller.channels[k]) <==> ArmedBehind(RunTrace(d, Immediate, 0, bus), k)
      {
        RunArms(d, 0, bus, k);
      }
    }
    hide RunFrom, RunTrace, ImmediateArmed, ArmedBehind;
  }

  /** A run of any other trigger leaves the flag right exactly when no transfer ended as the only
      armed channel without an arming write after it. */
  lemma RecurringFlag(d: Controller, timing: Timing, bus: Bus)
    requires Bounded(d) && PendingExact(d) && timing != Immediate
    ensures PendingExact(Run(d, timing, bus).controller)
       <==> !LastArmedServed(FlagsOf(d), RunTrace(d, timing, 0, bus))
  {
    RunFlags(d, timing, 0, bus);
    FlagSurvives(FlagsOf(d), RunTrace(d, timing, 0, bus));
    hide RunFrom, RunTrace, LastArmedServed, FlagsAfter;
  }

  /** The exact condition, on what the run's transfers write. */
  ghost predicate KeepsSnapshots(d: Controller, timing: Timing, bus: Bus)
    requires Bounded(d)
  {
    var trace := RunTrace(d, timing, 0, bus);
    && (forall k: Index :: !SwitchedOff(trace, k))
    && (if timing == Immediate then Run(d, timing, bus).unsupported || forall k: Index :: !ArmedBehind(trace, k)
        else !LastArmedServed(FlagsOf(d), trace))
  }

  /** Whatever the trigger and whatever memory returns, a run keeps a consistent controller consistent
      if and only if its transfers' control writes meet the condition. */
  lemma RunKeepsExactly(d: Controller, timing: Timing, bus: Bus)
    requires Consistent(d)
    ensures Consistent(Run(d, timing, bus).controller) <==> KeepsSnapshots(d, timing, bus)
  {
    var trace, run := RunTrace(d, timing, 0, bus), RunFrom(d, timing, 0, bus);
    forall k: Index
      ensures ChannelAccepted(k, run.controller.channels[k]) <==> !SwitchedOff(trace, k)
    {
      RunAccepts(d, timing, 0, bus, k);
    }
    assert Accepted(run.controller) <==> forall k: Index :: !SwitchedOff(trace, k) by {
      hide ChannelAccepted, SwitchedOff, RunFrom, RunTrace;
    }
    if timing == Immediate {
      ImmediateFlag(d, bus);
    } else {
      RecurringFlag(d, timing, bus);
    }
    hide ChannelAccepted, SwitchedOff, ArmedBehind, LastArmedServed, RunFrom, RunTrace, PendingExact;
  }

  /** One transfer: the guard is on what its units leave in the registers. */
  lemma TransferKeeps(d: Controller, c: nat, bus: Bus)
    requires Consistent(d) && c < CHANNELS
    ensures var ch := d.channels[c];
            var left := Moved(d, c, Transfer32(ch), 0, ch.currentSource, ch.currentDestination, bus).0.channels;
            Consistent(Transferred(d, c, bus).controller)
            <==> (!Enabled(left[c]) ==> !Repeats(left[c]) || StartTiming(left[c]) == Immediate)
                 && (ImmediateArmed(left[c]) ==> OthersImmediate(left, c))
  {
    var ch := d.channels[c];
    var moved := Moved(d, c, Transfer32(ch), 0, ch.currentSource, ch.currentDestination, bus);
    MovedKeeps(d, c, Transfer32(ch), 0, ch.currentSource, ch.currentDestination, bus);
    CompletionKeeps(moved.0, c, moved.1, moved.2);
  }

  // ---------------------------------------------------------------- transfers that spare control registers

  /** A unit covers the control halfword of channel `k`. */
  predicate Covers(c: nat, word: bool, destination: u32, k: Index) {
    var size := if word then 4 else 2;
    var aligned := AlignDown(EffectiveDestination(c, destination), size);
    aligned <= ControlAddress(k) < aligned + size
  }

  /** None of the next `left` units covers the control halfword of channel `k`. */
  predicate SparesFrom(c: nat, word: bool, step: Step, destination: u32, left: nat, k: Index)
    decreases left
  {
    left == 0
    || (!Covers(c, word, destination, k)
        && SparesFrom(c, word, step, Stepped(destination, step, if word then 4 else 2), left - 1, k))
  }

  predicate Spares(c: nat, ch: Channel, k: Index) {
    SparesFrom(c, Transfer32(ch), DestinationStep(ch), ch.currentDestination, ch.currentCount, k)
  }

  lemma SparedRegister(runner: Index, address: u32, value: u16, k: Index)
    requires address != ControlAddress(k)
    ensures LastWrite(RegisterTrace(runner, address, value), k).None?
  {
  }

  lemma SparedWrite(runner: Index, word: bool, destination: u32, value: u32, k: Index)
    requires !Covers(runner, word, destination, k)
    ensures LastWrite(WriteTrace(runner, word, EffectiveDestination(runner, destination), value), k).None?
  {
    hide LastWrite, RegisterTrace, ControlAddress, AlignDown, EffectiveDestination, Low16, High16;
    var address := EffectiveDestination(runner, destination);
    if word {
      var aligned := AlignDown(address, 4);
      SparedRegister(runner, aligned, Low16(value), k);
      SparedRegister(runner, NextHalfword(aligned), High16(value), k);
      LastWriteJoined(RegisterTrace(runner, aligned, Low16(value)),
                      RegisterTrace(runner, NextHalfword(aligned), High16(value)), k);
    } else {
      SparedRegister(runner, AlignDown(address, 2), Low16(value), k);
    }
  }

  /** A transfer whose units spare its own control halfword and that of `k` writes neither. */
  lemma {:induction false} SparedMoved(d: Controller, c: Index, word: bool, unit: nat, source: u32, destination: u32,
                                       bus: Bus, k: Index)
    requires Bounded(d)
    requires var ch := d.channels[c];
             ch.currentCount > unit ==>
               && SparesFrom(c, word, DestinationStep(ch), destination, ch.currentCount - unit, c)
               && SparesFrom(c, word, DestinationStep(ch), destination, ch.currentCount - unit, k)
    ensures LastWrite(MovedTrace(d, c, word, unit, source, destination, bus), k).None?
    decreases Capacity(c) - unit
  {
    hide Covers, Stepped, StepMode, WriteTrace, Written, UnitValue, EffectiveDestination, MaskedControl, ChannelAccepted;
    var ch := d.channels[c];
    if unit < ch.currentCount {
      assert InBounds(c, ch);
      SparedWrite(c, word, destination, UnitValue(ch, word, bus(c, unit)), c);
      SparedWrite(c, word, destination, UnitValue(ch, word, bus(c, unit)), k);
      UnitFollows(d, c, word, source, destination, bus(c, unit), c);
      var next := UnitMoved(d, c, word, source, destination, bus(c, unit));
      assert Underway(ch, next.0.channels[c]);
      hide LastWrite;
      SparedMoved(next.0, c, word, unit + 1, next.1, next.2, bus, k);
      LastWriteJoined(WriteTrace(c, word, EffectiveDestination(c, destination), UnitValue(ch, word, bus(c, unit))),
                      MovedTrace(next.0, c, word, unit + 1, next.1, next.2, bus), k);
    }
  }

  /** Completing an enabled channel: re-armed if it repeats on a recurring trigger, else off. */
  lemma CompletedOutcome(c: nat, ch: Channel, source: u32, destination: u32)
    requires InBounds(c, ch) && Enabled(ch)
    ensures var after := CompletedChannel(c, ch, source, destination);
            && ChannelAccepted(c, after) && !ImmediateArmed(after)
            && (Enabled(after) <==> Repeats(ch) && StartTiming(ch) != Immediate)
            && after.currentCount
               == (if Repeats(ch) && StartTiming(ch) != Immediate then NormalizedCount(c, ch) else 0)
            && after.wordCount == ch.wordCount
  {
    CompletedAccepted(c, ch, source, destination);
    CompletedArmed(c, ch, source, destination);
    hide NormalizedCount, StartTiming, Repeats;
  }

  /** A started transfer that spares its own control halfword moves the latched count, raises its
      interrupt exactly when asked, and ends re-armed if it repeats on a recurring trigger, else off. */
  lemma SparedTransfer(d: Controller, c: Index, bus: Bus)
    requires Bounded(d) && Enabled(d.channels[c]) && Spares(c, d.channels[c], c)
    ensures var ch, t := d.channels[c], Transferred(d, c, bus);
            var after := t.controller.channels[c];
            && t.units == ch.currentCount && t.irqs == (if IrqOnCompletion(ch) then {c} else {})
            && ChannelAccepted(c, after) && !ImmediateArmed(after)
            && (Enabled(after) <==> Repeats(ch) && StartTiming(ch) != Immediate)
            && after.currentCount
               == if Repeats(ch) && StartTiming(ch) != Immediate then NormalizedCount(c, after) else 0
  {
    var ch := d.channels[c];
    SparedMoved(d, c, Transfer32(ch), 0, ch.currentSource, ch.currentDestination, bus, c);
    MovedFollows(d, c, Transfer32(ch), 0, ch.currentSource, ch.currentDestination, bus, c);
    var moved := Moved(d, c, Transfer32(ch), 0, ch.currentSource, ch.currentDestination, bus);
    var last := moved.0.channels[c];
    assert Underway(ch, last) && InBounds(c, last);
    CompletedOutcome(c, last, moved.1, moved.2);
    SameCount(c, last, CompletedChannel(c, last, moved.1, moved.2));
    hide Moved, MovedTrace, CompletedChannel, ImmediateArmed, Spares, ChannelAccepted, InBounds, NormalizedCount, Bounded;
  }

  /** Every transfer the trigger would start from channel `from` on spares all control halfwords. */
  predicate SparesControls(d: Controller, timing: Timing, from: nat)
    requires |d.channels| == CHANNELS
  {
    forall c: Index, k: Index :: from <= c && Started(d.channels[c], timing) ==> Spares(c, d.channels[c], k)
  }

  predicate Started(ch: Channel, timing: Timing) {
    Enabled(ch) && StartTiming(ch) == timing
  }

  /** Such a run writes no control register; it only completes the channels started. */
  lemma {:induction false} SparedTrace(d: Controller, timing: Timing, c: nat, bus: Bus)
    requires Bounded(d) && c <= CHANNELS && SparesControls(d, timing, c)
    ensures forall e :: e in RunTrace(d, timing, c, bus) ==>
              e.Completion? && c <= e.channel && Started(d.channels[e.channel], timing)
    decreases CHANNELS - c
  {
    hide SourceStep, Transferred, TransferTrace, Spares;
    if c < CHANNELS {
      var ch := d.channels[c];
      if !Started(ch, timing) {
        SparedTrace(d, timing, c + 1, bus);
      } else if SourceStep(ch) != IncrementReload {
        var next := Transferred(d, c, bus).controller;
        SparedTransferTrace(d, c, bus);
        forall j: Index | c < j
          ensures Started(next.channels[j], timing) <==> Started(d.channels[j], timing)
          ensures forall k: Index :: Spares(j, next.channels[j], k) <==> Spares(j, d.channels[j], k)
        {
          TransferFollows(d, c, bus, j);
          assert Underway(d.channels[j], next.channels[j]);
          SparesAlike(j, d.channels[j], next.channels[j]);
        }
        SparedTrace(next, timing, c + 1, bus);
      }
    }
  }

  /** The channel's source control asks for the mode execute_channel refuses. */
  predicate RefusedMode(ch: Channel) {
    ch.control / 0x80 % 4 == 3
  }

  /** The channels a sparing run serves. */
  function ServedFrom(channels: seq<Channel>, timing: Timing, c: nat): seq<Index>
    requires |channels| == CHANNELS && c <= CHANNELS
    decreases CHANNELS - c
  {
    if c == CHANNELS then []
    else if !Started(channels[c], timing) then ServedFrom(channels, timing, c + 1)
    else if RefusedMode(channels[c]) then []
    else [c] + ServedFrom(channels, timing, c + 1)
  }

  /** No channel from `c` to `k` is started with the refused source mode. */
  predicate NoneRefused(channels: seq<Channel>, timing: Timing, c: nat, k: Index)
    requires |channels| == CHANNELS
  {
    forall j: Index :: c <= j <= k && Started(channels[j], timing) ==> !RefusedMode(channels[j])
  }

  /** They are the ones started on this timing up to the first one with the refused source mode. */
  lemma {:induction false} ServedAre(channels: seq<Channel>, timing: Timing, c: nat, k: Index)
    requires |channels| == CHANNELS && c <= CHANNELS
    ensures k in ServedFrom(channels, timing, c)
       <==> c <= k && Started(channels[k], timing) && NoneRefused(channels, timing, c, k)
    decreases CHANNELS - c
  {
    hide Started, RefusedMode;
    if c < CHANNELS {
      ServedAre(channels, timing, c + 1, k);
      assert NoneRefused(channels, timing, c, k)
        <==> NoneRefused(channels, timing, c + 1, k)
             && (c <= k && Started(channels[c], timing) ==> !RefusedMode(channels[c]));
      hide NoneRefused;
    }
  }

  predicate Ascending(served: seq<Index>, from: nat) {
    served != [] ==>
      var first: nat := served[0];
      from <= first && Ascending(served[1..], first + 1)
  }

  /** And they are served in ascending order. */
  lemma {:induction false} ServedInOrder(channels: seq<Channel>, timing: Timing, c: nat)
    requires |channels| == CHANNELS && c <= CHANNELS
    ensures Ascending(ServedFrom(channels, timing, c), c)
    decreases CHANNELS - c
  {
    hide Started, RefusedMode;
    if c < CHANNELS {
      ServedInOrder(channels, timing, c + 1);
      var rest := ServedFrom(channels, timing, c + 1);
      assert ([c as Index] + rest)[1..] == rest;
    }
  }

  lemma {:induction false} ServedAlike(a: seq<Channel>, b: seq<Channel>, timing: Timing, c: nat)
    requires |a| == |b| == CHANNELS && c <= CHANNELS
    requires forall j: Index :: c <= j ==>
               (Started(a[j], timing) <==> Started(b[j], timing)) && (RefusedMode(a[j]) <==> RefusedMode(b[j]))
    ensures ServedFrom(a, timing, c) == ServedFrom(b, timing, c)
    decreases CHANNELS - c
  {
    hide Started, RefusedMode;
    if c < CHANNELS {
      ServedAlike(a, b, timing, c + 1);
    }
  }

  function Completions(served: seq<Index>): seq<Event> {
    if served == [] then [] else [Completion(served[0])] + Completions(served[1..])
  }

  /** A sparing run completes exactly those channels, one after another, and says how many. */
  lemma {:induction false} RunServes(d: Controller, timing: Timing, c: nat, bus: Bus)
    requires Bounded(d) && c <= CHANNELS && SparesControls(d, timing, c)
    ensures var trace, served := RunTrace(d, timing, c, bus), ServedFrom(d.channels, timing, c);
            trace == Completions(served) && |served| == RunFrom(d, timing, c, bus).executed
    decreases CHANNELS - c
  {
    assert Shaped(d);
    hide Transferred, TransferTrace, Spares, SparesControls, Bounded, StepMode;
    if c < CHANNELS {
      SparesParts(d, timing, c);
      if !Started(d.channels[c], timing) {
        RunServes(d, timing, c + 1, bus);
      } else if !RefusedMode(d.channels[c]) {
        var next := Transferred(d, c, bus).controller;
        SparedTransferTrace(d, c, bus);
        StillStarted(d, timing, c, bus);
        RunServes(next, timing, c + 1, bus);
        assert Shaped(next);
        SourceStepRefused(d.channels[c]);
        hide Started, RefusedMode, SourceStep;
        ServedAlike(next.channels, d.channels, timing, c + 1);
        var rest := ServedFrom(d.channels, timing, c + 1);
        assert ([c as Index] + rest)[1..] == rest;
      } else {
        SourceStepRefused(d.channels[c]);
      }
    }
  }

  lemma SparesParts(d: Controller, timing: Timing, c: Index)
    requires |d.channels| == CHANNELS && SparesControls(d, timing, c)
    ensures SparesControls(d, timing, c + 1)
    ensures Started(d.channels[c], timing) ==> forall k: Index :: Spares(c, d.channels[c], k)
  {
  }

  lemma SourceStepRefused(ch: Channel)
    ensures SourceStep(ch) == IncrementReload <==> RefusedMode(ch)
  {
  }

  lemma {:induction false} StillStarted(d: Controller, timing: Timing, c: Index, bus: Bus)
    requires Bounded(d) && SparesControls(d, timing, c) && Started(d.channels[c], timing)
    ensures var next := Transferred(d, c, bus).controller;
            && SparesControls(next, timing, c + 1)
            && forall j: Index :: c < j ==>
                 (Started(next.channels[j], timing) <==> Started(d.channels[j], timing))
                 && (RefusedMode(next.channels[j]) <==> RefusedMode(d.channels[j]))
  {
    var next := Transferred(d, c, bus).controller;
    hide Transferred, TransferTrace, Spares;
    SparedTransferTrace(d, c, bus);
    forall j: Index | c < j
      ensures Started(next.channels[j], timing) <==> Started(d.channels[j], timing)
      ensures RefusedMode(next.channels[j]) <==> RefusedMode(d.channels[j])
      ensures forall k: Index :: Spares(j, next.channels[j], k) <==> Spares(j, d.channels[j], k)
    {
      TransferFollows(d, c, bus, j);
      assert Underway(d.channels[j], next.channels[j]);
      SparesAlike(j, d.channels[j], next.channels[j]);
    }
  }

  lemma SparesAlike(c: nat, a: Channel, b: Channel)
    requires Underway(a, b)
    ensures forall k: Index :: Spares(c, a, k) <==> Spares(c, b, k)
  {
    hide SparesFrom;
  }

  lemma SparedTransferTrace(d: Controller, c: Index, bus: Bus)
    requires Bounded(d) && forall k: Index :: Spares(c, d.channels[c], k)
    ensures TransferTrace(d, c, bus) == [Completion(c)]
  {
    var ch := d.channels[c];
    var word := Transfer32(ch);
    hide MovedTrace, SparesFrom, LastWrite, Transfer32, StepMode, Bounded;
    forall k: Index
      ensures LastWrite(MovedTrace(d, c, word, 0, ch.currentSource, ch.currentDestination, bus), k).None?
    {
      assert Spares(c, ch, k) && Spares(c, ch, c);
      SparedMoved(d, c, word, 0, ch.currentSource, ch.currentDestination, bus, k);
    }
    WritesOnly(d, c, word, 0, ch.currentSource, ch.currentDestination, bus);
    NothingWritten(MovedTrace(d, c, word, 0, ch.currentSource, ch.currentDestination, bus));
  }

  lemma NothingWritten(trace: seq<Event>)
    requires forall e :: e in trace ==> e.ControlWrite?
    requires forall k: Index :: LastWrite(trace, k).None?
    ensures trace == []
  {
    if trace != [] {
      SomethingWritten(trace);
    }
  }

  lemma SomethingWritten(trace: seq<Event>)
    requires trace != [] && forall e :: e in trace ==> e.ControlWrite?
    ensures exists k: Index :: LastWrite(trace, k).Some?
  {
    assert LastWrite(trace, trace[|trace| - 1].target).Some?;
  }

  /** Before its completion a transfer's events are its own control writes. */
  lemma {:induction false} WritesOnly(d: Controller, c: Index, word: bool, unit: nat, source: u32, destination: u32,
                                      bus: Bus)
    requires Bounded(d)
    ensures forall e :: e in MovedTrace(d, c, word, unit, source, destination, bus) ==> e.ControlWrite? && e.runner == c
    decreases Capacity(c) - unit
  {
    hide UnitMoved, AlignDown, NextHalfword, Low16, High16, UnitValue, EffectiveDestination;
    if unit < d.channels[c].currentCount {
      assert InBounds(c, d.channels[c]);
      var next := UnitMoved(d, c, word, source, destination, bus(c, unit));
      WritesOnly(next.0, c, word, unit + 1, next.1, next.2, bus);
    }
  }

  /** A condition to check before the run, on addresses and counts alone, under which it is safe. */
  lemma SparedRunKeeps(d: Controller, timing: Timing, bus: Bus)
    requires Consistent(d) && SparesControls(d, timing, 0)
    ensures KeepsSnapshots(d, timing, bus) && Consistent(Run(d, timing, bus).controller)
  {
    var trace := RunTrace(d, timing, 0, bus);
    SparedTrace(d, timing, 0, bus);
    RunKeepsExactly(d, timing, bus);
    assert forall k: Index :: LastWrite(trace, k).None?;
    if timing != Immediate {
      RecurringFlag(d, timing, bus);
      RunFlags(d, timing, 0, bus);
      forall e | e in trace
        ensures e.Completion? && e.channel !in FlagsOf(d).armed
      {
        assert Started(d.channels[e.channel], timing);
      }
      hide RunTrace, RunFrom, FlagStep;
      IdleTrace(FlagsOf(d), trace);
    }
    hide LastArmedServed, Run, RunTrace, SparesControls, LastWrite;
  }

  /** Completing channels that are not armed changes nothing. */
  lemma {:induction false} IdleTrace(f: Flags, trace: seq<Event>)
    requires forall e :: e in trace ==> e.Completion? && e.channel !in f.armed
    ensures FlagsAfter(f, trace) == f
    decreases |trace|
  {
    if trace != [] {
      assert trace[|trace| - 1] in trace;
      IdleTrace(f, trace[..|trace| - 1]);
    }
  }

  // ---------------------------------------------------------------- transfers off the DMA registers

  predicate TouchesRegisters(c: nat, word: bool, destination: u32) {
    var size := if word then 4 else 2;
    var aligned := AlignDown(EffectiveDestination(c, destination), size);
    aligned < REGISTER_BASE + REGISTER_BYTES && aligned + size > REGISTER_BASE
  }

  /** None of the next `left` units lands on the controller's registers. */
  predicate QuietFrom(c: nat, word: bool, step: Step, destination: u32, left: nat)
    decreases left
  {
    left == 0
    || (!TouchesRegisters(c, word, destination)
        && QuietFrom(c, word, step, Stepped(destination, step, if word then 4 else 2), left - 1))
  }

  predicate Quiet(c: nat, ch: Channel) {
    QuietFrom(c, Transfer32(ch), DestinationStep(ch), ch.currentDestination, ch.currentCount)
  }

  lemma QuietWrite(d: Controller, c: nat, word: bool, destination: u32, value: u32)
    requires Shaped(d) && !TouchesRegisters(c, word, destination)
    ensures Written(d, word, EffectiveDestination(c, destination), value) == d
  {
    hide AlignDown, Low16, High16, EffectiveDestination, RegisterWritten;
    var address := EffectiveDestination(c, destination);
    if word {
      var aligned := AlignDown(address, 4);
      OffTheMap(d, aligned, Low16(value));
      OffTheMap(d, NextHalfword(aligned), High16(value));
    } else {
      OffTheMap(d, AlignDown(address, 2), Low16(value));
    }
  }

  lemma OffTheMap(d: Controller, address: u32, value: u16)
    requires Shaped(d) && (address < REGISTER_BASE || address >= REGISTER_BASE + REGISTER_BYTES)
    ensures RegisterWritten(d, address, value) == d
  {
  }

  lemma QuietUnit(d: Controller, c: nat, word: bool, source: u32, destination: u32, read: Option<u32>)
    requires Shaped(d) && c < CHANNELS && !TouchesRegisters(c, word, destination)
    ensures var next := UnitMoved(d, c, word, source, destination, read);
            var ch := Latched(d.channels[c], word, read);
            && next.0 == WithChannel(d, c, ch)
            && next.2 == Stepped(destination, DestinationStep(d.channels[c]), if word then 4 else 2)
            && ch == d.channels[c].(latch := ch.latch)
  {
    var ch := d.channels[c];
    QuietWrite(WithChannel(d, c, Latched(ch, word, read)), c, word, destination, UnitValue(ch, word, read));
    hide Written, EffectiveDestination, Stepped;
  }

  /** A quiet transfer changes nothing but its own channel's data latch. */
  lemma {:induction false} QuietMoved(d: Controller, c: nat, word: bool, unit: nat, source: u32, destination: u32,
                                      bus: Bus)
    requires Bounded(d) && c < CHANNELS
    requires var ch := d.channels[c];
             ch.currentCount > unit ==> QuietFrom(c, word, DestinationStep(ch), destination, ch.currentCount - unit)
    ensures var after := Moved(d, c, word, unit, source, destination, bus).0;
            after == WithChannel(d, c, d.channels[c].(latch := after.channels[c].latch))
    decreases Capacity(c) - unit
  {
    hide UnitMoved, Stepped, TouchesRegisters, StepMode;
    var ch := d.channels[c];
    if unit < ch.currentCount {
      assert InBounds(c, ch);
      QuietUnit(d, c, word, source, destination, bus(c, unit));
      var next := UnitMoved(d, c, word, source, destination, bus(c, unit));
      QuietMoved(next.0, c, word, unit + 1, next.1, next.2, bus);
    }
  }

  /** A quiet transfer from a consistent controller: what its channel looks like afterwards. */
  lemma QuietTransfer(d: Controller, c: nat, bus: Bus)
    requires Accepted(d) && c < CHANNELS && Enabled(d.channels[c]) && Quiet(c, d.channels[c])
    ensures var ch, t := d.channels[c], Transferred(d, c, bus);
            && t.controller == WithChannel(d, c, t.controller.channels[c])
            && ChannelAccepted(c, t.controller.channels[c]) && !ImmediateArmed(t.controller.channels[c])
            && t.units == ch.currentCount && t.irqs == (if IrqOnCompletion(ch) then {c} else {})
            && (Enabled(t.controller.channels[c]) <==> Repeats(ch) && StartTiming(ch) != Immediate)
            && t.controller.channels[c].currentCount
               == if Repeats(ch) && StartTiming(ch) != Immediate then NormalizedCount(c, ch) else 0
  {
    var ch := d.channels[c];
    QuietMoved(d, c, Transfer32(ch), 0, ch.currentSource, ch.currentDestination, bus);
    var moved := Moved(d, c, Transfer32(ch), 0, ch.currentSource, ch.currentDestination, bus);
    var last := moved.0.channels[c];
    assert last == ch.(latch := last.latch) && InBounds(c, last);
    CompletedOutcome(c, last, moved.1, moved.2);
    SameCount(c, last, ch);
    hide Moved, CompletedChannel, ImmediateArmed, Quiet, ChannelAccepted, NormalizedCount, Accepted;
  }

  // ---------------------------------------------------------------- transfers onto control registers

  /** A bus on which every read gives the same value. */
  function Constant(value: u32): Bus {
    (channel, unit) => Some(value)
  }

  lemma {:induction false} NothingToRun(d: Controller, timing: Timing, c: nat, bus: Bus)
    requires Bounded(d) && c <= CHANNELS
    requires forall k :: c <= k < CHANNELS ==> !Enabled(d.channels[k]) || StartTiming(d.channels[k]) != timing
    ensures RunFrom(d, timing, c, bus) == RunResult(d, 0, {}, 0, false, false)
    decreases CHANNELS - c
  {
    hide Enabled, StartTiming;
    if c < CHANNELS {
      NothingToRun(d, timing, c + 1, bus);
    }
  }

  lemma ControlRegisterWritten(d: Controller, k: nat, value: u16)
    requires Shaped(d) && k < CHANNELS
    ensures RegisterWritten(d, ControlAddress(k), value) == ControlWritten(d, k, value)
  {
    hide ControlWritten;
    assert (12 * k + 10) / 12 == k && (12 * k + 10) % 12 == 10;
  }

  lemma ControlAddressPlain(c: nat, k: nat)
    requires k < CHANNELS
    ensures AlignDown(EffectiveDestination(c, ControlAddress(k)), 2) == ControlAddress(k)
  {
  }

  lemma PlainValue(ch: Channel, value: u16)
    ensures UnitValue(ch, false, Some(value)) == value && Low16(value) == value
    ensures Latched(ch, false, Some(value)) == ch.(latch := value * 0x1_0001)
  {
  }

  /** A halfword unit aimed at a control register is a control write. */
  lemma UnitOnControl(d: Controller, c: nat, k: nat, source: u32, value: u16)
    requires Shaped(d) && c < CHANNELS && k < CHANNELS
    ensures UnitMoved(d, c, false, source, ControlAddress(k), Some(value)).0
         == ControlWritten(WithChannel(d, c, d.channels[c].(latch := value * 0x1_0001)), k, value)
  {
    var latched := d.channels[c].(latch := value * 0x1_0001);
    ControlRegisterWritten(WithChannel(d, c, latched), k, value);
    ControlAddressPlain(c, k);
    PlainValue(d.channels[c], value);
    hide ControlWritten, RegisterWritten, ControlAddress, EffectiveDestination, AlignDown, UnitValue, Low16, Latched,
      Stepped;
  }

  /** A one-unit transfer is its unit, unless the unit re-armed the counter. */
  lemma MovedOnce(d: Controller, c: nat, source: u32, destination: u32, bus: Bus)
    requires Bounded(d) && c < CHANNELS && d.channels[c].currentCount == 1
    requires UnitMoved(d, c, false, source, destination, bus(c, 0)).0.channels[c].currentCount <= 1
    ensures Moved(d, c, false, 0, source, destination, bus) == UnitMoved(d, c, false, source, destination, bus(c, 0))
  {
    hide UnitMoved;
  }

  /** One unit onto the control register of channel `k`, then completion. */
  lemma OneUnitTransfer(d: Controller, c: nat, k: nat, value: u16)
    requires Bounded(d) && c < CHANNELS && k < CHANNELS
    requires var ch := d.channels[c];
             !Transfer32(ch) && ch.currentCount == 1 && ch.currentDestination == ControlAddress(k)
    requires var written := ControlWritten(WithChannel(d, c, d.channels[c].(latch := value * 0x1_0001)), k, value);
             written.channels[c].currentCount <= 1
    ensures var written := ControlWritten(WithChannel(d, c, d.channels[c].(latch := value * 0x1_0001)), k, value);
            var done := Transferred(d, c, Constant(value)).controller;
            && (forall j :: 0 <= j < CHANNELS && j != c ==> done.channels[j] == written.channels[j])
            && done.immediatePending == written.immediatePending
            && exists source: u32, destination: u32 ::
                 done.channels[c] == CompletedChannel(c, written.channels[c], source, destination)
  {
    var ch := d.channels[c];
    var bus := Constant(value);
    UnitOnControl(d, c, k, ch.currentSource, value);
    hide UnitMoved, ControlWritten, ControlAddress, Transfer32;
    MovedOnce(d, c, ch.currentSource, ch.currentDestination, bus);
    hide Moved, CompletedChannel;
    var moved := Moved(d, c, false, 0, ch.currentSource, ch.currentDestination, bus);
    assert Transferred(d, c, bus).controller.channels[c] == CompletedChannel(c, moved.0.channels[c], moved.1, moved.2);
  }

  /** A transfer onto its own control register that drops enable but keeps a recurring repeat
      re-arms the counter of a channel that is off: the snapshot taken next is rejected. */
  lemma SelfDisable(d: Controller, c: nat, value: u16)
    requires Consistent(d) && c < CHANNELS
    requires var ch := d.channels[c];
             Enabled(ch) && !Transfer32(ch) && ch.currentCount == 1 && ch.currentDestination == ControlAddress(c)
    requires var next := d.channels[c].(control := MaskedControl(c, value));
             !Enabled(next) && Repeats(next) && StartTiming(next) != Immediate
    ensures Loaded(Transferred(d, c, Constant(value)).controller).None?
  {
    var ch := d.channels[c].(latch := value * 0x1_0001);
    ControlledAccepted(c, ch, value);
    var written := ControlWritten(WithChannel(d, c, ch), c, value).channels[c];
    assert !Enabled(written) && Repeats(written) && StartTiming(written) != Immediate && written.currentCount == 0;
    OneUnitTransfer(d, c, c, value);
    var done := Transferred(d, c, Constant(value)).controller;
    hide Transferred, ControlWritten, ChannelAccepted, Enabled, Repeats, StartTiming, Transfer32, ControlAddress;
    var source: u32, destination: u32 :| done.channels[c] == CompletedChannel(c, written, source, destination);
    CompletedAccepted(c, written, source, destination);
  }

  /** A recurring transfer onto its own control register that selects immediate start: the channel
      goes off on completion and the flag stays up for nobody. */
  lemma StaleFlag(d: Controller, c: Index, value: u16)
    requires Consistent(d) && forall j: Index :: j != c ==> !ImmediateArmed(d.channels[j])
    requires var ch := d.channels[c];
             Enabled(ch) && (StartTiming(ch) == VBlank || StartTiming(ch) == HBlank) && !Transfer32(ch)
             && ch.currentCount == 1 && ch.currentDestination == ControlAddress(c)
    requires Arms(value)
    ensures var after := Transferred(d, c, Constant(value)).controller;
            after.immediatePending && !SomeImmediate(after.channels)
  {
    var ch := d.channels[c].(latch := value * 0x1_0001);
    var next := ControlledChannel(c, ch, value);
    MaskedArms(c, value, next);
    assert next.currentCount == 1;
    OneUnitTransfer(d, c, c, value);
    TransferOwn(d, c, Constant(value));
    hide Transferred, CompletedChannel, ControlledChannel, ImmediateArmed, Arms;
  }

  /** The flag plays no part in an immediate run: it starts at the first armed channel. */
  lemma NextRunServes(d: Controller, k: Index, bus: Bus)
    requires Bounded(d) && ImmediateArmed(d.channels[k]) && forall j: Index :: j < k ==> !ImmediateArmed(d.channels[j])
    ensures var run, served := Run(d, Immediate, bus), Transferred(d, k, bus);
            if SourceStep(d.channels[k]) == IncrementReload then run.unsupported && run.controller.channels == d.channels
            else
              var rest := RunFrom(served.controller, Immediate, k + 1, bus);
              run.executed == 1 + rest.executed && run.controller.channels == rest.controller.channels
              && run.units == served.units + rest.units && run.irqs == served.irqs + rest.irqs
  {
    hide SourceStep, Transferred;
    SkipTo(d, Immediate, 0, k, bus);
  }

  /** An immediate transfer that arms a lower channel leaves that channel, the first armed one, with
      the flag down: whoever asks the flag misses the request. */
  lemma FlagMissesRequest(d: Controller, c: nat, k: nat, value: u16)
    requires Consistent(d) && k < c < CHANNELS
    requires forall j :: 0 <= j < CHANNELS && j != c ==> !Enabled(d.channels[j])
    requires var ch := d.channels[c];
             ImmediateArmed(ch) && SourceStep(ch) != IncrementReload && !Transfer32(ch) && ch.currentCount == 1
             && ch.currentDestination == ControlAddress(k)
    requires ImmediateArmed(d.channels[k].(control := MaskedControl(k, value)))
    ensures var after := Run(d, Immediate, Constant(value)).controller;
            && ImmediateArmed(after.channels[k]) && !after.immediatePending
            && forall j :: 0 <= j < k ==> !ImmediateArmed(after.channels[j])
  {
    var bus := Constant(value);
    OneUnitTransfer(d, c, k, value);
    var done := Transferred(d, c, bus).controller;
    ServedAreOff(d, 0, bus);
    assert ImmediateArmed(done.channels[k]);
    assert forall j :: c < j < CHANNELS ==> done.channels[j] == d.channels[j];
    hide Transferred, ControlWritten, CompletedChannel, Enabled, StartTiming, SourceStep;
    NothingToRun(done, Immediate, c + 1, bus);
    SkipTo(d, Immediate, 0, c, bus);
  }

  lemma {:induction false} SkipTo(d: Controller, timing: Timing, from: nat, c: nat, bus: Bus)
    requires Bounded(d) && from <= c <= CHANNELS && forall j :: from <= j < c ==> !Started(d.channels[j], timing)
    ensures RunFrom(d, timing, from, bus) == RunFrom(d, timing, c, bus)
    decreases c - from
  {
    hide Enabled, StartTiming;
    if from < c {
      SkipTo(d, timing, from + 1, c, bus);
    }
  }

  // ---------------------------------------------------------------- whole histories

  datatype Operation =
    | RegisterWrite(address: u32, value: u16)
    | Trigger(timing: Timing, bus: Bus)
    | FifoRequest(fifo: u32, fifoBus: Bus)
    | Restore(snapshot: Controller)

  ghost function Applied(d: Controller, op: Operation): (r: Controller)
    requires Bounded(d)
    ensures Bounded(r)
  {
    match op
    case RegisterWrite(address, value) => RegisterWritten(d, address, value)
    case Trigger(timing, bus) => Run(d, timing, bus).controller
    case FifoRequest(fifo, bus) => FifoRun(d, fifo, 0, bus)
    case Restore(snapshot) => Restored(d, snapshot)
  }

  /** A rejected snapshot changes nothing. */
  ghost function Restored(d: Controller, snapshot: Controller): (r: Controller)
    requires Bounded(d)
    ensures Bounded(r) && (Consistent(d) ==> Consistent(r))
  {
    if |snapshot.channels| == CHANNELS && Loaded(snapshot).Some? then
      SnapshotIdentity(snapshot);
      Loaded(snapshot).value
    else d
  }

  ghost function Reached(d: Controller, ops: seq<Operation>): (r: Controller)
    requires Bounded(d)
    ensures Bounded(r)
    decreases |ops|
  {
    if ops == [] then d else Reached(Applied(d, ops[0]), ops[1..])
  }

  ghost predicate SafeOperation(d: Controller, op: Operation)
    requires Bounded(d)
  {
    op.Trigger? ==> KeepsSnapshots(d, op.timing, op.bus)
  }

  /** Every run of the history meets the condition when it starts. */
  ghost predicate SafeHistory(d: Controller, ops: seq<Operation>)
    requires Bounded(d)
    decreases |ops|
  {
    ops == [] || (SafeOperation(d, ops[0]) && SafeHistory(Applied(d, ops[0]), ops[1..]))
  }

  lemma OperationKeepsExactly(d: Controller, op: Operation)
    requires Consistent(d)
    ensures Consistent(Applied(d, op)) <==> SafeOperation(d, op)
  {
    hide ChannelAccepted, Run, FifoRun, RegisterWritten, KeepsSnapshots;
    match op
    case RegisterWrite(address, value) => RegisterWriteKeeps(d, address, value);
    case Trigger(timing, bus) => RunKeepsExactly(d, timing, bus);
    case FifoRequest(fifo, bus) => FifoKeeps(d, fifo, 0, bus);
    case Restore(snapshot) =>
  }

  /** A snapshot taken in this state loads, and loading it is the identity. */
  ghost predicate SnapshotHolds(d: Controller)
    requires Bounded(d)
  {
    Loaded(d) == Some(d)
  }

  /** Snapshots hold after every operation of a history exactly when the history is safe. */
  lemma {:induction false} HistoryKeepsExactly(d: Controller, ops: seq<Operation>)
    requires Consistent(d)
    ensures (forall n: nat :: n <= |ops| ==> SnapshotHolds(Reached(d, ops[..n]))) <==> SafeHistory(d, ops)
    decreases |ops|
  {
    SnapshotIdentity(d);
    hide Consistent, Applied, SafeOperation, Loaded;
    assert Reached(d, ops[..0]) == d;
    if ops != [] {
      var next, rest := Applied(d, ops[0]), ops[1..];
      OperationKeepsExactly(d, ops[0]);
      SnapshotIdentity(next);
      forall n: nat | n <= |rest|
        ensures Reached(d, ops[..n + 1]) == Reached(next, rest[..n])
      {
        assert ops[..n + 1][1..] == rest[..n] && ops[..n + 1][0] == ops[0];
      }
      if SafeOperation(d, ops[0]) {
        HistoryKeepsExactly(next, rest);
        if forall n: nat :: n <= |rest| ==> SnapshotHolds(Reached(next, rest[..n])) {
          forall n: nat | n <= |ops|
            ensures SnapshotHolds(Reached(d, ops[..n]))
          {
            if n > 0 {
              assert SnapshotHolds(Reached(next, rest[..n - 1]));
            }
          }
        } else {
          var n: nat :| n <= |rest| && !SnapshotHolds(Reached(next, rest[..n]));
          assert !SnapshotHolds(Reached(d, ops[..n + 1]));
        }
      } else {
        assert Reached(d, ops[..1]) == Reached(next, rest[..0]);
        assert !SnapshotHolds(Reached(d, ops[..1]));
      }
    }
  }

  /** From reset. */
  lemma SnapshotsLoad(ops: seq<Operation>)
    ensures Bounded(RESET)
    ensures (forall n: nat :: n <= |ops| ==> SnapshotHolds(Reached(RESET, ops[..n]))) <==> SafeHistory(RESET, ops)
  {
    ResetIsConsistent();
    HistoryKeepsExactly(RESET, ops);
  }

  /** Every run of the history spares the control halfwords when it starts. */
  ghost predicate SparingHistory(d: Controller, ops: seq<Operation>)
    requires Bounded(d)
    decreases |ops|
  {
    ops == [] || ((ops[0].Trigger? ==> SparesControls(d, ops[0].timing, 0)) && SparingHistory(Applied(d, ops[0]), ops[1..]))
  }

  lemma {:induction false} SparingIsSafe(d: Controller, ops: seq<Operation>)
    requires Consistent(d) && SparingHistory(d, ops)
    ensures SafeHistory(d, ops)
    decreases |ops|
  {
    hide Applied, SparesControls, KeepsSnapshots;
    if ops != [] {
      if ops[0].Trigger? {
        SparedRunKeeps(d, ops[0].timing, ops[0].bus);
      }
      OperationKeepsExactly(d, ops[0]);
      SparingIsSafe(Applied(d, ops[0]), ops[1..]);
    }
  }
}
