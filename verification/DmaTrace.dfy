/**
 Traces of DMA runs: the writes transfers make to control registers, and what they alone say of the
 channels, the loader's checks and the pending flag after a run.
 */
module DmaTrace {
  import opened Prelude
  import opened Words
  import opened Dma

  // ---------------------------------------------------------------- traces

  type Index = k: nat | k < CHANNELS

  /** A transfer of channel `runner` writes the control register of `target`, or a transfer ends. */
  datatype Event = ControlWrite(runner: Index, target: Index, value: u16) | Completion(channel: Index)

  /** Enable with immediate timing. */
  predicate Arms(value: u16) {
    value / ENABLE % 2 == 1 && value / 0x1000 % 4 == 0
  }

  /** Disable, leaving a recurring repeat selected. */
  predicate SelfDisables(value: u16) {
    value / ENABLE % 2 == 0 && value / 0x200 % 2 == 1 && value / 0x1000 % 4 != 0
  }

  function RegisterTrace(runner: Index, address: u32, value: u16): seq<Event> {
    if REGISTER_BASE <= address < REGISTER_BASE + REGISTER_BYTES && (address - REGISTER_BASE) % 12 == 10
    then [ControlWrite(runner, (address - REGISTER_BASE) / 12, value)]
    else []
  }

  function WriteTrace(runner: Index, word: bool, address: u32, value: u32): seq<Event> {
    if word then
      var aligned := AlignDown(address, 4);
      RegisterTrace(runner, aligned, Low16(value)) + RegisterTrace(runner, NextHalfword(aligned), High16(value))
    else RegisterTrace(runner, AlignDown(address, 2), Low16(value))
  }

  /** The control writes of all remaining units of a transfer. */
  ghost function MovedTrace(d: Controller, c: nat, word: bool, unit: nat, source: u32, destination: u32, bus: Bus)
    : seq<Event>
    requires Bounded(d) && c < CHANNELS
    decreases Capacity(c) - unit
  {
    if unit >= d.channels[c].currentCount then []
    else
      assert InBounds(c, d.channels[c]);
      var next := UnitMoved(d, c, word, source, destination, bus(c, unit));
      WriteTrace(c, word, EffectiveDestination(c, destination), UnitValue(d.channels[c], word, bus(c, unit)))
      + MovedTrace(next.0, c, word, unit + 1, next.1, next.2, bus)
  }

  ghost function TransferTrace(d: Controller, c: nat, bus: Bus): seq<Event>
    requires Bounded(d) && c < CHANNELS
  {
    var ch := d.channels[c];
    MovedTrace(d, c, Transfer32(ch), 0, ch.currentSource, ch.currentDestination, bus) + [Completion(c)]
  }

  /** The trace of a trigger from channel `c` on, up to a refused channel. */
  ghost function RunTrace(d: Controller, timing: Timing, c: nat, bus: Bus): seq<Event>
    requires Bounded(d) && c <= CHANNELS
    decreases CHANNELS - c
  {
    if c == CHANNELS then []
    else if !Enabled(d.channels[c]) || StartTiming(d.channels[c]) != timing then RunTrace(d, timing, c + 1, bus)
    else if SourceStep(d.channels[c]) == IncrementReload then []
    else TransferTrace(d, c, bus) + RunTrace(Transferred(d, c, bus).controller, timing, c + 1, bus)
  }

  /** The last write to a channel's control register. */
  function LastWrite(trace: seq<Event>, k: nat): (r: Option<Event>)
    ensures r.Some? ==> r.value in trace && r.value.ControlWrite? && r.value.target == k
    ensures r.None? <==> forall e :: e in trace && e.ControlWrite? ==> e.target != k
  {
    if trace == [] then None
    else
      var last := trace[|trace| - 1];
      if last.ControlWrite? && last.target == k then Some(last) else LastWrite(trace[..|trace| - 1], k)
  }

  lemma {:induction false} LastWriteJoined(a: seq<Event>, b: seq<Event>, k: nat)
    ensures LastWrite(a + b, k) == if LastWrite(b, k).Some? then LastWrite(b, k) else LastWrite(a, k)
    decreases |b|
  {
    if b == [] {
      assert a + b == a;
    } else {
      assert (a + b)[..|a + b| - 1] == a + b[..|b| - 1];
      LastWriteJoined(a, b[..|b| - 1], k);
    }
  }

  // ---------------------------------------------------------------- what a trace says of one channel

  /** The register masks keep every bit a transfer looks at. */
  lemma MaskKeepsFields(c: nat, value: u16)
    ensures var r := MaskedControl(c, value);
            && r / ENABLE % 2 == value / ENABLE % 2 && r / 0x1000 % 4 == value / 0x1000 % 4
            && r / 0x200 % 2 == value / 0x200 % 2
  {
    var upper: int := value - value % 32;
    LowBitsDropped(value);
    if c != 3 && upper / 0x800 % 2 == 1 {
      BitElevenDropped(upper);
    }
  }

  lemma LowBitsDropped(value: nat)
    ensures var upper := value - value % 32;
            && upper / ENABLE == value / ENABLE && upper / 0x1000 == value / 0x1000 && upper / 0x200 == value / 0x200
  {
  }

  lemma BitElevenDropped(value: nat)
    requires value / 0x800 % 2 == 1
    ensures var rest: int := value - 0x800;
            && rest / ENABLE == value / ENABLE && rest / 0x1000 == value / 0x1000 && rest / 0x200 == value / 0x200 - 4
  {
    var q, low := value / 0x800, value % 0x800;
    var h, g, rest: int := q / 2, q / 2 / 8, value - 0x800;
    assert value == 0x800 * q + low && q == 2 * h + 1;
    var place := 0x1000 * (h - 8 * g);
    DivModUnique(value, 0x1000, h, 0x800 + low);
    DivModUnique(rest, 0x1000, h, low);
    DivModUnique(value, ENABLE, g, place + 0x800 + low);
    DivModUnique(rest, ENABLE, g, place + low);
    DivModUnique(rest, 0x200, value / 0x200 - 4, value % 0x200);
  }

  lemma MaskedArms(c: nat, value: u16, ch: Channel)
    requires ch.control == MaskedControl(c, value)
    ensures ImmediateArmed(ch) <==> Arms(value)
    ensures !Enabled(ch) && Repeats(ch) && StartTiming(ch) != Immediate <==> SelfDisables(value)
  {
    MaskKeepsFields(c, value);
    hide MaskedControl;
  }

  /** A channel whose transfer, if any, goes on as before. */
  predicate Underway(a: Channel, b: Channel) {
    a.control == b.control && a.currentSource == b.currentSource && a.currentDestination == b.currentDestination
    && a.currentCount == b.currentCount
  }

  /** What a trace by runner `c` made of channel `k`. */
  ghost predicate Follows(k: nat, before: Channel, after: Channel, trace: seq<Event>, c: nat) {
    match LastWrite(trace, k)
    case None => Underway(before, after)
    case Some(w) =>
      w.runner == c && after.control == MaskedControl(k, w.value) && ChannelAccepted(k, after)
  }

  lemma RegisterFollows(d: Controller, c: Index, address: u32, value: u16, k: nat)
    requires Bounded(d) && k < CHANNELS
    ensures Follows(k, d.channels[k], RegisterWritten(d, address, value).channels[k], RegisterTrace(c, address, value), c)
  {
    assert InBounds(k, d.channels[k]);
    hide MaskedControl, NormalizedCount, StartTiming;
  }

  lemma FollowsJoined(k: nat, x: Channel, y: Channel, z: Channel, a: seq<Event>, b: seq<Event>, c: nat)
    requires Follows(k, x, y, a, c) && Follows(k, y, z, b, c)
    ensures Follows(k, x, z, a + b, c)
  {
    LastWriteJoined(a, b, k);
    hide MaskedControl;
  }

  lemma WriteFollows(d: Controller, c: Index, word: bool, address: u32, value: u32, k: nat)
    requires Bounded(d) && k < CHANNELS
    ensures Follows(k, d.channels[k], Written(d, word, address, value).channels[k], WriteTrace(c, word, address, value), c)
  {
    assert Shaped(d);
    hide RegisterWritten, RegisterTrace, AlignDown, NextHalfword, Low16, High16, Follows, Bounded;
    if word {
      var aligned := AlignDown(address, 4);
      var half := RegisterWritten(d, aligned, Low16(value));
      RegisterFollows(d, c, aligned, Low16(value), k);
      RegisterFollows(half, c, NextHalfword(aligned), High16(value), k);
      FollowsJoined(k, d.channels[k], half.channels[k], Written(d, word, address, value).channels[k],
                    RegisterTrace(c, aligned, Low16(value)), RegisterTrace(c, NextHalfword(aligned), High16(value)), c);
    } else {
      RegisterFollows(d, c, AlignDown(address, 2), Low16(value), k);
    }
  }

  lemma UnitFollows(d: Controller, c: nat, word: bool, source: u32, destination: u32, read: Option<u32>, k: nat)
    requires Bounded(d) && c < CHANNELS && k < CHANNELS
    ensures Follows(k, d.channels[k], UnitMoved(d, c, word, source, destination, read).0.channels[k],
                    WriteTrace(c, word, EffectiveDestination(c, destination), UnitValue(d.channels[c], word, read)), c)
  {
    var ch := d.channels[c];
    var e := WithChannel(d, c, Latched(ch, word, read));
    assert InBounds(c, ch) && InBounds(c, Latched(ch, word, read));
    hide InBounds;
    WriteFollows(e, c, word, EffectiveDestination(c, destination), UnitValue(ch, word, read), k);
    hide Bounded, Written, WriteTrace, EffectiveDestination, UnitValue, Stepped, ChannelAccepted, MaskedControl;
    assert Underway(d.channels[k], e.channels[k]);
  }

  /** Until it completes, a transfer has made of every channel what its control writes say. */
  lemma {:induction false} MovedFollows(d: Controller, c: nat, word: bool, unit: nat, source: u32, destination: u32,
                                        bus: Bus, k: nat)
    requires Bounded(d) && c < CHANNELS && k < CHANNELS
    ensures Follows(k, d.channels[k], Moved(d, c, word, unit, source, destination, bus).0.channels[k],
                    MovedTrace(d, c, word, unit, source, destination, bus), c)
    decreases Capacity(c) - unit
  {
    if unit < d.channels[c].currentCount {
      assert InBounds(c, d.channels[c]);
      UnitFollows(d, c, word, source, destination, bus(c, unit), k);
      var next := UnitMoved(d, c, word, source, destination, bus(c, unit));
      MovedFollows(next.0, c, word, unit + 1, next.1, next.2, bus, k);
      hide UnitMoved, WriteTrace, UnitValue, EffectiveDestination, Follows, Bounded, InBounds;
      FollowsJoined(k, d.channels[k], next.0.channels[k],
                    Moved(d, c, word, unit, source, destination, bus).0.channels[k],
                    WriteTrace(c, word, EffectiveDestination(c, destination), UnitValue(d.channels[c], word, bus(c, unit))),
                    MovedTrace(next.0, c, word, unit + 1, next.1, next.2, bus), c);
    }
  }

  /** A transfer leaves every other channel as its control writes say. */
  lemma TransferFollows(d: Controller, c: nat, bus: Bus, k: nat)
    requires Bounded(d) && c < CHANNELS && k < CHANNELS && k != c
    ensures Follows(k, d.channels[k], Transferred(d, c, bus).controller.channels[k], TransferTrace(d, c, bus), c)
  {
    var ch := d.channels[c];
    MovedFollows(d, c, Transfer32(ch), 0, ch.currentSource, ch.currentDestination, bus, k);
    LastWriteJoined(MovedTrace(d, c, Transfer32(ch), 0, ch.currentSource, ch.currentDestination, bus), [Completion(c)], k);
    hide Moved, MovedTrace, CompletedChannel, MaskedControl, ChannelAccepted;
  }

  /** A transfer started on an enabled channel leaves it acceptable unless the transfer's last write
      to its own control register disabled it with a recurring repeat; it is never left armed. */
  lemma TransferOwn(d: Controller, c: nat, bus: Bus)
    requires Bounded(d) && c < CHANNELS && Enabled(d.channels[c])
    ensures var own, after := LastWrite(TransferTrace(d, c, bus), c), Transferred(d, c, bus).controller.channels[c];
            && !ImmediateArmed(after)
            && (own.Some? ==> own.value.runner == c)
            && (ChannelAccepted(c, after) <==> !(own.Some? && SelfDisables(own.value.value)))
  {
    var ch := d.channels[c];
    var trace := MovedTrace(d, c, Transfer32(ch), 0, ch.currentSource, ch.currentDestination, bus);
    var moved := Moved(d, c, Transfer32(ch), 0, ch.currentSource, ch.currentDestination, bus);
    var last := moved.0.channels[c];
    MovedFollows(d, c, Transfer32(ch), 0, ch.currentSource, ch.currentDestination, bus, c);
    LastWriteJoined(trace, [Completion(c)], c);
    assert InBounds(c, last);
    CompletedAccepted(c, last, moved.1, moved.2);
    CompletedArmed(c, last, moved.1, moved.2);
    if LastWrite(trace, c).Some? {
      MaskedArms(c, LastWrite(trace, c).value.value, last);
    }
    hide Moved, MovedTrace, CompletedChannel, MaskedControl, ChannelAccepted, ImmediateArmed, Repeats, StartTiming;
  }

  // ---------------------------------------------------------------- the loader's checks after a run

  /** A channel passes the loader's checks after a run if and only if the last write to its control
      register was not the one its own transfer switched it off with while leaving it repeating. */
  lemma {:induction false} RunAccepts(d: Controller, timing: Timing, c: nat, bus: Bus, k: nat)
    requires Bounded(d) && c <= CHANNELS && k < CHANNELS
    ensures ChannelAccepted(k, RunFrom(d, timing, c, bus).controller.channels[k])
       <==> match LastWrite(RunTrace(d, timing, c, bus), k)
            case None => ChannelAccepted(k, d.channels[k])
            case Some(w) => !(w.runner == k && SelfDisables(w.value))
    decreases CHANNELS - c
  {
    hide StartTiming, SourceStep, Transferred, TransferTrace, MaskedControl, SelfDisables;
    if c < CHANNELS {
      var ch := d.channels[c];
      if !Enabled(ch) || StartTiming(ch) != timing {
        RunAccepts(d, timing, c + 1, bus, k);
      } else if SourceStep(ch) != IncrementReload {
        var next := Transferred(d, c, bus).controller;
        RunAccepts(next, timing, c + 1, bus, k);
        LastWriteJoined(TransferTrace(d, c, bus), RunTrace(next, timing, c + 1, bus), k);
        if k == c {
          assert InBounds(c, ch);
          TransferOwn(d, c, bus);
        } else {
          TransferFollows(d, c, bus, k);
        }
      }
    }
  }

  /** A transfer leaves armed what its last control writes armed, and never its own channel. */
  lemma TransferArms(d: Controller, c: nat, bus: Bus, k: nat)
    requires Bounded(d) && c < CHANNELS && Enabled(d.channels[c]) && k < CHANNELS
    ensures ImmediateArmed(Transferred(d, c, bus).controller.channels[k])
       <==> k != c && match LastWrite(TransferTrace(d, c, bus), k)
                      case None => ImmediateArmed(d.channels[k])
                      case Some(w) => Arms(w.value)
    ensures var w := LastWrite(TransferTrace(d, c, bus), k);
            w.Some? ==> w.value.runner == c
  {
    if k == c {
      TransferOwn(d, c, bus);
    } else {
      TransferFollows(d, c, bus, k);
      var w := LastWrite(TransferTrace(d, c, bus), k);
      if w.Some? {
        MaskedArms(k, w.value.value, Transferred(d, c, bus).controller.channels[k]);
      }
    }
    hide LastWrite, Transferred, TransferTrace, Arms, MaskedControl, SelfDisables, ChannelAccepted;
  }

  /** After an unrefused immediate run a channel is armed if and only if the last write to its control
      register armed it and came from a higher channel's transfer, after the run had passed it. */
  lemma {:induction false} RunArms(d: Controller, c: nat, bus: Bus, k: nat)
    requires Bounded(d) && c <= CHANNELS && k < CHANNELS && !RunFrom(d, Immediate, c, bus).unsupported
    ensures ImmediateArmed(RunFrom(d, Immediate, c, bus).controller.channels[k])
       <==> match LastWrite(RunTrace(d, Immediate, c, bus), k)
            case None => k < c && ImmediateArmed(d.channels[k])
            case Some(w) => w.runner > k && Arms(w.value)
    decreases CHANNELS - c
  {
    hide SourceStep, Transferred, TransferTrace, Arms, LastWrite;
    if c < CHANNELS {
      var ch := d.channels[c];
      if !Enabled(ch) || StartTiming(ch) != Immediate {
        RunArms(d, c + 1, bus, k);
      } else {
        var next := Transferred(d, c, bus).controller;
        RunArms(next, c + 1, bus, k);
        LastWriteJoined(TransferTrace(d, c, bus), RunTrace(next, Immediate, c + 1, bus), k);
        TransferArms(d, c, bus, k);
      }
    }
  }

  /** A refused run leaves the refused channel armed. */
  lemma {:induction false} RefusedStaysArmed(d: Controller, c: nat, bus: Bus)
    requires Bounded(d) && c <= CHANNELS && RunFrom(d, Immediate, c, bus).unsupported
    ensures SomeImmediate(RunFrom(d, Immediate, c, bus).controller.channels)
    decreases CHANNELS - c
  {
    hide SourceStep, Transferred;
    if c < CHANNELS {
      var ch := d.channels[c];
      if !Enabled(ch) || StartTiming(ch) != Immediate {
        RefusedStaysArmed(d, c + 1, bus);
      } else if SourceStep(ch) == IncrementReload {
        assert ImmediateArmed(d.channels[c]);
      } else {
        RefusedStaysArmed(Transferred(d, c, bus).controller, c + 1, bus);
      }
    }
  }

  // ---------------------------------------------------------------- the pending flag

  /** Which channels are enabled for immediate start, and whether the flag is up. */
  datatype Flags = Flags(armed: set<nat>, pending: bool)

  function Armed(channels: seq<Channel>): (r: set<nat>)
    ensures r != {} <==> SomeImmediate(channels)
  {
    var r := set k: nat | k < |channels| && ImmediateArmed(channels[k]);
    assert forall k :: 0 <= k < |channels| && ImmediateArmed(channels[k]) ==> k in r;
    r
  }

  function FlagsOf(d: Controller): Flags {
    Flags(Armed(d.channels), d.immediatePending)
  }

  function FlagStep(f: Flags, e: Event): Flags {
    match e
    case Completion(c) => f.(armed := f.armed - {c})
    case ControlWrite(runner, target, value) =>
      if Arms(value) then Flags(f.armed + {target}, true)
      else if target in f.armed then Flags(f.armed - {target}, f.armed - {target} != {})
      else f
  }

  function FlagsAfter(f: Flags, trace: seq<Event>): Flags {
    if trace == [] then f else FlagStep(FlagsAfter(f, trace[..|trace| - 1]), trace[|trace| - 1])
  }

  lemma {:induction false} FlagsJoined(f: Flags, a: seq<Event>, b: seq<Event>)
    ensures FlagsAfter(f, a + b) == FlagsAfter(FlagsAfter(f, a), b)
    decreases |b|
  {
    hide FlagStep;
    if b == [] {
      assert a + b == a;
    } else {
      assert (a + b)[..|a + b| - 1] == a + b[..|b| - 1];
      FlagsJoined(f, a, b[..|b| - 1]);
    }
  }

  lemma ArmedUpdated(channels: seq<Channel>, c: nat, ch: Channel)
    requires c < |channels|
    ensures Armed(channels[c := ch]) == if ImmediateArmed(ch) then Armed(channels) + {c} else Armed(channels) - {c}
  {
    hide ImmediateArmed;
  }

  lemma ControlFlags(d: Controller, runner: Index, c: Index, value: u16)
    requires Shaped(d)
    ensures FlagsOf(ControlWritten(d, c, value)) == FlagStep(FlagsOf(d), ControlWrite(runner, c, value))
  {
    var ch := ControlledChannel(c, d.channels[c], value);
    ArmedUpdated(d.channels, c, ch);
    MaskedArms(c, value, ch);
    hide ImmediateArmed, ControlledChannel, Arms, MaskedControl;
    assert c in Armed(d.channels) <==> ImmediateArmed(d.channels[c]);
  }

  lemma RegisterFlags(d: Controller, runner: Index, address: u32, value: u16)
    requires Shaped(d)
    ensures FlagsOf(RegisterWritten(d, address, value)) == FlagsAfter(FlagsOf(d), RegisterTrace(runner, address, value))
  {
    if REGISTER_BASE <= address < REGISTER_BASE + REGISTER_BYTES {
      var c, offset := (address - REGISTER_BASE) / 12, (address - REGISTER_BASE) % 12;
      if offset == 10 {
        ControlFlags(d, runner, c, value);
        hide FlagStep, ControlWritten, FlagsOf;
        var e := ControlWrite(runner, c, value);
        assert RegisterTrace(runner, address, value) == [e] && [e][..0] == [];
      } else {
        var next := RegisterWritten(d, address, value);
        ProgrammedFlags(d, next, c);
      }
    }
  }

  /** Only control registers arm channels. */
  lemma ProgrammedFlags(d: Controller, e: Controller, c: nat)
    requires Shaped(d) && Shaped(e) && c < CHANNELS && e == WithChannel(d, c, e.channels[c])
    requires e.channels[c].control == d.channels[c].control
    ensures FlagsOf(e) == FlagsOf(d)
  {
    assert ImmediateArmed(e.channels[c]) == ImmediateArmed(d.channels[c]);
    hide ImmediateArmed;
    ArmedUpdated(d.channels, c, e.channels[c]);
    assert c in Armed(d.channels) <==> ImmediateArmed(d.channels[c]);
  }

  lemma WriteFlags(d: Controller, runner: Index, word: bool, address: u32, value: u32)
    requires Shaped(d)
    ensures FlagsOf(Written(d, word, address, value)) == FlagsAfter(FlagsOf(d), WriteTrace(runner, word, address, value))
  {
    hide RegisterWritten, RegisterTrace, AlignDown, NextHalfword, Low16, High16, FlagsOf, FlagsAfter, Bounded;
    if word {
      var aligned := AlignDown(address, 4);
      var half := RegisterWritten(d, aligned, Low16(value));
      RegisterFlags(d, runner, aligned, Low16(value));
      RegisterFlags(half, runner, NextHalfword(aligned), High16(value));
      FlagsJoined(FlagsOf(d), RegisterTrace(runner, aligned, Low16(value)),
                  RegisterTrace(runner, NextHalfword(aligned), High16(value)));
    } else {
      RegisterFlags(d, runner, AlignDown(address, 2), Low16(value));
    }
  }

  /** The units of a transfer change the armed channels and the flag as its control writes do. */
  lemma {:induction false} MovedFlags(d: Controller, c: nat, word: bool, unit: nat, source: u32, destination: u32,
                                      bus: Bus)
    requires Bounded(d) && c < CHANNELS
    ensures FlagsOf(Moved(d, c, word, unit, source, destination, bus).0)
         == FlagsAfter(FlagsOf(d), MovedTrace(d, c, word, unit, source, destination, bus))
    decreases Capacity(c) - unit
  {
    hide FlagsOf, FlagStep, Written, WriteTrace, UnitValue, EffectiveDestination, Stepped;
    if unit < d.channels[c].currentCount {
      assert InBounds(c, d.channels[c]);
      var latched := WithChannel(d, c, Latched(d.channels[c], word, bus(c, unit)));
      ProgrammedFlags(d, latched, c);
      var address, value := EffectiveDestination(c, destination), UnitValue(d.channels[c], word, bus(c, unit));
      WriteFlags(latched, c, word, address, value);
      var next := UnitMoved(d, c, word, source, destination, bus(c, unit));
      hide UnitMoved, InBounds;
      MovedFlags(next.0, c, word, unit + 1, next.1, next.2, bus);
      FlagsJoined(FlagsOf(d), WriteTrace(c, word, address, value),
                  MovedTrace(next.0, c, word, unit + 1, next.1, next.2, bus));
    }
  }

  lemma TransferFlags(d: Controller, c: nat, bus: Bus)
    requires Bounded(d) && c < CHANNELS
    ensures FlagsOf(Transferred(d, c, bus).controller) == FlagsAfter(FlagsOf(d), TransferTrace(d, c, bus))
  {
    var ch := d.channels[c];
    var moved := Moved(d, c, Transfer32(ch), 0, ch.currentSource, ch.currentDestination, bus);
    var trace := MovedTrace(d, c, Transfer32(ch), 0, ch.currentSource, ch.currentDestination, bus);
    MovedFlags(d, c, Transfer32(ch), 0, ch.currentSource, ch.currentDestination, bus);
    FlagsJoined(FlagsOf(d), trace, [Completion(c)]);
    CompletedArmed(c, moved.0.channels[c], moved.1, moved.2);
    hide Moved, MovedTrace, CompletedChannel, ImmediateArmed;
    ArmedUpdated(moved.0.channels, c, CompletedChannel(c, moved.0.channels[c], moved.1, moved.2));
    assert [Completion(c)][..0] == [];
  }

  /** The channels a run serves change the armed channels and the flag as its trace does. */
  lemma {:induction false} RunFlags(d: Controller, timing: Timing, c: nat, bus: Bus)
    requires Bounded(d) && c <= CHANNELS
    ensures FlagsOf(RunFrom(d, timing, c, bus).controller) == FlagsAfter(FlagsOf(d), RunTrace(d, timing, c, bus))
    decreases CHANNELS - c
  {
    hide StartTiming, SourceStep, Enabled, Transferred, TransferTrace, FlagsOf, FlagStep;
    if c < CHANNELS {
      var ch := d.channels[c];
      if !Enabled(ch) || StartTiming(ch) != timing {
        RunFlags(d, timing, c + 1, bus);
      } else if SourceStep(ch) != IncrementReload {
        TransferFlags(d, c, bus);
        var next := Transferred(d, c, bus).controller;
        RunFlags(next, timing, c + 1, bus);
        FlagsJoined(FlagsOf(d), TransferTrace(d, c, bus), RunTrace(next, timing, c + 1, bus));
      }
    }
  }

  /** A transfer ends while its channel is the only armed one, and nothing arms a channel afterwards. */
  ghost predicate LastArmedServed(f: Flags, trace: seq<Event>) {
    exists i :: 0 <= i < |trace| && ServesLastArmed(f, trace, i) && NothingArmsAfter(trace, i)
  }

  ghost predicate ServesLastArmed(f: Flags, trace: seq<Event>, i: nat)
    requires i < |trace|
  {
    trace[i].Completion? && FlagsAfter(f, trace[..i]).armed == {trace[i].channel}
  }

  ghost predicate NothingArmsAfter(trace: seq<Event>, i: nat) {
    forall j :: i < j < |trace| && trace[j].ControlWrite? ==> !Arms(trace[j].value)
  }

  lemma LastArmedServedStep(f: Flags, trace: seq<Event>, e: Event)
    ensures LastArmedServed(f, trace + [e])
       <==> (e.Completion? && FlagsAfter(f, trace).armed == {e.channel})
            || (LastArmedServed(f, trace) && !(e.ControlWrite? && Arms(e.value)))
  {
    hide FlagsAfter, Arms;
    var longer := trace + [e];
    assert forall i :: 0 <= i <= |trace| ==> longer[..i] == trace[..i];
    assert trace[..|trace|] == trace;
    assert forall i :: 0 <= i < |trace| ==> (ServesLastArmed(f, longer, i) <==> ServesLastArmed(f, trace, i));
    assert ServesLastArmed(f, longer, |trace|) <==> e.Completion? && FlagsAfter(f, trace).armed == {e.channel};
    forall i | 0 <= i < |trace|
      ensures NothingArmsAfter(longer, i) <==> NothingArmsAfter(trace, i) && !(e.ControlWrite? && Arms(e.value))
    {
      assert longer[|trace|] == e;
      assert forall j :: 0 <= j < |trace| ==> longer[j] == trace[j];
    }
    assert NothingArmsAfter(longer, |trace|);
  }

  /** Outside immediate runs a right flag goes wrong exactly when the last armed channel was switched
      off by completing and not by a control write. */
  lemma {:induction false} FlagSurvives(f: Flags, trace: seq<Event>)
    requires f.pending <==> f.armed != {}
    ensures var g := FlagsAfter(f, trace);
            && (g.armed != {} ==> g.pending)
            && ((g.pending <==> g.armed != {}) <==> !LastArmedServed(f, trace))
    decreases |trace|
  {
    if trace != [] {
      var before, e := trace[..|trace| - 1], trace[|trace| - 1];
      assert trace == before + [e];
      FlagSurvives(f, before);
      LastArmedServedStep(f, before, e);
      hide LastArmedServed, Arms;
      assert FlagsAfter(f, trace) == FlagStep(FlagsAfter(f, before), e);
    }
  }
}
