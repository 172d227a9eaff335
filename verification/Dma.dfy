/**
 The DMA controller: channel registers, latched counters and the immediate-start flag, with
 transfers whose writes may land on the controller's own registers.
 */
module Dma {
  import opened Prelude

  const CHANNELS: nat := 4
  const REGISTER_BASE: u32 := 0x0400_00B0
  const REGISTER_BYTES: u32 := 48
  const ENABLE: int := 0x8000
  const FIFO_A: u32 := 0x0400_00A0
  const FIFO_B: u32 := 0x0400_00A4

  datatype Timing = Immediate | VBlank | HBlank | Special
  datatype Step = Increment | Decrement | Fixed | IncrementReload

  datatype Channel = Channel(source: u32, destination: u32, wordCount: u16, control: u16,
                             currentSource: u32, currentDestination: u32, currentCount: nat, latch: u32)

  datatype Controller = Controller(channels: seq<Channel>, immediatePending: bool)

  const IDLE := Channel(0, 0, 0, 0, 0, 0, 0, 0)

  // ---------------------------------------------------------------- control fields

  predicate Enabled(ch: Channel) { ch.control / ENABLE % 2 == 1 }
  predicate IrqOnCompletion(ch: Channel) { ch.control / 0x4000 % 2 == 1 }
  predicate Transfer32(ch: Channel) { ch.control / 0x400 % 2 == 1 }
  predicate Repeats(ch: Channel) { ch.control / 0x200 % 2 == 1 }

  function StartTiming(ch: Channel): Timing {
    var field := ch.control / 0x1000 % 4;
    if field == 0 then Immediate else if field == 1 then VBlank else if field == 2 then HBlank else Special
  }

  function StepMode(field: nat): Step {
    if field == 0 then Increment else if field == 1 then Decrement else if field == 2 then Fixed else IncrementReload
  }

  function SourceStep(ch: Channel): Step { StepMode(ch.control / 0x80 % 4) }
  function DestinationStep(ch: Channel): Step { StepMode(ch.control / 0x20 % 4) }

  predicate ImmediateArmed(ch: Channel) {
    Enabled(ch) && StartTiming(ch) == Immediate
  }

  /** The writable bits: the low five never are, and bit 11 is only on channel 3. */
  function MaskedControl(c: nat, value: u16): (r: u16)
    ensures InMask(c, r)
  {
    var upper := value - value % 32;
    if c != 3 && upper / 0x800 % 2 == 1 then upper - 0x800 else upper
  }

  predicate InMask(c: nat, control: u16) {
    control % 32 == 0 && (c != 3 ==> control / 0x800 % 2 == 0)
  }

  function Capacity(c: nat): nat {
    if c == 3 then 0x1_0000 else 0x4000
  }

  /** COUNT as the counter latches it: zero means the full capacity. */
  function NormalizedCount(c: nat, ch: Channel): (n: nat)
    ensures 1 <= n <= Capacity(c)
  {
    var count := ch.wordCount % Capacity(c);
    if count == 0 then Capacity(c) else count
  }

  function Disabled(ch: Channel): (r: Channel)
    ensures !Enabled(r) && r == ch.(control := r.control)
    ensures forall c: nat :: InMask(c, ch.control) ==> InMask(c, r.control)
  {
    if Enabled(ch) then ch.(control := ch.control - ENABLE) else ch
  }

  // ---------------------------------------------------------------- what snapshots rely on

  ghost predicate Shaped(d: Controller) {
    |d.channels| == CHANNELS
  }

  predicate SomeImmediate(channels: seq<Channel>) {
    exists c :: 0 <= c < |channels| && ImmediateArmed(channels[c])
  }

  /** One channel passes the snapshot loader's checks. */
  predicate ChannelAccepted(c: nat, ch: Channel) {
    InMask(c, ch.control) && (!Enabled(ch) ==> ch.currentCount == 0) && ch.currentCount <= Capacity(c)
  }

  predicate InBounds(c: nat, ch: Channel) {
    InMask(c, ch.control) && ch.currentCount <= Capacity(c)
  }

  /** What holds whatever the transfers write: control bits and counters stay in range. */
  ghost predicate Bounded(d: Controller) {
    Shaped(d) && forall c :: 0 <= c < CHANNELS ==> InBounds(c, d.channels[c])
  }

  ghost predicate PendingExact(d: Controller) {
    d.immediatePending <==> SomeImmediate(d.channels)
  }

  /** All channels pass the loader's checks; the pending flag may be in transit. */
  ghost predicate Accepted(d: Controller): (r: bool)
    ensures r ==> Bounded(d)
  {
    Shaped(d) && forall c :: 0 <= c < CHANNELS ==> ChannelAccepted(c, d.channels[c])
  }

  ghost predicate Consistent(d: Controller): (r: bool)
    ensures r ==> Bounded(d)
  {
    Accepted(d) && PendingExact(d)
  }

  /** load_state: None is a rejected snapshot. */
  function Loaded(d: Controller): Option<Controller>
    requires Shaped(d)
  {
    if forall c :: 0 <= c < CHANNELS ==> ChannelAccepted(c, d.channels[c])
    then Some(Controller(d.channels, SomeImmediate(d.channels)))
    else None
  }

  /** A saved state loads back to itself exactly when it is consistent. */
  lemma SnapshotIdentity(d: Controller)
    requires Shaped(d)
    ensures Loaded(d) == Some(d) <==> Consistent(d)
    ensures Loaded(d).Some? ==> Consistent(Loaded(d).value)
  {
    hide ChannelAccepted, ImmediateArmed;
  }

  // ---------------------------------------------------------------- register writes

  predicate SoundFifoArmed(c: nat, ch: Channel) {
    Enabled(ch) && (c == 1 || c == 2) && StartTiming(ch) == Special
    && (ch.destination == FIFO_A || ch.destination == FIFO_B)
  }

  /** The channel after a control write; enabling latches, and so does the FIFO stop sequence. */
  function ControlledChannel(c: nat, ch: Channel, value: u16): (r: Channel)
    ensures InBounds(c, ch) ==> InBounds(c, r)
  {
    var next := ch.(control := MaskedControl(c, value));
    var latched := if !Enabled(ch) && Enabled(next) then
        next.(currentSource := ch.source, currentDestination := ch.destination, currentCount := NormalizedCount(c, ch))
      else if SoundFifoArmed(c, ch) && ImmediateArmed(next) then next.(currentCount := NormalizedCount(c, ch))
      else next;
    if Enabled(next) then latched else latched.(currentCount := 0)
  }

  /** Enabling a channel latches its programmed addresses and count, where a count of zero in its 14 or,
      on channel 3, 16 bits means the whole range; a channel switched off has nothing latched. */
  lemma EnableLatches(c: nat, ch: Channel, value: u16)
    requires c < CHANNELS
    ensures var r := ControlledChannel(c, ch, value);
            var count := if c == 3 then ch.wordCount else ch.wordCount % 0x4000;
            && (Enabled(r) <==> value / 0x8000 % 2 == 1)
            && (r.source, r.destination, r.wordCount, r.latch) == (ch.source, ch.destination, ch.wordCount, ch.latch)
            && (!Enabled(ch) && Enabled(r) ==>
                  && r.currentSource == ch.source && r.currentDestination == ch.destination
                  && r.currentCount == if count == 0 then (if c == 3 then 0x1_0000 else 0x4000) else count)
            && (!Enabled(r) ==> r.currentCount == 0)
  {
    EnableKept(c, value);
    hide MaskedControl, StartTiming;
  }

  /** Of a control word bits 5 to 15 are kept, bit 11 on channel 3 only. */
  lemma ControlBits(c: nat, value: u16)
    ensures var r := MaskedControl(c, value);
            && r % 32 == 0 && r / 32 % 64 == value / 32 % 64 && r / 0x1000 == value / 0x1000
            && r / 0x800 % 2 == if c == 3 then value / 0x800 % 2 else 0
  {
    var low, middle, drq, high := value % 32, value / 32 % 64, value / 0x800 % 2, value / 0x1000;
    ControlSplit(value);
    ControlFields(middle, drq, high);
    ControlFields(middle, 0, high);
    var upper: int := 32 * middle + 0x800 * drq + 0x1000 * high;
    assert value - low == upper;
    assert MaskedControl(c, value) == if c == 3 then upper else 32 * middle + 0x1000 * high;
    hide MaskedControl;
  }

  lemma ControlSplit(value: u16)
    ensures value == value % 32 + 32 * (value / 32 % 64) + 0x800 * (value / 0x800 % 2) + 0x1000 * (value / 0x1000)
  {
    assert value / 32 / 64 == value / 0x800 && value / 0x800 / 2 == value / 0x1000;
  }

  lemma ControlFields(middle: nat, drq: nat, high: nat)
    requires middle < 64 && drq <= 1
    ensures var x := 32 * middle + 0x800 * drq + 0x1000 * high;
            x % 32 == 0 && x / 32 % 64 == middle && x / 0x800 % 2 == drq && x / 0x1000 == high
  {
    assert (32 * middle + 0x800 * drq + 0x1000 * high) / 0x800 == drq + 2 * high;
  }

  lemma EnableKept(c: nat, value: u16)
    ensures MaskedControl(c, value) / ENABLE % 2 == value / ENABLE % 2
  {
  }

  function WithChannel(d: Controller, c: nat, ch: Channel): (r: Controller)
    requires Shaped(d) && c < CHANNELS
    ensures Shaped(r) && (Bounded(d) && InBounds(c, ch) ==> Bounded(r))
  {
    d.(channels := d.channels[c := ch])
  }

  function ControlWritten(d: Controller, c: nat, value: u16): (r: Controller)
    requires Shaped(d) && c < CHANNELS
    ensures Shaped(r) && (Bounded(d) ==> Bounded(r))
  {
    var next := WithChannel(d, c, ControlledChannel(c, d.channels[c], value));
    if ImmediateArmed(next.channels[c]) then next.(immediatePending := true)
    else if ImmediateArmed(d.channels[c]) then next.(immediatePending := SomeImmediate(next.channels))
    else next
  }

  /** A halfword written to the controller's part of the I/O map. */
  function RegisterWritten(d: Controller, address: u32, value: u16): (r: Controller)
    requires Shaped(d)
    ensures Shaped(r) && (Bounded(d) ==> Bounded(r))
  {
    if address < REGISTER_BASE || address >= REGISTER_BASE + REGISTER_BYTES then d
    else
      var c, offset := (address - REGISTER_BASE) / 12, (address - REGISTER_BASE) % 12;
      var ch := d.channels[c];
      if offset == 0 then WithChannel(d, c, ch.(source := ch.source - ch.source % 0x1_0000 + value))
      else if offset == 2 then WithChannel(d, c, ch.(source := ch.source % 0x1_0000 + 0x1_0000 * value))
      else if offset == 4 then WithChannel(d, c, ch.(destination := ch.destination - ch.destination % 0x1_0000 + value))
      else if offset == 6 then WithChannel(d, c, ch.(destination := ch.destination % 0x1_0000 + 0x1_0000 * value))
      else if offset == 8 then WithChannel(d, c, ch.(wordCount := value))
      else if offset == 10 then ControlWritten(d, c, value)
      else d
  }

  /** Register writes keep the controller consistent. */
  lemma RegisterWriteKeeps(d: Controller, address: u32, value: u16)
    requires Consistent(d)
    ensures Consistent(RegisterWritten(d, address, value))
  {
    if REGISTER_BASE <= address < REGISTER_BASE + REGISTER_BYTES {
      var c, offset := (address - REGISTER_BASE) / 12, (address - REGISTER_BASE) % 12;
      if offset == 10 {
        ControlWriteKeeps(d, c, value);
      } else {
        var e := RegisterWritten(d, address, value);
        LatchedAlike(d, e, c);
      }
    }
  }

  /** Changing only programmed registers changes nothing the snapshot checks look at. */
  lemma LatchedAlike(d: Controller, e: Controller, c: nat)
    requires Consistent(d) && Shaped(e) && c < CHANNELS && e == WithChannel(d, c, e.channels[c])
    requires e.channels[c].control == d.channels[c].control && e.channels[c].currentCount == d.channels[c].currentCount
    ensures Consistent(e)
  {
    forall k | 0 <= k < CHANNELS
      ensures ImmediateArmed(e.channels[k]) <==> ImmediateArmed(d.channels[k])
    {
    }
    SameArmed(d.channels, e.channels);
  }

  lemma SameArmed(a: seq<Channel>, b: seq<Channel>)
    requires |a| == |b| && forall k :: 0 <= k < |a| ==> (ImmediateArmed(a[k]) <==> ImmediateArmed(b[k]))
    ensures SomeImmediate(a) <==> SomeImmediate(b)
  {
    hide ImmediateArmed;
  }

  lemma ControlWriteKeeps(d: Controller, c: nat, value: u16)
    requires Consistent(d) && c < CHANNELS
    ensures Consistent(ControlWritten(d, c, value))
  {
    var next := WithChannel(d, c, ControlledChannel(c, d.channels[c], value));
    ControlledAccepted(c, d.channels[c], value);
    hide ImmediateArmed, ControlledChannel, ChannelAccepted;
    if !ImmediateArmed(next.channels[c]) && !ImmediateArmed(d.channels[c]) {
      SameArmed(d.channels, next.channels);
    }
  }

  lemma ControlledAccepted(c: nat, ch: Channel, value: u16)
    requires ChannelAccepted(c, ch)
    ensures ChannelAccepted(c, ControlledChannel(c, ch, value))
  {
    hide MaskedControl, StartTiming;
  }

  function ControlAddress(k: nat): u32
    requires k < CHANNELS
  {
    REGISTER_BASE + 12 * k + 10
  }

  // ---------------------------------------------------------------- transfers

  /** What reading a transfer's unit from memory gives, by channel and unit; None where the source
      has no readable value and the latch is used. */
  type Bus = (nat, nat) -> Option<u32>

  function EffectiveDestination(c: nat, address: u32): (r: u32)
    ensures r < 0x1000_0000
  {
    if c == 3 then address % 0x1000_0000 else address % 0x0800_0000
  }

  predicate SourceIsRom(c: nat, address: u32) {
    c != 0 && 0x0800_0000 <= address % 0x1000_0000 < 0x0E00_0000
  }

  function Stepped(address: u32, step: Step, unitSize: nat): u32 {
    match step
    case Increment => (address + unitSize) % TWO32
    case IncrementReload => (address + unitSize) % TWO32
    case Decrement => (address - unitSize) % TWO32
    case Fixed => address
  }

  function Written(d: Controller, word: bool, address: u32, value: u32): (r: Controller)
    requires Shaped(d)
    ensures Shaped(r) && (Bounded(d) ==> Bounded(r))
  {
    if word then
      var aligned := AlignDown(address, 4);
      RegisterWritten(RegisterWritten(d, aligned, Low16(value)), NextHalfword(aligned), High16(value))
    else RegisterWritten(d, AlignDown(address, 2), Low16(value))
  }

  function NextHalfword(address: u32): u32 {
    (address + 2) % TWO32
  }

  function Low16(value: u32): u16 {
    value % 0x1_0000
  }

  function High16(value: u32): u16 {
    value / 0x1_0000
  }

  function AlignDown(address: u32, size: nat): (r: u32)
    requires size == 2 || size == 4
    ensures r <= address
  {
    address - address % size
  }

  function Latched(ch: Channel, word: bool, read: Option<u32>): Channel {
    match read
    case None => ch
    case Some(value) => ch.(latch := if word then value else value % 0x1_0000 * 0x1_0001)
  }

  function UnitValue(ch: Channel, word: bool, read: Option<u32>): u32 {
    var value := if read.Some? then read.value else ch.latch;
    if word then value else value % 0x1_0000
  }

  /** One unit: read or latch, write, and step both addresses. The destination steps as the
      control register says after the write. */
  function UnitMoved(d: Controller, c: nat, word: bool, source: u32, destination: u32, read: Option<u32>)
    : (r: (Controller, u32, u32))
    requires Shaped(d) && c < CHANNELS
    ensures Shaped(r.0) && (Bounded(d) ==> Bounded(r.0))
  {
    var ch := d.channels[c];
    var size := if word then 4 else 2;
    var after := Written(WithChannel(d, c, Latched(ch, word, read)), word,
                         EffectiveDestination(c, destination), UnitValue(ch, word, read));
    (after,
     Stepped(source, if SourceIsRom(c, source) then Increment else SourceStep(ch), size),
     Stepped(destination, DestinationStep(after.channels[c]), size))
  }

  lemma UnitKeeps(d: Controller, c: nat, word: bool, source: u32, destination: u32, read: Option<u32>)
    requires Consistent(d) && c < CHANNELS
    ensures Consistent(UnitMoved(d, c, word, source, destination, read).0)
  {
    var ch := d.channels[c];
    var e := WithChannel(d, c, Latched(ch, word, read));
    LatchedAlike(d, e, c);
    hide Consistent, EffectiveDestination, UnitValue, Latched;
    WrittenKeeps(e, word, EffectiveDestination(c, destination), UnitValue(ch, word, read));
  }

  lemma WrittenKeeps(d: Controller, word: bool, address: u32, value: u32)
    requires Consistent(d)
    ensures Consistent(Written(d, word, address, value))
  {
    assert Shaped(d);
    hide Consistent, Accepted, Bounded, RegisterWritten;
    hide AlignDown, NextHalfword, Low16, High16;
    if word {
      var aligned := AlignDown(address, 4);
      var half := RegisterWritten(d, aligned, Low16(value));
      RegisterWriteKeeps(d, aligned, Low16(value));
      RegisterWriteKeeps(half, NextHalfword(aligned), High16(value));
    } else {
      RegisterWriteKeeps(d, AlignDown(address, 2), Low16(value));
    }
  }

  /** All remaining units. The counter is looked up again before each, so a unit that disables its
      own channel ends the transfer. */
  ghost function Moved(d: Controller, c: nat, word: bool, unit: nat, source: u32, destination: u32, bus: Bus)
    : (r: (Controller, u32, u32))
    requires Bounded(d) && c < CHANNELS
    ensures Bounded(r.0)
    decreases Capacity(c) - unit
  {
    if unit >= d.channels[c].currentCount then (d, source, destination)
    else
      assert InBounds(c, d.channels[c]);
      var next := UnitMoved(d, c, word, source, destination, bus(c, unit));
      Moved(next.0, c, word, unit + 1, next.1, next.2, bus)
  }

  lemma {:induction false} MovedKeeps(d: Controller, c: nat, word: bool, unit: nat, source: u32, destination: u32,
                                      bus: Bus)
    requires Consistent(d) && c < CHANNELS
    ensures Consistent(Moved(d, c, word, unit, source, destination, bus).0)
    decreases Capacity(c) - unit
  {
    hide UnitMoved;
    if unit < d.channels[c].currentCount {
      assert InBounds(c, d.channels[c]);
      UnitKeeps(d, c, word, source, destination, bus(c, unit));
      var next := UnitMoved(d, c, word, source, destination, bus(c, unit));
      MovedKeeps(next.0, c, word, unit + 1, next.1, next.2, bus);
    }
  }

  /** One unit's use of the bus: the aligned addresses it reads and writes, and the value. */
  datatype Access = Access(source: u32, destination: u32, value: u32)

  function EffectiveSource(c: nat, address: u32): u32 {
    if c == 0 then address % 0x0800_0000 else address % 0x1000_0000
  }

  function AccessOf(ch: Channel, c: nat, word: bool, source: u32, destination: u32, read: Option<u32>): Access {
    var size := if word then 4 else 2;
    Access(AlignDown(EffectiveSource(c, source), size), AlignDown(EffectiveDestination(c, destination), size),
           UnitValue(ch, word, read))
  }

  /** What all remaining units read and write. */
  ghost function Accesses(d: Controller, c: nat, word: bool, unit: nat, source: u32, destination: u32, bus: Bus)
    : seq<Access>
    requires Bounded(d) && c < CHANNELS
    decreases Capacity(c) - unit
  {
    if unit >= d.channels[c].currentCount then []
    else
      assert InBounds(c, d.channels[c]);
      var next := UnitMoved(d, c, word, source, destination, bus(c, unit));
      [AccessOf(d.channels[c], c, word, source, destination, bus(c, unit))]
      + Accesses(next.0, c, word, unit + 1, next.1, next.2, bus)
  }

  lemma UnitStep(d: Controller, c: nat, word: bool, unit: nat, source: u32, destination: u32, bus: Bus)
    requires Bounded(d) && c < CHANNELS && unit < d.channels[c].currentCount
    ensures unit < Capacity(c)
    ensures var next := UnitMoved(d, c, word, source, destination, bus(c, unit));
            && Moved(d, c, word, unit, source, destination, bus)
               == Moved(next.0, c, word, unit + 1, next.1, next.2, bus)
            && Accesses(d, c, word, unit, source, destination, bus)
               == [AccessOf(d.channels[c], c, word, source, destination, bus(c, unit))]
                  + Accesses(next.0, c, word, unit + 1, next.1, next.2, bus)
  {
    hide UnitMoved, AccessOf;
    assert InBounds(c, d.channels[c]);
  }

  ghost function TransferAccesses(d: Controller, c: nat, bus: Bus): seq<Access>
    requires Bounded(d) && c < CHANNELS
  {
    var ch := d.channels[c];
    Accesses(d, c, Transfer32(ch), 0, ch.currentSource, ch.currentDestination, bus)
  }

  /** The channel after its last unit: re-armed if it repeats on a recurring trigger, else off. */
  function CompletedChannel(c: nat, ch: Channel, source: u32, destination: u32): (r: Channel)
    ensures InBounds(c, ch) ==> InBounds(c, r)
  {
    var done := ch.(currentSource := source, currentDestination := destination, currentCount := 0);
    if Repeats(ch) && StartTiming(ch) != Immediate then
      done.(currentCount := NormalizedCount(c, ch),
            currentDestination := if DestinationStep(ch) == IncrementReload then ch.destination else destination)
    else Disabled(done)
  }

  predicate OthersImmediate(channels: seq<Channel>, c: nat) {
    exists k :: 0 <= k < |channels| && k != c && ImmediateArmed(channels[k])
  }

  /** Completing a transfer keeps the controller consistent exactly when the units did not turn the
      channel off while leaving it repeating, nor make it the only immediate one. */
  lemma CompletionKeeps(d: Controller, c: nat, source: u32, destination: u32)
    requires Consistent(d) && c < CHANNELS
    ensures var ch := d.channels[c];
            Consistent(WithChannel(d, c, CompletedChannel(c, ch, source, destination)))
            <==> (!Enabled(ch) ==> !Repeats(ch) || StartTiming(ch) == Immediate)
                 && (ImmediateArmed(ch) ==> OthersImmediate(d.channels, c))
  {
    var ch := d.channels[c];
    var next := CompletedChannel(c, ch, source, destination);
    CompletedAccepted(c, ch, source, destination);
    CompletedArmed(c, ch, source, destination);
    ArmedElsewhere(d.channels, c, next);
    hide ImmediateArmed, CompletedChannel, ChannelAccepted, Enabled, Repeats, StartTiming, OthersImmediate, SomeImmediate;
    var after := WithChannel(d, c, next);
    assert forall k :: 0 <= k < CHANNELS && k != c ==> after.channels[k] == d.channels[k];
    forall k | 0 <= k < CHANNELS && k != c
      ensures ChannelAccepted(k, after.channels[k])
    {
      assert after.channels[k] == d.channels[k];
    }
    assert after.channels[c] == next;
  }

  lemma ArmedElsewhere(channels: seq<Channel>, c: nat, next: Channel)
    requires c < |channels| && !ImmediateArmed(next)
    ensures SomeImmediate(channels[c := next]) <==> OthersImmediate(channels, c)
    ensures SomeImmediate(channels) <==> ImmediateArmed(channels[c]) || OthersImmediate(channels, c)
  {
    hide ImmediateArmed;
    var after := channels[c := next];
    if SomeImmediate(after) {
      var k :| 0 <= k < |after| && ImmediateArmed(after[k]);
      assert ImmediateArmed(channels[k]);
    }
    if OthersImmediate(channels, c) {
      var k :| 0 <= k < |channels| && k != c && ImmediateArmed(channels[k]);
      assert ImmediateArmed(after[k]);
    }
  }

  lemma CompletedAccepted(c: nat, ch: Channel, source: u32, destination: u32)
    requires InBounds(c, ch)
    ensures ChannelAccepted(c, CompletedChannel(c, ch, source, destination))
       <==> (!Enabled(ch) ==> !Repeats(ch) || StartTiming(ch) == Immediate)
  {
  }

  lemma CompletedArmed(c: nat, ch: Channel, source: u32, destination: u32)
    ensures !ImmediateArmed(CompletedChannel(c, ch, source, destination))
  {
  }

  // ---------------------------------------------------------------- triggers

  /** After a channel's transfer: the registers, its interrupt if any, and the units it moved. */
  datatype Transfer = Transfer(controller: Controller, irqs: set<nat>, units: nat)

  ghost function Transferred(d: Controller, c: nat, bus: Bus): (r: Transfer)
    requires Bounded(d) && c < CHANNELS
    ensures Bounded(r.controller)
  {
    var ch := d.channels[c];
    var moved := Moved(d, c, Transfer32(ch), 0, ch.currentSource, ch.currentDestination, bus);
    var last := moved.0.channels[c];
    Transfer(WithChannel(moved.0, c, CompletedChannel(c, last, moved.1, moved.2)),
             if IrqOnCompletion(last) then {c} else {},
             last.currentCount)
  }

  datatype RunResult = RunResult(controller: Controller, executed: nat, irqs: set<nat>, units: nat, unsupported: bool,
                                 stillPending: bool)

  /** run_trigger from channel `c` on, without its last step. */
  ghost function RunFrom(d: Controller, timing: Timing, c: nat, bus: Bus): (r: RunResult)
    requires Bounded(d) && c <= CHANNELS
    ensures Bounded(r.controller)
    decreases CHANNELS - c
  {
    if c == CHANNELS then RunResult(d, 0, {}, 0, false, false)
    else if !Enabled(d.channels[c]) || StartTiming(d.channels[c]) != timing then RunFrom(d, timing, c + 1, bus)
    else if SourceStep(d.channels[c]) == IncrementReload then RunResult(d, 0, {}, 0, true, false)
    else
      var done := Transferred(d, c, bus);
      var rest := RunFrom(done.controller, timing, c + 1, bus);
      RunResult(rest.controller, rest.executed + 1, done.irqs + rest.irqs, done.units + rest.units, rest.unsupported,
                rest.stillPending || (timing == Immediate && ImmediateArmed(done.controller.channels[c])))
  }

  /** run_trigger: an immediate run also settles the pending flag. */
  ghost function Run(d: Controller, timing: Timing, bus: Bus): (r: RunResult)
    requires Bounded(d)
    ensures Bounded(r.controller)
  {
    var run := RunFrom(d, timing, 0, bus);
    if timing != Immediate then run
    else run.(controller := run.controller.(immediatePending := run.unsupported || run.stillPending))
  }

  // ---------------------------------------------------------------- sound FIFO requests

  const BURST: nat := 4

  /** A request's burst: the channel with its latch and, when all reads succeed, its source moved on. */
  function BurstRead(ch: Channel, c: nat, unit: nat, source: u32, bus: Bus): (r: (Channel, seq<u32>, bool))
    requires unit <= BURST
    ensures r.0 == ch.(latch := r.0.latch, currentSource := r.0.currentSource)
    decreases BURST - unit
  {
    if unit == BURST then (ch.(currentSource := source), [], true)
    else
      match bus(c, unit)
      case None => (ch, [], false)
      case Some(value) =>
        var rest := BurstRead(ch.(latch := value), c, unit + 1, Stepped(source, SourceStep(ch), 4), bus);
        (rest.0, [value] + rest.1, rest.2)
  }

  /** A served FIFO channel: re-armed if it repeats, else off. */
  function FifoServed(c: nat, ch: Channel, bus: Bus): (r: (Channel, bool))
    ensures InBounds(c, ch) ==> InBounds(c, r.0)
  {
    if SourceStep(ch) == IncrementReload then (ch, false)
    else
      var burst := BurstRead(ch, c, 0, ch.currentSource, bus);
      if !burst.2 then (burst.0, false)
      else
        var moved := burst.0.(currentDestination := ch.destination);
        if Repeats(ch) then (moved.(currentCount := NormalizedCount(c, ch)), true)
        else (Disabled(moved.(currentCount := 0)), true)
  }

  lemma FifoServedKeeps(c: nat, ch: Channel, bus: Bus)
    requires ChannelAccepted(c, ch) && Enabled(ch) && StartTiming(ch) == Special
    ensures ChannelAccepted(c, FifoServed(c, ch, bus).0) && !ImmediateArmed(FifoServed(c, ch, bus).0)
  {
    hide BurstRead, Disabled, NormalizedCount, Repeats, SourceStep;
  }

  predicate FifoRequested(c: nat, ch: Channel, fifo: u32) {
    (c == 1 || c == 2) && Enabled(ch) && StartTiming(ch) == Special && ch.destination == fifo
  }

  /** run_sound_fifo from channel `c` on; a refused or failing channel ends the run. */
  function FifoRun(d: Controller, fifo: u32, c: nat, bus: Bus): (r: Controller)
    requires Shaped(d) && c <= 3
    ensures Shaped(r) && (Bounded(d) ==> Bounded(r))
    decreases 3 - c
  {
    if c == 3 then d
    else if !FifoRequested(c, d.channels[c], fifo) then FifoRun(d, fifo, c + 1, bus)
    else
      var served := FifoServed(c, d.channels[c], bus);
      var next := WithChannel(d, c, served.0);
      if served.1 then FifoRun(next, fifo, c + 1, bus) else next
  }

  /** Sound FIFO requests never write registers and always keep the controller consistent. */
  lemma {:induction false} FifoKeeps(d: Controller, fifo: u32, c: nat, bus: Bus)
    requires Consistent(d) && c <= 3
    ensures Consistent(FifoRun(d, fifo, c, bus))
    decreases 3 - c
  {
    hide ChannelAccepted, ImmediateArmed, FifoServed;
    if c < 3 {
      var ch := d.channels[c];
      if !FifoRequested(c, ch, fifo) {
        FifoKeeps(d, fifo, c + 1, bus);
      } else {
        var served := FifoServed(c, ch, bus);
        assert !ImmediateArmed(ch) by { SpecialIsNotImmediate(ch); }
        FifoServedKeeps(c, ch, bus);
        ArmedElsewhere(d.channels, c, served.0);
        var next := WithChannel(d, c, served.0);
        assert Consistent(next);
        if served.1 {
          FifoKeeps(next, fifo, c + 1, bus);
        }
      }
    }
  }

  lemma SpecialIsNotImmediate(ch: Channel)
    requires StartTiming(ch) == Special
    ensures !ImmediateArmed(ch)
  {
  }

  // ---------------------------------------------------------------- the controller object

  const RESET := Controller([IDLE, IDLE, IDLE, IDLE], false)

  lemma ResetIsConsistent()
    ensures Consistent(RESET)
  {
    assert ChannelAccepted(0, IDLE) && ChannelAccepted(1, IDLE) && ChannelAccepted(2, IDLE) && ChannelAccepted(3, IDLE);
    assert !ImmediateArmed(IDLE);
    hide ChannelAccepted, ImmediateArmed;
  }

  class DmaController {
    var channels: seq<Channel>
    var immediatePending: bool

    ghost predicate Valid()
      reads this
    {
      |channels| == CHANNELS
    }

    function State(): Controller
      reads this
    {
      Controller(channels, immediatePending)
    }

    constructor ()
      ensures Valid() && State() == RESET
    {
      channels, immediatePending := [IDLE, IDLE, IDLE, IDLE], false;
    }

    method RefreshImmediatePending()
      requires Valid()
      modifies this`immediatePending
      ensures immediatePending <==> SomeImmediate(channels)
    {
      immediatePending := false;
      for c := 0 to CHANNELS
        invariant !immediatePending && forall k :: 0 <= k < c ==> !ImmediateArmed(channels[k])
      {
        if Enabled(channels[c]) && StartTiming(channels[c]) == Immediate {
          assert ImmediateArmed(channels[c]);
          immediatePending := true;
          return;
        }
      }
    }

    method WriteControl(c: nat, value: u16)
      requires Valid() && c < CHANNELS
      modifies this
      ensures Valid() && State() == ControlWritten(old(State()), c, value)
    {
      hide MaskedControl, NormalizedCount;
      var before := channels[c];
      var wasEnabled := Enabled(before);
      var wasImmediate := wasEnabled && StartTiming(before) == Immediate;
      var wasSoundFifo := SoundFifoArmed(c, before);
      var ch := before.(control := MaskedControl(c, value));
      var isEnabled := Enabled(ch);
      if !wasEnabled && isEnabled {
        ch := ch.(currentSource := ch.source, currentDestination := ch.destination, currentCount := NormalizedCount(c, ch));
      } else if wasSoundFifo && isEnabled && StartTiming(ch) == Immediate {
        ch := ch.(currentCount := NormalizedCount(c, ch));
      }
      if !isEnabled {
        ch := ch.(currentCount := 0);
      }
      SameCount(c, before, before.(control := MaskedControl(c, value)));
      assert ch == ControlledChannel(c, before, value);
      channels := channels[c := ch];
      if isEnabled && StartTiming(ch) == Immediate {
        immediatePending := true;
      } else if wasImmediate {
        RefreshImmediatePending();
      }
    }

    /** load_state: a snapshot that fails any check changes nothing. */
    method LoadState(snapshot: Controller) returns (ok: bool)
      requires Valid() && |snapshot.channels| == CHANNELS
      modifies this
      ensures Valid() && (ok <==> Loaded(snapshot).Some?)
      ensures State() == if ok then Loaded(snapshot).value else old(State())
    {
      hide ChannelAccepted;
      for c := 0 to CHANNELS
        invariant State() == old(State())
        invariant forall k :: 0 <= k < c ==> ChannelAccepted(k, snapshot.channels[k])
      {
        if !ChannelAccepted(c, snapshot.channels[c]) {
          return false;
        }
      }
      channels := snapshot.channels;
      RefreshImmediatePending();
      return true;
    }

    /** execute_channel, without its bus timing. */
    method ExecuteChannel(c: nat, bus: Bus) returns (ok: bool, units: nat, irqs: set<nat>, accesses: seq<Access>)
      requires Valid() && Bounded(State()) && c < CHANNELS
      modifies this
      ensures Valid() && Bounded(State())
      ensures ok <==> SourceStep(old(channels)[c]) != IncrementReload
      ensures ok ==> Transfer(State(), irqs, units) == Transferred(old(State()), c, bus)
      ensures ok ==> accesses == TransferAccesses(old(State()), c, bus)
      ensures !ok ==> State() == old(State()) && irqs == {} && units == 0 && accesses == []
    {
      hide Moved, Accesses, UnitMoved, AccessOf, CompletedChannel, InBounds;
      if SourceStep(channels[c]) == IncrementReload {
        return false, 0, {}, [];
      }
      accesses := [];
      var word := Transfer32(channels[c]);
      var source, destination := channels[c].currentSource, channels[c].currentDestination;
      ghost var start := Moved(State(), c, word, 0, source, destination, bus);
      ghost var all := Accesses(State(), c, word, 0, source, destination, bus);
      var unit := 0;
      while unit < channels[c].currentCount
        invariant Valid() && Bounded(State())
        invariant Moved(State(), c, word, unit, source, destination, bus) == start
        invariant accesses + Accesses(State(), c, word, unit, source, destination, bus) == all
        decreases Capacity(c) - unit
      {
        UnitStep(State(), c, word, unit, source, destination, bus);
        var access := AccessOf(channels[c], c, word, source, destination, bus(c, unit));
        var next := UnitMoved(State(), c, word, source, destination, bus(c, unit));
        ghost var rest := Accesses(next.0, c, word, unit + 1, next.1, next.2, bus);
        assert accesses + ([access] + rest) == accesses + [access] + rest;
        accesses := accesses + [access];
        channels, immediatePending := next.0.channels, next.0.immediatePending;
        source, destination := next.1, next.2;
        unit := unit + 1;
      }
      UnitsDone(State(), c, word, unit, source, destination, bus);
      units := channels[c].currentCount;
      irqs := if IrqOnCompletion(channels[c]) then {c} else {};
      channels := channels[c := CompletedChannel(c, channels[c], source, destination)];
      ok := true;
    }

    /** run_trigger for the four start timings. */
    method RunTrigger(timing: Timing, bus: Bus) returns (executed: nat, irqs: set<nat>, units: nat, unsupported: bool)
      requires Valid() && Bounded(State())
      modifies this
      ensures Valid()
      ensures var run := Run(old(State()), timing, bus);
              State() == run.controller && executed == run.executed && irqs == run.irqs && units == run.units
              && unsupported == run.unsupported
    {
      hide Transferred, Bounded, StartTiming, Enabled, SourceStep;
      executed, irqs, units, unsupported := 0, {}, 0, false;
      var stillPending := false;
      ghost var whole := RunFrom(State(), timing, 0, bus);
      for c := 0 to CHANNELS
        invariant Valid() && Bounded(State()) && !unsupported
        invariant var rest := RunFrom(State(), timing, c, bus);
                  whole == RunResult(rest.controller, executed + rest.executed, irqs + rest.irqs, units + rest.units,
                                     rest.unsupported, stillPending || rest.stillPending)
      {
        if Enabled(channels[c]) && StartTiming(channels[c]) == timing {
          var ok, moved, raised, _ := ExecuteChannel(c, bus);
          if !ok {
            unsupported := true;
            if timing == Immediate {
              immediatePending := true;
            }
            return;
          }
          executed, units, irqs := executed + 1, units + moved, irqs + raised;
          if timing == Immediate && Enabled(channels[c]) && StartTiming(channels[c]) == Immediate {
            stillPending := true;
          }
        }
      }
      if timing == Immediate {
        immediatePending := stillPending;
      }
    }
  }

  lemma SameCount(c: nat, a: Channel, b: Channel)
    requires a.wordCount == b.wordCount
    ensures NormalizedCount(c, a) == NormalizedCount(c, b)
  {
  }

  lemma UnitsDone(d: Controller, c: nat, word: bool, unit: nat, source: u32, destination: u32, bus: Bus)
    requires Bounded(d) && c < CHANNELS && unit >= d.channels[c].currentCount
    ensures Moved(d, c, word, unit, source, destination, bus) == (d, source, destination)
    ensures Accesses(d, c, word, unit, source, destination, bus) == []
  {
  }
}
