/**
 Where a transfer reads and writes: addresses and values of every unit, and the addresses it leaves,
 from the control bits and the unit number alone.
 */
module DmaAddresses {
  import opened Prelude
  import opened Dma
  import opened DmaTrace
  import opened DmaSnapshots

  /** What a two-bit step field adds per unit: up, down, fixed, and up once more. */
  function Delta(field: nat, size: int): int {
    if field == 1 then -size else if field == 2 then 0 else size
  }

  function SourceDelta(control: u16, size: nat): int {
    Delta(control / 128 % 4, size)
  }

  function DestinationDelta(control: u16, size: nat): int {
    Delta(control / 32 % 4, size)
  }

  function Moved32(address: u32, delta: int, n: nat): u32 {
    (address + n * delta) % 0x1_0000_0000
  }

  /** Cartridge ROM as channels 1 to 3 see it. */
  predicate InRom(c: nat, address: u32) {
    1 <= c <= 3 && 0x0800_0000 <= address % 0x1000_0000 < 0x0E00_0000
  }

  /** The source address of unit `n`: inside ROM always upwards, elsewhere as the control bits say. */
  function SourceAt(c: nat, control: u16, size: nat, source: u32, n: nat): u32
    decreases n
  {
    if n == 0 then source
    else
      SourceAt(c, control, size, Moved32(source, if InRom(c, source) then size else SourceDelta(control, size), 1), n - 1)
  }

  lemma MovedOne(address: u32, delta: int, n: nat)
    requires n > 0
    ensures Moved32(Moved32(address, delta, 1), delta, n - 1) == Moved32(address, delta, n)
    ensures Moved32(address, delta, 0) == address
  {
    var x := address + delta;
    assert address + n * delta == x + (n - 1) * delta;
    SumMod(x, (n - 1) * delta);
  }

  lemma SumMod(a: int, b: int)
    ensures (a % 0x1_0000_0000 + b) % 0x1_0000_0000 == (a + b) % 0x1_0000_0000
  {
  }

  lemma NextSource(c: nat, control: u16, size: nat, source: u32)
    ensures SourceAt(c, control, size, source, 0) == source
    ensures SourceAt(c, control, size, source, 1)
         == Moved32(source, if InRom(c, source) then size else SourceDelta(control, size), 1)
  {
    hide Moved32, InRom, SourceDelta;
    var next := Moved32(source, if InRom(c, source) then size else SourceDelta(control, size), 1);
    assert SourceAt(c, control, size, next, 0) == next;
  }

  /** Off ROM the source of unit `n` is a multiple of the step away, and in ROM of the unit size. */
  lemma {:induction false} SourceClosedForm(c: nat, control: u16, size: nat, source: u32, n: nat)
    ensures (forall k: nat :: k < n ==> !InRom(c, SourceAt(c, control, size, source, k)))
            ==> SourceAt(c, control, size, source, n) == Moved32(source, SourceDelta(control, size), n)
    ensures (forall k: nat :: k < n ==> InRom(c, SourceAt(c, control, size, source, k)))
            ==> SourceAt(c, control, size, source, n) == Moved32(source, size, n)
    decreases n
  {
    hide Moved32, InRom, SourceDelta;
    if n == 0 {
      MovedOne(source, SourceDelta(control, size), 1);
      MovedOne(source, size, 1);
    } else {
      var next := SourceAt(c, control, size, source, 1);
      NextSource(c, control, size, source);
      forall k: nat | k < n - 1
        ensures SourceAt(c, control, size, next, k) == SourceAt(c, control, size, source, k + 1)
      {
      }
      assert forall k: nat :: k < n - 1 ==>
               (InRom(c, SourceAt(c, control, size, next, k))
                <==> InRom(c, SourceAt(c, control, size, source, k + 1)));
      SourceClosedForm(c, control, size, next, n - 1);
      MovedOne(source, SourceDelta(control, size), n);
      MovedOne(source, size, n);
    }
  }

  lemma StepsAre(address: u32, field: nat, size: nat)
    requires field < 4
    ensures Stepped(address, StepMode(field), size) == Moved32(address, Delta(field, size), 1)
  {
  }

  /** The address on the bus: what the channel's side drives, aligned to the unit. */
  function Driven(address: u32, wide: bool, size: nat): nat
    requires size > 0
  {
    var driven := address % if wide then 0x1000_0000 else 0x0800_0000;
    driven - driven % size
  }

  lemma DrivenSides(c: nat, address: u32, size: nat)
    requires size == 2 || size == 4
    ensures AlignDown(EffectiveSource(c, address), size) == Driven(address, c != 0, size)
    ensures AlignDown(EffectiveDestination(c, address), size) == Driven(address, c == 3, size)
  {
  }

  /** Where unit `i` reads and writes, for a channel whose control register stays as it is: channel 0
      cannot read and only channel 3 can write beyond the first 128 MiB. */
  predicate AccessAt(c: nat, control: u16, word: bool, source: u32, destination: u32, i: nat, access: Access) {
    var size := if word then 4 else 2;
    && access.source == Driven(SourceAt(c, control, size, source, i), c != 0, size)
    && access.destination == Driven(Moved32(destination, DestinationDelta(control, size), i), c == 3, size)
  }

  /** All accesses are where the control bits, the first addresses and their numbers say, and so are
      the addresses left behind. */
  ghost predicate Placed(c: nat, control: u16, word: bool, source: u32, destination: u32, accesses: seq<Access>,
                         endSource: u32, endDestination: u32)
  {
    var size := if word then 4 else 2;
    && (forall i: nat :: i < |accesses| ==> AccessAt(c, control, word, source, destination, i, accesses[i]))
    && endSource == SourceAt(c, control, size, source, |accesses|)
    && endDestination == Moved32(destination, DestinationDelta(control, size), |accesses|)
  }

  /** One unit of a transfer that spares its control register: its addresses, and the next ones. */
  lemma SparedUnit(d: Controller, c: Index, word: bool, source: u32, destination: u32, read: Option<u32>)
    requires Bounded(d) && !Covers(c, word, destination, c)
    ensures var ch, next := d.channels[c], UnitMoved(d, c, word, source, destination, read);
            var size := if word then 4 else 2;
            && Underway(ch, next.0.channels[c])
            && next.1 == SourceAt(c, ch.control, size, source, 1)
            && next.2 == Moved32(destination, DestinationDelta(ch.control, size), 1)
            && AccessAt(c, ch.control, word, source, destination, 0, AccessOf(ch, c, word, source, destination, read))
  {
    var ch, size := d.channels[c], if word then 4 else 2;
    var next := UnitMoved(d, c, word, source, destination, read);
    SparedWrite(c, word, destination, UnitValue(ch, word, read), c);
    UnitFollows(d, c, word, source, destination, read, c);
    NextSource(c, ch.control, size, source);
    MovedOne(destination, DestinationDelta(ch.control, size), 1);
    SteppedOn(d, c, word, source, destination, read);
    DrivenSides(c, source, size);
    DrivenSides(c, destination, size);
    StepsAre(source, ch.control / 128 % 4, size);
    StepsAre(source, 0, size);
    StepsAre(destination, next.0.channels[c].control / 32 % 4, size);
    hide UnitMoved, WriteTrace, Written, UnitValue, EffectiveDestination, EffectiveSource, AlignDown, Stepped, StepMode,
      LastWrite, ChannelAccepted, MaskedControl, Moved32, Covers, Delta, Driven;
    assert Underway(ch, next.0.channels[c]);
  }

  lemma SteppedOn(d: Controller, c: Index, word: bool, source: u32, destination: u32, read: Option<u32>)
    requires Bounded(d)
    ensures var ch, next := d.channels[c], UnitMoved(d, c, word, source, destination, read);
            var size := if word then 4 else 2;
            && next.1 == Stepped(source, if InRom(c, source) then StepMode(0) else StepMode(ch.control / 128 % 4), size)
            && next.2 == Stepped(destination, StepMode(next.0.channels[c].control / 32 % 4), size)
  {
    hide Written, EffectiveDestination, UnitValue, Stepped;
  }

  /** A transfer that spares its own control register makes one access per latched unit. */
  lemma {:induction false} AccessCount(d: Controller, c: Index, word: bool, unit: nat, source: u32, destination: u32,
                                       bus: Bus)
    requires Bounded(d) && SparedFrom(d.channels[c], c, word, unit, destination)
    ensures |Accesses(d, c, word, unit, source, destination, bus)| == Max(0, d.channels[c].currentCount - unit)
    decreases Capacity(c) - unit
  {
    hide UnitMoved, SparedFrom, AccessOf;
    if unit < d.channels[c].currentCount {
      var next := UnitMoved(d, c, word, source, destination, bus(c, unit));
      SparedStep(d, c, word, unit, source, destination, bus(c, unit));
      AccessCount(next.0, c, word, unit + 1, next.1, next.2, bus);
    }
  }

  /** Each access is where the control bits, the first addresses and its number say, and so are the
      addresses left behind. */
  lemma {:induction false} AccessesFollow(d: Controller, c: Index, word: bool, unit: nat, source: u32, destination: u32,
                                          bus: Bus)
    requires Bounded(d) && SparedFrom(d.channels[c], c, word, unit, destination)
    ensures var moved := Moved(d, c, word, unit, source, destination, bus);
            Placed(c, d.channels[c].control, word, source, destination,
                   Accesses(d, c, word, unit, source, destination, bus), moved.1, moved.2)
    decreases Capacity(c) - unit
  {
    hide UnitMoved, SparedFrom, AccessOf, Placed, SourceAt, Moved32, DestinationDelta, AccessAt;
    if unit >= d.channels[c].currentCount {
      NothingPlaced(c, d.channels[c].control, word, source, destination);
    } else {
      var next := UnitMoved(d, c, word, source, destination, bus(c, unit));
      SparedStep(d, c, word, unit, source, destination, bus(c, unit));
      AccessesFollow(next.0, c, word, unit + 1, next.1, next.2, bus);
      var moved := Moved(next.0, c, word, unit + 1, next.1, next.2, bus);
      PlacedOneMore(c, d.channels[c].control, word, source, destination,
                    AccessOf(d.channels[c], c, word, source, destination, bus(c, unit)),
                    Accesses(next.0, c, word, unit + 1, next.1, next.2, bus), moved.1, moved.2);
    }
  }

  /** The units left, if any, spare the channel's own control register. */
  predicate SparedFrom(ch: Channel, c: Index, word: bool, unit: nat, destination: u32) {
    ch.currentCount > unit ==> SparesFrom(c, word, DestinationStep(ch), destination, ch.currentCount - unit, c)
  }

  lemma {:induction false} NothingPlaced(c: nat, control: u16, word: bool, source: u32, destination: u32)
    ensures Placed(c, control, word, source, destination, [], source, destination)
  {
    MovedOne(destination, DestinationDelta(control, if word then 4 else 2), 1);
    hide Moved32, DestinationDelta;
  }

  lemma {:induction false} SparedStep(d: Controller, c: Index, word: bool, unit: nat, source: u32, destination: u32,
                                      read: Option<u32>)
    requires Bounded(d) && unit < d.channels[c].currentCount && SparedFrom(d.channels[c], c, word, unit, destination)
    ensures unit < Capacity(c)
    ensures var ch, next := d.channels[c], UnitMoved(d, c, word, source, destination, read);
            var after, size := next.0.channels[c], if word then 4 else 2;
            && after.control == ch.control && after.currentCount == ch.currentCount
            && SparedFrom(after, c, word, unit + 1, next.2)
            && next.1 == SourceAt(c, ch.control, size, source, 1)
            && next.2 == Moved32(destination, DestinationDelta(ch.control, size), 1)
            && AccessAt(c, ch.control, word, source, destination, 0, AccessOf(ch, c, word, source, destination, read))
  {
    assert InBounds(c, d.channels[c]);
    var left := d.channels[c].currentCount - unit;
    hide UnitMoved, SparesFrom, DestinationStep, AccessOf, SourceAt, Moved32, DestinationDelta, AccessAt, Covers;
    SparedOn(c, word, d.channels[c], destination, left);
    SparedUnit(d, c, word, source, destination, read);
    SameStep(d.channels[c], UnitMoved(d, c, word, source, destination, read).0.channels[c]);
  }

  lemma SameStep(a: Channel, b: Channel)
    requires Underway(a, b)
    ensures DestinationStep(a) == DestinationStep(b) && a.control == b.control && a.currentCount == b.currentCount
  {
  }

  lemma {:induction false} SparedOn(c: Index, word: bool, ch: Channel, destination: u32, left: nat)
    requires left > 0 && SparesFrom(c, word, DestinationStep(ch), destination, left, c)
    ensures var size := if word then 4 else 2;
            && !Covers(c, word, destination, c)
            && SparesFrom(c, word, DestinationStep(ch), Moved32(destination, DestinationDelta(ch.control, size), 1),
                          left - 1, c)
  {
    hide Covers, Stepped, StepMode, Moved32, Delta;
    StepsAre(destination, ch.control / 32 % 4, if word then 4 else 2);
  }

  /** The units after the first are numbered one higher. */
  lemma {:induction false} PlacedOneMore(c: nat, control: u16, word: bool, source: u32, destination: u32,
                                         first: Access, rest: seq<Access>, endSource: u32, endDestination: u32)
    requires AccessAt(c, control, word, source, destination, 0, first)
    requires var size := if word then 4 else 2;
             Placed(c, control, word, SourceAt(c, control, size, source, 1),
                    Moved32(destination, DestinationDelta(control, size), 1), rest, endSource, endDestination)
    ensures Placed(c, control, word, source, destination, [first] + rest, endSource, endDestination)
  {
    var size := if word then 4 else 2;
    var all := [first] + rest;
    hide Driven, Moved32, InRom, SourceDelta, DestinationDelta;
    NextSource(c, control, size, source);
    forall i: nat | i <= |rest|
      ensures SourceAt(c, control, size, SourceAt(c, control, size, source, 1), i)
           == SourceAt(c, control, size, source, i + 1)
      ensures Moved32(Moved32(destination, DestinationDelta(control, size), 1), DestinationDelta(control, size), i)
           == Moved32(destination, DestinationDelta(control, size), i + 1)
    {
      MovedOne(destination, DestinationDelta(control, size), i + 1);
    }
    forall i: nat | i < |all|
      ensures AccessAt(c, control, word, source, destination, i, all[i])
    {
      if i > 0 {
        assert all[i] == rest[i - 1];
      }
    }
  }

  /** What the units of a sparing transfer leave in their own channel. */
  lemma {:induction false} StillUnderway(d: Controller, c: Index, bus: Bus)
    requires Bounded(d) && Spares(c, d.channels[c], c)
    ensures var ch := d.channels[c];
            Underway(ch, Moved(d, c, Transfer32(ch), 0, ch.currentSource, ch.currentDestination, bus).0.channels[c])
  {
    var ch := d.channels[c];
    SparedMoved(d, c, Transfer32(ch), 0, ch.currentSource, ch.currentDestination, bus, c);
    MovedFollows(d, c, Transfer32(ch), 0, ch.currentSource, ch.currentDestination, bus, c);
    hide Moved, MovedTrace, SparesFrom, Transfer32, DestinationStep, MaskedControl, ChannelAccepted;
  }

  lemma {:induction false} LeftBehind(d: Controller, c: Index, bus: Bus)
    requires Bounded(d)
    ensures var ch := d.channels[c];
            var moved := Moved(d, c, Transfer32(ch), 0, ch.currentSource, ch.currentDestination, bus);
            Transferred(d, c, bus).controller.channels[c] == CompletedChannel(c, moved.0.channels[c], moved.1, moved.2)
  {
    hide Moved, Transfer32, CompletedChannel;
  }

  /** execute_channel on a started channel whose addresses spare its own control register: every unit
      is read and written where the control bits say, and the channel is left pointing at the unit
      after the last, or at the programmed destination where a recurring repeat reloads it. */
  lemma {:induction false} TransferAddresses(d: Controller, c: Index, bus: Bus)
    requires Bounded(d) && Spares(c, d.channels[c], c)
    ensures var ch, after := d.channels[c], Transferred(d, c, bus).controller.channels[c];
            var accesses, word := TransferAccesses(d, c, bus), ch.control / 1024 % 2 == 1;
            var end := Moved32(ch.currentDestination, DestinationDelta(ch.control, if word then 4 else 2),
                               ch.currentCount);
            && |accesses| == ch.currentCount
            && Placed(c, ch.control, word, ch.currentSource, ch.currentDestination, accesses, after.currentSource, end)
            && after.currentDestination
               == if ch.control / 512 % 2 == 1 && ch.control / 4096 % 4 != 0 && ch.control / 32 % 4 == 3
                  then after.destination else end
  {
    var ch := d.channels[c];
    var word := Transfer32(ch);
    assert word == (ch.control / 1024 % 2 == 1);
    StillUnderway(d, c, bus);
    LeftBehind(d, c, bus);
    var moved := Moved(d, c, word, 0, ch.currentSource, ch.currentDestination, bus);
    LeftPointing(c, ch, moved.0.channels[c], moved.1, moved.2);
    assert SparedFrom(ch, c, word, 0, ch.currentDestination);
    AccessCount(d, c, word, 0, ch.currentSource, ch.currentDestination, bus);
    AccessesFollow(d, c, word, 0, ch.currentSource, ch.currentDestination, bus);
    hide Moved, Transferred, Accesses, CompletedChannel, SourceAt, Moved32, DestinationDelta, AccessAt, Spares,
      Transfer32;
  }

  lemma LeftPointing(c: nat, ch: Channel, last: Channel, source: u32, destination: u32)
    requires Underway(ch, last)
    ensures var after := CompletedChannel(c, last, source, destination);
            && after.currentSource == source
            && after.currentDestination
               == if ch.control / 512 % 2 == 1 && ch.control / 4096 % 4 != 0 && ch.control / 32 % 4 == 3
                  then after.destination else destination
  {
    hide NormalizedCount;
  }

  /** What unit `unit` + `i` writes, with `latch` before unit `unit`: what it read, or else what is
      latched, which is what the last successful read gave; halfword units the low half. */
  function ValueAt(latch: u32, c: nat, word: bool, bus: Bus, unit: nat, i: nat): (r: u32)
    ensures bus(c, unit + i).Some? ==> r == if word then bus(c, unit + i).value else bus(c, unit + i).value % 0x1_0000
    decreases i
  {
    var value := if bus(c, unit).Some? then bus(c, unit).value else latch;
    var carried := if word then value else value % 0x1_0000;
    if i == 0 then carried else ValueAt(carried, c, word, bus, unit + 1, i - 1)
  }

  ghost predicate AllCarried(latch: u32, c: nat, word: bool, bus: Bus, unit: nat, accesses: seq<Access>) {
    forall i: nat :: i < |accesses| ==> accesses[i].value == ValueAt(latch, c, word, bus, unit, i)
  }

  lemma {:induction false} ValuesFollow(d: Controller, c: Index, word: bool, unit: nat, source: u32, destination: u32,
                                        bus: Bus)
    requires Bounded(d)
    ensures AllCarried(d.channels[c].latch, c, word, bus, unit, Accesses(d, c, word, unit, source, destination, bus))
    decreases Capacity(c) - unit
  {
    var ch := d.channels[c];
    assert Shaped(d);
    hide *;
    if unit >= ch.currentCount {
      UnitsDone(d, c, word, unit, source, destination, bus);
      NoneCarried(ch.latch, c, word, bus, unit);
    } else {
      UnitStep(d, c, word, unit, source, destination, bus);
      LatchAfter(d, c, word, source, destination, bus(c, unit));
      var next := UnitMoved(d, c, word, source, destination, bus(c, unit));
      ValuesFollow(next.0, c, word, unit + 1, next.1, next.2, bus);
      OneMoreCarried(ch, next.0.channels[c].latch, c, word, bus, unit, source, destination,
                     Accesses(next.0, c, word, unit + 1, next.1, next.2, bus));
    }
  }

  lemma NoneCarried(latch: u32, c: nat, word: bool, bus: Bus, unit: nat)
    ensures AllCarried(latch, c, word, bus, unit, [])
  {
  }

  lemma {:induction false} OneMoreCarried(ch: Channel, after: u32, c: nat, word: bool, bus: Bus, unit: nat, source: u32,
                       destination: u32, rest: seq<Access>)
    requires AllCarried(after, c, word, bus, unit + 1, rest)
    requires UnitValue(ch, word, bus(c, unit)) == if word then after else after % 0x1_0000
    ensures AllCarried(ch.latch, c, word, bus, unit, [AccessOf(ch, c, word, source, destination, bus(c, unit))] + rest)
  {
    hide AlignDown, EffectiveSource, EffectiveDestination;
    var first := AccessOf(ch, c, word, source, destination, bus(c, unit));
    var all := [first] + rest;
    forall i: nat | i < |all|
      ensures all[i].value == ValueAt(ch.latch, c, word, bus, unit, i)
    {
      if i > 0 {
        assert all[i] == rest[i - 1];
        SameLow(after, first.value, c, word, bus, unit + 1, i - 1);
      }
    }
  }

  lemma SameLow(a: u32, b: u32, c: nat, word: bool, bus: Bus, unit: nat, i: nat)
    requires b == if word then a else a % 0x1_0000
    ensures ValueAt(a, c, word, bus, unit, i) == ValueAt(b, c, word, bus, unit, i)
  {
  }

  /** Every unit of a transfer writes what it read, or else what the latch still holds. */
  lemma {:induction false} TransferValues(d: Controller, c: Index, bus: Bus)
    requires Bounded(d)
    ensures var ch := d.channels[c];
            AllCarried(ch.latch, c, ch.control / 1024 % 2 == 1, bus, 0, TransferAccesses(d, c, bus))
  {
    var ch := d.channels[c];
    ValuesFollow(d, c, Transfer32(ch), 0, ch.currentSource, ch.currentDestination, bus);
    hide Accesses, AllCarried;
  }

  /** Control and address writes leave the data latch alone, so it keeps the unit's value. */
  lemma LatchAfter(d: Controller, c: Index, word: bool, source: u32, destination: u32, read: Option<u32>)
    requires Bounded(d)
    ensures var ch, after := d.channels[c], UnitMoved(d, c, word, source, destination, read).0.channels[c];
            var value := UnitValue(ch, word, read);
            value == if word then after.latch else after.latch % 0x1_0000
  {
    var ch := d.channels[c];
    var e := WithChannel(d, c, Latched(ch, word, read));
    LatchHolds(ch, word, read);
    hide Written, EffectiveDestination, Stepped, UnitValue, Latched, DestinationStep, SourceStep;
    WriteKeepsLatch(e, word, EffectiveDestination(c, destination), UnitValue(ch, word, read), c);
  }

  lemma LatchHolds(ch: Channel, word: bool, read: Option<u32>)
    ensures var latch := Latched(ch, word, read).latch;
            UnitValue(ch, word, read) == if word then latch else latch % 0x1_0000
  {
    if read.Some? && !word {
      var low := read.value % 0x1_0000;
      assert low * 0x1_0001 == 0x1_0000 * low + low;
    }
  }

  lemma WriteKeepsLatch(d: Controller, word: bool, address: u32, value: u32, c: Index)
    requires Shaped(d)
    ensures Written(d, word, address, value).channels[c].latch == d.channels[c].latch
  {
    hide AlignDown, NextHalfword, Low16, High16;
    if word {
      var half := RegisterWritten(d, AlignDown(address, 4), Low16(value));
      RegisterKeepsLatch(d, AlignDown(address, 4), Low16(value), c);
      RegisterKeepsLatch(half, NextHalfword(AlignDown(address, 4)), High16(value), c);
    } else {
      RegisterKeepsLatch(d, AlignDown(address, 2), Low16(value), c);
    }
    hide RegisterWritten;
  }

  lemma RegisterKeepsLatch(d: Controller, address: u32, value: u16, c: Index)
    requires Shaped(d)
    ensures RegisterWritten(d, address, value).channels[c].latch == d.channels[c].latch
  {
    hide MaskedControl, NormalizedCount, StartTiming;
  }
}
