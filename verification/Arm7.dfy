/**
 The ARM7TDMI register file with its live registers and bank storage, proved against the
 all-banks view of CpuState; and block transfers over an abstract RAM.
 */
module Arm7 {
  import opened Prelude
  import opened CpuState
  import opened BlockTransfer

  datatype Status = Executed | Unsupported

  /** RAM as the block transfers use it: aligned words that are either mapped or not. */
  class MemoryBus {
    var words: Ram

    constructor (words: Ram)
      ensures this.words == words
    {
      this.words := words;
    }

    function Read32(address: u32): Option<u32>
      reads this
    {
      if address in words then Some(words[address]) else None
    }

    method Write32(address: u32, value: u32) returns (ok: bool)
      modifies this
      ensures ok <==> address in old(words)
      ensures words == if ok then old(words)[address := value] else old(words)
    {
      ok := address in words;
      if ok {
        words := words[address := value];
      }
    }
  }

  /** The all-banks view of a live file in mode `psr.mode` with the given bank storage. */
  ghost function Composed(live: seq<u32>, shared: seq<u32>, fiq: seq<u32>, sp: seq<u32>, lr: seq<u32>,
                          spsr: seq<u32>, psr: Psr): (c: Cpu)
    requires |live| == 16 && |shared| == 5 && |fiq| == 5 && |sp| == 6 && |lr| == 6 && |spsr| == 6
    ensures WellShaped(c.banks) && c.psr == psr && c.banks.pc == live[15]
  {
    var bank := BankOf(psr.mode);
    Cpu(Banks(live[..8],
              if psr.mode == Fiq then shared else live[8..13],
              if psr.mode == Fiq then live[8..13] else fiq,
              sp[bank := live[13]],
              lr[bank := live[14]],
              live[15],
              spsr),
        psr)
  }

  function LinkedFile(live: seq<u32>, link: bool, value: u32): (r: seq<u32>)
    requires |live| == 16
    ensures |r| == 16
  {
    if link then live[LINK := value] else live
  }

  /** Writing the handler's link register, PC, SPSR and flags after the mode switch is `Entered`. */
  lemma EnteredComposition(before: Cpu, kind: Exception, live: seq<u32>, shared: seq<u32>, fiq: seq<u32>,
                           sp: seq<u32>, lr: seq<u32>, spsr: seq<u32>, psr: Psr)
    requires |live| == 16 && |shared| == 5 && |fiq| == 5 && |sp| == 6 && |lr| == 6 && |spsr| == 6
    requires WellShaped(before.banks) && psr == before.psr.(mode := VectorOf(kind).mode)
    requires Composed(live, shared, fiq, sp, lr, spsr, psr) == before.(psr := psr)
    ensures var vector := VectorOf(kind);
            var link: u32 := (before.banks.pc + LinkOffset(kind, before.psr.thumb)) % TWO32;
            var word: u32 := EncodePsr(before.psr);
            Composed(LinkedFile(live, vector.saveCpsr, link)[PC := vector.address], shared, fiq, sp, lr,
                     if vector.saveCpsr then spsr[BankOf(vector.mode) := word] else spsr,
                     psr.(thumb := false, irqDisabled := true, fiqDisabled := psr.fiqDisabled || vector.disableFiq))
            == Entered(before, kind)
  {
    hide EncodePsr, VectorOf, LinkOffset, BankOf;
    var vector := VectorOf(kind);
    var bank := BankOf(vector.mode);
    var link: u32 := (before.banks.pc + LinkOffset(kind, before.psr.thumb)) % TWO32;
    var after := LinkedFile(live, vector.saveCpsr, link)[PC := vector.address];
    assert after[..8] == live[..8] && after[8..13] == live[8..13] && after[13] == live[13];
    assert lr[bank := link] == before.banks.lr[bank := link];
  }

  class Arm7tdmi {
    const registers: array<u32>
    const sharedHigh: array<u32>
    const fiqHigh: array<u32>
    // Bank storage, one slot per bank (user, fiq, irq, supervisor, abort, undefined).
    const bankedSp: array<u32>
    const bankedLr: array<u32>
    const bankedSpsr: array<u32>
    var negative: bool
    var zero: bool
    var carry: bool
    var overflow: bool
    var irqDisabled: bool
    var fiqDisabled: bool
    var thumb: bool
    var mode: Mode

    ghost predicate Valid()
      reads this
    {
      && registers.Length == 16 && sharedHigh.Length == 5 && fiqHigh.Length == 5
      && bankedSp.Length == 6 && bankedLr.Length == 6 && bankedSpsr.Length == 6
      && registers != sharedHigh && registers != fiqHigh && registers != bankedSp && registers != bankedLr
      && registers != bankedSpsr && sharedHigh != fiqHigh && sharedHigh != bankedSp && sharedHigh != bankedLr
      && sharedHigh != bankedSpsr && fiqHigh != bankedSp && fiqHigh != bankedLr && fiqHigh != bankedSpsr
      && bankedSp != bankedLr && bankedSp != bankedSpsr && bankedLr != bankedSpsr
    }

    ghost function Arrays(): set<object> {
      {registers, sharedHigh, fiqHigh, bankedSp, bankedLr, bankedSpsr}
    }

    function Psr(): Psr
      reads this
    {
      CpuState.Psr(negative, zero, carry, overflow, irqDisabled, fiqDisabled, thumb, mode)
    }

    /** Every bank's registers: the live file stands in for the current mode's slots. */
    ghost function State(): (c: Cpu)
      requires Valid()
      reads this, Arrays()
      ensures WellShaped(c.banks)
    {
      Composed(registers[..], sharedHigh[..], fiqHigh[..], bankedSp[..], bankedLr[..], bankedSpsr[..], Psr())
    }

    constructor ()
      ensures Valid() && fresh(Arrays())
      ensures mode == Supervisor && forall r: nat :: r < 16 ==> registers[r] == 0
    {
      registers := new u32[16](_ => 0);
      sharedHigh := new u32[5](_ => 0);
      fiqHigh := new u32[5](_ => 0);
      bankedSp := new u32[6](_ => 0);
      bankedLr := new u32[6](_ => 0);
      bankedSpsr := new u32[6](_ => 0);
      negative, zero, carry, overflow, irqDisabled, fiqDisabled, thumb, mode :=
        false, false, false, false, false, false, false, Supervisor;
    }

    method SaveBankedRegisters()
      requires Valid()
      modifies sharedHigh, fiqHigh, bankedSp, bankedLr
      ensures fiqHigh[..] == if mode == Fiq then registers[8..13] else old(fiqHigh[..])
      ensures sharedHigh[..] == if mode == Fiq then old(sharedHigh[..]) else registers[8..13]
      ensures bankedSp[..] == old(bankedSp[..])[BankOf(mode) := registers[13]]
      ensures bankedLr[..] == old(bankedLr[..])[BankOf(mode) := registers[14]]
    {
      var high := if mode == Fiq then fiqHigh else sharedHigh;
      for index := 0 to 5
        invariant forall k :: 0 <= k < index ==> high[k] == registers[8 + k]
        invariant mode == Fiq ==> sharedHigh[..] == old(sharedHigh[..])
        invariant mode != Fiq ==> fiqHigh[..] == old(fiqHigh[..])
        invariant bankedSp[..] == old(bankedSp[..]) && bankedLr[..] == old(bankedLr[..])
      {
        high[index] := registers[8 + index];
      }
      bankedSp[BankOf(mode)] := registers[13];
      bankedLr[BankOf(mode)] := registers[14];
    }

    method LoadBankedRegisters()
      requires Valid()
      modifies registers
      ensures registers[..8] == old(registers[..8]) && registers[15] == old(registers[15])
      ensures registers[8..13] == if mode == Fiq then fiqHigh[..] else sharedHigh[..]
      ensures registers[13] == bankedSp[BankOf(mode)] && registers[14] == bankedLr[BankOf(mode)]
    {
      var high := if mode == Fiq then fiqHigh else sharedHigh;
      for index := 0 to 5
        invariant forall k :: 0 <= k < index ==> registers[8 + k] == high[k]
        invariant registers[..8] == old(registers[..8]) && registers[15] == old(registers[15])
      {
        registers[8 + index] := high[index];
      }
      registers[13] := bankedSp[BankOf(mode)];
      registers[14] := bankedLr[BankOf(mode)];
    }

    /** Changes which bank is live; no register of any bank changes its value. */
    method SwitchMode(newMode: Mode)
      requires Valid()
      modifies this`mode, registers, sharedHigh, fiqHigh, bankedSp, bankedLr
      ensures Valid()
      ensures State() == old(State()).(psr := old(Psr()).(mode := newMode))
    {
      if mode == newMode {
        return;
      }
      SaveBankedRegisters();
      mode := newMode;
      LoadBankedRegisters();
      ghost var before := old(State());
      assert State().banks.sp == before.banks.sp;
      assert State().banks.lr == before.banks.lr;
    }

    /** cpsr(): the status register word. */
    function Cpsr(): (value: u32)
      reads this
      ensures value == EncodePsr(Psr()) && DecodePsr(value) == Some(Psr())
    {
      PsrRoundTrip(Psr());
      EncodePsr(Psr())
    }

    /** Rejects words whose mode field names no mode; otherwise every bank keeps its registers. */
    method SetCpsr(value: u32) returns (ok: bool)
      requires Valid()
      modifies this, registers, sharedHigh, fiqHigh, bankedSp, bankedLr
      ensures Valid()
      ensures ok <==> DecodePsr(value).Some?
      ensures State() == if ok then old(State()).(psr := DecodePsr(value).value) else old(State())
    {
      var decoded := DecodeMode(value % 32);
      if decoded.None? {
        return false;
      }
      ghost var banks := State().banks;
      negative := value / 0x8000_0000 % 2 == 1;
      zero := value / 0x4000_0000 % 2 == 1;
      carry := value / 0x2000_0000 % 2 == 1;
      overflow := value / 0x1000_0000 % 2 == 1;
      thumb := value / 0x20 % 2 == 1;
      fiqDisabled := value / 0x40 % 2 == 1;
      irqDisabled := value / 0x80 % 2 == 1;
      assert State().banks == banks;
      SwitchMode(decoded.value);
      return true;
    }

    /** enter_exception */
    method EnterException(kind: Exception)
      requires Valid()
      modifies this, registers, sharedHigh, fiqHigh, bankedSp, bankedLr, bankedSpsr
      ensures Valid()
      ensures State() == Entered(old(State()), kind)
    {
      hide EncodePsr, DecodePsr, Composed, Entered;
      ghost var before := State();
      var vector := VectorOf(kind);
      var savedCpsr := Cpsr();
      var savedThumb := thumb;
      var savedPc := registers[PC];
      SwitchMode(vector.mode);
      ghost var live: seq<u32>, spsrs: seq<u32> := registers[..], bankedSpsr[..];
      ghost var psr := Psr();
      var link := (savedPc + (if savedThumb && (kind == IrqLine || kind == SoftwareInterrupt) then 2
                              else vector.linkOffset)) % TWO32;
      TakeVector(vector, savedCpsr, link);
      EnteredComposition(before, kind, live, sharedHigh[..], fiqHigh[..], bankedSp[..], bankedLr[..], spsrs, psr);
      hide LinkOffset, VectorOf, BankOf;
    }

    /** The part of enter_exception after the mode switch. */
    method TakeVector(vector: Vector, savedCpsr: u32, link: u32)
      requires Valid() && mode == vector.mode
      modifies this`thumb, this`irqDisabled, this`fiqDisabled, registers, bankedSpsr
      ensures Valid()
      ensures registers[..] == LinkedFile(old(registers[..]), vector.saveCpsr, link)[PC := vector.address]
      ensures bankedSpsr[..] == if vector.saveCpsr then old(bankedSpsr[..])[BankOf(vector.mode) := savedCpsr]
                                else old(bankedSpsr[..])
      ensures Psr() == old(Psr()).(thumb := false, irqDisabled := true,
                                   fiqDisabled := old(fiqDisabled) || vector.disableFiq)
    {
      if vector.saveCpsr {
        bankedSpsr[BankOf(vector.mode)] := savedCpsr;
        registers[LINK] := link;
      }
      thumb := false;
      irqDisabled := true;
      if vector.disableFiq {
        fiqDisabled := true;
      }
      registers[PC] := vector.address;
    }

    /** return_from_exception */
    method ReturnFromException(adjustment: nat) returns (status: Status)
      requires Valid()
      modifies this, registers, sharedHigh, fiqHigh, bankedSp, bankedLr
      ensures Valid()
      ensures var returned := Returned(old(State()), adjustment);
              && (status == Executed <==> returned.Some?)
              && State() == if returned.Some? then returned.value else old(State())
    {
      hide EncodePsr, DecodePsr;
      if !HasSpsr(mode) {
        return Unsupported;
      }
      var returnPc := (registers[LINK] - adjustment) % TWO32;
      var ok := SetCpsr(bankedSpsr[BankOf(mode)]);
      if !ok {
        return Unsupported;
      }
      registers[PC] := returnPc;
      return Executed;
    }

    // -------------------------------------------------------------- block transfers

    method CountRegisters(list: u16) returns (count: nat)
      ensures count == Count(list)
    {
      count := 0;
      for index := 0 to 16
        invariant count == CountBelow(list, index)
      {
        if Listed(list, index) {
          count := count + 1;
        }
      }
    }

    /** Stores the listed registers at ascending words from `first`. */
    method StoreRegisters(list: u16, first: u32, memory: MemoryBus) returns (ok: bool)
      requires Valid()
      modifies memory
      ensures ok <==> Mapped(old(memory.words), first, list)
      ensures memory.words.Keys == old(memory.words).Keys
      ensures ok ==> Stored(old(memory.words), registers[..], first, list, memory.words)
      ensures !ok ==> StoppedShort(old(memory.words), registers[..], first, list, memory.words)
    {
      hide AddressOf, StoredBelow;
      var address := first;
      ghost var regs := registers[..];
      StoredNone(memory.words, regs, first, list);
      for index := 0 to 16
        invariant address == AddressOf(first, list, index) && registers[..] == regs
        invariant StoredBelow(old(memory.words), regs, first, list, index, memory.words)
        invariant memory.words.Keys == old(memory.words).Keys
        invariant forall i: nat :: i < index && Listed(list, i) ==> AddressOf(first, list, i) in memory.words
      {
        NextAddress(first, list, index);
        if Listed(list, index) {
          var value := if index == PC then (registers[index] + 12) % TWO32 else registers[index];
          ghost var words := memory.words;
          ok := memory.Write32(address, value);
          if !ok {
            assert StopsAt(old(memory.words), first, list, index);
            return;
          }
          StoreOne(old(memory.words), regs, first, list, index, words);
          address := (address + 4) % TWO32;
        } else {
          StoreNone(old(memory.words), regs, first, list, index, memory.words);
        }
      }
      StoredAll(old(memory.words), regs, first, list, memory.words);
      ok := true;
    }

    /** Reads the listed words before any register changes. */
    method ReadRegisters(list: u16, first: u32, memory: MemoryBus) returns (ok: bool, loaded: seq<u32>)
      ensures ok <==> Mapped(memory.words, first, list)
      ensures |loaded| == 16
      ensures ok ==> forall i: nat :: i < 16 && Listed(list, i) ==> loaded[i] == memory.words[AddressOf(first, list, i)]
    {
      loaded := seq(16, _ => 0);
      var address := first;
      for index := 0 to 16
        invariant address == AddressOf(first, list, index) && |loaded| == 16
        invariant forall i: nat :: i < index && Listed(list, i) ==>
                    && AddressOf(first, list, i) in memory.words
                    && loaded[i] == memory.words[AddressOf(first, list, i)]
      {
        NextAddress(first, list, index);
        if Listed(list, index) {
          var value := memory.Read32(address);
          if value.None? {
            return false, loaded;
          }
          loaded := loaded[index := value.value];
          address := (address + 4) % TWO32;
        }
      }
      ok := true;
    }

    /** LDM and STM without the S bit. */
    method ExecuteBlockTransfer(load: bool, preIndex: bool, up: bool, writeBack: bool, rn: nat, list: u16,
                                memory: MemoryBus)
      returns (status: Status)
      requires Valid() && rn < PC && list != 0
      modifies this, registers, sharedHigh, fiqHigh, bankedSp, bankedLr, memory
      ensures Valid() && mode == old(mode)
      ensures var first := FirstAddress(old(registers[rn]), Count(list), preIndex, up);
              var moved := WrittenBack(old(registers[rn]), Count(list), up);
              && (status == Executed
                  <==> !(load && writeBack && Listed(list, rn)) && Mapped(old(memory.words), first, list))
              && (status == Executed && !load ==>
                    && Stored(old(memory.words), old(registers[..]), first, list, memory.words)
                    && registers[..] == if writeBack then old(registers[..])[rn := moved] else old(registers[..]))
              && (status == Executed && load ==>
                    && memory.words == old(memory.words)
                    && LoadedLow(memory.words, first, list,
                                 if writeBack then old(registers[..])[rn := moved] else old(registers[..]), registers[..])
                    && LoadedPc(memory.words, first, list, old(registers[PC]), old(Psr()), registers[PC], Psr()))
      ensures status == Unsupported ==>
                var first := FirstAddress(old(registers[rn]), Count(list), preIndex, up);
                && registers[..] == old(registers[..])
                && if load then memory.words == old(memory.words)
                   else StoppedShort(old(memory.words), old(registers[..]), first, list, memory.words)
    {
      hide EncodePsr, DecodePsr, FirstAddress, WrittenBack, CountBelow, StoppedShort;
      if load && writeBack && Listed(list, rn) {
        return Unsupported;
      }
      var count := CountRegisters(list);
      var first := FirstAddress(registers[rn], count, preIndex, up);
      var moved := WrittenBack(registers[rn], count, up);
      if load {
        var ok, loaded := ReadRegisters(list, first, memory);
        if !ok {
          return Unsupported;
        }
        LoadLow(list, loaded);
        if Listed(list, PC) {
          BranchTo(loaded[PC]);
        }
      } else {
        var ok := StoreRegisters(list, first, memory);
        if !ok {
          return Unsupported;
        }
      }
      if writeBack {
        registers[rn] := moved;
      }
      return Executed;
    }

    /** Assigns the listed registers below R15. */
    method LoadLow(list: u16, loaded: seq<u32>)
      requires Valid() && |loaded| == 16
      modifies registers
      ensures forall i: nat :: i < 16 ==>
                registers[i] == if i < PC && Listed(list, i) then loaded[i] else old(registers[i])
    {
      for index := 0 to 15
        invariant forall i: nat :: i < 16 ==>
                    registers[i] == if i < index && Listed(list, i) then loaded[i] else old(registers[i])
      {
        if Listed(list, index) {
          registers[index] := loaded[index];
        }
      }
    }

    /** A loaded PC interworks: bit 0 selects the instruction set. */
    method BranchTo(target: u32)
      requires Valid()
      modifies this, registers, sharedHigh, fiqHigh, bankedSp, bankedLr
      ensures Valid()
      ensures registers[..] == old(registers[..])[PC := Halfword(target)]
      ensures Psr() == old(Psr()).(thumb := target % 2 == 1)
    {
      hide EncodePsr, DecodePsr;
      registers[PC] := Halfword(target);
      ghost var before := registers[..];
      ghost var state := State();
      var next := EncodePsr(Psr().(thumb := target % 2 == 1));
      PsrRoundTrip(Psr().(thumb := target % 2 == 1));
      var ok := SetCpsr(next);
      SameBanksSameFile(state.banks, registers[..], before);
    }

    /** With the mode and all banks unchanged, the live file is unchanged. */
    lemma SameBanksSameFile(banks: Banks, now: seq<u32>, before: seq<u32>)
      requires Valid() && State().banks == banks && now == registers[..] && |before| == 16
      requires before[..8] == banks.low && before[15] == banks.pc
      requires before[8..13] == if mode == Fiq then banks.fiqHigh else banks.high
      requires before[13] == banks.sp[BankOf(mode)] && before[14] == banks.lr[BankOf(mode)]
      ensures now == before
    {
      assert now[..8] == before[..8] && now[8..13] == before[8..13];
      forall i: nat | i < 16
        ensures now[i] == before[i]
      {
        if i < 8 {
          assert now[i] == now[..8][i] == before[..8][i];
        } else if i < 13 {
          assert now[i] == now[8..13][i - 8] == before[8..13][i - 8];
        }
      }
    }

    /** Thumb PUSH, optionally with LR. */
    method Push(list: u16, withLink: bool, memory: MemoryBus) returns (status: Status)
      requires Valid() && list < 256
      modifies registers, memory
      ensures Valid()
      ensures var full := PushList(list, withLink);
              var first := WrittenBack(old(registers[13]), Count(full), false);
              && (status == Executed <==> full != 0 && Mapped(old(memory.words), first, full))
              && registers[..] == (if status == Executed then old(registers[..])[13 := first] else old(registers[..]))
              && (status == Executed ==> Stored(old(memory.words), old(registers[..]), first, full, memory.words))
              && (status == Unsupported ==>
                    if full == 0 then memory.words == old(memory.words)
                    else StoppedShort(old(memory.words), old(registers[..]), first, full, memory.words))
    {
      hide CountBelow, WrittenBack, PushList, PopList, StoppedShort;
      var full := PushList(list, withLink);
      if full == 0 {
        return Unsupported;
      }
      var count := CountRegisters(full);
      var newSp := WrittenBack(registers[13], count, false);
      var ok := StoreRegisters(full, newSp, memory);
      if !ok {
        return Unsupported;
      }
      registers[13] := newSp;
      return Executed;
    }

    /** Thumb POP, optionally with PC. */
    method Pop(list: u16, withPc: bool, memory: MemoryBus) returns (status: Status)
      requires Valid() && list < 256
      modifies this, registers, sharedHigh, fiqHigh, bankedSp, bankedLr
      ensures Valid()
      ensures var full := PopList(list, withPc);
              var first := old(registers[13]);
              var moved := WrittenBack(first, Count(full), true);
              && (status == Executed <==> full != 0 && Mapped(memory.words, first, full))
              && (status == Executed ==>
                    && LoadedLow(memory.words, first, full, old(registers[..])[13 := moved], registers[..])
                    && LoadedPc(memory.words, first, full, old(registers[PC]), old(Psr()), registers[PC], Psr()))
              && (status == Unsupported ==> registers[..] == old(registers[..]) && Psr() == old(Psr()))
    {
      hide CountBelow, WrittenBack, PushList, PopList;
      var full := PopList(list, withPc);
      ThumbExtra(list, withPc);
      ThumbLists(list, withPc, 13);
      if full == 0 {
        return Unsupported;
      }
      var count := CountRegisters(full);
      var first := registers[13];
      var ok, loaded := ReadRegisters(full, first, memory);
      if !ok {
        return Unsupported;
      }
      LoadLow(full, loaded);
      if withPc {
        BranchTo(loaded[PC]);
      }
      registers[13] := WrittenBack(first, count, true);
      return Executed;
    }
  }

  lemma NextAddress(first: u32, list: u16, i: nat)
    requires i < 16
    ensures AddressOf(first, list, i + 1)
         == if Listed(list, i) then (AddressOf(first, list, i) + 4) % TWO32 else AddressOf(first, list, i)
  {
    Shift(first, 4 * CountBelow(list, i), 4);
    hide Listed;
  }
}
