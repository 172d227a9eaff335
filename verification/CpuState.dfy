/**
 The CPU's register file as a programmer sees it: every bank of every register at once, so that
 which of them is live in the visible file is a matter of the mode alone.
 */
module CpuState {
  import opened Prelude

  const LINK: nat := 14
  const PC: nat := 15

  datatype Mode = User | Fiq | Irq | Supervisor | Abort | Undefined | System

  function ModeCode(m: Mode): nat {
    match m
    case User => 0x10
    case Fiq => 0x11
    case Irq => 0x12
    case Supervisor => 0x13
    case Abort => 0x17
    case Undefined => 0x1B
    case System => 0x1F
  }

  function DecodeMode(code: nat): Option<Mode> {
    if code == 0x10 then Some(User) else if code == 0x11 then Some(Fiq) else if code == 0x12 then Some(Irq)
    else if code == 0x13 then Some(Supervisor) else if code == 0x17 then Some(Abort)
    else if code == 0x1B then Some(Undefined) else if code == 0x1F then Some(System) else None
  }

  /** Stack pointer and link register banks; user and system mode share one. */
  function BankOf(m: Mode): (b: nat)
    ensures b < 6
  {
    match m
    case User => 0
    case System => 0
    case Fiq => 1
    case Irq => 2
    case Supervisor => 3
    case Abort => 4
    case Undefined => 5
  }

  predicate HasSpsr(m: Mode) {
    BankOf(m) != 0
  }

  datatype Psr = Psr(negative: bool, zero: bool, carry: bool, overflow: bool, irqDisabled: bool, fiqDisabled: bool,
                     thumb: bool, mode: Mode)

  function Flag(isSet: bool): nat {
    if isSet then 1 else 0
  }

  function Word(low: nat, t: nat, f: nat, i: nat, v: nat, c: nat, z: nat, n: nat): nat {
    low + 0x20 * t + 0x40 * f + 0x80 * i + 0x1000_0000 * v + 0x2000_0000 * c + 0x4000_0000 * z + 0x8000_0000 * n
  }

  function EncodePsr(p: Psr): (value: u32) {
    Word(ModeCode(p.mode), Flag(p.thumb), Flag(p.fiqDisabled), Flag(p.irqDisabled), Flag(p.overflow), Flag(p.carry),
         Flag(p.zero), Flag(p.negative))
  }

  /** None when the mode field names no mode. */
  function DecodePsr(value: u32): Option<Psr> {
    match DecodeMode(value % 32)
    case None => None
    case Some(mode) =>
      Some(Psr(value / 0x8000_0000 % 2 == 1, value / 0x4000_0000 % 2 == 1, value / 0x2000_0000 % 2 == 1,
               value / 0x1000_0000 % 2 == 1, value / 0x80 % 2 == 1, value / 0x40 % 2 == 1, value / 0x20 % 2 == 1,
               mode))
  }

  lemma ModeRoundTrip(m: Mode)
    ensures ModeCode(m) < 32 && DecodeMode(ModeCode(m)) == Some(m)
  {
  }

  lemma PsrRoundTrip(p: Psr)
    ensures DecodePsr(EncodePsr(p)) == Some(p)
  {
    ModeRoundTrip(p.mode);
    BitsOf(ModeCode(p.mode), Flag(p.thumb), Flag(p.fiqDisabled), Flag(p.irqDisabled), Flag(p.overflow), Flag(p.carry),
           Flag(p.zero), Flag(p.negative));
    hide ModeCode, DecodeMode, Word;
  }

  lemma BitsOf(low: nat, t: nat, f: nat, i: nat, v: nat, c: nat, z: nat, n: nat)
    requires low < 32 && t <= 1 && f <= 1 && i <= 1 && v <= 1 && c <= 1 && z <= 1 && n <= 1
    ensures var word := Word(low, t, f, i, v, c, z, n);
            && word % 32 == low && word / 0x20 % 2 == t && word / 0x40 % 2 == f && word / 0x80 % 2 == i
            && word / 0x1000_0000 % 2 == v && word / 0x2000_0000 % 2 == c && word / 0x4000_0000 % 2 == z
            && word / 0x8000_0000 % 2 == n
  {
    var word := Word(low, t, f, i, v, c, z, n);
    assert word / 0x20 == t + 2 * (f + 2 * (i + 0x20_0000 * (v + 2 * (c + 2 * (z + 2 * n)))));
    assert word / 0x40 == f + 2 * (i + 0x20_0000 * (v + 2 * (c + 2 * (z + 2 * n))));
    assert word / 0x80 == i + 0x20_0000 * (v + 2 * (c + 2 * (z + 2 * n)));
    assert word / 0x1000_0000 == v + 2 * (c + 2 * (z + 2 * n));
    assert word / 0x2000_0000 == c + 2 * (z + 2 * n);
    assert word / 0x4000_0000 == z + 2 * n;
    assert word / 0x8000_0000 == n;
  }

  /** All banks. `low` is r0-r7, `high` r8-r12 of every mode but FIQ, `fiqHigh` those of FIQ. */
  datatype Banks = Banks(low: seq<u32>, high: seq<u32>, fiqHigh: seq<u32>, sp: seq<u32>, lr: seq<u32>, pc: u32,
                         spsr: seq<u32>)

  ghost predicate WellShaped(b: Banks) {
    |b.low| == 8 && |b.high| == 5 && |b.fiqHigh| == 5 && |b.sp| == 6 && |b.lr| == 6 && |b.spsr| == 6
  }

  datatype Cpu = Cpu(banks: Banks, psr: Psr)

  /** Register `r` of mode `m`: the map that the live file and the bank storage implement. */
  function Register(b: Banks, m: Mode, r: nat): u32
    requires WellShaped(b) && r < 16
  {
    if r < 8 then b.low[r]
    else if r < 13 then (if m == Fiq then b.fiqHigh[r - 8] else b.high[r - 8])
    else if r == 13 then b.sp[BankOf(m)]
    else if r == 14 then b.lr[BankOf(m)]
    else b.pc
  }

  // ---------------------------------------------------------------- exceptions

  datatype Exception = Reset | UndefinedInstruction | SoftwareInterrupt | PrefetchAbort | DataAbort | IrqLine | FiqLine

  datatype Vector = Vector(address: u32, mode: Mode, linkOffset: nat, saveCpsr: bool, disableFiq: bool)

  function VectorOf(kind: Exception): Vector {
    match kind
    case Reset => Vector(0x00, Supervisor, 0, false, true)
    case UndefinedInstruction => Vector(0x04, Undefined, 4, true, false)
    case SoftwareInterrupt => Vector(0x08, Supervisor, 4, true, false)
    case PrefetchAbort => Vector(0x0C, Abort, 4, true, false)
    case DataAbort => Vector(0x10, Abort, 8, true, false)
    case IrqLine => Vector(0x18, Irq, 4, true, false)
    case FiqLine => Vector(0x1C, Fiq, 4, true, true)
  }

  /** The offset enter_exception adds to the PC: halfword sized for IRQ and SWI taken from Thumb. */
  function LinkOffset(kind: Exception, thumb: bool): nat {
    if thumb && (kind == IrqLine || kind == SoftwareInterrupt) then 2 else VectorOf(kind).linkOffset
  }

  /** The state after an exception is taken. */
  function Entered(c: Cpu, kind: Exception): Cpu
    requires WellShaped(c.banks)
  {
    var vector := VectorOf(kind);
    var bank := BankOf(vector.mode);
    var linked := if vector.saveCpsr
      then c.banks.(spsr := c.banks.spsr[bank := EncodePsr(c.psr)],
                    lr := c.banks.lr[bank := (c.banks.pc + LinkOffset(kind, c.psr.thumb)) % TWO32])
      else c.banks;
    Cpu(linked.(pc := vector.address),
        c.psr.(mode := vector.mode, thumb := false, irqDisabled := true,
               fiqDisabled := c.psr.fiqDisabled || vector.disableFiq))
  }

  /** The state after an exception return, or None where the source reports it unsupported. */
  function Returned(c: Cpu, adjustment: nat): Option<Cpu>
    requires WellShaped(c.banks)
  {
    if !HasSpsr(c.psr.mode) then None
    else
      var bank := BankOf(c.psr.mode);
      match DecodePsr(c.banks.spsr[bank])
      case None => None
      case Some(psr) => Some(Cpu(c.banks.(pc := (c.banks.lr[bank] - adjustment) % TWO32), psr))
  }

  /** What the interrupted program can see: its sixteen registers and its flags. */
  ghost predicate SameToProgram(a: Cpu, b: Cpu)
    requires WellShaped(a.banks) && WellShaped(b.banks)
  {
    a.psr == b.psr && forall r: nat :: r < 16 ==> Register(a.banks, a.psr.mode, r) == Register(b.banks, b.psr.mode, r)
  }

  /** A return with the entry's own link offset undoes the entry, except for the handler mode's
      link register and SPSR. */
  lemma ReturnUndoesEntry(c: Cpu, kind: Exception)
    requires WellShaped(c.banks) && kind != Reset
    ensures var back := Returned(Entered(c, kind), LinkOffset(kind, c.psr.thumb));
            var bank := BankOf(VectorOf(kind).mode);
            back == Some(Cpu(c.banks.(lr := Entered(c, kind).banks.lr, spsr := Entered(c, kind).banks.spsr), c.psr))
            && forall other: nat :: other < 6 && other != bank ==>
                 back.value.banks.lr[other] == c.banks.lr[other] && back.value.banks.spsr[other] == c.banks.spsr[other]
  {
    PsrRoundTrip(c.psr);
    OffsetUndone(c.banks.pc, LinkOffset(kind, c.psr.thumb));
    hide DecodePsr, EncodePsr, LinkOffset;
  }

  lemma OffsetUndone(pc: u32, offset: nat)
    ensures ((pc + offset) % TWO32 - offset) % TWO32 == pc
  {
    var q := (pc + offset) / TWO32;
    assert (pc + offset) % TWO32 - offset == pc - TWO32 * q;
  }

  /** The interrupted program is restored exactly when it ran in a different bank than the
      handler, or its link register happened to hold the new link value already. */
  lemma ProgramRestored(c: Cpu, kind: Exception)
    requires WellShaped(c.banks) && kind != Reset
    ensures var off := LinkOffset(kind, c.psr.thumb);
            var back := Returned(Entered(c, kind), off);
            && back.Some? && WellShaped(back.value.banks)
            && (SameToProgram(c, back.value)
                <==> c.psr.mode != VectorOf(kind).mode || Register(c.banks, c.psr.mode, LINK) == (c.banks.pc + off) % TWO32)
  {
    ReturnUndoesEntry(c, kind);
    LinkEntered(c, kind);
    var entered, mode := Entered(c, kind), c.psr.mode;
    assert BankOf(mode) == BankOf(VectorOf(kind).mode) <==> mode == VectorOf(kind).mode;
    hide Returned, DecodePsr, EncodePsr, Entered, VectorOf, LinkOffset, BankOf;
    forall r: nat | r < 16
      ensures var back := c.banks.(lr := entered.banks.lr, spsr := entered.banks.spsr);
              WellShaped(back)
              && Register(back, mode, r) == if r == LINK then entered.banks.lr[BankOf(mode)] else Register(c.banks, mode, r)
    {
    }
    assert Register(c.banks, mode, LINK) == c.banks.lr[BankOf(mode)];
  }

  lemma LinkEntered(c: Cpu, kind: Exception)
    requires WellShaped(c.banks) && kind != Reset
    ensures WellShaped(Entered(c, kind).banks)
    ensures Entered(c, kind).banks.lr[BankOf(VectorOf(kind).mode)] == (c.banks.pc + LinkOffset(kind, c.psr.thumb)) % TWO32
  {
    hide EncodePsr;
  }

  /** The vector table in terms of the program counter and the status word: address, mode field, link
      offset from ARM state, and which interrupts are masked. */
  ghost predicate Vectors(c: Cpu, kind: Exception, address: u32, mode: nat, offset: nat, fiqMasked: bool)
    requires WellShaped(c.banks)
  {
    var e := Entered(c, kind);
    var word := EncodePsr(e.psr);
    && e.banks.pc == address && word % 32 == mode && word / 0x20 % 2 == 0 && word / 0x80 % 2 == 1
    && (word / 0x40 % 2 == 1 <==> fiqMasked || c.psr.fiqDisabled)
    && word / 0x1000_0000 == EncodePsr(c.psr) / 0x1000_0000
    && WellShaped(e.banks)
    && (kind != Reset ==>
          && Register(e.banks, e.psr.mode, LINK) == (c.banks.pc + offset) % 0x1_0000_0000
          && e.banks.spsr[BankOf(e.psr.mode)] == EncodePsr(c.psr))
  }

  lemma VectorTable(c: Cpu)
    requires WellShaped(c.banks)
    ensures Vectors(c, Reset, 0x00, 0x13, 0, true)
    ensures Vectors(c, UndefinedInstruction, 0x04, 0x1B, 4, false)
    ensures Vectors(c, SoftwareInterrupt, 0x08, 0x13, if c.psr.thumb then 2 else 4, false)
    ensures Vectors(c, PrefetchAbort, 0x0C, 0x17, 4, false)
    ensures Vectors(c, DataAbort, 0x10, 0x17, 8, false)
    ensures Vectors(c, IrqLine, 0x18, 0x12, if c.psr.thumb then 2 else 4, false)
    ensures Vectors(c, FiqLine, 0x1C, 0x11, 4, true)
  {
    hide Vectors;
    VectorMeets(c, Reset);
    VectorMeets(c, UndefinedInstruction);
    VectorMeets(c, SoftwareInterrupt);
    VectorMeets(c, PrefetchAbort);
    VectorMeets(c, DataAbort);
    VectorMeets(c, IrqLine);
    VectorMeets(c, FiqLine);
  }

  lemma VectorMeets(c: Cpu, kind: Exception)
    requires WellShaped(c.banks)
    ensures var vector := VectorOf(kind);
            Vectors(c, kind, vector.address, ModeCode(vector.mode), LinkOffset(kind, c.psr.thumb), vector.disableFiq)
  {
    StatusOf(c.psr);
    StatusOf(Entered(c, kind).psr);
    hide EncodePsr, ModeCode, LinkOffset, VectorOf;
    assert kind != Reset ==> VectorOf(kind).saveCpsr by { SavesStatus(kind); }
  }

  lemma SavesStatus(kind: Exception)
    ensures VectorOf(kind).saveCpsr <==> kind != Reset
  {
  }

  /** The fields of an encoded status word. */
  lemma StatusOf(p: Psr)
    ensures var word := EncodePsr(p);
            && word % 32 == ModeCode(p.mode) && word / 0x20 % 2 == Flag(p.thumb)
            && word / 0x40 % 2 == Flag(p.fiqDisabled) && word / 0x80 % 2 == Flag(p.irqDisabled)
            && word / 0x1000_0000 == Flag(p.overflow) + 2 * Flag(p.carry) + 4 * Flag(p.zero) + 8 * Flag(p.negative)
  {
    ModeRoundTrip(p.mode);
    BitsOf(ModeCode(p.mode), Flag(p.thumb), Flag(p.fiqDisabled), Flag(p.irqDisabled), Flag(p.overflow), Flag(p.carry),
           Flag(p.zero), Flag(p.negative));
    TopBits(ModeCode(p.mode), Flag(p.thumb), Flag(p.fiqDisabled), Flag(p.irqDisabled), Flag(p.overflow), Flag(p.carry),
            Flag(p.zero), Flag(p.negative));
    hide ModeCode, DecodeMode, Word, Flag;
  }

  lemma TopBits(low: nat, t: nat, f: nat, i: nat, v: nat, c: nat, z: nat, n: nat)
    requires low < 32 && t <= 1 && f <= 1 && i <= 1
    ensures Word(low, t, f, i, v, c, z, n) / 0x1000_0000 == v + 2 * c + 4 * z + 8 * n
  {
    var word, top := Word(low, t, f, i, v, c, z, n), v + 2 * c + 4 * z + 8 * n;
    assert word == 0x1000_0000 * top + (low + 0x20 * t + 0x40 * f + 0x80 * i);
  }

  /** Which modes see the same register: r0-r7 and the PC all of them, r8-r12 all but FIQ, SP and LR
      only user and system mode. */
  lemma SharedRegisters(m: Mode, n: Mode, r: nat)
    requires r < 16
    ensures (forall b: Banks :: WellShaped(b) ==> Register(b, m, r) == Register(b, n, r))
       <==> m == n || r < 8 || r == 15 || (r < 13 && m != Fiq && n != Fiq)
            || (r >= 13 && m in {User, System} && n in {User, System})
  {
    var distinct := Banks([0, 0, 0, 0, 0, 0, 0, 0], [0, 0, 0, 0, 0], [1, 1, 1, 1, 1], [0, 1, 2, 3, 4, 5],
                          [0, 1, 2, 3, 4, 5], 0, [0, 0, 0, 0, 0, 0]);
    assert WellShaped(distinct);
    assert Register(distinct, m, r) == Register(distinct, n, r)
      <==> m == n || r < 8 || r == 15 || (r < 13 && m != Fiq && n != Fiq)
           || (r >= 13 && m in {User, System} && n in {User, System});
  }
}
