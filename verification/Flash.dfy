/**
 The cartridge flash chip: a command state machine over byte writes, and what whole histories of
 writes can and cannot do to the stored bytes.
 */
module Flash {
  const UNLOCK1: nat := 0x5555
  const UNLOCK2: nat := 0x2AAA
  const BANK: nat := 0x1_0000
  const SECTOR: nat := 0x1000

  datatype Kind = Flash64 | Flash128

  function SizeOf(k: Kind): nat {
    if k.Flash64? then BANK else 2 * BANK
  }

  datatype Command =
    | Idle | Unlock1 | Unlock2 | ProgramData | EraseUnlock1 | EraseUnlock2 | EraseCommand | BankSelect

  datatype Chip = Chip(kind: Kind, data: seq<bv8>, command: Command, idMode: bool, bank: nat)

  /** A byte write at an offset of the save aperture. */
  datatype Write = Write(offset: nat, value: bv8)

  function CommandOffset(w: Write): nat {
    w.offset % BANK
  }

  predicate At(w: Write, offset: nat, value: bv8) {
    CommandOffset(w) == offset && w.value == value
  }

  /** What configuring, loading and every write keep. */
  predicate Valid(c: Chip) {
    |c.data| == SizeOf(c.kind) && c.bank <= 1 && (c.kind.Flash64? ==> c.bank == 0)
  }

  /** The stored byte an aperture offset selects. */
  function Effective(c: Chip, offset: nat): (e: nat)
    requires Valid(c)
    ensures e < |c.data| && e / BANK == c.bank && e % BANK == offset % BANK
  {
    (if c.kind.Flash128? then c.bank * BANK else 0) + offset % BANK
  }

  function SectorOf(position: nat): nat {
    position / SECTOR
  }

  function Filled(data: seq<bv8>, from: nat, to: nat): (r: seq<bv8>)
    requires from <= to <= |data|
    ensures |r| == |data|
    ensures forall p :: 0 <= p < |data| ==> r[p] == if from <= p < to then 0xFF else data[p]
  {
    data[..from] + seq(to - from, _ => 0xFF) + data[to..]
  }

  lemma SectorFits(c: Chip, offset: nat)
    requires Valid(c)
    ensures (SectorOf(Effective(c, offset)) + 1) * SECTOR <= |c.data|
    ensures SectorOf(Effective(c, offset)) * SECTOR / BANK == c.bank
  {
    var e := Effective(c, offset);
    assert e / SECTOR < |c.data| / SECTOR;
  }

  function Aborted(c: Chip): Chip {
    c.(command := Idle, idMode := false)
  }

  /** write_flash_byte: the chip afterwards, and whether it took the write. */
  function Written(c: Chip, w: Write): (r: (Chip, bool))
    requires Valid(c)
    ensures Valid(r.0)
  {
    if c.command == Idle && w.value == 0xF0 then (Aborted(c), true)
    else
      match c.command
      case Idle => if At(w, UNLOCK1, 0xAA) then (c.(command := Unlock1), true) else (c, false)
      case Unlock1 => if At(w, UNLOCK2, 0x55) then (c.(command := Unlock2), true) else (Aborted(c), false)
      case Unlock2 =>
        if CommandOffset(w) != UNLOCK1 then (Aborted(c), false)
        else if w.value == 0x90 then (c.(command := Idle, idMode := true), true)
        else if w.value == 0xA0 then (c.(command := ProgramData), true)
        else if w.value == 0x80 then (c.(command := EraseUnlock1), true)
        else if w.value == 0xB0 then (c.(command := BankSelect), true)
        else (Aborted(c), w.value == 0xF0)
      case ProgramData =>
        var e := Effective(c, w.offset);
        (c.(command := Idle, data := c.data[e := c.data[e] & w.value]), true)
      case EraseUnlock1 => if At(w, UNLOCK1, 0xAA) then (c.(command := EraseUnlock2), true) else (Aborted(c), false)
      case EraseUnlock2 => if At(w, UNLOCK2, 0x55) then (c.(command := EraseCommand), true) else (Aborted(c), false)
      case EraseCommand =>
        if At(w, UNLOCK1, 0x10) then (c.(command := Idle, data := Filled(c.data, 0, |c.data|)), true)
        else if w.value == 0x30 then
          SectorFits(c, w.offset);
          var sector := SectorOf(Effective(c, w.offset));
          (c.(command := Idle, data := Filled(c.data, sector * SECTOR, (sector + 1) * SECTOR)), true)
        else (Aborted(c), false)
      case BankSelect =>
        if CommandOffset(w) == 0
        then (c.(command := Idle, bank := if c.kind.Flash128? && w.value & 1 == 1 then 1 else 0), true)
        else (Aborted(c), false)
  }

  /** read_flash_byte */
  function Read(c: Chip, offset: nat): bv8
    requires Valid(c)
  {
    if c.idMode then
      (if offset % BANK == 0 then 0xC2
       else if offset % BANK == 1 then (if c.kind.Flash128? then 0x09 else 0x1C)
       else 0xFF)
    else c.data[Effective(c, offset)]
  }

  function Run(c: Chip, h: seq<Write>): (r: Chip)
    requires Valid(c)
    ensures Valid(r)
    decreases |h|
  {
    if h == [] then c else Written(Run(c, h[..|h| - 1]), h[|h| - 1]).0
  }

  /** A freshly configured or loaded chip. */
  predicate Fresh(c: Chip) {
    Valid(c) && c.command == Idle && !c.idMode
  }

  // ---------------------------------------------------------------- what a history shows

  /** The command sequences, written out. */
  lemma CommandSequences()
    ensures PROGRAM == [(0x5555, 0xAA), (0x2AAA, 0x55), (0x5555, 0xA0)]
    ensures SELECT == [(0x5555, 0xAA), (0x2AAA, 0x55), (0x5555, 0xB0)]
    ensures ERASE == [(0x5555, 0xAA), (0x2AAA, 0x55), (0x5555, 0x80), (0x5555, 0xAA), (0x2AAA, 0x55)]
  {
  }

  predicate EndsWith(h: seq<Write>, n: nat, pattern: seq<(nat, bv8)>) {
    |pattern| <= n <= |h|
    && forall i :: 0 <= i < |pattern| ==> At(h[n - |pattern| + i], pattern[i].0, pattern[i].1)
  }

  const UNLOCK: seq<(nat, bv8)> := [(UNLOCK1, 0xAA), (UNLOCK2, 0x55)]
  const PROGRAM: seq<(nat, bv8)> := UNLOCK + [(UNLOCK1, 0xA0)]
  const SELECT: seq<(nat, bv8)> := UNLOCK + [(UNLOCK1, 0xB0)]
  const ERASE: seq<(nat, bv8)> := UNLOCK + [(UNLOCK1, 0x80)] + UNLOCK

  /** The sequence of writes each command state stands for. */
  function PrefixOf(command: Command): seq<(nat, bv8)> {
    match command
    case Idle => []
    case Unlock1 => [(UNLOCK1, 0xAA)]
    case Unlock2 => UNLOCK
    case ProgramData => PROGRAM
    case BankSelect => SELECT
    case EraseUnlock1 => UNLOCK + [(UNLOCK1, 0x80)]
    case EraseUnlock2 => UNLOCK + [(UNLOCK1, 0x80), (UNLOCK1, 0xAA)]
    case EraseCommand => ERASE
  }

  /** In any state reached from a fresh chip the last writes are exactly that state's sequence. */
  lemma {:induction false} StateShowsHistory(c: Chip, h: seq<Write>, n: nat)
    requires Fresh(c) && n <= |h|
    ensures EndsWith(h, n, PrefixOf(Run(c, h[..n]).command))
    decreases n
  {
    if n == 0 {
      assert h[..0] == [];
    } else {
      var before := Run(c, h[..n - 1]);
      assert h[..n][..n - 1] == h[..n - 1] && h[..n][n - 1] == h[n - 1];
      StateShowsHistory(c, h, n - 1);
      var after := Run(c, h[..n]);
      assert after == Written(before, h[n - 1]).0;
      NextPrefix(before, h[n - 1]);
      if after.command != Idle {
        Extended(h, n, PrefixOf(before.command), PrefixOf(after.command));
      }
    }
  }

  /** A step either falls back to idle or extends the sequence by the write itself. */
  lemma NextPrefix(c: Chip, w: Write)
    requires Valid(c)
    ensures var next := Written(c, w).0.command;
            next != Idle ==> && |PrefixOf(next)| == |PrefixOf(c.command)| + 1
                             && PrefixOf(next)[..|PrefixOf(c.command)|] == PrefixOf(c.command)
                             && At(w, PrefixOf(next)[|PrefixOf(c.command)|].0, PrefixOf(next)[|PrefixOf(c.command)|].1)
  {
  }

  lemma Extended(h: seq<Write>, n: nat, a: seq<(nat, bv8)>, b: seq<(nat, bv8)>)
    requires 0 < n <= |h| && EndsWith(h, n - 1, a) && |b| == |a| + 1 && b[..|a|] == a
    requires At(h[n - 1], b[|a|].0, b[|a|].1)
    ensures EndsWith(h, n, b)
  {
    forall i | 0 <= i < |b|
      ensures At(h[n - |b| + i], b[i].0, b[i].1)
    {
      if i < |a| {
        assert b[i] == a[i] && h[n - |b| + i] == h[n - 1 - |a| + i];
      }
    }
  }

  /** Write `n` completes an exact command that stores at position `p` of a chip in state `before`. */
  predicate Programs(before: Chip, h: seq<Write>, n: nat, p: nat)
    requires Valid(before) && n < |h|
  {
    EndsWith(h, n, PROGRAM) && p == Effective(before, h[n].offset)
  }

  predicate ErasesChip(h: seq<Write>, n: nat)
    requires n < |h|
  {
    EndsWith(h, n, ERASE) && At(h[n], UNLOCK1, 0x10)
  }

  predicate ErasesSector(before: Chip, h: seq<Write>, n: nat, p: nat)
    requires Valid(before) && n < |h|
  {
    EndsWith(h, n, ERASE) && h[n].value == 0x30 && SectorOf(p) == SectorOf(Effective(before, h[n].offset))
  }

  lemma OneMore(c: Chip, h: seq<Write>, n: nat)
    requires Valid(c) && n < |h|
    ensures Run(c, h[..n + 1]) == Written(Run(c, h[..n]), h[n]).0
  {
    assert h[..n + 1][..n] == h[..n];
  }

  /** A byte changes only on the last write of an exact unlocked command that covers it: programming
      can only clear bits, erasing sets the whole byte. */
  lemma ChangeNeedsCommand(c: Chip, h: seq<Write>, n: nat, p: nat)
    requires Fresh(c) && n < |h| && p < |c.data|
    ensures var before, after := Run(c, h[..n]), Run(c, h[..n + 1]);
            && |before.data| == |after.data| == |c.data|
            && (after.data[p] != before.data[p] ==>
                  || (Programs(before, h, n, p) && after.data[p] == before.data[p] & h[n].value)
                  || (ErasesChip(h, n) && after.data[p] == 0xFF)
                  || (ErasesSector(before, h, n, p) && after.data[p] == 0xFF))
  {
    hide Written, Run, EndsWith, Effective, SectorOf, At;
    StateShowsHistory(c, h, n);
    OneMore(c, h, n);
    SameKind(c, h[..n]);
    var before := Run(c, h[..n]);
    WriteEffect(before, h[n], p);
    KindKept(before, h[n]);
    hide Valid, Fresh;
  }

  lemma KindKept(c: Chip, w: Write)
    requires Valid(c)
    ensures Written(c, w).0.kind == c.kind && |Written(c, w).0.data| == |c.data|
  {
    hide Effective, Filled, SectorOf;
  }

  lemma {:induction false} SameKind(c: Chip, h: seq<Write>)
    requires Valid(c)
    ensures Run(c, h).kind == c.kind && |Run(c, h).data| == |c.data|
    decreases |h|
  {
    hide Written;
    if h != [] {
      SameKind(c, h[..|h| - 1]);
      KindKept(Run(c, h[..|h| - 1]), h[|h| - 1]);
    }
  }

  lemma WriteEffect(c: Chip, w: Write, p: nat)
    requires Valid(c) && p < |c.data|
    ensures var after := Written(c, w).0.data[p];
            after != c.data[p] ==>
              || (c.command == ProgramData && p == Effective(c, w.offset) && after == c.data[p] & w.value)
              || (c.command == EraseCommand && after == 0xFF
                  && (At(w, UNLOCK1, 0x10) || (w.value == 0x30 && SectorOf(p) == SectorOf(Effective(c, w.offset)))))
  {
    if c.command == EraseCommand && w.value == 0x30 {
      SectorFits(c, w.offset);
    }
  }

  ghost predicate Commits(c: Chip, h: seq<Write>, n: nat, p: nat)
    requires Fresh(c) && n < |h|
  {
    var before := Run(c, h[..n]);
    Programs(before, h, n, p) || ErasesChip(h, n) || ErasesSector(before, h, n, p)
  }

  /** Over a whole history, a byte that no exact command covered still holds its first value. */
  lemma {:induction false} UntouchedBytes(c: Chip, h: seq<Write>, m: nat, p: nat)
    requires Fresh(c) && p < |c.data| && m <= |h|
    requires forall n :: 0 <= n < m ==> !Commits(c, h, n, p)
    ensures |Run(c, h[..m]).data| == |c.data| && Run(c, h[..m]).data[p] == c.data[p]
    decreases m
  {
    if m == 0 {
      assert h[..0] == [];
    } else {
      UntouchedBytes(c, h, m - 1, p);
      assert !Commits(c, h, m - 1, p);
      ChangeNeedsCommand(c, h, m - 1, p);
      hide Run, Programs, ErasesChip, ErasesSector;
    }
  }

  /** Without an erase, bits are only ever cleared. */
  lemma {:induction false} ProgrammingClears(c: Chip, h: seq<Write>, m: nat, p: nat)
    requires Fresh(c) && p < |c.data| && m <= |h|
    requires forall n :: 0 <= n < m ==> !EndsWith(h, n, ERASE)
    ensures |Run(c, h[..m]).data| == |c.data|
    ensures Run(c, h[..m]).data[p] & c.data[p] == Run(c, h[..m]).data[p]
    decreases m
  {
    if m == 0 {
      assert h[..0] == [];
      SelfMask(c.data[p]);
    } else {
      hide Run, EndsWith, Effective, SectorOf, At;
      ProgrammingClears(c, h, m - 1, p);
      ChangeNeedsCommand(c, h, m - 1, p);
      assert !EndsWith(h, m - 1, ERASE);
      MaskFurther(Run(c, h[..m - 1]).data[p], c.data[p], h[m - 1].value);
      hide Programs;
    }
  }

  lemma SelfMask(a: bv8)
    ensures a & a == a
  {
  }

  lemma MaskFurther(a: bv8, b: bv8, v: bv8)
    requires a & b == a
    ensures (a & v) & b == a & v
  {
  }

  /** The selected bank changes only on the last write of an exact bank-select sequence. */
  lemma BankNeedsCommand(c: Chip, h: seq<Write>, n: nat)
    requires Fresh(c) && n < |h| && Run(c, h[..n + 1]).bank != Run(c, h[..n]).bank
    ensures EndsWith(h, n, SELECT) && CommandOffset(h[n]) == 0 && c.kind.Flash128?
  {
    hide Run, EndsWith, At, CommandOffset, Written;
    StateShowsHistory(c, h, n);
    OneMore(c, h, n);
    SameKind(c, h[..n]);
    BankEffect(Run(c, h[..n]), h[n]);
  }

  lemma BankEffect(c: Chip, w: Write)
    requires Valid(c) && Written(c, w).0.bank != c.bank
    ensures c.command == BankSelect && CommandOffset(w) == 0 && c.kind.Flash128?
  {
    hide Effective, Filled, SectorOf, CommandOffset;
  }

  // ---------------------------------------------------------------- the sequences work

  function Writes(pattern: seq<(nat, bv8)>): seq<Write> {
    seq(|pattern|, i requires 0 <= i < |pattern| => Write(pattern[i].0, pattern[i].1))
  }

  function ProgramWrites(offset: nat, value: bv8): seq<Write> {
    Writes(PROGRAM) + [Write(offset, value)]
  }

  function EraseWrites(offset: nat): seq<Write> {
    Writes(ERASE) + [Write(offset, 0x30)]
  }

  lemma {:induction false} RunJoins(c: Chip, g: seq<Write>, h: seq<Write>)
    requires Valid(c)
    ensures Run(c, g + h) == Run(Run(c, g), h)
    decreases |h|
  {
    if h == [] {
      assert g + h == g;
    } else {
      var n := |h| - 1;
      assert (g + h)[..|g + h| - 1] == g + h[..n];
      RunJoins(c, g, h[..n]);
    }
  }

  /** From idle, each unlock sequence leads to its command state and changes nothing else. */
  lemma UnlockWorks(c: Chip, command: Command)
    requires Valid(c) && c.command == Idle
    requires command == ProgramData || command == EraseCommand || command == BankSelect
    ensures Run(c, Writes(PrefixOf(command))) == c.(command := command)
  {
    StepUnlock(c, Unlock1);
    StepUnlock(c, Unlock2);
    if command == EraseCommand {
      StepUnlock(c, EraseUnlock1);
      StepUnlock(c, EraseUnlock2);
    }
    StepUnlock(c, command);
  }

  function Previous(command: Command): Command {
    match command
    case Unlock2 => Unlock1
    case ProgramData => Unlock2
    case BankSelect => Unlock2
    case EraseUnlock1 => Unlock2
    case EraseUnlock2 => EraseUnlock1
    case EraseCommand => EraseUnlock2
    case _ => Idle
  }

  lemma StepUnlock(c: Chip, command: Command)
    requires Valid(c) && c.command == Idle && command != Idle
    requires Run(c, Writes(PrefixOf(Previous(command)))) == c.(command := Previous(command)) || command == Unlock1
    ensures Run(c, Writes(PrefixOf(command))) == c.(command := command)
  {
    var prefix, shorter := PrefixOf(command), PrefixOf(Previous(command));
    var h := Writes(prefix);
    var n := |h| - 1;
    assert prefix[..n] == shorter;
    assert h[..n] == Writes(shorter);
    if command == Unlock1 {
      assert h[..0] == [];
    }
    assert h[n] == Write(prefix[n].0, prefix[n].1);
    hide Run, Writes;
    LastUnlock(c.(command := Previous(command)), command);
  }

  lemma LastUnlock(c: Chip, command: Command)
    requires Valid(c) && command != Idle && c.command == Previous(command)
    ensures var prefix := PrefixOf(command);
            Written(c, Write(prefix[|prefix| - 1].0, prefix[|prefix| - 1].1)).0 == c.(command := command)
  {
  }

  /** Programming from idle stores exactly `old & value` at the selected byte. */
  lemma ProgramWorks(c: Chip, offset: nat, value: bv8)
    requires Valid(c) && c.command == Idle
    ensures var e := Effective(c, offset);
            Run(c, ProgramWrites(offset, value)) == c.(data := c.data[e := c.data[e] & value])
  {
    CommandRuns(c, ProgramData, Write(offset, value));
    hide Run, Writes;
  }

  lemma OneWrite(c: Chip, w: Write)
    requires Valid(c)
    ensures Run(c, [w]) == Written(c, w).0
  {
    assert [w][..0] == [];
  }

  /** A command's sequence and its last write act as the last write on the armed chip. */
  lemma CommandRuns(c: Chip, command: Command, w: Write)
    requires Valid(c) && c.command == Idle
    requires command == ProgramData || command == EraseCommand || command == BankSelect
    ensures Run(c, Writes(PrefixOf(command)) + [w]) == Written(c.(command := command), w).0
  {
    hide Run, Writes, Written, PrefixOf;
    UnlockWorks(c, command);
    RunJoins(c, Writes(PrefixOf(command)), [w]);
    OneWrite(c.(command := command), w);
  }

  /** A sector erase from idle sets exactly one aligned 4 KiB block, inside the selected bank. */
  lemma EraseWorks(c: Chip, offset: nat)
    requires Valid(c) && c.command == Idle
    ensures var after := Run(c, EraseWrites(offset));
            && after == c.(data := after.data) && |after.data| == |c.data|
            && forall p :: 0 <= p < |c.data| ==>
                 after.data[p] == if SectorOf(p) == SectorOf(Effective(c, offset)) then 0xFF else c.data[p]
  {
    var ready, w := c.(command := EraseCommand), Write(offset, 0x30);
    assert Effective(ready, offset) == Effective(c, offset);
    CommandRuns(c, EraseCommand, w);
    hide Run, Writes, Effective, SectorOf, Written;
    SectorWrite(ready, w);
  }

  function ChipEraseWrites(): seq<Write> {
    Writes(ERASE) + [Write(0x5555, 0x10)]
  }

  function SelectWrites(bank: bv8): seq<Write> {
    Writes(SELECT) + [Write(0, bank)]
  }

  /** The last writes of a chip erase and of a bank select. */
  lemma LastWrites(c: Chip, w: Write)
    requires Valid(c)
    ensures c.command == EraseCommand && w == Write(0x5555, 0x10) ==>
              var after := Written(c, w).0;
              && after == c.(command := Idle, data := after.data) && |after.data| == |c.data|
              && forall p :: 0 <= p < |c.data| ==> after.data[p] == 0xFF
    ensures c.command == BankSelect && w.offset == 0 ==>
              Written(c, w).0
              == c.(command := Idle, bank := if c.kind.Flash128? && w.value & 1 == 1 then 1 else 0)
  {
  }

  /** A chip erase from idle sets every byte of the device and changes nothing else. */
  lemma ChipEraseWorks(c: Chip)
    requires Valid(c) && c.command == Idle
    ensures var after := Run(c, ChipEraseWrites());
            && after == c.(data := after.data) && |after.data| == |c.data|
            && forall p :: 0 <= p < |c.data| ==> after.data[p] == 0xFF
  {
    var ready, w := c.(command := EraseCommand), Write(0x5555, 0x10);
    LastWrites(ready, w);
    CommandRuns(c, EraseCommand, w);
    hide Run, Writes, Written;
  }

  /** A bank select from idle selects bank 0 or 1 by bit 0 on a 128K device, bank 0 on a 64K one, and
      changes nothing else. */
  lemma SelectWorks(c: Chip, bank: bv8)
    requires Valid(c) && c.command == Idle
    ensures Run(c, SelectWrites(bank)) == c.(bank := if c.kind.Flash128? && bank & 1 == 1 then 1 else 0)
  {
    var ready, w := c.(command := BankSelect), Write(0, bank);
    LastWrites(ready, w);
    CommandRuns(c, BankSelect, w);
    hide Run, Writes, Written;
  }

  lemma SectorWrite(c: Chip, w: Write)
    requires Valid(c) && c.command == EraseCommand && w.value == 0x30
    ensures var after := Written(c, w).0;
            && after == c.(command := Idle, data := after.data) && |after.data| == |c.data|
            && forall p :: 0 <= p < |c.data| ==>
                 after.data[p] == if SectorOf(p) == SectorOf(Effective(c, w.offset)) then 0xFF else c.data[p]
  {
    SectorFits(c, w.offset);
    var sector := SectorOf(Effective(c, w.offset));
    forall p: nat | p < |c.data|
      ensures sector * SECTOR <= p < (sector + 1) * SECTOR <==> SectorOf(p) == sector
    {
    }
    hide Effective, SectorOf;
  }

  /** Erase, program, read back: outside ID mode the byte reads as programmed, and no byte outside
      the sector has changed. */
  lemma StoreAndReadBack(c: Chip, offset: nat, value: bv8)
    requires Valid(c) && c.command == Idle && !c.idMode
    ensures var after := Run(c, EraseWrites(offset) + ProgramWrites(offset, value));
            && after == c.(data := after.data) && Read(after, offset) == value
            && forall p :: 0 <= p < |c.data| && SectorOf(p) != SectorOf(Effective(c, offset)) ==> after.data[p] == c.data[p]
  {
    EraseWorks(c, offset);
    var erased := Run(c, EraseWrites(offset));
    ProgramWorks(erased, offset, value);
    RunJoins(c, EraseWrites(offset), ProgramWrites(offset, value));
    hide Run, ProgramWrites, EraseWrites;
    AllOnes(value);
  }

  lemma AllOnes(v: bv8)
    ensures 0xFF & v == v
  {
  }

  // ---------------------------------------------------------------- the chip on the bus

  class FlashSave {
    const kind: Kind
    var data: array<bv8>
    var command: Command
    var idMode: bool
    var bank: nat

    ghost function State(): Chip
      reads this, data
    {
      Chip(kind, data[..], command, idMode, bank)
    }

    constructor (kind: Kind)
      ensures this.kind == kind && fresh(data) && Fresh(State())
      ensures forall p :: 0 <= p < data.Length ==> data[p] == 0xFF
    {
      this.kind := kind;
      data := new bv8[SizeOf(kind)](_ => 0xFF);
      command, idMode, bank := Idle, false, 0;
    }

    method ResetProtocol()
      modifies this`command, this`idMode
      ensures State() == Aborted(old(State()))
    {
      command, idMode := Idle, false;
    }

    /** std::fill over a range */
    method Fill(from: nat, to: nat)
      requires from <= to <= data.Length
      modifies data
      ensures data[..] == Filled(old(data[..]), from, to)
    {
      for p := from to to
        invariant forall k :: from <= k < p ==> data[k] == 0xFF
        invariant forall k :: 0 <= k < data.Length && !(from <= k < p) ==> data[k] == old(data[k])
      {
        data[p] := 0xFF;
      }
      assert data[..] == Filled(old(data[..]), from, to);
    }

    /** The storing write of a program sequence. */
    method ProgramByte(offset: nat, value: bv8)
      requires Valid(State()) && command == ProgramData
      modifies this, data
      ensures data == old(data) && State() == Written(old(State()), Write(offset, value)).0
    {
      var position := (if kind.Flash128? then bank * BANK else 0) + offset % BANK;
      assert position == Effective(State(), offset);
      data[position] := data[position] & value;
      command := Idle;
    }

    /** The last write of an erase sequence. */
    method Erase(offset: nat, value: bv8) returns (accepted: bool)
      requires Valid(State()) && command == EraseCommand
      modifies this, data
      ensures data == old(data) && (State(), accepted) == Written(old(State()), Write(offset, value))
    {
      if At(Write(offset, value), UNLOCK1, 0x10) {
        Fill(0, data.Length);
        command := Idle;
        return true;
      }
      if value == 0x30 {
        SectorFits(State(), offset);
        var position := (if kind.Flash128? then bank * BANK else 0) + offset % BANK;
        assert position == Effective(State(), offset);
        var start := position / SECTOR * SECTOR;
        hide Filled;
        Fill(start, start + SECTOR);
        command := Idle;
        return true;
      }
      ResetProtocol();
      return false;
    }

    /** write_flash_byte */
    method WriteFlashByte(offset: nat, value: bv8) returns (accepted: bool)
      requires Valid(State())
      modifies this, data
      ensures data == old(data) && Valid(State())
      ensures (State(), accepted) == Written(old(State()), Write(offset, value))
    {
      hide Effective, Filled, SectorOf, CommandOffset;
      var w := Write(offset, value);
      if command == Idle && value == 0xF0 {
        ResetProtocol();
        return true;
      }
      match command {
        case Idle =>
          if At(w, UNLOCK1, 0xAA) {
            command := Unlock1;
            return true;
          }
          return false;
        case Unlock1 =>
          if At(w, UNLOCK2, 0x55) {
            command := Unlock2;
            return true;
          }
        case Unlock2 =>
          if CommandOffset(w) == UNLOCK1 {
            if value == 0x90 {
              idMode, command := true, Idle;
              return true;
            }
            if value == 0xA0 {
              command := ProgramData;
              return true;
            }
            if value == 0x80 {
              command := EraseUnlock1;
              return true;
            }
            if value == 0xB0 {
              command := BankSelect;
              return true;
            }
            if value == 0xF0 {
              ResetProtocol();
              return true;
            }
          }
        case ProgramData =>
          ProgramByte(offset, value);
          return true;
        case EraseUnlock1 =>
          if At(w, UNLOCK1, 0xAA) {
            command := EraseUnlock2;
            return true;
          }
        case EraseUnlock2 =>
          if At(w, UNLOCK2, 0x55) {
            command := EraseCommand;
            return true;
          }
        case EraseCommand =>
          accepted := Erase(offset, value);
          return;
        case BankSelect =>
          if CommandOffset(w) == 0 {
            bank := if kind.Flash128? && value & 1 == 1 then 1 else 0;
            command := Idle;
            return true;
          }
      }
      ResetProtocol();
      return false;
    }
  }
}
