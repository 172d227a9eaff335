/** Register lists and the addresses of LDM, STM, PUSH and POP. */
module BlockTransfer {
  import opened Prelude
  import opened CpuState
  import opened Words

  /** Register `i` is in the 16-bit list. */
  predicate Listed(list: u16, i: nat) {
    Bit(list, i)
  }

  /** How many listed registers lie below `i`. */
  function CountBelow(list: u16, i: nat): (n: nat)
    ensures n <= i
    decreases i
  {
    if i == 0 then 0 else CountBelow(list, i - 1) + if Listed(list, i - 1) then 1 else 0
  }

  function Count(list: u16): nat {
    CountBelow(list, 16)
  }

  /** Registers are stored at ascending addresses in ascending order, whatever the mode. */
  function AddressOf(first: u32, list: u16, i: nat): u32 {
    NthWord(first, CountBelow(list, i))
  }

  function NthWord(first: u32, n: nat): u32 {
    (first + 4 * n) % TWO32
  }

  function FirstAddress(base: u32, count: nat, preIndex: bool, up: bool): u32 {
    if up then (if preIndex then (base + 4) % TWO32 else base)
    else if preIndex then (base - 4 * count) % TWO32
    else (base - 4 * count + 4) % TWO32
  }

  function WrittenBack(base: u32, count: nat, up: bool): u32 {
    if up then (base + 4 * count) % TWO32 else (base - 4 * count) % TWO32
  }

  /** The value STM stores for register `i`; R15 is stored as the instruction address plus 12. */
  function StoredValue(regs: seq<u32>, i: nat): u32
    requires |regs| == 16 && i < 16
  {
    if i == PC then (regs[i] + 12) % TWO32 else regs[i]
  }

  type Ram = map<u32, u32>

  /** Every listed register's word exists. */
  ghost predicate Mapped(ram: Ram, first: u32, list: u16) {
    forall i: nat :: i < 16 && Listed(list, i) ==> AddressOf(first, list, i) in ram
  }

  /** `after` is `before` with the listed registers below `n` stored, and nothing else touched. */
  ghost predicate StoredBelow(before: Ram, regs: seq<u32>, first: u32, list: u16, n: nat, after: Ram)
    requires |regs| == 16 && n <= 16
  {
    && after.Keys == before.Keys
    && (forall i: nat :: i < n && Listed(list, i) ==>
          AddressOf(first, list, i) in after && after[AddressOf(first, list, i)] == StoredValue(regs, i))
    && (forall a :: a in before && (forall i: nat :: i < n && Listed(list, i) ==> a != AddressOf(first, list, i))
          ==> after[a] == before[a])
  }

  ghost predicate Stored(before: Ram, regs: seq<u32>, first: u32, list: u16, after: Ram)
    requires |regs| == 16
  {
    StoredBelow(before, regs, first, list, 16, after)
  }

  /** A store refused at its first unmapped word: the listed registers before it are stored. */
  ghost predicate StoppedShort(before: Ram, regs: seq<u32>, first: u32, list: u16, after: Ram)
    requires |regs| == 16
  {
    exists n: nat :: n < 16 && StopsAt(before, first, list, n) && StoredBelow(before, regs, first, list, n, after)
  }

  ghost predicate StopsAt(ram: Ram, first: u32, list: u16, n: nat) {
    Listed(list, n) && AddressOf(first, list, n) !in ram
    && forall i: nat :: i < n && Listed(list, i) ==> AddressOf(first, list, i) in ram
  }

  /** The listed registers below R15 hold the words in memory, and the others are unchanged. */
  ghost predicate LoadedLow(ram: Ram, first: u32, list: u16, before: seq<u32>, after: seq<u32>)
    requires |before| == 16 && |after| == 16
  {
    forall i: nat :: i < PC ==>
      if Listed(list, i)
      then AddressOf(first, list, i) in ram && after[i] == ram[AddressOf(first, list, i)]
      else after[i] == before[i]
  }

  /** A branch target with bit 0 cleared. */
  function Halfword(target: u32): u32 {
    target - target % 2
  }

  /** A listed R15 takes its word with bit 0 cleared, and that bit selects the instruction set;
      an unlisted one, and every flag, is left alone. */
  ghost predicate LoadedPc(ram: Ram, first: u32, list: u16, pc0: u32, psr0: Psr, pc1: u32, psr1: Psr) {
    if Listed(list, PC) then
      && AddressOf(first, list, PC) in ram
      && var target := ram[AddressOf(first, list, PC)];
         pc1 == Halfword(target) && psr1 == psr0.(thumb := target % 2 == 1)
    else pc1 == pc0 && psr1 == psr0
  }

  lemma {:induction false} CountGrows(list: u16, i: nat, j: nat)
    requires i < j && Listed(list, i)
    ensures CountBelow(list, i) < CountBelow(list, j)
    decreases j
  {
    if i < j - 1 {
      CountGrows(list, i, j - 1);
    }
  }

  /** The words moved are [base, moved) for IA, (base, moved] for IB, [moved, base) for DB and
      (moved, base] for DA: word `k` of `n` lies `d` bytes from the base, which moves by 4 * n. */
  lemma WordsMoved(base: u32, n: nat, preIndex: bool, up: bool, k: nat) returns (d: int)
    requires k < n
    ensures NthWord(FirstAddress(base, n, preIndex, up), k) == (base + d) % 0x1_0000_0000
    ensures up && !preIndex ==> d == 4 * k && 0 <= d < 4 * n
    ensures up && preIndex ==> d == 4 * (k + 1) && 0 < d <= 4 * n
    ensures !up && preIndex ==> d == 4 * k - 4 * n && -4 * n <= d < 0
    ensures !up && !preIndex ==> d == 4 * (k + 1) - 4 * n && -4 * n < d <= 0
    ensures WrittenBack(base, n, up) == (if up then base + 4 * n else base - 4 * n) % 0x1_0000_0000
  {
    d := 4 * k + (if up then (if preIndex then 4 else 0) else (if preIndex then 0 else 4) - 4 * n);
    AddMod(base + (d - 4 * k), 4 * k);
  }

  lemma AddMod(a: int, b: int)
    ensures (a % TWO32 + b) % TWO32 == (a + b) % TWO32
  {
  }

  /** Two listed registers never share a word. */
  lemma DistinctAddresses(first: u32, list: u16, i: nat, j: nat)
    requires i < j <= 16 && Listed(list, i)
    ensures AddressOf(first, list, i) != AddressOf(first, list, j)
  {
    CountGrows(list, i, j);
    hide Listed, NthWord, CountBelow;
    DistinctWords(first, CountBelow(list, i), CountBelow(list, j));
  }

  lemma DistinctWords(first: u32, a: nat, b: nat)
    requires a < b <= 16
    ensures NthWord(first, a) != NthWord(first, b)
  {
    Residues(first + 4 * a, first + 4 * b);
  }

  lemma StoredNone(ram: Ram, regs: seq<u32>, first: u32, list: u16)
    requires |regs| == 16
    ensures StoredBelow(ram, regs, first, list, 0, ram)
    ensures AddressOf(first, list, 0) == first
  {
  }

  /** Storing the next listed register leaves the earlier ones' words alone. */
  lemma StoreOne(before: Ram, regs: seq<u32>, first: u32, list: u16, n: nat, now: Ram)
    requires |regs| == 16 && n < 16 && Listed(list, n)
    requires StoredBelow(before, regs, first, list, n, now) && AddressOf(first, list, n) in now
    ensures var value: u32 := StoredValue(regs, n);
            StoredBelow(before, regs, first, list, n + 1, now[AddressOf(first, list, n) := value])
  {
    forall i: nat | i < n && Listed(list, i)
      ensures AddressOf(first, list, i) != AddressOf(first, list, n)
    {
      DistinctAddresses(first, list, i, n);
    }
    hide AddressOf, Listed;
    var value: u32 := StoredValue(regs, n);
    var after := now[AddressOf(first, list, n) := value];
    assert after.Keys == before.Keys;
    forall a | a in before && (forall i: nat :: i < n + 1 && Listed(list, i) ==> a != AddressOf(first, list, i))
      ensures after[a] == before[a]
    {
      assert a != AddressOf(first, list, n);
    }
  }

  lemma StoreNone(before: Ram, regs: seq<u32>, first: u32, list: u16, n: nat, now: Ram)
    requires |regs| == 16 && n < 16 && !Listed(list, n) && StoredBelow(before, regs, first, list, n, now)
    ensures StoredBelow(before, regs, first, list, n + 1, now)
  {
    hide AddressOf, Listed;
  }

  lemma StoredAll(before: Ram, regs: seq<u32>, first: u32, list: u16, after: Ram)
    requires |regs| == 16 && StoredBelow(before, regs, first, list, 16, after)
    ensures Stored(before, regs, first, list, after) && Mapped(before, first, list)
  {
    hide AddressOf, Listed;
  }

  lemma Residues(x: int, y: int)
    requires x < y < x + TWO32
    ensures x % TWO32 != y % TWO32
  {
  }

  /** The complementary addressing mode walks the same words and puts the base back. */
  lemma ComplementaryModes(base: u32, count: nat, preIndex: bool, up: bool)
    requires count <= 16
    ensures var moved := WrittenBack(base, count, up);
            && FirstAddress(moved, count, !preIndex, !up) == FirstAddress(base, count, preIndex, up)
            && WrittenBack(moved, count, !up) == base
  {
    var n := 4 * count;
    Shift(base, n, -n);
    Shift(base, -n, n);
    Shift(base, n, -n + 4);
    Shift(base, -n, 4);
    Shift(base, -n, 0);
    assert (base + n - n) % TWO32 == base % TWO32 == base;
  }

  lemma Shift(base: int, a: int, b: int)
    ensures ((base + a) % TWO32 + b) % TWO32 == (base + a + b) % TWO32
  {
    var q, r := (base + a) / TWO32, (base + a) % TWO32;
    assert base + a + b == TWO32 * q + (r + b);
    Multiple(r + b, q);
  }

  lemma Multiple(x: int, q: int)
    ensures (TWO32 * q + x) % TWO32 == x % TWO32
  {
    var a, b := x / TWO32, x % TWO32;
    assert TWO32 * q + x == TWO32 * (q + a) + b;
  }

  /**
   STM and the LDM with the complementary mode (DB/IA, DA/IB, IA/DB, IB/DA): whatever happened
   to the listed registers in between, they come back, and so does the base, as long as the
   base register still points where STM left it and the stored words were not touched.
   */
  lemma StoreThenLoad(list: u16, rn: nat, preIndex: bool, up: bool,
                      saved: seq<u32>, ram0: Ram, ram1: Ram, between: seq<u32>, restored: seq<u32>)
    requires |saved| == 16 && |between| == 16 && |restored| == 16
    requires rn < PC && !Listed(list, rn) && !Listed(list, PC)
    requires Stored(ram0, saved, FirstAddress(saved[rn], Count(list), preIndex, up), list, ram1)
    requires between[rn] == WrittenBack(saved[rn], Count(list), up)
    requires var loaded := between[rn := WrittenBack(between[rn], Count(list), !up)];
             LoadedLow(ram1, FirstAddress(between[rn], Count(list), !preIndex, !up), list, loaded, restored)
    ensures forall i: nat :: i < PC && Listed(list, i) ==> restored[i] == saved[i]
    ensures restored[rn] == saved[rn]
    ensures forall i: nat :: i < PC && !Listed(list, i) && i != rn ==> restored[i] == between[i]
  {
    hide CountBelow, Stored, StoredBelow, FirstAddress, WrittenBack;
    CountBounded(list);
    ComplementaryModes(saved[rn], Count(list), preIndex, up);
    var first := FirstAddress(saved[rn], Count(list), preIndex, up);
    forall i: nat | i < PC && Listed(list, i)
      ensures restored[i] == saved[i]
    {
      StoredAt(ram0, saved, first, list, ram1, i);
    }
  }

  lemma CountBounded(list: u16)
    ensures Count(list) <= 16
  {
  }

  lemma StoredAt(before: Ram, regs: seq<u32>, first: u32, list: u16, after: Ram, i: nat)
    requires |regs| == 16 && i < 16 && Listed(list, i) && Stored(before, regs, first, list, after)
    ensures AddressOf(first, list, i) in after && after[AddressOf(first, list, i)] == StoredValue(regs, i)
  {
  }

  // ---------------------------------------------------------------- PUSH and POP

  /** The extra register of PUSH is LR, the one of POP is PC. */
  function PushList(list: u16, extra: bool): u16
    requires list < 0x100
  {
    if extra then list + 0x4000 else list
  }

  function PopList(list: u16, extra: bool): u16
    requires list < 0x100
  {
    if extra then list + 0x8000 else list
  }

  lemma {:induction false} SplitPower(i: nat, k: nat)
    requires i < k
    ensures Power(k) == 2 * Power(k - i - 1) * Power(i)
    decreases k
  {
    if i < k - 1 {
      SplitPower(i, k - 1);
    }
  }

  /** Setting a bit above every set bit of `list`. */
  lemma HighBit(list: nat, k: nat, i: nat)
    requires list < Power(k)
    ensures Bit(list + Power(k), i) <==> if i == k then true else if i < k then Bit(list, i) else false
    ensures i >= k ==> !Bit(list, i)
  {
    hide Power;
    var p := Power(i);
    if i < k {
      SplitPower(i, k);
      AddedMultiple(list, p, Power(k - i - 1));
    } else if i == k {
      DivModUnique(list, p, 0, list);
      DivModUnique(list + p, p, 1, list);
    } else {
      SplitPower(k, i);
      AtLeastOnce(Power(i - k - 1), Power(k));
      assert 2 * Power(i - k - 1) * Power(k) == 2 * (Power(i - k - 1) * Power(k));
      DivModUnique(list, p, 0, list);
      DivModUnique(list + Power(k), p, 0, list + Power(k));
    }
  }

  lemma AddedMultiple(x: nat, p: nat, h: nat)
    requires p > 0
    ensures (x + 2 * h * p) / p % 2 == x / p % 2
  {
    var q, r := x / p, x % p;
    assert (q + 2 * h) * p == q * p + 2 * h * p;
    DivModUnique(x + 2 * h * p, p, q + 2 * h, r);
  }

  /** Which registers the two lists name, and that both put register `i` at the same word. */
  lemma {:induction false} ThumbLists(list: u16, extra: bool, i: nat)
    requires list < 0x100 && i <= 14
    ensures i < 14 ==> (Listed(PushList(list, extra), i) <==> Listed(list, i))
    ensures i < 14 ==> (Listed(PopList(list, extra), i) <==> Listed(list, i))
    ensures 8 <= i ==> !Listed(list, i)
    ensures CountBelow(PushList(list, extra), i) == CountBelow(PopList(list, extra), i) == CountBelow(list, i)
    decreases i
  {
    Powers();
    hide Power, Bit;
    assert list < Power(8);
    HighBit(list, 8, i);
    HighBit(list, 14, i);
    HighBit(list, 15, i);
    if i > 0 {
      ThumbLists(list, extra, i - 1);
    }
  }

  lemma ThumbExtra(list: u16, extra: bool)
    requires list < 0x100
    ensures Listed(PushList(list, extra), 14) <==> extra
    ensures !Listed(PushList(list, extra), 15)
    ensures Listed(PopList(list, extra), 15) <==> extra
    ensures !Listed(PopList(list, extra), 14)
  {
    Powers();
    HighBits(list);
    hide Power, Bit;
  }

  lemma HighBits(list: u16)
    requires list < 0x100
    ensures !Bit(list, 14) && !Bit(list, 15) && Bit(list + 0x4000, 14) && !Bit(list + 0x4000, 15)
    ensures !Bit(list + 0x8000, 14) && Bit(list + 0x8000, 15)
  {
    Powers();
    hide Power, Bit;
    HighBit(list, 14, 14);
    HighBit(list, 14, 15);
    HighBit(list, 15, 14);
    HighBit(list, 15, 15);
  }

  lemma ThumbCounts(list: u16, extra: bool)
    requires list < 0x100
    ensures CountBelow(PopList(list, extra), 15) == CountBelow(PushList(list, extra), 14)
    ensures Count(PopList(list, extra)) == Count(PushList(list, extra)) <= 16
  {
    ThumbLists(list, extra, 14);
    ThumbExtra(list, extra);
    var pushed, popped := PushList(list, extra), PopList(list, extra);
    hide Listed, PushList, PopList;
    CountStep(pushed, 14);
    CountStep(pushed, 15);
    CountStep(popped, 14);
    CountStep(popped, 15);
    hide CountBelow;
  }

  lemma CountStep(list: u16, i: nat)
    ensures CountBelow(list, i + 1) == CountBelow(list, i) + if Listed(list, i) then 1 else 0
  {
  }

  lemma ThumbAddresses(list: u16, extra: bool, first: u32, i: nat)
    requires list < 0x100
    ensures i < 8 ==> AddressOf(first, PushList(list, extra), i) == AddressOf(first, PopList(list, extra), i)
    ensures AddressOf(first, PushList(list, extra), 14) == AddressOf(first, PopList(list, extra), 15)
  {
    ThumbCounts(list, extra);
    if i < 8 {
      ThumbLists(list, extra, i);
    }
    hide CountBelow, PushList, PopList, NthWord;
  }

  ghost predicate PushedThenPopped(list: u16, extra: bool, saved: seq<u32>, ram0: Ram, ram1: Ram, between: seq<u32>,
                                   psr0: Psr, restored: seq<u32>, psr1: Psr)
    requires |saved| == 16 && |between| == 16 && |restored| == 16 && list < 0x100
  {
    var first := WrittenBack(saved[13], Count(PushList(list, extra)), false);
    var popped := WrittenBack(first, Count(PopList(list, extra)), true);
    && Stored(ram0, saved, first, PushList(list, extra), ram1)
    && between[13] == first
    && LoadedLow(ram1, first, PopList(list, extra), between[13 := popped], restored)
    && LoadedPc(ram1, first, PopList(list, extra), between[15], psr0, restored[15], psr1)
  }

  lemma PushPopRegister(list: u16, extra: bool, saved: seq<u32>, ram0: Ram, ram1: Ram, between: seq<u32>, psr0: Psr,
                        restored: seq<u32>, psr1: Psr, i: nat)
    requires |saved| == 16 && |between| == 16 && |restored| == 16 && list < 0x100 && i < 8
    requires PushedThenPopped(list, extra, saved, ram0, ram1, between, psr0, restored, psr1)
    ensures restored[i] == if Listed(list, i) then saved[i] else between[i]
  {
    var pushed := PushList(list, extra);
    var first := WrittenBack(saved[13], Count(pushed), false);
    ThumbLists(list, extra, i);
    ThumbAddresses(list, extra, first, i);
    hide CountBelow, Count, Stored, StoredBelow, WrittenBack, Listed, PushList, PopList, AddressOf, NthWord, LoadedPc;
    if Listed(list, i) {
      StoredAt(ram0, saved, first, pushed, ram1, i);
    }
  }

  lemma PushPopStack(list: u16, extra: bool, saved: seq<u32>, ram0: Ram, ram1: Ram, between: seq<u32>, psr0: Psr,
                     restored: seq<u32>, psr1: Psr)
    requires |saved| == 16 && |between| == 16 && |restored| == 16 && list < 0x100
    requires PushedThenPopped(list, extra, saved, ram0, ram1, between, psr0, restored, psr1)
    ensures restored[13] == saved[13]
  {
    var pushed := PushList(list, extra);
    ThumbLists(list, extra, 13);
    ThumbCounts(list, extra);
    ComplementaryModes(saved[13], Count(pushed), true, false);
    hide CountBelow, Count, Stored, StoredBelow, WrittenBack, Listed, PushList, PopList, AddressOf, NthWord, LoadedPc;
  }

  lemma PushPopLink(list: u16, extra: bool, saved: seq<u32>, ram0: Ram, ram1: Ram, between: seq<u32>, psr0: Psr,
                    restored: seq<u32>, psr1: Psr)
    requires |saved| == 16 && |between| == 16 && |restored| == 16 && list < 0x100
    requires PushedThenPopped(list, extra, saved, ram0, ram1, between, psr0, restored, psr1)
    ensures if extra then restored[15] == Halfword(saved[14]) && psr1 == psr0.(thumb := saved[14] % 2 == 1)
            else restored[15] == between[15] && psr1 == psr0
  {
    var pushed := PushList(list, extra);
    var first := WrittenBack(saved[13], Count(pushed), false);
    ThumbExtra(list, extra);
    ThumbAddresses(list, extra, first, 0);
    hide CountBelow, Count, Stored, StoredBelow, WrittenBack, Listed, PushList, PopList, AddressOf, NthWord, LoadedLow;
    if extra {
      StoredAt(ram0, saved, first, pushed, ram1, 14);
    }
  }

  /**
   PUSH and a later POP of the same list, with the stack pointer back where PUSH left it and the
   stored words untouched: the listed registers and the stack pointer come back, and PUSH {LR}
   with POP {PC} returns to the pushed link address in the instruction set its bit 0 names.
   */
  lemma PushThenPop(list: u16, extra: bool, saved: seq<u32>, ram0: Ram, ram1: Ram, between: seq<u32>, psr0: Psr,
                    restored: seq<u32>, psr1: Psr)
    requires |saved| == 16 && |between| == 16 && |restored| == 16 && list < 0x100
    requires PushedThenPopped(list, extra, saved, ram0, ram1, between, psr0, restored, psr1)
    ensures forall i: nat :: i < 8 ==> restored[i] == if Listed(list, i) then saved[i] else between[i]
    ensures restored[13] == saved[13]
    ensures if extra then restored[15] == Halfword(saved[14]) && psr1 == psr0.(thumb := saved[14] % 2 == 1)
            else restored[15] == between[15] && psr1 == psr0
  {
    hide *;
    forall i: nat | i < 8
      ensures restored[i] == if Listed(list, i) then saved[i] else between[i]
    {
      PushPopRegister(list, extra, saved, ram0, ram1, between, psr0, restored, psr1, i);
    }
    PushPopStack(list, extra, saved, ram0, ram1, between, psr0, restored, psr1);
    PushPopLink(list, extra, saved, ram0, ram1, between, psr0, restored, psr1);
  }
}
