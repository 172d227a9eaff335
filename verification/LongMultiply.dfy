/** MULL/MLAL: the iterated multiplier array, its early exit, and the final assembly. */
module LongMultiply {
  import opened Prelude
  import opened Words
  import opened Multiplier

  // ---------------------------------------------------------------- 64- and 128-bit helpers

  function SignExtend64(value: u64, fromBits: nat, toBits: nat): (r: nat)
    requires 1 <= fromBits <= toBits <= 64
  {
    var extended :=
      if value / Power(fromBits - 1) % 2 == 1 then Or(value, Ones(fromBits, toBits)) else value;
    if toBits >= 64 then extended else extended % Power(toBits)
  }

  /** Bits low..high-1 set. */
  function Ones(low: nat, high: nat): nat
    requires low <= high
  {
    OrHigh(0, low, high);
    Power(high) - Power(low)
  }

  function AsSigned64(word: nat): int {
    if word >= TWO64 / 2 then word - TWO64 else word
  }

  function ArithmeticShiftRight(value: u64, shift: nat, width: nat): nat
    requires 1 <= width <= 64
  {
    AsSigned64(SignExtend64(value, width, 64)) / Power(shift) % TWO64 % Power(width)
  }

  function Shr(word: nat, shift: nat): (r: nat)
    ensures r == word / Power(shift)
  {
    QuotientNonNegative(word, Power(shift));
    word / Power(shift)
  }

  lemma QuotientNonNegative(word: nat, d: nat)
    requires d > 0
    ensures word / d >= 0
  {
  }

  function RotateRight128(v: Pair128, shift: nat): Pair128
    requires 0 < shift < 64
  {
    Pair128(Or(Shr(v.lo, shift), v.hi * Power(64 - shift) % TWO64),
            Or(Shr(v.hi, shift), v.lo * Power(64 - shift) % TWO64))
  }

  datatype Add32Output = Add32Output(output: nat, carry: bool)

  function Add32(left: nat, right: nat, carryIn: bool): Add32Output {
    var sum := left % TWO32 + right % TWO32 + (if carryIn then 1 else 0);
    Add32Output(sum % TWO32, sum > 0xFFFF_FFFF)
  }

  lemma SignExtendNarrow(value: u64, fromBits: nat, toBits: nat)
    requires 1 <= fromBits <= toBits <= 64 && value < Power(fromBits)
    ensures Power(fromBits) <= Power(toBits)
    ensures SignExtend64(value, fromBits, toBits)
         == if value < Power(fromBits - 1) then value else value + Power(toBits) - Power(fromBits)
  {
    Powers();
    OrHigh(value, fromBits, toBits) by { PowerGrows(fromBits, toBits); }
    PowerGrows(fromBits, toBits);
    var half := Power(fromBits - 1);
    assert Power(fromBits) == 2 * half;
    hide Or, Power;
    if value < half {
      DivModUnique(value, half, 0, value);
    } else {
      DivModUnique(value, half, 1, value - half);
    }
    DivModUnique(value, 2 * half, 0, value);
    PowerGrows(toBits, 64);
    SmallMod(value, Power(toBits));
    if value >= half {
      SmallMod(value + Power(toBits) - Power(fromBits), Power(toBits));
    }
  }

  lemma SmallMod(value: nat, modulus: nat)
    requires value < modulus
    ensures value % modulus == value
  {
  }

  lemma {:induction false} PowerGrows(a: nat, b: nat)
    requires a <= b
    ensures Power(a) <= Power(b)
    decreases b
  {
    if a < b {
      PowerGrows(a, b - 1);
    }
  }

  // ---------------------------------------------------------------- the multiplier register

  /** `word` holds the signed multiplier value `x` in 33 bits (34 before the first shift). */
  ghost predicate Holds(word: nat, x: int) {
    && word < TWO34 && -TWO32 <= x < TWO32
    && word % TWO33 == x % TWO33
    && (x >= 0 ==> word < TWO33)
  }

  lemma ShiftHolds(word: u64, x: int)
    requires Holds(word, x)
    ensures var shifted := ArithmeticShiftRight(word, 8, 33);
            shifted < TWO33 && Holds(shifted, x / 256)
  {
    if x >= 0 {
      ShiftPositive(word, x);
    } else {
      ShiftNegative(word, x);
    }
    hide ArithmeticShiftRight;
  }

  lemma ShiftPositive(word: u64, x: int)
    requires Holds(word, x) && x >= 0
    ensures ArithmeticShiftRight(word, 8, 33) == x / 256
    ensures Holds(x / 256, x / 256)
  {
    Powers();
    hide Power, Or;
    DivModUnique(x, TWO33, 0, x);
    DivModUnique(word, TWO33, 0, word);
    assert word == x;
    DivModUnique(word, TWO32, 0, word);
    assert SignExtend64(word, 33, 64) == word;
    DivModUnique(x / 256, TWO33, 0, x / 256);
    assert x / 256 % TWO64 == x / 256;
  }

  lemma ShiftNegative(word: u64, x: int)
    requires Holds(word, x) && x < 0
    ensures ArithmeticShiftRight(word, 8, 33) == x / 256 + TWO33
    ensures Holds(x / 256 + TWO33, x / 256)
  {
    Powers();
    hide Power, Or;
    DivModUnique(x, TWO33, -1, x + TWO33);
    var low := word % TWO33;
    assert low == x + TWO33 && TWO32 <= low;
    assert word / TWO32 % 2 == 1 by {
      var q := word / TWO33;
      assert word == TWO33 * q + low;
      DivModUnique(word, TWO32, 2 * q + 1, low - TWO32);
      DivModUnique(2 * q + 1, 2, q, 1);
    }
    OrHigh(word, 33, 64);
    assert SignExtend64(word, 33, 64) == low + (TWO64 - TWO33);
    assert AsSigned64(SignExtend64(word, 33, 64)) == x;
    ShiftedBits(x);
    hide SignExtend64, AsSigned64;
  }

  lemma ShiftedBits(x: int)
    requires -TWO32 <= x < 0
    ensures x / 256 % TWO64 % TWO33 == x / 256 + TWO33
    ensures x / 256 % TWO33 == x / 256 + TWO33 == (x / 256 + TWO33) % TWO33
  {
    DivModUnique(x / 256, TWO64, -1, x / 256 + TWO64);
    DivModUnique(x / 256 + TWO64, TWO33, 0x7FFF_FFFF, x / 256 + TWO33);
    DivModUnique(x / 256, TWO33, -1, x / 256 + TWO33);
    DivModUnique(x / 256 + TWO33, TWO33, 0, x / 256 + TWO33);
  }

  /** The first contents of the multiplier and multiplicand registers. */
  function Widened(signedMultiply: bool, word: u32): nat {
    if signedMultiply then SignExtend64(word, 32, 34) else word % TWO33
  }

  lemma WidenedHolds(signedMultiply: bool, word: u32)
    ensures Widened(signedMultiply, word) == Operand(signedMultiply, word) % TWO34
    ensures Holds(Widened(signedMultiply, word), Operand(signedMultiply, word))
    ensures Widened(signedMultiply, word) % 2 == word % 2
    ensures -TWO31 <= Operand(signedMultiply, word) < TWO32
  {
    Powers();
    hide Power, SignExtend64;
    var w, x := Widened(signedMultiply, word), Operand(signedMultiply, word);
    if signedMultiply {
      SignExtendNarrow(word, 32, 34);
    } else {
      SmallMod(word, TWO33);
    }
    WidenedIs(word, w, x);
  }

  lemma WidenedIs(word: u32, w: nat, x: int)
    requires x == word || x == word - TWO32
    requires -TWO31 <= x < TWO32 && w == if x >= 0 then x else x + TWO34
    ensures w == x % TWO34 && Holds(w, x) && w % 2 == word % 2
  {
    assert w == if x >= 0 then x else x + TWO34;
    DivModUnique(x, TWO34, if x >= 0 then 0 else -1, w);
    DivModUnique(x, TWO33, if x >= 0 then 0 else -1, if x >= 0 then x else x + TWO33);
    DivModUnique(w, TWO33, if x >= 0 then 0 else 1, if x >= 0 then x else x + TWO33);
  }

  // ---------------------------------------------------------------- iteration counts

  function SignedMultiplyIterations(value: u32): nat {
    if value / 0x100 == 0 || value / 0x100 == 0xFF_FFFF then 1
    else if value / 0x1_0000 == 0 || value / 0x1_0000 == 0xFFFF then 2
    else if value / 0x100_0000 == 0 || value / 0x100_0000 == 0xFF then 3
    else 4
  }

  function UnsignedMultiplyIterations(value: u32): nat {
    if value / 0x100 == 0 then 1
    else if value / 0x1_0000 == 0 then 2
    else if value / 0x100_0000 == 0 then 3
    else 4
  }

  predicate ShouldTerminate(multiplier: nat, signedMultiply: bool) {
    multiplier == 0 || (signedMultiply && multiplier == 0x1_FFFF_FFFF)
  }

  /** 256 to the number of iterations. */
  function Scale(n: nat): (p: nat)
    requires n <= 4
    ensures p > 0
  {
    match n
    case 0 => 1
    case 1 => 0x100
    case 2 => 0x1_0000
    case 3 => 0x100_0000
    case _ => 0x1_0000_0000
  }

  predicate Exhausted(signedMultiply: bool, x: int) {
    x == 0 || (signedMultiply && x == -1)
  }

  lemma TerminatesWhenExhausted(word: nat, x: int, signedMultiply: bool)
    requires word < TWO33 && Holds(word, x) && (!signedMultiply ==> x >= 0)
    ensures ShouldTerminate(word, signedMultiply) <==> Exhausted(signedMultiply, x)
  {
    if x >= 0 {
      DivModUnique(x, TWO33, 0, x);
    } else {
      DivModUnique(x, TWO33, -1, x + TWO33);
    }
    DivModUnique(word, TWO33, 0, word);
  }

  lemma ScaleStep(x: int, n: nat)
    requires n < 4
    ensures x / Scale(n) / 256 == x / Scale(n + 1) && Scale(n + 1) == 256 * Scale(n)
  {
    var s := Scale(n);
    var a, b := x / s, x % s;
    var q, r := a / 256, a % 256;
    assert x == s * (256 * q + r) + b;
    DivModUnique(x, 256 * s, q, s * r + b);
  }

  /** The early exit happens after exactly the number of iterations the timing code charges. */
  lemma IterationsExact(signedMultiply: bool, rs: u32, n: nat)
    requires 1 <= n <= 4
    requires Exhausted(signedMultiply, Operand(signedMultiply, rs) / Scale(n))
    requires forall k: nat :: 1 <= k < n ==> !Exhausted(signedMultiply, Operand(signedMultiply, rs) / Scale(k))
    ensures n == if signedMultiply then SignedMultiplyIterations(rs) else UnsignedMultiplyIterations(rs)
  {
    QuotientOf(signedMultiply, rs, 1);
    QuotientOf(signedMultiply, rs, 2);
    QuotientOf(signedMultiply, rs, 3);
    assert n > 1 ==> !Exhausted(signedMultiply, Operand(signedMultiply, rs) / Scale(1));
    assert n > 2 ==> !Exhausted(signedMultiply, Operand(signedMultiply, rs) / Scale(2));
    assert n > 3 ==> !Exhausted(signedMultiply, Operand(signedMultiply, rs) / Scale(3));
    hide Operand, Exhausted;
  }

  lemma QuotientOf(signedMultiply: bool, rs: u32, k: nat)
    requires 1 <= k <= 3
    ensures Exhausted(signedMultiply, Operand(signedMultiply, rs) / Scale(k))
       <==> rs / Scale(k) == 0 || (signedMultiply && rs / Scale(k) == TWO32 / Scale(k) - 1)
  {
    var s, x := Scale(k), Operand(signedMultiply, rs);
    var top := TWO32 / s;
    assert s * top == TWO32;
    if x != rs {
      var q, r := rs / s, rs % s;
      assert x == s * (q - top) + r;
      DivModUnique(x, s, q - top, r);
    }
  }

  // ---------------------------------------------------------------- the shift registers

  /** Weight of the next bit to be retired after `n` iterations: 2 * 256^n. */
  function Weight(n: nat): (w: nat)
    requires n <= 4
    ensures w == 2 * Scale(n)
  {
    2 * Scale(n)
  }

  /** Where the retired bits start in the high half of a shift register after `n` iterations. */
  function Anchor(n: nat): (h: nat)
    requires n <= 4
    ensures h > 0
  {
    match n
    case 0 => 0x8000_0000_0000_0000
    case 1 => 0x80_0000_0000_0000
    case 2 => 0x8000_0000_0000
    case 3 => 0x80_0000_0000
    case _ => 0x8000_0000
  }

  /** The retired bits of one of the two words, anchored at the top of its shift register. */
  function Shelf(bits: nat, n: nat): Pair128
    requires n <= 4
  {
    Pair128(0, bits * Anchor(n))
  }

  /** The retired bits with one more byte on top. */
  function Grown(bits: nat, byte: nat, n: nat): nat
    requires n <= 4
  {
    bits + byte * Weight(n)
  }

  lemma ShelfAbsorbs(bits: nat, byte: nat, n: nat)
    requires n < 4 && bits < Weight(n) && byte < 256
    ensures var shelf := Shelf(bits, n);
            RotateRight128(shelf.(lo := Or(shelf.lo, byte)), 8) == Shelf(Grown(bits, byte, n), n + 1)
    ensures Grown(bits, byte, n) < Weight(n + 1)
  {
    Powers();
    OrZero(byte);
    hide Power, Or;
    var hi, next := bits * Anchor(n), Anchor(n + 1);
    var two56 := 0x100_0000_0000_0000;
    assert Anchor(n) == 256 * next && Weight(n) * next == two56 && Weight(n + 1) == 256 * Weight(n);
    AnchorProduct(bits, byte, n);
    assert bits * next < two56;
    assert hi == 256 * (bits * next);
    DivModUnique(hi, 256, bits * next, 0);
    DivModUnique(byte, 256, 0, byte);
    assert hi * two56 == TWO64 * (bits * next);
    DivModUnique(hi * two56, TWO64, bits * next, 0);
    DivModUnique(byte * two56, TWO64, 0, byte * two56);
    OrDisjoint(bits * next, byte, 56);
    OrZero(0);
  }

  lemma AnchorProduct(bits: nat, byte: nat, n: nat)
    requires n < 4 && bits < Weight(n)
    ensures bits * Anchor(n) == 256 * (bits * Anchor(n + 1))
    ensures bits * Anchor(n + 1) < 0x100_0000_0000_0000
    ensures (bits + byte * Weight(n)) * Anchor(n + 1) == bits * Anchor(n + 1) + byte * 0x100_0000_0000_0000
  {
  }

  lemma SeedShelf(word: nat)
    ensures RotateRight128(Pair128(word % 2, 0), 1) == Shelf(word % 2, 0)
  {
    Powers();
    hide Power, Or;
    OrZero(0);
    OrZero(word % 2 * 0x8000_0000_0000_0000);
    DivModUnique(word % 2 * 0x8000_0000_0000_0000, TWO64, 0, word % 2 * 0x8000_0000_0000_0000);
  }

  // ---------------------------------------------------------------- the invariant of the loop

  /** The multiplier value with its lowest bit counted twice; it telescopes over iterations. */
  function Rounded(x: int): int {
    x + x % 2
  }

  /**
   After `n` iterations: the retired bits and the live words together are the accumulator plus
   the part of the product whose multiplier bits have been consumed.
   */
  ghost predicate Conserved(n: nat, m: int, x0: int, accumulator: u64, csa: CarrySaveWords, accShift: nat,
                            bitsOut: nat, bitsCarry: nat)
    requires n <= 4
  {
    && bitsOut < Weight(n) && bitsCarry < Weight(n)
    && bitsOut + bitsCarry + x0 % 2
       + Weight(n) * (csa.output % TWO33 + Signed33(csa.carry) + TWO33 * accShift)
       == accumulator + m * x0 - Scale(n) * (m * Rounded(x0 / Scale(n)))
  }

  /** Loading the accumulator and the first, low Booth digit. */
  lemma ConservedStart(m: int, x0: int, accumulator: u64, multiplicand: u64, csa: CarrySaveWords)
    requires -TWO31 <= m < TWO32 && multiplicand == m % TWO34
    requires csa == CarrySaveWords(accumulator, if x0 % 2 == 1 then Not64(multiplicand) else 0)
    ensures Conserved(0, m, x0, accumulator, CarrySaveWords(csa.output / 2, csa.carry / 2), accumulator / TWO34,
                      csa.output % 2, csa.carry % 2)
  {
    HighAccumulator(accumulator);
    if x0 % 2 == 1 {
      LowDigit(m, multiplicand);
    }
    assert m * Rounded(x0) == m * x0 + m * (x0 % 2);
    assert x0 / 1 == x0;
    hide Signed33;
    assert Weight(0) == 2 && Scale(0) == 1;
    if x0 % 2 == 0 {
      ZeroCarry();
      assert csa.carry / 2 == 0 && csa.carry % 2 == 0;
    }
  }

  lemma ZeroCarry()
    ensures Signed33(0) == 0
  {
  }

  lemma HighAccumulator(accumulator: u64)
    ensures accumulator == accumulator % 2 + 2 * (accumulator / 2 % TWO33 + TWO33 * (accumulator / TWO34))
  {
    var half := accumulator / 2;
    var q, r := half / TWO33, half % TWO33;
    assert accumulator == TWO34 * q + (2 * r + accumulator % 2);
    DivModUnique(accumulator, TWO34, q, 2 * r + accumulator % 2);
  }

  /** The complemented multiplicand stands for -m - 1. */
  lemma LowDigit(m: int, multiplicand: u64)
    requires -TWO31 <= m < TWO32 && multiplicand == m % TWO34
    ensures var inverted := Not64(multiplicand);
            inverted % 2 + 2 * Signed33(inverted / 2) == -m - 1
  {
    assert multiplicand == if m >= 0 then m else m + TWO34;
    var value := -m - 1;
    var inverted := Not64(multiplicand);
    var q, r := value / 2, value % 2;
    assert inverted == if m >= 0 then value + TWO64 else value + TWO64 - TWO34;
    DivModUnique(inverted, 2, if m >= 0 then q + TWO64 / 2 else q + TWO64 / 2 - TWO33, r);
    var word := inverted / 2;
    if q >= 0 {
      DivModUnique(word, TWO33, 0x3FFF_FFFF, q);
    } else {
      DivModUnique(word, TWO33, 0x3FFF_FFFF, q + TWO33);
    }
  }

  /** One iteration keeps the balance. */
  lemma ConservedStep(n: nat, m: int, x0: int, accumulator: u64, csa: CarrySaveWords, accShift: nat,
                      bitsOut: nat, bitsCarry: nat, multiplier: nat, after: CarrySaveWords, accAfter: nat)
    requires n < 4
    requires Conserved(n, m, x0, accumulator, csa, accShift, bitsOut, bitsCarry)
    requires Holds(multiplier, x0 / Scale(n))
    requires CycleKeeps(csa, m, multiplier, accShift, after, accAfter)
    ensures Conserved(n + 1, m, x0, accumulator, CarrySaveWords(Rest(after.output), Rest(after.carry)), accAfter,
                      Grown(bitsOut, LowByte(after.output), n), Grown(bitsCarry, LowByte(after.carry), n))
  {
    hide Signed33, Digits, LowByte, Rest;
    var x := x0 / Scale(n);
    SameLowBits(multiplier, x);
    DigitsTelescope(multiplier, x);
    ScaleStep(x0, n);
    ShelfAbsorbs(bitsOut, LowByte(after.output), n);
    ShelfAbsorbs(bitsCarry, LowByte(after.carry), n);
    SmallMod(Rest(after.output), TWO33);
    hide Shelf, RotateRight128, Scale, Or, Holds;
    StepBalance(Scale(n), m, m * x0 + accumulator, Digits(multiplier), Rounded(x), Rounded(x / 256),
                csa.output % TWO33 + Signed33(csa.carry), Rest(after.output) + Signed33(Rest(after.carry)),
                accShift, Rest(accShift), LowByte(accShift), bitsOut + bitsCarry + x0 % 2, LowByte(after.output), LowByte(after.carry));
  }

  lemma SameLowBits(word: nat, x: int)
    requires word % TWO33 == x % TWO33
    ensures x % 512 == word % 512
  {
    var low := word % TWO33;
    var q, r := low / 512, low % 512;
    var a, b := word / TWO33, x / TWO33;
    DivModUnique(word, 512, 0x100_0000 * a + q, r);
    DivModUnique(x, 512, 0x100_0000 * b + q, r);
  }

  /** The balance of one iteration on plain numbers. */
  lemma StepBalance(scale: int, m: int, target: int, digits: int, rounded: int, roundedNext: int,
                    value: int, valueNext: int, acc: int, accHigh: int, accLow: int, retired: int, byteOut: int,
                    byteCarry: int)
    requires retired + 2 * scale * (value + TWO33 * acc) == target - scale * (m * rounded)
    requires value + m * digits + TWO33 * accLow == byteOut + byteCarry + 256 * valueNext
    requires acc == 256 * accHigh + accLow
    requires 2 * digits == rounded - 256 * roundedNext
    ensures retired + byteOut * (2 * scale) + byteCarry * (2 * scale)
            + 2 * (256 * scale) * (valueNext + TWO33 * accHigh)
         == target - 256 * scale * (m * roundedNext)
  {
    var product := m * digits;
    assert 2 * product == m * rounded - 256 * (m * roundedNext) by {
      assert m * (2 * digits) == m * (rounded - 256 * roundedNext);
    }
    var a, b := accHigh, accLow;
    assert scale * (value + product + TWO33 * b) == scale * (byteOut + byteCarry + 256 * valueNext);
    assert scale * (2 * product) == scale * (m * rounded) - 256 * (scale * (m * roundedNext));
    assert scale * (value + TWO33 * acc) == scale * (value + TWO33 * b) + 256 * (scale * (TWO33 * a));
  }

  // ---------------------------------------------------------------- final assembly

  /** The rotation that brings the retired bits to bit 32 (or to bit 0 after four iterations). */
  function CorrectionRor(n: nat): nat
    requires 1 <= n <= 4
  {
    if n == 1 then 23 else if n == 2 then 15 else if n == 3 then 7 else 31
  }

  /** A live word split at the final rotation. */
  function HighPart(word: nat, n: nat): nat
    requires 1 <= n <= 4
  {
    Shr(word, CorrectionRor(n))
  }

  function LowPart(word: nat, n: nat): nat
    requires 1 <= n <= 4
  {
    word % Power(CorrectionRor(n))
  }

  lemma PartsOf(word: nat, n: nat)
    requires 1 <= n <= 4
    ensures word == Power(CorrectionRor(n)) * HighPart(word, n) + LowPart(word, n)
    ensures LowPart(word, n) < Power(CorrectionRor(n))
  {
  }

  /** The shift registers as they enter the last additions. */
  function Corrected(bits: nat, word: nat, n: nat): Pair128
    requires 1 <= n <= 4
  {
    RotateRight128(Shelf(bits, n).(lo := Or(Shelf(bits, n).lo, word)), CorrectionRor(n))
  }

  /** The upper 32 bits of a register's high half. */
  function Top32(v: Pair128): nat {
    v.hi / TWO32
  }

  /** A live word `word` split at the rotation: the part that joins the retired bits, and the rest. */
  lemma AssembleShort(bits: nat, word: nat, n: nat)
    requires 1 <= n <= 3 && bits < Weight(n) && word < TWO33
    ensures var rotated := Corrected(bits, word, n);
            && Top32(rotated) == bits + LowPart(word, n) * Weight(n) < TWO32
            && rotated.lo == HighPart(word, n)
  {
    CutFacts(n);
    OrZero(word);
    ShelfTurns(bits, n);
    WordTurns(word, n);
    PartsOf(word, n);
    var r := CorrectionRor(n);
    var t, q, w := LowPart(word, n), HighPart(word, n), Weight(n);
    ShortProducts(bits, t, n, Power(r));
    hide Power, Or, LowPart, HighPart, Weight, Anchor;
    OrDisjoint(bits * TWO32, t, 64 - r);
    OrZero(q);
    DivModUnique(bits * TWO32 + t * (TWO32 * w), TWO32, bits + t * w, 0);
  }

  lemma CutFacts(n: nat)
    requires 1 <= n <= 3
    ensures Power(CorrectionRor(n)) * Weight(n) == TWO32
    ensures Anchor(n) == TWO32 * Power(CorrectionRor(n))
    ensures Power(64 - CorrectionRor(n)) == TWO32 * Weight(n)
  {
    Powers();
    MorePowers();
  }

  lemma ShelfTurns(bits: nat, n: nat)
    requires 1 <= n <= 3 && bits < Weight(n)
    ensures bits * Anchor(n) / Power(CorrectionRor(n)) == bits * TWO32
    ensures bits * Anchor(n) * Power(64 - CorrectionRor(n)) % TWO64 == 0
  {
    CutFacts(n);
    var cut, w := Power(CorrectionRor(n)), Weight(n);
    hide Power, Weight;
    ShortProducts(bits, 0, n, cut);
    ShelfWraps(bits, n, cut, w);
    hide Anchor;
    DivModUnique(bits * Anchor(n), cut, bits * TWO32, 0);
    DivModUnique(bits * Anchor(n) * (TWO32 * w), TWO64, bits * TWO32, 0);
  }

  lemma WordTurns(word: nat, n: nat)
    requires 1 <= n <= 3
    ensures word * Power(64 - CorrectionRor(n)) % TWO64 == LowPart(word, n) * Power(64 - CorrectionRor(n))
  {
    CutFacts(n);
    PartsOf(word, n);
    var cut, w, q, t := Power(CorrectionRor(n)), Weight(n), HighPart(word, n), LowPart(word, n);
    hide Power, Weight, HighPart, LowPart;
    ShortWrap(word, q, t, cut, w);
    DivModUnique(word * (TWO32 * w), TWO64, q, t * (TWO32 * w));
  }

  lemma MorePowers()
    ensures Power(7) == 128 && Power(15) == 0x8000 && Power(23) == 0x80_0000
    ensures Power(64 - 23) == 0x200_0000_0000 && Power(64 - 15) == 0x2_0000_0000_0000
    ensures Power(64 - 7) == 0x200_0000_0000_0000
  {
    Powers();
    PowerStep(0);
    PowerStep(8);
    PowerStep(16);
  }

  lemma ShortProducts(bits: nat, part: nat, n: nat, cut: nat)
    requires 1 <= n <= 3 && bits < Weight(n) && part < cut && cut * Weight(n) == TWO32 && Anchor(n) == TWO32 * cut
    ensures bits * Anchor(n) == cut * (bits * TWO32)
    ensures bits * TWO32 < TWO32 * Weight(n)
    ensures bits + part * Weight(n) < TWO32
    ensures bits * TWO32 + part * (TWO32 * Weight(n)) == TWO32 * (bits + part * Weight(n))
  {
    var w := Weight(n);
    assert part * w <= (cut - 1) * w by { MulMono(part, cut - 1, w); }
    assert (cut - 1) * w == cut * w - w;
    assert bits * TWO32 < w * TWO32;
  }

  lemma MulMono(a: int, b: int, k: int)
    requires a <= b && k >= 0
    ensures a * k <= b * k
  {
  }

  lemma ShortWrap(word: nat, q: nat, t: nat, cut: nat, w: nat)
    requires word == cut * q + t && t < cut && cut * w == TWO32
    ensures word * (TWO32 * w) == q * TWO64 + t * (TWO32 * w)
    ensures 0 <= t * (TWO32 * w) < TWO64
  {
    assert word * (TWO32 * w) == TWO32 * (q * (cut * w)) + t * (TWO32 * w);
    assert t * w <= (cut - 1) * w by { MulMono(t, cut - 1, w); }
    assert (cut - 1) * w == TWO32 - w;
    assert w >= 1;
  }

  lemma ShelfWraps(bits: nat, n: nat, cut: nat, w: nat)
    requires 1 <= n <= 3 && cut * w == TWO32 && Anchor(n) == TWO32 * cut
    ensures bits * Anchor(n) * (TWO32 * w) == bits * TWO32 * TWO64
  {
    assert bits * Anchor(n) * (TWO32 * w) == bits * (TWO32 * (TWO32 * (cut * w)));
  }

  lemma AssembleFull(bits: nat, word: nat)
    requires bits < Weight(4) && word < TWO33
    ensures Corrected(bits, word, 4).hi == bits + LowPart(word, 4) * TWO33 < TWO64
  {
    Powers();
    OrZero(word);
    assert Power(64 - 31) == TWO33;
    PartsOf(word, 4);
    var q, t := HighPart(word, 4), LowPart(word, 4);
    hide Power, Or, HighPart, LowPart;
    DivModUnique(bits * TWO31, TWO31, bits, 0);
    DivModUnique(word * TWO33, TWO64, q, t * TWO33);
    OrDisjoint(bits, t, 33);
  }

  /** Two 32-bit additions with a carry between them make one 64-bit addition. */
  lemma Chained(lowLeft: nat, lowRight: nat, highLeft: nat, highRight: nat, carryIn: bool)
    requires lowLeft < TWO32 && lowRight < TWO32
    ensures var lo := Add32(lowLeft, lowRight, carryIn);
            var hi := Add32(highLeft, highRight, lo.carry);
            Or(hi.output * TWO32, lo.output)
              == (lowLeft + lowRight + (if carryIn then 1 else 0) + TWO32 * (highLeft + highRight)) % TWO64
  {
    Powers();
    hide Power, Or;
    var cin := if carryIn then 1 else 0;
    var sum := lowLeft + lowRight + cin;
    DivModUnique(lowLeft, TWO32, 0, lowLeft);
    DivModUnique(lowRight, TWO32, 0, lowRight);
    var lo := Add32(lowLeft, lowRight, carryIn);
    var carry := if lo.carry then 1 else 0;
    DivModUnique(sum, TWO32, carry, sum - TWO32 * carry);
    var hi := Add32(highLeft, highRight, lo.carry);
    OrDisjoint(lo.output, hi.output, 32);
    var a, b := highLeft / TWO32, highRight / TWO32;
    var high := highLeft % TWO32 + highRight % TWO32 + carry;
    var c := high / TWO32;
    assert sum + TWO32 * (highLeft + highRight) == TWO64 * (a + b + c) + (lo.output + hi.output * TWO32);
    DivModUnique(sum + TWO32 * (highLeft + highRight), TWO64, a + b + c, lo.output + hi.output * TWO32);
  }

  datatype MultiplyOutput = MultiplyOutput(output: nat, carry: bool)

  /** The accumulator bits the array has not consumed, shifted above the live word. */
  function AccumulatorBits(accShift: nat, n: nat): nat
    requires n <= 4
  {
    accShift * Power(2 + 8 * n) % TWO64
  }

  /** The last additions, from the two shift registers after their final rotation. */
  function Finish(n: nat, sum: Pair128, carry: Pair128, accShift: nat, carryIn: bool): MultiplyOutput
    requires 1 <= n <= 4 && carry.lo < TWO64
  {
    if n == 4 then
      var lo := Add32(sum.hi, carry.hi, carryIn);
      var hi := Add32(sum.hi / TWO32, carry.hi / TWO32, lo.carry);
      MultiplyOutput(Or(hi.output * TWO32, lo.output), carry.hi / 0x8000_0000_0000_0000 % 2 == 1)
    else
      var lo := Add32(Top32(sum), Top32(carry), carryIn);
      var shift := 2 + 8 * n;
      var carryLo := SignExtend64(carry.lo, shift, 64);
      var sumLo := Or(sum.lo, AccumulatorBits(accShift, n));
      var hi := Add32(sumLo, carryLo, lo.carry);
      MultiplyOutput(Or(hi.output * TWO32, lo.output), carry.hi / 0x8000_0000_0000_0000 % 2 == 1)
  }

  /** The value the final registers stand for. */
  function Settled(n: nat, csa: CarrySaveWords, accShift: nat, bitsOut: nat, bitsCarry: nat, carryIn: bool): int
    requires n <= 4
  {
    bitsOut + bitsCarry + (if carryIn then 1 else 0)
    + Weight(n) * (csa.output % TWO33 + Signed33(csa.carry) + TWO33 * accShift)
  }

  lemma FinishFull(csa: CarrySaveWords, accShift: nat, bitsOut: nat, bitsCarry: nat, carryIn: bool)
    requires csa.output < TWO33 && csa.carry < TWO33 && bitsOut < Weight(4) && bitsCarry < Weight(4)
    ensures var sum, carry := Corrected(bitsOut, csa.output, 4), Corrected(bitsCarry, csa.carry, 4);
            carry.lo < TWO64 ==>
            Finish(4, sum, carry, accShift, carryIn).output
              == Settled(4, csa, accShift, bitsOut, bitsCarry, carryIn) % TWO64
  {
    hide *;
    AssembleFull(bitsOut, csa.output);
    AssembleFull(bitsCarry, csa.carry);
    var sum, carry := Corrected(bitsOut, csa.output, 4), Corrected(bitsCarry, csa.carry, 4);
    var over := SettledFull(csa, accShift, bitsOut, bitsCarry, carryIn);
    AddWhole(sum.hi, carry.hi, carryIn);
    SameResidue(sum.hi + carry.hi + (if carryIn then 1 else 0), over);
    FinishFour(sum, carry, accShift, carryIn);
  }

  lemma FinishFour(sum: Pair128, carry: Pair128, accShift: nat, carryIn: bool)
    ensures carry.lo < TWO64 ==>
              var lo := Add32(sum.hi, carry.hi, carryIn);
              var hi := Add32(sum.hi / TWO32, carry.hi / TWO32, lo.carry);
              Finish(4, sum, carry, accShift, carryIn).output == Or(hi.output * TWO32, lo.output)
  {
    hide Add32, Or;
  }

  lemma AddWhole(a: nat, b: nat, carryIn: bool)
    ensures var lo := Add32(a, b, carryIn);
            var hi := Add32(a / TWO32, b / TWO32, lo.carry);
            Or(hi.output * TWO32, lo.output) == (a + b + if carryIn then 1 else 0) % TWO64
  {
    hide Or;
    Add32Low(a, b, carryIn);
    Chained(a % TWO32, b % TWO32, a / TWO32, b / TWO32, carryIn);
    Whole(a);
    Whole(b);
    hide Add32;
  }

  lemma Whole(a: nat)
    ensures a == a % TWO32 + TWO32 * (a / TWO32)
  {
  }

  lemma SettledFull(csa: CarrySaveWords, accShift: nat, bitsOut: nat, bitsCarry: nat, carryIn: bool) returns (over: int)
    requires csa.output < TWO33 && csa.carry < TWO33
    ensures Settled(4, csa, accShift, bitsOut, bitsCarry, carryIn)
         == TWO64 * over
            + ((bitsOut + LowPart(csa.output, 4) * TWO33) + (bitsCarry + LowPart(csa.carry, 4) * TWO33)
               + (if carryIn then 1 else 0))
  {
    Powers();
    SmallMod(csa.output, TWO33);
    SmallMod(csa.carry, TWO33);
    PartsOf(csa.output, 4);
    PartsOf(csa.carry, 4);
    hide HighPart, LowPart, Power;
    var top := if csa.carry >= TWO32 then 1 else 0;
    var oHigh, cHigh := HighPart(csa.output, 4), HighPart(csa.carry, 4);
    over := oHigh + cHigh - 4 * top + 4 * accShift;
    FullBalance(csa.output, oHigh, LowPart(csa.output, 4), csa.carry, cHigh, LowPart(csa.carry, 4), top, accShift);
  }

  lemma FullBalance(o: int, oHigh: int, oLow: int, c: int, cHigh: int, cLow: int, top: int, acc: int)
    requires o == TWO31 * oHigh + oLow && c == TWO31 * cHigh + cLow
    ensures TWO33 * (o + c - TWO33 * top + TWO33 * acc)
         == TWO64 * (oHigh + cHigh - 4 * top + 4 * acc) + oLow * TWO33 + cLow * TWO33
  {
  }

  lemma Add32Low(a: nat, b: nat, carryIn: bool)
    ensures Add32(a, b, carryIn) == Add32(a % TWO32, b % TWO32, carryIn)
  {
    SmallMod(a % TWO32, TWO32);
    SmallMod(b % TWO32, TWO32);
  }

  lemma SameResidue(value: int, over: int)
    ensures (TWO64 * over + value) % TWO64 == value % TWO64
  {
    var q, r := value / TWO64, value % TWO64;
    DivModUnique(TWO64 * over + value, TWO64, over + q, r);
  }

  lemma FinishShort(n: nat, csa: CarrySaveWords, accShift: nat, bitsOut: nat, bitsCarry: nat, carryIn: bool)
    requires 1 <= n <= 3
    requires csa.output < TWO33 && csa.carry < TWO33 && bitsOut < Weight(n) && bitsCarry < Weight(n)
    requires accShift * Scale(n) < 0x4000_0000
    ensures var sum, carry := Corrected(bitsOut, csa.output, n), Corrected(bitsCarry, csa.carry, n);
            carry.lo < TWO64
            && Finish(n, sum, carry, accShift, carryIn).output
               == Settled(n, csa, accShift, bitsOut, bitsCarry, carryIn) % TWO64
  {
    var o, c := csa.output, csa.carry;
    AssembleShort(bitsOut, o, n);
    AssembleShort(bitsCarry, c, n);
    var sum, carry := Corrected(bitsOut, o, n), Corrected(bitsCarry, c, n);
    var signed, carryPart := SignedPart(c, n);
    var accPart := AccumulatorPart(o, accShift, n);
    PartsOf(o, n);
    PartsOf(c, n);
    hide Corrected, Or, Shelf, Power, Weight, Scale, Signed33, SignExtend64, HighPart, LowPart, Top32, AccumulatorBits;
    var left, right := Top32(sum), Top32(carry);
    Chained(left, right, accPart, carryPart, carryIn);
    SettledShort(n, csa, accShift, bitsOut, bitsCarry, carryIn, signed);
    var wrap := if signed < 0 then 1 else 0;
    var total := left + right + (if carryIn then 1 else 0) + TWO32 * (accPart + carryPart);
    hide Finish, Settled;
    assert Settled(n, csa, accShift, bitsOut, bitsCarry, carryIn) == total - TWO64 * (TWO32 * wrap);
    SameResidue(total, -(TWO32 * wrap));
    FinishIs(n, sum, carry, accShift, carryIn, accPart, carryPart);
  }

  lemma FinishIs(n: nat, sum: Pair128, carry: Pair128, accShift: nat, carryIn: bool, accPart: nat, carryPart: nat)
    requires 1 <= n <= 3 && carry.lo < TWO64
    requires accPart == Or(sum.lo, AccumulatorBits(accShift, n))
    requires carryPart == SignExtend64(carry.lo, 2 + 8 * n, 64)
    ensures var lo := Add32(Top32(sum), Top32(carry), carryIn);
            var hi := Add32(accPart, carryPart, lo.carry);
            Finish(n, sum, carry, accShift, carryIn).output == Or(hi.output * TWO32, lo.output)
  {
    hide Or, SignExtend64, Power, Add32, Top32;
  }

  lemma SettledShort(n: nat, csa: CarrySaveWords, accShift: nat, bitsOut: nat, bitsCarry: nat, carryIn: bool, signed: int)
    requires 1 <= n <= 3 && csa.output < TWO33 && csa.carry < TWO33
    requires Signed33(csa.carry) == Power(CorrectionRor(n)) * signed + LowPart(csa.carry, n)
    ensures Settled(n, csa, accShift, bitsOut, bitsCarry, carryIn)
         == (bitsOut + LowPart(csa.output, n) * Weight(n)) + (bitsCarry + LowPart(csa.carry, n) * Weight(n))
            + (if carryIn then 1 else 0)
            + TWO32 * ((HighPart(csa.output, n) + 2 * Weight(n) * accShift) + signed)
  {
    hide Power, Weight, Signed33, HighPart, LowPart, CorrectionRor;
    CutFacts(n);
    PartsOf(csa.output, n);
    SmallMod(csa.output, TWO33);
    ShortBalance(Weight(n), Power(CorrectionRor(n)), csa.output, Signed33(csa.carry), accShift, bitsOut, bitsCarry,
                 if carryIn then 1 else 0, LowPart(csa.output, n), HighPart(csa.output, n), LowPart(csa.carry, n), signed);
  }

  lemma ShiftAmount(n: nat)
    requires 1 <= n <= 3
    ensures Power(2 + 8 * n) == 2 * Weight(n) && Power(2 + 8 * n - 1) == Weight(n)
    ensures Power(CorrectionRor(n)) * Power(2 + 8 * n) == TWO33
  {
    Powers();
    MorePowers();
    assert Power(10) == 2 * Power(9) && Power(18) == 2 * Power(17) && Power(26) == 2 * Power(25);
  }

  /** The live carry word above the cut, sign extended, is the floor of its signed value. */
  lemma SignedPart(c: nat, n: nat) returns (signed: int, part: nat)
    requires 1 <= n <= 3 && c < TWO33
    ensures HighPart(c, n) < TWO64
    ensures part == SignExtend64(HighPart(c, n), 2 + 8 * n, 64)
    ensures part == if signed < 0 then signed + TWO64 else signed
    ensures Signed33(c) == Power(CorrectionRor(n)) * signed + LowPart(c, n)
  {
    var cut, span := Power(CorrectionRor(n)), Power(2 + 8 * n);
    ShiftAmount(n);
    Powers();
    PartsOf(c, n);
    var q, r := HighPart(c, n), LowPart(c, n);
    assert q < span by { QuotientBelow(c, cut, q, r, span); }
    SignExtendNarrow(q, 2 + 8 * n, 64);
    SmallMod(c, TWO33);
    var half := Power(2 + 8 * n - 1);
    assert span == 2 * half && cut * half == TWO32;
    hide Power, SignExtend64, HighPart, LowPart;
    HalfTest(c, cut, q, r, half);
    signed := if q < half then q else q - span;
    part := SignExtend64(q, 2 + 8 * n, 64);
    assert cut * (q - span) == cut * q - TWO33;
  }

  lemma QuotientBelow(c: nat, cut: nat, q: nat, r: nat, span: nat)
    requires c == cut * q + r && c < cut * span
    ensures q < span
  {
    if q >= span {
      MulMono(span, q, cut);
    }
  }

  lemma HalfTest(c: nat, cut: nat, q: nat, r: nat, half: nat)
    requires c == cut * q + r && 0 <= r < cut
    ensures q < half <==> c < cut * half
  {
    if q < half {
      MulMono(q + 1, half, cut);
      assert (q + 1) * cut == q * cut + cut;
    } else {
      MulMono(half, q, cut);
    }
  }

  /** The live output word above the cut, with the unused accumulator bits placed above it. */
  lemma AccumulatorPart(o: nat, accShift: nat, n: nat) returns (part: nat)
    requires 1 <= n <= 3 && o < TWO33 && accShift * Scale(n) < 0x4000_0000
    ensures part == Or(HighPart(o, n), AccumulatorBits(accShift, n))
    ensures part == HighPart(o, n) + 2 * Weight(n) * accShift
  {
    var cut, span := Power(CorrectionRor(n)), Power(2 + 8 * n);
    ShiftAmount(n);
    PartsOf(o, n);
    var q, r := HighPart(o, n), LowPart(o, n);
    QuotientBelow(o, cut, q, r, span);
    assert accShift * span == 4 * (accShift * Scale(n));
    SmallMod(accShift * span, TWO64);
    OrDisjoint(q, accShift, 2 + 8 * n);
    part := Or(q, AccumulatorBits(accShift, n));
  }

  /** The final balance on plain numbers. */
  lemma ShortBalance(weight: int, cut: int, o: int, signedCarry: int, acc: int, bitsOut: int, bitsCarry: int,
                     carryIn: int, oLow: int, oHigh: int, cLow: int, cHigh: int)
    requires cut * weight == TWO32
    requires o == cut * oHigh + oLow && signedCarry == cut * cHigh + cLow
    ensures bitsOut + bitsCarry + carryIn + weight * (o + signedCarry + TWO33 * acc)
         == (bitsOut + oLow * weight) + (bitsCarry + cLow * weight) + carryIn
            + TWO32 * ((oHigh + 2 * weight * acc) + cHigh)
  {
    assert weight * o == TWO32 * oHigh + oLow * weight by {
      assert weight * (cut * oHigh) == (cut * weight) * oHigh;
    }
    assert weight * signedCarry == TWO32 * cHigh + cLow * weight by {
      assert weight * (cut * cHigh) == (cut * weight) * cHigh;
    }
  }

  // ---------------------------------------------------------------- the multiplier itself

  /** The loop state: where the multiplier and accumulator registers stand after `n` iterations. */
  ghost predicate Registers(n: nat, signedMultiply: bool, rs: u32, accumulator: u64, multiplier: nat, accShift: nat,
                            csa: CarrySaveWords, bitsOut: nat, bitsCarry: nat, sum: Pair128, carry: Pair128)
    requires n <= 4
  {
    && Holds(multiplier, Operand(signedMultiply, rs) / Scale(n))
    && accShift == accumulator / TWO34 / Scale(n)
    && sum == Shelf(bitsOut, n) && carry == Shelf(bitsCarry, n)
    && (n > 0 ==> csa.output < TWO33 && csa.carry < TWO33 && multiplier < TWO33)
  }

  /** No iteration before the `n`th could have stopped. */
  ghost predicate NotBefore(signedMultiply: bool, rs: u32, n: nat)
    requires n <= 5
  {
    forall k: nat :: 1 <= k < n ==> !Exhausted(signedMultiply, Operand(signedMultiply, rs) / Scale(k))
  }

  lemma LastScale(signedMultiply: bool, rs: u32)
    ensures Exhausted(signedMultiply, Operand(signedMultiply, rs) / Scale(4))
  {
    var x := Operand(signedMultiply, rs);
    if x >= 0 {
      DivModUnique(x, TWO32, 0, x);
    } else {
      DivModUnique(x, TWO32, -1, x + TWO32);
    }
  }

  /**
   arm7tdmi_multiply_long_output: iterates the array until the multiplier is exhausted. The
   64-bit output is rm * rs + accumulator modulo 2^64, and the number of iterations is the one
   the timing helpers predict.
   */
  method MultiplyLongOutput(signedMultiply: bool, rm: u32, rs: u32, accumulator: u64)
    returns (result: MultiplyOutput, iterations: nat)
    ensures result.output
         == (Operand(signedMultiply, rm) * Operand(signedMultiply, rs) + accumulator) % TWO64
    ensures iterations
         == if signedMultiply then SignedMultiplyIterations(rs) else UnsignedMultiplyIterations(rs)
  {
    hide Operand, Holds, CycleKeeps, Conserved, Shelf, Or, RotateRight128, ArithmeticShiftRight, Finish, Exhausted,
         Widened, SignExtend64, Power, Scale, Not64, Registers, NotBefore;
    ghost var m, x0 := Operand(signedMultiply, rm), Operand(signedMultiply, rs);
    var multiplier: nat := Widened(signedMultiply, rs);
    var multiplicand: nat := Widened(signedMultiply, rm);
    WidenedHolds(signedMultiply, rs);
    WidenedHolds(signedMultiply, rm);
    WidenedRange(signedMultiply, rs);
    WidenedRange(signedMultiply, rm);
    var aluCarryIn := multiplier % 2 != 0;
    var csa := CarrySaveWords(accumulator, if multiplier % 2 != 0 then Not64(multiplicand) else 0);
    var accShift: nat := accumulator / TWO34;
    ConservedStart(m, x0, accumulator, multiplicand, csa);
    SeedShelf(csa.output);
    SeedShelf(csa.carry);
    var sum := RotateRight128(Pair128(csa.output % 2, 0), 1);
    var carry := RotateRight128(Pair128(csa.carry % 2, 0), 1);
    ghost var bitsOut: nat, bitsCarry: nat := csa.output % 2, csa.carry % 2;
    csa := CarrySaveWords(csa.output / 2, csa.carry / 2);
    iterations := 0;
    RegistersStart(signedMultiply, rs, accumulator, multiplier, accShift, csa, bitsOut, bitsCarry, sum, carry);
    var done := false;
    while !done
      invariant iterations <= 4 && (iterations == 0 ==> !done)
      invariant Registers(iterations, signedMultiply, rs, accumulator, multiplier, accShift, csa, bitsOut, bitsCarry,
                          sum, carry)
      invariant Conserved(iterations, m, x0, accumulator, csa, accShift, bitsOut, bitsCarry)
      invariant NotBefore(signedMultiply, rs, iterations)
      invariant done ==> Exhausted(signedMultiply, x0 / Scale(iterations))
      invariant !done ==> NotBefore(signedMultiply, rs, iterations + 1)
      invariant iterations == 4 ==> done
      decreases 4 - iterations, !done
    {
      var before, accBefore := csa, accShift;
      csa, accShift := MultiplyCsaCycle(csa, multiplicand, multiplier, accShift, m);
      RegistersStep(iterations, signedMultiply, rs, m, accumulator, multiplier, accBefore, before, bitsOut, bitsCarry,
                    sum, carry, csa, accShift);
      sum := sum.(lo := Or(sum.lo, LowByte(csa.output)));
      carry := carry.(lo := Or(carry.lo, LowByte(csa.carry)));
      bitsOut, bitsCarry := Grown(bitsOut, LowByte(csa.output), iterations), Grown(bitsCarry, LowByte(csa.carry), iterations);
      csa := CarrySaveWords(Rest(csa.output), Rest(csa.carry));
      sum := RotateRight128(sum, 8);
      carry := RotateRight128(carry, 8);
      multiplier := ArithmeticShiftRight(multiplier, 8, 33);
      iterations := iterations + 1;
      done := ShouldTerminate(multiplier, signedMultiply);
      DoneExactly(iterations, signedMultiply, rs, accumulator, multiplier, accShift, csa, bitsOut, bitsCarry, sum, carry);
    }
    FinalRegisters(iterations, signedMultiply, rs, accumulator, multiplier, accShift, csa, bitsOut, bitsCarry, sum, carry);
    FinalBalance(iterations, signedMultiply, rm, rs, accumulator, csa, accShift, bitsOut, bitsCarry, aluCarryIn);
    sum := sum.(lo := Or(sum.lo, csa.output));
    carry := carry.(lo := Or(carry.lo, csa.carry));
    sum := RotateRight128(sum, CorrectionRor(iterations));
    carry := RotateRight128(carry, CorrectionRor(iterations));
    result := Finish(iterations, sum, carry, accShift, aluCarryIn);
    IterationsAre(signedMultiply, rs, iterations);
  }

  lemma WidenedRange(signedMultiply: bool, word: u32)
    ensures Widened(signedMultiply, word) < TWO34
  {
    WidenedHolds(signedMultiply, word);
  }

  lemma RegistersStart(signedMultiply: bool, rs: u32, accumulator: u64, multiplier: nat, accShift: nat,
                       csa: CarrySaveWords, bitsOut: nat, bitsCarry: nat, sum: Pair128, carry: Pair128)
    requires Holds(multiplier, Operand(signedMultiply, rs)) && accShift == accumulator / TWO34
    requires sum == Shelf(bitsOut, 0) && carry == Shelf(bitsCarry, 0)
    ensures Registers(0, signedMultiply, rs, accumulator, multiplier, accShift, csa, bitsOut, bitsCarry, sum, carry)
    ensures NotBefore(signedMultiply, rs, 0) && NotBefore(signedMultiply, rs, 1)
  {
    hide Holds, Operand, Shelf;
  }

  lemma RegistersStep(n: nat, signedMultiply: bool, rs: u32, m: int, accumulator: u64, multiplier: nat, accShift: nat,
                      csa: CarrySaveWords, bitsOut: nat, bitsCarry: nat, sum: Pair128, carry: Pair128,
                      after: CarrySaveWords, accAfter: nat)
    requires n < 4
    requires Registers(n, signedMultiply, rs, accumulator, multiplier, accShift, csa, bitsOut, bitsCarry, sum, carry)
    requires Conserved(n, m, Operand(signedMultiply, rs), accumulator, csa, accShift, bitsOut, bitsCarry)
    requires CycleKeeps(csa, m, multiplier, accShift, after, accAfter)
    ensures multiplier < TWO64
    ensures Conserved(n + 1, m, Operand(signedMultiply, rs), accumulator,
                      CarrySaveWords(Rest(after.output), Rest(after.carry)), accAfter,
                      Grown(bitsOut, LowByte(after.output), n), Grown(bitsCarry, LowByte(after.carry), n))
    ensures Registers(n + 1, signedMultiply, rs, accumulator, ArithmeticShiftRight(multiplier, 8, 33), accAfter,
                      CarrySaveWords(Rest(after.output), Rest(after.carry)),
                      Grown(bitsOut, LowByte(after.output), n), Grown(bitsCarry, LowByte(after.carry), n),
                      RotateRight128(sum.(lo := Or(sum.lo, LowByte(after.output))), 8),
                      RotateRight128(carry.(lo := Or(carry.lo, LowByte(after.carry))), 8))
  {
    hide Operand, Shelf, Or, RotateRight128, ArithmeticShiftRight, Grown, Signed33, Digits, Scale;
    var x := Operand(signedMultiply, rs) / Scale(n);
    WordFits(multiplier, x);
    ConservedStep(n, m, Operand(signedMultiply, rs), accumulator, csa, accShift, bitsOut, bitsCarry, multiplier,
                  after, accAfter);
    ConservedBits(n, m, Operand(signedMultiply, rs), accumulator, csa, accShift, bitsOut, bitsCarry);
    ShiftHolds(multiplier, x);
    ScaleStep(Operand(signedMultiply, rs), n);
    ScaleStep(accumulator / TWO34, n);
    hide Holds, Conserved;
    ShelfAbsorbs(bitsOut, LowByte(after.output), n);
    ShelfAbsorbs(bitsCarry, LowByte(after.carry), n);
  }

  lemma WordFits(word: nat, x: int)
    requires Holds(word, x)
    ensures word < TWO64
  {
  }

  lemma ConservedBits(n: nat, m: int, x0: int, accumulator: u64, csa: CarrySaveWords, accShift: nat,
                      bitsOut: nat, bitsCarry: nat)
    requires n <= 4 && Conserved(n, m, x0, accumulator, csa, accShift, bitsOut, bitsCarry)
    ensures bitsOut < Weight(n) && bitsCarry < Weight(n)
  {
    hide Signed33, Rounded, Scale;
  }

  lemma DoneExactly(n: nat, signedMultiply: bool, rs: u32, accumulator: u64, multiplier: nat, accShift: nat,
                    csa: CarrySaveWords, bitsOut: nat, bitsCarry: nat, sum: Pair128, carry: Pair128)
    requires 1 <= n <= 4
    requires Registers(n, signedMultiply, rs, accumulator, multiplier, accShift, csa, bitsOut, bitsCarry, sum, carry)
    ensures ShouldTerminate(multiplier, signedMultiply)
       <==> Exhausted(signedMultiply, Operand(signedMultiply, rs) / Scale(n))
    ensures n == 4 ==> ShouldTerminate(multiplier, signedMultiply)
    ensures NotBefore(signedMultiply, rs, n) && !ShouldTerminate(multiplier, signedMultiply)
            ==> NotBefore(signedMultiply, rs, n + 1)
  {
    if !signedMultiply {
      NonNegative(rs, n);
    }
    TerminatesWhenExhausted(multiplier, Operand(signedMultiply, rs) / Scale(n), signedMultiply);
    LastScale(signedMultiply, rs);
    hide Operand, Exhausted, Scale, ShouldTerminate, Shelf, Holds;
  }

  lemma NonNegative(rs: u32, n: nat)
    requires n <= 4
    ensures Operand(false, rs) / Scale(n) >= 0
  {
  }

  lemma IterationsAre(signedMultiply: bool, rs: u32, n: nat)
    requires 1 <= n <= 4 && NotBefore(signedMultiply, rs, n)
    requires Exhausted(signedMultiply, Operand(signedMultiply, rs) / Scale(n))
    ensures n == if signedMultiply then SignedMultiplyIterations(rs) else UnsignedMultiplyIterations(rs)
  {
    hide Operand, Exhausted, Scale, SignedMultiplyIterations, UnsignedMultiplyIterations;
    IterationsExact(signedMultiply, rs, n);
  }

  lemma FinalRegisters(n: nat, signedMultiply: bool, rs: u32, accumulator: u64, multiplier: nat, accShift: nat,
                       csa: CarrySaveWords, bitsOut: nat, bitsCarry: nat, sum: Pair128, carry: Pair128)
    requires 1 <= n <= 4
    requires Registers(n, signedMultiply, rs, accumulator, multiplier, accShift, csa, bitsOut, bitsCarry, sum, carry)
    ensures RotateRight128(sum.(lo := Or(sum.lo, csa.output)), CorrectionRor(n)) == Corrected(bitsOut, csa.output, n)
    ensures RotateRight128(carry.(lo := Or(carry.lo, csa.carry)), CorrectionRor(n)) == Corrected(bitsCarry, csa.carry, n)
    ensures csa.output < TWO33 && csa.carry < TWO33
    ensures accShift * Scale(n) < 0x4000_0000
  {
    hide Holds, Operand, Shelf, Or, RotateRight128;
    var a, s := accumulator / TWO34, Scale(n);
    assert a < 0x4000_0000;
    assert accShift * s <= a by {
      var q, r := a / s, a % s;
      assert a == s * q + r;
    }
  }

  lemma FinalBalance(n: nat, signedMultiply: bool, rm: u32, rs: u32, accumulator: u64, csa: CarrySaveWords,
                     accShift: nat, bitsOut: nat, bitsCarry: nat, carryIn: bool)
    requires 1 <= n <= 4 && csa.output < TWO33 && csa.carry < TWO33 && accShift * Scale(n) < 0x4000_0000
    requires Conserved(n, Operand(signedMultiply, rm), Operand(signedMultiply, rs), accumulator, csa, accShift,
                       bitsOut, bitsCarry)
    requires Exhausted(signedMultiply, Operand(signedMultiply, rs) / Scale(n))
    requires carryIn <==> Operand(signedMultiply, rs) % 2 == 1
    ensures var carry := Corrected(bitsCarry, csa.carry, n);
            && carry.lo < TWO64
            && Finish(n, Corrected(bitsOut, csa.output, n), carry, accShift, carryIn).output
               == (Operand(signedMultiply, rm) * Operand(signedMultiply, rs) + accumulator) % TWO64
  {
    hide Corrected, Finish, Signed33, Operand, Or;
    var m, x0 := Operand(signedMultiply, rm), Operand(signedMultiply, rs);
    assert Rounded(x0 / Scale(n)) == 0;
    assert m * 0 == 0;
    assert Settled(n, csa, accShift, bitsOut, bitsCarry, carryIn) == accumulator + m * x0;
    if n == 4 {
      CorrectedRange(bitsCarry, csa.carry);
      FinishFull(csa, accShift, bitsOut, bitsCarry, carryIn);
    } else {
      FinishShort(n, csa, accShift, bitsOut, bitsCarry, carryIn);
    }
  }

  lemma CorrectedRange(bits: nat, word: nat)
    requires bits < Weight(4) && word < TWO33
    ensures Corrected(bits, word, 4).lo < TWO64
  {
    Powers();
    OrZero(word);
    PartsOf(word, 4);
    var q := HighPart(word, 4);
    assert q < 4 by { QuotientBelow(word, TWO31, q, LowPart(word, 4), 4); }
    assert q < Power(31);
    hide Power, Or, HighPart, LowPart;
    var x := bits * TWO31 * TWO33;
    assert x == TWO64 * bits;
    DivModUnique(x, TWO64, bits, 0);
    OrZero(q);
  }

  datatype MultiplyFlags = MultiplyFlags(negative: bool, zero: bool, carry: bool)

  /** execute_multiply_long: registers and N, Z get the arithmetic result, carry comes from the array. */
  method ExecuteMultiplyLong(signedMultiply: bool, accumulate: bool, setFlags: bool, rm: u32, rs: u32, rdHi: u32,
                             rdLo: u32, flags: MultiplyFlags)
    returns (newHi: u32, newLo: u32, newFlags: MultiplyFlags, bitLevel: MultiplyOutput)
    ensures newHi * TWO32 + newLo == bitLevel.output
    ensures bitLevel.output
         == (Operand(signedMultiply, rm) * Operand(signedMultiply, rs)
             + if accumulate then rdHi * TWO32 + rdLo else 0) % TWO64
    ensures !setFlags ==> newFlags == flags
    ensures setFlags ==> (newFlags.negative <==> newHi >= 0x8000_0000) && (newFlags.zero <==> newHi == 0 && newLo == 0)
                         && newFlags.carry == bitLevel.carry
  {
    hide Operand;
    var accumulator: u64 := 0;
    var result := Operand(signedMultiply, rm) * Operand(signedMultiply, rs) % TWO64;
    if accumulate {
      accumulator := rdHi * TWO32 + rdLo;
      result := (result + accumulator) % TWO64;
    }
    ArithmeticIs(Operand(signedMultiply, rm) * Operand(signedMultiply, rs), accumulator);
    newLo := result % TWO32;
    newHi := result / TWO32;
    var count;
    bitLevel, count := MultiplyLongOutput(signedMultiply, rm, rs, accumulator);
    newFlags := flags;
    if setFlags {
      newFlags := MultiplyFlags(result >= 0x8000_0000 * TWO32, result == 0, bitLevel.carry);
    }
  }

  lemma ArithmeticIs(product: int, accumulator: u64)
    ensures (product % TWO64 + accumulator) % TWO64 == (product + accumulator) % TWO64
    ensures product % TWO64 % TWO64 == product % TWO64
  {
    var q, r := product / TWO64, product % TWO64;
    SameResidue(r + accumulator, q);
    SmallMod(r, TWO64);
  }
}
