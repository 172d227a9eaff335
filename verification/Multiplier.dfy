/**
 The ARM7TDMI long multiplier at bit level: Booth recoding, four carry-save rows per cycle,
 early termination, and the theorem that it computes rm * rs + accumulator modulo 2^64.
 */
module Multiplier {
  import opened Prelude
  import opened Words

  const TWO31: int := 0x8000_0000
  const TWO33: int := 0x2_0000_0000
  const TWO34: int := 0x4_0000_0000
  const TWO64: int := 0x1_0000_0000_0000_0000

  datatype BoothOutput = BoothOutput(output: nat, carry: bool)
  datatype CarrySaveWords = CarrySaveWords(output: nat, carry: nat)
  /** hi * 2^64 + lo */
  datatype Pair128 = Pair128(lo: nat, hi: nat)

  // ---------------------------------------------------------------- values of words

  function Signed33(word: int): int {
    if word % TWO33 >= TWO32 then word % TWO33 - TWO33 else word % TWO33
  }

  function Signed34(word: int): int {
    if word % TWO34 >= TWO33 then word % TWO34 - TWO34 else word % TWO34
  }

  function Signed32(word: u32): int {
    if word >= TWO31 then word - TWO32 else word
  }

  /** The value a register contributes to the product. */
  function Operand(signedMultiply: bool, word: u32): int {
    if signedMultiply then Signed32(word) else word
  }

  // ---------------------------------------------------------------- Booth recoding

  function BoothRecode(input: u64, chunk: nat): BoothOutput
    requires chunk < 8
  {
    var doubled := 2 * input % TWO64;
    var recoded :=
      match chunk
      case 0 => BoothOutput(0, false)
      case 1 => BoothOutput(input, false)
      case 2 => BoothOutput(input, false)
      case 3 => BoothOutput(doubled, false)
      case 4 => BoothOutput(Not64(doubled), true)
      case 5 => BoothOutput(Not64(input), true)
      case 6 => BoothOutput(Not64(input), true)
      case _ => BoothOutput(0, false);
    recoded.(output := recoded.output % TWO34)
  }

  /** The radix-4 Booth digit of three neighbouring multiplier bits. */
  function Digit(chunk: nat): int
    requires chunk < 8
  {
    chunk % 2 + chunk / 2 % 2 - 2 * (chunk / 4)
  }

  lemma BoothDigit(input: u64, m: int, chunk: nat)
    requires chunk < 8 && -TWO31 <= m < TWO32 && input == m % TWO34
    ensures var booth := BoothRecode(input, chunk);
            && booth.output < TWO34
            && Signed34(booth.output) + (if booth.carry then 1 else 0) == Digit(chunk) * m
  {
    BoothWords(input, m);
    hide Signed34, Not64;
    if chunk == 0 || chunk == 7 {
      SignedIs(0, 0);
    } else if chunk == 1 || chunk == 2 {
      SignedIs(input % TWO34, m);
    } else if chunk == 3 {
      SignedIs(2 * input % TWO64 % TWO34, 2 * m);
    } else if chunk == 4 {
      SignedIs(Not64(2 * input % TWO64) % TWO34, -2 * m - 1);
    } else {
      SignedIs(Not64(input) % TWO34, -m - 1);
    }
    DigitValues(chunk, m);
    hide Digit;
  }

  lemma DigitValues(chunk: nat, m: int)
    requires chunk < 8
    ensures Digit(chunk) * m
         == if chunk == 0 || chunk == 7 then 0 else if chunk <= 2 then m else if chunk == 3 then 2 * m
            else if chunk == 4 then -2 * m else -m
  {
    assert Digit(chunk) == if chunk == 0 || chunk == 7 then 0 else if chunk <= 2 then 1 else if chunk == 3 then 2
                           else if chunk == 4 then -2 else -1;
  }

  /** The five words the recoder can pass on, as residues of multiples of m. */
  lemma BoothWords(input: u64, m: int)
    requires -TWO31 <= m < TWO32 && input == m % TWO34
    ensures input % TWO34 == (if m >= 0 then m else m + TWO34)
    ensures 2 * input % TWO64 % TWO34 == (if m >= 0 then 2 * m else 2 * m + TWO34)
    ensures Not64(input) % TWO34 == (if m >= 0 then -m - 1 + TWO34 else -m - 1)
    ensures Not64(2 * input % TWO64) % TWO34 == (if m >= 0 then -2 * m - 1 + TWO34 else -2 * m - 1)
  {
    DivModUnique(m, TWO34, if m >= 0 then 0 else -1, if m >= 0 then m else m + TWO34);
    DivModUnique(input, TWO34, 0, input);
    DivModUnique(2 * input, TWO64, 0, 2 * input);
    DivModUnique(2 * input, TWO34, if m >= 0 then 0 else 1, if m >= 0 then 2 * m else 2 * m + TWO34);
    NotLow(2 * input);
    NotLow(input);
    hide Not64;
  }

  lemma NotLow(word: u64)
    ensures Not64(word) % TWO34 == TWO34 - 1 - word % TWO34
  {
    var q, r := word / TWO34, word % TWO34;
    assert Not64(word) == TWO34 * (0x3FFF_FFFF - q) + (TWO34 - 1 - r);
    DivModUnique(Not64(word), TWO34, 0x3FFF_FFFF - q, TWO34 - 1 - r);
  }

  lemma SignedIs(word: nat, value: int)
    requires word < TWO34 && -TWO33 <= value < TWO33
    requires word == value || word == value + TWO34
    ensures Signed34(word) == value
  {
  }

  // ---------------------------------------------------------------- one carry-save row

  /** One row of the array: the words that go on, the two bits it retires, and nothing lost. */
  datatype Row = Row(next: CarrySaveWords, lowOutput: nat, lowCarry: nat)

  function BitOf(word: nat, weight: nat): (b: nat)
    requires weight > 0
    ensures b <= 1
  {
    word / weight % 2
  }

  function RowStep(previous: CarrySaveWords, addend: BoothOutput, accShift: nat): Row {
    var output := previous.output % TWO33;
    var carry := previous.carry % TWO33;
    var added := addend.output % TWO33;
    var sum := Sum3(output, added, carry);
    var carried := Or(2 * Carry3(output, added, carry), if addend.carry then 1 else 0);
    var fix := BitOf(accShift, 1) + (1 - BitOf(carry, TWO32)) + (1 - BitOf(addend.output, TWO33));
    Row(CarrySaveWords(Or(sum / 4, fix * TWO31), Or(carried / 4, (1 - BitOf(accShift, 2)) * TWO32)),
        sum % 4, carried % 4)
  }

  lemma RowWords(previous: CarrySaveWords, addend: BoothOutput, accShift: nat)
    requires addend.output < TWO34
    ensures var output, carry, added := previous.output % TWO33, previous.carry % TWO33, addend.output % TWO33;
            var sum := Sum3(output, added, carry);
            var carried := 2 * Carry3(output, added, carry) + if addend.carry then 1 else 0;
            var fix := BitOf(accShift, 1) + (1 - BitOf(carry, TWO32)) + (1 - BitOf(addend.output, TWO33));
            && sum < TWO33 && carried < TWO34
            && sum + carried == output + added + carry + (if addend.carry then 1 else 0)
            && RowStep(previous, addend, accShift)
               == Row(CarrySaveWords(sum / 4 + fix * TWO31, carried / 4 + (1 - BitOf(accShift, 2)) * TWO32),
                      sum % 4, carried % 4)
  {
    hide Or, Sum3, Carry3, Power, BitOf;
    var output, carry, added := previous.output % TWO33, previous.carry % TWO33, addend.output % TWO33;
    Powers();
    CarrySave(output, added, carry);
    Sum3Bound(output, added, carry, 33);
    Carry3Bound(output, added, carry, 33);
    var sum, majority := Sum3(output, added, carry), Carry3(output, added, carry);
    var carryIn := if addend.carry then 1 else 0;
    var fix := BitOf(accShift, 1) + (1 - BitOf(carry, TWO32)) + (1 - BitOf(addend.output, TWO33));
    var top := 1 - BitOf(accShift, 2);
    OrUnit(majority, carryIn);
    OrDisjoint(sum / 4, fix, 31);
    OrDisjoint((2 * majority + carryIn) / 4, top, 32);
  }

  lemma OrUnit(majority: nat, carryIn: nat)
    requires carryIn <= 1
    ensures Or(2 * majority, carryIn) == 2 * majority + carryIn
  {
    hide Or;
    assert Power(1) == 2 * Power(0) && Power(0) == 1;
    OrDisjoint(carryIn, majority, 1);
  }

  /**
   Row sum preservation: the signed value of the two words plus the Booth multiple and the next
   two accumulator bits equals the two retired bit pairs plus four times the new value.
   */
  lemma RowSum(previous: CarrySaveWords, input: u64, m: int, chunk: nat, accShift: nat)
    requires chunk < 8 && -TWO31 <= m < TWO32 && input == m % TWO34
    ensures var row := RowStep(previous, BoothRecode(input, chunk), accShift);
            && row.next.output < TWO33 && row.next.carry < TWO33
            && row.lowOutput < 4 && row.lowCarry < 4
            && previous.output % TWO33 + Signed33(previous.carry) + Digit(chunk) * m + TWO33 * (accShift % 4)
               == row.lowOutput + row.lowCarry + 4 * (row.next.output + Signed33(row.next.carry))
  {
    hide BoothRecode, Digit, RowStep, Sum3, Carry3, BitOf, Signed33, Signed34;
    var booth := BoothRecode(input, chunk);
    BoothDigit(input, m, chunk);
    RowWords(previous, booth, accShift);
    var product := Digit(chunk) * m;
    SignedMod(previous.carry);
    RowArithmetic(previous.output % TWO33, previous.carry % TWO33, booth, product, accShift,
                  Sum3(previous.output % TWO33, booth.output % TWO33, previous.carry % TWO33),
                  2 * Carry3(previous.output % TWO33, booth.output % TWO33, previous.carry % TWO33)
                  + if booth.carry then 1 else 0);
  }

  lemma SignedMod(word: nat)
    ensures Signed33(word) == Signed33(word % TWO33)
  {
  }

  lemma TopBit(word: nat, half: nat)
    requires half > 0 && word < 2 * half
    ensures BitOf(word, half) == if word >= half then 1 else 0
  {
    if word >= half {
      DivModUnique(word, half, 1, word - half);
    } else {
      DivModUnique(word, half, 0, word);
    }
  }

  lemma LowPair(word: nat)
    ensures word % 4 == BitOf(word, 1) + 2 * BitOf(word, 2)
  {
    ModHalf(word, 2);
  }

  /** The row's arithmetic on plain numbers: sum == 4 * sumHigh + sumLow and so on. */
  lemma RowNumbers(output: int, carry: int, added: int, topCarry: int, topAdded: int, carryIn: int,
                   a0: int, a1: int, sumHigh: int, sumLow: int, carriedHigh: int, carriedLow: int)
    requires 4 * sumHigh + sumLow + 4 * carriedHigh + carriedLow == output + added + carry + carryIn
    ensures var fix := a0 + (1 - topCarry) + (1 - topAdded);
            output + (carry - TWO33 * topCarry) + (added - TWO33 * topAdded + carryIn) + TWO33 * (a0 + 2 * a1)
            == sumLow + carriedLow + 4 * ((sumHigh + fix * TWO31) + (carriedHigh + (1 - a1) * TWO32 - TWO33 * (1 - a1)))
  {
  }

  lemma RowArithmetic(output: nat, carry: nat, booth: BoothOutput, product: int, accShift: nat, sum: nat, carried: nat)
    requires output < TWO33 && carry < TWO33 && booth.output < TWO34 && sum < TWO33 && carried < TWO34
    requires sum + carried == output + booth.output % TWO33 + carry + (if booth.carry then 1 else 0)
    requires product == Signed34(booth.output) + if booth.carry then 1 else 0
    ensures var fix := BitOf(accShift, 1) + (1 - BitOf(carry, TWO32)) + (1 - BitOf(booth.output, TWO33));
            var newOutput := sum / 4 + fix * TWO31;
            var newCarry := carried / 4 + (1 - BitOf(accShift, 2)) * TWO32;
            && newOutput < TWO33 && newCarry < TWO33
            && output + Signed33(carry) + product + TWO33 * (accShift % 4)
               == sum % 4 + carried % 4 + 4 * (newOutput + Signed33(newCarry))
  {
    CarryValue(carry);
    AddendValue(booth.output);
    LowPair(accShift);
    hide BitOf, Signed33, Signed34;
    var a0, a1 := BitOf(accShift, 1), BitOf(accShift, 2);
    SignedSplit(carried / 4, a1);
    RowNumbers(output, carry, booth.output % TWO33, BitOf(carry, TWO32), BitOf(booth.output, TWO33),
               if booth.carry then 1 else 0, a0, a1, sum / 4, sum % 4, carried / 4, carried % 4);
  }

  lemma CarryValue(carry: nat)
    requires carry < TWO33
    ensures Signed33(carry) == carry - TWO33 * BitOf(carry, TWO32)
  {
    TopBit(carry, TWO32);
    hide BitOf;
  }

  lemma AddendValue(word: nat)
    requires word < TWO34
    ensures Signed34(word) == word % TWO33 - TWO33 * BitOf(word, TWO33)
  {
    TopBit(word, TWO33);
    hide BitOf;
    DivModUnique(word, TWO33, BitOf(word, TWO33), word - TWO33 * BitOf(word, TWO33));
  }

  lemma SignedSplit(low: nat, inverted: nat)
    requires low < TWO32 && inverted <= 1
    ensures Signed33(low + (1 - inverted) * TWO32) == low + (1 - inverted) * TWO32 - TWO33 * (1 - inverted)
  {
  }

  // ---------------------------------------------------------------- one cycle: four rows

  /** The Booth chunk of row `i`: three multiplier bits from bit 2i. */
  function Chunk(multiplier: nat, i: nat): (c: nat)
    requires i < 4
    ensures c < 8
  {
    multiplier / FourTo(i) % 8
  }

  function FourTo(i: nat): (p: nat)
    requires i <= 4
    ensures p > 0
  {
    match i
    case 0 => 1
    case 1 => 4
    case 2 => 16
    case 3 => 64
    case _ => 256
  }

  /** A retired bit pair, shifted to row `i`'s place. */
  function Placed(pair: nat, i: nat): nat
    requires i <= 4
  {
    pair * FourTo(i)
  }

  /** The four Booth digits of rows i..3, weighted by their row. */
  function DigitsFrom(multiplier: nat, i: nat): int
    requires i <= 4
    decreases 4 - i
  {
    if i == 4 then 0 else Digit(Chunk(multiplier, i)) * FourTo(i) + DigitsFrom(multiplier, i + 1)
  }

  function Digits(multiplier: nat): int {
    DigitsFrom(multiplier, 0)
  }

  /** The digits telescope: eight bits, corrected by the bit below and the bit above. */
  lemma DigitsTelescope(multiplier: nat, x: int)
    requires x % 512 == multiplier % 512
    ensures 2 * Digits(multiplier) == (x + x % 2) - 256 * (x / 256 + x / 256 % 2)
  {
    hide Digits, DigitsFrom, Digit, Chunk, FourTo;
    var b0, q1 := Halve(multiplier);
    var b1, q2 := Halve(q1);
    var b2, q3 := Halve(q2);
    var b3, q4 := Halve(q3);
    var b4, q5 := Halve(q4);
    var b5, q6 := Halve(q5);
    var b6, q7 := Halve(q6);
    var b7, q8 := Halve(q7);
    var b8, q9 := Halve(q8);
    BitsTelescope(multiplier, x, b0, b1, b2, b3, b4, b5, b6, b7, b8, q9);
  }

  lemma Halve(word: nat) returns (bit: nat, half: nat)
    ensures word == bit + 2 * half && bit <= 1
  {
    bit, half := word % 2, word / 2;
  }

  lemma BitsTelescope(multiplier: nat, x: int, b0: nat, b1: nat, b2: nat, b3: nat, b4: nat, b5: nat, b6: nat,
                      b7: nat, b8: nat, high: nat)
    requires x % 512 == multiplier % 512
    requires b0 <= 1 && b1 <= 1 && b2 <= 1 && b3 <= 1 && b4 <= 1 && b5 <= 1 && b6 <= 1 && b7 <= 1 && b8 <= 1
    requires multiplier == b0 + 2 * b1 + 4 * b2 + 8 * b3 + 16 * b4 + 32 * b5 + 64 * b6 + 128 * b7 + 256 * b8
                           + 512 * high
    ensures 2 * Digits(multiplier) == (x + x % 2) - 256 * (x / 256 + x / 256 % 2)
  {
    hide Digits, DigitsFrom, Digit, Chunk;
    DigitAt(multiplier, 0, 0, b0, b1, b2, b3 + 2 * b4 + 4 * b5 + 8 * b6 + 16 * b7 + 32 * b8 + 64 * high);
    DigitAt(multiplier, 1, b0 + 2 * b1, b2, b3, b4, b5 + 2 * b6 + 4 * b7 + 8 * b8 + 16 * high);
    DigitAt(multiplier, 2, b0 + 2 * b1 + 4 * b2 + 8 * b3, b4, b5, b6, b7 + 2 * b8 + 4 * high);
    DigitAt(multiplier, 3, b0 + 2 * b1 + 4 * b2 + 8 * b3 + 16 * b4 + 32 * b5, b6, b7, b8, high);
    DigitsUnrolled(multiplier);
    var byte := b0 + 2 * b1 + 4 * b2 + 8 * b3 + 16 * b4 + 32 * b5 + 64 * b6 + 128 * b7;
    DivModUnique(byte, 2, b1 + 2 * b2 + 4 * b3 + 8 * b4 + 16 * b5 + 32 * b6 + 64 * b7, b0);
    LowBits(x, b0, byte, b8, high, multiplier);
  }

  lemma LowBits(x: int, b0: nat, byte: nat, b8: nat, high: nat, multiplier: nat)
    requires x % 512 == multiplier % 512 && multiplier == byte + 256 * b8 + 512 * high
    requires b0 <= 1 && byte < 256 && b8 <= 1 && byte % 2 == b0
    ensures x == 256 * (x / 256) + byte && x % 2 == b0 && x / 256 % 2 == b8
  {
    DivModUnique(multiplier, 512, high, byte + 256 * b8);
    var y := x / 512;
    assert x == 512 * y + byte + 256 * b8;
    DivModUnique(x, 256, 2 * y + b8, byte);
    DivModUnique(2 * y + b8, 2, y, b8);
    DivModUnique(x, 2, 256 * y + 128 * b8 + byte / 2, b0);
  }

  lemma DigitsUnrolled(multiplier: nat)
    ensures Digits(multiplier) == Digit(Chunk(multiplier, 0)) + 4 * Digit(Chunk(multiplier, 1))
                                  + 16 * Digit(Chunk(multiplier, 2)) + 64 * Digit(Chunk(multiplier, 3))
  {
    hide Digit, Chunk;
    assert DigitsFrom(multiplier, 4) == 0;
    assert DigitsFrom(multiplier, 3) == Digit(Chunk(multiplier, 3)) * 64;
    assert DigitsFrom(multiplier, 2) == Digit(Chunk(multiplier, 2)) * 16 + DigitsFrom(multiplier, 3);
    assert DigitsFrom(multiplier, 1) == Digit(Chunk(multiplier, 1)) * 4 + DigitsFrom(multiplier, 2);
  }

  /** The Booth digit of a row in terms of its three bits. */
  lemma DigitAt(multiplier: nat, i: nat, low: nat, b0: nat, b1: nat, b2: nat, high: nat)
    requires i < 4 && low < FourTo(i) && b0 <= 1 && b1 <= 1 && b2 <= 1
    requires multiplier == low + FourTo(i) * (b0 + 2 * b1 + 4 * b2 + 8 * high)
    ensures Digit(Chunk(multiplier, i)) == b0 + b1 - 2 * b2
  {
    var c := b0 + 2 * b1 + 4 * b2;
    DivModUnique(multiplier, FourTo(i), c + 8 * high, low);
    assert Chunk(multiplier, i) == c;
  }

  function LowByte(word: nat): (b: nat)
    ensures b < 256
  {
    word % 256
  }

  function Rest(word: nat): (r: nat)
    ensures word == 256 * r + LowByte(word)
  {
    word / 256
  }

  /** What one cycle promises: the value is kept, the retired byte is split off. */
  ghost predicate CycleKeeps(previous: CarrySaveWords, m: int, multiplier: nat, accShift: nat,
                             csa: CarrySaveWords, newAccShift: nat)
  {
    && newAccShift == Rest(accShift)
    && Rest(csa.output) < TWO33 && Rest(csa.carry) < TWO33
    && previous.output % TWO33 + Signed33(previous.carry) + m * Digits(multiplier) + TWO33 * LowByte(accShift)
       == LowByte(csa.output) + LowByte(csa.carry) + 256 * (Rest(csa.output) + Signed33(Rest(csa.carry)))
  }

  /** The accumulator bits not yet used, and those used, after `i` rows. */
  function AccHigh(accShift: nat, i: nat): nat
    requires i <= 4
  {
    accShift / FourTo(i)
  }

  function AccLow(accShift: nat, i: nat): nat
    requires i <= 4
  {
    accShift % FourTo(i)
  }

  /** The loop state after `i` rows. */
  ghost predicate AfterRows(previous: CarrySaveWords, m: int, multiplier: nat, accShift: nat, i: nat,
                            csa: CarrySaveWords, final: CarrySaveWords, accLeft: nat)
    requires i <= 4
  {
    && final.output < FourTo(i) && final.carry < FourTo(i)
    && accLeft == AccHigh(accShift, i)
    && (i > 0 ==> csa.output < TWO33 && csa.carry < TWO33)
    && previous.output % TWO33 + Signed33(previous.carry) + m * (Digits(multiplier) - DigitsFrom(multiplier, i))
       + TWO33 * AccLow(accShift, i)
       == final.output + final.carry + FourTo(i) * (csa.output % TWO33 + Signed33(csa.carry))
  }

  method MultiplyCsaCycle(previous: CarrySaveWords, multiplicand: u64, multiplier: nat, accShift: nat, ghost m: int)
    returns (csa: CarrySaveWords, newAccShift: nat)
    requires -TWO31 <= m < TWO32 && multiplicand == m % TWO34
    ensures CycleKeeps(previous, m, multiplier, accShift, csa, newAccShift)
  {
    hide RowStep, BoothRecode, Digit, Chunk, DigitsFrom, Or, AfterRows, Signed33;
    csa, newAccShift := previous, accShift;
    var final := CarrySaveWords(0, 0);
    RowsNone(previous, m, multiplier, accShift);
    for i := 0 to 4
      invariant AfterRows(previous, m, multiplier, accShift, i, csa, final, newAccShift)
    {
      var addend := BoothRecode(multiplicand, Chunk(multiplier, i));
      var row := RowStep(csa, addend, newAccShift);
      RowsStep(previous, multiplicand, m, multiplier, accShift, i, csa, final, newAccShift);
      final := CarrySaveWords(Or(final.output, Placed(row.lowOutput, i)), Or(final.carry, Placed(row.lowCarry, i)));
      csa := row.next;
      newAccShift := newAccShift / 4;
    }
    RowsAll(previous, m, multiplier, accShift, csa, final, newAccShift);
    csa := CarrySaveWords(Or(final.output, csa.output * 256), Or(final.carry, csa.carry * 256));
  }

  lemma RowsNone(previous: CarrySaveWords, m: int, multiplier: nat, accShift: nat)
    ensures AfterRows(previous, m, multiplier, accShift, 0, previous, CarrySaveWords(0, 0), accShift)
  {
    assert m * 0 == 0;
    hide DigitsFrom;
  }

  lemma RowsStep(previous: CarrySaveWords, input: u64, m: int, multiplier: nat, accShift: nat, i: nat,
                 csa: CarrySaveWords, final: CarrySaveWords, accLeft: nat)
    requires i < 4 && -TWO31 <= m < TWO32 && input == m % TWO34
    requires AfterRows(previous, m, multiplier, accShift, i, csa, final, accLeft)
    ensures var row := RowStep(csa, BoothRecode(input, Chunk(multiplier, i)), accLeft);
            AfterRows(previous, m, multiplier, accShift, i + 1, row.next,
                      CarrySaveWords(Or(final.output, Placed(row.lowOutput, i)),
                                     Or(final.carry, Placed(row.lowCarry, i))), accLeft / 4)
  {
    hide RowStep, BoothRecode, Digit, Chunk, Or, Signed33, FourTo, AccHigh, AccLow;
    var chunk := Chunk(multiplier, i);
    RowSum(csa, input, m, chunk, accLeft);
    var row := RowStep(csa, BoothRecode(input, chunk), accLeft);
    FourToStep(i);
    OrFour(final.output, row.lowOutput, i);
    OrFour(final.carry, row.lowCarry, i);
    AccumulatorStep(accShift, i);
    var d, rest := Digit(chunk), DigitsFrom(multiplier, i + 1);
    assert DigitsFrom(multiplier, i) == d * FourTo(i) + rest;
    hide Digits, DigitsFrom;
    assert row.next.output % TWO33 == row.next.output;
    var before := csa.output % TWO33 + Signed33(csa.carry);
    var after := row.next.output + Signed33(row.next.carry);
    RowsCombine(previous.output % TWO33 + Signed33(previous.carry), m, Digits(multiplier), d, rest, FourTo(i),
                AccLow(accShift, i), accLeft % 4, before, after, final.output, final.carry, row.lowOutput, row.lowCarry);
  }

  /** Rows 0..i together with row i, on plain numbers. */
  lemma RowsCombine(value: int, m: int, all: int, d: int, rest: int, weight: int, accLow: int, acc: int,
                    before: int, after: int, finalOutput: int, finalCarry: int, lowOutput: int, lowCarry: int)
    requires value + m * (all - (d * weight + rest)) + TWO33 * accLow == finalOutput + finalCarry + weight * before
    requires before + d * m + TWO33 * acc == lowOutput + lowCarry + 4 * after
    ensures value + m * (all - rest) + TWO33 * (accLow + weight * acc)
         == (finalOutput + lowOutput * weight) + (finalCarry + lowCarry * weight) + 4 * weight * after
  {
    ProductStep(m, all, d, rest, weight);
    RowsArithmetic(weight, before, after, d * m, acc, lowOutput, lowCarry);
  }

  lemma FourToStep(i: nat)
    requires i < 4
    ensures FourTo(i + 1) == 4 * FourTo(i)
  {
  }

  lemma OrFour(low: nat, pair: nat, i: nat)
    requires i < 4 && low < FourTo(i) && pair < 4
    ensures Or(low, Placed(pair, i)) == low + pair * FourTo(i) < FourTo(i + 1)
  {
    Powers();
    OrDisjoint(low, pair, 2 * i);
  }

  lemma AccumulatorStep(accShift: nat, i: nat)
    requires i < 4
    ensures AccHigh(accShift, i) / 4 == AccHigh(accShift, i + 1)
    ensures AccLow(accShift, i + 1) == AccLow(accShift, i) + FourTo(i) * (AccHigh(accShift, i) % 4)
  {
    var w, h := FourTo(i), accShift / FourTo(i);
    var q, r := h / 4, h % 4;
    assert accShift == w * (4 * q + r) + accShift % w;
    DivModUnique(accShift, 4 * w, q, w * r + accShift % w);
  }

  lemma ProductStep(m: int, all: int, d: int, rest: int, weight: int)
    ensures m * (all - rest) == m * (all - (d * weight + rest)) + weight * (d * m)
  {
    assert m * (all - rest) == m * (all - (d * weight + rest)) + m * (d * weight);
    assert m * (d * weight) == weight * (d * m);
  }

  lemma RowsArithmetic(weight: int, before: int, after: int, product: int, acc: int, lowOutput: int, lowCarry: int)
    requires before + product + TWO33 * acc == lowOutput + lowCarry + 4 * after
    ensures weight * before + weight * product + TWO33 * (weight * acc)
         == lowOutput * weight + lowCarry * weight + 4 * weight * after
  {
    assert weight * (before + product + TWO33 * acc) == weight * (lowOutput + lowCarry + 4 * after);
  }

  lemma RowsAll(previous: CarrySaveWords, m: int, multiplier: nat, accShift: nat,
                csa: CarrySaveWords, final: CarrySaveWords, accLeft: nat)
    requires AfterRows(previous, m, multiplier, accShift, 4, csa, final, accLeft)
    ensures CycleKeeps(previous, m, multiplier, accShift,
                       CarrySaveWords(Or(final.output, csa.output * 256), Or(final.carry, csa.carry * 256)), accLeft)
  {
    hide Or, Signed33, Digits, Power;
    Powers();
    OrDisjoint(final.output, csa.output, 8);
    OrDisjoint(final.carry, csa.carry, 8);
    NoDigitsLeft(multiplier);
    hide DigitsFrom;
    DivModUnique(final.output + csa.output * 256, 256, csa.output, final.output);
    DivModUnique(final.carry + csa.carry * 256, 256, csa.carry, final.carry);
    hide Digits;
    assert csa.output % TWO33 == csa.output;
  }

  lemma NoDigitsLeft(multiplier: nat)
    ensures DigitsFrom(multiplier, 4) == 0
  {
  }
}
