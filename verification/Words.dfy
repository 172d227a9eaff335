/** Bitwise operations on non-negative words of any width, and how they relate to arithmetic. */
module Words {

  function And(a: nat, b: nat): nat
    decreases a + b
  {
    if a == 0 || b == 0 then 0 else (if a % 2 == 1 && b % 2 == 1 then 1 else 0) + 2 * And(a / 2, b / 2)
  }

  function Or(a: nat, b: nat): nat
    decreases a + b
  {
    if a == 0 && b == 0 then 0 else (if a % 2 == 1 || b % 2 == 1 then 1 else 0) + 2 * Or(a / 2, b / 2)
  }

  function Xor(a: nat, b: nat): nat
    decreases a + b
  {
    if a == 0 && b == 0 then 0 else (if a % 2 != b % 2 then 1 else 0) + 2 * Xor(a / 2, b / 2)
  }

  function Power(k: nat): (p: nat)
    ensures p >= 1
    decreases k
  {
    if k == 0 then 1 else 2 * Power(k - 1)
  }

  /** Bit `i` of a non-negative word. */
  predicate Bit(word: nat, i: nat) {
    word / Power(i) % 2 == 1
  }

  /** `~value` on a 64-bit register. */
  function Not64(value: nat): nat
    requires value < 0x1_0000_0000_0000_0000
  {
    0xFFFF_FFFF_FFFF_FFFF - value
  }

  lemma {:induction false} OrZero(a: nat)
    ensures Or(a, 0) == a && Or(0, a) == a
    decreases a
  {
    if a != 0 {
      OrZero(a / 2);
    }
  }

  /** Bits that do not overlap are added by `|`. */
  lemma {:induction false} OrDisjoint(a: nat, b: nat, k: nat)
    requires a < Power(k)
    ensures Or(a, b * Power(k)) == a + b * Power(k)
    ensures Or(b * Power(k), a) == a + b * Power(k)
    decreases k
  {
    if k == 0 {
      OrZero(b);
      assert b * Power(k) == b;
    } else {
      assert b * Power(k) == 2 * (b * Power(k - 1));
      OrDisjoint(a / 2, b, k - 1);
      Halves(b * Power(k - 1));
    }
  }

  lemma Halves(n: nat)
    ensures 2 * n / 2 == n && 2 * n % 2 == 0
  {
  }

  lemma {:induction false} OrOnes(a: nat, n: nat)
    requires a < Power(n)
    ensures Or(a, Power(n) - 1) == Power(n) - 1
    decreases n
  {
    if n == 0 {
      assert a == 0;
    } else {
      assert (Power(n) - 1) / 2 == Power(n - 1) - 1 && (Power(n) - 1) % 2 == 1;
      OrOnes(a / 2, n - 1);
    }
  }

  /** `|` with a block of ones in bits k..n-1. */
  lemma {:induction false} OrHigh(a: nat, k: nat, n: nat)
    requires k <= n && a < Power(n)
    ensures Power(k) <= Power(n)
    ensures Or(a, Power(n) - Power(k)) == a % Power(k) + (Power(n) - Power(k))
    decreases n
  {
    if k == 0 {
      OrOnes(a, n);
      assert a % 1 == 0;
    } else {
      OrHigh(a / 2, k - 1, n - 1);
      Halves(Power(n - 1) - Power(k - 1));
      assert Power(n) - Power(k) == 2 * (Power(n - 1) - Power(k - 1));
      ModHalf(a, Power(k - 1));
      if a == 0 && Power(n) - Power(k) == 0 {
        assert Or(a, 0) == 0;
      }
    }
  }

  lemma ModHalf(a: nat, p: nat)
    requires p > 0
    ensures a % (2 * p) == a % 2 + 2 * (a / 2 % p)
  {
    var q, r := a / 2 / p, a / 2 % p;
    assert a / 2 == q * p + r;
    assert a == 2 * (a / 2) + a % 2;
    assert a == q * (2 * p) + (2 * r + a % 2);
    DivModUnique(a, 2 * p, q, 2 * r + a % 2);
  }

  lemma DivModUnique(a: int, d: int, q: int, r: int)
    requires d > 0 && a == q * d + r && 0 <= r < d
    ensures a / d == q && a % d == r
  {
    var q2, r2 := a / d, a % d;
    QuotientsAgree(d, q, q2, r, r2);
  }

  lemma QuotientsAgree(d: int, q: int, q2: int, r: int, r2: int)
    requires d > 0 && q * d + r == q2 * d + r2 && 0 <= r < d && 0 <= r2 < d
    ensures q == q2 && r == r2
  {
    Distribute(q, q2, d);
    if q > q2 {
      AtLeastOnce(q - q2, d);
    } else if q < q2 {
      AtLeastOnce(q2 - q, d);
      Distribute(q2, q, d);
    }
  }

  lemma Distribute(a: int, b: int, d: int)
    ensures (a - b) * d == a * d - b * d
  {
  }

  lemma AtLeastOnce(k: int, d: int)
    requires k >= 1 && d > 0
    ensures k * d >= d
  {
  }

  /** A carry-save adder row: the three addends become a sum word and a carry word. */
  function Sum3(a: nat, b: nat, c: nat): nat {
    Xor(Xor(a, b), c)
  }

  function Carry3(a: nat, b: nat, c: nat): nat {
    Or(Or(And(a, b), And(b, c)), And(c, a))
  }

  lemma {:induction false} CarrySave(a: nat, b: nat, c: nat)
    ensures Sum3(a, b, c) + 2 * Carry3(a, b, c) == a + b + c
    decreases a + b + c
  {
    if a == 0 && b == 0 && c == 0 {
      assert Xor(0, 0) == 0 && And(0, 0) == 0 && Or(0, 0) == 0;
    } else {
      CarrySave(a / 2, b / 2, c / 2);
      XorStep(a, b);
      XorStep(Xor(a, b), c);
      AndStep(a, b);
      AndStep(b, c);
      AndStep(c, a);
      OrStep(And(a, b), And(b, c));
      OrStep(Or(And(a, b), And(b, c)), And(c, a));
    }
  }

  lemma XorStep(a: nat, b: nat)
    ensures Xor(a, b) / 2 == Xor(a / 2, b / 2)
    ensures Xor(a, b) % 2 == if a % 2 != b % 2 then 1 else 0
  {
  }

  lemma AndStep(a: nat, b: nat)
    ensures And(a, b) / 2 == And(a / 2, b / 2)
    ensures And(a, b) % 2 == if a % 2 == 1 && b % 2 == 1 then 1 else 0
  {
  }

  lemma OrStep(a: nat, b: nat)
    ensures Or(a, b) / 2 == Or(a / 2, b / 2)
    ensures Or(a, b) % 2 == if a % 2 == 1 || b % 2 == 1 then 1 else 0
  {
  }

  lemma {:induction false} XorBound(a: nat, b: nat, k: nat)
    requires a < Power(k) && b < Power(k)
    ensures Xor(a, b) < Power(k)
    decreases k
  {
    if k != 0 {
      XorBound(a / 2, b / 2, k - 1);
    }
  }

  /** The sum word of a row is no wider than its addends. */
  lemma Sum3Bound(a: nat, b: nat, c: nat, k: nat)
    requires a < Power(k) && b < Power(k) && c < Power(k)
    ensures Sum3(a, b, c) < Power(k)
  {
    XorBound(a, b, k);
    XorBound(Xor(a, b), c, k);
  }

  lemma {:induction false} OrBound(a: nat, b: nat, k: nat)
    requires a < Power(k) && b < Power(k)
    ensures Or(a, b) < Power(k)
    decreases k
  {
    if k != 0 {
      OrBound(a / 2, b / 2, k - 1);
    }
  }

  lemma {:induction false} AndBound(a: nat, b: nat, k: nat)
    requires a < Power(k) && b < Power(k)
    ensures And(a, b) < Power(k)
    decreases k
  {
    if k != 0 {
      AndBound(a / 2, b / 2, k - 1);
    }
  }

  lemma Carry3Bound(a: nat, b: nat, c: nat, k: nat)
    requires a < Power(k) && b < Power(k) && c < Power(k)
    ensures Carry3(a, b, c) < Power(k)
  {
    AndBound(a, b, k);
    AndBound(b, c, k);
    AndBound(c, a, k);
    OrBound(And(a, b), And(b, c), k);
    OrBound(Or(And(a, b), And(b, c)), And(c, a), k);
  }

  /** Powers of two the multiplier uses. */
  lemma Powers()
    ensures Power(0) == 1 && Power(1) == 2 && Power(2) == 4 && Power(4) == 16 && Power(6) == 64 && Power(8) == 256
    ensures Power(10) == 1024 && Power(14) == 0x4000 && Power(15) == 0x8000 && Power(18) == 0x4_0000 && Power(26) == 0x400_0000
    ensures Power(31) == 0x8000_0000 && Power(32) == 0x1_0000_0000 && Power(33) == 0x2_0000_0000
    ensures Power(34) == 0x4_0000_0000
    ensures Power(41) == 0x200_0000_0000 && Power(49) == 0x2_0000_0000_0000 && Power(56) == 0x100_0000_0000_0000
    ensures Power(57) == 0x200_0000_0000_0000 && Power(63) == 0x8000_0000_0000_0000
    ensures Power(64) == 0x1_0000_0000_0000_0000
  {
    PowerStep(0); PowerStep(8); PowerStep(16); PowerStep(24); PowerStep(32); PowerStep(40); PowerStep(48);
    PowerStep(56);
  }

  lemma PowerStep(k: nat)
    ensures Power(k + 1) == 2 * Power(k) && Power(k + 2) == 4 * Power(k) && Power(k + 3) == 8 * Power(k)
    ensures Power(k + 4) == 16 * Power(k) && Power(k + 5) == 32 * Power(k) && Power(k + 6) == 64 * Power(k)
    ensures Power(k + 7) == 128 * Power(k) && Power(k + 8) == 256 * Power(k)
  {
    assert Power(k + 2) == 2 * Power(k + 1);
    assert Power(k + 4) == 2 * Power(k + 3);
    assert Power(k + 6) == 2 * Power(k + 5);
    assert Power(k + 8) == 2 * Power(k + 7);
  }
}
