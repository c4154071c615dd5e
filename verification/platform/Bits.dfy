/** Bitwise operations on naturals, one binary digit at a time, and what they mean as arithmetic. */
module Bits {

  function Pow2(k: nat): (r: nat)
    ensures 1 <= r
  {
    if k == 0 then 1 else 2 * Pow2(k - 1)
  }

  const TWO_32: nat := 0x1_0000_0000

  function Shr(x: nat, k: nat): nat {
    if k == 0 then x else Shr(x / 2, k - 1)
  }

  /** A left shift in 32 bits: digits pushed out are lost. */
  function Shl32(x: nat, k: nat): nat {
    (x * Pow2(k)) % TWO_32
  }

  function And(x: nat, y: nat): nat {
    if x == 0 || y == 0 then 0 else (x % 2) * (y % 2) + 2 * And(x / 2, y / 2)
  }

  function Or(x: nat, y: nat): nat
    decreases x + y
  {
    if x == 0 && y == 0 then 0
    else (if x % 2 == 1 || y % 2 == 1 then 1 else 0) + 2 * Or(x / 2, y / 2)
  }

  function Xor(x: nat, y: nat): nat
    decreases x + y
  {
    if x == 0 && y == 0 then 0
    else (if x % 2 != y % 2 then 1 else 0) + 2 * Xor(x / 2, y / 2)
  }

  lemma Pow2Of32()
    ensures Pow2(32) == TWO_32
  {
    assert Pow2(8) == 256;
    Pow2Sum(8, 8);
    Pow2Sum(16, 16);
  }

  lemma {:induction false} Pow2Sum(j: nat, k: nat)
    ensures Pow2(j + k) == Pow2(j) * Pow2(k)
  {
    if j != 0 {
      Pow2Sum(j - 1, k);
      Associates(Pow2(j - 1), Pow2(k));
    }
  }

  lemma {:induction false} Pow2Grows(j: nat, k: nat)
    requires j < k
    ensures 2 * Pow2(j) <= Pow2(k)
  {
    if j + 1 < k {
      Pow2Grows(j, k - 1);
    }
  }

  /** Quotient and remainder by a power of two, in a linear form. */
  lemma {:induction false} ShrDivides(x: nat, k: nat)
    ensures Pow2(k) * Shr(x, k) <= x < Pow2(k) * Shr(x, k) + Pow2(k)
  {
    if k != 0 {
      ShrDivides(x / 2, k - 1);
      var q := Shr(x / 2, k - 1);
      Associates(Pow2(k - 1), q);
    }
  }

  lemma Scaled(p: nat, a: nat, b: nat)
    requires a <= b
    ensures p * a <= p * b
  {
  }

  /** Multiples of p for different factors are p apart. */
  lemma Apart(p: nat, a: nat, b: nat)
    requires a < b
    ensures p * a + p <= p * b
  {
    Scaled(p, a + 1, b);
    assert p * (a + 1) == p * a + p;
  }

  lemma QuotientIsShr(x: nat, q: nat, k: nat)
    requires Pow2(k) * q <= x < Pow2(k) * q + Pow2(k)
    ensures Shr(x, k) == q
  {
  }

  lemma {:induction false} ShrTwice(x: nat, j: nat, k: nat)
    ensures Shr(x, j + k) == Shr(Shr(x, j), k)
  {
    if j != 0 {
      ShrTwice(x / 2, j - 1, k);
    }
  }

  lemma {:induction false} XorZero(x: nat, y: nat)
    ensures Xor(x, y) == 0 <==> x == y
    decreases x + y
  {
    if x != 0 || y != 0 {
      XorZero(x / 2, y / 2);
    }
  }

  /** The digits from k up agree exactly when the exclusive-or has none of them. */
  lemma {:induction false} XorShift(x: nat, y: nat, k: nat)
    ensures Shr(Xor(x, y), k) == 0 <==> Shr(x, k) == Shr(y, k)
    decreases k
  {
    if k == 0 {
      XorZero(x, y);
    } else {
      XorShift(x / 2, y / 2, k - 1);
      assert Xor(x, y) / 2 == Xor(x / 2, y / 2);
    }
  }

  lemma AndEven(x: nat, y: nat)
    ensures And(x, 2 * y) == 2 * And(x / 2, y)
  {
  }

  /** Masking the low k digits away. */
  lemma {:induction false} AndHigh(x: nat, m: nat, k: nat)
    ensures And(x, Pow2(k) * m) == Pow2(k) * And(Shr(x, k), m)
  {
    if k != 0 {
      var y, r := Pow2(k - 1) * m, And(Shr(x / 2, k - 1), m);
      Associates(Pow2(k - 1), m);
      Associates(Pow2(k - 1), r);
      AndHigh(x / 2, m, k - 1);
      AndEven(x, y);
    }
  }

  lemma Associates(p: nat, m: nat)
    ensures (2 * p) * m == 2 * (p * m)
  {
  }

  /** A mask of n ones keeps every number of n digits. */
  lemma {:induction false} AndOnes(x: nat, n: nat)
    requires x < Pow2(n)
    ensures And(x, Pow2(n) - 1) == x
  {
    if x != 0 {
      assert (Pow2(n) - 1) / 2 == Pow2(n - 1) - 1 && (Pow2(n) - 1) % 2 == 1;
      AndOnes(x / 2, n - 1);
    }
  }

  lemma MaskHigh(x: nat, n: nat, k: nat)
    requires Shr(x, k) < Pow2(n)
    ensures And(x, Pow2(k) * (Pow2(n) - 1)) == Pow2(k) * Shr(x, k)
  {
    var m, q := Pow2(n) - 1, Shr(x, k);
    AndHigh(x, m, k);
    AndOnes(q, n);
  }

  /** Filling the low k digits of a number that has none of them. */
  lemma {:induction false} OrLow(q: nat, k: nat)
    ensures Or(Pow2(k) * q, Pow2(k) - 1) == Pow2(k) * q + (Pow2(k) - 1)
  {
    if k == 0 {
      OrZero(q);
    } else {
      var x := Pow2(k - 1) * q;
      Associates(Pow2(k - 1), q);
      OrLow(q, k - 1);
      assert (2 * x) / 2 == x && (Pow2(k) - 1) / 2 == Pow2(k - 1) - 1;
    }
  }

  lemma {:induction false} OrZero(x: nat)
    ensures Or(x, 0) == x
  {
    if x != 0 {
      OrZero(x / 2);
    }
  }
}
