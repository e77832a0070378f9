/** Bitwise OR of naturals, as the C operator `|` combines shifted fields. */
module Bits {
  import opened Words

  function BitOr(a: nat, b: nat): nat
    decreases a + b
  {
    if a == 0 && b == 0 then 0
    else 2 * BitOr(a / 2, b / 2) + (if a % 2 == 1 || b % 2 == 1 then 1 else 0)
  }

  lemma {:induction false} OrZero(a: nat)
    ensures BitOr(a, 0) == a
  {
    if a == 0 {
    } else {
      OrZero(a / 2);
    }
  }

  lemma DoubleShift(a: nat, s: nat)
    requires s > 0
    ensures a * Pow2(s) == 2 * (a * Pow2(s - 1))
  {
  }

  /** Fields that do not overlap: OR is addition. */
  lemma {:induction false} OrDisjoint(a: nat, b: nat, s: nat)
    requires b < Pow2(s)
    ensures BitOr(a * Pow2(s), b) == a * Pow2(s) + b
    decreases s
  {
    if s == 0 {
      OrZero(a);
    } else {
      var c := a * Pow2(s - 1);
      DoubleShift(a, s);
      OrDisjoint(a, b / 2, s - 1);
      assert (2 * c) / 2 == c;
    }
  }

  /** A field value of exactly 2^s lands on the lowest bit of the next field: it is carried only when that bit is clear. */
  lemma {:induction false} OrCarry(a: nat, s: nat)
    ensures BitOr(a * Pow2(s), Pow2(s)) == (if a % 2 == 0 then a + 1 else a) * Pow2(s)
    decreases s
  {
    var t := if a % 2 == 0 then a + 1 else a;
    if s == 0 {
      OrZero(a / 2);
    } else {
      DoubleShift(a, s);
      DoubleShift(t, s);
      var c := a * Pow2(s - 1);
      OrCarry(a, s - 1);
      assert (2 * c) / 2 == c && (2 * Pow2(s - 1)) / 2 == Pow2(s - 1);
    }
  }

  /** OR works on high and low fields separately. */
  lemma {:induction false} OrSplit(a1: nat, a0: nat, b1: nat, b0: nat, s: nat)
    requires a0 < Pow2(s) && b0 < Pow2(s)
    ensures BitOr(a1 * Pow2(s) + a0, b1 * Pow2(s) + b0) == BitOr(a1, b1) * Pow2(s) + BitOr(a0, b0)
    decreases s
  {
    hide BitOr, Pow2;
    if s == 0 {
      OrZeroLeft(0);
      Unshifted(a1);
      Unshifted(b1);
      Unshifted(BitOr(a1, b1));
    } else {
      HalfPower(s, a0);
      HalfPower(s, b0);
      DoubleShift(a1, s);
      DoubleShift(b1, s);
      DoubleShift(BitOr(a1, b1), s);
      OrSplit(a1, a0 / 2, b1, b0 / 2, s - 1);
      OrStep(a1 * Pow2(s - 1), a0, b1 * Pow2(s - 1), b0);
    }
  }

  lemma Unshifted(a: nat)
    ensures a * Pow2(0) == a && Pow2(0) == 1
  {
  }

  lemma HalfPower(s: nat, a: nat)
    requires s > 0 && a < Pow2(s)
    ensures a / 2 < Pow2(s - 1)
  {
  }

  lemma OrStep(a: nat, a0: nat, b: nat, b0: nat)
    ensures BitOr(2 * a + a0, 2 * b + b0)
         == 2 * BitOr(a + a0 / 2, b + b0 / 2) + if a0 % 2 == 1 || b0 % 2 == 1 then 1 else 0
    ensures BitOr(a0, b0) == 2 * BitOr(a0 / 2, b0 / 2) + if a0 % 2 == 1 || b0 % 2 == 1 then 1 else 0
  {
  }

  lemma OrLow(a: nat, b: nat)
    ensures BitOr(a, b) % 2 == if a % 2 == 1 || b % 2 == 1 then 1 else 0
  {
  }

  lemma OrZeroLeft(a: nat)
    ensures BitOr(0, a) == a
  {
  }
}
