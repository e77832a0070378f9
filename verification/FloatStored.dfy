/** What pack754 stores for every real number, field by field, from the number's own binary expansion. */
module FloatStored {
  import opened Words
  import opened Common
  import opened Bits
  import opened Float754
  import opened FloatTheorems

  /** The significand field before a carry: the fraction v of x scaled to s bits, rounded up exactly when the rest it
      leaves reaches 1 - t * h, t being how far the mantissa exceeds 1. */
  ghost function Rounded(x: real, s: nat, h: real): int
    requires x > 0.0
  {
    var v, t := Fraction(x, s), Normal(x) - 1.0;
    if v - v.Floor as real < 1.0 - t * h then v.Floor else v.Floor + 1
  }

  lemma SignificandRounded(x: real, s: nat, h: real)
    requires x > 0.0 && 0.0 <= h <= 0.5
    ensures Significand(x, s, h) == Rounded(x, s, h)
  {
    hide Normal, IsNormal, Pow2, PowR;
    FloorSum(Normal(x) - 1.0, Pow2(s) as real, h, Fraction(x, s));
  }

  lemma FloorSum(t: real, n: real, h: real, v: real)
    requires 0.0 <= t < 1.0 && 0.0 <= h <= 0.5 && v == t * n
    ensures (t * (n + h)).Floor == if v - v.Floor as real < 1.0 - t * h then v.Floor else v.Floor + 1
  {
    assert t * (n + h) == t * n + t * h;
    HalfBound(t, h);
  }

  /** The exponent of x with its bias, of any size. */
  ghost function Biased(x: real, e: nat): int
    requires x > 0.0 && e >= 1
  {
    Exponent(x) + Bias(e)
  }

  /** The exponent field as it is shifted into place in 64 bits: its low bits and what sticks out above them. */
  lemma ShiftedExponent(k: int, bits: nat, e: nat) returns (top: nat)
    requires Widths(bits, e)
    ensures var q, p := Pow2(e), Pow2(bits - e - 1);
            && U64(k * p) == Join(top, k % q, 0, q, p)
            && top % 2 == (k / q) % 2
  {
    hide Pow2;
    var s := bits - e - 1;
    var q, p, r := Pow2(e), Pow2(s), Pow2(64 - bits);
    Pow2Add(e, s);
    Pow2Add(64 - bits, 1);
    Pow2Add(64 - bits + 1, e + s);
    Pow2Constants();
    assert Pow2(1) == 2 by { Pow2Small(); }
    top := ShiftMod(k, q, p, r);
  }

  lemma ShiftMod(k: int, q: nat, p: nat, r: nat) returns (top: nat)
    requires q > 0 && p > 0 && r > 0 && r * 2 * (q * p) == TWO_64
    ensures U64(k * p) == (top * q + k % q) * p
    ensures top % 2 == (k / q) % 2
  {
    var d, m := QuotientOf(k, q);
    var d1, d0 := QuotientOf(d, 2 * r);
    top := d0;
    Gather(d1, 2 * r, d0, q, m, p);
    FieldBound(d0, 2 * r, m, q);
    FieldBound(d0 * q + m, 2 * r * q, 0, p);
    Associate(r, q, p);
    DivModUnique(k * p, TWO_64, d1, (d0 * q + m) * p);
    Parity(d1, r, d0);
  }

  lemma QuotientOf(k: int, q: nat) returns (d: int, m: nat)
    requires q > 0
    ensures d == k / q && m == k % q && m < q && k == d * q + m
  {
    d, m := k / q, k % q;
  }

  lemma Gather(d1: int, n: int, d0: int, q: int, m: int, p: int)
    ensures ((d1 * n + d0) * q + m) * p == d1 * (n * q * p) + (d0 * q + m) * p
  {
  }

  lemma Associate(r: int, q: int, p: int)
    ensures 2 * r * q * p == r * 2 * (q * p)
  {
  }

  lemma Parity(a: int, r: int, b: int)
    ensures (a * (2 * r) + b) % 2 == b % 2
  {
    assert a * (2 * r) == 2 * (a * r);
    DivModUnique(a * (2 * r) + b, 2, a * r + b / 2, b % 2);
  }

  /** The two ORs on an exponent of any size: bits above the exponent field are ORed into the sign bit and beyond. */
  lemma OrFields(sign: nat, top: nat, low: nat, m: nat, bits: nat, e: nat)
    requires Widths(bits, e) && sign < 2 && low < Pow2(e) && m <= Pow2(bits - e - 1)
    ensures var q, p := Pow2(e), Pow2(bits - e - 1);
            BitOr(BitOr(sign * Pow2(bits - 1), Join(top, low, 0, q, p)), m)
              == if m < p then Join(BitOr(sign, top), low, m, q, p)
                 else Join(BitOr(sign, top), if low % 2 == 0 then low + 1 else low, 0, q, p)
  {
    hide BitOr, Pow2, Join;
    OrTopFields(sign, top, low, bits, e);
    OrSignificand(BitOr(sign, top), low, m, e, bits - e - 1);
  }

  lemma OrTopFields(sign: nat, top: nat, low: nat, bits: nat, e: nat)
    requires Widths(bits, e) && sign < 2 && low < Pow2(e)
    ensures var q, p := Pow2(e), Pow2(bits - e - 1);
            BitOr(sign * Pow2(bits - 1), Join(top, low, 0, q, p)) == Join(BitOr(sign, top), low, 0, q, p)
  {
    hide BitOr, Pow2;
    var s := bits - e - 1;
    var q, p := Pow2(e), Pow2(s);
    TopProduct(bits, e);
    SplitTop(sign, q, 0, p);
    OrSplit(sign, 0, top, low, e);
    OrZeroLeft(low);
    OrZeroLeft(0);
    OrSplit(sign * q, 0, top * q + low, 0, s);
  }

  lemma OrSignificand(top: nat, low: nat, m: nat, e: nat, s: nat)
    requires e > 0 && m <= Pow2(s)
    ensures var q, p := Pow2(e), Pow2(s);
            BitOr(Join(top, low, 0, q, p), m)
              == if m < p then Join(top, low, m, q, p) else Join(top, if low % 2 == 0 then low + 1 else low, 0, q, p)
  {
    hide BitOr, Pow2;
    var high := top * Pow2(e) + low;
    if m < Pow2(s) {
      OrDisjoint(high, m, s);
    } else {
      OrCarry(high, s);
      Pow2Even(e);
      EvenTop(top, Pow2(e), low);
    }
  }

  lemma EvenTop(a: nat, q: nat, low: nat)
    requires q % 2 == 0
    ensures (a * q + low) % 2 == low % 2
  {
    Parity(a, q / 2, low);
  }

  /** The low bits of a pattern with more than one bit above the exponent field. */
  lemma LowBits(top: nat, low: nat, m: nat, bits: nat, e: nat)
    requires Widths(bits, e) && low < Pow2(e) && m < Pow2(bits - e - 1)
    ensures Join(top, low, m, Pow2(e), Pow2(bits - e - 1)) % Pow2(bits) == Pattern(top % 2, low, m, bits, e)
  {
    hide Pow2;
    TopProduct(bits, e);
    var q, p := Pow2(e), Pow2(bits - e - 1);
    FieldBound(low, q, m, p);
    FieldBound(top % 2, 2, low * p + m, q * p);
    LowParts(top, top / 2, top % 2, low, m, q, p);
  }

  lemma LowParts(top: nat, hi: nat, lo: nat, low: nat, m: nat, q: nat, p: nat)
    requires top == hi * 2 + lo && lo < 2 && low * p + m < q * p
    ensures ((top * q + low) * p + m) % (2 * (q * p)) == (lo * q + low) * p + m
  {
    SplitTop(top, q, low, p);
    SplitTop(lo, q, low, p);
    var n := q * p;
    assert top * n == hi * (2 * n) + lo * n by {
      Twice(hi, lo, n);
    }
    FieldBound(lo, 2, low * p + m, n);
    DivModUnique(top * n + (low * p + m), 2 * n, hi, lo * n + (low * p + m));
  }

  lemma Twice(hi: int, lo: int, n: int)
    ensures (hi * 2 + lo) * n == hi * (2 * n) + lo * n
  {
  }

  /** What pack754 stores for a nonzero f of any size: the rounded significand, or nothing when it is carried; the
      biased exponent modulo 2^e, its lowest bit set by a carry; and the sign bit, also set by a biased exponent whose
      quotient by 2^e is odd. */
  lemma StoredExactly(f: real, bits: nat, e: nat, h: real)
    requires Widths(bits, e) && 0.0 <= h <= 0.5 && f != 0.0
    ensures var s, q := bits - e - 1, Pow2(e);
            var r, k := Rounded(Abs(f), s, h), Biased(Abs(f), e);
            && 0 <= r <= Pow2(s)
            && Stored(f, bits, e, h)
                 == Pattern(if f < 0.0 || (k / q) % 2 == 1 then 1 else 0,
                            if r == Pow2(s) && k % q % 2 == 0 then k % q + 1 else k % q,
                            if r == Pow2(s) then 0 else r, bits, e)
  {
    hide BitOr, Significand, Rounded, Pattern, Pow2, Biased, Encode;
    EncodeOr(f, bits, e, h);
    var s, x := bits - e - 1, Abs(f);
    var q, p := Pow2(e), Pow2(s);
    SignificandRange(x, s, h);
    SignificandRounded(x, s, h);
    var k, r := Biased(x, e), Significand(x, s, h);
    var sign := if f < 0.0 then 1 else 0;
    var top := ShiftedExponent(k, bits, e);
    SignInPlace(sign, bits, e);
    OrFields(sign, top, k % q, r, bits, e);
    OrLow(sign, top);
    Pow2Even(e);
    LowBits(BitOr(sign, top), if r == p && k % q % 2 == 0 then k % q + 1 else k % q, if r == p then 0 else r, bits, e);
  }

  lemma EncodeOr(f: real, bits: nat, e: nat, h: real)
    requires Widths(bits, e) && 0.0 <= h <= 0.5 && f != 0.0
    ensures 0 <= Significand(Abs(f), bits - e - 1, h)
    ensures Encode(f, bits, e, h)
         == BitOr(BitOr(U64((if f < 0.0 then 1 else 0) * Pow2(bits - 1)), U64(Biased(Abs(f), e) * Pow2(bits - e - 1))),
                  Significand(Abs(f), bits - e - 1, h))
  {
    hide BitOr, Significand, Pow2, Exponent;
    SignificandRange(Abs(f), bits - e - 1, h);
  }

  lemma SignInPlace(sign: nat, bits: nat, e: nat)
    requires Widths(bits, e) && sign < 2
    ensures U64(sign * Pow2(bits - 1)) == sign * Pow2(bits - 1)
  {
    hide Pow2;
    TopProduct(bits, e);
    assert sign * Pow2(bits - 1) == if sign == 0 then 0 else Pow2(bits - 1);
    SmallMod(sign * Pow2(bits - 1), TWO_64);
  }

  /** 1 + 3687/4096 in 16 bits: the fraction 921.75 is rounded up, since the half weighs 0.9 times as much. */
  lemma RoundedExample()
    ensures Stored(1.900146484375, 16, 5, FloatHalf(10)) == 0x3f9a
  {
    hide Stored, PowR, Pattern, Rounded;
    RoundedExampleFields();
    StoredExactly(1.900146484375, 16, 5, 0.5);
    assert Pow2(10) == 0x400 && Pow2(5) == 0x20 by { RoundedExamplePowers(); }
    assert Pattern(0, 15, 922, 16, 5) == 0x3f9a by { RoundedExamplePowers(); }
  }

  lemma RoundedExamplePowers()
    ensures Pow2(4) == 0x10 && Pow2(5) == 0x20 && Pow2(10) == 0x400 && PowR(0) == 1.0
    ensures Pattern(0, 15, 922, 16, 5) == 0x3f9a
  {
    assert Pow2(4) == 0x10;
  }

  lemma RoundedExampleFields()
    ensures Biased(1.900146484375, 5) == 15 && Rounded(1.900146484375, 10, 0.5) == 922
  {
    RoundedExamplePowers();
    assert IsNormal(1.900146484375, 0, 1.900146484375) by {
      hide PowR;
      RoundedExamplePowers();
    }
    NormalUnique(1.900146484375, 1.900146484375, 0);
    hide Normal, IsNormal, PowR, Pow2, Exponent;
    assert Fraction(1.900146484375, 10) == 921.75;
    assert 0.900146484375 * 0.5 == 0.4500732421875;
  }
}
