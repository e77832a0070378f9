/** What the float encodings guarantee: precision, order, agreement with the standard. */
module FloatTheorems {
  import opened Words
  import opened Common
  import opened Bits
  import opened Float754

  // ---------------------------------------------------------------- precision

  ghost predicate InRange(f: real, bits: nat, e: nat)
    requires Widths(bits, e)
  {
    f != 0.0 && 0 <= Exponent(Abs(f)) + Bias(e) < Pow2(e)
  }

  /** The truncated significand reached 2^s and the exponent field is odd: the OR drops the carry. */
  ghost predicate CarryDropped(f: real, bits: nat, e: nat, h: real)
    requires Widths(bits, e) && f != 0.0
  {
    var s := bits - e - 1;
    Significand(Abs(f), s, h) == Pow2(s) && (Exponent(Abs(f)) + Bias(e)) % 2 == 1
  }

  /** The fields are all zero, so f is stored as the pattern of zero. */
  ghost predicate StoredAsZero(f: real, bits: nat, e: nat, h: real)
    requires Widths(bits, e) && f != 0.0
  {
    f > 0.0 && Exponent(f) + Bias(e) == 0 && Significand(f, bits - e - 1, h) == 0
  }

  /** v has the sign of f and lies within one unit in the last place of f. */
  ghost predicate Close(v: real, f: real, s: nat)
    requires f != 0.0
  {
    (if f > 0.0 then v > 0.0 else v < 0.0) && Abs(v - f) < PowR(Exponent(Abs(f)) - s)
  }

  /** The fields that end up in the encoding of an in-range f. */
  lemma EncodeFields(f: real, bits: nat, e: nat, h: real) returns (sign: nat, exp: nat, m: nat)
    requires Widths(bits, e) && 0.0 <= h <= 0.5 && InRange(f, bits, e)
    ensures InFields(sign, exp, m, bits, e) && Encode(f, bits, e, h) == Pattern(sign, exp, m, bits, e)
    ensures sign == if f < 0.0 then 1 else 0
    ensures var sig, k := Significand(Abs(f), bits - e - 1, h), Exponent(Abs(f)) + Bias(e);
            if sig < Pow2(bits - e - 1) then exp == k && m == sig
            else m == 0 && exp == if CarryDropped(f, bits, e, h) then k else k + 1
  {
    hide BitOr, Significand, Pattern, PowR, Exponent, Pow2;
    var s := bits - e - 1;
    var sig, k := Significand(Abs(f), s, h), Exponent(Abs(f)) + Bias(e);
    SignificandRange(Abs(f), s, h);
    sign := if f < 0.0 then 1 else 0;
    Assemble(sign, k, sig, bits, e);
    if sig < Pow2(s) {
      exp, m := k, sig;
    } else {
      exp, m := if k % 2 == 0 then k + 1 else k, 0;
      Pow2Even(e);
    }
  }

  lemma Pow2Even(e: nat)
    requires e >= 1
    ensures Pow2(e) % 2 == 0
  {
    var half := Pow2(e - 1);
    hide Pow2;
    assert Pow2(e) == 2 * half by {
      Pow2Double(e - 1);
    }
    DivModUnique(2 * half, 2, half, 0);
  }

  lemma Pow2Double(n: nat)
    ensures Pow2(n + 1) == 2 * Pow2(n)
  {
  }

  lemma SignificandError(x: real, s: nat, h: real)
    requires x > 0.0 && 0.0 <= h <= 0.5
    ensures Fraction(x, s) - 1.0 < Significand(x, s, h) as real <= Fraction(x, s) + 0.5
  {
    hide Normal, IsNormal, Pow2, PowR;
    TruncateError(Normal(x) - 1.0, Pow2(s) as real, h, Fraction(x, s), Significand(x, s, h));
  }

  lemma TruncateError(t: real, n: real, h: real, v: real, sig: int)
    requires 0.0 <= t < 1.0 && 0.0 <= h <= 0.5
    requires v == t * n && sig == (t * (n + h)).Floor
    ensures v - 1.0 < sig as real <= v + 0.5
  {
    assert t * (n + h) == t * n + t * h;
    HalfBound(t, h);
  }

  lemma HalfBound(t: real, h: real)
    requires 0.0 <= t < 1.0 && 0.0 <= h <= 0.5
    ensures 0.0 <= t * h <= 0.5
  {
    if h > 0.0 {
      ProductRange(t, h);
    } else {
      assert t * h == 0.0;
    }
  }

  lemma CarryMagnitude(s: nat, k: int)
    ensures Magnitude(0, s, k + 1) == Scaled(Pow2(s), s, k)
  {
    hide Pow2, PowR;
    PowRStep(k - s);
    assert Pow2(s) as real * (2.0 * PowR(k - s)) == (2.0 * Pow2(s) as real) * PowR(k - s);
  }

  lemma UnitDistance(n: real, sig: real, v: real, r: real, a: real, b: real)
    requires r > 0.0 && a == (n + sig) * r && b == (n + v) * r
    ensures Abs(a - b) < r <==> -1.0 < sig - v < 1.0
  {
    Expand(n, sig, v, r);
    UnitScale(sig - v, r, a - b);
  }

  lemma Expand(n: real, sig: real, v: real, r: real)
    ensures (n + sig) * r - (n + v) * r == (sig - v) * r
  {
  }

  lemma UnitScale(d: real, r: real, c: real)
    requires r > 0.0 && c == d * r
    ensures Abs(c) < r <==> -1.0 < d < 1.0
  {
    var b := -d;
    assert b * r == -c;
    ScaleOrder(d, 1.0, r);
    ScaleOrder(b, 1.0, r);
    assert c < r <==> d < 1.0;
    assert -c < r <==> b < 1.0;
  }

  /** The magnitude decoded from the encoding of an in-range f. */
  lemma DecodedMagnitude(f: real, bits: nat, e: nat, h: real) returns (sig: nat, v: real)
    requires Widths(bits, e) && 0.0 <= h <= 0.5 && InRange(f, bits, e) && !StoredAsZero(f, bits, e, h)
    ensures sig == if CarryDropped(f, bits, e, h) then 0 else Significand(Abs(f), bits - e - 1, h)
    ensures v == Scaled(sig, bits - e - 1, Exponent(Abs(f))) && v > 0.0
    ensures Decode(Stored(f, bits, e, h), bits, e) == if f < 0.0 then -v else v
  {
    hide Decode, Significand, Pattern, Stored, Pow2, PowR, Magnitude, Scaled, Exponent;
    var s, k := bits - e - 1, Exponent(Abs(f));
    SignificandRange(Abs(f), s, h);
    var sign, exp, m := EncodeFields(f, bits, e, h);
    PatternFields(sign, exp, m, bits, e);
    StoredSmall(f, bits, e, h);
    ZeroPattern(sign, exp, m, bits, e);
    DecodePattern(sign, exp, m, bits, e);
    v := Magnitude(m, s, exp - Bias(e));
    sig := if CarryDropped(f, bits, e, h) then 0 else Significand(Abs(f), s, h);
    CarryMagnitude(s, k);
    PlainMagnitude(m, s, k);
  }

  /** (2^s + sig) * 2^(k - s) for a significand that may have reached 2^s. */
  function Scaled(sig: nat, s: nat, k: int): real {
    (Pow2(s) as real + sig as real) * PowR(k - s)
  }

  lemma PlainMagnitude(m: nat, s: nat, k: int)
    ensures Magnitude(m, s, k) == Scaled(m, s, k)
  {
    hide Pow2, PowR;
  }

  /** Apart from zero, closeness is a matter of the significand that came back. */
  lemma UnitApart(f: real, bits: nat, e: nat, h: real) returns (sig: nat)
    requires Widths(bits, e) && 0.0 <= h <= 0.5 && InRange(f, bits, e) && !StoredAsZero(f, bits, e, h)
    ensures sig == if CarryDropped(f, bits, e, h) then 0 else Significand(Abs(f), bits - e - 1, h)
    ensures Close(Decode(Stored(f, bits, e, h), bits, e), f, bits - e - 1)
       <==> -1.0 < sig as real - Fraction(Abs(f), bits - e - 1) < 1.0
  {
    hide Decode, Significand, Fraction, Stored, Pow2, PowR, CarryDropped, StoredAsZero, Exponent;
    var s, x := bits - e - 1, Abs(f);
    var v;
    sig, v := DecodedMagnitude(f, bits, e, h);
    FractionValue(x, s);
    UnitDistance(Pow2(s) as real, sig as real, Fraction(x, s), PowR(Exponent(x) - s), v, x);
  }

  /** A dropped carry is at least one and a half units, unless there is only one unit. */
  lemma DroppedCarry(x: real, s: nat, h: real)
    requires x > 0.0 && 0.0 <= h <= 0.5 && Significand(x, s, h) == Pow2(s)
    ensures -1.0 < 0.0 - Fraction(x, s) < 1.0 <==> s == 0
  {
    hide Significand, Fraction, Pow2;
    SignificandError(x, s, h);
    FractionRange(x, s);
    Pow2Small();
    if s > 0 {
      Pow2Grows(1, s);
    }
  }

  /** Encoding an in-range f and decoding it is within one unit in the last place, and keeps the sign, exactly
      when f does not land on the pattern of zero and the OR drops no carry (which only matters with fraction bits). */
  lemma ErrorBound(f: real, bits: nat, e: nat, h: real)
    requires Widths(bits, e) && 0.0 <= h <= 0.5 && InRange(f, bits, e)
    ensures Close(Decode(Stored(f, bits, e, h), bits, e), f, bits - e - 1)
       <==> !StoredAsZero(f, bits, e, h) && !(CarryDropped(f, bits, e, h) && bits >= e + 2)
  {
    hide Decode, Significand, Fraction, Stored, Pow2, PowR, Exponent;
    if StoredAsZero(f, bits, e, h) {
      ZeroStored(f, bits, e, h);
    } else {
      hide StoredAsZero, Close;
      var sig := UnitApart(f, bits, e, h);
      if CarryDropped(f, bits, e, h) {
        DroppedCarry(Abs(f), bits - e - 1, h);
      } else {
        SignificandError(Abs(f), bits - e - 1, h);
      }
    }
  }

  lemma Pow2Small()
    ensures Pow2(0) == 1 && Pow2(1) == 2
  {
  }

  lemma ZeroStored(f: real, bits: nat, e: nat, h: real)
    requires Widths(bits, e) && 0.0 <= h <= 0.5 && InRange(f, bits, e) && StoredAsZero(f, bits, e, h)
    ensures Decode(Stored(f, bits, e, h), bits, e) == 0.0
  {
    hide Significand, Pattern, Stored, Pow2, PowR, Magnitude;
    var sign, exp, m := EncodeFields(f, bits, e, h);
    ZeroPattern(sign, exp, m, bits, e);
    StoredSmall(f, bits, e, h);
  }

  /** A value just below 2 packs, in 16 bits, to the pattern of 1: its carry meets an odd exponent field. */
  lemma CarryExample()
    ensures Decode(Stored(1.9999, 16, 5, FloatHalf(10)), 16, 5) == 1.0
  {
    hide Decode, Stored, PowR;
    CarryExampleFields();
    var sig, v := DecodedMagnitude(1.9999, 16, 5, 0.5);
    PowRMinus(0, 10);
    assert PowR(0) == 1.0 && Pow2(10) == 1024 by {
      CarryExampleFields();
    }
  }

  lemma CarryExampleFields()
    ensures PowR(0) == 1.0 && Pow2(4) == 16 && Pow2(5) == 32 && Pow2(10) == 1024
    ensures Exponent(1.9999) == 0 && Significand(1.9999, 10, 0.5) == 1024
  {
    assert Pow2(4) == 16 && Pow2(5) == 32 && Pow2(10) == 1024;
    assert PowR(0) == 1.0;
    assert IsNormal(1.9999, 0, 1.9999);
    NormalUnique(1.9999, 1.9999, 0);
    hide Normal, IsNormal, PowR;
    assert (1.9999 - 1.0) * 1024.5 == 1024.39755;
  }

  /** Without the half nothing is ever carried, so the 32- and 64-bit encodings only lose what lands on zero. */
  lemma NoCarryWithoutHalf(f: real, bits: nat, e: nat)
    requires Widths(bits, e) && f != 0.0
    ensures !CarryDropped(f, bits, e, 0.0)
  {
    hide Normal, IsNormal, Pow2, PowR, Exponent;
    FloorBelow(Normal(Abs(f)) - 1.0, Pow2(bits - e - 1));
  }

  lemma FloorBelow(t: real, n: nat)
    requires 0.0 <= t < 1.0 && n > 0
    ensures (t * (n as real + 0.0)).Floor < n
  {
    ProductRange(t, n as real);
    assert n as real + 0.0 == n as real;
  }

  /** FloatHalf is what single precision leaves of the half: 2^s + FloatHalf(s) is a 24-bit significand q at
      the scale of 2^s, nearest to 2^s + 1/2, and even when there is a tie. */
  lemma HalfRounds(s: nat) returns (q: nat)
    ensures 0x80_0000 <= q < 0x100_0000
    ensures Pow2(s) as real + FloatHalf(s) == q as real * PowR(s - 23)
    ensures Abs(FloatHalf(s) - 0.5) <= PowR(s - 23) / 2.0
    ensures Abs(FloatHalf(s) - 0.5) == PowR(s - 23) / 2.0 ==> q % 2 == 0
  {
    hide Pow2, PowR;
    var r := PowR(s - 23);
    TopBit(s);
    MinusOne();
    if s <= 22 {
      var n := HalfUnits(s);
      q := 0x80_0000 + n;
      Collect(0x80_0000, n, r);
    } else {
      q := 0x80_0000;
      if s > 23 {
        PowRGrows(0, s - 23);
      }
    }
  }

  /** 2^s as a 24-bit significand. */
  lemma TopBit(s: nat)
    ensures Pow2(s) as real == 0x80_0000 as real * PowR(s - 23)
  {
    hide PowR, Pow2;
    PowRNat(s);
    PowRMinus(s, 23);
    Pow2Constants();
    Pow2Double(22);
  }

  lemma Collect(a: nat, b: nat, r: real)
    ensures (a + b) as real * r == a as real * r + b as real * r
  {
  }

  lemma MinusOne()
    ensures PowR(-1) == 0.5 && PowR(0) == 1.0
  {
  }

  lemma HalfUnits(s: nat) returns (n: nat)
    requires s <= 22
    ensures n <= 0x40_0000 && n as real * PowR(s - 23) == 0.5
  {
    MinusOne();
    hide Pow2, PowR;
    n := Pow2(22 - s);
    PowRMinus(-1, 22 - s);
    Pow2Grows(22 - s, 22);
    Pow2Constants();
  }

  // ---------------------------------------------------------------- order

  lemma MagnitudeOrder(m: nat, k: int, m': nat, k': int, s: nat)
    requires m < Pow2(s) && m' < Pow2(s)
    requires k < k' || (k == k' && m < m')
    ensures Magnitude(m, s, k) < Magnitude(m', s, k')
  {
    hide Pow2, PowR;
    if k < k' {
      hide Magnitude;
      MagnitudeNormal(m, s, k);
      MagnitudeNormal(m', s, k');
      PowRGrows(k, k');
    } else {
      ScaleOrder((Pow2(s) + m) as real, (Pow2(s) + m') as real, PowR(k - s));
    }
  }

  lemma FieldOrder(sign: nat, exp: nat, m: nat, exp': nat, m': nat, bits: nat, e: nat)
    requires Widths(bits, e) && InFields(sign, exp, m, bits, e) && InFields(sign, exp', m', bits, e)
    requires Pattern(sign, exp, m, bits, e) < Pattern(sign, exp', m', bits, e)
    ensures exp < exp' || (exp == exp' && m < m')
  {
    hide Pow2;
    var p := Pow2(bits - e - 1);
    var a, b := sign * Pow2(e) + exp, sign * Pow2(e) + exp';
    Distribute(b, a, p);
    if exp > exp' {
      MultipleGap(b - a, p);
    }
  }

  lemma SignOf(i: nat, sign: nat, exp: nat, m: nat, bits: nat, e: nat)
    requires Widths(bits, e) && InFields(sign, exp, m, bits, e) && i == Pattern(sign, exp, m, bits, e)
    ensures sign == if i < Pow2(bits - 1) then 0 else 1
  {
    hide Pattern, Pow2;
    PatternFields(sign, exp, m, bits, e);
    var d, r := Divide(i, Pow2(bits - 1));
    DivModUnique(i, Pow2(bits - 1), d, r);
    if sign == 1 {
      assert i == Pow2(bits - 1) + r;
    }
  }

  /** Among the patterns without a sign bit, decoding is strictly increasing; among those with it, strictly decreasing. */
  lemma DecodeOrder(i: nat, j: nat, bits: nat, e: nat)
    requires Widths(bits, e) && i < j < Pow2(bits)
    requires i < Pow2(bits - 1) <==> j < Pow2(bits - 1)
    ensures if i < Pow2(bits - 1) then Decode(i, bits, e) < Decode(j, bits, e)
            else Decode(i, bits, e) > Decode(j, bits, e)
  {
    hide Decode, Magnitude, Pattern, Pow2, PowR;
    var sign', exp', m' := DecodeFields(j, bits, e);
    SignOf(j, sign', exp', m', bits, e);
    if i == 0 {
      assert Decode(0, bits, e) == 0.0 by {
        ZeroRoundTrip(bits, e, 0.0);
      }
    } else {
      var sign, exp, m := DecodeFields(i, bits, e);
      SignOf(i, sign, exp, m, bits, e);
      FieldOrder(sign, exp, m, exp', m', bits, e);
      MagnitudeOrder(m, exp - Bias(e), m', exp' - Bias(e), bits - e - 1);
    }
  }

  // ---------------------------------------------------------------- the standard

  /** Table 3.5 of IEEE 754-2008: the largest exponent, also the bias, of a format with e exponent bits. */
  function Emax(e: nat): int
    requires e >= 1
  {
    Pow2(e - 1) - 1
  }

  /** Section 3.4 of IEEE 754-2008, items c to e: the magnitude of zero, subnormal and normal data. */
  ghost function StandardMagnitude(exp: nat, m: nat, s: nat, e: nat): real
    requires e >= 1
  {
    if exp == 0 then m as real * PowR(1 - Emax(e) - s) else (Pow2(s) + m) as real * PowR(exp - Emax(e) - s)
  }

  /** Section 3.4 of IEEE 754-2008: the real value of a datum, None for infinities and NaNs. */
  ghost function StandardValue(sign: nat, exp: nat, m: nat, s: nat, e: nat): Option<real>
    requires e >= 1
  {
    if exp == Pow2(e) - 1 then None
    else Some(if sign == 1 then -StandardMagnitude(exp, m, s, e) else StandardMagnitude(exp, m, s, e))
  }

  lemma StandardNormal(exp: nat, m: nat, s: nat, e: nat)
    requires e >= 1 && exp >= 1
    ensures StandardMagnitude(exp, m, s, e) == Magnitude(m, s, exp - Bias(e))
  {
    hide PowR, Pow2;
  }

  lemma StandardSubnormal(m: nat, s: nat, e: nat)
    requires e >= 1 && m < Pow2(s)
    ensures 0.0 <= StandardMagnitude(0, m, s, e) < Magnitude(m, s, 0 - Bias(e))
    ensures m == 0 ==> StandardMagnitude(0, m, s, e) == 0.0
  {
    hide PowR, Pow2;
    var r := PowR(0 - Bias(e) - s);
    PowRStep(0 - Bias(e) - s);
    assert m as real * (2.0 * r) == (2.0 * m as real) * r;
    ScaleOrder(0.0, 2.0 * m as real, r);
    ScaleOrder(2.0 * m as real, (Pow2(s) + m) as real, r);
  }

  /** unpack754 gives the value of the standard exactly for positive zero and for the normal encodings. */
  lemma AgreesWithStandard(sign: nat, exp: nat, m: nat, bits: nat, e: nat)
    requires Widths(bits, e) && InFields(sign, exp, m, bits, e)
    ensures StandardValue(sign, exp, m, bits - e - 1, e) == Some(Decode(Pattern(sign, exp, m, bits, e), bits, e))
       <==> sign == exp == m == 0 || 1 <= exp < Pow2(e) - 1
  {
    hide Decode, Pattern, Pow2, PowR, Magnitude, StandardMagnitude;
    ZeroPattern(sign, exp, m, bits, e);
    Pow2Double(e - 1);
    if exp == 0 {
      StandardSubnormal(m, bits - e - 1, e);
    } else {
      StandardNormal(exp, m, bits - e - 1, e);
    }
    if sign == exp == m == 0 {
      ZeroRoundTrip(bits, e, 0.0);
    } else {
      DecodePattern(sign, exp, m, bits, e);
    }
  }

  lemma FieldsOfNegativeZero(bits: nat, e: nat)
    requires Widths(bits, e)
    ensures InFields(1, 0, 0, bits, e)
  {
  }

  /** Negative zero of the standard is read as the normal number -2^-bias. */
  lemma NegativeZero(bits: nat, e: nat)
    requires Widths(bits, e)
    ensures StandardValue(1, 0, 0, bits - e - 1, e) == Some(0.0)
    ensures Decode(Pattern(1, 0, 0, bits, e), bits, e) == -PowR(0 - Bias(e))
  {
    hide Pattern, PowR, Decode, Pow2;
    var s, k := bits - e - 1, 0 - Bias(e);
    Pow2Double(e - 1);
    FieldsOfNegativeZero(bits, e);
    ZeroPattern(1, 0, 0, bits, e);
    DecodePattern(1, 0, 0, bits, e);
    PowRMinus(k, s);
    assert Magnitude(0, s, k) == PowR(k - s) * Pow2(s) as real;
  }
}
