/** pack754 and unpack754 as loops over reals, proved against Encode and Decode. */
module FloatLoops {
  import opened Words
  import opened Bits
  import opened Float754

  lemma Halve(y: real, k: int)
    ensures y / 2.0 * PowR(k + 1) == y * PowR(k)
  {
    PowRStep(k);
    var p := PowR(k);
    assert y / 2.0 * (2.0 * p) == y * p;
  }

  /** The two normalisation loops of pack754; they end for every nonzero real. */
  method Normalise(x: real) returns (fnorm: real, shift: int)
    requires x > 0.0
    ensures 1.0 <= fnorm < 2.0 && fnorm * PowR(shift) == x
    ensures shift == Exponent(x) && fnorm == Normal(x)
  {
    hide PowR, Exponent, Normal;
    fnorm, shift := x, 0;
    assert PowR(0) == 1.0 by {
      PowRNat(0);
      Pow2Zero();
    }
    while fnorm >= 2.0
      invariant fnorm > 0.0 && fnorm * PowR(shift) == x
      decreases fnorm
    {
      Halve(fnorm, shift);
      fnorm := fnorm / 2.0;
      shift := shift + 1;
    }
    while fnorm < 1.0
      invariant 0.0 < fnorm < 2.0 && fnorm * PowR(shift) == x
      decreases 2.0 / fnorm
    {
      Doubling(fnorm);
      Halve(2.0 * fnorm, shift - 1);
      fnorm := fnorm * 2.0;
      shift := shift - 1;
    }
    NormalUnique(x, fnorm, shift);
  }

  /** pack754; h is what remains of the `+ 0.5f` after the sum with 2^s in single precision. */
  method Pack754(f: real, bits: nat, e: nat, h: real) returns (r: nat)
    requires Widths(bits, e) && 0.0 <= h <= 0.5
    ensures r == Encode(f, bits, e, h)
  {
    hide BitOr, PowR, Pow2, Exponent, Normal, IsNormal;
    var s := bits - e - 1;
    if f == 0.0 {
      return 0;
    }
    var sign, fnorm := 0, f;
    if f < 0.0 {
      sign, fnorm := 1, -f;
    }
    var shift;
    fnorm, shift := Normalise(fnorm);
    SignificandRange(Abs(f), s, h);
    fnorm := fnorm - 1.0;
    var significand := (fnorm * (Pow2(s) as real + h)).Floor;
    assert significand == Significand(Abs(f), s, h);
    var exp := shift + (Pow2(e - 1) - 1);
    assert exp == Exponent(Abs(f)) + Bias(e);
    r := BitOr(BitOr(U64(sign * Pow2(bits - 1)), U64(exp * Pow2(s))), significand);
  }

  lemma Pow2Zero()
    ensures Pow2(0) == 1
  {
  }

  lemma Doubling(y: real)
    requires 0.0 < y < 1.0
    ensures 2.0 / (y * 2.0) == 1.0 / y && 2.0 / y - 1.0 / y > 1.0
  {
    var i := 1.0 / y;
    assert i * y == 1.0;
    ScaleOrder(1.0, i, y);
    assert 2.0 / y == 2.0 * i;
  }

  /** unpack754 */
  method Unpack754(i: nat, bits: nat, e: nat) returns (result: real)
    requires Widths(bits, e)
    ensures result == Decode(i, bits, e)
  {
    hide PowR, Pow2;
    if i == 0 {
      return 0.0;
    }
    var s := bits - e - 1;
    var m := i % Pow2(s);
    result := m as real / Pow2(s) as real;
    result := result + 1.0;
    var shift := (i / Pow2(s)) % Pow2(e) - (Pow2(e - 1) - 1);
    ghost var x := Magnitude(m, s, shift);
    assert result * PowR(shift) == x by {
      PowRMinus(shift, s);
      Rescale(m as real, Pow2(s) as real, PowR(shift - s), PowR(shift));
    }
    while shift > 0
      invariant result * PowR(shift) == x
    {
      Halve(2.0 * result, shift - 1);
      result := result * 2.0;
      shift := shift - 1;
    }
    while shift < 0
      invariant shift <= 0
      invariant result * PowR(shift) == x
    {
      Halve(result, shift);
      result := result / 2.0;
      shift := shift + 1;
    }
    assert result == x by {
      PowRNat(0);
      Pow2Zero();
    }
    result := result * (if (i / Pow2(bits - 1)) % 2 == 1 then -1.0 else 1.0);
  }

  lemma Rescale(m: real, n: real, r: real, p: real)
    requires n > 0.0 && r * n == p
    ensures (m / n + 1.0) * p == (n + m) * r
  {
    var q := m / n;
    assert q * n == m;
    assert (q + 1.0) * (r * n) == (q * n + n) * r;
  }
}
