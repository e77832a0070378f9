/** Binary floating-point interchange encodings over exact reals: pack754 and unpack754. */
module Float754 {
  import opened Words
  import opened Bits

  // ---------------------------------------------------------------- powers of two

  /** 2^k for any integer k. */
  function PowR(k: int): (r: real)
    ensures r > 0.0
    decreases if k < 0 then -k else k
  {
    if k == 0 then 1.0 else if k > 0 then 2.0 * PowR(k - 1) else PowR(k + 1) / 2.0
  }

  lemma PowRStep(k: int)
    ensures PowR(k + 1) == 2.0 * PowR(k)
  {
  }

  lemma {:induction false} PowRGrows(a: int, b: int)
    requires a < b
    ensures 2.0 * PowR(a) <= PowR(b)
    decreases b - a
  {
    PowRStep(b - 1);
    if a < b - 1 {
      PowRGrows(a, b - 1);
    }
  }

  lemma {:induction false} PowRNat(n: nat)
    ensures PowR(n) == Pow2(n) as real
  {
    if n == 0 {
    } else {
      PowRNat(n - 1);
    }
  }

  lemma {:induction false} PowRMinus(k: int, n: nat)
    ensures PowR(k - n) * Pow2(n) as real == PowR(k)
  {
    if n == 0 {
    } else {
      PowRMinus(k, n - 1);
      PowRStep(k - n);
      var p, q := PowR(k - n), Pow2(n - 1) as real;
      assert Pow2(n) as real == 2.0 * q;
      assert p * (2.0 * q) == (2.0 * p) * q;
    }
  }

  // ---------------------------------------------------------------- normalisation

  function Abs(f: real): real {
    if f < 0.0 then -f else f
  }

  lemma {:induction false} ExponentExists(x: real)
    requires x > 0.0
    ensures exists k :: PowR(k) <= x < 2.0 * PowR(k)
    decreases if x >= 2.0 then x else if x < 1.0 then 2.0 / x else 0.0
  {
    if x >= 2.0 {
      ExponentExists(x / 2.0);
      var k :| PowR(k) <= x / 2.0 < 2.0 * PowR(k);
      PowRStep(k);
    } else if x < 1.0 {
      ExponentExists(2.0 * x);
      var k :| PowR(k) <= 2.0 * x < 2.0 * PowR(k);
      PowRStep(k - 1);
    } else {
      assert PowR(0) <= x < 2.0 * PowR(0);
    }
  }

  /** The k that places x in [2^k, 2^(k+1)). */
  ghost function Exponent(x: real): (k: int)
    requires x > 0.0
    ensures PowR(k) <= x < 2.0 * PowR(k)
  {
    ExponentExists(x);
    var k :| PowR(k) <= x < 2.0 * PowR(k);
    k
  }

  /** The normal form is unique: at most one k places x in [2^k, 2^(k+1)). */
  lemma ExponentUnique(x: real, k: int)
    requires x > 0.0 && PowR(k) <= x < 2.0 * PowR(k)
    ensures k == Exponent(x)
  {
    var j := Exponent(x);
    if j < k {
      PowRGrows(j, k);
    } else if k < j {
      PowRGrows(k, j);
    }
  }

  /** y is x divided by 2^k, in normal form. */
  ghost predicate IsNormal(y: real, k: int, x: real) {
    1.0 <= y < 2.0 && y * PowR(k) == x
  }

  /** x / 2^Exponent(x). */
  ghost function Normal(x: real): (y: real)
    requires x > 0.0
    ensures 1.0 <= y < 2.0 && IsNormal(y, Exponent(x), x)
  {
    NormalExists(x, Exponent(x));
    var y :| IsNormal(y, Exponent(x), x);
    y
  }

  lemma NormalExists(x: real, k: int)
    requires PowR(k) <= x < 2.0 * PowR(k)
    ensures exists y :: IsNormal(y, k, x)
  {
    var y := Quotient(x, PowR(k));
    assert IsNormal(y, k, x);
  }

  lemma Quotient(x: real, p: real) returns (y: real)
    requires 0.0 < p <= x < 2.0 * p
    ensures 1.0 <= y < 2.0 && y * p == x
  {
    y := x / p;
    NormalRange(y, p, x);
  }

  /** The normal form (y, k) of x is unique. */
  lemma NormalUnique(x: real, y: real, k: int)
    requires x > 0.0 && IsNormal(y, k, x)
    ensures Exponent(x) == k && Normal(x) == y
  {
    NormalRange(y, PowR(k), x);
    ExponentUnique(x, k);
    SameFactor(y, Normal(x), PowR(k));
  }

  lemma NormalRange(y: real, p: real, x: real)
    requires p > 0.0 && y * p == x
    ensures 1.0 <= y < 2.0 <==> p <= x < 2.0 * p
  {
    ScaleOrder(1.0, y, p);
    ScaleOrder(y, 2.0, p);
  }

  lemma SameFactor(a: real, b: real, p: real)
    requires p > 0.0 && a * p == b * p
    ensures a == b
  {
    ScaleOrder(a, b, p);
    ScaleOrder(b, a, p);
  }

  lemma ScaleOrder(a: real, b: real, p: real)
    requires p > 0.0
    ensures a < b <==> a * p < b * p
    ensures a <= b <==> a * p <= b * p
  {
    assert (b - a) * p == b * p - a * p;
    if a < b {
      assert (b - a) * p > 0.0;
    } else {
      assert (a - b) * p >= 0.0;
    }
  }

  // ---------------------------------------------------------------- bit patterns

  /** The widths for which the C shifts are defined. */
  predicate Widths(bits: nat, e: nat) {
    1 <= e <= 31 && e + 1 <= bits <= 64
  }

  function Bias(e: nat): nat
    requires e >= 1
  {
    Pow2(e - 1) - 1
  }

  /** The half added to 2^s in single precision: absorbed (ties to even) once s exceeds 22. */
  function FloatHalf(s: nat): real {
    if s <= 22 then 0.5 else 0.0
  }

  /** Truncated significand of |f|: may reach 2^s, the carry case. */
  ghost function Significand(x: real, s: nat, h: real): int
    requires x > 0.0
  {
    ((Normal(x) - 1.0) * (Pow2(s) as real + h)).Floor
  }

  ghost function Encode(f: real, bits: nat, e: nat, h: real): nat
    requires Widths(bits, e) && 0.0 <= h <= 0.5
  {
    if f == 0.0 then 0
    else
      var s := bits - e - 1;
      var x := Abs(f);
      var sign := if f < 0.0 then 1 else 0;
      SignificandRange(x, s, h);
      BitOr(BitOr(U64(sign * Pow2(bits - 1)), U64((Exponent(x) + Bias(e)) * Pow2(s))), Significand(x, s, h))
  }

  lemma SignificandRange(x: real, s: nat, h: real)
    requires x > 0.0 && 0.0 <= h <= 0.5
    ensures 0 <= Significand(x, s, h) <= Pow2(s)
  {
    hide Normal, IsNormal;
    TruncateRange(Normal(x), Pow2(s) as real, h);
  }

  lemma TruncateRange(y: real, n: real, h: real)
    requires 1.0 <= y < 2.0 && n > 0.0 && 0.0 <= h <= 0.5
    ensures 0.0 <= (y - 1.0) * (n + h) < n + h
  {
    var t, q := y - 1.0, n + h;
    ProductRange(t, q);
    assert (y - 1.0) * (n + h) == t * q;
  }

  lemma ProductRange(t: real, q: real)
    requires 0.0 <= t < 1.0 && q > 0.0
    ensures 0.0 <= t * q < q
  {
    ScaleOrder(0.0, t, q);
    ScaleOrder(t, 1.0, q);
  }

  /** The value with significand field m and unbiased exponent k: (1 + m / 2^s) * 2^k. */
  function Magnitude(m: nat, s: nat, k: int): (r: real)
    ensures r > 0.0
  {
    var r := (Pow2(s) + m) as real * PowR(k - s);
    ScaleOrder(0.0, (Pow2(s) + m) as real, PowR(k - s));
    r
  }

  function Decode(i: nat, bits: nat, e: nat): real
    requires Widths(bits, e)
  {
    if i == 0 then 0.0
    else
      var s := bits - e - 1;
      var x := Magnitude(i % Pow2(s), s, (i / Pow2(s)) % Pow2(e) - Bias(e));
      if (i / Pow2(bits - 1)) % 2 == 1 then -x else x
  }

  /** Sign bit, exponent field and significand field side by side. */
  function Pattern(sign: nat, exp: nat, m: nat, bits: nat, e: nat): nat
    requires Widths(bits, e)
  {
    Join(sign, exp, m, Pow2(e), Pow2(bits - e - 1))
  }

  function Join(sign: nat, exp: nat, m: nat, q: nat, p: nat): nat {
    (sign * q + exp) * p + m
  }

  ghost predicate InFields(sign: nat, exp: nat, m: nat, bits: nat, e: nat)
    requires Widths(bits, e)
  {
    sign < 2 && exp < Pow2(e) && m < Pow2(bits - e - 1)
  }

  lemma TopProduct(bits: nat, e: nat)
    requires Widths(bits, e)
    ensures Pow2(bits - 1) == Pow2(e) * Pow2(bits - e - 1)
    ensures Pow2(bits) == 2 * Pow2(bits - 1) <= TWO_64
  {
    Pow2Add(e, bits - e - 1);
    Pow2Grows(bits, 64);
    Pow2Constants();
  }

  /** What the masks and shifts of unpack754 read back from a pattern. */
  lemma PatternFields(sign: nat, exp: nat, m: nat, bits: nat, e: nat)
    requires Widths(bits, e) && InFields(sign, exp, m, bits, e)
    ensures var i := Pattern(sign, exp, m, bits, e); var s := bits - e - 1;
            && i < Pow2(bits)
            && i % Pow2(s) == m && (i / Pow2(s)) % Pow2(e) == exp && i / Pow2(bits - 1) == sign
  {
    TopProduct(bits, e);
    JoinFields(sign, exp, m, Pow2(e), Pow2(bits - e - 1), Pow2(bits - 1));
  }

  lemma JoinFields(sign: nat, exp: nat, m: nat, q: nat, p: nat, qp: nat)
    requires sign < 2 && exp < q && m < p && qp == q * p
    ensures var i := Join(sign, exp, m, q, p);
            i % p == m && (i / p) % q == exp && i / qp == sign && i < 2 * qp
  {
    var top := sign * q + exp;
    var i := top * p + m;
    DivModUnique(i, p, top, m);
    DivModUnique(top, q, sign, exp);
    SplitTop(sign, q, exp, p);
    FieldBound(exp, q, m, p);
    DivModUnique(i, qp, sign, exp * p + m);
  }

  lemma SplitTop(a: int, q: int, b: int, p: int)
    ensures (a * q + b) * p == a * (q * p) + b * p
  {
  }

  lemma FieldBound(a: nat, q: nat, m: nat, p: nat)
    requires a < q && m < p
    ensures a * p + m < q * p
  {
    Distribute(q, a, p);
    MultipleGap(q - a, p);
  }

  /** Every word of the right width is the pattern of some fields; by PatternFields, of exactly its own. */
  lemma FieldsPattern(i: nat, bits: nat, e: nat) returns (sign: nat, exp: nat, m: nat)
    requires Widths(bits, e) && i < Pow2(bits)
    ensures InFields(sign, exp, m, bits, e) && i == Pattern(sign, exp, m, bits, e)
  {
    hide Pow2, Join;
    TopProduct(bits, e);
    sign, exp, m := SplitFields(i, Pow2(e), Pow2(bits - e - 1), Pow2(bits - 1));
  }

  lemma SplitFields(i: nat, q: nat, p: nat, qp: nat) returns (sign: nat, exp: nat, m: nat)
    requires q > 0 && p > 0 && qp == q * p > 0 && i < 2 * qp
    ensures sign < 2 && exp < q && m < p && i == Join(sign, exp, m, q, p)
  {
    var top;
    top, m := Divide(i, p);
    sign, exp := Divide(top, q);
    FieldBound(exp, q, m, p);
    SplitTop(sign, q, exp, p);
    MultipleGap(sign - 1, qp);
    Distribute(sign, 1, qp);
  }

  lemma Divide(i: nat, p: nat) returns (d: nat, r: nat)
    requires p > 0
    ensures r < p && i == d * p + r
  {
    d, r := i / p, i % p;
  }

  lemma DecodePattern(sign: nat, exp: nat, m: nat, bits: nat, e: nat)
    requires Widths(bits, e) && InFields(sign, exp, m, bits, e)
    requires Pattern(sign, exp, m, bits, e) != 0
    ensures var x := Magnitude(m, bits - e - 1, exp - Bias(e));
            Decode(Pattern(sign, exp, m, bits, e), bits, e) == if sign == 1 then -x else x
  {
    PatternFields(sign, exp, m, bits, e);
  }

  /** The two ORs of pack754 add the three fields, with the carry exception. */
  lemma Assemble(sign: nat, exp: nat, m: nat, bits: nat, e: nat)
    requires Widths(bits, e) && sign < 2 && exp < Pow2(e) && m <= Pow2(bits - e - 1)
    ensures BitOr(BitOr(U64(sign * Pow2(bits - 1)), U64(exp * Pow2(bits - e - 1))), m)
         == if m < Pow2(bits - e - 1) then Pattern(sign, exp, m, bits, e)
            else Pattern(sign, if exp % 2 == 0 then exp + 1 else exp, 0, bits, e)
  {
    var s := bits - e - 1;
    var top := sign * Pow2(e) + exp;
    assert BitOr(U64(sign * Pow2(bits - 1)), U64(exp * Pow2(s))) == top * Pow2(s) by {
      TopProduct(bits, e);
      AssembleTop(sign, exp, Pow2(e), Pow2(s), bits - 1);
    }
    if m < Pow2(s) {
      OrDisjoint(top, m, s);
    } else {
      OrCarry(top, s);
      EvenShift(sign, Pow2(e - 1), exp);
      assert Pow2(e) == 2 * Pow2(e - 1);
    }
  }

  lemma AssembleTop(sign: nat, exp: nat, q: nat, p: nat, n: nat)
    requires sign < 2 && exp < q && p > 0 && Pow2(n) == q * p && 2 * Pow2(n) <= TWO_64
    ensures BitOr(U64(sign * Pow2(n)), U64(exp * p)) == (sign * q + exp) * p
  {
    FieldBound(exp, q, 0, p);
    OrTwo(sign, exp * p, n);
    SplitTop(sign, q, exp, p);
  }

  lemma OrTwo(sign: nat, lo: nat, n: nat)
    requires sign < 2 && lo < Pow2(n) && 2 * Pow2(n) <= TWO_64
    ensures BitOr(U64(sign * Pow2(n)), U64(lo)) == sign * Pow2(n) + lo
  {
    hide BitOr, Pow2;
    OrDisjoint(sign, lo, n);
    assert sign * Pow2(n) == if sign == 0 then 0 else Pow2(n);
  }

  lemma EvenShift(a: nat, half: nat, b: nat)
    ensures (a * (2 * half) + b) % 2 == b % 2
  {
    assert a * (2 * half) == 2 * (a * half);
    DivModUnique(a * (2 * half) + b, 2, a * half + b / 2, b % 2);
  }

  // ---------------------------------------------------------------- decode, then encode

  /** The fraction of x scaled to s bits: x == (2^s + Fraction(x, s)) * 2^(Exponent(x) - s). */
  ghost function Fraction(x: real, s: nat): real
    requires x > 0.0
  {
    (Normal(x) - 1.0) * Pow2(s) as real
  }

  lemma FractionRange(x: real, s: nat)
    requires x > 0.0
    ensures 0.0 <= Fraction(x, s) < Pow2(s) as real
  {
    hide Normal, IsNormal, Pow2, PowR;
    ProductRange(Normal(x) - 1.0, Pow2(s) as real);
  }

  lemma NormalProduct(x: real)
    requires x > 0.0
    ensures Normal(x) * PowR(Exponent(x)) == x
  {
  }

  lemma FractionValue(x: real, s: nat)
    requires x > 0.0
    ensures x == (Pow2(s) as real + Fraction(x, s)) * PowR(Exponent(x) - s)
  {
    hide Normal, IsNormal, Pow2, PowR;
    PowRMinus(Exponent(x), s);
    NormalProduct(x);
    Regroup(Normal(x), Pow2(s) as real, PowR(Exponent(x) - s), PowR(Exponent(x)));
  }

  lemma Regroup(y: real, n: real, r: real, p: real)
    requires r * n == p
    ensures (n + (y - 1.0) * n) * r == y * p
  {
    assert n + (y - 1.0) * n == y * n;
    assert (y * n) * r == y * (r * n);
  }

  lemma MagnitudeNormal(m: nat, s: nat, k: int)
    requires m < Pow2(s)
    ensures var x := Magnitude(m, s, k); Exponent(x) == k && Fraction(x, s) == m as real
  {
    hide Normal, Pow2, PowR;
    var t := FractionOf(m, Pow2(s));
    PowRMinus(k, s);
    Regroup(1.0 + t, Pow2(s) as real, PowR(k - s), PowR(k));
    NormalUnique(Magnitude(m, s, k), 1.0 + t, k);
  }

  lemma FractionOf(m: nat, n: nat) returns (t: real)
    requires m < n
    ensures 0.0 <= t < 1.0 && t * n as real == m as real
  {
    t := m as real / n as real;
    assert t * n as real == m as real;
    ScaleOrder(0.0, t, n as real);
    ScaleOrder(t, 1.0, n as real);
  }

  lemma MagnitudeSignificand(m: nat, s: nat, k: int, h: real)
    requires m < Pow2(s) && 0.0 <= h <= 0.5
    ensures Significand(Magnitude(m, s, k), s, h) == m
  {
    MagnitudeNormal(m, s, k);
    TruncateExact(Normal(Magnitude(m, s, k)) - 1.0, Pow2(s) as real, h, m);
  }

  lemma TruncateExact(t: real, n: real, h: real, m: nat)
    requires 0.0 <= t < 1.0 && 0.0 <= h <= 0.5 && t * n == m as real
    ensures (t * (n + h)).Floor == m
  {
    assert t * (n + h) == m as real + t * h;
    assert 0.0 <= t * h <= h by {
      if h > 0.0 {
        ScaleOrder(0.0, t, h);
        ScaleOrder(t, 1.0, h);
      }
    }
  }

  /** Packing a magnitude with an in-range exponent field gives the pattern of its fields. */
  lemma EncodeMagnitude(sign: nat, exp: nat, m: nat, bits: nat, e: nat, h: real)
    requires Widths(bits, e) && InFields(sign, exp, m, bits, e) && 0.0 <= h <= 0.5
    ensures var x := Magnitude(m, bits - e - 1, exp - Bias(e));
            Encode(if sign == 1 then -x else x, bits, e, h) == Pattern(sign, exp, m, bits, e)
  {
    MagnitudeNormal(m, bits - e - 1, exp - Bias(e));
    MagnitudeSignificand(m, bits - e - 1, exp - Bias(e), h);
    Assemble(sign, exp, m, bits, e);
  }

  /** A nonzero word decodes to a signed magnitude, and is the pattern of its fields. */
  lemma DecodeFields(i: nat, bits: nat, e: nat) returns (sign: nat, exp: nat, m: nat)
    requires Widths(bits, e) && 0 < i < Pow2(bits)
    ensures InFields(sign, exp, m, bits, e) && i == Pattern(sign, exp, m, bits, e)
    ensures var x := Magnitude(m, bits - e - 1, exp - Bias(e)); Decode(i, bits, e) == if sign == 1 then -x else x
  {
    hide Magnitude, Pattern, Pow2, PowR;
    sign, exp, m := FieldsPattern(i, bits, e);
    DecodePattern(sign, exp, m, bits, e);
  }

  /** Every pattern survives decoding and encoding, whatever the rounding half h. */
  lemma EncodeDecode(i: nat, bits: nat, e: nat, h: real)
    requires Widths(bits, e) && i < Pow2(bits) && 0.0 <= h <= 0.5
    ensures Encode(Decode(i, bits, e), bits, e, h) == i
  {
    if i == 0 {
    } else {
      var sign, exp, m := DecodeFields(i, bits, e);
      EncodeMagnitude(sign, exp, m, bits, e, h);
    }
  }

  // ---------------------------------------------------------------- encode, then decode

  /** The reals that have a pattern: zero, and normal numbers with s fraction bits, except +2^-bias, whose
      pattern 0 is taken by zero. */
  ghost predicate Representable(f: real, bits: nat, e: nat)
    requires Widths(bits, e)
  {
    f == 0.0 ||
    (var x := Abs(f); var v := Fraction(x, bits - e - 1);
     && 0 <= Exponent(x) + Bias(e) < Pow2(e)
     && v == v.Floor as real
     && !(f > 0.0 && Exponent(x) + Bias(e) == 0 && v == 0.0))
  }

  lemma DecodeRepresentable(i: nat, bits: nat, e: nat)
    requires Widths(bits, e) && i < Pow2(bits)
    ensures Representable(Decode(i, bits, e), bits, e)
  {
    if i == 0 {
      hide Representable;
      ZeroRoundTrip(bits, e, 0.0);
    } else {
      hide Decode, Pattern, Magnitude, Fraction, Normal, IsNormal, Pow2, PowR, Bias;
      var sign, exp, m := DecodeFields(i, bits, e);
      MagnitudeNormal(m, bits - e - 1, exp - Bias(e));
      ZeroPattern(sign, exp, m, bits, e);
    }
  }

  lemma RepresentableMagnitude(f: real, bits: nat, e: nat) returns (sign: nat, exp: nat, m: nat)
    requires Widths(bits, e) && Representable(f, bits, e) && f != 0.0
    ensures InFields(sign, exp, m, bits, e) && Pattern(sign, exp, m, bits, e) != 0
    ensures var x := Magnitude(m, bits - e - 1, exp - Bias(e)); f == if sign == 1 then -x else x
  {
    hide Fraction, Normal, IsNormal, Pow2, PowR;
    var x := Abs(f);
    var v := Fraction(x, bits - e - 1);
    FractionRange(x, bits - e - 1);
    sign := if f < 0.0 then 1 else 0;
    exp := Exponent(x) + Bias(e);
    m := v.Floor;
    FractionValue(x, bits - e - 1);
    ZeroPattern(sign, exp, m, bits, e);
  }

  lemma ZeroPattern(sign: nat, exp: nat, m: nat, bits: nat, e: nat)
    requires Widths(bits, e)
    ensures Pattern(sign, exp, m, bits, e) == 0 <==> sign == exp == m == 0
  {
    if sign == exp == m == 0 {
      SplitTop(0, Pow2(e), 0, Pow2(bits - e - 1));
    } else {
      PatternPositive(sign, exp, m, Pow2(e), Pow2(bits - e - 1));
    }
  }

  lemma PatternPositive(sign: nat, exp: nat, m: nat, q: nat, p: nat)
    requires q > 0 && p > 0 && (sign > 0 || exp > 0 || m > 0)
    ensures (sign * q + exp) * p + m > 0
  {
    if sign > 0 || exp > 0 {
      assert sign * q >= 0 && (sign > 0 ==> sign * q >= 1);
      var top := sign * q + exp;
      MultipleGap(top, p);
    }
  }

  /** What pack stores of the encoding of f: its low `bits` bits. */
  ghost function Stored(f: real, bits: nat, e: nat, h: real): (i: nat)
    requires Widths(bits, e) && 0.0 <= h <= 0.5
    ensures i < Pow2(bits)
  {
    Encode(f, bits, e, h) % Pow2(bits)
  }

  lemma StoredSmall(f: real, bits: nat, e: nat, h: real)
    requires Widths(bits, e) && 0.0 <= h <= 0.5 && Encode(f, bits, e, h) < Pow2(bits)
    ensures Stored(f, bits, e, h) == Encode(f, bits, e, h)
  {
    hide Encode, Pow2;
    SmallMod(Encode(f, bits, e, h), Pow2(bits));
  }

  /** Exactly the representable reals come back unchanged from the stored bits. */
  lemma DecodeStored(f: real, bits: nat, e: nat, h: real)
    requires Widths(bits, e) && 0.0 <= h <= 0.5
    ensures Representable(f, bits, e) <==> Decode(Stored(f, bits, e, h), bits, e) == f
  {
    hide Decode, Encode, Stored, Magnitude, Representable, Pattern, Pow2, PowR;
    DecodeRepresentable(Stored(f, bits, e, h), bits, e);
    if f == 0.0 {
      ZeroRoundTrip(bits, e, h);
      StoredSmall(f, bits, e, h);
    } else if Representable(f, bits, e) {
      var sign, exp, m := RepresentableMagnitude(f, bits, e);
      EncodeMagnitude(sign, exp, m, bits, e, h);
      PatternFields(sign, exp, m, bits, e);
      StoredSmall(f, bits, e, h);
      DecodePattern(sign, exp, m, bits, e);
    }
  }

  lemma ZeroRoundTrip(bits: nat, e: nat, h: real)
    requires Widths(bits, e) && 0.0 <= h <= 0.5
    ensures Encode(0.0, bits, e, h) == 0 && Decode(0, bits, e) == 0.0 && Representable(0.0, bits, e)
  {
    hide Pow2, PowR, Fraction, Normal, Magnitude;
  }
}
