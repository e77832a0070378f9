/** The float letters of the format language against the interchange formats of the standard, with all widths written out. */
module FloatFormats {
  import opened Words
  import opened Common
  import opened Float754
  import opened FloatTheorems
  import opened Codec
  import Formats

  /** A word that holds the fields of a normal datum or of positive zero, of so many exponents and significands. */
  predicate HoldsFields(i: nat, sign: nat, exp: nat, m: nat, exps: nat, ms: nat) {
    && sign < 2 && m < ms && i == (sign * exps + exp) * ms + m
    && (1 <= exp < exps - 1 || sign == exp == m == 0)
  }

  /** `f`, `d` and `g` are the 16-, 32- and 64-bit formats of the standard, with 5, 8 and 11 exponent and 10, 23 and
      52 significand bits, most significant byte first: every normal datum and positive zero are read as
      their value, and the value is packed as that datum. */
  lemma FloatLetters(letter: char, i: nat, sign: nat, exp: nat, m: nat, tail: seq<byte>)
    requires match letter
             case 'f' => HoldsFields(i, sign, exp, m, 0x20, 0x400)
             case 'd' => HoldsFields(i, sign, exp, m, 0x100, 0x80_0000)
             case 'g' => HoldsFields(i, sign, exp, m, 0x800, 0x10_0000_0000_0000)
             case _ => false
    ensures var (w, s, e) := match letter case 'f' => (2, 10, 5) case 'd' => (4, 23, 8) case _ => (8, 52, 11);
            var datum := StandardValue(sign, exp, m, s, e);
            && datum.Some?
            && Formats.Decode([letter], 0, BigEndian(w, i) + tail) == Formats.Ok([Real(datum.value)])
            && Formats.Accepts([letter], [Real(datum.value)])
            && Formats.Encode([letter], [Real(datum.value)]) == BigEndian(w, i)
  {
    hide Pow2, StandardValue, Formats.Decode, Formats.Encode, BigEndian;
    FieldPowers();
    match letter
    case 'f' => Letter('f', 2, 5, i, sign, exp, m, tail);
    case 'd' => Letter('d', 4, 8, i, sign, exp, m, tail);
    case 'g' => Letter('g', 8, 11, i, sign, exp, m, tail);
    case _ =>
  }

  lemma Letter(letter: char, w: nat, e: nat, i: nat, sign: nat, exp: nat, m: nat, tail: seq<byte>)
    requires KindOf(letter) == Float(w, e) && HoldsFields(i, sign, exp, m, Pow2(e), Pow2(8 * w - e - 1))
    ensures Widths(8 * w, e)
    ensures var datum := StandardValue(sign, exp, m, 8 * w - e - 1, e);
            && datum.Some?
            && Formats.Decode([letter], 0, BigEndian(w, i) + tail) == Formats.Ok([Real(datum.value)])
            && Formats.Accepts([letter], [Real(datum.value)])
            && Formats.Encode([letter], [Real(datum.value)]) == BigEndian(w, i)
  {
    hide Pow2, StandardValue, BigEndian, FromBigEndian, Decode, Encode, Representable;
    AgreesWithStandard(sign, exp, m, 8 * w, e);
    PatternFields(sign, exp, m, 8 * w, e);
    var f := Decode(i, 8 * w, e);
    EncodeDecode(i, 8 * w, e, FloatHalf(8 * w - e - 1));
    BigEndianValue(w, i);
    SmallMod(i, Pow2(8 * w));
    assert (BigEndian(w, i) + tail)[..w] == BigEndian(w, i);
    assert [letter][1..] == "" && [Real(f)][1..] == [];
    assert BigEndian(w, i) + [] == BigEndian(w, i);
  }

  lemma FieldPowers()
    ensures Pow2(5) == 0x20 && Pow2(8) == 0x100 && Pow2(11) == 0x800
    ensures Pow2(10) == 0x400 && Pow2(23) == 0x80_0000 && Pow2(52) == 0x10_0000_0000_0000
  {
    Pow2Constants();
    Pow2Add(1, 22);
    Pow2Add(22, 22);
    Pow2Add(44, 8);
    assert Pow2(5) == 0x20;
    assert Pow2(11) == 0x40 * Pow2(5) by { Pow2Add(6, 5); }
    assert Pow2(10) == Pow2(5) * Pow2(5) by { Pow2Add(5, 5); }
  }
}
