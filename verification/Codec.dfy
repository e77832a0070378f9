/** The format language of pack and unpack: what a format and its arguments put on the wire, and what comes back. */
module Codec {
  import opened Words
  import opened Common
  import Float754

  /** One argument of pack, or one value stored by unpack. A string is the bytes before its terminator. */
  datatype Value = Int(i: int) | Real(r: real) | Str(text: seq<byte>)

  /** What a format character asks for; widths in bytes. */
  datatype Kind = Signed(w: nat) | Unsigned(w: nat) | Float(w: nat, e: nat) | Text | Other

  function KindOf(ch: char): (k: Kind)
    ensures k.Signed? || k.Unsigned? ==> k.w in {1, 2, 4, 8}
    ensures k.Float? ==> Float754.Widths(8 * k.w, k.e)
  {
    match ch
    case 'c' => Signed(1)
    case 'C' => Unsigned(1)
    case 'h' => Signed(2)
    case 'H' => Unsigned(2)
    case 'l' => Signed(4)
    case 'L' => Unsigned(4)
    case 'q' => Signed(8)
    case 'Q' => Unsigned(8)
    case 'f' => Float(2, 5)
    case 'd' => Float(4, 8)
    case 'g' => Float(8, 11)
    case 's' => Text
    case _ => Other
  }

  predicate IsDigit(ch: char) {
    '0' <= ch <= '9'
  }

  predicate WellFormed(k: Kind) {
    (k.Signed? || k.Unsigned? ==> k.w in {1, 2, 4, 8}) && (k.Float? ==> Float754.Widths(8 * k.w, k.e))
  }

  predicate Typed(k: Kind, v: Value) {
    match k
    case Signed(_) => v.Int?
    case Unsigned(_) => v.Int?
    case Float(_, _) => v.Real?
    case Text => v.Str?
    case Other => false
  }

  // ---------------------------------------------------------------- one field

  ghost function EncodeField(k: Kind, v: Value): seq<byte>
    requires WellFormed(k) && Typed(k, v)
  {
    match k
    case Signed(w) => BigEndian(w, v.i)
    case Unsigned(w) => BigEndian(w, v.i)
    case Float(w, e) => BigEndian(w, Float754.Encode(v.r, 8 * w, e, Float754.FloatHalf(8 * w - e - 1)))
    case Text => BigEndian(2, |v.text|) + v.text
  }

  /** Two's-complement reading of a w-byte word, without leaving the range of the signed type. */
  function ToSigned(u: nat, w: nat): int
    requires w > 0 && u < Pow2(8 * w)
  {
    if u <= Pow2(8 * w - 1) - 1 then u else -1 - (Pow2(8 * w) - 1 - u)
  }

  /** The number of bytes copied out of a packed string of length len under the bound max (0: no bound). */
  function CopyCount(len: nat, max: nat): (n: nat)
    ensures n <= len
  {
    if max > 0 && len > max then max - 1 else len
  }

  /** The value read at the front of b and how far the cursor moves; None when the read leaves the buffer.
      A negative `c` leaves the cursor where it was. */
  function DecodeField(k: Kind, max: nat, b: seq<byte>): (r: Option<(Value, nat)>)
    requires WellFormed(k)
    ensures r.Some? ==> r.value.1 <= |b|
  {
    match k
    case Signed(w) =>
      if |b| < w then None
      else
        var u := FromBigEndian(b[..w]);
        FromBigEndianBound(b[..w]);
        Some((Int(ToSigned(u, w)), if w == 1 && u > 0x7f then 0 else w))
    case Unsigned(w) =>
      if |b| < w then None else Some((Int(FromBigEndian(b[..w])), w))
    case Float(w, e) =>
      if |b| < w then None else Some((Real(Float754.Decode(FromBigEndian(b[..w]), 8 * w, e)), w))
    case Text =>
      if |b| < 2 then None
      else
        var len := FromBigEndian(b[..2]);
        if |b| < 2 + len then None else Some((Str(b[2..2 + CopyCount(len, max)]), 2 + len))
    case Other => None
  }

  /** The values the field can carry unchanged. */
  ghost predicate Fits(k: Kind, v: Value)
    requires WellFormed(k) && Typed(k, v)
  {
    match k
    case Signed(w) => 0 - Pow2(8 * w - 1) <= v.i < Pow2(8 * w - 1)
    case Unsigned(w) => 0 <= v.i < Pow2(8 * w)
    case Float(w, e) => Float754.Representable(v.r, 8 * w, e)
    case Text => |v.text| <= 0xffff
  }

  function Clip(v: Value, max: nat): Value {
    if v.Str? then Str(v.text[..CopyCount(|v.text|, max)]) else v
  }

  predicate Lags(k: Kind, v: Value) {
    k == Signed(1) && v.Int? && v.i < 0
  }

  lemma HalfPow(w: nat)
    requires w > 0
    ensures Pow2(8 * w) == 2 * Pow2(8 * w - 1)
  {
  }

  lemma SignedRoundTrip(w: nat, i: int)
    requires w > 0 && 0 - Pow2(8 * w - 1) <= i < Pow2(8 * w - 1)
    ensures var u := FromBigEndian(BigEndian(w, i));
            u < Pow2(8 * w) && ToSigned(u, w) == i && (w == 1 ==> (u > 0x7f <==> i < 0))
  {
    hide Pow2;
    var p := Pow2(8 * w);
    HalfPow(w);
    BigEndianValue(w, i);
    if i >= 0 {
      DivModUnique(i, p, 0, i);
    } else {
      DivModUnique(i, p, -1, i + p);
    }
    Pow2Constants();
  }

  lemma UnsignedRoundTrip(w: nat, i: nat)
    requires i < Pow2(8 * w)
    ensures FromBigEndian(BigEndian(w, i)) == i
  {
    hide Pow2;
    BigEndianValue(w, i);
    DivModUnique(i, Pow2(8 * w), 0, i);
  }

  /** A field that fits reads back as itself, clipped to the bound, and moves the cursor past it unless it lags. */
  lemma DecodeEncodeField(k: Kind, v: Value, max: nat, tail: seq<byte>)
    requires WellFormed(k) && Typed(k, v) && Fits(k, v)
    ensures DecodeField(k, max, EncodeField(k, v) + tail)
         == Some((Clip(v, max), if Lags(k, v) then 0 else |EncodeField(k, v)|))
  {
    hide Float754.Encode, Float754.Decode, Float754.Representable, Pow2, BigEndian, FromBigEndian, ToSigned;
    var b := EncodeField(k, v) + tail;
    match k
    case Signed(w) =>
      assert b[..w] == BigEndian(w, v.i);
      SignedRoundTrip(w, v.i);
    case Unsigned(w) =>
      assert b[..w] == BigEndian(w, v.i);
      UnsignedRoundTrip(w, v.i);
    case Float(w, e) =>
      var h := Float754.FloatHalf(8 * w - e - 1);
      assert b[..w] == BigEndian(w, Float754.Encode(v.r, 8 * w, e, h));
      FloatRoundTrip(v.r, w, e, h);
    case Text =>
      Pow2Constants();
      UnsignedRoundTrip(2, |v.text|);
      assert b[..2] == BigEndian(2, |v.text|);
      assert b[2..2 + CopyCount(|v.text|, max)] == v.text[..CopyCount(|v.text|, max)];
  }

  lemma FloatRoundTrip(r: real, w: nat, e: nat, h: real)
    requires Float754.Widths(8 * w, e) && 0.0 <= h <= 0.5 && Float754.Representable(r, 8 * w, e)
    ensures Float754.Decode(FromBigEndian(BigEndian(w, Float754.Encode(r, 8 * w, e, h))), 8 * w, e) == r
  {
    hide Float754.Encode, Float754.Decode, Float754.Representable, Pow2;
    BigEndianValue(w, Float754.Encode(r, 8 * w, e, h));
    Float754.DecodeStored(r, 8 * w, e, h);
  }

  /** Whatever bytes a field is read from, the value fits and would be packed as those very bytes. */
  lemma EncodeDecodeField(k: Kind, b: seq<byte>)
    requires WellFormed(k) && DecodeField(k, 0, b).Some?
    ensures var v := DecodeField(k, 0, b).value.0;
            Typed(k, v) && Fits(k, v) && EncodeField(k, v) <= b
  {
    hide Float754.Encode, Float754.Decode, Float754.Representable, Float754.FloatHalf;
    hide Pow2, BigEndian, FromBigEndian, ToSigned;
    match k
    case Signed(w) =>
      ReadSigned(w, b[..w]);
    case Unsigned(w) =>
      ReadUnsigned(b[..w]);
    case Float(w, e) =>
      ReadFloat(w, e, b[..w]);
    case Text =>
      ReadUnsigned(b[..2]);
      Pow2Constants();
      var len := FromBigEndian(b[..2]);
      assert b[..2] + b[2..2 + len] == b[..2 + len];
  }

  lemma ReadUnsigned(b: seq<byte>)
    ensures FromBigEndian(b) < Pow2(8 * |b|) && BigEndian(|b|, FromBigEndian(b)) == b
  {
    hide Pow2;
    FromBigEndianBound(b);
    SmallMod(FromBigEndian(b), Pow2(8 * |b|));
    BigEndianBytes(b, FromBigEndian(b));
  }

  lemma ReadSigned(w: nat, b: seq<byte>)
    requires w == |b| > 0
    ensures FromBigEndian(b) < Pow2(8 * w)
    ensures var i := ToSigned(FromBigEndian(b), w);
            0 - Pow2(8 * w - 1) <= i < Pow2(8 * w - 1) && BigEndian(w, i) == b
  {
    hide Pow2;
    var p, u := Pow2(8 * w), FromBigEndian(b);
    FromBigEndianBound(b);
    HalfPow(w);
    var i := ToSigned(u, w);
    DivModUnique(i, p, if i == u then 0 else -1, u);
    BigEndianBytes(b, i);
  }

  lemma ReadFloat(w: nat, e: nat, b: seq<byte>)
    requires w == |b| && Float754.Widths(8 * w, e)
    ensures var r := Float754.Decode(FromBigEndian(b), 8 * w, e);
            && Float754.Representable(r, 8 * w, e)
            && BigEndian(w, Float754.Encode(r, 8 * w, e, Float754.FloatHalf(8 * w - e - 1))) == b
  {
    hide Float754.Encode, Float754.Decode, Float754.Representable, Pow2;
    FromBigEndianBound(b);
    Float754.DecodeRepresentable(FromBigEndian(b), 8 * w, e);
    Float754.EncodeDecode(FromBigEndian(b), 8 * w, e, Float754.FloatHalf(8 * w - e - 1));
    ReadUnsigned(b);
  }

  /** The documented table of formats: the width of every letter and the integers it carries. */
  lemma DocumentedTable(ch: char, v: Value)
    requires Typed(KindOf(ch), v)
    ensures v.Int? ==> (Fits(KindOf(ch), v) <==>
              match ch
              case 'c' => -0x80 <= v.i <= 0x7f
              case 'C' => 0 <= v.i <= 0xff
              case 'h' => -0x8000 <= v.i <= 0x7fff
              case 'H' => 0 <= v.i <= 0xffff
              case 'l' => -0x8000_0000 <= v.i <= 0x7fff_ffff
              case 'L' => 0 <= v.i <= 0xffff_ffff
              case 'q' => -0x8000_0000_0000_0000 <= v.i <= 0x7fff_ffff_ffff_ffff
              case 'Q' => 0 <= v.i <= 0xffff_ffff_ffff_ffff
              case _ => false)
    ensures |EncodeField(KindOf(ch), v)| ==
              match ch
              case 'c' => 1 case 'C' => 1
              case 'h' => 2 case 'H' => 2 case 'f' => 2
              case 'l' => 4 case 'L' => 4 case 'd' => 4
              case 'q' => 8 case 'Q' => 8 case 'g' => 8
              case _ => if v.Str? then |v.text| + 2 else 0
  {
    Pow2Constants();
    Pow2Halves();
  }

  lemma Pow2Halves()
    ensures Pow2(7) == 0x80 && Pow2(15) == 0x8000 && Pow2(31) == 0x8000_0000 && Pow2(63) == 0x8000_0000_0000_0000
  {
    Pow2Constants();
    HalfPow(1);
    HalfPow(2);
    HalfPow(4);
    HalfPow(8);
  }
}
