/** pack and unpack as the loops over the format that move a cursor through a byte buffer. */
module PackLoops {
  import opened Words
  import opened Common
  import opened Codec
  import opened Formats
  import Float754
  import FloatLoops

  /** The buffer s with the bytes b written over it from position at. */
  ghost function Written(s: seq<byte>, at: nat, b: seq<byte>): (r: seq<byte>)
    requires at + |b| <= |s|
    ensures |r| == |s|
  {
    s[..at] + b + s[at + |b|..]
  }

  lemma WrittenTwice(s: seq<byte>, at: nat, b: seq<byte>, c: seq<byte>)
    requires at + |b| + |c| <= |s|
    ensures Written(Written(s, at, b), at + |b|, c) == Written(s, at, b + c)
  {
  }

  lemma WrittenNothing(s: seq<byte>, at: nat)
    requires at <= |s|
    ensures Written(s, at, []) == s
  {
  }

  /** packi16, packi32 and packi64 */
  method PackI16(buf: array<byte>, at: nat, i: int)
    requires at + 2 <= buf.Length
    modifies buf
    ensures buf[..] == Written(old(buf[..]), at, BigEndian(2, i))
  {
    BytesOfTwo(i);
    buf[at], buf[at + 1] := i / 0x100 % 0x100, i % 0x100;
  }

  lemma BytesOfTwo(i: int)
    ensures BigEndian(2, i) == [i / 0x100 % 0x100, i % 0x100]
  {
    assert BigEndian(1, i / 0x100) == [i / 0x100 % 0x100];
  }

  lemma BytesOfHalves(n: nat, m: nat, i: int)
    ensures BigEndian(n + m, i) == BigEndian(n, i / Pow2(8 * m)) + BigEndian(m, i)
    decreases m
  {
    if m == 0 {
      assert BigEndian(m, i) == [];
    } else {
      hide Pow2;
      BytesOfHalves(n, m - 1, i / 0x100);
      Pow2Step(m - 1);
      DivTwice(i, Pow2(8 * (m - 1)));
    }
  }

  method PackI32(buf: array<byte>, at: nat, i: int)
    requires at + 4 <= buf.Length
    modifies buf
    ensures buf[..] == Written(old(buf[..]), at, BigEndian(4, i))
  {
    BytesOfHalves(2, 2, i);
    BytesOfTwo(i / 0x1_0000);
    BytesOfTwo(i);
    Pow2Constants();
    buf[at], buf[at + 1] := i / 0x1_0000 / 0x100 % 0x100, i / 0x1_0000 % 0x100;
    buf[at + 2], buf[at + 3] := i / 0x100 % 0x100, i % 0x100;
  }

  method PackI64(buf: array<byte>, at: nat, i: int)
    requires at + 8 <= buf.Length
    modifies buf
    ensures buf[..] == Written(old(buf[..]), at, BigEndian(8, i))
  {
    BytesOfHalves(4, 4, i);
    Pow2Constants();
    ghost var s := buf[..];
    PackI32(buf, at, i / TWO_32);
    PackI32(buf, at + 4, i);
    WrittenTwice(s, at, BigEndian(4, i / TWO_32), BigEndian(4, i));
  }

  /** One integer of w bytes. */
  method PackInt(buf: array<byte>, at: nat, w: nat, i: int)
    requires w in {1, 2, 4, 8} && at + w <= buf.Length
    modifies buf
    ensures buf[..] == Written(old(buf[..]), at, BigEndian(w, i))
  {
    if w == 1 {
      assert BigEndian(1, i) == [i % 0x100];
      buf[at] := i % 0x100;
    } else if w == 2 {
      PackI16(buf, at, i);
    } else if w == 4 {
      PackI32(buf, at, i);
    } else {
      PackI64(buf, at, i);
    }
  }

  /** One pass of the switch in pack: writes the field at the cursor and returns its size. */
  method PackField(buf: array<byte>, at: nat, k: Kind, v: Value) returns (n: nat)
    requires WellFormed(k) && Typed(k, v) && (k.Float? ==> k.w in {2, 4, 8})
    requires at + |EncodeField(k, v)| <= buf.Length
    modifies buf
    ensures n == |EncodeField(k, v)|
    ensures buf[..] == Written(old(buf[..]), at, EncodeField(k, v))
  {
    match k
    case Signed(w) =>
      PackInt(buf, at, w, v.i);
      n := w;
    case Unsigned(w) =>
      PackInt(buf, at, w, v.i);
      n := w;
    case Float(w, e) =>
      var fhold := FloatLoops.Pack754(v.r, 8 * w, e, Float754.FloatHalf(8 * w - e - 1));
      PackInt(buf, at, w, fhold);
      n := w;
    case Text =>
      var len := |v.text|;
      ghost var s := buf[..];
      PackI16(buf, at, len);
      CopyBytes(buf, at + 2, v.text);
      WrittenTwice(s, at, BigEndian(2, len), v.text);
      n := len + 2;
  }

  /** memcpy into the buffer. */
  method CopyBytes(buf: array<byte>, at: nat, src: seq<byte>)
    requires at + |src| <= buf.Length
    modifies buf
    ensures buf[..] == Written(old(buf[..]), at, src)
  {
    forall i | 0 <= i < |src| {
      buf[at + i] := src[i];
    }
  }

  lemma EncodeSuffix(fmt: string, args: seq<Value>, i: nat, j: nat)
    requires i < |fmt| && j <= |args| && Accepts(fmt[i..], args[j..])
    ensures fmt[i..][1..] == fmt[i + 1..]
    ensures KindOf(fmt[i]).Other? ==>
              Accepts(fmt[i + 1..], args[j..]) && Encode(fmt[i..], args[j..]) == Encode(fmt[i + 1..], args[j..])
    ensures !KindOf(fmt[i]).Other? ==>
              && j < |args| && args[j..][1..] == args[j + 1..]
              && Typed(KindOf(fmt[i]), args[j]) && Accepts(fmt[i + 1..], args[j + 1..])
              && Encode(fmt[i..], args[j..]) == EncodeField(KindOf(fmt[i]), args[j]) + Encode(fmt[i + 1..], args[j + 1..])
  {
  }

  lemma KindFloatWidth(ch: char)
    ensures KindOf(ch).Float? ==> KindOf(ch).w in {2, 4, 8}
  {
  }

  /** pack: writes exactly the encoding at start, touches nothing else, and returns its length in 32 bits. */
  method Pack(buf: array<byte>, start: nat, format: string, args: seq<Value>) returns (size: u32)
    requires Accepts(format, args) && start + |Encode(format, args)| <= buf.Length
    modifies buf
    ensures size == U32(|Encode(format, args)|)
    ensures buf[..] == Written(old(buf[..]), start, Encode(format, args))
  {
    hide EncodeField, KindOf, Typed, Encode, Accepts, Written;
    size := 0;
    var at, j := start, 0;
    ghost var s, done := buf[..], [];
    assert format[0..] == format && args[0..] == args;
    WrittenNothing(s, start);
    for i := 0 to |format|
      invariant j <= |args| && Accepts(format[i..], args[j..])
      invariant done + Encode(format[i..], args[j..]) == Encode(format, args)
      invariant at == start + |done| && size == U32(|done|)
      invariant buf[..] == Written(s, start, done)
    {
      EncodeSuffix(format, args, i, j);
      var k := KindOf(format[i]);
      if !k.Other? {
        KindFloatWidth(format[i]);
        ghost var e := EncodeField(k, args[j]);
        ghost var rest := Encode(format[i + 1..], args[j + 1..]);
        assert done + (e + rest) == done + e + rest;
        var n := PackField(buf, at, k, args[j]);
        WrittenTwice(s, start, done, e);
        U32Sum(|done|, n);
        size := U32(size + n);
        at, j := at + n, j + 1;
        done := done + e;
      }
    }
    assert format[|format|..] == "";
    EncodeEmpty(args[j..]);
    assert done + [] == done;
  }

  lemma U32Sum(a: nat, b: nat)
    ensures U32(U32(a) + b) == U32(a + b)
  {
  }

  lemma EncodeEmpty(args: seq<Value>)
    requires Accepts("", args)
    ensures Encode("", args) == []
  {
  }

  /** One pass of the switch in unpack: the value at the cursor and the distance the cursor moves. */
  method UnpackField(buf: array<byte>, at: nat, k: Kind, max: u32) returns (v: Value, n: nat)
    requires at <= buf.Length && WellFormed(k) && DecodeField(k, max, buf[at..]).Some?
    ensures DecodeField(k, max, buf[at..]) == Some((v, n))
  {
    hide FromBigEndian, Pow2, Float754.Decode, ToSigned;
    match k
    case Signed(w) =>
      SliceOfSuffix(buf[..], at, 0, w);
      var u := FromBigEndian(buf[at..at + w]);
      FromBigEndianBound(buf[at..at + w]);
      v, n := Int(ToSigned(u, w)), w;
      if w == 1 && u > 0x7f {
        n := 0;
      }
    case Unsigned(w) =>
      SliceOfSuffix(buf[..], at, 0, w);
      v, n := Int(FromBigEndian(buf[at..at + w])), w;
    case Float(w, e) =>
      SliceOfSuffix(buf[..], at, 0, w);
      FromBigEndianBound(buf[at..at + w]);
      var f := FloatLoops.Unpack754(FromBigEndian(buf[at..at + w]), 8 * w, e);
      v, n := Real(f), w;
    case Text =>
      SliceOfSuffix(buf[..], at, 0, 2);
      var len := FromBigEndian(buf[at..at + 2]);
      var count := if max > 0 && len > max then max - 1 else len;
      SliceOfSuffix(buf[..], at, 2, 2 + count);
      v, n := Str(buf[at + 2..at + 2 + count]), 2 + len;
  }

  lemma SliceOfSuffix(s: seq<byte>, at: nat, lo: nat, hi: nat)
    requires lo <= hi && at + hi <= |s|
    ensures s[at..][lo..hi] == s[at + lo..at + hi]
  {
  }

  lemma DecodeSuffix(fmt: string, i: nat, max: u32, b: seq<byte>)
    requires i < |fmt|
    ensures fmt[i..][1..] == fmt[i + 1..]
    ensures KindOf(fmt[i]).Other? ==> Decode(fmt[i..], max, b) == Decode(fmt[i + 1..], NextBound(max, fmt[i]), b)
    ensures !KindOf(fmt[i]).Other? && Decode(fmt[i..], max, b).Ok? ==>
              var r := DecodeField(KindOf(fmt[i]), max, b);
              && r.Some? && !IsDigit(fmt[i])
              && Decode(fmt[i + 1..], 0, b[r.value.1..]).Ok?
              && Decode(fmt[i..], max, b) == Ok([r.value.0] + Decode(fmt[i + 1..], 0, b[r.value.1..]).values)
  {
  }

  /** unpack: stores the values of the bytes from start on, provided no read leaves the buffer. */
  method Unpack(buf: array<byte>, start: nat, format: string) returns (values: seq<Value>)
    requires start <= buf.Length && Decode(format, 0, buf[start..]).Ok?
    ensures Decode(format, 0, buf[start..]) == Ok(values)
  {
    hide DecodeField, KindOf, Decode;
    values := [];
    var at: nat := start;
    var maxstrlen: u32 := 0;
    assert format[0..] == format;
    ghost var all := Decode(format, 0, buf[start..]).values;
    for i := 0 to |format|
      invariant at <= buf.Length
      invariant Decode(format[i..], maxstrlen, buf[at..]).Ok?
      invariant values + Decode(format[i..], maxstrlen, buf[at..]).values == all
    {
      DecodeSuffix(format, i, maxstrlen, buf[at..]);
      var k := KindOf(format[i]);
      if !k.Other? {
        var v, n := UnpackField(buf, at, k, maxstrlen);
        assert buf[at..][n..] == buf[at + n..];
        assert values + ([v] + Decode(format[i + 1..], 0, buf[at + n..]).values)
            == values + [v] + Decode(format[i + 1..], 0, buf[at + n..]).values;
        values := values + [v];
        at := at + n;
      } else if IsDigit(format[i]) {
        maxstrlen := U32(maxstrlen * 10 + (format[i] - '0') as int);
      }
      if !IsDigit(format[i]) {
        maxstrlen := 0;
      }
    }
    assert format[|format|..] == "";
    DecodeEmpty(maxstrlen, buf[at..]);
    assert values + [] == values;
  }

  lemma DecodeEmpty(max: u32, b: seq<byte>)
    ensures Decode("", max, b) == Ok([])
  {
  }
}
