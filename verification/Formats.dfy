/** Whole formats: what pack writes, what unpack reads back, and exactly when the two agree. */
module Formats {
  import opened Words
  import opened Codec

  predicate CString(v: Value) {
    v.Str? ==> 0 !in v.text
  }

  /** The arguments are those the format asks for, strings being NUL-free. */
  predicate Accepts(fmt: string, args: seq<Value>) {
    if fmt == "" then args == []
    else if KindOf(fmt[0]).Other? then Accepts(fmt[1..], args)
    else args != [] && Typed(KindOf(fmt[0]), args[0]) && CString(args[0]) && Accepts(fmt[1..], args[1..])
  }

  ghost function Encode(fmt: string, args: seq<Value>): seq<byte>
    requires Accepts(fmt, args)
  {
    if fmt == "" then []
    else if KindOf(fmt[0]).Other? then Encode(fmt[1..], args)
    else EncodeField(KindOf(fmt[0]), args[0]) + Encode(fmt[1..], args[1..])
  }

  datatype Decoded = Ok(values: seq<Value>) | Overrun

  /** The running bound on string length: digits accumulate in 32 bits, anything else clears it. */
  function NextBound(max: u32, ch: char): u32 {
    if IsDigit(ch) then U32(max * 10 + (ch - '0') as int) else 0
  }

  function Decode(fmt: string, max: u32, b: seq<byte>): Decoded {
    if fmt == "" then Ok([])
    else
      var k := KindOf(fmt[0]);
      if k.Other? then Decode(fmt[1..], NextBound(max, fmt[0]), b)
      else
        match DecodeField(k, max, b)
        case None => Overrun
        case Some((v, n)) =>
          match Decode(fmt[1..], 0, b[n..])
          case Overrun => Overrun
          case Ok(vs) => Ok([v] + vs)
  }

  ghost predicate AllFit(fmt: string, args: seq<Value>)
    requires Accepts(fmt, args)
  {
    if fmt == "" then true
    else if KindOf(fmt[0]).Other? then AllFit(fmt[1..], args)
    else Fits(KindOf(fmt[0]), args[0]) && AllFit(fmt[1..], args[1..])
  }

  /** The arguments with every string clipped to the bound written in front of its `s`. */
  function Clipped(fmt: string, max: u32, args: seq<Value>): seq<Value>
    requires Accepts(fmt, args)
  {
    if fmt == "" then []
    else if KindOf(fmt[0]).Other? then Clipped(fmt[1..], NextBound(max, fmt[0]), args)
    else [Clip(args[0], max)] + Clipped(fmt[1..], 0, args[1..])
  }

  /** No field follows a negative `c`, after which unpack reads one byte behind. */
  predicate NegativeOnlyLast(fmt: string, args: seq<Value>)
    requires Accepts(fmt, args)
  {
    if fmt == "" then true
    else if KindOf(fmt[0]).Other? then NegativeOnlyLast(fmt[1..], args)
    else (Lags(KindOf(fmt[0]), args[0]) ==> args[1..] == []) && NegativeOnlyLast(fmt[1..], args[1..])
  }

  lemma {:induction false} DecodeNothing(fmt: string, max: u32, b: seq<byte>)
    requires Accepts(fmt, [])
    ensures Decode(fmt, max, b) == Ok([]) && Clipped(fmt, max, []) == []
  {
    if fmt == "" {
    } else {
      DecodeNothing(fmt[1..], NextBound(max, fmt[0]), b);
    }
  }

  /** unpack after pack, whatever the bounds in the format and whatever follows the packed bytes. */
  lemma {:induction false} RoundTrip(fmt: string, max: u32, args: seq<Value>, tail: seq<byte>)
    requires Accepts(fmt, args) && AllFit(fmt, args) && NegativeOnlyLast(fmt, args)
    ensures Decode(fmt, max, Encode(fmt, args) + tail) == Ok(Clipped(fmt, max, args))
  {
    hide EncodeField, DecodeField, Fits, Lags, Clip;
    if fmt == "" {
    } else {
      var k := KindOf(fmt[0]);
      if k.Other? {
        RoundTrip(fmt[1..], NextBound(max, fmt[0]), args, tail);
      } else {
        var e, rest := EncodeField(k, args[0]), Encode(fmt[1..], args[1..]);
        var b := Encode(fmt, args) + tail;
        assert b == e + (rest + tail);
        DecodeEncodeField(k, args[0], max, rest + tail);
        if Lags(k, args[0]) {
          DecodeNothing(fmt[1..], 0, b[0..]);
        } else {
          assert b[|e|..] == rest + tail;
          RoundTrip(fmt[1..], 0, args[1..], tail);
        }
      }
    }
  }

  // ---------------------------------------------------------------- the exact condition

  predicate NoBounds(fmt: string) {
    forall ch | ch in fmt :: !IsDigit(ch)
  }

  predicate Constant(s: seq<byte>, b: byte) {
    forall i | 0 <= i < |s| :: s[i] == b
  }

  /** The bound in front of a string does not cut it. */
  predicate Whole(v: Value, max: nat) {
    v.Str? ==> max == 0 || |v.text| <= max
  }

  /** Every field fits, no string is longer than its bound, and once a `c` is negative everything packed after it
      repeats its byte. */
  ghost predicate Recoverable(fmt: string, max: u32, args: seq<Value>)
    requires Accepts(fmt, args)
  {
    if fmt == "" then true
    else if KindOf(fmt[0]).Other? then Recoverable(fmt[1..], NextBound(max, fmt[0]), args)
    else
      Fits(KindOf(fmt[0]), args[0]) && Whole(args[0], max) &&
      if Lags(KindOf(fmt[0]), args[0]) then
        AllFit(fmt[1..], args[1..]) && Constant(Encode(fmt[1..], args[1..]), args[0].i % 0x100)
      else Recoverable(fmt[1..], 0, args[1..])
  }

  /** No string after a negative `c` has a bound. */
  predicate BoundsBeforeLag(fmt: string, args: seq<Value>)
    requires Accepts(fmt, args)
  {
    if fmt == "" then true
    else if KindOf(fmt[0]).Other? then BoundsBeforeLag(fmt[1..], args)
    else (Lags(KindOf(fmt[0]), args[0]) ==> NoBounds(fmt[1..])) && BoundsBeforeLag(fmt[1..], args[1..])
  }

  function Repeat(b: byte, n: nat): (s: seq<byte>)
    ensures |s| == n && Constant(s, b)
  {
    seq(n, i => b)
  }

  lemma ClipNothing(v: Value)
    ensures Clip(v, 0) == v
  {
    if v.Str? {
      assert v.text[..|v.text|] == v.text;
    }
  }

  /** A byte string that starts one or more b's behind itself is all b's. */
  lemma {:induction false} ShiftedPrefix(e: seq<byte>, b: byte, j: nat, rest: seq<byte>, n: nat)
    requires j >= 1 && e <= Repeat(b, j) + e + rest && n <= |e|
    ensures Constant(e[..n], b)
  {
    if n == 0 {
    } else {
      ShiftedPrefix(e, b, j, rest, n - 1);
      var s := Repeat(b, j) + e + rest;
      assert e[n - 1] == s[n - 1];
      if n - 1 >= j {
        assert s[n - 1] == e[n - 1 - j] == e[..n - 1][n - 1 - j];
      }
    }
  }

  lemma ConstantShift(e: seq<byte>, b: byte, j: nat)
    requires Constant(e, b)
    ensures Repeat(b, j) + e == e + Repeat(b, j)
    ensures |e| == 1 ==> Repeat(b, j) + e == Repeat(b, j + 1)
  {
  }

  lemma ConstantConcat(s: seq<byte>, t: seq<byte>, b: byte)
    ensures Constant(s + t, b) <==> Constant(s, b) && Constant(t, b)
  {
    if Constant(s + t, b) {
      forall i | 0 <= i < |s| ensures s[i] == b { assert (s + t)[i] == b; }
      forall i | 0 <= i < |t| ensures t[i] == b { assert (s + t)[|s| + i] == b; }
    }
  }

  /** Reading a `c` from a byte of 0x80 or more gives a negative number. */
  lemma NegativeByte(k: Kind, v: Value, b: byte)
    requires WellFormed(k) && Typed(k, v) && Fits(k, v) && b >= 0x80
    requires |EncodeField(k, v)| > 0 && Constant(EncodeField(k, v), b)
    ensures Lags(k, v) <==> k == Signed(1)
    ensures k == Signed(1) ==> |EncodeField(k, v)| == 1
  {
    if k == Signed(1) {
      assert EncodeField(k, v) == BigEndian(1, v.i);
      SignedRoundTrip(1, v.i);
      var e := BigEndian(1, v.i);
      assert e[0] == b;
      assert FromBigEndian(e[..0]) == 0;
    }
  }

  lemma FieldNonempty(k: Kind, v: Value)
    requires WellFormed(k) && Typed(k, v)
    ensures |EncodeField(k, v)| > 0
  {
  }

  /** Behind by j bytes of value b, unpack recovers the arguments exactly when everything packed is b's. */
  lemma {:induction false} LagExactly(fmt: string, args: seq<Value>, b: byte, j: nat, tail: seq<byte>)
    requires Accepts(fmt, args) && NoBounds(fmt) && b >= 0x80 && j >= 1
    ensures Decode(fmt, 0, Repeat(b, j) + Encode(fmt, args) + tail) == Ok(args)
       <==> AllFit(fmt, args) && Constant(Encode(fmt, args), b)
    decreases fmt
  {
    hide EncodeField, DecodeField, Fits, Lags;
    if fmt == "" {
    } else if KindOf(fmt[0]).Other? {
      LagExactly(fmt[1..], args, b, j, tail);
    } else {
      var k, v := KindOf(fmt[0]), args[0];
      var e, rest := EncodeField(k, v), Encode(fmt[1..], args[1..]);
      var s := Repeat(b, j) + Encode(fmt, args) + tail;
      assert s == Repeat(b, j) + e + (rest + tail);
      ConstantConcat(e, rest, b);
      if Fits(k, v) && Constant(e, b) {
        LagStep(k, v, b, j, rest + tail);
        var n := if Lags(k, v) then j + 1 else j;
        assert Repeat(b, n) + (rest + tail) == Repeat(b, n) + rest + tail;
        LagExactly(fmt[1..], args[1..], b, n, tail);
        ConsEqual(args);
      } else {
        LagMismatch(k, v, b, j, rest + tail);
        ConsDifferent(fmt, 0, args, s);
      }
    }
  }

  lemma ConsEqual(args: seq<Value>)
    requires args != []
    ensures forall vs :: [args[0]] + vs == args <==> vs == args[1..]
  {
    forall vs ensures [args[0]] + vs == args <==> vs == args[1..] {
      assert ([args[0]] + vs)[1..] == vs;
      assert args == [args[0]] + args[1..];
    }
  }

  /** A first field that reads back differently spoils the whole result. */
  lemma ConsDifferent(fmt: string, max: u32, args: seq<Value>, s: seq<byte>)
    requires fmt != "" && args != [] && !KindOf(fmt[0]).Other?
    requires var r := DecodeField(KindOf(fmt[0]), max, s); r.None? || r.value.0 != args[0]
    ensures Decode(fmt, max, s) != Ok(args)
  {
    hide DecodeField;
    var d := Decode(fmt, max, s);
    if d.Ok? {
      assert d.values[0] == DecodeField(KindOf(fmt[0]), max, s).value.0;
    }
  }

  lemma LagStep(k: Kind, v: Value, b: byte, j: nat, t: seq<byte>)
    requires WellFormed(k) && Typed(k, v) && Fits(k, v) && b >= 0x80 && Constant(EncodeField(k, v), b)
    ensures var r := DecodeField(k, 0, Repeat(b, j) + EncodeField(k, v) + t);
            && r.Some? && r.value.0 == v
            && (Repeat(b, j) + EncodeField(k, v) + t)[r.value.1..] == Repeat(b, if Lags(k, v) then j + 1 else j) + t
  {
    hide DecodeField, EncodeField, Fits, Lags;
    var e := EncodeField(k, v);
    FieldNonempty(k, v);
    NegativeByte(k, v, b);
    ConstantShift(e, b, j);
    DecodeEncodeField(k, v, 0, Repeat(b, j) + t);
    ClipNothing(v);
    var s := Repeat(b, j) + e + t;
    assert s == e + (Repeat(b, j) + t);
    if !Lags(k, v) {
      assert s[|e|..] == Repeat(b, j) + t;
    } else {
      assert s[0..] == s;
      LagsIsC(k, v);
    }
  }

  lemma LagMismatch(k: Kind, v: Value, b: byte, j: nat, t: seq<byte>)
    requires WellFormed(k) && Typed(k, v) && j >= 1
    requires !Fits(k, v) || !Constant(EncodeField(k, v), b)
    ensures var r := DecodeField(k, 0, Repeat(b, j) + EncodeField(k, v) + t); r.None? || r.value.0 != v
  {
    hide DecodeField, EncodeField, Fits;
    var e := EncodeField(k, v);
    var s := Repeat(b, j) + e + t;
    if DecodeField(k, 0, s).Some? {
      EncodeDecodeField(k, s);
      if e <= s {
        ShiftedPrefix(e, b, j, t, |e|);
        assert e[..|e|] == e;
      }
    }
  }

  lemma LagsIsC(k: Kind, v: Value)
    requires Lags(k, v)
    ensures k == Signed(1) && v.Int?
  {
  }

  /** A string comes back as it was if and only if its bound does not cut it. */
  lemma ClipWhole(v: Value, max: nat)
    ensures Clip(v, max) == v <==> Whole(v, max)
  {
    if v.Str? {
      assert v.text[..|v.text|] == v.text;
    }
  }

  /** No bound makes a value fit that does not. */
  lemma MisfitField(k: Kind, v: Value, max: nat, s: seq<byte>)
    requires WellFormed(k) && Typed(k, v) && !Fits(k, v)
    ensures var r := DecodeField(k, max, s); r.None? || r.value.0 != v
  {
    hide Float754.Decode, Float754.Representable, Pow2, FromBigEndian, ToSigned, EncodeField;
    if DecodeField(k, max, s).Some? {
      BoundOnlyCuts(k, max, s);
      EncodeDecodeField(k, s);
    }
  }

  lemma BoundOnlyCuts(k: Kind, max: nat, s: seq<byte>)
    requires WellFormed(k) && DecodeField(k, max, s).Some?
    ensures DecodeField(k, 0, s).Some?
    ensures var v, v' := DecodeField(k, 0, s).value.0, DecodeField(k, max, s).value.0;
            v.Str? == v'.Str? && (v.Str? ==> |v'.text| <= |v.text|) && (!v.Str? ==> v' == v)
  {
    hide Float754.Decode, Pow2, FromBigEndian, ToSigned;
  }

  /** Unpack gives back exactly the packed arguments if and only if they are Recoverable. */
  lemma {:induction false} RoundTripExactly(fmt: string, max: u32, args: seq<Value>, tail: seq<byte>)
    requires Accepts(fmt, args) && BoundsBeforeLag(fmt, args)
    ensures Decode(fmt, max, Encode(fmt, args) + tail) == Ok(args) <==> Recoverable(fmt, max, args)
    decreases fmt
  {
    hide EncodeField, DecodeField, Fits, Lags, Clip, Whole, NextBound;
    if fmt == "" {
    } else if KindOf(fmt[0]).Other? {
      RoundTripExactly(fmt[1..], NextBound(max, fmt[0]), args, tail);
    } else {
      var k, v := KindOf(fmt[0]), args[0];
      var e, rest := EncodeField(k, v), Encode(fmt[1..], args[1..]);
      var s := Encode(fmt, args) + tail;
      assert s == e + (rest + tail);
      ClipWhole(v, max);
      if !Fits(k, v) {
        MisfitField(k, v, max, s);
        ConsDifferent(fmt, max, args, s);
      } else {
        DecodeEncodeField(k, v, max, rest + tail);
        ConsEqual(args);
        if !Whole(v, max) {
          ConsDifferent(fmt, max, args, s);
        } else if Lags(k, v) {
          LagsIsC(k, v);
          LagsByte(k, v);
          var b := v.i % 0x100;
          assert e == Repeat(b, 1);
          assert s[0..] == Repeat(b, 1) + rest + tail;
          LagExactly(fmt[1..], args[1..], b, 1, tail);
        } else {
          assert s[|e|..] == rest + tail;
          RoundTripExactly(fmt[1..], 0, args[1..], tail);
        }
      }
    }
  }

  lemma LagsByte(k: Kind, v: Value)
    requires WellFormed(k) && Typed(k, v) && Fits(k, v) && Lags(k, v)
    ensures v.i % 0x100 >= 0x80 && EncodeField(k, v) == Repeat(v.i % 0x100, 1)
  {
    assert Pow2(7) == 128;
    assert BigEndian(1, v.i) == [v.i % 0x100];
  }

  /** A field after a negative `c` reads that byte again. */
  lemma NegativeExample()
    ensures var args := [Int(-1), Int(0)];
            && Accepts("cC", args) && AllFit("cC", args)
            && Decode("cC", 0, Encode("cC", args)) == Ok([Int(-1), Int(0xff)])
  {
    hide DecodeField, EncodeField, Pow2, BigEndian;
    var args := [Int(-1), Int(0)];
    NegativeExampleFields();
    assert "cC"[1..] == "C" && args[1..] == [Int(0)] && "C"[1..] == "";
    assert Encode("C", [Int(0)]) == [0];
    assert Encode("cC", args) == [0xff] + [0];
    var b := [0xff] + [0];
    assert b[0..] == b;
    DecodeEncodeField(Signed(1), Int(-1), 0, [0]);
    DecodeEncodeField(Unsigned(1), Int(0xff), 0, [0]);
    assert Decode("C", 0, b) == Ok([Int(0xff)]);
    assert [Int(-1)] + [Int(0xff)] == [Int(-1), Int(0xff)];
  }

  lemma NegativeExampleFields()
    ensures Pow2(7) == 0x80 && Pow2(8) == 0x100
    ensures EncodeField(Signed(1), Int(-1)) == EncodeField(Unsigned(1), Int(0xff)) == [0xff]
    ensures EncodeField(Unsigned(1), Int(0)) == [0]
  {
    Pow2Halves();
    Pow2Constants();
    hide Pow2;
    assert BigEndian(0, 0) == BigEndian(0, -1) == [];
  }

  // ---------------------------------------------------------------- bounds on strings

  predicate Digits(s: string) {
    forall ch | ch in s :: IsDigit(ch)
  }

  /** The bound in force after a run of characters. */
  function BoundAfter(max: u32, s: string): u32 {
    if s == "" then max else NextBound(BoundAfter(max, s[..|s| - 1]), s[|s| - 1])
  }

  lemma DigitIsOther(ch: char)
    requires IsDigit(ch)
    ensures KindOf(ch).Other?
  {
  }

  lemma {:induction false} BoundShift(max: u32, s: string)
    requires s != ""
    ensures BoundAfter(max, s) == BoundAfter(NextBound(max, s[0]), s[1..])
  {
    var n := |s| - 1;
    if n == 0 {
      assert s[..0] == "" && s[1..] == "";
    } else {
      BoundShift(max, s[..n]);
      assert s[..n][1..] == s[1..][..n - 1];
    }
  }

  /** Digits in front of a format change nothing but the bound; pack does not see them at all. */
  lemma {:induction false} DigitRun(digits: string, fmt: string, max: u32, args: seq<Value>, b: seq<byte>)
    requires Digits(digits) && Accepts(fmt, args)
    ensures Accepts(digits + fmt, args) && Encode(digits + fmt, args) == Encode(fmt, args)
    ensures Decode(digits + fmt, max, b) == Decode(fmt, BoundAfter(max, digits), b)
    decreases digits
  {
    if digits == "" {
      assert digits + fmt == fmt;
    } else {
      var s := digits + fmt;
      assert s[1..] == digits[1..] + fmt;
      DigitIsOther(digits[0]);
      DigitRun(digits[1..], fmt, NextBound(max, digits[0]), args, b);
      BoundShift(max, digits);
    }
  }

  /** The bytes of a packed string that come back under the bound n: all of it when n is 0 or no less
      than its length, else its first n - 1 bytes. */
  function Bounded(text: seq<byte>, n: nat): seq<byte> {
    if n == 0 || |text| <= n then text else text[..n - 1]
  }

  /** A bounded string field: the bound cuts this string only, every later field reads as it would without it. */
  lemma BoundedString(digits: string, fmt: string, text: seq<byte>, args: seq<Value>, tail: seq<byte>)
    requires Digits(digits) && 0 !in text && |text| <= 0xffff
    requires Accepts(fmt, args) && AllFit(fmt, args) && NegativeOnlyLast(fmt, args)
    ensures Accepts("s" + fmt, [Str(text)] + args)
    ensures Decode(digits + ("s" + fmt), 0, Encode("s" + fmt, [Str(text)] + args) + tail)
         == Ok([Str(Bounded(text, BoundAfter(0, digits)))] + Clipped(fmt, 0, args))
  {
    hide Decode, BoundAfter, DecodeField;
    var sfmt, sargs := "s" + fmt, [Str(text)] + args;
    assert sfmt[1..] == fmt && sargs[1..] == args && sargs[0] == Str(text);
    var b := Encode(sfmt, sargs) + tail;
    DigitRun(digits, sfmt, 0, sargs, b);
    RoundTrip(sfmt, BoundAfter(0, digits), sargs, tail);
    assert text[..|text|] == text;
  }

  /** The decimal digits of n, as `%d` prints them. */
  function Decimal(n: nat): (s: string)
    ensures Digits(s)
  {
    var d := [(n % 10 + 48) as char];
    if n < 10 then d else Decimal(n / 10) + d
  }

  /** Reading back a printed number: the bound of `%ds` is the number itself. */
  lemma {:induction false} DecimalBound(n: nat)
    requires n < TWO_32
    ensures BoundAfter(0, Decimal(n)) == n
  {
    var s := Decimal(n);
    if n < 10 {
      assert s[..0] == "";
    } else {
      DecimalBound(n / 10);
      assert s[..|s| - 1] == Decimal(n / 10);
    }
  }

  /** The number a run of digits stands for. */
  function NumberOf(digits: string): nat
    requires Digits(digits)
  {
    if digits == "" then 0
    else
      assert IsDigit(digits[|digits| - 1]);
      NumberOf(digits[..|digits| - 1]) * 10 + (digits[|digits| - 1] as int - 48)
  }

  /** The bound is the number written, modulo 2^32. */
  lemma {:induction false} BoundValue(digits: string)
    requires Digits(digits)
    ensures BoundAfter(0, digits) == NumberOf(digits) % 0x1_0000_0000
    decreases |digits|
  {
    if digits != "" {
      var n := |digits| - 1;
      BoundValue(digits[..n]);
      assert IsDigit(digits[n]);
      var v, d := NumberOf(digits[..n]), digits[n] as int - 48;
      TimesTen(v, d);
    }
  }

  lemma TimesTen(v: nat, d: nat)
    ensures (v % 0x1_0000_0000 * 10 + d) % 0x1_0000_0000 == (v * 10 + d) % 0x1_0000_0000
  {
    var q, r := v / 0x1_0000_0000, v % 0x1_0000_0000;
    assert v * 10 + d == q * 10 * 0x1_0000_0000 + (r * 10 + d);
  }

  /** A character that is neither a digit nor a letter of the format language takes nothing and ends a bound. */
  lemma BoundCleared(ch: char, fmt: string, max: u32, b: seq<byte>)
    requires ch !in "cChHlLqQfdgs" && !('0' <= ch <= '9')
    ensures Decode([ch] + fmt, max, b) == Decode(fmt, 0, b)
  {
    assert ([ch] + fmt)[1..] == fmt;
    assert forall i | 0 <= i < 12 :: "cChHlLqQfdgs"[i] in "cChHlLqQfdgs";
    assert ch != "cChHlLqQfdgs"[0] && ch != "cChHlLqQfdgs"[1] && ch != "cChHlLqQfdgs"[2] && ch != "cChHlLqQfdgs"[3];
    assert ch != "cChHlLqQfdgs"[4] && ch != "cChHlLqQfdgs"[5] && ch != "cChHlLqQfdgs"[6] && ch != "cChHlLqQfdgs"[7];
    assert ch != "cChHlLqQfdgs"[8] && ch != "cChHlLqQfdgs"[9] && ch != "cChHlLqQfdgs"[10] && ch != "cChHlLqQfdgs"[11];
  }
}
