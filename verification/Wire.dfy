/** The packet formats: 16-byte commands in, header and payload out, and how a peer reads the responses. */
module Wire {
  import opened Words
  import opened Common
  import opened Codec
  import Formats

  datatype Command = Command(comm: u32, cs: u32, addr: u32, val: u32)

  /** body is the payload buf points at: num bytes of data, or the text of a message without its terminator. */
  datatype Response = Response(comm: u32, num: u32, body: seq<byte>)

  /** The response types whose payload is copied raw; all others are sent as a string. */
  predicate CarriesData(comm: u32) {
    comm in {FMC150_REG_VALUE, FMC150_NEW_DATA, FMC150_REMAINING_DATA, DDC_NEW_DATA, DDC_REMAINING_DATA,
             SOFT_REG_NEW_DATA, SOFT_REG_REMAINING_DATA}
  }

  /** The packet fits send_buf: as many data bytes as announced, or a text that ends in time. */
  predicate InBuffer(r: Response) {
    if CarriesData(r.comm) then |r.body| == r.num <= RESPONSE_PACKET_BUF_SIZE
    else 0 !in r.body && |r.body| <= RESPONSE_PACKET_BUF_SIZE - 2
  }

  /** And num counts the data bytes, or the text with its terminator, as handle_request left it. */
  predicate Sendable(r: Response) {
    InBuffer(r) && (CarriesData(r.comm) || |r.body| + 1 == r.num)
  }

  function Header(r: Response): (b: seq<byte>)
    ensures |b| == RESPONSE_PACKET_HEADER_SIZE
  {
    BigEndian(4, r.comm) + BigEndian(4, r.num)
  }

  /** The part of a packet behind the header. */
  function Payload(r: Response): seq<byte> {
    if CarriesData(r.comm) then r.body else BigEndian(2, |r.body|) + r.body
  }

  /** The bytes of a response packet. */
  function Frame(r: Response): seq<byte> {
    Header(r) + Payload(r)
  }

  lemma FrameSize(r: Response)
    requires InBuffer(r)
    ensures |Frame(r)| <= RESPONSE_PACKET_SIZE
    ensures Sendable(r) ==> |Frame(r)| == 8 + r.num + if CarriesData(r.comm) then 0 else 1
  {
  }

  function Ints(ws: seq<u32>): seq<Value> {
    if ws == [] then [] else [Int(ws[0])] + Ints(ws[1..])
  }

  function WordBytes(ws: seq<u32>): seq<byte> {
    if ws == [] then [] else BigEndian(4, ws[0]) + WordBytes(ws[1..])
  }

  lemma ConsWord(w: u32, ws: seq<u32>)
    ensures Ints([w] + ws) == [Int(w)] + Ints(ws)
    ensures WordBytes([w] + ws) == BigEndian(4, w) + WordBytes(ws)
  {
    assert ([w] + ws)[1..] == ws;
  }

  lemma WordField(w: u32)
    ensures KindOf('L') == Unsigned(4) && EncodeField(Unsigned(4), Int(w)) == BigEndian(4, w)
    ensures Fits(Unsigned(4), Int(w)) && Clip(Int(w), 0) == Int(w) && !Lags(Unsigned(4), Int(w))
  {
    Pow2Constants();
  }

  /** A format of L's packs words and unpacks them again. */
  lemma {:induction false} WordsEncoding(fmt: string, ws: seq<u32>)
    requires |fmt| == |ws| && forall i | 0 <= i < |fmt| :: fmt[i] == 'L'
    ensures Formats.Accepts(fmt, Ints(ws)) && Formats.Encode(fmt, Ints(ws)) == WordBytes(ws)
    ensures Formats.AllFit(fmt, Ints(ws)) && Formats.NegativeOnlyLast(fmt, Ints(ws))
    ensures Formats.Clipped(fmt, 0, Ints(ws)) == Ints(ws)
  {
    if ws == [] {
    } else {
      hide EncodeField, Fits, KindOf, Clip, Lags;
      WordField(ws[0]);
      WordsEncoding(fmt[1..], ws[1..]);
      assert Ints(ws) == [Int(ws[0])] + Ints(ws[1..]);
      assert Ints(ws)[1..] == Ints(ws[1..]);
    }
  }

  lemma HeaderEncoding(a: u32, b: u32, tail: seq<byte>)
    ensures Formats.Accepts("LL", [Int(a), Int(b)])
    ensures Formats.Encode("LL", [Int(a), Int(b)]) == BigEndian(4, a) + BigEndian(4, b)
    ensures Formats.Decode("LL", 0, BigEndian(4, a) + BigEndian(4, b) + tail) == Formats.Ok([Int(a), Int(b)])
  {
    hide BigEndian, Formats.Decode, Formats.Encode, Formats.Accepts, Formats.AllFit, Formats.NegativeOnlyLast;
    var ws := [a, b];
    ConsWord(b, []);
    ConsWord(a, [b]);
    assert ws == [a] + [b] && [b] == [b] + [];
    assert Ints(ws) == [Int(a), Int(b)] && WordBytes(ws) == BigEndian(4, a) + BigEndian(4, b);
    WordsEncoding("LL", ws);
    Formats.RoundTrip("LL", 0, Ints(ws), tail);
  }

  /** The string part of a message packet, packed and unpacked with the format `%ds`. */
  lemma TextEncoding(text: seq<byte>, num: u32, tail: seq<byte>)
    requires 0 !in text && |text| <= 0xffff
    ensures var fmt := Formats.Decimal(num) + "s";
            && Formats.Accepts(fmt, [Str(text)])
            && Formats.Encode(fmt, [Str(text)]) == BigEndian(2, |text|) + text
            && Formats.Decode(fmt, 0, BigEndian(2, |text|) + text + tail) == Formats.Ok([Str(Formats.Bounded(text, num))])
  {
    hide BigEndian, FromBigEndian, Pow2, Formats.Accepts, Formats.Encode, Formats.Decode, Formats.Clipped, Formats.Decimal;
    hide Formats.AllFit, Formats.NegativeOnlyLast, Formats.BoundAfter, Formats.Bounded;
    SingleText(text, num);
    var s := BigEndian(2, |text|) + text;
    Formats.DecimalBound(num);
    Formats.DigitRun(Formats.Decimal(num), "s", 0, [Str(text)], s + tail);
    Formats.RoundTrip("s", num, [Str(text)], tail);
  }

  lemma SingleText(text: seq<byte>, num: u32)
    requires 0 !in text && |text| <= 0xffff
    ensures var args := [Str(text)];
            && Formats.Accepts("s", args) && Formats.Encode("s", args) == BigEndian(2, |text|) + text
            && Formats.AllFit("s", args) && Formats.NegativeOnlyLast("s", args)
            && Formats.Clipped("s", num, args) == [Str(Formats.Bounded(text, num))]
  {
    hide BigEndian, FromBigEndian, Pow2;
    assert "s"[1..] == "" && [Str(text)][1..] == [];
    var s := BigEndian(2, |text|) + text;
    assert s + [] == s && text[..|text|] == text;
  }

  // ---------------------------------------------------------------- reading a response stream

  /** One response read with unpack from the front of b, and its length. */
  function ParseResponse(b: seq<byte>): (r: Option<(Response, nat)>)
    ensures r.Some? ==> 8 <= r.value.1 <= |b|
  {
    var d := Formats.Decode("LL", 0, b);
    if d.Ok? && |d.values| == 2 && IsWord(d.values[0]) && IsWord(d.values[1]) && |b| >= 8 then
      ParsePayload(d.values[0].i, d.values[1].i, b[8..])
    else None
  }

  predicate IsWord(v: Value) {
    v.Int? && 0 <= v.i < TWO_32
  }

  function ParsePayload(comm: u32, num: u32, rest: seq<byte>): (r: Option<(Response, nat)>)
    ensures r.Some? ==> 8 <= r.value.1 <= 8 + |rest|
  {
    if CarriesData(comm) then
      if |rest| < num then None else Some((Response(comm, num, rest[..num]), 8 + num))
    else
      var d := Formats.Decode(Formats.Decimal(num) + "s", 0, rest);
      if d.Ok? && |d.values| == 1 && d.values[0].Str? && |rest| >= 2 && |rest| >= 2 + FromBigEndian(rest[..2]) then
        Some((Response(comm, num, d.values[0].text), 8 + 2 + FromBigEndian(rest[..2])))
      else None
  }

  function ParseAll(b: seq<byte>): Option<seq<Response>> {
    if b == [] then Some([])
    else
      match ParseResponse(b)
      case None => None
      case Some((r, n)) =>
        match ParseAll(b[n..])
        case None => None
        case Some(rs) => Some([r] + rs)
  }

  function Frames(rs: seq<Response>): seq<byte> {
    if rs == [] then [] else Frame(rs[0]) + Frames(rs[1..])
  }

  /** What a client makes of a response: a text longer than announced is cut. */
  function Heard(r: Response): (h: Response)
    ensures Sendable(r) ==> h == r
  {
    if CarriesData(r.comm) then r else r.(body := Formats.Bounded(r.body, r.num))
  }

  lemma ParsedPayload(r: Response, tail: seq<byte>)
    requires InBuffer(r)
    ensures ParsePayload(r.comm, r.num, Payload(r) + tail) == Some((Heard(r), 8 + |Payload(r)|))
  {
    hide BigEndian, FromBigEndian, Formats.Decode, Formats.Decimal, Formats.Accepts, Formats.Encode, Formats.Bounded, Pow2;
    if CarriesData(r.comm) {
      assert (r.body + tail)[..r.num] == r.body;
    } else {
      TextEncoding(r.body, r.num, tail);
      Pow2Constants();
      UnsignedRoundTrip(2, |r.body|);
      assert (Payload(r) + tail)[..2] == BigEndian(2, |r.body|);
      assert |Formats.Bounded(r.body, r.num)| <= |r.body| by { BoundedLength(r.body, r.num); }
    }
  }

  lemma BoundedLength(text: seq<byte>, n: nat)
    ensures |Formats.Bounded(text, n)| <= |text|
  {
  }

  lemma ParseFrame(r: Response, tail: seq<byte>)
    requires InBuffer(r)
    ensures ParseResponse(Frame(r) + tail) == Some((Heard(r), |Frame(r)|))
  {
    hide BigEndian, FromBigEndian, Formats.Decode, Formats.Accepts, Formats.Encode, ParsePayload, Payload, Heard, InBuffer;
    FrameParts(r);
    HeaderEncoding(r.comm, r.num, Payload(r) + tail);
    var header := BigEndian(4, r.comm) + BigEndian(4, r.num);
    assert Frame(r) + tail == header + (Payload(r) + tail);
    assert (header + (Payload(r) + tail))[8..] == Payload(r) + tail;
    ParsedPayload(r, tail);
  }

  lemma FrameParts(r: Response)
    ensures Frame(r) == BigEndian(4, r.comm) + BigEndian(4, r.num) + Payload(r)
  {
  }

  function AllHeard(rs: seq<Response>): (hs: seq<Response>)
    ensures (forall r | r in rs :: Sendable(r)) ==> hs == rs
  {
    if rs == [] then [] else [Heard(rs[0])] + AllHeard(rs[1..])
  }

  /** A stream of responses parses back to what the client hears of each: to the responses themselves where
      num is as handle_request left it. */
  lemma {:induction false} FramesParse(rs: seq<Response>)
    requires forall r | r in rs :: InBuffer(r)
    ensures ParseAll(Frames(rs)) == Some(AllHeard(rs))
  {
    hide Frame, ParseResponse, InBuffer, Heard;
    if rs == [] {
    } else {
      var b := Frames(rs);
      FrameNonempty(rs[0]);
      ParseFrame(rs[0], Frames(rs[1..]));
      assert b[|Frame(rs[0])|..] == Frames(rs[1..]);
      FramesParse(rs[1..]);
    }
  }

  lemma FrameNonempty(r: Response)
    ensures |Frame(r)| >= 8
  {
  }

  lemma {:induction false} FramesConcat(rs: seq<Response>, ts: seq<Response>)
    ensures Frames(rs + ts) == Frames(rs) + Frames(ts)
  {
    if rs == [] {
      assert rs + ts == ts;
    } else {
      assert (rs + ts)[1..] == rs[1..] + ts;
      FramesConcat(rs[1..], ts);
    }
  }

  // ---------------------------------------------------------------- commands

  function CommandBytes(c: Command): (b: seq<byte>)
    ensures |b| == COMMAND_PACKET_SIZE
  {
    BigEndian(4, c.comm) + BigEndian(4, c.cs) + BigEndian(4, c.addr) + BigEndian(4, c.val)
  }

  function CommandOf(b: seq<byte>): Command
    requires |b| == COMMAND_PACKET_SIZE
  {
    Command(Word(b[..4]), Word(b[4..8]), Word(b[8..12]), Word(b[12..]))
  }

  function Word(b: seq<byte>): u32
    requires |b| == 4
  {
    FromBigEndianBound(b);
    Pow2Constants();
    FromBigEndian(b)
  }

  lemma WordRoundTrip(v: u32, b: seq<byte>)
    requires |b| == 4
    ensures Word(BigEndian(4, v)) == v && BigEndian(4, Word(b)) == b
  {
    Pow2Constants();
    UnsignedRoundTrip(4, v);
    ReadUnsigned(b);
  }

  /** Command packets and 16-byte blocks correspond one to one. */
  lemma CommandRoundTrip(c: Command, b: seq<byte>)
    requires |b| == COMMAND_PACKET_SIZE
    ensures CommandOf(CommandBytes(c)) == c && CommandBytes(CommandOf(b)) == b
  {
    hide BigEndian, Word;
    var d := CommandBytes(c);
    assert d[..4] == BigEndian(4, c.comm) && d[4..8] == BigEndian(4, c.cs);
    assert d[8..12] == BigEndian(4, c.addr) && d[12..] == BigEndian(4, c.val);
    WordRoundTrip(c.comm, b[..4]);
    WordRoundTrip(c.cs, b[4..8]);
    WordRoundTrip(c.addr, b[8..12]);
    WordRoundTrip(c.val, b[12..]);
  }

  /** What prepare_to_read_command gets from unpack. */
  lemma CommandDecoding(b: seq<byte>, tail: seq<byte>)
    requires |b| == COMMAND_PACKET_SIZE
    ensures var c := CommandOf(b);
            Formats.Decode("LLLL", 0, b + tail) == Formats.Ok([Int(c.comm), Int(c.cs), Int(c.addr), Int(c.val)])
  {
    hide BigEndian, Word, Formats.Decode, Formats.Encode, Formats.Accepts, Formats.AllFit, Formats.NegativeOnlyLast;
    var c := CommandOf(b);
    CommandRoundTrip(c, b);
    var ws := [c.comm, c.cs, c.addr, c.val];
    ConsWord(c.val, []);
    ConsWord(c.addr, [c.val]);
    ConsWord(c.cs, [c.addr, c.val]);
    ConsWord(c.comm, [c.cs, c.addr, c.val]);
    assert [c.val] == [c.val] + [] && [c.addr, c.val] == [c.addr] + [c.val];
    assert [c.cs, c.addr, c.val] == [c.cs] + [c.addr, c.val] && ws == [c.comm] + [c.cs, c.addr, c.val];
    assert Ints(ws) == [Int(c.comm), Int(c.cs), Int(c.addr), Int(c.val)];
    assert WordBytes(ws) == CommandBytes(c);
    WordsEncoding("LLLL", ws);
    Formats.RoundTrip("LLLL", 0, Ints(ws), tail);
  }

  /** The layout of a packet: type and num, most significant byte first, and then the data for the types that carry
      data; a 16-bit length and the text for all others. */
  lemma FrameLayout(r: Response)
    ensures |Frame(r)| >= 8 && Frame(r)[..4] == Digits(r.comm) && Frame(r)[4..8] == Digits(r.num)
    ensures r.comm in {2, 3, 4, 5, 6, 9, 10} ==> Frame(r)[8..] == r.body
    ensures r.comm !in {2, 3, 4, 5, 6, 9, 10} ==>
              && |Frame(r)| == 10 + |r.body| && Frame(r)[10..] == r.body
              && Frame(r)[8] == |r.body| / 0x100 % 0x100 && Frame(r)[9] == |r.body| % 0x100
  {
    hide BigEndian, Pow2;
    WordDigits(r.comm);
    WordDigits(r.num);
    BigEndianAt(2, |r.body|, 0);
    BigEndianAt(2, |r.body|, 1);
    FirstPowers();
  }

  /** The four bytes of a word, most significant first. */
  function Digits(v: u32): seq<byte> {
    [v / 0x100_0000, v / 0x1_0000 % 0x100, v / 0x100 % 0x100, v % 0x100]
  }

  lemma WordDigits(v: u32)
    ensures BigEndian(4, v) == Digits(v)
  {
    hide BigEndian, Pow2;
    BigEndianAt(4, v, 0);
    BigEndianAt(4, v, 1);
    BigEndianAt(4, v, 2);
    BigEndianAt(4, v, 3);
    FirstPowers();
  }

  /** A command is four such words: type, chip select, address and value. */
  lemma CommandLayout(c: Command)
    ensures CommandBytes(c) == Digits(c.comm) + Digits(c.cs) + Digits(c.addr) + Digits(c.val)
  {
    hide BigEndian;
    WordDigits(c.comm);
    WordDigits(c.cs);
    WordDigits(c.addr);
    WordDigits(c.val);
  }

  lemma FirstPowers()
    ensures Pow2(0) == 1 && Pow2(8) == 0x100 && Pow2(16) == 0x1_0000 && Pow2(24) == 0x100_0000
  {
    Pow2Constants();
    Pow2Add(8, 16);
  }
}
