/** handle_request: one command against the two capture handlers. */
module Requests {
  import opened Words
  import opened Common
  import opened LowLevel
  import opened Wire

  /** The response texts. Their wording is a parameter; GoodTexts says they are C strings that fit a packet. */
  datatype Message =
    | InvalidValue(max: nat) | CaptureError | CaptureStarted | GetError
    | ReadError | WriteOk | LedValue(value: u32) | LedWritten

  type Texts = Message -> seq<byte>

  ghost predicate GoodTexts(text: Texts) {
    forall m :: 0 !in text(m) && |text(m)| <= 4094
  }

  /** How many bytes of the transfer in progress have landed for each handler. */
  datatype Landing = Landing(adc: nat, ddc: nat) {
    function Of(chip: Chip): nat {
      if chip.Adc? then adc else ddc
    }
  }

  /** What the hardware does during one call: the DMA engine, the SPI bridge, the register read, and how far the
      transfers in progress have got when the command is carried out and when it is answered. */
  datatype Env = Env(dma: Dma, spiReady: bool, regValue: u32, early: Landing, late: Landing)

  /** Where the buffer pointer of a response packet points: into the region of a handler once it handed out
      samples, before that wherever the uninitialised pointer happens to. */
  datatype Pointer = Outside | Into(chip: Chip, offset: nat)

  /** struct response_packet of one connection, with the memory of its own that buf may still point at. */
  datatype Packet = Packet(comm: u32, num: u32, buf: Pointer, outside: seq<byte>)

  predicate ValidPacket(p: Packet) {
    && p.num <= RESPONSE_PACKET_BUF_SIZE && |p.outside| == RESPONSE_PACKET_BUF_SIZE
    && (p.buf.Into? ==> p.buf.offset < MAX_DMA_TRANSFER_SIZE)
  }

  /** A whole handle_request call, on the packet of some connection; or time that passes while the engines work. */
  datatype Call = Call(command: Command, env: Env, packet: Packet) | Pause(landing: Landing)

  predicate GoodCall(c: Call) {
    c.Call? ==> Admitted(c.command) && ValidPacket(c.packet)
  }

  // ---------------------------------------------------------------- the lookup tables

  datatype Attributes = Attributes(maxSamples: nat, sampleSize: nat)

  function GetCommandHandler(comm: u32): Option<Attributes> {
    if comm in {FMC150_CAPTURE, FMC150_GET_SAMPLES, FMC150_READ, FMC150_WRITE} then
      Some(Attributes(MaxSamples(Adc), SampleSize(Adc)))
    else if comm in {DDC_CAPTURE, DDC_GET_SAMPLES} then
      Some(Attributes(MaxSamples(Ddc), SampleSize(Ddc)))
    else if comm in {LED_READ, LED_WRITE, SOFT_REG_READ, SOFT_REG_WRITE} then
      Some(Attributes(0, 0))
    else None
  }

  datatype Tags = Tags(newData: u32, remainingData: u32)

  function GetResponseHandler(comm: u32): Option<Tags> {
    if comm in {FMC150_CAPTURE, FMC150_GET_SAMPLES, FMC150_READ, FMC150_WRITE} then
      Some(Tags(FMC150_NEW_DATA, FMC150_REMAINING_DATA))
    else if comm in {DDC_CAPTURE, DDC_GET_SAMPLES} then Some(Tags(DDC_NEW_DATA, DDC_REMAINING_DATA))
    else if comm in {LED_READ, LED_WRITE} then Some(Tags(0, 0))
    else if comm in {SOFT_REG_READ, SOFT_REG_WRITE} then Some(Tags(SOFT_REG_NEW_DATA, SOFT_REG_REMAINING_DATA))
    else None
  }

  /** The capture handler of a command; Some(None) where none is needed. */
  function GetLowLevelHandler(comm: u32): Option<Option<Chip>> {
    if comm in {FMC150_CAPTURE, FMC150_GET_SAMPLES, FMC150_READ, FMC150_WRITE} then Some(Some(Adc))
    else if comm in {DDC_CAPTURE, DDC_GET_SAMPLES} then Some(Some(Ddc))
    else if comm in {LED_READ, LED_WRITE, SOFT_REG_READ, SOFT_REG_WRITE} then Some(None)
    else None
  }

  // ---------------------------------------------------------------- bytes to come

  function GetCommand(chip: Chip): u32 {
    if chip.Adc? then FMC150_GET_SAMPLES else DDC_GET_SAMPLES
  }

  function CaptureCommand(chip: Chip): u32 {
    if chip.Adc? then FMC150_CAPTURE else DDC_CAPTURE
  }

  predicate IsGet(c: Command, chip: Chip) {
    c.comm == GetCommand(chip)
  }

  /** prepare_to_handle: the byte count of a transfer, wrapped to int; 1 for every other command. */
  function PrepareToHandle(c: Command): int {
    if IsGet(c, Adc) then S32(U32(c.val * SampleSize(Adc)))
    else if IsGet(c, Ddc) then S32(U32(c.val * SampleSize(Ddc)))
    else 1
  }

  lemma Admission(c: Command)
    ensures Admitted(c) <==> PrepareToHandle(c) > 0
  {
  }

  /** Only such commands ever reach handle_request. */
  predicate Admitted(c: Command) {
    PrepareToHandle(c) > 0
  }

  // ---------------------------------------------------------------- the effect of a request

  datatype Board = Board(adc: State, ddc: State) {
    function Of(chip: Chip): State {
      if chip.Adc? then adc else ddc
    }

    function With(chip: Chip, st: State): Board {
      if chip.Adc? then this.(adc := st) else this.(ddc := st)
    }
  }

  predicate ValidBoard(b: Board) {
    Valid(Adc, b.adc) && Valid(Ddc, b.ddc)
  }

  datatype Outcome =
    | NoHandler
    | Failure(message: Message)
    | Done(message: Message)
    | Samples(comm: u32, chip: Chip, byteOffset: nat, num: u32)
    | Register(comm: u32, bytes: seq<byte>, cells: seq<Cell>)

  predicate Fails(o: Outcome) {
    o.NoHandler? || o.Failure?
  }

  function CaptureEffect(b: Board, chip: Chip, val: u32, dma: Dma): (Board, Outcome) {
    if val > MaxSamples(chip) then (b, Failure(InvalidValue(MaxSamples(chip))))
    else (b.With(chip, Capture(chip, b.Of(chip), val, dma)),
          if Accepts(chip, val, dma) then Done(CaptureStarted) else Failure(CaptureError))
  }

  function GetEffect(b: Board, chip: Chip, val: u32, dma: Dma): (Board, Outcome)
    requires ValidBoard(b) && val > 0
  {
    if val > MaxSamples(chip) then (b, Failure(InvalidValue(MaxSamples(chip))))
    else
      var (st, r) := Get(chip, b.Of(chip), val, dma);
      if r.GetFailed? then (b.With(chip, st), Failure(GetError))
      else
        PayloadInBuffer(chip, b.Of(chip), val, dma);
        (b.With(chip, st), SampleOutcome(chip, r.byteOffset, r.size * SampleSize(chip)))
  }

  /** A sample packet: tagged as new data at the start of the buffer, as remaining data elsewhere. */
  function SampleOutcome(chip: Chip, byteOffset: nat, num: u32): Outcome {
    var tags := GetResponseHandler(GetCommand(chip)).value;
    Samples(if byteOffset == 0 then tags.newData else tags.remainingData, chip, byteOffset, num)
  }

  /** The bytes named by a successful get_samples lie in the captured part of the buffer. */
  lemma PayloadInBuffer(chip: Chip, st: State, size: u32, dma: Dma)
    requires Valid(chip, st) && 0 < size <= MaxSamples(chip) && Get(chip, st, size, dma).1.GetOk?
    ensures var (st', r) := Get(chip, st, size, dma);
            0 < r.size * SampleSize(chip) <= RESPONSE_PACKET_BUF_SIZE
            && r.byteOffset + r.size * SampleSize(chip) <= st'.count * SampleSize(chip) < MAX_DMA_TRANSFER_SIZE
  {
    hide Get, Capture, Tiles;
    GetHandsOut(chip, st, size, dma);
    GetKeepsExactly(chip, st, size, dma);
    match chip
    case Adc =>
    case Ddc =>
  }

  /** The host stores a register value with its low byte first. */
  function HostBytes(v: u32): (b: seq<byte>)
    ensures |b| == 4
    ensures FromBigEndian([b[3], b[2], b[1], b[0]]) == v
  {
    var w := BigEndian(4, v);
    BigEndianValue(4, v);
    Pow2Constants();
    assert w == [w[0], w[1], w[2], w[3]];
    [w[3], w[2], w[1], w[0]]
  }

  // ---------------------------------------------------------------- soft registers

  /** The word of a DMA region that a soft-register address falls into, if it does. */
  function Place(addr: u32): Option<(Chip, nat)> {
    var word := addr - addr % 4;
    if DDR3_DMA_ADC_BUFFER <= word < DDR3_DMA_ADC_BUFFER + REGION_SIZE then Some((Adc, word - DDR3_DMA_ADC_BUFFER))
    else if DDR3_DMA_DDC_BUFFER <= word < DDR3_DMA_DDC_BUFFER + REGION_SIZE then Some((Ddc, word - DDR3_DMA_DDC_BUFFER))
    else None
  }

  lemma PlaceInRegion(addr: u32)
    ensures Place(addr).Some? ==> Place(addr).value.1 + 4 <= REGION_SIZE
  {
    assert DDR3_DMA_ADC_BUFFER % 4 == 0 && DDR3_DMA_DDC_BUFFER % 4 == 0 && REGION_SIZE % 4 == 0;
  }

  /** write_soft_register: a store to whatever address the client names. */
  function StoreWord(b: Board, addr: u32, val: u32): Board {
    match Place(addr)
    case None => b
    case Some((chip, at)) => b.With(chip, Overwritten(b.Of(chip), at, HostBytes(val), Plains(4)))
  }

  /** read_soft_register: the word in a DMA region, or the value of a device register. */
  function ReadWord(b: Board, addr: u32, regValue: u32): (r: (seq<byte>, seq<Cell>))
    requires |b.adc.memory| == |b.ddc.memory| == REGION_SIZE
    ensures |r.0| == |r.1| == 4
  {
    PlaceInRegion(addr);
    match Place(addr)
    case None => (HostBytes(regValue), Plains(4))
    case Some((chip, at)) =>
      var st := b.Of(chip);
      (st.memory[at..at + 4], seq(4, i requires 0 <= i < 4 => if at + i < |st.cells| then st.cells[at + i] else Plain))
  }

  function Plains(n: nat): (c: seq<Cell>)
    ensures |c| == n && forall i | 0 <= i < n :: c[i] == Plain
  {
    seq(n, i => Plain)
  }

  function LandBoard(b: Board, l: Landing): Board {
    Board(Land(b.adc, l.adc), Land(b.ddc, l.ddc))
  }

  lemma LandBoardKeeps(b: Board, l: Landing)
    ensures ValidBoard(b) ==> ValidBoard(LandBoard(b, l))
    ensures forall chip: Chip :: LandBoard(b, l).Of(chip) == Land(b.Of(chip), l.Of(chip))
    ensures forall chip: Chip :: var st, st' := b.Of(chip), LandBoard(b, l).Of(chip);
              st' == st.(memory := st'.memory, cells := st'.cells, landed := st'.landed) && st.landed <= st'.landed
  {
    hide Land, Valid;
    LandKeeps(Adc, b.adc, l.adc);
    LandKeeps(Ddc, b.ddc, l.ddc);
  }

  /** handle_request on the handlers: what the capture and transfer operations do, and what is to be answered. */
  function Effect(b: Board, c: Command, env: Env): (Board, Outcome)
    requires ValidBoard(b) && Admitted(c)
  {
    if GetCommandHandler(c.comm).None? || GetResponseHandler(c.comm).None? || GetLowLevelHandler(c.comm).None? then
      (b, NoHandler)
    else if c.comm == FMC150_CAPTURE then CaptureEffect(b, Adc, c.val, env.dma)
    else if c.comm == DDC_CAPTURE then CaptureEffect(b, Ddc, c.val, env.dma)
    else if c.comm == FMC150_GET_SAMPLES then GetEffect(b, Adc, c.val, env.dma)
    else if c.comm == DDC_GET_SAMPLES then GetEffect(b, Ddc, c.val, env.dma)
    else if c.comm == FMC150_READ then
      (b, if env.spiReady then Register(FMC150_NEW_DATA, HostBytes(env.regValue), Plains(4)) else Failure(ReadError))
    else if c.comm == SOFT_REG_READ then
      var (bytes, cells) := ReadWord(b, c.addr, env.regValue);
      (b, Register(SOFT_REG_NEW_DATA, bytes, cells))
    else if c.comm == SOFT_REG_WRITE then (StoreWord(b, c.addr, c.val), Done(WriteOk))
    else if c.comm == FMC150_WRITE then (b, Done(WriteOk))
    else if c.comm == LED_READ then (b, Done(LedValue(env.regValue)))
    else (b, Done(LedWritten))
  }

  // ---------------------------------------------------------------- the answer, through the pointer

  function MessageResponse(text: Texts, m: Message): Response
    requires |text(m)| <= 4094
  {
    Response(MESSAGE, |text(m)| + 1, text(m))
  }

  /** The memory a packet's pointer refers to, from there on. */
  function Pointed(b: Board, p: Packet): (s: seq<byte>)
    requires ValidBoard(b) && ValidPacket(p)
    ensures |s| >= RESPONSE_PACKET_BUF_SIZE
  {
    match p.buf
    case Outside => p.outside
    case Into(chip, offset) => b.Of(chip).memory[offset..]
  }

  /** Bytes stored through the pointer of a packet, be it into the samples of a handler. */
  function Print(b: Board, p: Packet, bytes: seq<byte>, cells: seq<Cell>): (Board, Packet) {
    match p.buf
    case Outside => (b, p.(outside := Overlaid(p.outside, 0, bytes)))
    case Into(chip, offset) => (b.With(chip, Overwritten(b.Of(chip), offset, bytes, cells)), p)
  }

  /** What an outcome stores through the pointer: a text with its terminator, or the value of a register. */
  function Stored(o: Outcome, text: Texts): Option<seq<byte>> {
    match o
    case Failure(m) => Some(text(m) + [0])
    case Done(m) => Some(text(m) + [0])
    case Register(_, bytes, _) => Some(bytes)
    case _ => None
  }

  /** The response packet after the call, and the memory it was printed into; without a handler neither changes. */
  function Respond(b: Board, p: Packet, o: Outcome, text: Texts): (Board, Packet)
    requires forall m :: |text(m)| <= 4094
  {
    match o
    case NoHandler => (b, p)
    case Failure(m) => PrintText(b, p, text(m))
    case Done(m) => PrintText(b, p, text(m))
    case Samples(comm, chip, byteOffset, num) => (b, p.(comm := comm, num := num, buf := Into(chip, byteOffset)))
    case Register(comm, bytes, cells) => Print(b, p.(comm := comm, num := 4), bytes, cells)
  }

  /** sprintf through the pointer. */
  function PrintText(b: Board, p: Packet, t: seq<byte>): (Board, Packet)
    requires |t| <= 4094
  {
    Print(b, p.(comm := MESSAGE, num := |t| + 1), t + [0], Plains(|t| + 1))
  }

  /** handle_request: the handlers, the packet of the connection, and the outcome. The engines work on before the
      command is carried out and before it is answered. */
  function Handle(b: Board, p: Packet, c: Command, env: Env, text: Texts): (Board, Packet, Outcome)
    requires ValidBoard(b) && Admitted(c) && GoodTexts(text)
  {
    LandBoardKeeps(b, env.early);
    var (b1, o) := Effect(LandBoard(b, env.early), c, env);
    var (b2, p') := Respond(LandBoard(b1, env.late), p, o, text);
    (b2, p', o)
  }

  /** The bytes before the first NUL, all of them if there is none. */
  function CText(s: seq<byte>): (t: seq<byte>)
    ensures 0 !in t && t <= s && (|t| < |s| ==> s[|t|] == 0)
  {
    if s == [] || s[0] == 0 then [] else [s[0]] + CText(s[1..])
  }

  lemma {:induction false} CTextIs(s: seq<byte>, t: seq<byte>)
    requires 0 !in t && t + [0] <= s
    ensures CText(s) == t
  {
    if t != [] {
      assert s[0] == (t + [0])[0] == t[0];
      assert t[1..] + [0] == (t + [0])[1..];
      CTextIs(s[1..], t[1..]);
    }
  }

  /** What send_response_packet finds behind the pointer. A text that does not end in time is cut where send_buf ends. */
  function Fetch(b: Board, p: Packet): (r: Response)
    requires ValidBoard(b) && ValidPacket(p)
    ensures r.comm == p.comm && r.num == p.num
    ensures CarriesData(p.comm) ==> InBuffer(r)
  {
    Response(p.comm, p.num,
             if CarriesData(p.comm) then Pointed(b, p)[..p.num] else CText(Pointed(b, p)[..RESPONSE_PACKET_BUF_SIZE - 1]))
  }

  /** What was stored last through a pointer is what is read back through it. */
  lemma PrintRead(b: Board, p: Packet, bytes: seq<byte>, cells: seq<Cell>)
    requires ValidBoard(b) && ValidPacket(p) && |bytes| <= RESPONSE_PACKET_BUF_SIZE
    ensures var (b', p') := Print(b, p, bytes, cells);
            ValidBoard(b') && ValidPacket(p') && bytes <= Pointed(b', p')
  {
    hide Tiles, ValidControl;
    var (b', p') := Print(b, p, bytes, cells);
    var s := Pointed(b', p');
    assert s[..|bytes|] == bytes;
  }

  /** A message or a register value that nobody overwrites arrives as it was stored. */
  lemma AnswerRead(b: Board, p: Packet, o: Outcome, text: Texts)
    requires ValidBoard(b) && ValidPacket(p) && GoodTexts(text) && Stored(o, text).Some?
    requires o.Register? ==> CarriesData(o.comm) && |o.bytes| == 4
    ensures var (b', p') := Respond(b, p, o, text); var s := Stored(o, text).value;
            && ValidBoard(b') && ValidPacket(p') && Sendable(Fetch(b', p'))
            && Fetch(b', p') == if o.Register? then Response(o.comm, 4, s) else MessageResponse(text, o.message)
  {
    hide ValidBoard, CText, Pointed, Print;
    var s := Stored(o, text).value;
    var cells := if o.Register? then o.cells else Plains(|s|);
    var q := p.(comm := if o.Register? then o.comm else MESSAGE, num := |s|);
    PrintRead(b, q, s, cells);
    var (b', p') := Print(b, q, s, cells);
    KeepsHeader(b, q, s, cells);
    if !o.Register? {
      assert 0 !in text(o.message);
      assert s <= Pointed(b', p')[..RESPONSE_PACKET_BUF_SIZE - 1];
      CTextIs(Pointed(b', p')[..RESPONSE_PACKET_BUF_SIZE - 1], text(o.message));
    }
  }

  lemma KeepsHeader(b: Board, p: Packet, bytes: seq<byte>, cells: seq<Cell>)
    ensures var q := Print(b, p, bytes, cells).1; q.comm == p.comm && q.num == p.num && q.buf == p.buf
  {
  }

  // ---------------------------------------------------------------- what every call keeps

  /** Every call keeps the handlers valid. */
  lemma EffectKeeps(b: Board, c: Command, env: Env)
    requires ValidBoard(b) && Admitted(c)
    ensures var (b', o) := Effect(b, c, env);
            && ValidBoard(b')
            && (o.Register? ==> CarriesData(o.comm) && |o.bytes| == |o.cells| == 4)
            && (o.Samples? ==>
                  && CarriesData(o.comm) && 0 < o.num <= RESPONSE_PACKET_BUF_SIZE
                  && o.byteOffset + o.num <= b'.Of(o.chip).count * SampleSize(o.chip) < MAX_DMA_TRANSFER_SIZE)
  {
    hide Valid, Get, Capture, S32, U32, StoreWord, ReadWord;
    ValidMemory(b);
    StoreKeeps(b, c.addr, c.val);
    if c.comm in {FMC150_CAPTURE, DDC_CAPTURE} {
      var chip := if c.comm == FMC150_CAPTURE then Adc else Ddc;
      if c.val <= MaxSamples(chip) {
        CaptureKeeps(chip, b.Of(chip), c.val, env.dma);
      }
    } else if c.comm in {FMC150_GET_SAMPLES, DDC_GET_SAMPLES} {
      var chip := if c.comm == FMC150_GET_SAMPLES then Adc else Ddc;
      AdmittedGet(c, chip);
      if c.val <= MaxSamples(chip) {
        GetKeepsExactly(chip, b.Of(chip), c.val, env.dma);
        if Get(chip, b.Of(chip), c.val, env.dma).1.GetOk? {
          PayloadInBuffer(chip, b.Of(chip), c.val, env.dma);
        }
      }
    }
  }

  lemma ValidMemory(b: Board)
    requires ValidBoard(b)
    ensures |b.adc.memory| == |b.ddc.memory| == REGION_SIZE
  {
  }

  lemma StoreKeeps(b: Board, addr: u32, val: u32)
    requires ValidBoard(b)
    ensures ValidBoard(StoreWord(b, addr, val))
    ensures forall chip: Chip :: var st, st' := b.Of(chip), StoreWord(b, addr, val).Of(chip);
              st' == st.(memory := st'.memory, cells := st'.cells)
  {
    hide HostBytes, Tiles;
  }

  lemma AdmittedGet(c: Command, chip: Chip)
    requires Admitted(c) && IsGet(c, chip)
    ensures c.val > 0
  {
  }

  /** Every call keeps the handlers and the packet valid, whatever is stored where. */
  lemma HandleKeeps(b: Board, p: Packet, c: Command, env: Env, text: Texts)
    requires ValidBoard(b) && ValidPacket(p) && Admitted(c) && GoodTexts(text)
    ensures var (b', p', o) := Handle(b, p, c, env, text); ValidBoard(b') && ValidPacket(p')
  {
    hide Effect, ValidBoard, Print, CarriesData, LandBoard;
    LandBoardKeeps(b, env.early);
    EffectKeeps(LandBoard(b, env.early), c, env);
    var (b1, o) := Effect(LandBoard(b, env.early), c, env);
    LandBoardKeeps(b1, env.late);
    SamplesInBuffer(b1, o);
    if Stored(o, text).Some? {
      AnswerRead(LandBoard(b1, env.late), p, o, text);
    }
  }

  lemma SamplesInBuffer(b: Board, o: Outcome)
    requires o.Samples? ==> o.byteOffset + o.num <= b.Of(o.chip).count * SampleSize(o.chip) < MAX_DMA_TRANSFER_SIZE
    ensures o.Samples? ==> o.byteOffset < MAX_DMA_TRANSFER_SIZE
  {
  }

  function Captures(chip: Chip): set<u32> {
    if chip.Adc? then {FMC150_CAPTURE, FMC150_GET_SAMPLES} else {DDC_CAPTURE, DDC_GET_SAMPLES}
  }

  /** The command stores into byte i of a handler's region: as a soft register, or with its answer. */
  predicate Stores(p: Packet, c: Command, o: Outcome, text: Texts, chip: Chip, i: int) {
    || (c.comm == SOFT_REG_WRITE && Place(c.addr).Some?
        && Place(c.addr).value.0 == chip && Place(c.addr).value.1 <= i < Place(c.addr).value.1 + 4)
    || (Stored(o, text).Some? && p.buf.Into? && p.buf.chip == chip
        && p.buf.offset <= i < p.buf.offset + |Stored(o, text).value|)
  }

  /** A command for something else leaves a handler as it is, except for its memory: bytes may land there, and bytes
      may be stored through a pointer an earlier transfer left behind or at the address of a soft register. */
  lemma HandleIsolated(b: Board, p: Packet, c: Command, env: Env, text: Texts, chip: Chip)
    requires ValidBoard(b) && ValidPacket(p) && Admitted(c) && GoodTexts(text) && c.comm !in Captures(chip)
    ensures var (b', p', o) := Handle(b, p, c, env, text); var st, st' := b.Of(chip), b'.Of(chip);
            && st' == st.(memory := st'.memory, cells := st'.cells, landed := st'.landed)
            && |st'.memory| == |st.memory|
            && forall i | 0 <= i < |st.memory| ::
                 st'.memory[i] == st.memory[i] || st.landed <= i < st'.landed || Stores(p, c, o, text, chip, i)
  {
    hide Valid, Get, Capture, Place, HostBytes, Land, ValidBoard, Effect;
    var b0 := LandBoard(b, env.early);
    LandBoardKeeps(b, env.early);
    LandMoves(b.Of(chip), env.early.Of(chip));
    EffectIsolated(b0, c, env, chip);
    var (b1, o) := Effect(b0, c, env);
    LandBoardKeeps(b1, env.late);
    LandMoves(b1.Of(chip), env.late.Of(chip));
  }

  lemma EffectIsolated(b: Board, c: Command, env: Env, chip: Chip)
    requires ValidBoard(b) && Admitted(c) && c.comm !in Captures(chip)
    ensures Effect(b, c, env).0.Of(chip) == if c.comm == SOFT_REG_WRITE then StoreWord(b, c.addr, c.val).Of(chip) else b.Of(chip)
  {
    hide Valid, Get, Capture, StoreWord, ReadWord;
  }

  /** Landing changes only the bytes that land. */
  lemma LandMoves(st: State, upto: nat)
    ensures var st' := Land(st, upto);
            && |st'.memory| == |st.memory|
            && forall i | 0 <= i < |st.memory| :: st'.memory[i] == st.memory[i] || st.landed <= i < st'.landed
  {
  }

  /** A register read that nobody overwrites arrives: the client parses a data packet whose four bytes, low byte
      first, are the value; for an address in a DMA region, the four bytes that lie there. The handlers stay, except
      for what lands and for the four bytes stored through the pointer. */
  lemma RegisterArrives(b: Board, p: Packet, c: Command, env: Env, text: Texts, tail: seq<byte>)
    requires ValidBoard(b) && ValidPacket(p) && Admitted(c) && GoodTexts(text)
    requires c.comm == SOFT_REG_READ || (c.comm == FMC150_READ && env.spiReady)
    ensures var (b', p', o) := Handle(b, p, c, env, text);
            var now := LandBoard(b, env.early);
            && ValidBoard(b') && ValidPacket(p') && o.Register?
            && b' == Print(LandBoard(now, env.late), p, o.bytes, o.cells).0
            && var r := Fetch(b', p'); var v := r.body;
               && ParseResponse(Frame(r) + tail) == Some((r, 12))
               && r.comm == (if c.comm == SOFT_REG_READ then SOFT_REG_NEW_DATA else FMC150_NEW_DATA)
               && |v| == 4
               && match (if c.comm == SOFT_REG_READ then Place(c.addr) else None)
                  case None => FromBigEndian([v[3], v[2], v[1], v[0]]) == env.regValue
                  case Some((chip, at)) =>
                    at + 4 <= |now.Of(chip).memory| && v == now.Of(chip).memory[at..at + 4]
  {
    hide Valid, Frame, ParseResponse, HostBytes, FromBigEndian, Fetch, Land, Place;
    var now := LandBoard(b, env.early);
    LandBoardKeeps(b, env.early);
    LandBoardKeeps(now, env.late);
    PlaceInRegion(c.addr);
    ValidMemory(now);
    var o := Effect(now, c, env).1;
    AnswerRead(LandBoard(now, env.late), p, o, text);
    var (b', p', _) := Handle(b, p, c, env, text);
    FrameSize(Fetch(b', p'));
    ParseFrame(Fetch(b', p'), tail);
  }

  /** Exactly when a request is answered with an error. */
  lemma FailsExactly(b: Board, c: Command, env: Env)
    requires ValidBoard(b) && Admitted(c)
    ensures Fails(Effect(b, c, env).1) <==>
              || !(c.comm in {FMC150_CAPTURE, FMC150_GET_SAMPLES, FMC150_READ, FMC150_WRITE, DDC_CAPTURE, DDC_GET_SAMPLES,
                              LED_READ, LED_WRITE, SOFT_REG_READ, SOFT_REG_WRITE})
              || (c.comm == FMC150_READ && !env.spiReady)
              || (c.comm in {FMC150_CAPTURE, FMC150_GET_SAMPLES} && c.val > MaxSamples(Adc))
              || (c.comm in {DDC_CAPTURE, DDC_GET_SAMPLES} && c.val > MaxSamples(Ddc))
              || (c.comm in {FMC150_CAPTURE, DDC_CAPTURE} && (!env.dma.accepts || c.val == 0))
              || (c.comm == FMC150_GET_SAMPLES && DmaFails(Left(b.adc), env.dma))
              || (c.comm == DDC_GET_SAMPLES && DmaFails(Left(b.ddc), env.dma))
  {
    hide Valid, Get, Capture, Accepts, S32, U32, GetEffect, StoreWord, ReadWord;
    ValidMemory(b);
    if c.comm in {FMC150_CAPTURE, DDC_CAPTURE} {
      var chip := if c.comm == FMC150_CAPTURE then Adc else Ddc;
      if c.val <= MaxSamples(chip) {
        CaptureKeeps(chip, b.Of(chip), c.val, env.dma);
      }
    }
    if c.comm in {FMC150_GET_SAMPLES, DDC_GET_SAMPLES} {
      var chip := if c.comm == FMC150_GET_SAMPLES then Adc else Ddc;
      AdmittedGet(c, chip);
      GetFailsExactly(b, chip, c.val, env.dma);
    }
  }

  lemma GetFailsExactly(b: Board, chip: Chip, val: u32, dma: Dma)
    requires ValidBoard(b) && val > 0
    ensures Fails(GetEffect(b, chip, val, dma).1) <==> val > MaxSamples(chip) || DmaFails(Left(b.Of(chip)), dma)
  {
    hide Get, Capture;
    if val <= MaxSamples(chip) {
      GetHandsOut(chip, b.Of(chip), val, dma);
      var r := Get(chip, b.Of(chip), val, dma).1;
      assert r.GetFailed? <==> DmaFails(Left(b.Of(chip)), dma);
    }
  }

  /** A transfer has to be started and is refused, or the engine stays busy through every poll. */
  predicate DmaFails(left: int, dma: Dma) {
    (left <= 0 && !dma.accepts) || dma.busyPolls >= MAX_DMA_TRIES
  }

  function After(b: Board, c: Call, text: Texts): (r: Board)
    requires ValidBoard(b) && GoodTexts(text) && GoodCall(c)
    ensures ValidBoard(r)
  {
    match c
    case Pause(l) =>
      LandBoardKeeps(b, l);
      LandBoard(b, l)
    case Call(command, env, packet) =>
      HandleKeeps(b, packet, command, env, text);
      Handle(b, packet, command, env, text).0
  }

  /** Whole calls of any connections, one after the other. */
  function Interleave(b: Board, calls: seq<Call>, text: Texts): (r: Board)
    requires ValidBoard(b) && GoodTexts(text) && forall c | c in calls :: GoodCall(c)
    ensures ValidBoard(r)
    decreases |calls|
  {
    if calls == [] then b
    else
      assert GoodCall(calls[0]);
      Interleave(After(b, calls[0], text), calls[1..], text)
  }
}
