/** What every command does and how it is answered, with the numbers of the protocol written out. */
module Protocol {
  import opened Words
  import opened Common
  import opened LowLevel
  import opened Wire
  import opened Requests
  import opened Delivery
  import opened Tracing

  /** The bytes of one sample: two channels for the ADC, three deltas for the DDC. */
  lemma SampleBytes(chip: Chip)
    ensures SampleSize(chip) == if chip.Adc? then 4 else 16
    ensures PacketSamples(chip) == if chip.Adc? then 1024 else 256
    ensures MaxSamples(chip) == if chip.Adc? then 2097151 else 524287
  {
  }

  /** The counts a transfer admits: exactly those whose bytes, counted without wrapping, the DMA engine can transfer. */
  lemma AdmittedCounts(cmd: Command, chip: Chip)
    requires IsGet(cmd, chip)
    ensures cmd.comm == if chip.Adc? then 3 else 7
    ensures GoodGet(cmd, chip) <==> 1 <= cmd.val <= if chip.Adc? then 2097151 else 524287
    ensures GoodGet(cmd, chip) <==> 1 <= cmd.val * (if chip.Adc? then 4 else 16) <= 0x7f_ffff
  {
  }

  // ---------------------------------------------------------------- answers

  function Limit(comm: u32): nat {
    if comm == 2 || comm == 3 then 2097151 else 524287
  }

  /** The outcome of every command, by its number: 2 and 6 capture, 3 and 7 fetch samples, 4 and 5 read and write an
      FMC150 register, 12 and 13 the LEDs, 14 and 15 a soft register. */
  lemma Outcomes(b: Board, p: Packet, c: Command, env: Env, text: Texts)
    requires ValidBoard(b) && ValidPacket(p) && Admitted(c) && GoodTexts(text)
    ensures var o := Handle(b, p, c, env, text).2;
            && (c.comm in {2, 6} ==>
                  o == if c.val > Limit(c.comm) then Failure(InvalidValue(Limit(c.comm)))
                       else if env.dma.accepts && c.val > 0 then Done(CaptureStarted) else Failure(CaptureError))
            && (c.comm in {3, 7} ==>
                  var left := Left(if c.comm == 3 then b.adc else b.ddc);
                  if c.val > Limit(c.comm) then o == Failure(InvalidValue(Limit(c.comm)))
                  else if (left == 0 && !env.dma.accepts) || env.dma.busyPolls >= 5 then o == Failure(GetError)
                  else
                    && o.Samples? && o.chip == (if c.comm == 3 then Adc else Ddc)
                    && o.comm == (if c.comm == 3 then 3 else 5) + if o.byteOffset == 0 then 0 else 1)
            && (c.comm == 4 ==>
                  if env.spiReady then
                    && o.Register? && o.comm == 3 && |o.bytes| == 4
                    && FromBigEndian([o.bytes[3], o.bytes[2], o.bytes[1], o.bytes[0]]) == env.regValue
                  else o == Failure(ReadError))
            && (c.comm == 14 ==> o.Register? && o.comm == 9 && |o.bytes| == 4)
            && (c.comm in {5, 15} ==> o == Done(WriteOk))
            && (c.comm == 12 ==> o == Done(LedValue(env.regValue)))
            && (c.comm == 13 ==> o == Done(LedWritten))
            && (c.comm !in {2, 3, 4, 5, 6, 7, 12, 13, 14, 15} ==> o == NoHandler)
  {
    hide Effect, LandBoard, Respond, ValidBoard, FromBigEndian;
    LandBoardKeeps(b, env.early);
    assert LandBoard(b, env.early).Of(Adc) == LandBoard(b, env.early).adc;
    assert LandBoard(b, env.early).Of(Ddc) == LandBoard(b, env.early).ddc;
    EffectOutcomes(LandBoard(b, env.early), c, env);
  }

  lemma EffectOutcomes(b: Board, c: Command, env: Env)
    requires ValidBoard(b) && Admitted(c)
    ensures var o := Effect(b, c, env).1;
            && (c.comm in {2, 6} ==>
                  o == if c.val > Limit(c.comm) then Failure(InvalidValue(Limit(c.comm)))
                       else if env.dma.accepts && c.val > 0 then Done(CaptureStarted) else Failure(CaptureError))
            && (c.comm in {3, 7} ==>
                  var left := Left(if c.comm == 3 then b.adc else b.ddc);
                  if c.val > Limit(c.comm) then o == Failure(InvalidValue(Limit(c.comm)))
                  else if (left == 0 && !env.dma.accepts) || env.dma.busyPolls >= 5 then o == Failure(GetError)
                  else
                    && o.Samples? && o.chip == (if c.comm == 3 then Adc else Ddc)
                    && o.comm == (if c.comm == 3 then 3 else 5) + if o.byteOffset == 0 then 0 else 1)
            && (c.comm == 4 ==>
                  if env.spiReady then
                    && o.Register? && o.comm == 3 && |o.bytes| == 4
                    && FromBigEndian([o.bytes[3], o.bytes[2], o.bytes[1], o.bytes[0]]) == env.regValue
                  else o == Failure(ReadError))
            && (c.comm == 14 ==> o.Register? && o.comm == 9 && |o.bytes| == 4)
            && (c.comm in {5, 15} ==> o == Done(WriteOk))
            && (c.comm == 12 ==> o == Done(LedValue(env.regValue)))
            && (c.comm == 13 ==> o == Done(LedWritten))
            && (c.comm !in {2, 3, 4, 5, 6, 7, 12, 13, 14, 15} ==> o == NoHandler)
  {
    hide Valid, Get, Capture, Accepts, S32, U32, StoreWord, ReadWord, HostBytes, FromBigEndian, GetEffect;
    ValidMemory(b);
    SampleBytes(Adc);
    SampleBytes(Ddc);
    if c.comm in {2, 6} {
      var chip := if c.comm == 2 then Adc else Ddc;
      if c.val <= MaxSamples(chip) {
        CaptureKeeps(chip, b.Of(chip), c.val, env.dma);
      }
    } else if c.comm in {3, 7} {
      var chip := if c.comm == 3 then Adc else Ddc;
      AdmittedGet(c, chip);
      GetOutcomes(b, chip, c.val, env.dma);
    }
  }

  lemma GetOutcomes(b: Board, chip: Chip, val: u32, dma: Dma)
    requires ValidBoard(b) && val > 0
    ensures var o := GetEffect(b, chip, val, dma).1; var max := if chip.Adc? then 2097151 else 524287;
            if val > max then o == Failure(InvalidValue(max))
            else if (Left(b.Of(chip)) == 0 && !dma.accepts) || dma.busyPolls >= 5 then o == Failure(GetError)
            else
              && o.Samples? && o.chip == chip
              && o.comm == (if chip.Adc? then 3 else 5) + if o.byteOffset == 0 then 0 else 1
  {
    hide Get, Capture, Tiles, ValidControl, Running;
    SampleBytes(chip);
    if val <= MaxSamples(chip) {
      GetHandsOut(chip, b.Of(chip), val, dma);
      var r := Get(chip, b.Of(chip), val, dma).1;
      assert r.GetOk? || r.GetFailed?;
    }
  }

  /** The type and size of the answer: 1 for a text, with its terminator; the type and size of the data otherwise. */
  lemma AnswerHeader(b: Board, p: Packet, c: Command, env: Env, text: Texts)
    requires ValidBoard(b) && ValidPacket(p) && Admitted(c) && GoodTexts(text)
    ensures var (b', p', o) := Handle(b, p, c, env, text);
            && (o.Failure? || o.Done? ==> p'.comm == 1 && p'.num == |text(o.message)| + 1 && p'.buf == p.buf)
            && (o.Register? ==> p'.comm == o.comm && p'.num == 4 && p'.buf == p.buf)
            && (o.Samples? ==> p'.comm == o.comm && p'.num == o.num && p'.buf == Into(o.chip, o.byteOffset))
            && (o.NoHandler? ==> p' == p)
  {
    hide Effect, LandBoard;
  }

  // ---------------------------------------------------------------- handlers

  /** A count above the limit, to be captured or fetched: refused with the limit, and both handlers are as before but
      for bytes that land and the text that is stored through the pointer. */
  lemma RangeRefused(b: Board, p: Packet, c: Command, env: Env, text: Texts)
    requires ValidBoard(b) && ValidPacket(p) && Admitted(c) && GoodTexts(text)
    requires c.comm in {2, 3, 6, 7} && c.val > Limit(c.comm)
    ensures var (b', p', o) := Handle(b, p, c, env, text);
            && o == Failure(InvalidValue(Limit(c.comm)))
            && forall chip: Chip :: var st, st' := b.Of(chip), b'.Of(chip);
                 && st' == st.(memory := st'.memory, cells := st'.cells, landed := st'.landed)
                 && |st'.memory| == |st.memory|
                 && forall i | 0 <= i < |st.memory| ::
                      || st'.memory[i] == st.memory[i] || st.landed <= i < st'.landed
                      || (p.buf.Into? && p.buf.chip == chip && p.buf.offset <= i < p.buf.offset + |text(o.message)| + 1)
  {
    hide Effect, LandBoard, ValidBoard, Land;
    var b0 := LandBoard(b, env.early);
    LandBoardKeeps(b, env.early);
    EffectRefused(b0, c, env);
    LandBoardKeeps(b0, env.late);
    forall chip: Chip
      ensures var st, st', t := b.Of(chip), Handle(b, p, c, env, text).0.Of(chip), text(InvalidValue(Limit(c.comm)));
              && st' == st.(memory := st'.memory, cells := st'.cells, landed := st'.landed)
              && |st'.memory| == |st.memory|
              && forall i | 0 <= i < |st.memory| ::
                   || st'.memory[i] == st.memory[i] || st.landed <= i < st'.landed
                   || (p.buf.Into? && p.buf.chip == chip && p.buf.offset <= i < p.buf.offset + |t| + 1)
    {
      LandMoves(b.Of(chip), env.early.Of(chip));
      LandMoves(b0.Of(chip), env.late.Of(chip));
    }
  }

  lemma EffectRefused(b: Board, c: Command, env: Env)
    requires ValidBoard(b) && Admitted(c) && c.comm in {2, 3, 6, 7} && c.val > Limit(c.comm)
    ensures Effect(b, c, env) == (b, Failure(InvalidValue(Limit(c.comm))))
  {
    hide Valid, Get, Capture;
    SampleBytes(Adc);
    SampleBytes(Ddc);
  }

  /** An answer changes no more of the handlers than memory. */
  lemma HandleCounts(b: Board, p: Packet, c: Command, env: Env, text: Texts, chip: Chip)
    requires ValidBoard(b) && ValidPacket(p) && Admitted(c) && GoodTexts(text)
    ensures ValidBoard(LandBoard(b, env.early))
    ensures var (st, st') := (Effect(LandBoard(b, env.early), c, env).0.Of(chip), Handle(b, p, c, env, text).0.Of(chip));
            && st.landed <= st'.landed
            && st' == st.(memory := st'.memory, cells := st'.cells, landed := st'.landed)
  {
    hide Effect, LandBoard, ValidBoard;
    LandBoardKeeps(b, env.early);
    var b1 := Effect(LandBoard(b, env.early), c, env).0;
    LandBoardKeeps(b1, env.late);
    AnswerKeeps(LandBoard(b1, env.late), p, Effect(LandBoard(b, env.early), c, env).1, text, chip);
  }

  lemma AnswerKeeps(b: Board, p: Packet, o: Outcome, text: Texts, chip: Chip)
    requires GoodTexts(text)
    ensures var st, st' := b.Of(chip), Respond(b, p, o, text).0.Of(chip);
            st' == st.(memory := st'.memory, cells := st'.cells)
  {
  }

  /** A capture within the limit, accepted or not: the count is taken over and nothing of it is handed out; the engine
      is set to just as many samples if it is free and there are any, and left alone otherwise. */
  lemma CaptureCarried(b: Board, p: Packet, c: Command, env: Env, text: Texts)
    requires ValidBoard(b) && ValidPacket(p) && Admitted(c) && GoodTexts(text)
    requires c.comm in {2, 6} && c.val <= Limit(c.comm)
    ensures var (chip, size) := if c.comm == 2 then (Adc, 4) else (Ddc, 16);
            var (st, st') := (b.Of(chip), Handle(b, p, c, env, text).0.Of(chip));
            && st'.count == c.val && st'.pos == 0 && st'.handed == [] && st'.dmaLength == c.val * size
            && (if env.dma.accepts && c.val > 0 then
                  && st'.source == Some(|st.transfers|) && |st'.transfers| == |st.transfers| + 1
                  && st'.transfers[..|st.transfers|] == st.transfers
                  && |st'.transfers[|st.transfers|]| == c.val * size
                  && (forall i | 0 <= i < c.val * size :: st'.transfers[|st.transfers|][i] == env.dma.data(i))
                  && st'.control == 0x20_0000 + if c.comm == 2 then c.val else c.val - 1
                else
                  && st'.source == None && st'.transfers == st.transfers && st'.control == st.control)
  {
    hide Effect, LandBoard, ValidBoard, Captured;
    var chip := if c.comm == 2 then Adc else Ddc;
    SampleBytes(chip);
    LandBoardKeeps(b, env.early);
    HandleCounts(b, p, c, env, text, chip);
    EffectCaptures(LandBoard(b, env.early), c, env, chip);
    CapturedData(chip, c.val, env.dma);
  }

  lemma EffectCaptures(b: Board, c: Command, env: Env, chip: Chip)
    requires ValidBoard(b) && Admitted(c) && c.comm == (if chip.Adc? then 2 else 6) && c.val <= MaxSamples(chip)
    ensures var (st, st') := (b.Of(chip), Effect(b, c, env).0.Of(chip));
            && st'.count == c.val && st'.pos == 0 && st'.handed == [] && st'.dmaLength == c.val * SampleSize(chip)
            && (if env.dma.accepts && c.val > 0 then
                  && st'.source == Some(|st.transfers|) && st'.transfers == st.transfers + [Captured(chip, c.val, env.dma)]
                  && st'.control == 0x20_0000 + if chip.Adc? then c.val else c.val - 1
                else
                  && st'.source == None && st'.transfers == st.transfers && st'.control == st.control)
  {
    hide Valid, Get, Capture, Accepts, Captured, SampleSize;
    CaptureKeeps(chip, b.Of(chip), c.val, env.dma);
    CaptureStart(chip, b.Of(chip), c.val, env.dma);
  }

  lemma CapturedData(chip: Chip, n: nat, dma: Dma)
    ensures |Captured(chip, n, dma)| == n * (if chip.Adc? then 4 else 16)
    ensures forall i | 0 <= i < |Captured(chip, n, dma)| :: Captured(chip, n, dma)[i] == dma.data(i)
  {
  }

  /** A fetch within the limit: one sample if the whole request would fit in what is left, else as many as are left and
      fit a packet, from a new capture of the request if nothing is left; nothing if the engine refuses or is busy. */
  lemma GetCarried(b: Board, p: Packet, c: Command, env: Env, text: Texts)
    requires ValidBoard(b) && ValidPacket(p) && Admitted(c) && GoodTexts(text)
    requires c.comm in {3, 7} && c.val <= Limit(c.comm)
    ensures var (chip, size, most) := if c.comm == 3 then (Adc, 4, 1024) else (Ddc, 16, 256);
            var (b', p', o) := Handle(b, p, c, env, text); var st, st' := b.Of(chip), b'.Of(chip);
            var left := Left(st); var anew := left == 0;
            var lo, count := if anew then 0 else st.pos, if anew then c.val else st.count;
            var n := if c.val <= left then 1 else if count - lo < most then count - lo else most;
            && st'.count == count
            && (if (anew && !env.dma.accepts) || env.dma.busyPolls >= 5 then o == Failure(GetError) && st'.pos == lo
                else
                  && o.Samples? && o.byteOffset == lo * size && o.num == n * size
                  && st'.pos == lo + n && p'.buf == Into(chip, lo * size) && p'.num == n * size)
            && |st'.transfers| == |st.transfers| + (if anew && env.dma.accepts then 1 else 0)
  {
    hide Effect, LandBoard, ValidBoard;
    var chip := if c.comm == 3 then Adc else Ddc;
    LandBoardKeeps(b, env.early);
    HandleCounts(b, p, c, env, text, chip);
    EffectGets(LandBoard(b, env.early), c, env, chip);
    SampleBytes(chip);
  }

  lemma EffectGets(b: Board, c: Command, env: Env, chip: Chip)
    requires ValidBoard(b) && Admitted(c) && c.comm == (if chip.Adc? then 3 else 7) && c.val <= MaxSamples(chip)
    ensures var (b', o) := Effect(b, c, env); var st, st' := b.Of(chip), b'.Of(chip);
            var left := Left(st); var anew := left == 0;
            var lo, count := if anew then 0 else st.pos, if anew then c.val else st.count;
            var n := if c.val <= left then 1 else if count - lo < PacketSamples(chip) then count - lo else PacketSamples(chip);
            && st'.count == count
            && (if (anew && !env.dma.accepts) || env.dma.busyPolls >= 5 then o == Failure(GetError) && st'.pos == lo
                else
                  && o.Samples? && o.chip == chip && o.byteOffset == lo * SampleSize(chip) && o.num == n * SampleSize(chip)
                  && st'.pos == lo + n)
            && |st'.transfers| == |st.transfers| + (if anew && env.dma.accepts then 1 else 0)
  {
    hide Valid, Get, Capture, Accepts, Land, SampleSize, PacketSamples, MaxSamples, GetEffect, S32, U32;
    AdmittedGet(c, chip);
    var st, dma := b.Of(chip), env.dma;
    NoneBelow(chip, st);
    GetHandsOut(chip, st, c.val, dma);
    CaptureKeeps(chip, st, c.val, dma);
    CaptureStart(chip, st, c.val, dma);
    var from := if Left(st) > 0 then st else Capture(chip, st, c.val, dma);
    LandKeeps(chip, from, |Running(from)|);
    GetReports(b, chip, c.val, dma);
    var r := Get(chip, st, c.val, dma).1;
    assert r.GetOk? || r.GetFailed?;
  }

  lemma NoneBelow(chip: Chip, st: State)
    requires Valid(chip, st)
    ensures Left(st) >= 0
  {
  }

  lemma GetReports(b: Board, chip: Chip, val: u32, dma: Dma)
    requires ValidBoard(b) && 0 < val <= MaxSamples(chip)
    ensures var (b', o) := GetEffect(b, chip, val, dma); var (st', r) := Get(chip, b.Of(chip), val, dma);
            && b'.Of(chip) == st'
            && (if r.GetOk? then
                  && o.Samples? && o.chip == chip
                  && o.byteOffset == r.byteOffset && o.num == r.size * SampleSize(chip)
                else o == Failure(GetError))
  {
    hide Get, Valid, SampleSize;
    var r := Get(chip, b.Of(chip), val, dma).1;
    assert r.GetOk? || r.GetFailed?;
  }

  // ---------------------------------------------------------------- soft registers

  /** The addresses that lead into the DMA buffers: 16 MB for the ADC from 0xC1000000 on, 16 MB for the DDC behind it. */
  lemma PlaceNumbers(addr: u32)
    ensures Place(addr) == if 0xC100_0000 <= addr < 0xC200_0000 then Some((Adc, (addr - 0xC100_0000) / 4 * 4))
                           else if 0xC200_0000 <= addr < 0xC300_0000 then Some((Ddc, (addr - 0xC200_0000) / 4 * 4))
                           else None
  {
  }

  /** The answer of a call is stored over the four bytes at `at`. */
  predicate AnswersOver(p: Packet, m: Message, text: Texts, chip: Chip, at: nat) {
    p.buf.Into? && p.buf.chip == chip && p.buf.offset < at + 4 && at < p.buf.offset + |text(m)| + 1
  }

  /** A value written to a soft register in a DMA buffer is read back by any connection, if no transfer is in progress
      there and the answer to the write is not stored over it. */
  lemma SoftRegister(b: Board, p: Packet, write: Command, env: Env, q: Packet, read: Command, env': Env, text: Texts)
    requires ValidBoard(b) && ValidPacket(p) && ValidPacket(q) && GoodTexts(text)
    requires write.comm == 15 && read.comm == 14 && read.addr == write.addr && 0xC100_0000 <= write.addr < 0xC300_0000
    requires var (chip, at) := Place(write.addr).value;
             Settled(b.Of(chip)) && !AnswersOver(p, WriteOk, text, chip, at)
    ensures Admitted(write) && Admitted(read) && ValidBoard(Handle(b, p, write, env, text).0)
    ensures var b' := Handle(b, p, write, env, text).0; var o := Handle(b', q, read, env', text).2;
            && o.Register? && |o.bytes| == 4
            && FromBigEndian([o.bytes[3], o.bytes[2], o.bytes[1], o.bytes[0]]) == write.val
  {
    hide ValidBoard, Handle, HostBytes, FromBigEndian, Place, Settled, AnswersOver;
    PlaceNumbers(write.addr);
    var (chip, at) := Place(write.addr).value;
    HandleKeeps(b, p, write, env, text);
    WordStored(b, p, write, env, text, chip, at);
    WordRead(Handle(b, p, write, env, text).0, q, read, env', text, chip, at);
  }

  lemma WordStored(b: Board, p: Packet, c: Command, env: Env, text: Texts, chip: Chip, at: nat)
    requires ValidBoard(b) && ValidPacket(p) && GoodTexts(text) && c.comm == 15 && Admitted(c) && Settled(b.Of(chip))
    requires Place(c.addr) == Some((chip, at)) && !AnswersOver(p, WriteOk, text, chip, at)
    ensures var st := Handle(b, p, c, env, text).0.Of(chip);
            && Settled(st) && at + 4 <= |st.memory| && st.memory[at..at + 4] == HostBytes(c.val)
  {
    hide ValidBoard, HostBytes, Land, Place, Overlaid;
    var b0 := LandBoard(b, env.early);
    LandBoardKeeps(b, env.early);
    LandKeeps(chip, b.Of(chip), env.early.Of(chip));
    PlaceInRegion(c.addr);
    ValidMemory(b);
    var b1 := StoreWord(b0, c.addr, c.val);
    LandBoardKeeps(b1, env.late);
    LandKeeps(chip, b1.Of(chip), env.late.Of(chip));
    var m, t := b.Of(chip).memory, text(WriteOk) + [0];
    OverlaidWord(m, at, HostBytes(c.val));
    if p.buf.Into? && p.buf.chip == chip {
      OverlaidElsewhere(Overlaid(m, at, HostBytes(c.val)), p.buf.offset, t, at);
    }
  }

  lemma OverlaidWord(m: seq<byte>, at: nat, b: seq<byte>)
    requires at + |b| <= |m|
    ensures |Overlaid(m, at, b)| == |m| && Overlaid(m, at, b)[at..at + |b|] == b
  {
  }

  lemma OverlaidElsewhere(m: seq<byte>, from: nat, b: seq<byte>, at: nat)
    requires at + 4 <= |m| && (from >= at + 4 || from + |b| <= at)
    ensures |Overlaid(m, from, b)| == |m| && Overlaid(m, from, b)[at..at + 4] == m[at..at + 4]
  {
  }

  lemma WordRead(b: Board, p: Packet, c: Command, env: Env, text: Texts, chip: Chip, at: nat)
    requires ValidBoard(b) && ValidPacket(p) && GoodTexts(text) && c.comm == 14 && Admitted(c) && Settled(b.Of(chip))
    requires Place(c.addr) == Some((chip, at)) && at + 4 <= |b.Of(chip).memory|
    ensures var o := Handle(b, p, c, env, text).2; o.Register? && o.bytes == b.Of(chip).memory[at..at + 4]
  {
    hide ValidBoard, HostBytes, Land, Place, LandBoard, Respond;
    LandBoardKeeps(b, env.early);
    LandKeeps(chip, b.Of(chip), env.early.Of(chip));
    PlaceInRegion(c.addr);
    ValidMemory(LandBoard(b, env.early));
  }
}
