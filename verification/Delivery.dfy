/** What a client of the server gets: how much, in how many packets, and which bytes. */
module Delivery {
  import opened Words
  import opened Common
  import opened LowLevel
  import opened Wire
  import opened Requests
  import opened Server
  import Connection

  // ---------------------------------------------------------------- reading a transcript

  /** The payloads of the successful attempts, one after the other. */
  function Bodies(attempts: seq<Attempt>): seq<byte> {
    if attempts == [] then []
    else (if attempts[0].ok then attempts[0].response.body else []) + Bodies(attempts[1..])
  }

  function Responses(attempts: seq<Attempt>): (r: seq<Response>)
    ensures |r| == |attempts|
    ensures forall i | 0 <= i < |r| :: r[i] == attempts[i].response
  {
    seq(|attempts|, i requires 0 <= i < |attempts| => attempts[i].response)
  }

  function OkCount(attempts: seq<Attempt>): nat {
    if attempts == [] then 0 else (if attempts[0].ok then 1 else 0) + OkCount(attempts[1..])
  }

  /** Every attempt succeeded and was handed to the socket without an error; the peer may have closed meanwhile. */
  predicate Completed(attempts: seq<Attempt>) {
    forall a | a in attempts :: a.ok && (a.delivered.Full? || a.delivered.Closed?)
  }

  function Other(chip: Chip): Chip {
    if chip.Adc? then Ddc else Adc
  }

  function ChipTags(chip: Chip): Tags {
    if chip.Adc? then Tags(FMC150_NEW_DATA, FMC150_REMAINING_DATA) else Tags(DDC_NEW_DATA, DDC_REMAINING_DATA)
  }

  /** A GET_SAMPLES command with a count the range check accepts. */
  predicate GoodGet(cmd: Command, chip: Chip) {
    IsGet(cmd, chip) && 0 < cmd.val <= MaxSamples(chip)
  }

  /** In range nothing wraps: the loop is entered with the exact byte count. */
  lemma GoodGetBytes(cmd: Command, chip: Chip)
    requires GoodGet(cmd, chip)
    ensures PrepareToHandle(cmd) == cmd.val * SampleSize(chip) > 0 && Admitted(cmd)
  {
    match chip
    case Adc =>
    case Ddc =>
  }

  // ---------------------------------------------------------------- counts out of range

  /** The loop is entered exactly when the byte count, wrapped to 32 bits, is a positive int. */
  lemma BytesToCome(cmd: Command, chip: Chip)
    requires IsGet(cmd, chip)
    ensures PrepareToHandle(cmd) > 0
       <==> 0 < cmd.val * (if chip.Adc? then 4 else 16) % 0x1_0000_0000 < 0x8000_0000
  {
  }

  lemma BadCountEffect(b: Board, chip: Chip, cmd: Command, env: Env)
    requires ValidBoard(b) && IsGet(cmd, chip) && !GoodGet(cmd, chip) && Admitted(cmd)
    ensures Effect(b, cmd, env) == (b, Failure(InvalidValue(MaxSamples(chip))))
  {
    hide Valid, Get;
    AdmittedGet(cmd, chip);
  }

  /** The handlers when a refusal is printed, and after it. */
  ghost function Refused(c: Conn, chip: Chip, turns: nat -> Turn, text: Texts): (Board, Packet)
    requires ValidConn(c) && GoodTurns(turns) && GoodTexts(text)
  {
    var turn := turns(c.calls);
    PrintText(LandBoard(LandBoard(Interleave(c.board, turn.others, text), turn.env.early), turn.env.late), c.packet,
              text(InvalidValue(MaxSamples(chip))))
  }

  /** A count of zero or above the maximum never reaches a handler, whatever its byte count wraps to: at most one
      response, an error, and nothing touches the handlers but the calls of others, the engines and the error text.
      The text arrives unless something is stored or lands over it before it is copied. */
  lemma BadCount(c: Conn, chip: Chip, cmd: Command, turns: nat -> Turn, text: Texts)
    requires ValidConn(c) && !c.error && GoodTurns(turns) && GoodTexts(text)
    requires IsGet(cmd, chip) && !GoodGet(cmd, chip)
    ensures var s := Serve(c, cmd, PrepareToHandle(cmd), turns, text);
            var turn := turns(c.calls);
            var (printed, p) := Refused(c, chip, turns, text);
            && |s.attempts| == (if 0 < cmd.val * (if chip.Adc? then 4 else 16) % 0x1_0000_0000 < 0x8000_0000 then 1 else 0)
            && (s.attempts == [] ==> s.conn == c)
            && (s.attempts != [] ==>
                  && !s.attempts[0].ok && s.conn.error && s.conn.packet == p && ValidBoard(printed)
                  && s.conn.board == LandBoard(Interleave(printed, turn.between, text), turn.copy)
                  && (turn.between == [] && LandBoard(printed, turn.copy) == printed ==>
                        s.attempts[0].response == MessageResponse(text, InvalidValue(MaxSamples(chip)))))
  {
    hide Effect, Refused, Fetch, ValidBoard, Interleave, Admitted, GoodGet, Step, Serve, IsGet, LandBoard;
    Admission(cmd);
    BytesToCome(cmd, chip);
    ServeStep(c, cmd, PrepareToHandle(cmd), turns, text);
    if PrepareToHandle(cmd) > 0 {
      BadCountStep(c, chip, cmd, turns, text);
      var (c', a, out) := Step(c, cmd, turns, text);
      ServeStep(c', cmd, PrepareToHandle(cmd) + 1, turns, text);
    }
  }

  lemma BadCountStep(c: Conn, chip: Chip, cmd: Command, turns: nat -> Turn, text: Texts)
    requires ValidConn(c) && GoodTurns(turns) && GoodTexts(text)
    requires IsGet(cmd, chip) && !GoodGet(cmd, chip) && Admitted(cmd)
    ensures var turn := turns(c.calls);
            var (printed, p) := Refused(c, chip, turns, text);
            var (c', a, out) := Step(c, cmd, turns, text);
            && !a.ok && c'.packet == p && ValidBoard(printed)
            && c'.board == LandBoard(Interleave(printed, turn.between, text), turn.copy)
            && (turn.between == [] && LandBoard(printed, turn.copy) == printed ==>
                  a.response == MessageResponse(text, InvalidValue(MaxSamples(chip))))
  {
    hide Effect, PrintText, Fetch, ValidBoard, Admitted, GoodGet, IsGet, LandBoard;
    var turn := turns(c.calls);
    var before := Interleave(c.board, turn.others, text);
    LandBoardKeeps(before, turn.env.early);
    var early := LandBoard(before, turn.env.early);
    LandBoardKeeps(early, turn.env.late);
    BadCountEffect(early, chip, cmd, turn.env);
    AnswerRead(LandBoard(early, turn.env.late), c.packet, Failure(InvalidValue(MaxSamples(chip))), text);
  }

  // ---------------------------------------------------------------- a transfer under interference

  /** One sample packet of at most M samples, tagged for its chip. */
  ghost predicate SamplePacket(r: Response, chip: Chip, n: nat) {
    && 1 <= n <= PacketSamples(chip) && r.num == n * SampleSize(chip) == |r.body| <= RESPONSE_PACKET_BUF_SIZE
    && r.comm in {ChipTags(chip).newData, ChipTags(chip).remainingData}
  }

  lemma EffectGet(b: Board, chip: Chip, cmd: Command, env: Env)
    requires ValidBoard(b) && GoodGet(cmd, chip) && Admitted(cmd)
    ensures Effect(b, cmd, env) == GetEffect(b, chip, cmd.val, env.dma)
  {
    hide Valid, Get;
  }

  /** Whatever the others did before, a successful step of a transfer sends between 1 and M samples. */
  lemma StepGet(c: Conn, chip: Chip, cmd: Command, turns: nat -> Turn, text: Texts) returns (n: nat)
    requires ValidConn(c) && GoodTurns(turns) && GoodTexts(text) && GoodGet(cmd, chip) && Admitted(cmd)
    ensures var a := Step(c, cmd, turns, text).1; a.ok ==> SamplePacket(a.response, chip, n)
  {
    hide Interleave, ValidBoard, ValidPacket, Admitted, GoodGet, Pointed, Get, LandBoard;
    var turn := turns(c.calls);
    var b := Interleave(c.board, turn.others, text);
    LandBoardKeeps(b, turn.env.early);
    EffectGet(LandBoard(b, turn.env.early), chip, cmd, turn.env);
    n := PacketOf(LandBoard(b, turn.env.early), chip, cmd, turn.env.dma);
  }

  /** The size of the packet a successful transfer step names. */
  lemma PacketOf(b: Board, chip: Chip, cmd: Command, dma: Dma) returns (n: nat)
    requires ValidBoard(b) && GoodGet(cmd, chip)
    ensures cmd.val > 0
    ensures var o := GetEffect(b, chip, cmd.val, dma).1;
            && (o.Failure? || o.Samples?)
            && (o.Samples? ==>
                  && 1 <= n <= PacketSamples(chip) && o.num == n * SampleSize(chip) <= RESPONSE_PACKET_BUF_SIZE
                  && o.comm in {ChipTags(chip).newData, ChipTags(chip).remainingData} && CarriesData(o.comm))
  {
    hide Valid, Get, Capture;
    n := 0;
    var (st, r) := Get(chip, b.Of(chip), cmd.val, dma);
    if r.GetOk? {
      GetHandsOut(chip, b.Of(chip), cmd.val, dma);
      PayloadInBuffer(chip, b.Of(chip), cmd.val, dma);
      n := r.size;
    }
  }

  /** The transcript of a transfer of `samples` samples: that many packets at most, at most one attempt more
      that failed, less than one packet too many bytes, and no byte too few if nothing failed. */
  ghost predicate WithinBounds(attempts: seq<Attempt>, chip: Chip, samples: int) {
    && OkCount(attempts) <= (if samples > 0 then samples else 0)
    && |attempts| <= OkCount(attempts) + 1
    && (forall a | a in attempts && a.ok :: exists n :: SamplePacket(a.response, chip, n))
    && |Bodies(attempts)| <= (if samples > 0 then samples + PacketSamples(chip) - 1 else 0) * SampleSize(chip)
    && (Completed(attempts) ==> |attempts| == OkCount(attempts) && |Bodies(attempts)| >= samples * SampleSize(chip))
  }

  lemma BoundsNone(chip: Chip, samples: int)
    requires samples <= 0
    ensures WithinBounds([], chip, samples)
  {
    NegativeScale(samples, SampleSize(chip));
  }

  lemma BoundsLast(a: Attempt, chip: Chip, n: nat, samples: int)
    requires samples > 0 && (a.ok ==> SamplePacket(a.response, chip, n)) && (!a.ok || Breaks(a))
    ensures WithinBounds([a], chip, samples)
  {
    hide SamplePacket;
    OnlyAttempt(a, chip, n);
    assert a in [a];
    SampleScaleOrder(0, samples + PacketSamples(chip) - 1, SampleSize(chip));
    if a.ok {
      PacketFacts(a.response, chip, n);
      SampleScaleOrder(n, samples + PacketSamples(chip) - 1, SampleSize(chip));
    }
  }

  lemma BoundsMore(a: Attempt, rest: seq<Attempt>, chip: Chip, n: nat, samples: int)
    requires samples > 0 && a.ok && !Breaks(a) && SamplePacket(a.response, chip, n)
    requires WithinBounds(rest, chip, samples - n)
    ensures WithinBounds([a] + rest, chip, samples)
  {
    hide SamplePacket;
    var all := [a] + rest;
    assert all[0] == a && all[1..] == rest;
    PacketFacts(a.response, chip, n);
    Combine(samples, n, PacketSamples(chip), SampleSize(chip), |Bodies(rest)|);
    assert Completed(all) ==> Completed(rest) by {
      assert forall x | x in rest :: x in all;
    }
  }

  /** Whatever other connections do in between, a transfer stays within these bounds. */
  lemma {:induction false} TransferBounds(c: Conn, chip: Chip, cmd: Command, samples: int, turns: nat -> Turn, text: Texts)
    requires ValidConn(c) && !c.error && GoodTurns(turns) && GoodTexts(text) && GoodGet(cmd, chip) && Admitted(cmd)
    ensures WithinBounds(Serve(c, cmd, samples * SampleSize(chip), turns, text).attempts, chip, samples)
    decreases samples
  {
    hide Step, Serve, Admitted, GoodGet, ValidConn, SamplePacket, WithinBounds, SampleSize, PacketSamples, Breaks, Fetch;
    var k := SampleSize(chip);
    ServeStep(c, cmd, samples * k, turns, text);
    if samples > 0 {
      SampleScale(samples, k);
      var (c', a, out) := Step(c, cmd, turns, text);
      var n := StepGet(c, chip, cmd, turns, text);
      if Breaks(a) || !a.ok {
        LastStep(c', cmd, samples * k + 1, turns, text);
        assert [a] + [] == [a];
        BoundsLast(a, chip, n, samples);
      } else {
        PacketFacts(a.response, chip, n);
        Distribute(samples, n, k);
        TransferBounds(c', chip, cmd, samples - n, turns, text);
        BoundsMore(a, Serve(c', cmd, (samples - n) * k, turns, text).attempts, chip, n, samples);
      }
    } else {
      NegativeScale(samples, k);
      BoundsNone(chip, samples);
    }
  }

  lemma SampleScale(a: int, k: nat)
    requires a > 0 && k > 0
    ensures a * k > 0
  {
  }

  lemma NegativeScale(a: int, k: nat)
    requires a <= 0
    ensures a * k <= 0
  {
  }

  lemma SampleScaleOrder(a: int, b: int, k: nat)
    requires a <= b
    ensures a * k <= b * k
  {
    Distribute(b, a, k);
    NegativeScale(a - b, k);
    Distribute(a, b, k);
  }

  lemma LastStep(c: Conn, cmd: Command, remaining: int, turns: nat -> Turn, text: Texts)
    requires ValidConn(c) && GoodTurns(turns) && GoodTexts(text) && (remaining > 0 ==> Admitted(cmd))
    ensures c.error ==> Serve(c, cmd, remaining, turns, text).attempts == []
  {
    hide Step;
  }

  lemma PacketFacts(r: Response, chip: Chip, n: nat)
    requires SamplePacket(r, chip, n)
    ensures 1 <= n <= PacketSamples(chip) && r.num == |r.body| == n * SampleSize(chip)
  {
  }

  lemma OnlyAttempt(a: Attempt, chip: Chip, n: nat)
    requires a.ok ==> SamplePacket(a.response, chip, n)
    ensures OkCount([a]) == (if a.ok then 1 else 0) && |Bodies([a])| == if a.ok then n * SampleSize(chip) else 0
  {
    assert [a][1..] == [];
  }

  /** The arithmetic of one packet of n samples followed by the rest of the transfer. */
  lemma Combine(samples: int, n: nat, m: nat, k: nat, rest: nat)
    requires 1 <= n <= m && samples > 0
    requires rest <= (if samples - n > 0 then samples - n + m - 1 else 0) * k
    ensures n * k + rest <= (samples + m - 1) * k
    ensures rest >= (samples - n) * k ==> n * k + rest >= samples * k
  {
    Distribute(samples, n, k);
    if samples - n > 0 {
      Distribute(samples + m - 1, n, k);
    } else {
      SampleScaleOrder(n, samples + m - 1, k);
    }
  }

  /** A GET of S samples, with any interference: at most S packets; if nothing failed it sent D whole samples
      with S <= D <= S + M - 1. */
  lemma GetBounds(c: Conn, chip: Chip, cmd: Command, turns: nat -> Turn, text: Texts)
    requires ValidConn(c) && !c.error && GoodTurns(turns) && GoodTexts(text) && GoodGet(cmd, chip) && Admitted(cmd)
    ensures var attempts := Serve(c, cmd, PrepareToHandle(cmd), turns, text).attempts;
            var sent := |Bodies(attempts)|;
            && OkCount(attempts) <= cmd.val
            && sent <= (cmd.val + PacketSamples(chip) - 1) * SampleSize(chip)
            && (Completed(attempts) ==> |attempts| <= cmd.val && sent >= cmd.val * SampleSize(chip))
  {
    hide Serve, ValidConn;
    GoodGetBytes(cmd, chip);
    TransferBounds(c, chip, cmd, cmd.val, turns, text);
  }

  // ---------------------------------------------------------------- an uninterrupted transfer

  /** No other connection calls, the DMA engine accepts every transfer and finishes it while it is polled. How its
      bytes land until then is left open. */
  ghost predicate Quiet(turns: nat -> Turn) {
    forall k :: var turn := turns(k);
      turn.others == [] == turn.between && turn.env.dma.accepts && turn.env.dma.busyPolls < MAX_DMA_TRIES
  }

  /** The connection can go on without failing. */
  ghost predicate Healthy(c: Conn) {
    ValidConn(c) && !c.error && Connection.Progress(c.plan)
  }

  function Bytes(chip: Chip, st: State, lo: nat, hi: nat): seq<byte>
    requires lo <= hi && hi * SampleSize(chip) <= |st.memory|
  {
    SampleScaleOrder(lo, hi, SampleSize(chip));
    st.memory[lo * SampleSize(chip)..hi * SampleSize(chip)]
  }

  /** The packet that carries samples [lo, hi) of a captured buffer. */
  function RangePacket(chip: Chip, st: State, lo: nat, hi: nat): Response
    requires lo <= hi && hi * SampleSize(chip) <= |st.memory| && (hi - lo) * SampleSize(chip) <= RESPONSE_PACKET_BUF_SIZE
  {
    SampleScaleOrder(lo, hi, SampleSize(chip));
    Distribute(hi, lo, SampleSize(chip));
    Response(if lo == 0 then ChipTags(chip).newData else ChipTags(chip).remainingData,
             (hi - lo) * SampleSize(chip), Bytes(chip, st, lo, hi))
  }

  lemma InMemory(chip: Chip, n: nat)
    requires n <= MaxSamples(chip)
    ensures n * SampleSize(chip) <= MAX_DMA_TRANSFER_SIZE
  {
    LengthBound(chip, n);
  }

  lemma InPacket(chip: Chip, n: nat)
    requires n <= PacketSamples(chip)
    ensures n * SampleSize(chip) <= RESPONSE_PACKET_BUF_SIZE
  {
    match chip
    case Adc =>
    case Ddc =>
  }

  /** The state after samples up to pos of st's capture were handed out, histories aside: everything has landed. */
  predicate At(st': State, st: State, pos: nat) {
    st'.pos == pos && st'.count == st.count && st'.memory == st.memory && Settled(st')
  }

  /** The same but for more that has landed meanwhile. */
  predicate Alongside(now: State, before: State) {
    LandAll(now) == LandAll(before) && (Settled(before) ==> now == before)
  }

  lemma AlongsideLeft(st: State, st': State)
    requires Alongside(st, st')
    ensures Left(st) == Left(st') && st.count == st'.count && st.pos == st'.pos && |st.memory| == |st'.memory|
  {
  }

  /** How many of the samples left the next packet takes: one if the whole request would fit in what was left. */
  function Chunk(chip: Chip, left: nat, fits: bool): nat {
    if fits then 1 else if left < PacketSamples(chip) then left else PacketSamples(chip)
  }

  /** What get_samples goes on from, once everything has landed. */
  function Origin(chip: Chip, st: State, val: u32, dma: Dma): State {
    LandAll(if Left(st) > 0 then st else Capture(chip, st, val, dma))
  }

  /** get_samples when nothing goes wrong: the next chunk of the buffer, captured anew if it was drained. */
  lemma QuietEffect(b: Board, chip: Chip, cmd: Command, env: Env)
    requires ValidBoard(b) && GoodGet(cmd, chip) && Admitted(cmd)
    requires env.dma.accepts && env.dma.busyPolls < MAX_DMA_TRIES
    ensures var from := Origin(chip, b.Of(chip), cmd.val, env.dma);
            var hi := from.pos + Chunk(chip, Left(from), cmd.val <= Left(b.Of(chip)));
            && from.pos < hi <= from.count <= MaxSamples(chip) && hi - from.pos <= PacketSamples(chip)
            && |from.memory| == REGION_SIZE
            && hi * SampleSize(chip) <= |from.memory| && (hi - from.pos) * SampleSize(chip) <= RESPONSE_PACKET_BUF_SIZE
            && var (b', o) := Effect(b, cmd, env);
               && At(b'.Of(chip), from, hi) && b'.Of(Other(chip)) == b.Of(Other(chip))
               && var r := RangePacket(chip, from, from.pos, hi);
                  o == Samples(r.comm, chip, from.pos * SampleSize(chip), r.num)
  {
    hide Get, Capture, Admitted, Effect, GetEffect, SampleOutcome, RangePacket, SampleSize, PacketSamples, MaxSamples;
    hide Valid, Land, Origin, At, Chunk;
    EffectGet(b, chip, cmd, env);
    QuietGet(chip, b.Of(chip), cmd.val, env.dma);
    GetSucceeds(b, chip, cmd.val, env.dma);
    var from := Origin(chip, b.Of(chip), cmd.val, env.dma);
    RangeOutcome(chip, from, from.pos, from.pos + Chunk(chip, Left(from), cmd.val <= Left(b.Of(chip))));
  }

  /** The same for get_samples alone. */
  lemma QuietGet(chip: Chip, st: State, val: u32, dma: Dma)
    requires Valid(chip, st) && 0 < val <= MaxSamples(chip) && dma.accepts && dma.busyPolls < MAX_DMA_TRIES
    ensures var from := Origin(chip, st, val, dma);
            var n := Chunk(chip, Left(from), val <= Left(st));
            var hi := from.pos + n;
            var (st', r) := Get(chip, st, val, dma);
            && from.pos < hi <= from.count <= MaxSamples(chip) && n <= PacketSamples(chip) && |from.memory| == REGION_SIZE
            && hi * SampleSize(chip) <= |from.memory| && n * SampleSize(chip) <= RESPONSE_PACKET_BUF_SIZE
            && At(st', from, hi) && r.GetOk? && r.size == n && r.byteOffset == from.pos * SampleSize(chip)
  {
    hide Get, Capture, SampleSize, PacketSamples, MaxSamples, Tiles, ValidControl, Land, Accepts;
    GetHandsOut(chip, st, val, dma);
    CaptureKeeps(chip, st, val, dma);
    CaptureStart(chip, st, val, dma);
    var from := if Left(st) > 0 then st else Capture(chip, st, val, dma);
    LandKeeps(chip, from, |Running(from)|);
    var (st', r) := Get(chip, st, val, dma);
    InMemory(chip, from.count);
    SampleScaleOrder(st'.pos, from.count, SampleSize(chip));
    InPacket(chip, r.size);
  }

  lemma GetSucceeds(b: Board, chip: Chip, val: u32, dma: Dma)
    requires ValidBoard(b) && 0 < val <= MaxSamples(chip) && Get(chip, b.Of(chip), val, dma).1.GetOk?
    ensures var (st, r) := Get(chip, b.Of(chip), val, dma);
            && r.size * SampleSize(chip) <= RESPONSE_PACKET_BUF_SIZE
            && GetEffect(b, chip, val, dma) == (b.With(chip, st), SampleOutcome(chip, r.byteOffset, r.size * SampleSize(chip)))
  {
    hide Get, Valid, SampleOutcome;
    PayloadInBuffer(chip, b.Of(chip), val, dma);
  }

  lemma RangeOutcome(chip: Chip, st: State, lo: nat, hi: nat)
    requires lo < hi && hi * SampleSize(chip) <= |st.memory|
    requires (hi - lo) * SampleSize(chip) <= RESPONSE_PACKET_BUF_SIZE
    ensures lo * SampleSize(chip) + (hi - lo) * SampleSize(chip) == hi * SampleSize(chip)
    ensures var r := RangePacket(chip, st, lo, hi);
            SampleOutcome(chip, lo * SampleSize(chip), (hi - lo) * SampleSize(chip))
              == Samples(r.comm, chip, lo * SampleSize(chip), r.num)
  {
    hide SampleSize;
    Distribute(hi, lo, SampleSize(chip));
    ZeroScale(lo, SampleSize(chip));
  }

  lemma ZeroScale(a: nat, k: nat)
    requires k > 0
    ensures a * k == 0 <==> a == 0
  {
  }

  /** The buffer the next packet of a transfer comes from. */
  ghost function Source(c: Conn, chip: Chip, cmd: Command, turns: nat -> Turn): State {
    Origin(chip, c.board.Of(chip), cmd.val, turns(c.calls).env.dma)
  }

  /** It does not depend on how much has landed before. */
  lemma OriginAbsorb(chip: Chip, st: State, upto: nat, val: u32, dma: Dma)
    requires Accepts(chip, val, dma)
    ensures Origin(chip, Land(st, upto), val, dma) == Origin(chip, st, val, dma) && Left(Land(st, upto)) == Left(st)
  {
    hide Capture, Land, Accepts;
    LandKeeps(chip, st, upto);
    LandAbsorb(st, upto);
    CaptureAbsorb(chip, st, upto, val, dma);
  }

  /** One call of a transfer when nothing goes wrong, whatever lands meanwhile. */
  lemma QuietHandle(b: Board, p: Packet, chip: Chip, cmd: Command, env: Env, text: Texts)
    requires ValidBoard(b) && ValidPacket(p) && GoodTexts(text) && GoodGet(cmd, chip) && Admitted(cmd)
    requires env.dma.accepts && env.dma.busyPolls < MAX_DMA_TRIES
    ensures var from := Origin(chip, b.Of(chip), cmd.val, env.dma);
            var hi := from.pos + Chunk(chip, Left(from), cmd.val <= Left(b.Of(chip)));
            && from.pos < hi <= from.count <= MaxSamples(chip) && hi - from.pos <= PacketSamples(chip)
            && |from.memory| == REGION_SIZE
            && hi * SampleSize(chip) <= |from.memory| && (hi - from.pos) * SampleSize(chip) <= RESPONSE_PACKET_BUF_SIZE
            && var (b', p', o) := Handle(b, p, cmd, env, text);
               && At(b'.Of(chip), from, hi) && Alongside(b'.Of(Other(chip)), b.Of(Other(chip)))
               && var r := RangePacket(chip, from, from.pos, hi);
                  && o == Samples(r.comm, chip, from.pos * SampleSize(chip), r.num)
                  && p' == p.(comm := r.comm, num := r.num, buf := Into(chip, from.pos * SampleSize(chip)))
  {
    hide Effect, Admitted, RangePacket, ValidBoard, Chunk, Origin, Land, LandBoard, SampleSize, MaxSamples, PacketSamples;
    hide GoodGet;
    LandBoardKeeps(b, env.early);
    GetAccepted(b, chip, cmd, env.dma);
    OriginAbsorb(chip, b.Of(chip), env.early.Of(chip), cmd.val, env.dma);
    QuietEffect(LandBoard(b, env.early), chip, cmd, env);
    var b1 := Effect(LandBoard(b, env.early), cmd, env).0;
    LandBoardKeeps(b1, env.late);
    LandKeeps(chip, b1.Of(chip), env.late.Of(chip));
    LandAbsorb(b.Of(Other(chip)), env.early.Of(Other(chip)));
    LandAbsorb(b1.Of(Other(chip)), env.late.Of(Other(chip)));
    LandKeeps(Other(chip), b.Of(Other(chip)), env.early.Of(Other(chip)));
    LandKeeps(Other(chip), b1.Of(Other(chip)), env.late.Of(Other(chip)));
  }

  lemma GetAccepted(b: Board, chip: Chip, cmd: Command, dma: Dma)
    requires ValidBoard(b) && GoodGet(cmd, chip) && dma.accepts
    ensures Accepts(chip, cmd.val, dma)
  {
    hide Accepts;
    CaptureKeeps(chip, b.Of(chip), cmd.val, dma);
  }

  /** One pass of the inner loop when nothing goes wrong. */
  lemma QuietStep(c: Conn, chip: Chip, cmd: Command, turns: nat -> Turn, text: Texts) returns (from: State, hi: nat)
    requires Healthy(c) && Quiet(turns) && GoodTurns(turns) && GoodTexts(text) && GoodGet(cmd, chip) && Admitted(cmd)
    ensures from == Source(c, chip, cmd, turns)
    ensures hi == from.pos + Chunk(chip, Left(from), cmd.val <= Left(c.board.Of(chip)))
    ensures from.pos < hi <= from.count <= MaxSamples(chip) && hi - from.pos <= PacketSamples(chip)
    ensures |from.memory| == REGION_SIZE
    ensures hi * SampleSize(chip) <= |from.memory| && (hi - from.pos) * SampleSize(chip) <= RESPONSE_PACKET_BUF_SIZE
    ensures var (c', a, out) := Step(c, cmd, turns, text);
            && Healthy(c') && c'.calls == c.calls + 1 && c'.packet.buf == Into(chip, from.pos * SampleSize(chip))
            && At(c'.board.Of(chip), from, hi) && Alongside(c'.board.Of(Other(chip)), c.board.Of(Other(chip)))
            && a == Attempt(RangePacket(chip, from, from.pos, hi), true, Connection.Full)
            && Sendable(a.response) && out == Frame(a.response)
  {
    hide Handle, Admitted, GoodGet, Frame, RangePacket, Sendable, InBuffer, ValidBoard, Fetch, Chunk, Origin, Land;
    hide SampleSize, MaxSamples, PacketSamples, LandBoard;
    var turn := turns(c.calls);
    HealthyFacts(c, chip);
    from := Source(c, chip, cmd, turns);
    QuietHandle(c.board, c.packet, chip, cmd, turn.env, text);
    hi := from.pos + Chunk(chip, Left(from), cmd.val <= Left(c.board.Of(chip)));
    HandleKeeps(c.board, c.packet, cmd, turn.env, text);
    var r := RangePacket(chip, from, from.pos, hi);
    PacketShape(chip, from, from.pos, hi);
    var (b', p', o) := Handle(c.board, c.packet, cmd, turn.env, text);
    LandBoardKeeps(b', turn.copy);
    LandKeeps(chip, b'.Of(chip), turn.copy.Of(chip));
    LandAbsorb(b'.Of(Other(chip)), turn.copy.Of(Other(chip)));
    LandKeeps(Other(chip), b'.Of(Other(chip)), turn.copy.Of(Other(chip)));
    RangeFetch(LandBoard(b', turn.copy), p', chip, from, from.pos, hi);
    Connection.SendUnfragmented(c.plan, |Frame(r)|);
    assert Frame(r)[..|Frame(r)|] == Frame(r);
  }

  /** What a pointer to samples [lo, hi) finds in an unchanged buffer. */
  lemma RangeFetch(b: Board, p: Packet, chip: Chip, st: State, lo: nat, hi: nat)
    requires ValidBoard(b) && ValidPacket(p) && b.Of(chip).memory == st.memory
    requires lo < hi && hi * SampleSize(chip) <= |st.memory| && (hi - lo) * SampleSize(chip) <= RESPONSE_PACKET_BUF_SIZE
    requires var r := RangePacket(chip, st, lo, hi);
             p.buf == Into(chip, lo * SampleSize(chip)) && p.comm == r.comm && p.num == r.num
    ensures Fetch(b, p) == RangePacket(chip, st, lo, hi)
  {
    hide SampleSize, ValidBoard;
    Distribute(hi, lo, SampleSize(chip));
    SampleScaleOrder(lo, hi, SampleSize(chip));
    PacketShape(chip, st, lo, hi);
  }

  lemma PacketShape(chip: Chip, st: State, lo: nat, hi: nat)
    requires lo < hi && hi * SampleSize(chip) <= |st.memory| && (hi - lo) * SampleSize(chip) <= RESPONSE_PACKET_BUF_SIZE
    ensures var r := RangePacket(chip, st, lo, hi);
            && r.num == |r.body| == (hi - lo) * SampleSize(chip) > 0 && r.body == Bytes(chip, st, lo, hi)
            && r.comm == (if lo == 0 then ChipTags(chip).newData else ChipTags(chip).remainingData)
            && CarriesData(r.comm) && Sendable(r)
  {
    Distribute(hi, lo, SampleSize(chip));
    SampleScale(hi - lo, SampleSize(chip));
  }

  /** ceil(n / M) */
  function PacketCount(chip: Chip, n: nat): nat {
    (n + PacketSamples(chip) - 1) / PacketSamples(chip)
  }

  /** A finished transfer: all attempts delivered, the handler drained, the other handler untouched, the payloads
      together exactly samples [lo, st.count) of the buffer st, and the pointer left at sample `last`. */
  ghost predicate Delivered(s: Served, c: Conn, chip: Chip, st: State, lo: nat, packets: nat, last: nat)
    requires lo <= st.count && st.count * SampleSize(chip) <= |st.memory|
  {
    && Healthy(s.conn) && At(s.conn.board.Of(chip), st, st.count)
    && Alongside(s.conn.board.Of(Other(chip)), c.board.Of(Other(chip)))
    && (if packets == 0 then s.conn.packet == c.packet else s.conn.packet.buf == Into(chip, last * SampleSize(chip)))
    && |s.attempts| == packets && s.conn.calls == c.calls + packets
    && (forall a | a in s.attempts :: a.ok && a.delivered.Full? && Sendable(a.response))
    && Bodies(s.attempts) == Bytes(chip, st, lo, st.count)
    && s.output == Frames(Responses(s.attempts))
    && (forall i | 0 <= i < packets ::
          s.attempts[i].response.comm == if i == 0 && lo == 0 then ChipTags(chip).newData else ChipTags(chip).remainingData)
  }

  lemma DeliveredNothing(c: Conn, chip: Chip, st: State, last: nat)
    requires Healthy(c) && At(c.board.Of(chip), st, st.count)
    ensures st.count * SampleSize(chip) <= |st.memory| && PacketCount(chip, 0) == 0
    ensures Delivered(Served(c, [], []), c, chip, st, st.count, 0, last)
  {
    InMemory(chip, st.count);
  }

  /** One packet of samples [lo, mid) in front of a finished transfer of the rest. */
  lemma DeliveredMore(c: Conn, c': Conn, a: Attempt, s: Served, chip: Chip, st: State, lo: nat, mid: nat, packets: nat, last: nat)
    requires lo < mid <= st.count && st.count * SampleSize(chip) <= |st.memory|
    requires mid * SampleSize(chip) <= |st.memory| && (mid - lo) * SampleSize(chip) <= RESPONSE_PACKET_BUF_SIZE
    requires Alongside(c'.board.Of(Other(chip)), c.board.Of(Other(chip))) && c'.calls == c.calls + 1
    requires c'.packet.buf == Into(chip, lo * SampleSize(chip))
    requires a == Attempt(RangePacket(chip, st, lo, mid), true, Connection.Full) && Sendable(a.response)
    requires Delivered(s, c', chip, st, mid, packets, last)
    ensures Delivered(Served(s.conn, [a] + s.attempts, Frame(a.response) + s.output), c, chip, st, lo, packets + 1,
                      if packets == 0 then lo else last)
  {
    hide Frame, Sendable, Healthy, ChipTags, LandAll, SampleSize, RangePacket, Bytes, At;
    var all := [a] + s.attempts;
    assert all[0] == a && all[1..] == s.attempts;
    BytesConcat(chip, st, lo, mid, st.count);
    PacketShape(chip, st, lo, mid);
    assert Responses(all)[0] == a.response && Responses(all)[1..] == Responses(s.attempts);
  }

  lemma BytesConcat(chip: Chip, st: State, lo: nat, mid: nat, hi: nat)
    requires lo <= mid <= hi && mid * SampleSize(chip) <= |st.memory| && hi * SampleSize(chip) <= |st.memory|
    ensures Bytes(chip, st, lo, mid) + Bytes(chip, st, mid, hi) == Bytes(chip, st, lo, hi)
  {
    SampleScaleOrder(lo, mid, SampleSize(chip));
    SampleScaleOrder(mid, hi, SampleSize(chip));
  }

  /** Where the last of the packets that carry `left` samples from lo on starts. */
  function LastStart(chip: Chip, lo: nat, left: nat): nat {
    lo + if left == 0 then 0 else (left - 1) / PacketSamples(chip) * PacketSamples(chip)
  }

  lemma LastStartStep(chip: Chip, lo: nat, left: nat, n: nat)
    requires left > 0 && n == if left < PacketSamples(chip) then left else PacketSamples(chip)
    ensures n <= left
    ensures LastStart(chip, lo, left) == if left == n then lo else LastStart(chip, lo + n, left - n)
  {
    hide PacketSamples;
    var m := PacketSamples(chip);
    var q, r := (left - 1) / m, (left - 1) % m;
    if left == n {
      DivModUnique(left - 1, m, 0, left - 1);
    } else {
      Distribute(q, 1, m);
      DivModUnique(left - 1 - m, m, q - 1, r);
    }
  }

  /** One packet of a transfer whose bytes have all landed, with less left than the command asks for. */
  lemma DrainStep(c: Conn, chip: Chip, cmd: Command, st: State, lo: nat, turns: nat -> Turn, text: Texts) returns (hi: nat)
    requires Healthy(c) && Quiet(turns) && GoodTurns(turns) && GoodTexts(text) && GoodGet(cmd, chip) && Admitted(cmd)
    requires At(c.board.Of(chip), st, lo) && lo < st.count < lo + cmd.val
    ensures hi == lo + (if st.count - lo < PacketSamples(chip) then st.count - lo else PacketSamples(chip))
    ensures lo < hi <= st.count <= MaxSamples(chip) && st.count * SampleSize(chip) <= |st.memory|
    ensures hi * SampleSize(chip) <= |st.memory| && (hi - lo) * SampleSize(chip) <= RESPONSE_PACKET_BUF_SIZE
    ensures var (c', a, out) := Step(c, cmd, turns, text);
            && Healthy(c') && c'.calls == c.calls + 1 && c'.packet.buf == Into(chip, lo * SampleSize(chip))
            && At(c'.board.Of(chip), st, hi) && Alongside(c'.board.Of(Other(chip)), c.board.Of(Other(chip)))
            && a == Attempt(RangePacket(chip, st, lo, hi), true, Connection.Full)
            && Sendable(a.response) && out == Frame(a.response)
  {
    hide Step, Admitted, RangePacket, GoodGet, Frame, Sendable, Bytes, Land, Alongside, Origin;
    hide Healthy, ValidConn, Quiet, GoodTurns, GoodTexts, SampleSize, PacketSamples, MaxSamples;
    HealthyFacts(c, chip);
    var from;
    from, hi := QuietStep(c, chip, cmd, turns, text);
    OriginSettled(chip, c.board.Of(chip), cmd.val, turns(c.calls).env.dma);
    InMemory(chip, st.count);
    SamePacket(chip, from, st, lo, hi);
  }

  /** The rest of a transfer, once less is left than the command asks for: ceil(left / M) packets drain it. */
  lemma {:induction false} Drain(c: Conn, chip: Chip, cmd: Command, st: State, lo: nat, turns: nat -> Turn, text: Texts)
    requires Healthy(c) && Quiet(turns) && GoodTurns(turns) && GoodTexts(text) && GoodGet(cmd, chip) && Admitted(cmd)
    requires At(c.board.Of(chip), st, lo) && lo <= st.count < lo + cmd.val
    ensures st.count * SampleSize(chip) <= |st.memory|
    ensures Delivered(Serve(c, cmd, (st.count - lo) * SampleSize(chip), turns, text), c, chip, st, lo,
                      PacketCount(chip, st.count - lo), LastStart(chip, lo, st.count - lo))
    decreases st.count - lo
  {
    hide Step, Serve, Admitted, Delivered, RangePacket, GoodGet, Frame, Sendable, Bytes, Alongside, LastStart, Settled;
    hide Healthy, ValidConn, ValidBoard, Quiet, GoodTurns, GoodTexts, PacketCount, SampleSize, PacketSamples, MaxSamples;
    var k, left := SampleSize(chip), st.count - lo;
    HealthyFacts(c, chip);
    ServeStep(c, cmd, left * k, turns, text);
    InMemory(chip, st.count);
    if left == 0 {
      DeliveredNothing(c, chip, st, LastStart(chip, lo, 0));
    } else {
      SampleScale(left, k);
      var (c', a, out) := Step(c, cmd, turns, text);
      var hi := DrainStep(c, chip, cmd, st, lo, turns, text);
      PacketShape(chip, st, lo, hi);
      Distribute(left, hi - lo, k);
      Drain(c', chip, cmd, st, hi, turns, text);
      PacketCountStep(chip, left, hi - lo);
      LastStartStep(chip, lo, left, hi - lo);
      NonePackets(chip, st.count - hi);
      var rest := Serve(c', cmd, (st.count - hi) * k, turns, text);
      DeliveredMore(c, c', a, rest, chip, st, lo, hi, PacketCount(chip, st.count - hi), LastStart(chip, hi, st.count - hi));
    }
  }

  lemma OriginSettled(chip: Chip, st: State, val: u32, dma: Dma)
    requires Settled(st) && Left(st) > 0
    ensures Origin(chip, st, val, dma) == st
  {
    hide Land;
    LandKeeps(chip, st, |Running(st)|);
  }

  lemma NonePackets(chip: Chip, n: nat)
    ensures PacketCount(chip, n) == 0 <==> n == 0
  {
    if n > 0 {
      PacketCountStep(chip, n, if n < PacketSamples(chip) then n else PacketSamples(chip));
    }
  }

  lemma HealthyFacts(c: Conn, chip: Chip)
    requires Healthy(c)
    ensures ValidConn(c) && !c.error
    ensures var st := c.board.Of(chip); st.pos <= st.count <= MaxSamples(chip) && |st.memory| == REGION_SIZE
  {
  }

  lemma PacketCountStep(chip: Chip, left: nat, n: nat)
    requires left > 0 && n == if left < PacketSamples(chip) then left else PacketSamples(chip)
    ensures n <= left && PacketCount(chip, left) == PacketCount(chip, left - n) + 1
  {
    CountStep(left, PacketSamples(chip), n);
  }

  lemma SamePacket(chip: Chip, st: State, st': State, lo: nat, hi: nat)
    requires st.memory == st'.memory
    requires lo <= hi && hi * SampleSize(chip) <= |st.memory| && (hi - lo) * SampleSize(chip) <= RESPONSE_PACKET_BUF_SIZE
    ensures RangePacket(chip, st, lo, hi) == RangePacket(chip, st', lo, hi)
  {
  }

  /** Taking one full packet, or all that is left, off a positive count. */
  lemma CountStep(left: nat, m: nat, n: nat)
    requires m > 0 && left > 0 && n == if left < m then left else m
    ensures (left + m - 1) / m == (left - n + m - 1) / m + 1
  {
    var q, r := (left + m - 1) / m, (left + m - 1) % m;
    if left < m {
      DivModUnique(left + m - 1, m, 1, left - 1);
      DivModUnique(m - 1, m, 0, m - 1);
    } else {
      Distribute(q, 1, m);
      DivModUnique(left - 1, m, q - 1, r);
    }
  }

  /** The sample the pointer is left at by a GET of `want` samples from pos on: of a new capture, or of a buffer with
      just as many samples left, the first of which goes out alone. */
  function LastSample(chip: Chip, pos: nat, want: nat, loaded: bool): nat
    requires want > 0
  {
    if !loaded then LastStart(chip, pos, want)
    else if want == 1 then pos
    else LastStart(chip, pos + 1, want - 1)
  }

  /** A GET of S samples when the leftover is 0 or S itself: exactly S samples in ceil(S / M), respectively
      1 + ceil((S - 1) / M), packets, and the handler is drained. */
  lemma ExactGet(c: Conn, chip: Chip, cmd: Command, turns: nat -> Turn, text: Texts)
    requires Healthy(c) && Quiet(turns) && GoodTurns(turns) && GoodTexts(text) && GoodGet(cmd, chip) && Admitted(cmd)
    requires Left(c.board.Of(chip)) == 0 || Left(c.board.Of(chip)) == cmd.val
    ensures cmd.val > 0
    ensures var st := Source(c, chip, cmd, turns);
            && Left(st) == cmd.val && st.pos <= st.count && st.count * SampleSize(chip) <= |st.memory|
            && Delivered(Serve(c, cmd, PrepareToHandle(cmd), turns, text), c, chip, st, st.pos,
                         if Left(c.board.Of(chip)) == 0 then PacketCount(chip, cmd.val)
                         else 1 + PacketCount(chip, cmd.val - 1),
                         LastSample(chip, st.pos, cmd.val, Left(c.board.Of(chip)) > 0))
  {
    hide Step, Serve, Admitted, Delivered, RangePacket, Frame, Sendable, Bytes, Capture, PrepareToHandle, Land, LastStart;
    hide Healthy, ValidConn, Valid, Quiet, GoodTurns, GoodTexts, PacketCount, SampleSize, PacketSamples, MaxSamples;
    hide Alongside, Origin;
    var k, val := SampleSize(chip), cmd.val;
    HealthyFacts(c, chip);
    GoodGetBytes(cmd, chip);
    OriginStart(chip, c.board.Of(chip), val, turns(c.calls).env.dma);
    ServeStep(c, cmd, val * k, turns, text);
    var (c', a, out) := Step(c, cmd, turns, text);
    var st, hi := QuietStep(c, chip, cmd, turns, text);
    InMemory(chip, st.count);
    PacketShape(chip, st, st.pos, hi);
    Distribute(val, hi - st.pos, k);
    Drain(c', chip, cmd, st, hi, turns, text);
    if Left(c.board.Of(chip)) == 0 {
      PacketCountStep(chip, val, hi - st.pos);
      LastStartStep(chip, st.pos, val, hi - st.pos);
    }
    NonePackets(chip, st.count - hi);
    var rest := Serve(c', cmd, (st.count - hi) * k, turns, text);
    DeliveredMore(c, c', a, rest, chip, st, st.pos, hi, PacketCount(chip, st.count - hi), LastStart(chip, hi, st.count - hi));
  }

  /** In all: as many bytes as samples were asked for, and how many packets they take. */
  lemma GetTotals(c: Conn, chip: Chip, cmd: Command, turns: nat -> Turn, text: Texts)
    requires Healthy(c) && Quiet(turns) && GoodTurns(turns) && GoodTexts(text) && GoodGet(cmd, chip) && Admitted(cmd)
    requires Left(c.board.Of(chip)) == 0 || Left(c.board.Of(chip)) == cmd.val
    ensures cmd.val > 0
    ensures var attempts := Serve(c, cmd, PrepareToHandle(cmd), turns, text).attempts;
            && Completed(attempts) && |Bodies(attempts)| == cmd.val * SampleSize(chip)
            && |attempts| == if Left(c.board.Of(chip)) == 0 then PacketCount(chip, cmd.val)
                             else 1 + PacketCount(chip, cmd.val - 1)
  {
    hide Serve, Admitted, Frame, Sendable, Bytes, Healthy, Quiet, GoodTurns, GoodTexts, GoodGet, PrepareToHandle, LastSample;
    hide Origin, Alongside, At, PacketCount, SampleSize;
    ExactGet(c, chip, cmd, turns, text);
    var st := Source(c, chip, cmd, turns);
    BytesLength(chip, st, st.pos, st.count);
  }

  lemma BytesLength(chip: Chip, st: State, lo: nat, hi: nat)
    requires lo <= hi && hi * SampleSize(chip) <= |st.memory|
    ensures |Bytes(chip, st, lo, hi)| == (hi - lo) * SampleSize(chip)
  {
    Distribute(hi, lo, SampleSize(chip));
    SampleScaleOrder(lo, hi, SampleSize(chip));
  }

  lemma OriginStart(chip: Chip, st: State, val: u32, dma: Dma)
    ensures var from := Origin(chip, st, val, dma);
            && Settled(from)
            && (if Left(st) > 0 then from.pos == st.pos && from.count == st.count else from.pos == 0 && from.count == val)
  {
    hide Land, Capture;
    CaptureStart(chip, st, val, dma);
    var at := if Left(st) > 0 then st else Capture(chip, st, val, dma);
    LandKeeps(chip, at, |Running(at)|);
  }
}
