/** What each byte of the handlers' memory is, and that nothing but bytes depends on the samples. */
module Tracing {
  import opened Words
  import opened Common
  import opened LowLevel
  import opened Wire
  import opened Requests
  import opened Delivery

  // ---------------------------------------------------------------- the record is true

  /** A byte that is said to come from a transfer has the value it was transferred with. */
  ghost predicate True(b: Board, c: Cell, v: byte) {
    c.Sample? ==>
      var ts := b.Of(c.owner).transfers;
      c.transfer < |ts| && c.index < |ts[c.transfer]| && v == ts[c.transfer][c.index]
  }

  ghost predicate TrueBytes(b: Board, cells: seq<Cell>, bytes: seq<byte>) {
    |cells| == |bytes| && forall p | 0 <= p < |bytes| :: True(b, cells[p], bytes[p])
  }

  /** The transfer a handler counts on is the last one, and of exactly the bytes it counts. */
  ghost predicate Sourced(chip: Chip, st: State) {
    st.source.Some? ==>
      && st.source.value == |st.transfers| - 1 && |Running(st)| == st.count * SampleSize(chip)
  }

  ghost predicate Traced(b: Board) {
    forall chip: Chip :: Sourced(chip, b.Of(chip)) && TrueBytes(b, b.Of(chip).cells, b.Of(chip).memory)
  }

  /** Transfers are only ever added. */
  ghost predicate Grows(b: Board, b': Board) {
    forall chip: Chip :: b.Of(chip).transfers <= b'.Of(chip).transfers
  }

  lemma TrueGrows(b: Board, b': Board, cells: seq<Cell>, bytes: seq<byte>)
    requires Grows(b, b') && TrueBytes(b, cells, bytes)
    ensures TrueBytes(b', cells, bytes)
  {
    forall p | 0 <= p < |bytes| ensures True(b', cells[p], bytes[p]) {
      assert True(b, cells[p], bytes[p]);
      if cells[p].Sample? {
        assert b.Of(cells[p].owner).transfers <= b'.Of(cells[p].owner).transfers;
      }
    }
  }

  lemma TrueOverlaid(b: Board, cells: seq<Cell>, bytes: seq<byte>, at: nat, c: seq<Cell>, s: seq<byte>)
    requires TrueBytes(b, cells, bytes) && TrueBytes(b, c, s)
    ensures TrueBytes(b, Overlaid(cells, at, c), Overlaid(bytes, at, s))
  {
    var cells', bytes' := Overlaid(cells, at, c), Overlaid(bytes, at, s);
    forall p | 0 <= p < |bytes'| ensures True(b, cells'[p], bytes'[p]) {
      if at <= p < at + |s| {
        assert True(b, c[p - at], s[p - at]);
      } else {
        assert True(b, cells[p], bytes[p]);
      }
    }
  }

  lemma LandTrue(b: Board, chip: Chip, upto: nat)
    requires Traced(b) && b.Of(chip).owner == chip
    ensures Traced(b.With(chip, Land(b.Of(chip), upto)))
    ensures Grows(b, b.With(chip, Land(b.Of(chip), upto)))
  {
    hide True, SampleSize;
    var st := b.Of(chip);
    var st' := Land(st, upto);
    var b' := b.With(chip, st');
    LandKeeps(chip, st, upto);
    assert Sourced(chip, st) && TrueBytes(b, st.cells, st.memory);
    forall p | 0 <= p < |st'.memory| ensures True(b, st'.cells[p], st'.memory[p]) {
      assert True(b, st.cells[p], st.memory[p]);
      LandedTrue(b, chip, p);
    }
    TrueGrows(b, b', st'.cells, st'.memory);
    forall c: Chip ensures Sourced(c, b'.Of(c)) && TrueBytes(b', b'.Of(c).cells, b'.Of(c).memory) {
      assert Sourced(c, b.Of(c)) && TrueBytes(b, b.Of(c).cells, b.Of(c).memory);
      if c != chip {
        TrueGrows(b, b', b.Of(c).cells, b.Of(c).memory);
      }
    }
  }

  lemma LandedTrue(b: Board, chip: Chip, p: nat)
    ensures var st := b.Of(chip);
            st.transfers != [] && p < |Running(st)| ==> True(b, Sample(chip, |st.transfers| - 1, p), Running(st)[p])
  {
  }

  lemma LandBoardTrue(b: Board, l: Landing)
    requires Traced(b) && ValidBoard(b)
    ensures Traced(LandBoard(b, l)) && Grows(b, LandBoard(b, l))
  {
    hide Traced, Land, Valid;
    Owners(b);
    LandTrue(b, Adc, l.adc);
    var b1 := b.With(Adc, Land(b.adc, l.adc));
    LandTrue(b1, Ddc, l.ddc);
    assert b1.With(Ddc, Land(b1.ddc, l.ddc)) == LandBoard(b, l);
  }

  lemma Owners(b: Board)
    requires ValidBoard(b)
    ensures b.adc.owner == Adc && b.ddc.owner == Ddc
  {
  }

  /** Bytes stored along with what they are. */
  lemma StoredTrue(b: Board, chip: Chip, at: nat, bytes: seq<byte>, cells: seq<Cell>)
    requires Traced(b) && TrueBytes(b, cells, bytes)
    ensures var b' := b.With(chip, Overwritten(b.Of(chip), at, bytes, cells)); Traced(b') && Grows(b, b')
  {
    hide True, SampleSize;
    var st := b.Of(chip);
    var st' := Overwritten(st, at, bytes, cells);
    var b' := b.With(chip, st');
    assert TrueBytes(b, st.cells, st.memory);
    TrueOverlaid(b, st.cells, st.memory, at, cells, bytes);
    forall c: Chip ensures Sourced(c, b'.Of(c)) && TrueBytes(b', b'.Of(c).cells, b'.Of(c).memory) {
      assert Sourced(c, b.Of(c)) && TrueBytes(b, b.Of(c).cells, b.Of(c).memory);
      TrueGrows(b, b', b'.Of(c).cells, b'.Of(c).memory);
    }
  }

  lemma PlainsTrue(b: Board, bytes: seq<byte>)
    ensures TrueBytes(b, Plains(|bytes|), bytes)
  {
  }

  lemma CaptureTrue(b: Board, chip: Chip, n: u32, dma: Dma)
    requires Traced(b) && ValidBoard(b) && n <= MaxSamples(chip)
    ensures var b' := b.With(chip, Capture(chip, b.Of(chip), n, dma)); Traced(b') && Grows(b, b')
  {
    hide True, SampleSize, Land, Valid, Captured, MaxSamples;
    Owners(b);
    var st := b.Of(chip);
    LandTrue(b, chip, |Running(st)|);
    var b1 := b.With(chip, LandAll(st));
    CaptureKeeps(chip, st, n, dma);
    CaptureBytes(chip, st, n, dma);
    var st' := Capture(chip, st, n, dma);
    var b' := b.With(chip, st');
    forall c: Chip ensures Sourced(c, b'.Of(c)) && TrueBytes(b', b'.Of(c).cells, b'.Of(c).memory) {
      assert Sourced(c, b.Of(c)) && TrueBytes(b, b.Of(c).cells, b.Of(c).memory);
      assert TrueBytes(b1, b1.Of(c).cells, b1.Of(c).memory);
      if Accepts(chip, n, dma) {
        TrueGrows(b1, b', b'.Of(c).cells, b'.Of(c).memory);
      } else {
        TrueGrows(b, b', b'.Of(c).cells, b'.Of(c).memory);
      }
    }
  }

  /** A capture moves nothing but what was still to land. */
  lemma CaptureBytes(chip: Chip, st: State, n: u32, dma: Dma)
    ensures var st' := Capture(chip, st, n, dma); var from := if Accepts(chip, n, dma) then LandAll(st) else st;
            && st'.cells == from.cells && st'.memory == from.memory && st'.owner == st.owner
            && st'.count == n
            && (if Accepts(chip, n, dma) then st'.transfers == st.transfers + [Captured(chip, n, dma)]
                                              && st'.source == Some(|st.transfers|) && st'.landed == 0
                else st'.transfers == st.transfers && st'.source == None && st'.landed == st.landed)
    ensures LandAll(st).transfers == st.transfers
  {
  }

  lemma GetTrue(b: Board, chip: Chip, size: u32, dma: Dma)
    requires Traced(b) && ValidBoard(b) && 0 < size <= MaxSamples(chip)
    ensures var b' := b.With(chip, Get(chip, b.Of(chip), size, dma).0); Traced(b') && Grows(b, b')
  {
    hide Get, Capture, Land, Valid, SampleSize, True;
    var st := b.Of(chip);
    GetHandsOut(chip, st, size, dma);
    CaptureTrue(b, chip, size, dma);
    var from := if Left(st) > 0 then st else Capture(chip, st, size, dma);
    var b1 := b.With(chip, from);
    assert b.With(chip, st) == b;
    CaptureBytes(chip, st, size, dma);
    Owners(b);
    LandTrue(b1, chip, |Running(from)|);
    var (st', r) := Get(chip, st, size, dma);
    if r.GetOk? {
      MovedTrue(b1.With(chip, LandAll(from)), b.With(chip, st'), chip);
    }
  }

  /** Position and hand-outs are of no account. */
  lemma MovedTrue(b: Board, b': Board, chip: Chip)
    requires Traced(b) && b'.Of(Other(chip)) == b.Of(Other(chip))
    requires b'.Of(chip) == b.Of(chip).(pos := b'.Of(chip).pos, handed := b'.Of(chip).handed)
    ensures Traced(b') && Grows(b, b')
  {
    forall c: Chip
      ensures Sourced(c, b'.Of(c)) && TrueBytes(b', b'.Of(c).cells, b'.Of(c).memory)
      ensures b.Of(c).transfers == b'.Of(c).transfers
    {
      assert c == chip || c == Other(chip);
      assert Sourced(c, b.Of(c)) && TrueBytes(b, b.Of(c).cells, b.Of(c).memory);
    }
    assert Grows(b, b');
    forall c: Chip ensures Sourced(c, b'.Of(c)) && TrueBytes(b', b'.Of(c).cells, b'.Of(c).memory) {
      TrueGrows(b, b', b.Of(c).cells, b.Of(c).memory);
    }
  }

  lemma ReadTrue(b: Board, addr: u32, regValue: u32)
    requires Traced(b) && ValidBoard(b)
    ensures |b.adc.memory| == |b.ddc.memory| == REGION_SIZE
    ensures var (bytes, cells) := ReadWord(b, addr, regValue); TrueBytes(b, cells, bytes)
  {
    hide True, Valid, HostBytes;
    ValidMemory(b);
    PlaceInRegion(addr);
    match Place(addr)
    case None => PlainsTrue(b, HostBytes(regValue));
    case Some((chip, at)) => assert TrueBytes(b, b.Of(chip).cells, b.Of(chip).memory);
  }

  lemma WriteTrue(b: Board, addr: u32, val: u32)
    requires Traced(b)
    ensures Traced(StoreWord(b, addr, val)) && Grows(b, StoreWord(b, addr, val))
  {
    hide Traced, HostBytes, Overwritten;
    PlainsTrue(b, HostBytes(val));
    match Place(addr)
    case None =>
    case Some((chip, at)) => StoredTrue(b, chip, at, HostBytes(val), Plains(4));
  }

  lemma EffectTrue(b: Board, c: Command, env: Env)
    requires ValidBoard(b) && Admitted(c) && Traced(b)
    ensures var (b', o) := Effect(b, c, env);
            Traced(b') && Grows(b, b') && (o.Register? ==> TrueBytes(b', o.cells, o.bytes))
  {
    hide Get, Capture, Traced, Valid, S32, U32, ReadWord, StoreWord, TrueBytes;
    ValidMemory(b);
    ReadTrue(b, c.addr, env.regValue);
    WriteTrue(b, c.addr, c.val);
    PlainsTrue(b, HostBytes(env.regValue));
    if c.comm in {FMC150_CAPTURE, DDC_CAPTURE} {
      var chip := if c.comm == FMC150_CAPTURE then Adc else Ddc;
      if c.val <= MaxSamples(chip) {
        CaptureTrue(b, chip, c.val, env.dma);
      }
    } else if c.comm in {FMC150_GET_SAMPLES, DDC_GET_SAMPLES} {
      var chip := if c.comm == FMC150_GET_SAMPLES then Adc else Ddc;
      AdmittedGet(c, chip);
      if c.val <= MaxSamples(chip) {
        GetTrue(b, chip, c.val, env.dma);
      }
    }
  }

  lemma PrintTrue(b: Board, p: Packet, bytes: seq<byte>, cells: seq<Cell>)
    requires Traced(b) && TrueBytes(b, cells, bytes)
    ensures var b' := Print(b, p, bytes, cells).0; Traced(b') && Grows(b, b')
  {
    hide Traced, Overwritten;
    if p.buf.Into? {
      StoredTrue(b, p.buf.chip, p.buf.offset, bytes, cells);
    }
  }

  lemma RespondTrue(b: Board, p: Packet, o: Outcome, text: Texts)
    requires Traced(b) && GoodTexts(text) && (o.Register? ==> TrueBytes(b, o.cells, o.bytes))
    ensures var b' := Respond(b, p, o, text).0; Traced(b') && Grows(b, b')
  {
    hide Traced, Print, TrueBytes;
    match o
    case NoHandler =>
    case Failure(m) =>
      PlainsTrue(b, text(m) + [0]);
      PrintTrue(b, p.(comm := MESSAGE, num := |text(m)| + 1), text(m) + [0], Plains(|text(m)| + 1));
    case Done(m) =>
      PlainsTrue(b, text(m) + [0]);
      PrintTrue(b, p.(comm := MESSAGE, num := |text(m)| + 1), text(m) + [0], Plains(|text(m)| + 1));
    case Samples(_, _, _, _) =>
    case Register(comm, bytes, cells) => PrintTrue(b, p.(comm := comm, num := 4), bytes, cells);
  }

  /** Every call keeps the record of what each byte is true. */
  lemma HandleTrue(b: Board, p: Packet, c: Command, env: Env, text: Texts)
    requires ValidBoard(b) && ValidPacket(p) && Admitted(c) && GoodTexts(text) && Traced(b)
    ensures var b' := Handle(b, p, c, env, text).0; Traced(b') && Grows(b, b')
  {
    hide Traced, ValidBoard, Effect, Respond, LandBoard, TrueBytes, Valid, Land;
    LandBoardKeeps(b, env.early);
    LandBoardTrue(b, env.early);
    var b0 := LandBoard(b, env.early);
    EffectKeeps(b0, c, env);
    EffectTrue(b0, c, env);
    var (b1, o) := Effect(b0, c, env);
    LandBoardTrue(b1, env.late);
    var b2 := LandBoard(b1, env.late);
    if o.Register? {
      TrueGrows(b1, b2, o.cells, o.bytes);
    }
    RespondTrue(b2, p, o, text);
    var b3 := Respond(b2, p, o, text).0;
    forall chip: Chip ensures b.Of(chip).transfers <= b3.Of(chip).transfers {
      assert b.Of(chip).transfers <= b0.Of(chip).transfers <= b1.Of(chip).transfers
          <= b2.Of(chip).transfers <= b3.Of(chip).transfers;
    }
  }

  // ---------------------------------------------------------------- the same run with other samples

  /** The cell holds a byte of transfer g. */
  predicate Belongs(c: Cell, chip: Chip, g: nat) {
    c.Sample? && c.owner == chip && c.transfer == g
  }

  /** Bytes that differ only where they come from transfer g. */
  ghost predicate AlikeBytes(cells: seq<Cell>, s: seq<byte>, s': seq<byte>, chip: Chip, g: nat) {
    && |cells| == |s| == |s'|
    && forall p | 0 <= p < |s| && !Belongs(cells[p], chip, g) :: s[p] == s'[p]
  }

  ghost predicate AlikeTransfers(ts: seq<seq<byte>>, ts': seq<seq<byte>>, g: nat) {
    && g < |ts| == |ts'| && |ts[g]| == |ts'[g]|
    && forall i | 0 <= i < |ts| && i != g :: ts[i] == ts'[i]
  }

  /** Two states of one handler that differ only in bytes that come from transfer g for `chip`, and in that transfer. */
  ghost predicate AlikeState(st: State, st': State, chip: Chip, g: nat) {
    && st' == st.(memory := st'.memory, transfers := st'.transfers)
    && AlikeBytes(st.cells, st.memory, st'.memory, chip, g)
    && (if st.owner == chip then AlikeTransfers(st.transfers, st'.transfers, g) else st'.transfers == st.transfers)
  }

  ghost predicate AlikeBoard(b: Board, b': Board, chip: Chip, g: nat) {
    && b.adc.owner == Adc && b.ddc.owner == Ddc
    && AlikeState(b.adc, b'.adc, chip, g) && AlikeState(b.ddc, b'.ddc, chip, g)
  }

  lemma AlikeLand(st: State, st': State, chip: Chip, g: nat, upto: nat)
    requires AlikeState(st, st', chip, g)
    ensures AlikeState(Land(st, upto), Land(st', upto), chip, g)
  {
  }

  lemma AlikeLandAll(st: State, st': State, chip: Chip, g: nat)
    requires AlikeState(st, st', chip, g)
    ensures |Running(st)| == |Running(st')| && AlikeState(LandAll(st), LandAll(st'), chip, g)
  {
    hide Land;
    AlikeLand(st, st', chip, g, |Running(st)|);
  }

  lemma AlikeLandBoard(b: Board, b': Board, chip: Chip, g: nat, l: Landing)
    requires AlikeBoard(b, b', chip, g)
    ensures AlikeBoard(LandBoard(b, l), LandBoard(b', l), chip, g)
  {
    hide Land, AlikeState;
    AlikeLand(b.adc, b'.adc, chip, g, l.adc);
    AlikeLand(b.ddc, b'.ddc, chip, g, l.ddc);
    LandBoardKeeps(b, l);
    assert LandBoard(b, l).Of(Adc).owner == Adc && LandBoard(b, l).Of(Ddc).owner == Ddc;
  }

  lemma AlikeOverwritten(st: State, st': State, chip: Chip, g: nat, at: nat, s: seq<byte>, s': seq<byte>, cells: seq<Cell>)
    requires AlikeState(st, st', chip, g) && AlikeBytes(cells, s, s', chip, g)
    ensures AlikeState(Overwritten(st, at, s, cells), Overwritten(st', at, s', cells), chip, g)
  {
  }

  lemma AlikeCapture(st: State, st': State, chip: Chip, g: nat, n: u32, dma: Dma)
    requires AlikeState(st, st', chip, g)
    ensures AlikeState(Capture(st.owner, st, n, dma), Capture(st.owner, st', n, dma), chip, g)
  {
    hide SampleSize, ControlWord, U32, Captured, Land, Accepts;
    var length := U32(n * SampleSize(st.owner));
    var u := st.(count := n, pos := 0, handed := [], dmaLength := length, source := None);
    var u' := st'.(count := n, pos := 0, handed := [], dmaLength := length, source := None);
    AlikeLandAll(u, u', chip, g);
    LandKeeps(st.owner, u, |Running(u)|);
    LandKeeps(st.owner, u', |Running(u')|);
  }

  lemma AlikeGet(st: State, st': State, chip: Chip, g: nat, size: u32, dma: Dma)
    requires AlikeState(st, st', chip, g)
    ensures var (u, r), (u', r') := Get(st.owner, st, size, dma), Get(st.owner, st', size, dma);
            r == r' && AlikeState(u, u', chip, g)
  {
    hide SampleSize, PacketSamples, U32, S32, Capture, Land, Accepts;
    AlikeCapture(st, st', chip, g, size, dma);
    AlikeLandAll(st, st', chip, g);
    var v, v' := Capture(st.owner, st, size, dma), Capture(st.owner, st', size, dma);
    AlikeLandAll(v, v', chip, g);
    LandKeeps(st.owner, st, |Running(st)|);
    LandKeeps(st.owner, v, |Running(v)|);
  }

  /** Outcomes that differ in what a register read found only. */
  ghost predicate AlikeOutcome(o: Outcome, o': Outcome, chip: Chip, g: nat) {
    if o.Register? then o'.Register? && o' == o.(bytes := o'.bytes) && AlikeBytes(o.cells, o.bytes, o'.bytes, chip, g)
    else o == o'
  }

  lemma PlainsAlike(bytes: seq<byte>, chip: Chip, g: nat)
    ensures AlikeBytes(Plains(|bytes|), bytes, bytes, chip, g)
  {
  }

  lemma ReadAlike(b: Board, b': Board, chip: Chip, g: nat, addr: u32, regValue: u32)
    requires AlikeBoard(b, b', chip, g) && ValidBoard(b) && ValidBoard(b')
    ensures |b.adc.memory| == |b.ddc.memory| == |b'.adc.memory| == |b'.ddc.memory| == REGION_SIZE
    ensures var (s, cells), (s', cells') := ReadWord(b, addr, regValue), ReadWord(b', addr, regValue);
            cells == cells' && AlikeBytes(cells, s, s', chip, g)
  {
    hide Valid, HostBytes, AlikeTransfers;
    ValidMemory(b);
    ValidMemory(b');
    PlaceInRegion(addr);
    PlainsAlike(HostBytes(regValue), chip, g);
  }

  lemma WriteAlike(b: Board, b': Board, chip: Chip, g: nat, addr: u32, val: u32)
    requires AlikeBoard(b, b', chip, g)
    ensures AlikeBoard(StoreWord(b, addr, val), StoreWord(b', addr, val), chip, g)
  {
    hide AlikeState, HostBytes, AlikeBytes;
    PlainsAlike(HostBytes(val), chip, g);
    match Place(addr)
    case None =>
    case Some((c, at)) =>
      AlikeOverwritten(b.Of(c), b'.Of(c), chip, g, at, HostBytes(val), HostBytes(val), Plains(4));
  }

  lemma EffectAlike(b: Board, b': Board, chip: Chip, g: nat, c: Command, env: Env)
    requires AlikeBoard(b, b', chip, g) && ValidBoard(b) && ValidBoard(b') && Admitted(c)
    ensures var (u, o), (u', o') := Effect(b, c, env), Effect(b', c, env);
            AlikeOutcome(o, o', chip, g) && AlikeBoard(u, u', chip, g)
  {
    hide Get, Capture, AlikeState, AlikeBytes, Valid, S32, U32, ReadWord, StoreWord, Accepts;
    ValidMemory(b);
    ValidMemory(b');
    ReadAlike(b, b', chip, g, c.addr, env.regValue);
    WriteAlike(b, b', chip, g, c.addr, c.val);
    PlainsAlike(HostBytes(env.regValue), chip, g);
    if c.comm in {FMC150_CAPTURE, DDC_CAPTURE} {
      var which := if c.comm == FMC150_CAPTURE then Adc else Ddc;
      AlikeCapture(b.Of(which), b'.Of(which), chip, g, c.val, env.dma);
      OwnersKept(b, which, c.val, env.dma);
    } else if c.comm in {FMC150_GET_SAMPLES, DDC_GET_SAMPLES} {
      var which := if c.comm == FMC150_GET_SAMPLES then Adc else Ddc;
      AdmittedGet(c, which);
      AlikeGet(b.Of(which), b'.Of(which), chip, g, c.val, env.dma);
      OwnersKept(b, which, c.val, env.dma);
    }
  }

  lemma OwnersKept(b: Board, chip: Chip, n: u32, dma: Dma)
    ensures Capture(chip, b.Of(chip), n, dma).owner == b.Of(chip).owner
    ensures Get(chip, b.Of(chip), n, dma).0.owner == b.Of(chip).owner
  {
    hide SampleSize, ControlWord, Captured, S32, U32, PacketSamples;
  }

  /** Packets that differ only in memory of their own. */
  ghost predicate AlikePacket(p: Packet, p': Packet) {
    p' == p.(outside := p'.outside)
  }

  lemma PrintAlike(b: Board, b': Board, chip: Chip, g: nat, p: Packet, p': Packet,
                   s: seq<byte>, s': seq<byte>, cells: seq<Cell>)
    requires AlikeBoard(b, b', chip, g) && AlikePacket(p, p') && AlikeBytes(cells, s, s', chip, g)
    ensures var (u, q), (u', q') := Print(b, p, s, cells), Print(b', p', s', cells);
            AlikePacket(q, q') && AlikeBoard(u, u', chip, g)
  {
    hide AlikeState, AlikeBytes, Overlaid;
    if p.buf.Into? {
      AlikeOverwritten(b.Of(p.buf.chip), b'.Of(p.buf.chip), chip, g, p.buf.offset, s, s', cells);
    }
  }

  lemma RespondAlike(b: Board, b': Board, chip: Chip, g: nat, p: Packet, p': Packet, o: Outcome, o': Outcome, text: Texts)
    requires AlikeBoard(b, b', chip, g) && AlikePacket(p, p') && AlikeOutcome(o, o', chip, g) && GoodTexts(text)
    ensures var (u, q), (u', q') := Respond(b, p, o, text), Respond(b', p', o', text);
            AlikePacket(q, q') && AlikeBoard(u, u', chip, g)
  {
    hide AlikeBoard, Print, AlikeBytes;
    match o
    case NoHandler =>
    case Failure(m) =>
      PlainsAlike(text(m) + [0], chip, g);
      PrintAlike(b, b', chip, g, p.(comm := MESSAGE, num := |text(m)| + 1), p'.(comm := MESSAGE, num := |text(m)| + 1),
                 text(m) + [0], text(m) + [0], Plains(|text(m)| + 1));
    case Done(m) =>
      PlainsAlike(text(m) + [0], chip, g);
      PrintAlike(b, b', chip, g, p.(comm := MESSAGE, num := |text(m)| + 1), p'.(comm := MESSAGE, num := |text(m)| + 1),
                 text(m) + [0], text(m) + [0], Plains(|text(m)| + 1));
    case Samples(_, _, _, _) =>
    case Register(comm, bytes, cells) =>
      PrintAlike(b, b', chip, g, p.(comm := comm, num := 4), p'.(comm := comm, num := 4), bytes, o'.bytes, cells);
  }

  /** The same call on alike handlers: alike outcome, packet and handlers. What a call does other than move bytes does
      not depend on the samples. */
  lemma HandleAlike(b: Board, b': Board, chip: Chip, g: nat, p: Packet, p': Packet, c: Command, env: Env, text: Texts)
    requires AlikeBoard(b, b', chip, g) && ValidBoard(b) && ValidBoard(b') && Admitted(c) && GoodTexts(text)
    requires AlikePacket(p, p')
    ensures var (u, q, o), (u', q', o') := Handle(b, p, c, env, text), Handle(b', p', c, env, text);
            AlikeOutcome(o, o', chip, g) && AlikePacket(q, q') && AlikeBoard(u, u', chip, g)
  {
    hide AlikeBoard, AlikeOutcome, AlikePacket, ValidBoard, Effect, Respond, LandBoard;
    LandBoardKeeps(b, env.early);
    LandBoardKeeps(b', env.early);
    AlikeLandBoard(b, b', chip, g, env.early);
    var b0, b0' := LandBoard(b, env.early), LandBoard(b', env.early);
    EffectAlike(b0, b0', chip, g, c, env);
    var (b1, o) := Effect(b0, c, env);
    var (b1', o') := Effect(b0', c, env);
    AlikeLandBoard(b1, b1', chip, g, env.late);
    RespondAlike(LandBoard(b1, env.late), LandBoard(b1', env.late), chip, g, p, p', o, o', text);
  }
}
