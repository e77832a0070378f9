/** A condition on what connections do, whatever the engines do, under which all captured samples reach them. */
module Untouched {
  import opened Words
  import opened Common
  import opened LowLevel
  import opened Wire
  import opened Requests
  import opened Delivery
  import opened Tracing
  import opened Sharing
  import opened Conservation

  /** Transfer g, of n bytes, is the last one, and those of its bytes that have landed are where they landed. */
  ghost predicate InPlace(st: State, g: nat, n: nat) {
    && |st.transfers| == g + 1 && |st.transfers[g]| == n <= |st.cells|
    && forall p | 0 <= p < n :: p < st.landed ==> st.cells[p] == Sample(st.owner, g, p)
  }

  /** The command stores into one of the first n bytes of a handler's region: as a soft register, or with its answer. */
  predicate StoresBelow(p: Packet, c: Command, o: Outcome, text: Texts, chip: Chip, n: nat) {
    || (c.comm == SOFT_REG_WRITE && Place(c.addr).Some? && Place(c.addr).value.0 == chip && Place(c.addr).value.1 < n)
    || (Stored(o, text).Some? && p.buf.Into? && p.buf.chip == chip && p.buf.offset < n)
  }

  lemma LandInPlace(st: State, g: nat, n: nat, upto: nat)
    requires InPlace(st, g, n)
    ensures InPlace(Land(st, upto), g, n)
  {
  }

  lemma OverwrittenInPlace(st: State, g: nat, n: nat, at: nat, b: seq<byte>, cells: seq<Cell>)
    requires InPlace(st, g, n) && |cells| == |b| && at >= n
    ensures InPlace(Overwritten(st, at, b, cells), g, n)
  {
  }

  lemma SameInPlace(st: State, st': State, g: nat, n: nat)
    requires InPlace(st, g, n) && st'.transfers == st.transfers && st'.cells == st.cells
    requires st'.landed == st.landed && st'.owner == st.owner
    ensures InPlace(st', g, n)
  {
  }

  lemma GetInPlace(chip: Chip, st: State, g: nat, n: nat, size: u32, dma: Dma)
    requires Valid(chip, st) && 0 < size <= MaxSamples(chip) && InPlace(st, g, n)
    ensures var (st', r) := Get(chip, st, size, dma);
            st'.transfers == st.transfers ==> InPlace(st', g, n) && (r.GetOk? ==> Settled(st'))
  {
    hide Get, Capture, Land, InPlace, SampleSize, PacketSamples, MaxSamples, Tiles, ValidControl, Accepts;
    GetHandsOut(chip, st, size, dma);
    CaptureBytes(chip, st, size, dma);
    var from := if Left(st) > 0 then st else Capture(chip, st, size, dma);
    LandKeeps(chip, from, |Running(from)|);
    var (st', r) := Get(chip, st, size, dma);
    if st'.transfers == st.transfers {
      SameInPlace(st, from, g, n);
      LandInPlace(from, g, n, |Running(from)|);
      if r.GetOk? {
        SameInPlace(LandAll(from), st', g, n);
      }
    }
  }

  lemma StoreInPlace(b: Board, addr: u32, val: u32, chip: Chip, g: nat, n: nat)
    requires InPlace(b.Of(chip), g, n)
    requires var place := Place(addr); place.Some? && place.value.0 == chip ==> place.value.1 >= n
    ensures InPlace(StoreWord(b, addr, val).Of(chip), g, n)
  {
    hide InPlace, Place, HostBytes, Overwritten;
    var place := Place(addr);
    if place.Some? && place.value.0 == chip {
      OverwrittenInPlace(b.Of(chip), g, n, place.value.1, HostBytes(val), Plains(4));
    }
  }

  /** A call that stores into none of the samples leaves them in place, and what it hands out has landed. */
  lemma EffectInPlace(b: Board, c: Command, env: Env, chip: Chip, g: nat, n: nat)
    requires ValidBoard(b) && Admitted(c) && InPlace(b.Of(chip), g, n)
    requires var place := Place(c.addr);
             c.comm == SOFT_REG_WRITE && place.Some? && place.value.0 == chip ==> place.value.1 >= n
    ensures var (b', o) := Effect(b, c, env);
            b'.Of(chip).transfers == b.Of(chip).transfers ==>
              InPlace(b'.Of(chip), g, n) && (o.Samples? && o.chip == chip ==> Settled(b'.Of(chip)))
  {
    hide Get, Capture, Valid, InPlace, S32, U32, ReadWord, StoreWord, Place, Accepts, Settled, GetEffect;
    ValidMemory(b);
    if c.comm == SOFT_REG_WRITE {
      StoreInPlace(b, c.addr, c.val, chip, g, n);
    } else if c.comm == CaptureCommand(chip) {
      CaptureBytes(chip, b.Of(chip), c.val, env.dma);
      if Effect(b, c, env).0.Of(chip).transfers == b.Of(chip).transfers {
        SameInPlace(b.Of(chip), Effect(b, c, env).0.Of(chip), g, n);
      }
    } else if IsGet(c, chip) {
      AdmittedGet(c, chip);
      if c.val <= MaxSamples(chip) {
        GetInPlace(chip, b.Of(chip), g, n, c.val, env.dma);
        GetMovesTo(b, chip, c.val, env.dma);
      } else {
        GetRefused(b, chip, c.val, env.dma);
      }
    } else {
      ElsewhereKeeps(b, c, env, chip);
    }
  }

  lemma ElsewhereKeeps(b: Board, c: Command, env: Env, chip: Chip)
    requires ValidBoard(b) && Admitted(c) && c.comm != CaptureCommand(chip) && !IsGet(c, chip) && c.comm != SOFT_REG_WRITE
    ensures var (b', o) := Effect(b, c, env); b'.Of(chip) == b.Of(chip) && (o.Samples? ==> o.chip != chip)
  {
    hide Get, Capture, Valid, StoreWord, ReadWord, Accepts;
    ValidMemory(b);
  }

  lemma RespondInPlace(b: Board, p: Packet, c: Command, o: Outcome, text: Texts, chip: Chip, g: nat, n: nat)
    requires GoodTexts(text) && InPlace(b.Of(chip), g, n) && (o.Register? ==> |o.cells| == |o.bytes|)
    requires !StoresBelow(p, c, o, text, chip, n)
    ensures InPlace(Respond(b, p, o, text).0.Of(chip), g, n)
  {
    hide InPlace, Overwritten, Place;
    var s := Stored(o, text);
    if s.Some? && p.buf.Into? && p.buf.chip == chip {
      var cells := if o.Register? then o.cells else Plains(|s.value|);
      OverwrittenInPlace(b.Of(chip), g, n, p.buf.offset, s.value, cells);
    }
  }

  lemma HandleInPlace(b: Board, p: Packet, c: Command, env: Env, text: Texts, chip: Chip, g: nat, n: nat)
    requires ValidBoard(b) && ValidPacket(p) && Admitted(c) && GoodTexts(text) && InPlace(b.Of(chip), g, n)
    requires !StoresBelow(p, c, Handle(b, p, c, env, text).2, text, chip, n)
    ensures var (b', p', o) := Handle(b, p, c, env, text);
            b'.Of(chip).transfers == b.Of(chip).transfers ==>
              InPlace(b'.Of(chip), g, n) && ((o.Samples? && o.chip == chip) || Settled(b.Of(chip)) ==> Settled(b'.Of(chip)))
  {
    hide InPlace, ValidBoard, Effect, Respond, LandBoard, Place, Land;
    LandBoardKeeps(b, env.early);
    var b0 := LandBoard(b, env.early);
    LandInPlace(b.Of(chip), g, n, env.early.Of(chip));
    var (b1, o) := Effect(b0, c, env);
    LandBoardKeeps(b1, env.late);
    var b2 := LandBoard(b1, env.late);
    RespondKeeps(b2, p, o, text, chip);
    if b1.Of(chip).transfers == b0.Of(chip).transfers {
      EffectInPlace(b0, c, env, chip, g, n);
      EffectSettles(b0, c, env, chip);
      EffectKeeps(b0, c, env);
      LandInPlace(b1.Of(chip), g, n, env.late.Of(chip));
      RespondInPlace(b2, p, c, o, text, chip, g, n);
    }
  }

  lemma GetSettles(chip: Chip, st: State, size: u32, dma: Dma)
    requires Valid(chip, st) && 0 < size <= MaxSamples(chip)
    ensures var st' := Get(chip, st, size, dma).0; st'.transfers == st.transfers ==> st.landed <= st'.landed
  {
    hide Get, Capture, Land, Accepts, SampleSize, PacketSamples, MaxSamples;
    GetHandsOut(chip, st, size, dma);
    CaptureBytes(chip, st, size, dma);
    var from := if Left(st) > 0 then st else Capture(chip, st, size, dma);
    LandKeeps(chip, from, |Running(from)|);
  }

  /** Bytes that have landed stay landed. */
  lemma EffectSettles(b: Board, c: Command, env: Env, chip: Chip)
    requires ValidBoard(b) && Admitted(c)
    ensures var st, st' := b.Of(chip), Effect(b, c, env).0.Of(chip);
            st'.transfers == st.transfers ==> st.landed <= st'.landed
  {
    hide Get, Capture, Valid, S32, U32, ReadWord, StoreWord, Accepts, GetEffect;
    ValidMemory(b);
    StoreKeeps(b, c.addr, c.val);
    if c.comm == CaptureCommand(chip) {
      CaptureBytes(chip, b.Of(chip), c.val, env.dma);
    } else if IsGet(c, chip) {
      AdmittedGet(c, chip);
      if c.val <= MaxSamples(chip) {
        GetSettles(chip, b.Of(chip), c.val, env.dma);
        GetMovesTo(b, chip, c.val, env.dma);
      } else {
        GetRefused(b, chip, c.val, env.dma);
      }
    } else if c.comm != SOFT_REG_WRITE {
      ElsewhereKeeps(b, c, env, chip);
    }
  }

  // ---------------------------------------------------------------- whole runs

  predicate OwedOf(c: Client, chip: Chip, g: nat) {
    c.owed.Some? && c.owed.value.chip == chip && c.owed.value.source == Some(g)
  }

  predicate NoneOwed(s: System, chip: Chip, g: nat) {
    forall w | 0 <= w < |s.clients| :: !OwedOf(s.clients[w], chip, g)
  }

  /** While transfer g, of n bytes, is the last for a chip, no call stores into its bytes, and a new transfer is
      accepted only when none of its packets is still to be copied. */
  ghost predicate LeftAlone(s: System, events: seq<Event>, chip: Chip, g: nat, n: nat, text: Texts)
    requires ValidSystem(s) && GoodTexts(text)
    decreases |events|
  {
    events != [] ==>
      var ev := events[0]; var s' := Next(s, ev, text);
      if s'.board.Of(chip).transfers != s.board.Of(chip).transfers then NoneOwed(s, chip, g) && NoneOwed(s', chip, g)
      else
        && (Possible(s, ev) && ev.Handles? ==>
              var p := s.clients[ev.who].packet;
              var o := Handle(s.board, p, ev.command, ev.env, text).2;
              !StoresBelow(p, ev.command, o, text, chip, n))
        && LeftAlone(s', events[1..], chip, g, n, text)
  }

  /** Packets of transfer g that are still to be copied have landed. */
  ghost predicate Ripe(s: System, chip: Chip, g: nat) {
    NoneOwed(s, chip, g) || Settled(s.board.Of(chip))
  }

  lemma NextInPlace(s: System, ev: Event, chip: Chip, g: nat, n: nat, text: Texts)
    requires Kept(s) && GoodTexts(text) && InPlace(s.board.Of(chip), g, n) && Ripe(s, chip, g)
    requires Next(s, ev, text).board.Of(chip).transfers == s.board.Of(chip).transfers
    requires Possible(s, ev) && ev.Handles? ==>
               var p := s.clients[ev.who].packet;
               var o := Handle(s.board, p, ev.command, ev.env, text).2;
               !StoresBelow(p, ev.command, o, text, chip, n)
    ensures var s' := Next(s, ev, text); InPlace(s'.board.Of(chip), g, n) && Ripe(s', chip, g)
  {
    hide ValidBoard, Handle, Admitted, InPlace, Traced, OwedKept, LandBoard, Land, Place, Settled;
    var s' := Next(s, ev, text);
    if Possible(s, ev) {
      match ev
      case Sends(_) =>
      case Works(landing) =>
        LandBoardKeeps(s.board, landing);
        LandInPlace(s.board.Of(chip), g, n, landing.Of(chip));
        if Settled(s.board.Of(chip)) {
          LandSettles(chip, s.board.Of(chip), landing.Of(chip));
        }
      case Handles(who, command, env) =>
        BoardFacts(s, who);
        HandleInPlace(s.board, s.clients[who].packet, command, env, text, chip, g, n);
    }
  }

  lemma LandSettles(chip: Chip, st: State, upto: nat)
    requires Settled(st)
    ensures Settled(Land(st, upto))
  {
    LandKeeps(chip, st, upto);
  }

  lemma IntactInPlace(s: System, who: nat, chip: Chip, g: nat, n: nat)
    requires Kept(s) && who < |s.clients| && OwedOf(s.clients[who], chip, g)
    requires InPlace(s.board.Of(chip), g, n) && Ripe(s, chip, g)
    ensures Intact(s.board.Of(chip), s.clients[who].owed.value, g)
  {
    hide Traced, ValidBoard;
    Owners(s.board);
    assert OwedKept(s.board, s.clients[who]);
  }

  /** Once a later transfer was accepted with none of its packets to be copied, transfer g is done with. */
  lemma {:induction false} DoneIntact(s: System, events: seq<Event>, chip: Chip, g: nat, text: Texts)
    requires Kept(s) && ValidSystem(s) && GoodTexts(text) && Past(s.board.Of(chip), g) && NoneOwed(s, chip, g)
    ensures AllIntact(s, events, chip, g, text)
    decreases |events|
  {
    hide Kept, ValidSystem, Next, Intact, NoneOwed, Copies, Past;
    if events != [] {
      NextKept(s, events[0], text);
      PastNext(s, events[0], chip, g, text);
      StillNone(s, events[0], chip, g, text);
      DoneIntact(Next(s, events[0], text), events[1..], chip, g, text);
    }
  }

  lemma StillNone(s: System, ev: Event, chip: Chip, g: nat, text: Texts)
    requires Kept(s) && ValidSystem(s) && GoodTexts(text) && Past(s.board.Of(chip), g) && NoneOwed(s, chip, g)
    ensures NoneOwed(Next(s, ev, text), chip, g) && !Copies(s, ev, chip, g)
  {
    hide ValidBoard, Handle, Admitted, Traced, OwedKept, LandBoard;
    PastNext(s, ev, chip, g, text);
    if !ev.Works? && ev.who < |s.clients| {
      assert !OwedOf(s.clients[ev.who], chip, g);
    }
  }

  /** From a capture on, however the samples land: if the samples are left alone, every packet of them is intact when
      it is copied, and so carries what was captured. */
  lemma {:induction false} LeftAloneIntact(s: System, events: seq<Event>, chip: Chip, g: nat, n: nat, text: Texts)
    requires Kept(s) && ValidSystem(s) && GoodTexts(text) && InPlace(s.board.Of(chip), g, n) && Ripe(s, chip, g)
    requires LeftAlone(s, events, chip, g, n, text)
    ensures AllIntact(s, events, chip, g, text)
    decreases |events|
  {
    hide Kept, ValidSystem, Next, Intact, InPlace, Ripe, NoneOwed, StoresBelow, Handle, Possible, Past;
    if events != [] {
      var s' := Next(s, events[0], text);
      NextKept(s, events[0], text);
      if Copies(s, events[0], chip, g) {
        IntactInPlace(s, events[0].who, chip, g, n);
      }
      if s'.board.Of(chip).transfers == s.board.Of(chip).transfers {
        NextInPlace(s, events[0], chip, g, n, text);
        LeftAloneIntact(s', events[1..], chip, g, n, text);
      } else {
        Replaced(s, events[0], chip, g, n, text);
        DoneIntact(s', events[1..], chip, g, text);
      }
    }
  }

  lemma Replaced(s: System, ev: Event, chip: Chip, g: nat, n: nat, text: Texts)
    requires Kept(s) && ValidSystem(s) && GoodTexts(text) && InPlace(s.board.Of(chip), g, n)
    requires Next(s, ev, text).board.Of(chip).transfers != s.board.Of(chip).transfers
    ensures Past(Next(s, ev, text).board.Of(chip), g)
  {
    hide Next, OwedKept, TrueBytes;
    var s' := Next(s, ev, text);
    NextKept(s, ev, text);
    assert s.board.Of(chip).transfers <= s'.board.Of(chip).transfers;
    assert Sourced(chip, s'.board.Of(chip));
  }

  lemma CaptureInPlace(chip: Chip, st: State, n: u32, dma: Dma)
    requires Valid(chip, st) && 0 < n <= MaxSamples(chip) && dma.accepts && |st.cells| == REGION_SIZE
    ensures InPlace(Capture(chip, st, n, dma), |st.transfers|, |Captured(chip, n, dma)|)
  {
    hide Captured, SampleSize, MaxSamples, Tiles, ValidControl, Accepts, Land;
    CaptureKeeps(chip, st, n, dma);
    CaptureBytes(chip, st, n, dma);
    LandKeeps(chip, st, |Running(st)|);
    LandCells(st, |Running(st)|);
    LengthBound(chip, n);
  }

  lemma LandCells(st: State, upto: nat)
    ensures |Land(st, upto).cells| == |st.cells|
  {
  }

  lemma EffectStarts(b: Board, c: Command, env: Env, chip: Chip)
    requires ValidBoard(b) && Admitted(c) && env.dma.accepts && Recaptures(b, c, chip) && |b.Of(chip).cells| == REGION_SIZE
    ensures var (b', o) := Effect(b, c, env);
            && InPlace(b'.Of(chip), |b.Of(chip).transfers|, |Captured(chip, c.val, env.dma)|)
            && (o.Samples? && o.chip == chip ==> Settled(b'.Of(chip)))
  {
    hide Get, Capture, Valid, InPlace, S32, U32, Accepts, Captured, Land, SampleSize, MaxSamples;
    MaxPositive(c, chip);
    CaptureInPlace(chip, b.Of(chip), c.val, env.dma);
    CaptureKeeps(chip, b.Of(chip), c.val, env.dma);
    if c.comm != CaptureCommand(chip) {
      var from := Capture(chip, b.Of(chip), c.val, env.dma);
      DrainedGet(chip, b.Of(chip), c.val, env.dma);
      LandInPlace(from, |b.Of(chip).transfers|, |Captured(chip, c.val, env.dma)|, |Running(from)|);
      LandKeeps(chip, from, |Running(from)|);
      var st' := Get(chip, b.Of(chip), c.val, env.dma).0;
      if Get(chip, b.Of(chip), c.val, env.dma).1.GetOk? {
        SameInPlace(LandAll(from), st', |b.Of(chip).transfers|, |Captured(chip, c.val, env.dma)|);
      }
      GetMovesTo(b, chip, c.val, env.dma);
    }
  }

  lemma GetMovesTo(b: Board, chip: Chip, val: u32, dma: Dma)
    requires ValidBoard(b) && 0 < val <= MaxSamples(chip)
    ensures var (b', o) := GetEffect(b, chip, val, dma); var (st', r) := Get(chip, b.Of(chip), val, dma);
            b'.Of(chip) == st' && (o.Samples? <==> r.GetOk?)
  {
    hide Get, Valid;
    if Get(chip, b.Of(chip), val, dma).1.GetOk? {
      GetSucceeds(b, chip, val, dma);
    }
  }

  lemma GetRefused(b: Board, chip: Chip, val: u32, dma: Dma)
    requires ValidBoard(b) && val > MaxSamples(chip)
    ensures var (b', o) := GetEffect(b, chip, val, dma); b' == b && o.Failure?
  {
  }

  lemma HandleStarts(b: Board, p: Packet, c: Command, env: Env, text: Texts, chip: Chip)
    requires ValidBoard(b) && ValidPacket(p) && Admitted(c) && GoodTexts(text) && env.dma.accepts
    requires Recaptures(b, c, chip) && |b.Of(chip).cells| == REGION_SIZE
    requires !StoresBelow(p, c, Handle(b, p, c, env, text).2, text, chip, |Captured(chip, c.val, env.dma)|)
    ensures var (b', p', o) := Handle(b, p, c, env, text);
            && InPlace(b'.Of(chip), |b.Of(chip).transfers|, |Captured(chip, c.val, env.dma)|)
            && (o.Samples? && o.chip == chip ==> Settled(b'.Of(chip)))
  {
    hide InPlace, ValidBoard, Effect, Respond, LandBoard, Place, Land, Recaptures, Captured;
    var g, n := |b.Of(chip).transfers|, |Captured(chip, c.val, env.dma)|;
    LandBoardKeeps(b, env.early);
    LandRecaptures(b, c, chip, env.early);
    LandCells(b.Of(chip), env.early.Of(chip));
    var b0 := LandBoard(b, env.early);
    EffectStarts(b0, c, env, chip);
    EffectKeeps(b0, c, env);
    var (b1, o) := Effect(b0, c, env);
    LandBoardKeeps(b1, env.late);
    LandInPlace(b1.Of(chip), g, n, env.late.Of(chip));
    RespondKeeps(LandBoard(b1, env.late), p, o, text, chip);
    RespondInPlace(LandBoard(b1, env.late), p, c, o, text, chip, g, n);
  }

  /** A capture that is accepted, and whose answer is not printed over the samples, leaves them in place. */
  lemma TransferInPlace(s: System, ev: Event, chip: Chip, text: Texts)
    requires Kept(s) && ValidSystem(s) && GoodTexts(text) && StartsTransfer(s, ev, chip)
    requires var p := s.clients[ev.who].packet;
             !StoresBelow(p, ev.command, Handle(s.board, p, ev.command, ev.env, text).2, text, chip,
                          |Captured(chip, ev.command.val, ev.env.dma)|)
    ensures var g := |s.board.Of(chip).transfers|; var s' := Next(s, ev, text);
            Kept(s') && InPlace(s'.board.Of(chip), g, |Captured(chip, ev.command.val, ev.env.dma)|) && Ripe(s', chip, g)
  {
    hide ValidBoard, Handle, OwedKept, Recaptures, InPlace, Settled, Captured, Admitted, True;
    var g := |s.board.Of(chip).transfers|;
    NextKept(s, ev, text);
    BoardFacts(s, ev.who);
    BoardSizes(s.board, chip);
    HandleStarts(s.board, s.clients[ev.who].packet, ev.command, ev.env, text, chip);
    forall w | 0 <= w < |s.clients| ensures !OwedOf(s.clients[w], chip, g) {
      OldOwed(s, w, chip);
    }
  }

  lemma BoardSizes(b: Board, chip: Chip)
    requires ValidBoard(b) && Traced(b)
    ensures |b.Of(chip).cells| == REGION_SIZE
  {
    hide True;
    ValidMemory(b);
    assert TrueBytes(b, b.Of(chip).cells, b.Of(chip).memory);
  }

  /** From a capture on, however the samples land and whatever they are: if the answer to the capture is not printed
      over them and they are left alone until they are copied, the clients are sent exactly the captured samples. */
  lemma LeftAloneDelivers(s: System, ev: Event, after: seq<Event>, chip: Chip, data: nat -> byte, text: Texts)
    requires Kept(s) && ValidSystem(s) && GoodTexts(text) && StartsTransfer(s, ev, chip)
    requires var p := s.clients[ev.who].packet;
             !StoresBelow(p, ev.command, Handle(s.board, p, ev.command, ev.env, text).2, text, chip,
                          |Captured(chip, ev.command.val, ev.env.dma)|)
    requires LeftAlone(Next(s, ev, text), after, chip, |s.board.Of(chip).transfers|,
                       |Captured(chip, ev.command.val, ev.env.dma)|, text)
    ensures Delivers(Next(s, Redata(ev, data), text), after, chip, |s.board.Of(chip).transfers|, Truth(ev, chip, data), text)
  {
    hide Kept, Next, Captured, Recaptures, Possible, ValidSystem, Delivers, AllIntact, LeftAlone, Handle, StoresBelow, Truth;
    TransferInPlace(s, ev, chip, text);
    LeftAloneIntact(Next(s, ev, text), after, chip, |s.board.Of(chip).transfers|,
                    |Captured(chip, ev.command.val, ev.env.dma)|, text);
    DeliversExactly(s, ev, after, chip, text);
  }

  lemma OldOwed(s: System, w: nat, chip: Chip)
    requires Kept(s) && w < |s.clients|
    ensures !OwedOf(s.clients[w], chip, |s.board.Of(chip).transfers|)
  {
    hide Traced, ValidBoard;
    assert OwedKept(s.board, s.clients[w]);
  }
}
