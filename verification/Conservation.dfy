/** Which captured samples reach the clients, whatever the connections do in between. */
module Conservation {
  import opened Words
  import opened Common
  import opened LowLevel
  import opened Wire
  import opened Requests
  import opened Delivery
  import opened Tracing
  import opened Sharing

  // ---------------------------------------------------------------- copies that are not struck

  /** Every byte of the packet is, at its place, the byte of transfer g that landed there: nothing was stored over it
      since, be it a text, a register, a soft register or another transfer. */
  ghost predicate Intact(st: State, o: Owed, g: nat) {
    forall p | o.at <= p < o.at + o.num :: p < |st.cells| && st.cells[p] == Sample(o.chip, g, p)
  }

  /** Every packet of samples of transfer g is intact when it is copied. */
  ghost predicate AllIntact(s: System, events: seq<Event>, chip: Chip, g: nat, text: Texts)
    requires ValidSystem(s) && GoodTexts(text)
    decreases |events|
  {
    events != [] ==>
      && (Copies(s, events[0], chip, g) ==> Intact(s.board.Of(chip), s.clients[events[0].who].owed.value, g))
      && AllIntact(Next(s, events[0], text), events[1..], chip, g, text)
  }

  predicate DeliversOne(s: System, who: nat, truth: seq<byte>)
    requires ValidSystem(s) && who < |s.clients| && s.clients[who].owed.Some?
  {
    var o := s.clients[who].owed.value;
    o.at + o.num <= |truth| && Copied(s, who) == truth[o.at..o.at + o.num]
  }

  /** Every packet of samples of transfer g is copied with the bytes of `truth`. */
  predicate Delivers(s: System, events: seq<Event>, chip: Chip, g: nat, truth: seq<byte>, text: Texts)
    requires ValidSystem(s) && GoodTexts(text)
    decreases |events|
  {
    events != [] ==>
      && (Copies(s, events[0], chip, g) ==> DeliversOne(s, events[0].who, truth))
      && Delivers(Next(s, events[0], text), events[1..], chip, g, truth, text)
  }

  lemma CopiedBytes(s: System, who: nat)
    requires Kept(s) && who < |s.clients| && s.clients[who].owed.Some?
    ensures var o := s.clients[who].owed.value; var m := s.board.Of(o.chip).memory;
            o.at + o.num <= |m| && Copied(s, who) == m[o.at..o.at + o.num]
  {
    hide Traced, Tiles, ValidControl;
    var p := s.clients[who].packet;
    assert ValidPacket(p) && OwedKept(s.board, s.clients[who]);
  }

  /** An intact packet is copied with the bytes of its transfer. */
  lemma IntactOne(s: System, who: nat, g: nat)
    requires Kept(s) && who < |s.clients| && s.clients[who].owed.Some?
    requires var o := s.clients[who].owed.value; o.source == Some(g) && Intact(s.board.Of(o.chip), o, g)
    ensures var o := s.clients[who].owed.value; var st := s.board.Of(o.chip);
            g < |st.transfers| && DeliversOne(s, who, st.transfers[g])
  {
    hide ValidBoard, Sourced, Copied;
    CopiedBytes(s, who);
    assert OwedKept(s.board, s.clients[who]);
    var o := s.clients[who].owed.value;
    var st := s.board.Of(o.chip);
    assert TrueBytes(s.board, st.cells, st.memory);
    forall p | o.at <= p < o.at + o.num ensures st.memory[p] == st.transfers[g][p] {
      assert True(s.board, st.cells[p], st.memory[p]);
    }
    assert st.memory[o.at..o.at + o.num] == st.transfers[g][o.at..o.at + o.num];
  }

  lemma RunGrows(s: System, events: seq<Event>, chip: Chip, text: Texts)
    requires Kept(s) && GoodTexts(text)
    ensures s.board.Of(chip).transfers <= Run(s, events, text).board.Of(chip).transfers
    ensures Kept(Run(s, events, text))
    decreases |events|
  {
    hide Kept, Next, ValidSystem;
    KeptValid(s);
    if events != [] {
      NextKept(s, events[0], text);
      assert s.board.Of(chip).transfers <= Next(s, events[0], text).board.Of(chip).transfers;
      RunGrows(Next(s, events[0], text), events[1..], chip, text);
    }
  }

  lemma KeptValid(s: System)
    requires Kept(s)
    ensures ValidSystem(s)
  {
  }

  /** In a run that strikes none of them, all packets of a transfer are copied with its bytes. */
  lemma {:induction false} IntactDelivers(s: System, events: seq<Event>, chip: Chip, g: nat, text: Texts)
    requires Kept(s) && GoodTexts(text) && AllIntact(s, events, chip, g, text)
    requires g < |Run(s, events, text).board.Of(chip).transfers|
    ensures Delivers(s, events, chip, g, Run(s, events, text).board.Of(chip).transfers[g], text)
    decreases |events|
  {
    hide Kept, Next, ValidSystem, DeliversOne, Intact;
    KeptValid(s);
    if events != [] {
      NextKept(s, events[0], text);
      RunGrows(s, events, chip, text);
      if Copies(s, events[0], chip, g) {
        IntactOne(s, events[0].who, g);
      }
      IntactDelivers(Next(s, events[0], text), events[1..], chip, g, text);
    }
  }

  // ---------------------------------------------------------------- the same run with other samples

  ghost predicate AlikeClient(c: Client, c': Client) {
    c'.owed == c.owed && AlikePacket(c.packet, c'.packet)
  }

  ghost predicate AlikeSystem(s: System, s': System, chip: Chip, g: nat) {
    && |s'.clients| == |s.clients| && (forall w | 0 <= w < |s.clients| :: AlikeClient(s.clients[w], s'.clients[w]))
    && AlikeBoard(s.board, s'.board, chip, g)
  }

  lemma AlikeNext(s: System, s': System, chip: Chip, g: nat, ev: Event, text: Texts)
    requires ValidSystem(s) && ValidSystem(s') && AlikeSystem(s, s', chip, g) && GoodTexts(text)
    ensures AlikeSystem(Next(s, ev, text), Next(s', ev, text), chip, g)
  {
    hide ValidBoard, AlikeBoard, Handle, Admitted, LandBoard, AlikePacket;
    AlikePossible(s, s', chip, g, ev);
    if Possible(s, ev) {
      match ev
      case Works(landing) => AlikeLandBoard(s.board, s'.board, chip, g, landing);
      case Sends(who) =>
      case Handles(who, command, env) =>
        BoardFacts(s, who);
        BoardFacts(s', who);
        var p, p' := s.clients[who].packet, s'.clients[who].packet;
        assert AlikeClient(s.clients[who], s'.clients[who]);
        HandleAlike(s.board, s'.board, chip, g, p, p', command, env, text);
        HandleSource(s.board, s'.board, chip, g, p, p', command, env, text);
    }
  }

  lemma AlikePossible(s: System, s': System, chip: Chip, g: nat, ev: Event)
    requires AlikeSystem(s, s', chip, g)
    ensures Possible(s, ev) <==> Possible(s', ev)
    ensures Copies(s, ev, chip, g) <==> Copies(s', ev, chip, g)
    ensures Copies(s, ev, chip, g) ==> s.clients[ev.who].owed == s'.clients[ev.who].owed
  {
    hide AlikeBoard, Admitted;
    if !ev.Works? && ev.who < |s.clients| {
      assert AlikeClient(s.clients[ev.who], s'.clients[ev.who]);
    }
  }

  lemma HandleSource(b: Board, b': Board, chip: Chip, g: nat, p: Packet, p': Packet, c: Command, env: Env, text: Texts)
    requires AlikeBoard(b, b', chip, g) && ValidBoard(b) && ValidBoard(b') && Admitted(c) && GoodTexts(text)
    requires AlikePacket(p, p')
    ensures var (u, q, o), (u', q', o') := Handle(b, p, c, env, text), Handle(b', p', c, env, text);
            NowOwed(u, o) == NowOwed(u', o')
  {
    hide Handle, ValidBoard;
    HandleAlike(b, b', chip, g, p, p', c, env, text);
  }

  lemma AlikeIntact(s: System, s': System, o: Owed, chip: Chip, g: nat)
    requires AlikeSystem(s, s', chip, g)
    ensures Intact(s.board.Of(chip), o, g) ==> Intact(s'.board.Of(chip), o, g)
  {
  }

  /** Which packets are struck does not depend on the samples. */
  lemma {:induction false} AlikeAllIntact(s: System, s': System, events: seq<Event>, chip: Chip, g: nat, text: Texts)
    requires ValidSystem(s) && ValidSystem(s') && AlikeSystem(s, s', chip, g) && GoodTexts(text)
    requires AllIntact(s, events, chip, g, text)
    ensures AllIntact(s', events, chip, g, text)
    decreases |events|
  {
    hide ValidSystem, Next, Intact, AlikeSystem, Copies;
    if events != [] {
      AlikePossible(s, s', chip, g, events[0]);
      AlikeNext(s, s', chip, g, events[0], text);
      if Copies(s', events[0], chip, g) {
        CopiesWhom(s, events[0], chip, g);
        AlikeIntact(s, s', s.clients[events[0].who].owed.value, chip, g);
      }
      AlikeAllIntact(Next(s, events[0], text), Next(s', events[0], text), events[1..], chip, g, text);
    }
  }

  lemma CopiesWhom(s: System, ev: Event, chip: Chip, g: nat)
    requires Copies(s, ev, chip, g)
    ensures ev.Sends? && ev.who < |s.clients| && s.clients[ev.who].owed.Some?
    ensures s.clients[ev.who].owed.value.chip == chip && s.clients[ev.who].owed.value.source == Some(g)
  {
  }

  /** What a struck packet proves of a transfer that is delivered all the same: its byte p is the same as another of
      its bytes, or a certain value. */
  ghost predicate Betrays(truth: seq<byte>, p: nat, twin: Option<nat>, v: byte) {
    && p < |truth|
    && (twin.Some? ==> twin.value != p && twin.value < |truth| && truth[p] == truth[twin.value])
    && (twin.None? ==> truth[p] == v)
  }

  lemma StruckOne(s: System, who: nat, g: nat) returns (p: nat, twin: Option<nat>, v: byte)
    requires Kept(s) && who < |s.clients| && s.clients[who].owed.Some?
    requires var o := s.clients[who].owed.value; o.source == Some(g) && !Intact(s.board.Of(o.chip), o, g)
    ensures var chip := s.clients[who].owed.value.chip;
            forall s' :: Kept(s') && AlikeSystem(s, s', chip, g) && g < |s'.board.Of(chip).transfers|
                         && who < |s'.clients| && s'.clients[who].owed == s.clients[who].owed
                         && DeliversOne(s', who, s'.board.Of(chip).transfers[g])
                         ==> Betrays(s'.board.Of(chip).transfers[g], p, twin, v)
  {
    hide ValidBoard, Sourced, Copied, OwedKept;
    var o := s.clients[who].owed.value;
    var st := s.board.Of(o.chip);
    CopiedBytes(s, who);
    assert TrueBytes(s.board, st.cells, st.memory);
    p :| o.at <= p < o.at + o.num && !(p < |st.cells| && st.cells[p] == Sample(o.chip, g, p));
    v := st.memory[p];
    twin := if Belongs(st.cells[p], o.chip, g) then Some(st.cells[p].index) else None;
    forall s' | Kept(s') && AlikeSystem(s, s', o.chip, g) && g < |s'.board.Of(o.chip).transfers|
                && who < |s'.clients| && s'.clients[who].owed == s.clients[who].owed
                && DeliversOne(s', who, s'.board.Of(o.chip).transfers[g])
      ensures Betrays(s'.board.Of(o.chip).transfers[g], p, twin, v)
    {
      StruckAlike(s, s', who, g, p);
    }
  }

  lemma StruckAlike(s: System, s': System, who: nat, g: nat, p: nat)
    requires Kept(s) && Kept(s') && who < |s.clients| && s.clients[who].owed.Some?
    requires who < |s'.clients| && s'.clients[who].owed == s.clients[who].owed
    requires var o := s.clients[who].owed.value;
             && AlikeSystem(s, s', o.chip, g) && g < |s'.board.Of(o.chip).transfers|
             && DeliversOne(s', who, s'.board.Of(o.chip).transfers[g])
             && o.at <= p < o.at + o.num && p < |s.board.Of(o.chip).cells|
    ensures var o := s.clients[who].owed.value; var truth := s'.board.Of(o.chip).transfers[g];
            var cell := s.board.Of(o.chip).cells[p];
            && p < |truth| && p < |s.board.Of(o.chip).memory|
            && (if Belongs(cell, o.chip, g) then cell.index < |truth| && truth[p] == truth[cell.index]
                else truth[p] == s.board.Of(o.chip).memory[p])
  {
    hide ValidBoard, Sourced, Copied, OwedKept, AlikeTransfers;
    var o := s.clients[who].owed.value;
    CopiedBytes(s', who);
    var truth, m' := s'.board.Of(o.chip).transfers[g], s'.board.Of(o.chip).memory;
    SliceAt(truth, o.at, o.at + o.num, p);
    SliceAt(m', o.at, o.at + o.num, p);
    assert AlikeState(s.board.Of(o.chip), s'.board.Of(o.chip), o.chip, g);
    assert TrueBytes(s'.board, s'.board.Of(o.chip).cells, m');
    assert True(s'.board, s'.board.Of(o.chip).cells[p], m'[p]);
  }

  lemma SliceAt(b: seq<byte>, lo: nat, hi: nat, p: nat)
    requires lo <= p < hi <= |b|
    ensures b[lo..hi][p - lo] == b[p]
  {
  }

  /** A run that strikes a packet fails to deliver every transfer that has no such coincidence. */
  lemma {:induction false} StruckFails(s: System, events: seq<Event>, chip: Chip, g: nat, text: Texts)
    returns (p: nat, twin: Option<nat>, v: byte)
    requires Kept(s) && GoodTexts(text) && g < |s.board.Of(chip).transfers| && !AllIntact(s, events, chip, g, text)
    ensures forall s' :: Kept(s') && ValidSystem(s') && AlikeSystem(s, s', chip, g) && g < |s'.board.Of(chip).transfers|
                         && Delivers(s', events, chip, g, s'.board.Of(chip).transfers[g], text)
                         ==> Betrays(s'.board.Of(chip).transfers[g], p, twin, v)
    decreases |events|
  {
    hide ValidSystem, Next, Intact, Kept, DeliversOne, AlikeSystem, Copies, Betrays;
    KeptValid(s);
    var s1 := Next(s, events[0], text);
    NextKept(s, events[0], text);
    assert s.board.Of(chip).transfers <= s1.board.Of(chip).transfers;
    var here := false;
    if Copies(s, events[0], chip, g) {
      CopiesWhom(s, events[0], chip, g);
      here := !Intact(s.board.Of(chip), s.clients[events[0].who].owed.value, g);
    }
    if here {
      p, twin, v := StruckOne(s, events[0].who, g);
      forall s' | Kept(s') && ValidSystem(s') && AlikeSystem(s, s', chip, g) && g < |s'.board.Of(chip).transfers|
                  && Delivers(s', events, chip, g, s'.board.Of(chip).transfers[g], text)
        ensures Betrays(s'.board.Of(chip).transfers[g], p, twin, v)
      {
        AlikePossible(s, s', chip, g, events[0]);
        CopiesWhom(s', events[0], chip, g);
      }
    } else {
      p, twin, v := StruckFails(s1, events[1..], chip, g, text);
      forall s' | Kept(s') && ValidSystem(s') && AlikeSystem(s, s', chip, g) && g < |s'.board.Of(chip).transfers|
                  && Delivers(s', events, chip, g, s'.board.Of(chip).transfers[g], text)
        ensures Betrays(s'.board.Of(chip).transfers[g], p, twin, v)
      {
        KeptValid(s');
        AlikeNext(s, s', chip, g, events[0], text);
        NextKept(s', events[0], text);
        assert s'.board.Of(chip).transfers <= Next(s', events[0], text).board.Of(chip).transfers;
      }
    }
  }

  // ---------------------------------------------------------------- the exact condition

  /** The command captures the handler of a chip anew. */
  predicate Recaptures(b: Board, c: Command, chip: Chip) {
    || (c.comm == CaptureCommand(chip) && 0 < c.val <= MaxSamples(chip))
    || (GoodGet(c, chip) && Left(b.Of(chip)) == 0)
  }

  /** The same event with a DMA engine that delivers other bytes. */
  function Redata(ev: Event, data: nat -> byte): Event
    requires ev.Handles?
  {
    ev.(env := ev.env.(dma := ev.env.dma.(data := data)))
  }

  /** The event captures a chip, and the engine accepts the transfer. */
  predicate StartsTransfer(s: System, ev: Event, chip: Chip) {
    Possible(s, ev) && ev.Handles? && ev.env.dma.accepts && Recaptures(s.board, ev.command, chip)
  }

  /** What a capture leaves, but for the bytes themselves: none of them has landed. */
  lemma CapturesAlike(st: State, n: u32, dma: Dma, data: nat -> byte)
    requires Accepts(st.owner, n, dma) && |st.cells| == |st.memory|
    ensures var u, u' := Capture(st.owner, st, n, dma), Capture(st.owner, st, n, dma.(data := data));
            var g := |st.transfers|;
            && AlikeState(u, u', st.owner, g) && u.owner == st.owner
            && |u.transfers| == g + 1 && u.transfers[g] == Captured(st.owner, n, dma)
  {
    hide SampleSize, ControlWord, U32;
    LandKeeps(st.owner, st, |Running(st)|);
  }

  lemma GetsAlike(chip: Chip, st: State, n: u32, dma: Dma, data: nat -> byte)
    requires Valid(chip, st) && 0 < n <= MaxSamples(chip) && dma.accepts && Left(st) == 0 && |st.cells| == |st.memory|
    ensures var g := |st.transfers|;
            var (u, r) := Get(chip, st, n, dma);
            var (u', r') := Get(chip, st, n, dma.(data := data));
            && r == r' && AlikeState(u, u', chip, g) && u.owner == chip
            && |u.transfers| == g + 1 && u.transfers[g] == Captured(chip, n, dma)
  {
    hide Capture, Captured, SampleSize, PacketSamples, MaxSamples, Get, Land, Tiles, ValidControl, Accepts;
    CaptureKeeps(chip, st, n, dma);
    CapturesAlike(st, n, dma, data);
    var from, from' := Capture(chip, st, n, dma), Capture(chip, st, n, dma.(data := data));
    AlikeLandAll(from, from', chip, |st.transfers|);
    LandKeeps(chip, from, |Running(from)|);
    DrainedGet(chip, st, n, dma);
    DrainedGet(chip, st, n, dma.(data := data));
  }

  /** On a drained handler get_samples goes on from a capture. */
  lemma DrainedGet(chip: Chip, st: State, n: u32, dma: Dma)
    requires Valid(chip, st) && 0 < n <= MaxSamples(chip) && Left(st) == 0
    ensures var (u, r) := Get(chip, st, n, dma); var from := Capture(chip, st, n, dma);
            && (r.GetOk? <==> dma.busyPolls < MAX_DMA_TRIES && dma.accepts) && (r.GetFailed? ==> u == from)
            && (r.GetOk? ==>
                  && r.size == (if n < PacketSamples(chip) then n else PacketSamples(chip)) && r.byteOffset == 0
                  && u == LandAll(from).(pos := r.size, handed := [Range(0, r.size)]))
  {
    hide Get, SampleSize, PacketSamples, MaxSamples, Capture, Land;
    GetHandsOut(chip, st, n, dma);
    CaptureStart(chip, st, n, dma);
  }

  lemma EffectsAlike(b: Board, c: Command, env: Env, chip: Chip, data: nat -> byte)
    requires ValidBoard(b) && Traced(b) && Admitted(c) && env.dma.accepts && Recaptures(b, c, chip)
    ensures var env' := env.(dma := env.dma.(data := data)); var g := |b.Of(chip).transfers|;
            var (u, o) := Effect(b, c, env);
            var (u', o') := Effect(b, c, env');
            && o == o' && !o.Register? && AlikeBoard(u, u', chip, g)
            && g < |u.Of(chip).transfers| && u.Of(chip).transfers[g] == Captured(chip, c.val, env.dma)
  {
    hide Get, Capture, Captured, AlikeTransfers, AlikeBytes, True, Valid, S32, U32, Accepts, SampleSize, MaxSamples;
    Owners(b);
    assert TrueBytes(b, b.Of(chip).cells, b.Of(chip).memory);
    SameAlike(b.Of(Other(chip)), chip, |b.Of(chip).transfers|);
    MaxPositive(c, chip);
    if c.comm == CaptureCommand(chip) {
      CaptureKeeps(chip, b.Of(chip), c.val, env.dma);
      CaptureKeeps(chip, b.Of(chip), c.val, env.dma.(data := data));
      CapturesAlike(b.Of(chip), c.val, env.dma, data);
    } else {
      GetsAlike(chip, b.Of(chip), c.val, env.dma, data);
      SameCounts(b, chip, c, env, data);
    }
  }

  lemma MaxPositive(c: Command, chip: Chip)
    ensures GoodGet(c, chip) ==> 0 < c.val <= MaxSamples(chip) && c.comm == GetCommand(chip)
  {
  }

  /** The payload a successful call names is the same whatever lies there. */
  lemma SameCounts(b: Board, chip: Chip, c: Command, env: Env, data: nat -> byte)
    requires ValidBoard(b) && 0 < c.val <= MaxSamples(chip)
    requires Get(chip, b.Of(chip), c.val, env.dma).1 == Get(chip, b.Of(chip), c.val, env.dma.(data := data)).1
    ensures var (u, o) := GetEffect(b, chip, c.val, env.dma);
            var (u', o') := GetEffect(b, chip, c.val, env.dma.(data := data));
            && o == o' && !o.Register?
            && u == b.With(chip, Get(chip, b.Of(chip), c.val, env.dma).0)
            && u' == b.With(chip, Get(chip, b.Of(chip), c.val, env.dma.(data := data)).0)
  {
    hide Get, Valid;
  }

  lemma SameAlike(st: State, chip: Chip, g: nat)
    ensures st.owner != chip && |st.cells| == |st.memory| ==> AlikeState(st, st, chip, g)
  {
  }

  lemma LandRecaptures(b: Board, c: Command, chip: Chip, l: Landing)
    requires Recaptures(b, c, chip)
    ensures Recaptures(LandBoard(b, l), c, chip)
    ensures |LandBoard(b, l).Of(chip).transfers| == |b.Of(chip).transfers|
  {
    hide Land;
    LandBoardKeeps(b, l);
  }

  lemma HandlesAlike(b: Board, p: Packet, c: Command, env: Env, chip: Chip, data: nat -> byte, text: Texts)
    requires ValidBoard(b) && ValidPacket(p) && Traced(b) && Admitted(c) && GoodTexts(text)
    requires env.dma.accepts && Recaptures(b, c, chip)
    ensures var env' := env.(dma := env.dma.(data := data)); var g := |b.Of(chip).transfers|;
            var (u, q, o) := Handle(b, p, c, env, text);
            var (u', q', o') := Handle(b, p, c, env', text);
            && o == o' && AlikePacket(q, q') && AlikeBoard(u, u', chip, g) && NowOwed(u, o) == NowOwed(u', o')
            && g < |u.Of(chip).transfers| && u.Of(chip).transfers[g] == Captured(chip, c.val, env.dma)
  {
    hide ValidBoard, Effect, Captured, Recaptures, AlikeState, LandBoard, Respond, Traced, AlikePacket;
    var env' := env.(dma := env.dma.(data := data));
    var g := |b.Of(chip).transfers|;
    LandBoardKeeps(b, env.early);
    LandBoardTrue(b, env.early);
    LandRecaptures(b, c, chip, env.early);
    var b0 := LandBoard(b, env.early);
    EffectsAlike(b0, c, env, chip, data);
    var (u, o) := Effect(b0, c, env);
    var u' := Effect(b0, c, env').0;
    AlikeLandBoard(u, u', chip, g, env.late);
    LandBoardKeeps(u, env.late);
    var v, v' := LandBoard(u, env.late), LandBoard(u', env.late);
    SamePacketAlike(p);
    RespondAlike(v, v', chip, g, p, p, o, o, text);
    RespondKeeps(v, p, o, text, chip);
    SameSources(Respond(v, p, o, text).0, Respond(v', p, o, text).0, chip, g);
  }

  lemma SamePacketAlike(p: Packet)
    ensures AlikePacket(p, p)
  {
  }

  lemma RespondKeeps(b: Board, p: Packet, o: Outcome, text: Texts, chip: Chip)
    requires GoodTexts(text)
    ensures var st, st' := b.Of(chip), Respond(b, p, o, text).0.Of(chip);
            st' == st.(memory := st'.memory, cells := st'.cells)
  {
  }

  lemma SameSources(b: Board, b': Board, chip: Chip, g: nat)
    requires AlikeBoard(b, b', chip, g)
    ensures forall c: Chip :: b.Of(c).source == b'.Of(c).source
  {
    hide AlikeBytes, AlikeTransfers;
  }

  lemma TransfersAlike(s: System, ev: Event, chip: Chip, data: nat -> byte, text: Texts)
    requires Kept(s) && GoodTexts(text) && StartsTransfer(s, ev, chip)
    ensures var g := |s.board.Of(chip).transfers|;
            var s1, s2 := Next(s, ev, text), Next(s, Redata(ev, data), text);
            && Kept(s1) && Kept(s2) && AlikeSystem(s1, s2, chip, g)
            && g < |s1.board.Of(chip).transfers| && s1.board.Of(chip).transfers[g] == Captured(chip, ev.command.val, ev.env.dma)
  {
    hide Traced, OwedKept, Handle, Captured, Recaptures, AlikeBoard, AlikePacket, Admitted, ValidBoard;
    NextKept(s, ev, text);
    NextKept(s, Redata(ev, data), text);
    BoardFacts(s, ev.who);
    HandlesAlike(s.board, s.clients[ev.who].packet, ev.command, ev.env, chip, data, text);
    forall w | 0 <= w < |s.clients| ensures AlikePacket(s.clients[w].packet, s.clients[w].packet) {
      SamePacketAlike(s.clients[w].packet);
    }
  }

  /** What a transfer of other bytes captures. */
  function Truth(ev: Event, chip: Chip, data: nat -> byte): seq<byte>
    requires ev.Handles?
  {
    Captured(chip, ev.command.val, ev.env.dma.(data := data))
  }

  /** A capture, and whatever any connections do afterwards, with the bytes landing at any pace: the clients are sent
      the captured samples, whatever the capture delivers, if and only if every packet is intact when it is copied. */
  lemma DeliversExactly(s: System, ev: Event, after: seq<Event>, chip: Chip, text: Texts)
    requires Kept(s) && GoodTexts(text) && StartsTransfer(s, ev, chip)
    ensures (forall data: nat -> byte ::
               Delivers(Next(s, Redata(ev, data), text), after, chip, |s.board.Of(chip).transfers|, Truth(ev, chip, data), text))
       <==> AllIntact(Next(s, ev, text), after, chip, |s.board.Of(chip).transfers|, text)
  {
    hide Kept, Next, Captured, Recaptures, Possible, AlikeSystem, ValidSystem, Delivers, AllIntact, Betrays;
    var g := |s.board.Of(chip).transfers|;
    KeptValid(s);
    var s1 := Next(s, ev, text);
    assert Redata(ev, ev.env.dma.data) == ev;
    TransfersAlike(s, ev, chip, ev.env.dma.data, text);
    if AllIntact(s1, after, chip, g, text) {
      forall data: nat -> byte
        ensures Delivers(Next(s, Redata(ev, data), text), after, chip, g, Truth(ev, chip, data), text)
      {
        IntactDeliversTruth(s, ev, after, chip, data, text);
      }
    } else {
      var p, twin, v := StruckFails(s1, after, chip, g, text);
      var data := Unlike(p, v);
      NoTwin(ev, chip, p, twin, v);
      TransfersAlike(s, ev, chip, data, text);
      SameKind(s, ev, chip, data);
      TransfersAlike(s, Redata(ev, data), chip, data, text);
      var s2 := Next(s, Redata(ev, data), text);
      KeptValid(s2);
      assert s2.board.Of(chip).transfers[g] == Truth(ev, chip, data);
    }
  }

  /** Samples whose byte p is neither v nor like any other. */
  function Unlike(p: nat, v: byte): nat -> byte {
    i => if (i == p) == (v == 0) then 1 else 0
  }

  lemma NoTwin(ev: Event, chip: Chip, p: nat, twin: Option<nat>, v: byte)
    requires ev.Handles?
    ensures !Betrays(Truth(ev, chip, Unlike(p, v)), p, twin, v)
  {
    hide SampleSize;
  }

  lemma IntactDeliversTruth(s: System, ev: Event, after: seq<Event>, chip: Chip, data: nat -> byte, text: Texts)
    requires Kept(s) && GoodTexts(text) && StartsTransfer(s, ev, chip)
    requires AllIntact(Next(s, ev, text), after, chip, |s.board.Of(chip).transfers|, text)
    ensures Delivers(Next(s, Redata(ev, data), text), after, chip, |s.board.Of(chip).transfers|, Truth(ev, chip, data), text)
  {
    hide Kept, Next, Captured, AlikeSystem, ValidSystem, Delivers, AllIntact, Recaptures, Possible;
    KeptValid(s);
    var g := |s.board.Of(chip).transfers|;
    var ev' := Redata(ev, data);
    TransfersAlike(s, ev, chip, data, text);
    var s1, s2 := Next(s, ev, text), Next(s, ev', text);
    KeptValid(s1);
    KeptValid(s2);
    AlikeAllIntact(s1, s2, after, chip, g, text);
    SameKind(s, ev, chip, data);
    TransfersAlike(s, ev', chip, data, text);
    HasTransfer(s1, s2, chip, g);
    RunGrows(s2, after, chip, text);
    IntactDelivers(s2, after, chip, g, text);
  }

  lemma SameKind(s: System, ev: Event, chip: Chip, data: nat -> byte)
    requires StartsTransfer(s, ev, chip)
    ensures StartsTransfer(s, Redata(ev, data), chip)
  {
  }

  lemma HasTransfer(s: System, s': System, chip: Chip, g: nat)
    requires AlikeSystem(s, s', chip, g)
    ensures g < |s.board.Of(chip).transfers| == |s'.board.Of(chip).transfers|
  {
  }

  // ---------------------------------------------------------------- what the clients hold between them

  function ByteAt(at: nat, b: seq<byte>, p: nat): byte
    requires at <= p < at + |b|
  {
    b[p - at]
  }

  function Placed(at: nat, b: seq<byte>): map<nat, byte> {
    map p: nat | at <= p < at + |b| :: ByteAt(at, b, p)
  }

  /** The bytes of transfer g that were copied for sending, by their position in the buffer. */
  function Collected(s: System, events: seq<Event>, chip: Chip, g: nat, text: Texts): map<nat, byte>
    requires ValidSystem(s) && GoodTexts(text)
    decreases |events|
  {
    if events == [] then map[]
    else
      var rest := Collected(Next(s, events[0], text), events[1..], chip, g, text);
      if Copies(s, events[0], chip, g) then
        Placed(s.clients[events[0].who].owed.value.at, Copied(s, events[0].who)) + rest
      else rest
  }

  predicate Holds(c: Client, chip: Chip, g: nat, p: int) {
    c.owed.Some? && c.owed.value.chip == chip && c.owed.value.source == Some(g)
    && c.owed.value.at <= p < c.owed.value.at + c.owed.value.num
  }

  /** Some connection has handled the request for the byte at p, but not copied it yet. */
  predicate Owes(s: System, chip: Chip, g: nat, p: int) {
    exists w :: 0 <= w < |s.clients| && Holds(s.clients[w], chip, g, p)
  }

  /** How many samples of transfer g are handed out. */
  function Base(st: State, g: nat): nat {
    if st.source == Some(g) then st.pos else 0
  }

  /** One call on a handler: it goes on from where it was, or from the start of a new capture; a sample packet
      covers exactly the distance its position moves. */
  lemma EffectMoves(b: Board, c: Command, env: Env, chip: Chip) returns (kept: bool, base: nat)
    requires ValidBoard(b) && Admitted(c)
    ensures var (b', o) := Effect(b, c, env);
            var st, st', k := b.Of(chip), b'.Of(chip), SampleSize(chip);
            && (if kept then st'.source == st.source && base == st.pos
                else base == 0 && (st'.source.None? || st'.source == Some(|st.transfers|)))
            && (st'.source == Some(|st.transfers|) ==> |st.transfers| < |st'.transfers| || st.source == st'.source)
            && base <= st'.pos
            && (if o.Samples? && o.chip == chip then o.byteOffset == base * k && o.byteOffset + o.num == st'.pos * k
                else st'.pos == base)
  {
    hide Get, Valid, S32, U32, SampleSize, MaxSamples, PacketSamples, Capture;
    CaptureStart(chip, b.Of(chip), c.val, env.dma);
    CaptureBytes(chip, b.Of(chip), c.val, env.dma);
    kept, base := true, b.Of(chip).pos;
    if c.comm == CaptureCommand(chip) {
      if c.val <= MaxSamples(chip) {
        kept, base := false, 0;
      }
    } else if IsGet(c, chip) {
      AdmittedGet(c, chip);
      if c.val <= MaxSamples(chip) {
        kept, base := GetMoves(b, chip, c.val, env.dma);
      }
    } else {
      OtherEffect(b, c, env, chip);
    }
  }

  lemma GetMoves(b: Board, chip: Chip, val: u32, dma: Dma) returns (kept: bool, base: nat)
    requires ValidBoard(b) && 0 < val <= MaxSamples(chip)
    ensures var (b', o) := GetEffect(b, chip, val, dma);
            var st, st', k := b.Of(chip), b'.Of(chip), SampleSize(chip);
            && (if kept then st'.source == st.source && base == st.pos
                else base == 0 && (st'.source.None? || st'.source == Some(|st.transfers|)))
            && (st'.source == Some(|st.transfers|) ==> |st.transfers| < |st'.transfers| || st.source == st'.source)
            && base <= st'.pos
            && (if o.Samples? then o.chip == chip && o.byteOffset == base * k && o.byteOffset + o.num == st'.pos * k
                else st'.pos == base)
  {
    hide Get, Valid, S32, U32, SampleSize, MaxSamples, PacketSamples, Capture, Land;
    var st := b.Of(chip);
    CaptureStart(chip, st, val, dma);
    CaptureBytes(chip, st, val, dma);
    GetHandsOut(chip, st, val, dma);
    var from := if Left(st) > 0 then st else Capture(chip, st, val, dma);
    LandKeeps(chip, from, |Running(from)|);
    var (st', r) := Get(chip, st, val, dma);
    if r.GetOk? {
      PayloadInBuffer(chip, st, val, dma);
    }
    LeftOf(chip, st);
    kept := Left(st) > 0;
    base := if kept then st.pos else 0;
    if r.GetOk? {
      Distribute(st'.pos, base, SampleSize(chip));
    }
  }

  lemma LeftOf(chip: Chip, st: State)
    requires Valid(chip, st)
    ensures Left(st) >= 0
  {
  }

  lemma OtherEffect(b: Board, c: Command, env: Env, chip: Chip)
    requires ValidBoard(b) && Admitted(c) && c.comm != CaptureCommand(chip) && !IsGet(c, chip)
    ensures var (b', o) := Effect(b, c, env); var st, st' := b.Of(chip), b'.Of(chip);
            && st'.source == st.source && st'.pos == st.pos && st'.transfers == st.transfers
            && (o.Samples? ==> o.chip != chip)
  {
    hide Get, Capture, Valid, StoreWord, ReadWord, Accepts;
    ValidMemory(b);
    StoreKeeps(b, c.addr, c.val);
  }

  lemma HandleMoves(b: Board, p: Packet, c: Command, env: Env, text: Texts, chip: Chip) returns (kept: bool, base: nat)
    requires ValidBoard(b) && Admitted(c) && GoodTexts(text)
    ensures var (b', p', o) := Handle(b, p, c, env, text);
            var st, st', k := b.Of(chip), b'.Of(chip), SampleSize(chip);
            && (if kept then st'.source == st.source && base == st.pos
                else base == 0 && (st'.source.None? || st'.source == Some(|st.transfers|)))
            && (st'.source == Some(|st.transfers|) ==> |st.transfers| < |st'.transfers| || st.source == st'.source)
            && base <= st'.pos
            && (if o.Samples? && o.chip == chip then o.byteOffset == base * k && o.byteOffset + o.num == st'.pos * k
                else st'.pos == base)
  {
    hide Effect, ValidBoard, SampleSize, Respond, LandBoard;
    LandBoardKeeps(b, env.early);
    kept, base := EffectMoves(LandBoard(b, env.early), c, env, chip);
    var (b1, o) := Effect(LandBoard(b, env.early), c, env);
    LandBoardKeeps(b1, env.late);
    RespondKeeps(LandBoard(b1, env.late), p, o, text, chip);
  }

  /** A later capture took the place of transfer g. */
  predicate Past(st: State, g: nat) {
    g < |st.transfers| && st.source != Some(g)
  }

  lemma PastNext(s: System, ev: Event, chip: Chip, g: nat, text: Texts)
    requires Kept(s) && GoodTexts(text) && Past(s.board.Of(chip), g)
    ensures Past(Next(s, ev, text).board.Of(chip), g)
  {
    hide ValidBoard, Handle, Admitted, Traced, OwedKept, LandBoard;
    NextKept(s, ev, text);
    assert s.board.Of(chip).transfers <= Next(s, ev, text).board.Of(chip).transfers;
    if Possible(s, ev) {
      match ev
      case Sends(_) =>
      case Works(landing) => LandBoardKeeps(s.board, landing);
      case Handles(who, command, env) =>
        BoardFacts(s, who);
        var kept, base := HandleMoves(s.board, s.clients[who].packet, command, env, text, chip);
    }
  }

  lemma {:induction false} PastStays(s: System, events: seq<Event>, chip: Chip, g: nat, text: Texts)
    requires Kept(s) && ValidSystem(s) && GoodTexts(text) && Past(s.board.Of(chip), g)
    ensures Past(Run(s, events, text).board.Of(chip), g)
    decreases |events|
  {
    hide ValidSystem, Next, Kept;
    if events != [] {
      NextKept(s, events[0], text);
      PastNext(s, events[0], chip, g, text);
      PastStays(Next(s, events[0], text), events[1..], chip, g, text);
    }
  }

  /** handle_request adds to what is owed exactly what it hands out. */
  lemma HandlesOwes(s: System, ev: Event, chip: Chip, g: nat, text: Texts)
    requires Kept(s) && GoodTexts(text) && ev.Handles? && !Past(Next(s, ev, text).board.Of(chip), g)
    ensures var s' := Next(s, ev, text); var k := SampleSize(chip);
            var lo, hi := Base(s.board.Of(chip), g), Base(s'.board.Of(chip), g);
            && lo <= hi
            && forall p :: Owes(s', chip, g, p) <==> Owes(s, chip, g, p) || lo * k <= p < hi * k
  {
    hide ValidBoard, Handle, Admitted, SampleSize, Traced, OwedKept;
    if Possible(s, ev) {
      var s' := Next(s, ev, text);
      var w := ev.who;
      BoardFacts(s, w);
      var packet := s.clients[w].packet;
      var kept, base := HandleMoves(s.board, packet, ev.command, ev.env, text, chip);
      NextKept(s, ev, text);
      assert s.board.Of(chip).transfers <= s'.board.Of(chip).transfers;
      KeptSourced(s, chip);
      KeptSourced(s', chip);
      OwesChanges(s, s', w, chip, g);
    }
  }

  lemma KeptSourced(s: System, chip: Chip)
    requires Kept(s)
    ensures var st := s.board.Of(chip); st.source.Some? ==> st.source.value < |st.transfers|
  {
    assert Sourced(chip, s.board.Of(chip));
  }

  lemma OwesChanges(s: System, s': System, w: nat, chip: Chip, g: nat)
    requires w < |s.clients| == |s'.clients| && forall v | 0 <= v < |s.clients| && v != w :: s'.clients[v] == s.clients[v]
    ensures forall p :: Owes(s', chip, g, p) || Holds(s.clients[w], chip, g, p)
                   <==> Owes(s, chip, g, p) || Holds(s'.clients[w], chip, g, p)
  {
    forall p
      ensures Owes(s', chip, g, p) || Holds(s.clients[w], chip, g, p)
         <==> Owes(s, chip, g, p) || Holds(s'.clients[w], chip, g, p)
    {
      if Owes(s, chip, g, p) {
        var v :| 0 <= v < |s.clients| && Holds(s.clients[v], chip, g, p);
        assert v == w || Holds(s'.clients[v], chip, g, p);
      }
      if Owes(s', chip, g, p) {
        var v :| 0 <= v < |s'.clients| && Holds(s'.clients[v], chip, g, p);
        assert v == w || Holds(s.clients[v], chip, g, p);
      }
    }
  }

  lemma SendsOwes(s: System, ev: Event, chip: Chip, g: nat, text: Texts)
    requires Kept(s) && GoodTexts(text) && ev.Sends?
    ensures var s' := Next(s, ev, text);
            && s'.board == s.board
            && (!Copies(s, ev, chip, g) ==> forall p :: Owes(s', chip, g, p) <==> Owes(s, chip, g, p))
            && (Copies(s, ev, chip, g) ==>
                  var o := s.clients[ev.who].owed.value;
                  && |Copied(s, ev.who)| == o.num
                  && forall p :: Owes(s, chip, g, p) <==> Owes(s', chip, g, p) || o.at <= p < o.at + o.num)
  {
    hide ValidBoard, OwedKept, Traced, Copied;
    if ev.who < |s.clients| {
      var s' := Next(s, ev, text);
      OwesChanges(s, s', ev.who, chip, g);
      if Copies(s, ev, chip, g) {
        CopiedBytes(s, ev.who);
      }
    }
  }

  /** At the end of a run, when nothing of transfer g is owed any more, the bytes collected are those that were owed
      at first and those handed out since. */
  lemma {:induction false} CollectedKeys(s: System, events: seq<Event>, chip: Chip, g: nat, text: Texts)
    requires Kept(s) && GoodTexts(text)
    requires Run(s, events, text).board.Of(chip).source == Some(g)
    requires forall p :: !Owes(Run(s, events, text), chip, g, p)
    ensures var k := SampleSize(chip); var pos := Run(s, events, text).board.Of(chip).pos;
            && Base(s.board.Of(chip), g) <= pos
            && forall p: nat :: p in Collected(s, events, chip, g, text)
                           <==> Owes(s, chip, g, p) || Base(s.board.Of(chip), g) * k <= p < pos * k
    decreases |events|
  {
    hide Kept, Next, ValidSystem, SampleSize, Copies, Copied, Owes;
    KeptValid(s);
    if events != [] {
      var s' := Next(s, events[0], text);
      NextKept(s, events[0], text);
      if Past(s'.board.Of(chip), g) {
        PastStays(s', events[1..], chip, g, text);
      }
      CollectedKeys(s', events[1..], chip, g, text);
      if events[0].Sends? {
        SendsOwes(s, events[0], chip, g, text);
      } else if events[0].Works? {
        NoCopy(s, events[0], chip, g);
        WorksOwes(s, events[0], chip, g, text);
      } else {
        NoCopy(s, events[0], chip, g);
        HandlesOwes(s, events[0], chip, g, text);
        var pos := Run(s, events, text).board.Of(chip).pos;
        Extend(Base(s.board.Of(chip), g), Base(s'.board.Of(chip), g), pos, SampleSize(chip));
      }
    }
  }

  lemma NoCopy(s: System, ev: Event, chip: Chip, g: nat)
    requires !ev.Sends?
    ensures !Copies(s, ev, chip, g)
  {
  }

  lemma WorksOwes(s: System, ev: Event, chip: Chip, g: nat, text: Texts)
    requires ValidSystem(s) && GoodTexts(text) && ev.Works?
    ensures var s' := Next(s, ev, text);
            && Base(s'.board.Of(chip), g) == Base(s.board.Of(chip), g)
            && forall p :: Owes(s', chip, g, p) <==> Owes(s, chip, g, p)
  {
    hide ValidBoard, LandBoard;
    LandBoardKeeps(s.board, ev.landing);
  }

  lemma Extend(lo: nat, mid: nat, hi: nat, k: nat)
    requires lo <= mid <= hi
    ensures lo * k <= mid * k <= hi * k
  {
    SampleScaleOrder(lo, mid, k);
    SampleScaleOrder(mid, hi, k);
  }

  /** What is delivered right is collected right. */
  lemma {:induction false} CollectedBytes(s: System, events: seq<Event>, chip: Chip, g: nat, truth: seq<byte>, text: Texts)
    requires ValidSystem(s) && GoodTexts(text) && Delivers(s, events, chip, g, truth, text)
    ensures forall p | p in Collected(s, events, chip, g, text) ::
              p < |truth| && Collected(s, events, chip, g, text)[p] == truth[p]
    decreases |events|
  {
    hide ValidSystem, Next, Copied;
    if events != [] {
      CollectedBytes(Next(s, events[0], text), events[1..], chip, g, truth, text);
    }
  }

  /** The system at start-up, one connection for each packet. */
  function Start(adcMemory: seq<byte>, ddcMemory: seq<byte>, packets: seq<Packet>): (s: System)
    requires |adcMemory| == |ddcMemory| == REGION_SIZE && forall p | p in packets :: ValidPacket(p)
    ensures ValidSystem(s)
  {
    System(StartUp(adcMemory, ddcMemory), seq(|packets|, i requires 0 <= i < |packets| => Client(packets[i], None)))
  }

  lemma StartKept(adcMemory: seq<byte>, ddcMemory: seq<byte>, packets: seq<Packet>)
    requires |adcMemory| == |ddcMemory| == REGION_SIZE && forall p | p in packets :: ValidPacket(p)
    ensures var s := Start(adcMemory, ddcMemory, packets);
            && Kept(s) && s.board.adc.source == s.board.ddc.source == None
            && forall chip: Chip, g: nat, p: int :: !Owes(s, chip, g, p)
  {
  }

  /** Conservation: after any run of any connections that ends with nothing of the last transfer owed, the clients
      hold between them every byte handed out since that capture, each at its place, and no others; if every packet was
      intact when it was copied, these bytes are the captured ones. */
  lemma Conserved(adcMemory: seq<byte>, ddcMemory: seq<byte>, packets: seq<Packet>, events: seq<Event>,
                  chip: Chip, g: nat, text: Texts)
    requires |adcMemory| == |ddcMemory| == REGION_SIZE && (forall p | p in packets :: ValidPacket(p)) && GoodTexts(text)
    requires var end := Run(Start(adcMemory, ddcMemory, packets), events, text);
             end.board.Of(chip).source == Some(g) && forall p :: !Owes(end, chip, g, p)
    ensures var s := Start(adcMemory, ddcMemory, packets);
            var st := Run(s, events, text).board.Of(chip); var got := Collected(s, events, chip, g, text);
            && g < |st.transfers| && st.pos * SampleSize(chip) <= |st.transfers[g]|
            && (forall p: nat :: p in got <==> p < st.pos * SampleSize(chip))
            && (AllIntact(s, events, chip, g, text) ==> forall p | p in got :: got[p] == st.transfers[g][p])
  {
    hide ValidSystem, Next, Run, Collected, AllIntact, Delivers, Kept, Start;
    var s := Start(adcMemory, ddcMemory, packets);
    StartKept(adcMemory, ddcMemory, packets);
    CollectedKeys(s, events, chip, g, text);
    RunGrows(s, events, chip, text);
    SourceLength(Run(s, events, text), chip, g);
    if AllIntact(s, events, chip, g, text) {
      IntactDelivers(s, events, chip, g, text);
      CollectedBytes(s, events, chip, g, Run(s, events, text).board.Of(chip).transfers[g], text);
    }
  }

  lemma SourceLength(s: System, chip: Chip, g: nat)
    requires Kept(s) && s.board.Of(chip).source == Some(g)
    ensures var st := s.board.Of(chip);
            g < |st.transfers| && st.pos * SampleSize(chip) <= |st.transfers[g]|
  {
    hide SampleSize, TrueBytes, OwedKept;
    var st := s.board.Of(chip);
    assert Valid(chip, st) && Sourced(chip, st);
    SampleScaleOrder(st.pos, st.count, SampleSize(chip));
  }

  // ---------------------------------------------------------------- runs that lose samples

  /** A connection handles a command and copies the answer at once. */
  function Answered(s: System, who: nat, c: Command, env: Env, text: Texts): (s': System)
    requires ValidSystem(s) && GoodTexts(text)
    ensures ValidSystem(s')
  {
    Next(Next(s, Handles(who, c, env), text), Sends(who), text)
  }

  lemma AnsweredBy(s: System, who: nat, c: Command, env: Env, text: Texts)
    requires ValidSystem(s) && GoodTexts(text) && who < |s.clients| && Admitted(c) && s.clients[who].owed.None?
    ensures ValidBoard(s.board) && ValidPacket(s.clients[who].packet)
    ensures var (b, p, o) := Handle(s.board, s.clients[who].packet, c, env, text);
            && ValidBoard(b) && ValidPacket(p)
            && Next(s, Handles(who, c, env), text) == System(b, s.clients[who := Client(p, NowOwed(b, o))])
            && Answered(s, who, c, env, text) == System(b, s.clients[who := Client(p, None)])
  {
    hide ValidBoard, Handle, Admitted;
    BoardFacts(s, who);
    HandleKeeps(s.board, s.clients[who].packet, c, env, text);
    var s1 := Next(s, Handles(who, c, env), text);
    assert s1.clients[who := s1.clients[who].(owed := None)] == s.clients[who := s1.clients[who].(owed := None)];
  }

  /** A GET of one ADC sample, from the buffer or from a new capture of one. */
  lemma GetOne(b: Board, p: Packet, c: Command, env: Env, text: Texts)
    requires ValidBoard(b) && ValidPacket(p) && GoodTexts(text) && c.comm == FMC150_GET_SAMPLES && c.val == 1
    requires env.dma.accepts && env.dma.busyPolls < MAX_DMA_TRIES
    ensures Admitted(c)
    ensures var from := Origin(Adc, b.adc, 1, env.dma);
            var (b', p', o) := Handle(b, p, c, env, text);
            && o.Samples? && o.chip == Adc && o.byteOffset == 4 * from.pos && o.num == 4
            && p'.buf == Into(Adc, 4 * from.pos)
            && At(b'.adc, from, from.pos + 1)
            && b'.adc.source == from.source && b'.adc.transfers == from.transfers
  {
    hide Handle, Origin, At, ValidBoard;
    OneSample(c);
    ValidFacts(b);
    OriginStart(Adc, b.adc, 1, env.dma);
    QuietHandle(b, p, Adc, c, env, text);
    HandleOrigin(b, p, c, env, text);
  }

  lemma ValidFacts(b: Board)
    requires ValidBoard(b)
    ensures Left(b.adc) >= 0
  {
  }

  /** The handler counts on the transfer its samples come from. */
  lemma HandleOrigin(b: Board, p: Packet, c: Command, env: Env, text: Texts)
    requires ValidBoard(b) && ValidPacket(p) && GoodTexts(text) && c.comm == FMC150_GET_SAMPLES && c.val == 1 && Admitted(c)
    requires env.dma.accepts && env.dma.busyPolls < MAX_DMA_TRIES
    ensures var from := Origin(Adc, b.adc, 1, env.dma); var b' := Handle(b, p, c, env, text).0;
            b'.adc.source == from.source && b'.adc.transfers == from.transfers
  {
    hide Effect, ValidBoard, LandBoard, Respond, Get, Capture, Land, Accepts, GetEffect;
    OneSample(c);
    LandBoardKeeps(b, env.early);
    var b0 := LandBoard(b, env.early);
    GetAccepted(b, Adc, c, env.dma);
    OriginAbsorb(Adc, b.adc, env.early.adc, 1, env.dma);
    ValidAdc(b0);
    GetHandsOut(Adc, b0.adc, 1, env.dma);
    GetSucceeds(b0, Adc, 1, env.dma);
    EffectGet(b0, Adc, c, env);
    var (b1, o) := Effect(b0, c, env);
    LandBoardKeeps(b1, env.late);
    RespondKeeps(LandBoard(b1, env.late), p, o, text, Adc);
  }

  lemma ValidAdc(b: Board)
    requires ValidBoard(b)
    ensures Valid(Adc, b.adc)
  {
  }

  lemma OneSample(c: Command)
    requires c.comm == FMC150_GET_SAMPLES && c.val == 1
    ensures GoodGet(c, Adc) && Admitted(c) && PacketSamples(Adc) == 1024
  {
  }

  /** GET(1), CAPTURE(10), GET(1), a register write, GET(1), one after the other on one connection and without any
      failure, however the samples land: the last packet carries the text of the answer to the register write. */
  lemma StruckExample(s: System, who: nat, get: Command, capture: Command, write: Command, env: Env, text: Texts)
    requires Kept(s) && GoodTexts(text) && who < |s.clients| && s.clients[who].owed.None? && Left(s.board.adc) == 0
    requires env.dma.accepts && env.dma.busyPolls < MAX_DMA_TRIES && |text(WriteOk)| >= 8
    requires get.comm == FMC150_GET_SAMPLES && get.val == 1
    requires capture.comm == FMC150_CAPTURE && capture.val == 10 && write.comm == FMC150_WRITE
    ensures var s1 := Answered(s, who, get, env, text);
            var s2 := Answered(s1, who, capture, env, text);
            var s3 := Answered(s2, who, get, env, text);
            var s4 := Answered(s3, who, write, env, text);
            var s5 := Next(s4, Handles(who, get, env), text);
            && s2.board.adc.source.Some? && Copies(s5, Sends(who), Adc, s2.board.adc.source.value)
            && s5.clients[who].owed.value.at == 4 && Copied(s5, who) == text(WriteOk)[4..8]
  {
    hide ValidBoard, Handle, Answered, Kept, Next, Copied, LandAll, Overlaid, Origin;
    KeptValid(s);
    var s1 := GotOne(s, who, get, env, text);
    var s2 := Answered(s1, who, capture, env, text);
    CaptureTen(s1, who, capture, env, text);
    NowKept(s1, who, capture, env, text);
    var s3 := GotOne(s2, who, get, env, text);
    var s4 := Answered(s3, who, write, env, text);
    WriteThrough(s3, who, write, env, text);
    NowKept(s3, who, write, env, text);
    var s5 := Next(s4, Handles(who, get, env), text);
    LastGet(s4, who, get, env, text);
    NextKept(s4, Handles(who, get, env), text);
    CopiedBytes(s5, who);
    assert Copied(s5, who) == s4.board.adc.memory[4..8];
  }

  lemma NowKept(s: System, who: nat, c: Command, env: Env, text: Texts)
    requires Kept(s) && GoodTexts(text)
    ensures Kept(Answered(s, who, c, env, text))
  {
    hide Kept, Next;
    KeptValid(s);
    NextKept(s, Handles(who, c, env), text);
    NextKept(Next(s, Handles(who, c, env), text), Sends(who), text);
  }

  lemma GotOne(s: System, who: nat, c: Command, env: Env, text: Texts) returns (s': System)
    requires Kept(s) && ValidSystem(s) && GoodTexts(text) && who < |s.clients| && s.clients[who].owed.None?
    requires c.comm == FMC150_GET_SAMPLES && c.val == 1 && env.dma.accepts && env.dma.busyPolls < MAX_DMA_TRIES
    ensures s' == Answered(s, who, c, env, text) && Kept(s') && |s'.clients| == |s.clients|
    ensures var lo := if Left(s.board.adc) > 0 then s.board.adc.pos else 0;
            && s'.clients[who].owed.None? && s'.clients[who].packet.buf == Into(Adc, 4 * lo)
            && Settled(s'.board.adc) && s'.board.adc.pos == lo + 1
            && (Left(s.board.adc) > 0 ==>
                  && s'.board.adc.count == s.board.adc.count
                  && s'.board.adc.source == s.board.adc.source && s'.board.adc.transfers == s.board.adc.transfers)
  {
    hide ValidBoard, Handle, Answered, Kept, Next, Capture, Land;
    BoardFacts(s, who);
    GetOne(s.board, s.clients[who].packet, c, env, text);
    OriginStart(Adc, s.board.adc, 1, env.dma);
    LandKeeps(Adc, s.board.adc, |Running(s.board.adc)|);
    AnsweredBy(s, who, c, env, text);
    NowKept(s, who, c, env, text);
    s' := Answered(s, who, c, env, text);
  }

  lemma CaptureTen(s: System, who: nat, c: Command, env: Env, text: Texts)
    requires ValidSystem(s) && GoodTexts(text) && who < |s.clients| && s.clients[who].owed.None?
    requires c.comm == FMC150_CAPTURE && c.val == 10 && env.dma.accepts
    ensures var s' := Answered(s, who, c, env, text);
            && |s'.clients| == |s.clients| && s'.clients[who].owed.None?
            && s'.clients[who].packet.buf == s.clients[who].packet.buf
            && s'.board.adc.pos == 0 && s'.board.adc.count == 10 && s'.board.adc.source.Some?
  {
    hide ValidBoard, Answered, Next, Effect, LandBoard;
    BoardFacts(s, who);
    AnsweredBy(s, who, c, env, text);
    LandBoardKeeps(s.board, env.early);
    var b0 := LandBoard(s.board, env.early);
    StartTen(b0, c, env);
    var (b1, o) := Effect(b0, c, env);
    LandBoardKeeps(b1, env.late);
    RespondKeeps(LandBoard(b1, env.late), s.clients[who].packet, o, text, Adc);
  }

  lemma StartTen(b: Board, c: Command, env: Env)
    requires ValidBoard(b) && c.comm == FMC150_CAPTURE && c.val == 10 && env.dma.accepts
    ensures Admitted(c)
    ensures var (b', o) := Effect(b, c, env);
            && o == Done(CaptureStarted) && b'.adc.pos == 0 && b'.adc.count == 10 && b'.adc.source.Some?
  {
    hide Capture, Valid, Accepts;
    CaptureKeeps(Adc, b.adc, 10, env.dma);
    CaptureStart(Adc, b.adc, 10, env.dma);
  }

  lemma WriteThrough(s: System, who: nat, c: Command, env: Env, text: Texts)
    requires ValidSystem(s) && GoodTexts(text) && who < |s.clients| && s.clients[who].owed.None?
    requires c.comm == FMC150_WRITE && s.clients[who].packet.buf == Into(Adc, 0) && Settled(s.board.adc)
    ensures var s' := Answered(s, who, c, env, text); var t := text(WriteOk) + [0];
            && |s'.clients| == |s.clients| && s'.clients[who].owed.None?
            && s'.board.adc == Overwritten(s.board.adc, 0, t, Plains(|t|))
  {
    hide ValidBoard, Answered, Next, Overwritten, Land;
    BoardFacts(s, who);
    AnsweredBy(s, who, c, env, text);
    LandBoardKeeps(s.board, env.early);
    LandKeeps(Adc, s.board.adc, env.early.adc);
    var b0 := LandBoard(s.board, env.early);
    LandBoardKeeps(b0, env.late);
    LandKeeps(Adc, b0.adc, env.late.adc);
  }

  lemma LastGet(s: System, who: nat, c: Command, env: Env, text: Texts)
    requires ValidSystem(s) && GoodTexts(text) && who < |s.clients| && s.clients[who].owed.None?
    requires Left(s.board.adc) > 0 && Settled(s.board.adc)
    requires c.comm == FMC150_GET_SAMPLES && c.val == 1 && env.dma.accepts && env.dma.busyPolls < MAX_DMA_TRIES
    ensures var s' := Next(s, Handles(who, c, env), text);
            && |s'.clients| == |s.clients| && s'.board.adc.memory == s.board.adc.memory
            && s'.clients[who].owed == Some(Owed(Adc, s.board.adc.source, 4 * s.board.adc.pos, 4))
  {
    hide ValidBoard, Handle, Answered, Next, Capture, Land;
    BoardFacts(s, who);
    GetOne(s.board, s.clients[who].packet, c, env, text);
    OriginSettled(Adc, s.board.adc, 1, env.dma);
    AnsweredBy(s, who, c, env, text);
  }

  /** A sample is handed out to one connection, another one captures, and only then is the sample copied: what the
      first connection sends are the bytes of the second capture that have landed by then. */
  lemma ForeignCapture(s: System, first: nat, second: nat, get: Command, env: Env, capture: Command, env': Env, text: Texts)
    requires Kept(s) && GoodTexts(text) && first < |s.clients| && second < |s.clients| && first != second
    requires s.clients[first].owed.None? && s.clients[second].owed.None? && s.clients[second].packet.buf == Outside
    requires Left(s.board.adc) == 0 && get.comm == FMC150_GET_SAMPLES && get.val == 1
    requires capture.comm == FMC150_CAPTURE && 0 < capture.val <= MaxSamples(Adc)
    requires env.dma.accepts && env.dma.busyPolls < MAX_DMA_TRIES && env'.dma.accepts
    ensures var s1 := Next(s, Handles(first, get, env), text);
            var s2 := Next(s1, Handles(second, capture, env'), text);
            var mine, theirs := Captured(Adc, 1, env.dma), Captured(Adc, capture.val, env'.dma);
            && Copies(s2, Sends(first), Adc, |s.board.adc.transfers|) && |Copied(s2, first)| == 4
            && forall i | 0 <= i < 4 :: Copied(s2, first)[i] == if i < env'.late.adc then theirs[i] else mine[i]
  {
    hide ValidBoard, Kept, Next, Copied, Captured, Land, Handle, Capture, Accepts, At;
    KeptValid(s);
    BoardFacts(s, first);
    AnsweredBy(s, first, get, env, text);
    NextKept(s, Handles(first, get, env), text);
    FirstSample(s, first, get, env, text);
    var s1 := Next(s, Handles(first, get, env), text);
    KeptValid(s1);
    BoardFacts(s1, second);
    AnsweredBy(s1, second, capture, env', text);
    NextKept(s1, Handles(second, capture, env'), text);
    CaptureOver(s1.board, s1.clients[second].packet, capture, env', text);
    var s2 := Next(s1, Handles(second, capture, env'), text);
    CopiedBytes(s2, first);
  }

  lemma FirstSample(s: System, who: nat, c: Command, env: Env, text: Texts)
    requires Kept(s) && ValidSystem(s) && GoodTexts(text) && who < |s.clients| && s.clients[who].owed.None?
    requires Left(s.board.adc) == 0 && c.comm == FMC150_GET_SAMPLES && c.val == 1
    requires env.dma.accepts && env.dma.busyPolls < MAX_DMA_TRIES
    ensures var s' := Next(s, Handles(who, c, env), text); var st := s'.board.adc;
            && |s'.clients| == |s.clients| && Settled(st) && |st.memory| == REGION_SIZE
            && (forall w | 0 <= w < |s.clients| && w != who :: s'.clients[w] == s.clients[w])
            && s'.clients[who].owed == Some(Owed(Adc, Some(|s.board.adc.transfers|), 0, 4))
            && |Captured(Adc, 1, env.dma)| == 4 && st.memory[..4] == Captured(Adc, 1, env.dma)
  {
    hide ValidBoard, Kept, Next, Captured, Handle, Capture, Land, Accepts;
    BoardFacts(s, who);
    ValidAdc(s.board);
    AnsweredBy(s, who, c, env, text);
    GetOne(s.board, s.clients[who].packet, c, env, text);
    var st := s.board.adc;
    OriginStart(Adc, st, 1, env.dma);
    CaptureKeeps(Adc, st, 1, env.dma);
    CaptureLands(Adc, st, 1, env.dma);
    var from := Capture(Adc, st, 1, env.dma);
    LandKeeps(Adc, from, |Running(from)|);
    LandKeeps(Adc, st, |Running(st)|);
    RegionOf(st);
    RegionOf(LandAll(from));
  }

  lemma RegionOf(st: State)
    ensures Valid(Adc, st) ==> |st.memory| == REGION_SIZE
  {
  }

  /** A capture by a connection that prints elsewhere, seen from what lay in memory before. */
  lemma CaptureOver(b: Board, p: Packet, c: Command, env: Env, text: Texts)
    requires ValidBoard(b) && ValidPacket(p) && GoodTexts(text) && Settled(b.adc) && p.buf == Outside
    requires c.comm == FMC150_CAPTURE && 0 < c.val <= MaxSamples(Adc) && env.dma.accepts
    ensures Admitted(c)
    ensures var st := Handle(b, p, c, env, text).0.adc; var theirs := Captured(Adc, c.val, env.dma);
            && |st.memory| == REGION_SIZE == |b.adc.memory| && |theirs| >= 4
            && forall i | 0 <= i < 4 :: st.memory[i] == if i < env.late.adc then theirs[i] else b.adc.memory[i]
  {
    hide Valid, Captured, Capture, Accepts;
    LandBoardKeeps(b, env.early);
    var b0 := LandBoard(b, env.early);
    CaptureKeeps(Adc, b0.adc, c.val, env.dma);
    LandKeeps(Adc, b.adc, env.early.adc);
    LandKeeps(Adc, b0.adc, |Running(b0.adc)|);
    RegionOf(b.adc);
  }
}
