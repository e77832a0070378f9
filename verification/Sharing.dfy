/** Any number of connections, each with its own response packet, on the two shared handlers. */
module Sharing {
  import opened Words
  import opened Common
  import opened LowLevel
  import opened Wire
  import opened Requests
  import opened Delivery
  import opened Tracing

  /** The handlers at start-up. */
  function StartUp(adcMemory: seq<byte>, ddcMemory: seq<byte>): Board {
    Board(Initial(Adc, adcMemory), Initial(Ddc, ddcMemory))
  }

  /** After any calls of any connections: position and count in bounds, no sum or difference that wraps, transfer
      lengths within the engine's limit, control words with the count below the start bit, and the ranges handed
      out since the last capture tile the part of the buffer already read. */
  lemma ReachableStates(calls: seq<Call>, adcMemory: seq<byte>, ddcMemory: seq<byte>, chip: Chip, text: Texts)
    requires (forall c | c in calls :: GoodCall(c)) && GoodTexts(text) && |adcMemory| == |ddcMemory| == REGION_SIZE
    ensures ValidBoard(StartUp(adcMemory, ddcMemory))
    ensures var st := Interleave(StartUp(adcMemory, ddcMemory), calls, text).Of(chip);
            && st.pos <= st.count <= MaxSamples(chip) && st.pos + MaxSamples(chip) < TWO_31
            && st.dmaLength <= XAXIDMA_MAX_TRANSFER_LEN && ValidControl(st.control) && Tiles(st.handed, st.pos)
  {
    var b := StartUp(adcMemory, ddcMemory);
    assert ValidBoard(b);
    hide Interleave;
    assert ValidBoard(Interleave(b, calls, text));
    LengthBound(chip, MaxSamples(chip));
  }

  // ---------------------------------------------------------------- the system

  /** A sample packet whose bytes are still to be copied: num bytes at `at`, counted on a certain transfer. */
  datatype Owed = Owed(chip: Chip, source: Option<nat>, at: nat, num: nat)

  datatype Client = Client(packet: Packet, owed: Option<Owed>)

  /** One connection gets through handle_request, or copies its packet for sending; or the engines work on. */
  datatype Event = Handles(who: nat, command: Command, env: Env) | Sends(who: nat) | Works(landing: Landing)

  datatype System = System(board: Board, clients: seq<Client>)

  ghost predicate ValidSystem(s: System) {
    ValidBoard(s.board) && forall w | 0 <= w < |s.clients| :: ValidPacket(s.clients[w].packet)
  }

  /** A connection handles the next command only when its last packet is copied, and a count that wraps to nothing
      never gets that far. */
  predicate Possible(s: System, ev: Event) {
    match ev
    case Handles(who, command, _) => who < |s.clients| && Admitted(command) && s.clients[who].owed.None?
    case Sends(who) => who < |s.clients|
    case Works(_) => true
  }

  function NowOwed(b: Board, o: Outcome): Option<Owed> {
    if o.Samples? then Some(Owed(o.chip, b.Of(o.chip).source, o.byteOffset, o.num)) else None
  }

  /** The system after an event; one that is not possible does not happen. */
  function Next(s: System, ev: Event, text: Texts): (s': System)
    requires ValidSystem(s) && GoodTexts(text)
    ensures ValidSystem(s') && |s'.clients| == |s.clients|
  {
    if !Possible(s, ev) then s
    else
      match ev
      case Handles(who, command, env) =>
        var packet := s.clients[who].packet;
        HandleKeeps(s.board, packet, command, env, text);
        var (b, p, o) := Handle(s.board, packet, command, env, text);
        System(b, s.clients[who := Client(p, NowOwed(b, o))])
      case Sends(who) => s.(clients := s.clients[who := s.clients[who].(owed := None)])
      case Works(landing) =>
        LandBoardKeeps(s.board, landing);
        s.(board := LandBoard(s.board, landing))
  }

  function Run(s: System, events: seq<Event>, text: Texts): (s': System)
    requires ValidSystem(s) && GoodTexts(text)
    ensures ValidSystem(s') && |s'.clients| == |s.clients|
    decreases |events|
  {
    if events == [] then s else Run(Next(s, events[0], text), events[1..], text)
  }

  /** The event copies samples of transfer g of a chip. */
  predicate Copies(s: System, ev: Event, chip: Chip, g: nat) {
    ev.Sends? && ev.who < |s.clients| && var owed := s.clients[ev.who].owed;
    owed.Some? && owed.value.chip == chip && owed.value.source == Some(g)
  }

  /** The bytes send_response_packet copies. */
  function Copied(s: System, who: nat): seq<byte>
    requires ValidSystem(s) && who < |s.clients|
  {
    Fetch(s.board, s.clients[who].packet).body
  }

  // ---------------------------------------------------------------- what all runs keep

  ghost predicate OwedKept(b: Board, c: Client) {
    c.owed.Some? ==>
      var o := c.owed.value; var ts := b.Of(o.chip).transfers;
      && c.packet.buf == Into(o.chip, o.at) && c.packet.num == o.num > 0 && CarriesData(c.packet.comm)
      && (o.source.Some? ==> o.source.value < |ts| && o.at + o.num <= |ts[o.source.value]|)
  }

  /** The record of what each byte is is true, and packets still to be copied point at samples that were handed out. */
  ghost predicate Kept(s: System) {
    && ValidSystem(s) && Traced(s.board)
    && forall w | 0 <= w < |s.clients| :: OwedKept(s.board, s.clients[w])
  }

  lemma OwedGrows(b: Board, b': Board, c: Client)
    requires OwedKept(b, c) && Grows(b, b')
    ensures OwedKept(b', c)
  {
    if c.owed.Some? {
      assert b.Of(c.owed.value.chip).transfers <= b'.Of(c.owed.value.chip).transfers;
    }
  }

  lemma NextKept(s: System, ev: Event, text: Texts)
    requires Kept(s) && GoodTexts(text)
    ensures Kept(Next(s, ev, text)) && Grows(s.board, Next(s, ev, text).board)
  {
    hide ValidBoard, Handle, OwedKept, Traced, Admitted, LandBoard;
    var s' := Next(s, ev, text);
    if Possible(s, ev) {
      match ev
      case Sends(who) =>
        NothingOwed(s.board, s'.clients[who]);
        assert Grows(s.board, s'.board);
      case Works(landing) =>
        LandBoardTrue(s.board, landing);
        forall w | 0 <= w < |s'.clients| ensures OwedKept(s'.board, s'.clients[w]) {
          OwedGrows(s.board, s'.board, s.clients[w]);
        }
      case Handles(who, command, env) =>
        var p := s.clients[who].packet;
        HandleTrue(s.board, p, command, env, text);
        NewOwedKept(s.board, p, command, env, text);
        forall w | 0 <= w < |s'.clients| ensures OwedKept(s'.board, s'.clients[w]) {
          if w != who {
            OwedGrows(s.board, s'.board, s.clients[w]);
          }
        }
    }
  }

  lemma NothingOwed(b: Board, c: Client)
    requires c.owed.None?
    ensures OwedKept(b, c)
  {
  }

  lemma BoardFacts(s: System, w: nat)
    requires ValidSystem(s) && w < |s.clients|
    ensures ValidBoard(s.board) && ValidPacket(s.clients[w].packet)
  {
  }

  lemma NewOwedKept(b: Board, p: Packet, c: Command, env: Env, text: Texts)
    requires ValidBoard(b) && ValidPacket(p) && Admitted(c) && GoodTexts(text) && Traced(b)
    ensures var (b', p', o) := Handle(b, p, c, env, text); OwedKept(b', Client(p', NowOwed(b', o)))
  {
    hide Effect, Admitted, Print, ValidBoard, LandBoard, TrueBytes, SampleSize;
    LandBoardKeeps(b, env.early);
    LandBoardTrue(b, env.early);
    var b0 := LandBoard(b, env.early);
    EffectKeeps(b0, c, env);
    EffectTrue(b0, c, env);
    var (b1, o) := Effect(b0, c, env);
    LandBoardKeeps(b1, env.late);
    if o.Samples? {
      assert Sourced(o.chip, b1.Of(o.chip));
    }
  }
}
