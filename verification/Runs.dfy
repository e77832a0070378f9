/** Whole connections: the shape of every transcript, and the samples that arrive end to end. */
module Runs {
  import opened Words
  import opened Common
  import opened LowLevel
  import opened Wire
  import opened Requests
  import opened Server
  import opened Delivery
  import Connection

  // ---------------------------------------------------------------- the shape of a transcript

  predicate LastFailed(attempts: seq<Attempt>) {
    attempts != [] && !attempts[|attempts| - 1].ok
  }

  predicate AllButLastOk(attempts: seq<Attempt>) {
    forall i | 0 <= i < |attempts| - 1 :: attempts[i].ok
  }

  predicate Transfers(cmd: Command) {
    IsGet(cmd, Adc) || IsGet(cmd, Ddc)
  }

  /** Once an attempt failed (or failed is set already) nothing is answered any more; before that every
      command other than GET_SAMPLES gets exactly one attempt. */
  predicate Shape(log: seq<Exchange>, failed: bool) {
    if log == [] then true
    else if failed then log[0].attempts == [] && Shape(log[1..], true)
    else
      && AllButLastOk(log[0].attempts)
      && (!Transfers(log[0].command) ==> |log[0].attempts| == 1)
      && Shape(log[1..], LastFailed(log[0].attempts))
  }

  function AllAttempts(log: seq<Exchange>): seq<Attempt> {
    if log == [] then [] else log[0].attempts + AllAttempts(log[1..])
  }

  lemma NoShape()
    ensures AllButLastOk([]) && !LastFailed([])
  {
  }

  lemma OneShape(a: Attempt)
    ensures AllButLastOk([a]) && (LastFailed([a]) <==> !a.ok)
  {
  }

  lemma ConsAttempt(a: Attempt, rest: seq<Attempt>)
    requires a.ok && AllButLastOk(rest)
    ensures AllButLastOk([a] + rest) && (LastFailed([a] + rest) <==> LastFailed(rest))
  {
  }

  lemma {:induction false} ServeShape(c: Conn, cmd: Command, remaining: int, turns: nat -> Turn, text: Texts)
    requires ValidConn(c) && GoodTurns(turns) && GoodTexts(text) && (remaining > 0 ==> Admitted(cmd))
    ensures var s := Serve(c, cmd, remaining, turns, text);
            && AllButLastOk(s.attempts)
            && s.conn.error == (c.error || LastFailed(s.attempts))
            && (c.error ==> s.attempts == [])
            && (!c.error && remaining == 1 ==> |s.attempts| == 1)
    decreases if c.error then 0 else 1, remaining
  {
    hide Step, Serve, Admitted, ValidConn, Breaks, Fetch, AllButLastOk, LastFailed;
    NoShape();
    ServeStep(c, cmd, remaining, turns, text);
    if remaining > 0 && !c.error {
      var (c', a, out) := Step(c, cmd, turns, text);
      var r := if a.ok then remaining - a.response.num else remaining + 1;
      OneShape(a);
      if !Breaks(a) {
        ServeShape(c', cmd, r, turns, text);
        ServeStep(c', cmd, r, turns, text);
        assert [a] + [] == [a];
        if a.ok {
          ConsAttempt(a, Serve(c', cmd, r, turns, text).attempts);
        }
      }
    }
  }

  /** Every transcript has this shape, whatever the commands, the hardware, the network and other connections do. */
  lemma {:induction false} SessionShape(c: Conn, input: seq<byte>, cuts: seq<int>, turns: nat -> Turn, text: Texts)
    requires ValidConn(c) && GoodTurns(turns) && GoodTexts(text)
    ensures Shape(Session(c, input, cuts, turns, text).log, c.error)
    decreases |input|
  {
    hide Serve, Session, ValidConn, PrepareToHandle, Connection.RecvCommand, LastFailed, AllButLastOk;
    SessionStep(c, input, cuts, turns, text);
    var (i, r) := Connection.RecvCommand(input, cuts);
    if i.Arrived? {
      ServeShape(c, i.command, PrepareToHandle(i.command), turns, text);
      OtherCommands(i.command);
      var s := Serve(c, i.command, PrepareToHandle(i.command), turns, text);
      if !Lost(s.attempts) {
        SessionShape(s.conn, r.input, r.cuts, turns, text);
      }
    }
  }

  lemma OtherCommands(cmd: Command)
    ensures !Transfers(cmd) ==> PrepareToHandle(cmd) == 1
  {
  }

  /** The attempts of a connection are successes followed by at most one failure. */
  lemma {:induction false} ShapeFlat(log: seq<Exchange>, failed: bool)
    requires Shape(log, failed)
    ensures AllButLastOk(AllAttempts(log))
    ensures failed ==> AllAttempts(log) == []
  {
    if log == [] {
    } else {
      var xs, rest := log[0].attempts, AllAttempts(log[1..]);
      var all: seq<Attempt> := xs + rest;
      ShapeFlat(log[1..], failed || LastFailed(xs));
      assert LastFailed(xs) ==> all == xs;
      forall i | 0 <= i < |all| - 1 ensures all[i].ok {
        assert all[i] == if i < |xs| then xs[i] else rest[i - |xs|];
      }
    }
  }

  /** For one command, every packet but the last was handed to the socket without an error, be it that the peer had
      closed. */
  lemma {:induction false} ServeSends(c: Conn, cmd: Command, remaining: int, turns: nat -> Turn, text: Texts)
    requires ValidConn(c) && GoodTurns(turns) && GoodTexts(text) && (remaining > 0 ==> Admitted(cmd))
    ensures var attempts := Serve(c, cmd, remaining, turns, text).attempts;
            forall i | 0 <= i < |attempts| - 1 :: attempts[i].delivered.Full? || attempts[i].delivered.Closed?
    decreases if c.error then 0 else 1, remaining
  {
    hide Step, Serve, Admitted, ValidConn, Fetch;
    ServeStep(c, cmd, remaining, turns, text);
    if remaining > 0 && !c.error {
      var (c', a, out) := Step(c, cmd, turns, text);
      if !Breaks(a) {
        ServeSends(c', cmd, if a.ok then remaining - a.response.num else remaining + 1, turns, text);
      }
    }
  }

  function Commands(log: seq<Exchange>): seq<Command> {
    if log == [] then [] else [log[0].command] + Commands(log[1..])
  }

  /** A connection takes up every command of its input in order, whatever was answered or sent before, unless a packet
      overruns send_buf. */
  lemma {:induction false} SessionCommands(c: Conn, input: seq<byte>, cuts: seq<int>, turns: nat -> Turn, text: Texts)
    requires ValidConn(c) && GoodTurns(turns) && GoodTexts(text) && Connection.NoErrors(cuts)
    ensures var log := Session(c, input, cuts, turns, text).log;
            && Commands(log) <= Connection.Blocks(input)
            && (log == [] || !Lost(log[|log| - 1].attempts) ==> Commands(log) == Connection.Blocks(input))
    decreases |input|
  {
    hide Serve, Session, ValidConn, PrepareToHandle, Lost, CommandOf, Connection.RecvAll;
    SessionStep(c, input, cuts, turns, text);
    Connection.RecvUnfragmented(input, cuts, COMMAND_PACKET_SIZE);
    var (i, r) := Connection.RecvCommand(input, cuts);
    if i.Arrived? {
      var s := Serve(c, i.command, PrepareToHandle(i.command), turns, text);
      if !Lost(s.attempts) {
        SessionCommands(s.conn, r.input, r.cuts, turns, text);
      }
    }
  }

  // ---------------------------------------------------------------- the handlers after a connection

  lemma {:induction false} InterleaveConcat(b: Board, xs: seq<Call>, ys: seq<Call>, text: Texts)
    requires ValidBoard(b) && GoodTexts(text) && (forall c | c in xs :: GoodCall(c)) && forall c | c in ys :: GoodCall(c)
    ensures Interleave(b, xs + ys, text) == Interleave(Interleave(b, xs, text), ys, text)
    decreases |xs|
  {
    hide ValidBoard, After, GoodCall;
    if xs == [] {
      assert xs + ys == ys;
    } else {
      assert (xs + ys)[1..] == xs[1..] + ys && (xs + ys)[0] == xs[0];
      InterleaveConcat(After(b, xs[0], text), xs[1..], ys, text);
    }
  }

  lemma StepCalls(c: Conn, cmd: Command, turns: nat -> Turn, text: Texts) returns (calls: seq<Call>)
    requires ValidConn(c) && Admitted(cmd) && GoodTurns(turns) && GoodTexts(text)
    ensures forall x | x in calls :: GoodCall(x)
    ensures Interleave(c.board, calls, text) == Step(c, cmd, turns, text).0.board
  {
    hide ValidBoard, Handle, Admitted, Fetch, LandBoard;
    var turn := turns(c.calls);
    var own, pause := Call(cmd, turn.env, c.packet), Pause(turn.copy);
    var later := turn.between + [pause];
    calls := turn.others + ([own] + later);
    assert GoodCall(own) && GoodCall(pause) && ([own] + later)[1..] == later && [pause][1..] == [];
    var before := Interleave(c.board, turn.others, text);
    InterleaveConcat(c.board, turn.others, [own] + later, text);
    InterleaveConcat(After(before, own, text), turn.between, [pause], text);
  }

  lemma {:induction false} ServeCalls(c: Conn, cmd: Command, remaining: int, turns: nat -> Turn, text: Texts)
    returns (calls: seq<Call>)
    requires ValidConn(c) && GoodTurns(turns) && GoodTexts(text) && (remaining > 0 ==> Admitted(cmd))
    ensures forall x | x in calls :: GoodCall(x)
    ensures Interleave(c.board, calls, text) == Serve(c, cmd, remaining, turns, text).conn.board
    decreases if c.error then 0 else 1, remaining
  {
    hide Step, Serve, Admitted, GoodCall, Breaks, Fetch;
    ServeStep(c, cmd, remaining, turns, text);
    calls := [];
    if remaining > 0 && !c.error {
      var (c', a, out) := Step(c, cmd, turns, text);
      calls := StepCalls(c, cmd, turns, text);
      if !Breaks(a) {
        var later := ServeCalls(c', cmd, if a.ok then remaining - a.response.num else remaining + 1, turns, text);
        InterleaveConcat(c.board, calls, later, text);
        calls := calls + later;
      }
    }
  }

  /** What a connection and its rivals leave of the handlers is what whole calls leave, one after the other; so all
      that holds of reachable states holds during every connection. */
  lemma {:induction false} SessionCalls(c: Conn, input: seq<byte>, cuts: seq<int>, turns: nat -> Turn, text: Texts)
    returns (calls: seq<Call>)
    requires ValidConn(c) && GoodTurns(turns) && GoodTexts(text)
    ensures forall x | x in calls :: GoodCall(x)
    ensures Interleave(c.board, calls, text) == Session(c, input, cuts, turns, text).conn.board
    decreases |input|
  {
    hide Serve, Session, PrepareToHandle, Connection.RecvCommand, GoodCall, Lost;
    SessionStep(c, input, cuts, turns, text);
    var (i, r) := Connection.RecvCommand(input, cuts);
    calls := [];
    if i.Arrived? {
      var s := Serve(c, i.command, PrepareToHandle(i.command), turns, text);
      calls := ServeCalls(c, i.command, PrepareToHandle(i.command), turns, text);
      if !Lost(s.attempts) {
        var later := SessionCalls(s.conn, r.input, r.cuts, turns, text);
        InterleaveConcat(c.board, calls, later, text);
        calls := calls + later;
      }
    }
  }

  // ---------------------------------------------------------------- grouping a response stream

  predicate IsNew(comm: u32) {
    comm == FMC150_NEW_DATA || comm == DDC_NEW_DATA
  }

  function Payloads(rs: seq<Response>): seq<byte> {
    if rs == [] then [] else rs[0].body + Payloads(rs[1..])
  }

  /** What a client does with one packet: NEW_DATA opens a buffer, every other packet is appended to the open one. */
  function Collect(g: seq<seq<byte>>, r: Response): (g': seq<seq<byte>>)
    ensures g' != []
  {
    if IsNew(r.comm) || g == [] then g + [r.body] else g[..|g| - 1] + [g[|g| - 1] + r.body]
  }

  /** The buffers a client has collected after a stream of packets. */
  function Groups(rs: seq<Response>): (g: seq<seq<byte>>)
    ensures rs != [] ==> g != []
  {
    if rs == [] then [] else Collect(Groups(rs[..|rs| - 1]), rs[|rs| - 1])
  }

  lemma CollectConcat(g: seq<seq<byte>>, h: seq<seq<byte>>, r: Response)
    requires h != [] || IsNew(r.comm)
    ensures Collect(g + h, r) == g + Collect(h, r)
  {
    if h != [] {
      assert (g + h)[..|g + h| - 1] == g + h[..|h| - 1];
    }
  }

  /** A stream that starts a new buffer is grouped independently of what came before. */
  lemma {:induction false} GroupsConcat(rs: seq<Response>, ts: seq<Response>)
    requires ts == [] || IsNew(ts[0].comm)
    ensures Groups(rs + ts) == Groups(rs) + Groups(ts)
    decreases |ts|
  {
    hide Collect, IsNew;
    if ts == [] {
      assert rs + ts == rs;
    } else {
      var n := |ts| - 1;
      GroupsConcat(rs, ts[..n]);
      assert (rs + ts)[..|rs + ts| - 1] == rs + ts[..n];
      CollectConcat(Groups(rs), Groups(ts[..n]), ts[n]);
    }
  }

  lemma {:induction false} PayloadsAppend(rs: seq<Response>, r: Response)
    ensures Payloads(rs + [r]) == Payloads(rs) + r.body
  {
    if rs == [] {
      assert [r][1..] == [];
    } else {
      assert (rs + [r])[1..] == rs[1..] + [r];
      PayloadsAppend(rs[1..], r);
    }
  }

  /** One NEW_DATA packet and the packets that continue it make one buffer. */
  lemma {:induction false} OneGroup(rs: seq<Response>)
    requires rs != [] && forall i | 0 <= i < |rs| :: IsNew(rs[i].comm) <==> i == 0
    ensures Groups(rs) == [Payloads(rs)]
    decreases |rs|
  {
    var n := |rs| - 1;
    assert rs == rs[..n] + [rs[n]];
    PayloadsAppend(rs[..n], rs[n]);
    hide IsNew;
    if n == 0 {
      assert rs[..n] == [];
      assert Payloads([]) + rs[n].body == rs[n].body;
    } else {
      OneGroup(rs[..n]);
    }
  }

  lemma {:induction false} PayloadsOfOk(attempts: seq<Attempt>)
    requires forall a | a in attempts :: a.ok
    ensures Payloads(Responses(attempts)) == Bodies(attempts)
  {
    if attempts == [] {
    } else {
      assert Responses(attempts)[1..] == Responses(attempts[1..]);
      PayloadsOfOk(attempts[1..]);
    }
  }

  // ---------------------------------------------------------------- end to end

  predicate AllGets(cmds: seq<Command>) {
    forall c | c in cmds :: GoodGet(c, Adc) || GoodGet(c, Ddc)
  }

  function ChipOf(cmd: Command): Chip {
    if IsGet(cmd, Adc) then Adc else Ddc
  }

  function Stream(cmds: seq<Command>): seq<byte> {
    if cmds == [] then [] else CommandBytes(cmds[0]) + Stream(cmds[1..])
  }

  /** The buffers captured for the commands, one each, when the first request is call number `call`. */
  function CapturedBuffers(cmds: seq<Command>, call: nat, turns: nat -> Turn): seq<seq<byte>> {
    if cmds == [] then []
    else
      var chip := ChipOf(cmds[0]);
      [Captured(chip, cmds[0].val, turns(call).env.dma)]
      + CapturedBuffers(cmds[1..], call + PacketCount(chip, cmds[0].val), turns)
  }

  predicate Drained(b: Board) {
    Left(b.adc) == 0 && Left(b.ddc) == 0
  }

  lemma RecvNext(cmd: Command, rest: seq<byte>, cuts: seq<int>) returns (later: seq<int>)
    requires Connection.NoErrors(cuts)
    ensures var (i, r) := Connection.RecvCommand(CommandBytes(cmd) + rest, cuts);
            i == Connection.Arrived(cmd) && r.input == rest && r.cuts == later && Connection.NoErrors(later)
  {
    hide CommandBytes, CommandOf, Connection.RecvAll;
    var input := CommandBytes(cmd) + rest;
    Connection.RecvUnfragmented(input, cuts, COMMAND_PACKET_SIZE);
    assert input[..COMMAND_PACKET_SIZE] == CommandBytes(cmd) && input[COMMAND_PACKET_SIZE..] == rest;
    CommandRoundTrip(cmd, CommandBytes(cmd));
    later := Connection.RecvAll(input, cuts, COMMAND_PACKET_SIZE).cuts;
  }

  lemma RecvPartial(tail: seq<byte>, cuts: seq<int>)
    requires Connection.NoErrors(cuts) && |tail| < COMMAND_PACKET_SIZE
    ensures Connection.RecvCommand(tail, cuts).0 == Connection.PeerClosed
  {
    hide Connection.RecvAll;
    Connection.RecvUnfragmented(tail, cuts, COMMAND_PACKET_SIZE);
  }

  /** Samples [0, n) of a fresh capture are the captured bytes. */
  lemma CapturedBytes(chip: Chip, st: State, n: u32, dma: Dma)
    requires Valid(chip, st) && 0 < n <= MaxSamples(chip)
    ensures var st' := LandAll(Capture(chip, st, n, dma));
            n * SampleSize(chip) <= |st'.memory| && (dma.accepts ==> Bytes(chip, st', 0, n) == Captured(chip, n, dma))
  {
    hide Capture, Captured, LandAll, SampleSize, MaxSamples, Accepts;
    CaptureKeeps(chip, st, n, dma);
    CaptureLands(chip, st, n, dma);
  }

  /** One GET on a drained board: its packets form one buffer, the captured one. */
  lemma OneGet(c: Conn, cmd: Command, turns: nat -> Turn, text: Texts)
    requires Healthy(c) && Quiet(turns) && GoodTurns(turns) && GoodTexts(text) && Drained(c.board)
    requires GoodGet(cmd, ChipOf(cmd)) && Admitted(cmd)
    ensures var s := Serve(c, cmd, PrepareToHandle(cmd), turns, text); var rs := Responses(s.attempts);
            && Healthy(s.conn) && Drained(s.conn.board) && !Lost(s.attempts)
            && s.conn.calls == c.calls + PacketCount(ChipOf(cmd), cmd.val)
            && s.output == Frames(rs) && (forall r | r in rs :: Sendable(r))
            && rs != [] && IsNew(rs[0].comm)
            && Groups(rs) == [Captured(ChipOf(cmd), cmd.val, turns(c.calls).env.dma)]
  {
    hide Serve, Admitted, GoodGet, Frames, Sendable, Bytes, Capture, Captured, PrepareToHandle, Valid, PacketCount, Groups;
    hide LandAll, LastSample;
    var chip := ChipOf(cmd);
    ExactGet(c, chip, cmd, turns, text);
    var s := Serve(c, cmd, PrepareToHandle(cmd), turns, text);
    FullNotLost(s.attempts);
    var st := Source(c, chip, cmd, turns);
    OriginStart(chip, c.board.Of(chip), cmd.val, turns(c.calls).env.dma);
    HealthyFacts(c, chip);
    HealthyValid(c, chip);
    GetInRange(cmd, chip);
    AlongsideLeft(s.conn.board.Of(Other(chip)), c.board.Of(Other(chip)));
    CapturedBytes(chip, c.board.Of(chip), cmd.val, turns(c.calls).env.dma);
    PacketCountPositive(chip, cmd.val);
    PayloadsOfOk(s.attempts);
    OneGroup(Responses(s.attempts));
  }

  lemma HealthyValid(c: Conn, chip: Chip)
    requires Healthy(c)
    ensures Valid(chip, c.board.Of(chip))
  {
  }

  lemma GetInRange(cmd: Command, chip: Chip)
    requires GoodGet(cmd, chip)
    ensures 0 < cmd.val <= MaxSamples(chip)
  {
  }

  lemma PacketCountPositive(chip: Chip, n: nat)
    requires n > 0
    ensures PacketCount(chip, n) > 0
  {
    PacketCountStep(chip, n, if n < PacketSamples(chip) then n else PacketSamples(chip));
  }

  /** From drained handlers, a list of valid GET_SAMPLES commands, however fragmented: the output is a stream of
      packets whose grouping is exactly the captured buffers, one per command, in order. */
  lemma {:induction false} GetsDeliver(c: Conn, cmds: seq<Command>, tail: seq<byte>, cuts: seq<int>, turns: nat -> Turn,
                                       text: Texts)
    returns (rs: seq<Response>)
    requires Healthy(c) && Quiet(turns) && GoodTurns(turns) && GoodTexts(text) && Drained(c.board)
    requires AllGets(cmds) && |tail| < COMMAND_PACKET_SIZE && Connection.NoErrors(cuts)
    ensures Session(c, Stream(cmds) + tail, cuts, turns, text).output == Frames(rs)
    ensures forall r | r in rs :: Sendable(r)
    ensures rs == [] || IsNew(rs[0].comm)
    ensures Groups(rs) == CapturedBuffers(cmds, c.calls, turns)
    decreases |cmds|
  {
    hide Serve, Session, Admitted, GoodGet, Frame, Sendable, Captured, PrepareToHandle, Healthy, ValidConn, PacketCount;
    hide Connection.RecvCommand, CommandBytes, Quiet, GoodTurns, GoodTexts, IsNew, Groups, Frames, Drained, ChipOf;
    var input := Stream(cmds) + tail;
    HealthyFacts(c, Adc);
    SessionStep(c, input, cuts, turns, text);
    if cmds == [] {
      assert input == tail;
      RecvPartial(tail, cuts);
      rs := [];
      NothingSent();
    } else {
      var cmd, rest := cmds[0], Stream(cmds[1..]) + tail;
      assert input == CommandBytes(cmd) + rest;
      var later := RecvNext(cmd, rest, cuts);
      ChipOfGet(cmd);
      GoodGetBytes(cmd, ChipOf(cmd));
      OneGet(c, cmd, turns, text);
      var s := Serve(c, cmd, PrepareToHandle(cmd), turns, text);
      var ts := GetsDeliver(s.conn, cmds[1..], tail, later, turns, text);
      rs := Responses(s.attempts) + ts;
      FramesConcat(Responses(s.attempts), ts);
      GroupsConcat(Responses(s.attempts), ts);
    }
  }

  lemma NothingSent()
    ensures Frames([]) == [] && Groups([]) == []
  {
  }

  lemma ChipOfGet(cmd: Command)
    requires GoodGet(cmd, Adc) || GoodGet(cmd, Ddc)
    ensures GoodGet(cmd, ChipOf(cmd))
  {
  }

  /** What the client reads off the wire. */
  lemma EndToEnd(c: Conn, cmds: seq<Command>, tail: seq<byte>, cuts: seq<int>, turns: nat -> Turn, text: Texts)
    requires Healthy(c) && Quiet(turns) && GoodTurns(turns) && GoodTexts(text) && Drained(c.board)
    requires AllGets(cmds) && |tail| < COMMAND_PACKET_SIZE && Connection.NoErrors(cuts)
    ensures var parsed := ParseAll(Session(c, Stream(cmds) + tail, cuts, turns, text).output);
            parsed.Some? && Groups(parsed.value) == CapturedBuffers(cmds, c.calls, turns)
  {
    hide Session, InBuffer, Frames, Groups, CapturedBuffers, Healthy, AllGets, Stream, ParseAll;
    var rs := GetsDeliver(c, cmds, tail, cuts, turns, text);
    FramesParse(rs);
  }

  // ---------------------------------------------------------------- runs of exact transfers

  /** Every transfer is either on its own or right after a capture of exactly the samples it asks for;
      `owed` samples of `chip` are captured already when the first command arrives. */
  predicate Matched(cmds: seq<Command>, owed: nat, chip: Chip) {
    if cmds == [] then owed == 0
    else if Transfers(cmds[0]) then
      && GoodGet(cmds[0], ChipOf(cmds[0]))
      && (owed > 0 ==> ChipOf(cmds[0]) == chip && cmds[0].val == owed)
      && Matched(cmds[1..], 0, chip)
    else
      var next := if cmds[0].comm == CaptureCommand(Adc) then Adc else Ddc;
      && owed == 0 && cmds[0].comm == CaptureCommand(next) && 0 < cmds[0].val <= MaxSamples(next)
      && Matched(cmds[1..], cmds[0].val, next)
  }

  predicate Ready(b: Board, owed: nat, chip: Chip) {
    Left(b.Of(chip)) == owed && Left(b.Of(Other(chip))) == 0
  }

  /** The exchange of a transfer completed with exactly the bytes asked for. */
  predicate Exact(x: Exchange) {
    Transfers(x.command) ==>
      Completed(x.attempts) && |Bodies(x.attempts)| == x.command.val * SampleSize(ChipOf(x.command))
  }

  lemma ExactTransfer(c: Conn, cmd: Command, turns: nat -> Turn, text: Texts)
    requires Healthy(c) && Quiet(turns) && GoodTurns(turns) && GoodTexts(text) && GoodGet(cmd, ChipOf(cmd)) && Admitted(cmd)
    requires var left := Left(c.board.Of(ChipOf(cmd))); left == 0 || left == cmd.val
    requires Left(c.board.Of(Other(ChipOf(cmd)))) == 0
    ensures var s := Serve(c, cmd, PrepareToHandle(cmd), turns, text);
            Healthy(s.conn) && Drained(s.conn.board) && !Lost(s.attempts) && Exact(Exchange(cmd, s.attempts))
  {
    hide Serve, Admitted, GoodGet, Frames, Sendable, PrepareToHandle, Valid, PacketCount, Transfers, Quiet, Origin, LandAll;
    hide LastSample, Completed, Bodies, SampleSize, Bytes;
    var chip := ChipOf(cmd);
    ExactGet(c, chip, cmd, turns, text);
    GetTotals(c, chip, cmd, turns, text);
    var s := Serve(c, cmd, PrepareToHandle(cmd), turns, text);
    FullNotLost(s.attempts);
    AlongsideLeft(s.conn.board.Of(Other(chip)), c.board.Of(Other(chip)));
  }

  /** The handlers and the packet once the reply to an uninterrupted capture is printed. */
  ghost function Replied(c: Conn, chip: Chip, n: u32, turns: nat -> Turn, text: Texts): (Board, Packet)
    requires GoodTexts(text)
  {
    var env := turns(c.calls).env;
    var started := LandBoard(c.board, env.early).With(chip, Capture(chip, c.board.Of(chip), n, env.dma));
    PrintText(LandBoard(started, env.late), c.packet, text(CaptureStarted))
  }

  /** One call for a capture when nothing goes wrong: the engine is started, and works on while the reply is printed
      through the pointer and until it is copied. */
  lemma CaptureStep(c: Conn, chip: Chip, cmd: Command, turns: nat -> Turn, text: Texts)
    requires Healthy(c) && Quiet(turns) && GoodTurns(turns) && GoodTexts(text)
    requires cmd.comm == CaptureCommand(chip) && 0 < cmd.val <= MaxSamples(chip) && Admitted(cmd)
    ensures var (b, p) := Replied(c, chip, cmd.val, turns, text); var copy := turns(c.calls).copy;
            var (c', a, out) := Step(c, cmd, turns, text);
            && Healthy(c') && c'.calls == c.calls + 1 && a.ok && (a.delivered.Full? || a.delivered.Overrun?)
            && c'.board == LandBoard(b, copy) && c'.packet == p && ValidBoard(b)
            && a.response.num == |text(CaptureStarted)| + 1
            && ValidPacket(p)
            && (Fetch(c'.board, p) == Fetch(b, p) ==>
                  a.response == MessageResponse(text, CaptureStarted) && a.delivered.Full?)
  {
    hide Valid, Frame, Capture, PrintText, Fetch, InBuffer, LandBoard;
    var env := turns(c.calls).env;
    LandBoardKeeps(c.board, env.early);
    var early := LandBoard(c.board, env.early);
    EffectKeeps(early, cmd, env);
    QuietCapture(c.board, chip, cmd.val, env);
    var started := Effect(early, cmd, env).0;
    LandBoardKeeps(started, env.late);
    AnswerRead(LandBoard(started, env.late), c.packet, Done(CaptureStarted), text);
    PrintTextKeeps(LandBoard(started, env.late), c.packet, text(CaptureStarted));
    Connection.SendUnfragmented(c.plan, |Frame(Step(c, cmd, turns, text).1.response)|);
  }

  lemma QuietCapture(b: Board, chip: Chip, n: u32, env: Env)
    requires ValidBoard(b) && 0 < n <= MaxSamples(chip) && env.dma.accepts
    ensures CaptureEffect(LandBoard(b, env.early), chip, n, env.dma)
         == (LandBoard(b, env.early).With(chip, Capture(chip, b.Of(chip), n, env.dma)), Done(CaptureStarted))
  {
    hide Capture, Land, Accepts;
    CaptureKeeps(chip, b.Of(chip), n, env.dma);
    LandBoardKeeps(b, env.early);
    CaptureAbsorb(chip, b.Of(chip), env.early.Of(chip), n, env.dma);
  }

  lemma PrintTextKeeps(b: Board, p: Packet, t: seq<byte>)
    requires |t| <= 4094
    ensures var (b', p') := PrintText(b, p, t);
            && p'.num == |t| + 1 && p'.comm == MESSAGE && p'.buf == p.buf
            && forall chip: Chip :: var st, st' := b.Of(chip), b'.Of(chip);
                 st' == st.(memory := st'.memory, cells := st'.cells)
  {
  }

  /** A capture on a healthy connection is answered with one packet, unless what lands over the reply makes it
      overrun send_buf. */
  lemma CaptureServe(c: Conn, chip: Chip, cmd: Command, turns: nat -> Turn, text: Texts)
    requires Healthy(c) && Quiet(turns) && GoodTurns(turns) && GoodTexts(text)
    requires cmd.comm == CaptureCommand(chip) && 0 < cmd.val <= MaxSamples(chip)
    ensures Admitted(cmd) && !Transfers(cmd) && PrepareToHandle(cmd) == 1
    ensures var s := Serve(c, cmd, 1, turns, text);
            var (b, p) := Replied(c, chip, cmd.val, turns, text); var copy := turns(c.calls).copy;
            && Healthy(s.conn) && s.conn.calls == c.calls + 1 && |s.attempts| == 1 && s.attempts[0].ok
            && s.conn.board == LandBoard(b, copy) && s.conn.packet == p && ValidBoard(b)
            && (s.attempts[0].delivered.Full? || Lost(s.attempts))
            && ValidPacket(p)
            && (Fetch(s.conn.board, p) == Fetch(b, p) ==>
                  s.attempts == [Attempt(MessageResponse(text, CaptureStarted), true, Connection.Full)])
  {
    hide Valid, ValidBoard, Step, Serve, Frame, Replied, LandBoard, Fetch;
    ServeStep(c, cmd, 1, turns, text);
    CaptureStep(c, chip, cmd, turns, text);
    var (c', a, out) := Step(c, cmd, turns, text);
    ServeStep(c', cmd, 1 - a.response.num, turns, text);
    assert [a] + [] == [a];
  }

  lemma FullNotLost(attempts: seq<Attempt>)
    requires forall a | a in attempts :: a.delivered.Full?
    ensures !Lost(attempts)
  {
  }

  /** The first command of a stream, and what follows unless its packet is lost. */
  lemma FirstCommand(c: Conn, cmds: seq<Command>, tail: seq<byte>, cuts: seq<int>, turns: nat -> Turn, text: Texts)
    returns (later: seq<int>)
    requires ValidConn(c) && GoodTurns(turns) && GoodTexts(text) && cmds != [] && Connection.NoErrors(cuts)
    requires PrepareToHandle(cmds[0]) > 0 ==> Admitted(cmds[0])
    ensures Connection.NoErrors(later)
    ensures var s := Serve(c, cmds[0], PrepareToHandle(cmds[0]), turns, text);
            var e := Session(c, Stream(cmds) + tail, cuts, turns, text);
            if Lost(s.attempts) then e.log == [Exchange(cmds[0], s.attempts)]
            else
              var rest := Session(s.conn, Stream(cmds[1..]) + tail, later, turns, text);
              e.log == [Exchange(cmds[0], s.attempts)] + rest.log && e.conn == rest.conn
  {
    hide Serve, Session, PrepareToHandle, ValidConn, Lost, Connection.RecvCommand, CommandBytes, GoodTurns, GoodTexts;
    var rest := Stream(cmds[1..]) + tail;
    assert Stream(cmds) + tail == CommandBytes(cmds[0]) + rest;
    later := RecvNext(cmds[0], rest, cuts);
    SessionStep(c, Stream(cmds) + tail, cuts, turns, text);
  }

  /** In any run of transfers and matching capture-transfer pairs from drained handlers every transfer is exact. The
      run is complete unless samples that land over the reply to a capture make it overrun send_buf. */
  lemma {:induction false} MatchedRunsExact(c: Conn, cmds: seq<Command>, owed: nat, chip: Chip, tail: seq<byte>,
                                            cuts: seq<int>, turns: nat -> Turn, text: Texts)
    requires Healthy(c) && Quiet(turns) && GoodTurns(turns) && GoodTexts(text) && Ready(c.board, owed, chip)
    requires Matched(cmds, owed, chip) && |tail| < COMMAND_PACKET_SIZE && Connection.NoErrors(cuts)
    ensures var e := Session(c, Stream(cmds) + tail, cuts, turns, text);
            && |e.log| <= |cmds| && (forall i | 0 <= i < |e.log| :: e.log[i].command == cmds[i])
            && (forall x | x in e.log :: Exact(x))
            && ((|e.log| == |cmds| && Drained(e.conn.board)) || (e.log != [] && Lost(e.log[|e.log| - 1].attempts)))
    decreases |cmds|
  {
    hide Serve, Session, GoodGet, Exact, PrepareToHandle, Healthy, ValidConn, Valid, Lost, Admitted;
    hide Connection.RecvCommand, Connection.NoErrors, Stream, Quiet, GoodTurns, GoodTexts, ChipOf, Transfers;
    HealthyFacts(c, Adc);
    if cmds == [] {
      assert Stream([]) + tail == tail by { NoStream(tail); }
      SessionStep(c, tail, cuts, turns, text);
      RecvPartial(tail, cuts);
    } else {
      var cmd := cmds[0];
      Admission(cmd);
      var later := FirstCommand(c, cmds, tail, cuts, turns, text);
      var s := Serve(c, cmd, PrepareToHandle(cmd), turns, text);
      if Transfers(cmd) {
        GoodGetBytes(cmd, ChipOf(cmd));
        ExactTransfer(c, cmd, turns, text);
        MatchedRunsExact(s.conn, cmds[1..], 0, chip, tail, later, turns, text);
      } else {
        var next := if cmd.comm == CaptureCommand(Adc) then Adc else Ddc;
        CaptureReady(c, next, cmd, turns, text);
        assert Exact(Exchange(cmd, s.attempts)) by {
          NoTransferExact(cmd, s.attempts);
        }
        if !Lost(s.attempts) {
          MatchedRunsExact(s.conn, cmds[1..], cmd.val, next, tail, later, turns, text);
        }
      }
    }
  }

  lemma NoStream(tail: seq<byte>)
    ensures Stream([]) + tail == tail
  {
  }

  lemma CaptureReady(c: Conn, chip: Chip, cmd: Command, turns: nat -> Turn, text: Texts)
    requires Healthy(c) && Quiet(turns) && GoodTurns(turns) && GoodTexts(text)
    requires cmd.comm == CaptureCommand(chip) && 0 < cmd.val <= MaxSamples(chip)
    ensures Admitted(cmd) && PrepareToHandle(cmd) == 1
    ensures !Transfers(cmd) && Healthy(Serve(c, cmd, 1, turns, text).conn)
    ensures var b := Serve(c, cmd, 1, turns, text).conn.board;
            && Left(b.Of(chip)) == cmd.val && b.Of(chip).pos == 0 && b.Of(chip).count == cmd.val
            && Left(b.Of(Other(chip))) == Left(c.board.Of(Other(chip)))
  {
    hide Serve, PrintText, Capture, Quiet, GoodTurns, Healthy, LandBoard;
    var st, env := c.board.Of(chip), turns(c.calls).env;
    CaptureServe(c, chip, cmd, turns, text);
    LandBoardKeeps(c.board, env.early);
    var started := LandBoard(c.board, env.early).With(chip, Capture(chip, st, cmd.val, env.dma));
    LandBoardKeeps(started, env.late);
    PrintTextKeeps(LandBoard(started, env.late), c.packet, text(CaptureStarted));
    LandBoardKeeps(Replied(c, chip, cmd.val, turns, text).0, turns(c.calls).copy);
    CaptureStart(chip, st, cmd.val, env.dma);
  }

  lemma NoTransferExact(cmd: Command, attempts: seq<Attempt>)
    requires !Transfers(cmd)
    ensures Exact(Exchange(cmd, attempts))
  {
  }

  // ---------------------------------------------------------------- which samples a pair delivers

  /** Captured bytes of a chip when a reply was printed through a pointer after the first `landed` of them were in
      memory: later ones are stored over the reply. */
  function Struck(chip: Chip, captured: seq<byte>, landed: nat, p: Pointer, reply: seq<byte>): (b: seq<byte>)
    ensures |b| == |captured|
    ensures forall i | 0 <= i < |b| ::
              b[i] == if p.Into? && p.chip == chip && p.offset <= i < p.offset + |reply| && i < landed
                      then reply[i - p.offset] else captured[i]
  {
    seq(|captured|, i requires 0 <= i < |captured| =>
      if p.Into? && p.chip == chip && p.offset <= i < p.offset + |reply| && i < landed then reply[i - p.offset]
      else captured[i])
  }

  /** CAPTURE(S) and then GET(S) on an uninterrupted connection: every byte arrives as it was captured, or as the reply
      to the capture printed it, if the pointer an earlier transfer left behind leads there and the byte had landed
      before. */
  lemma PairArrives(c: Conn, chip: Chip, capture: Command, get: Command, turns: nat -> Turn, text: Texts)
    requires Healthy(c) && Quiet(turns) && GoodTurns(turns) && GoodTexts(text)
    requires capture.comm == CaptureCommand(chip) && GoodGet(get, chip) && capture.val == get.val
    ensures 0 < capture.val <= MaxSamples(chip) && Admitted(capture) && Admitted(get)
    ensures var s := Serve(c, capture, PrepareToHandle(capture), turns, text);
            var t := Serve(s.conn, get, PrepareToHandle(get), turns, text);
            && Healthy(s.conn) && Completed(t.attempts)
            && Bodies(t.attempts) == Struck(chip, Captured(chip, get.val, turns(c.calls).env.dma),
                                            turns(c.calls).env.late.Of(chip), c.packet.buf, text(CaptureStarted) + [0])
  {
    hide Serve, GoodTurns, GoodTexts, Healthy, Admitted, PrepareToHandle, PacketCount, Bytes, Replied;
    hide Captured, Struck, Valid, LandBoard, LastSample, LandAll;
    GetInRange(get, chip);
    GoodGetBytes(get, chip);
    CaptureServe(c, chip, capture, turns, text);
    CaptureReady(c, chip, capture, turns, text);
    HealthyFacts(c, chip);
    HealthyValid(c, chip);
    var s := Serve(c, capture, 1, turns, text);
    ExactGet(s.conn, chip, get, turns, text);
    OriginStart(chip, s.conn.board.Of(chip), get.val, turns(s.conn.calls).env.dma);
    StruckMemory(c, chip, get.val, turns, text);
  }

  lemma StruckMemory(c: Conn, chip: Chip, n: u32, turns: nat -> Turn, text: Texts)
    requires Valid(chip, c.board.Of(chip)) && 0 < n <= MaxSamples(chip) && turns(c.calls).env.dma.accepts && GoodTexts(text)
    ensures var st := LandAll(LandBoard(Replied(c, chip, n, turns, text).0, turns(c.calls).copy).Of(chip));
            && n * SampleSize(chip) <= |st.memory|
            && Bytes(chip, st, 0, n)
                 == Struck(chip, Captured(chip, n, turns(c.calls).env.dma), turns(c.calls).env.late.Of(chip), c.packet.buf,
                           text(CaptureStarted) + [0])
  {
    hide SampleSize, MaxSamples, Accepts, Valid, Land, Capture, Captured;
    var env := turns(c.calls).env;
    var started := LandBoard(c.board, env.early).With(chip, Capture(chip, c.board.Of(chip), n, env.dma));
    var printed := Replied(c, chip, n, turns, text).0;
    LandAbsorb(printed.Of(chip), turns(c.calls).copy.Of(chip));
    InMemory(chip, n);
    CaptureKeeps(chip, c.board.Of(chip), n, env.dma);
    RegionSize(chip, started.Of(chip));
    var reply := text(CaptureStarted) + [0];
    StruckLanded(chip, started.Of(chip), Captured(chip, n, env.dma), env.late.Of(chip), c.packet.buf, reply);
    var st := LandAll(printed.Of(chip));
    assert |Bytes(chip, st, 0, n)| == |Captured(chip, n, env.dma)|;
  }

  lemma RegionSize(chip: Chip, st: State)
    requires Valid(chip, st)
    ensures |st.memory| == REGION_SIZE
  {
  }

  /** The region after a transfer that had got to `landed` when the reply was printed. */
  lemma StruckLanded(chip: Chip, st: State, data: seq<byte>, landed: nat, p: Pointer, reply: seq<byte>)
    requires st.landed == 0 && Running(st) == data && |data| <= |st.memory|
    ensures var now := Land(st, landed);
            var printed := if p.Into? && p.chip == chip then Overwritten(now, p.offset, reply, Plains(|reply|)) else now;
            var m := LandAll(printed).memory;
            |m| == |st.memory| && m[..|data|] == Struck(chip, data, landed, p, reply)
  {
    hide LandedCells, Struck;
    var now := Land(st, landed);
    var printed := if p.Into? && p.chip == chip then Overwritten(now, p.offset, reply, Plains(|reply|)) else now;
    var m, struck := LandAll(printed).memory, Struck(chip, data, landed, p, reply);
    forall i | 0 <= i < |data| ensures m[i] == struck[i] {
      assert now.memory[i] == if i < landed then data[i] else st.memory[i];
      assert m[i] == if i < now.landed then printed.memory[i] else data[i];
    }
  }

  /** Whatever the capture delivers and however it lands, the pair hands out exactly that if and only if the pointer
      left behind does not lead into the samples. */
  lemma PairExactly(chip: Chip, n: u32, dma: Dma, p: Pointer, reply: seq<byte>)
    requires reply != []
    ensures (forall data: nat -> byte, landed: nat :: var captured := Captured(chip, n, dma.(data := data));
                                                      Struck(chip, captured, landed, p, reply) == captured)
       <==> !(p.Into? && p.chip == chip && p.offset < n * SampleSize(chip))
  {
    hide SampleSize;
    var different: byte := if reply[0] == 0 then 1 else 0;
    var data: nat -> byte := i => different;
    var captured := Captured(chip, n, dma.(data := data));
    if p.Into? && p.chip == chip && p.offset < n * SampleSize(chip) {
      assert Struck(chip, captured, p.offset + 1, p, reply)[p.offset] == reply[0] != captured[p.offset];
    } else {
      forall data: nat -> byte, landed: nat
        ensures var captured := Captured(chip, n, dma.(data := data)); Struck(chip, captured, landed, p, reply) == captured
      {
      }
    }
  }
}
