/** Runs of transfers and capture-transfer pairs: which of them deliver exactly the captured samples. */
module Pairs {
  import opened Words
  import opened Common
  import opened LowLevel
  import opened Wire
  import opened Requests
  import opened Server
  import opened Delivery
  import opened Runs
  import Connection

  /** The pointer leads into the first n samples of a handler. */
  predicate Leads(p: Pointer, chip: Chip, n: nat) {
    p.Into? && p.chip == chip && p.offset < n * SampleSize(chip)
  }

  /** Where a transfer leaves the pointer. */
  function LeftBehind(chip: Chip, want: nat, loaded: bool): Pointer
    requires want > 0
  {
    Into(chip, LastSample(chip, 0, want, loaded) * SampleSize(chip))
  }

  /** No capture finds the pointer leading into its samples: a condition on the list of commands and on the pointer at
      its start. */
  predicate Safe(cmds: seq<Command>, owed: nat, chip: Chip, p: Pointer)
    requires Matched(cmds, owed, chip)
  {
    if cmds == [] then true
    else if Transfers(cmds[0]) then
      Safe(cmds[1..], 0, chip, LeftBehind(ChipOf(cmds[0]), cmds[0].val, owed > 0))
    else
      var next := if cmds[0].comm == CaptureCommand(Adc) then Adc else Ddc;
      !Leads(p, next, cmds[0].val) && Safe(cmds[1..], cmds[0].val, next, p)
  }

  /** What the transfers are to deliver: each the samples captured for it, by the command before it or by itself. */
  function Buffers(cmds: seq<Command>, call: nat, owed: nat, owedCall: nat, chip: Chip, turns: nat -> Turn): seq<seq<byte>>
    requires Matched(cmds, owed, chip)
  {
    if cmds == [] then []
    else if Transfers(cmds[0]) then
      var which, val := ChipOf(cmds[0]), cmds[0].val;
      var packets := if owed > 0 then 1 + PacketCount(which, val - 1) else PacketCount(which, val);
      [Captured(which, val, turns(if owed > 0 then owedCall else call).env.dma)]
      + Buffers(cmds[1..], call + packets, 0, 0, chip, turns)
    else
      var next := if cmds[0].comm == CaptureCommand(Adc) then Adc else Ddc;
      Buffers(cmds[1..], call + 1, cmds[0].val, call, next, turns)
  }

  /** What they did deliver. */
  function Sent(log: seq<Exchange>): seq<seq<byte>> {
    if log == [] then []
    else (if Transfers(log[0].command) then [Bodies(log[0].attempts)] else []) + Sent(log[1..])
  }

  /** Between the commands of such a run: `owed` samples of `chip` captured and none of them handed out, and nothing
      else in progress. */
  predicate Poised(b: Board, owed: nat, chip: Chip) {
    && Ready(b, owed, chip) && Settled(b.Of(Other(chip)))
    && (if owed > 0 then b.Of(chip).pos == 0 else Settled(b.Of(chip)))
  }

  /** Once they have landed, the first n samples of a handler are these bytes. */
  predicate Holds(st: State, chip: Chip, n: nat, samples: seq<byte>) {
    n * SampleSize(chip) <= |LandAll(st).memory| && Bytes(chip, LandAll(st), 0, n) == samples
  }

  // ---------------------------------------------------------------- one transfer

  /** A transfer hands out what the handler holds, or what it captures itself. */
  lemma TransferArrives(c: Conn, cmd: Command, owed: nat, chip: Chip, samples: seq<byte>, turns: nat -> Turn, text: Texts)
    requires Healthy(c) && Quiet(turns) && GoodTurns(turns) && GoodTexts(text) && Poised(c.board, owed, chip)
    requires GoodGet(cmd, ChipOf(cmd)) && (owed > 0 ==> ChipOf(cmd) == chip && cmd.val == owed)
    requires owed > 0 ==> Holds(c.board.Of(chip), chip, owed, samples)
    ensures Admitted(cmd) && cmd.val > 0
    ensures var s := Serve(c, cmd, PrepareToHandle(cmd), turns, text); var which := ChipOf(cmd);
            && Healthy(s.conn) && Poised(s.conn.board, 0, chip) && !Lost(s.attempts)
            && s.conn.calls == c.calls + (if owed > 0 then 1 + PacketCount(which, cmd.val - 1) else PacketCount(which, cmd.val))
            && s.conn.packet.buf == LeftBehind(which, cmd.val, owed > 0)
            && Bodies(s.attempts) == if owed > 0 then samples else Captured(which, cmd.val, turns(c.calls).env.dma)
  {
    hide Serve, Admitted, GoodGet, PrepareToHandle, Quiet, LandAll, Captured, Bytes, PacketCount, LastSample, Capture, Valid;
    hide SampleSize;
    var which := ChipOf(cmd);
    GoodGetBytes(cmd, which);
    GetInRange(cmd, which);
    HealthyFacts(c, which);
    HealthyValid(c, which);
    ExactGet(c, which, cmd, turns, text);
    OriginStart(which, c.board.Of(which), cmd.val, turns(c.calls).env.dma);
    QuietAccepts(turns, c.calls);
    CapturedBytes(which, c.board.Of(which), cmd.val, turns(c.calls).env.dma);
    var s := Serve(c, cmd, PrepareToHandle(cmd), turns, text);
    FullNotLost(s.attempts);
    AlongsideLeft(s.conn.board.Of(Other(which)), c.board.Of(Other(which)));
    PacketCountPositive(which, cmd.val);
    assert Other(Other(which)) == which;
  }

  lemma QuietAccepts(turns: nat -> Turn, call: nat)
    requires Quiet(turns)
    ensures turns(call).env.dma.accepts
  {
  }

  // ---------------------------------------------------------------- one capture

  /** The reply to a capture is out of the way of what still lands. */
  predicate Clear(b: Board, p: Packet) {
    p.buf.Into? ==> var st := b.Of(p.buf.chip); p.buf.offset >= |Running(st)| || Settled(st)
  }

  lemma ClearFetch(b: Board, p: Packet, l: Landing)
    requires ValidBoard(b) && ValidPacket(p) && Clear(b, p)
    ensures ValidBoard(LandBoard(b, l)) && Fetch(LandBoard(b, l), p) == Fetch(b, p)
  {
    hide ValidBoard, CText, Land;
    LandBoardKeeps(b, l);
    ValidMemory(b);
    if p.buf.Into? {
      LandBeyond(b.Of(p.buf.chip), l.Of(p.buf.chip), p.buf.offset);
    }
  }

  lemma LandBeyond(st: State, upto: nat, from: nat)
    requires from <= |st.memory|
    ensures |Land(st, upto).memory| == |st.memory|
    ensures from >= |Running(st)| || Settled(st) ==> Land(st, upto).memory[from..] == st.memory[from..]
  {
  }

  /** A capture leaves its samples, struck by the reply where the pointer leads, and loses no packet if the pointer
      does not lead there or everything has landed before the reply is printed. */
  lemma CaptureLeaves(c: Conn, chip: Chip, cmd: Command, turns: nat -> Turn, text: Texts)
    requires Healthy(c) && Quiet(turns) && GoodTurns(turns) && GoodTexts(text) && Poised(c.board, 0, chip)
    requires cmd.comm == CaptureCommand(chip) && 0 < cmd.val <= MaxSamples(chip)
    ensures Admitted(cmd) && PrepareToHandle(cmd) == 1 && !Transfers(cmd)
    ensures var s := Serve(c, cmd, 1, turns, text); var env := turns(c.calls).env;
            && Healthy(s.conn) && Poised(s.conn.board, cmd.val, chip) && s.conn.calls == c.calls + 1
            && s.conn.packet.buf == c.packet.buf
            && Holds(s.conn.board.Of(chip), chip, cmd.val,
                     Struck(chip, Captured(chip, cmd.val, env.dma), env.late.Of(chip), c.packet.buf, text(CaptureStarted) + [0]))
            && (!Leads(c.packet.buf, chip, cmd.val) || env.late.Of(chip) >= cmd.val * SampleSize(chip) ==> !Lost(s.attempts))
  {
    hide Serve, GoodTurns, Healthy, Captured, Struck, Bytes, LandAll, SampleSize, MaxSamples, Fetch, Valid, Lost;
    hide Replied, LandBoard;
    HealthyValid(c, chip);
    HealthyFacts(c, chip);
    CaptureServe(c, chip, cmd, turns, text);
    CaptureReady(c, chip, cmd, turns, text);
    QuietAccepts(turns, c.calls);
    StruckMemory(c, chip, cmd.val, turns, text);
    ReplyClear(c, chip, cmd.val, turns, text);
    var (b, p) := Replied(c, chip, cmd.val, turns, text);
    if Clear(b, p) {
      ClearFetch(b, p, turns(c.calls).copy);
      FullNotLost(Serve(c, cmd, 1, turns, text).attempts);
    }
  }

  lemma ReplyClear(c: Conn, chip: Chip, n: u32, turns: nat -> Turn, text: Texts)
    requires Valid(chip, c.board.Of(chip)) && 0 < n <= MaxSamples(chip) && turns(c.calls).env.dma.accepts && GoodTexts(text)
    requires Settled(c.board.Of(Other(chip)))
    ensures var (b, p) := Replied(c, chip, n, turns, text); var turn := turns(c.calls);
            && p.buf == c.packet.buf && Settled(LandBoard(b, turn.copy).Of(Other(chip)))
            && (!Leads(c.packet.buf, chip, n) || turn.env.late.Of(chip) >= n * SampleSize(chip) ==>
                  Clear(b, p))
  {
    hide Land, Capture, Captured, SampleSize, MaxSamples, Accepts, PrintText, Valid;
    var turn := turns(c.calls);
    var env := turn.env;
    CaptureKeeps(chip, c.board.Of(chip), n, env.dma);
    var started := LandBoard(c.board, env.early).With(chip, Capture(chip, c.board.Of(chip), n, env.dma));
    LandBoardKeeps(c.board, env.early);
    LandBoardKeeps(started, env.late);
    LandsUpTo(started.Of(chip), env.late.Of(chip));
    var b := Replied(c, chip, n, turns, text).0;
    PrintTextKeeps(LandBoard(started, env.late), c.packet, text(CaptureStarted));
    LandBoardKeeps(b, turn.copy);
  }

  lemma LandsUpTo(st: State, upto: nat)
    ensures upto >= |Running(st)| ==> Settled(Land(st, upto))
  {
  }

  // ---------------------------------------------------------------- whole runs

  lemma NoCommand(c: Conn, tail: seq<byte>, cuts: seq<int>, turns: nat -> Turn, text: Texts)
    requires ValidConn(c) && GoodTurns(turns) && GoodTexts(text) && |tail| < COMMAND_PACKET_SIZE && Connection.NoErrors(cuts)
    ensures Session(c, Stream([]) + tail, cuts, turns, text).log == [] && Sent([]) == []
  {
    hide Session, Serve, ValidConn, Connection.RecvCommand, GoodTurns, GoodTexts, Stream, Lost, PrepareToHandle;
    NoStream(tail);
    RecvPartial(tail, cuts);
    SessionStep(c, tail, cuts, turns, text);
  }

  lemma SentMore(x: Exchange, log: seq<Exchange>)
    ensures Sent([x] + log) == (if Transfers(x.command) then [Bodies(x.attempts)] else []) + Sent(log)
  {
    assert ([x] + log)[1..] == log;
  }

  lemma PoisedBoth(b: Board, chip: Chip, other: Chip)
    requires Poised(b, 0, chip)
    ensures Poised(b, 0, other)
  {
    assert other == chip || other == Other(chip);
    assert Other(Other(chip)) == chip;
  }

  lemma StruckNowhere(chip: Chip, n: u32, dma: Dma, landed: nat, p: Pointer, reply: seq<byte>)
    requires !Leads(p, chip, n)
    ensures Struck(chip, Captured(chip, n, dma), landed, p, reply) == Captured(chip, n, dma)
  {
    hide SampleSize;
  }

  /** In a safe run, whatever is captured and however it lands, every transfer delivers exactly the captured samples. */
  lemma {:induction false} SafeRuns(c: Conn, cmds: seq<Command>, owed: nat, owedCall: nat, chip: Chip, tail: seq<byte>,
                                    cuts: seq<int>, turns: nat -> Turn, text: Texts)
    requires Healthy(c) && Quiet(turns) && GoodTurns(turns) && GoodTexts(text) && Poised(c.board, owed, chip)
    requires Matched(cmds, owed, chip) && |tail| < COMMAND_PACKET_SIZE && Connection.NoErrors(cuts)
    requires owed > 0 ==> Holds(c.board.Of(chip), chip, owed, Captured(chip, owed, turns(owedCall).env.dma))
    requires Safe(cmds, owed, chip, c.packet.buf)
    ensures ValidConn(c)
    ensures var log := Session(c, Stream(cmds) + tail, cuts, turns, text).log;
            |log| == |cmds| && Sent(log) == Buffers(cmds, c.calls, owed, owedCall, chip, turns)
    decreases |cmds|
  {
    hide Serve, Session, GoodGet, PrepareToHandle, Healthy, ValidConn, Lost, Quiet, GoodTurns, GoodTexts, ChipOf, Transfers;
    hide Captured, Holds, Poised, Leads, PacketCount, LastSample, Struck, Bodies, Admitted, Stream, Sent;
    hide Connection.NoErrors, LeftBehind;
    HealthyFacts(c, Adc);
    if cmds == [] {
      NoCommand(c, tail, cuts, turns, text);
    } else {
      var cmd := cmds[0];
      Admission(cmd);
      var later := FirstCommand(c, cmds, tail, cuts, turns, text);
      var s := Serve(c, cmd, PrepareToHandle(cmd), turns, text);
      SentMore(Exchange(cmd, s.attempts), Session(s.conn, Stream(cmds[1..]) + tail, later, turns, text).log);
      if Transfers(cmd) {
        TransferArrives(c, cmd, owed, chip, Captured(chip, owed, turns(owedCall).env.dma), turns, text);
        SafeRuns(s.conn, cmds[1..], 0, 0, chip, tail, later, turns, text);
      } else {
        var next := if cmd.comm == CaptureCommand(Adc) then Adc else Ddc;
        PoisedBoth(c.board, chip, next);
        CaptureLeaves(c, next, cmd, turns, text);
        StruckNowhere(next, cmd.val, turns(c.calls).env.dma, turns(c.calls).env.late.Of(next), c.packet.buf,
                      text(CaptureStarted) + [0]);
        SafeRuns(s.conn, cmds[1..], cmd.val, c.calls, next, tail, later, turns, text);
      }
    }
  }

  /** An engine that delivers the same byte all the time, and at once. */
  function Steady(d: byte): nat -> Turn {
    var all := Landing(REGION_SIZE, REGION_SIZE);
    (k: nat) => Turn([], Env(Dma(true, (i: nat) => d, 0), true, 0, all, all), [], all)
  }

  lemma SteadyQuiet(d: byte)
    ensures Quiet(Steady(d)) && GoodTurns(Steady(d))
  {
  }

  lemma SteadyLands(d: byte, k: nat, chip: Chip, n: nat)
    requires n <= MaxSamples(chip)
    ensures Steady(d)(k).env.late.Of(chip) >= n * SampleSize(chip)
  {
    InMemory(chip, n);
  }

  lemma StruckSomewhere(chip: Chip, n: u32, d: byte, k: nat, p: Pointer, reply: seq<byte>)
    requires Leads(p, chip, n) && reply != [] && reply[0] != d && n <= MaxSamples(chip)
    ensures var env := Steady(d)(k).env; var samples := Captured(chip, n, env.dma);
            Struck(chip, samples, env.late.Of(chip), p, reply) != samples
  {
    hide SampleSize, MaxSamples;
    SteadyLands(d, k, chip, n);
    var env := Steady(d)(k).env;
    var samples := Captured(chip, n, env.dma);
    assert Struck(chip, samples, env.late.Of(chip), p, reply)[p.offset] == reply[0] != samples[p.offset];
  }

  /** With such an engine a run in which every transfer delivers its samples is safe. */
  lemma {:induction false} UnsafeRuns(c: Conn, cmds: seq<Command>, owed: nat, owedCall: nat, samples: seq<byte>, chip: Chip,
                                      tail: seq<byte>, cuts: seq<int>, d: byte, text: Texts)
    requires Healthy(c) && GoodTexts(text) && Poised(c.board, owed, chip) && d != (text(CaptureStarted) + [0])[0]
    requires Matched(cmds, owed, chip) && |tail| < COMMAND_PACKET_SIZE && Connection.NoErrors(cuts)
    requires owed > 0 ==> Holds(c.board.Of(chip), chip, owed, samples)
    ensures ValidConn(c) && GoodTurns(Steady(d))
    ensures var log := Session(c, Stream(cmds) + tail, cuts, Steady(d), text).log;
            Sent(log) == Buffers(cmds, c.calls, owed, owedCall, chip, Steady(d)) ==>
              && Safe(cmds, owed, chip, c.packet.buf)
              && (owed > 0 ==> samples == Captured(chip, owed, Steady(d)(owedCall).env.dma))
    decreases |cmds|
  {
    hide Serve, Session, GoodGet, PrepareToHandle, Healthy, ValidConn, Lost, Quiet, GoodTurns, GoodTexts, ChipOf, Transfers;
    hide Captured, Holds, Poised, Leads, PacketCount, LastSample, Struck, Bodies, Admitted, Steady, Stream, Sent;
    hide Connection.NoErrors, LeftBehind;
    SteadyQuiet(d);
    HealthyFacts(c, Adc);
    var turns := Steady(d);
    if cmds == [] {
    } else {
      var cmd := cmds[0];
      Admission(cmd);
      var later := FirstCommand(c, cmds, tail, cuts, turns, text);
      var s := Serve(c, cmd, PrepareToHandle(cmd), turns, text);
      var log := Session(s.conn, Stream(cmds[1..]) + tail, later, turns, text).log;
      SentMore(Exchange(cmd, s.attempts), log);
      if Transfers(cmd) {
        TransferArrives(c, cmd, owed, chip, samples, turns, text);
        UnsafeRuns(s.conn, cmds[1..], 0, 0, [], chip, tail, later, d, text);
        ConsInjective(Bodies(s.attempts), Sent(log));
      } else {
        var next := if cmd.comm == CaptureCommand(Adc) then Adc else Ddc;
        PoisedBoth(c.board, chip, next);
        CaptureLeaves(c, next, cmd, turns, text);
        SteadyLands(d, c.calls, next, cmd.val);
        var reply := text(CaptureStarted) + [0];
        if Leads(c.packet.buf, next, cmd.val) {
          StruckSomewhere(next, cmd.val, d, c.calls, c.packet.buf, reply);
        }
        var struck := Struck(next, Captured(next, cmd.val, turns(c.calls).env.dma), turns(c.calls).env.late.Of(next),
                             c.packet.buf, reply);
        UnsafeRuns(s.conn, cmds[1..], cmd.val, c.calls, struck, next, tail, later, d, text);
      }
    }
  }

  lemma ConsInjective<T>(x: T, xs: seq<T>)
    ensures forall y: T, ys :: [x] + xs == [y] + ys ==> x == y && xs == ys
  {
    forall y: T, ys | [x] + xs == [y] + ys ensures x == y && xs == ys {
      assert ([x] + xs)[0] == ([y] + ys)[0];
      assert ([x] + xs)[1..] == ([y] + ys)[1..];
    }
  }

  /** A run of transfers and matching capture-transfer pairs on an uninterrupted connection, from handlers with nothing
      left and nothing in progress: every transfer delivers exactly the samples captured for it, whatever these are
      and however they land, if and only if no capture finds the pointer that the transfer before left behind leading
      into its samples. */
  lemma RunsArriveExactly(c: Conn, cmds: seq<Command>, chip: Chip, tail: seq<byte>, cuts: seq<int>, text: Texts)
    requires Healthy(c) && GoodTexts(text) && Poised(c.board, 0, chip)
    requires Matched(cmds, 0, chip) && |tail| < COMMAND_PACKET_SIZE && Connection.NoErrors(cuts)
    ensures ValidConn(c)
    ensures (forall turns: nat -> Turn | Quiet(turns) && GoodTurns(turns) ::
               Sent(Session(c, Stream(cmds) + tail, cuts, turns, text).log) == Buffers(cmds, c.calls, 0, 0, chip, turns))
       <==> Safe(cmds, 0, chip, c.packet.buf)
  {
    hide Session, Healthy, Poised, Matched, Safe, Sent, Buffers, Quiet, GoodTurns, GoodTexts, Steady, ValidConn;
    HealthyFacts(c, chip);
    if Safe(cmds, 0, chip, c.packet.buf) {
      forall turns: nat -> Turn | Quiet(turns) && GoodTurns(turns)
        ensures Sent(Session(c, Stream(cmds) + tail, cuts, turns, text).log) == Buffers(cmds, c.calls, 0, 0, chip, turns)
      {
        SafeRuns(c, cmds, 0, 0, chip, tail, cuts, turns, text);
      }
    }
    var reply := text(CaptureStarted) + [0];
    var d: byte := if reply[0] == 0 then 1 else 0;
    SteadyQuiet(d);
    UnsafeRuns(c, cmds, 0, 0, [], chip, tail, cuts, d, text);
  }
}
