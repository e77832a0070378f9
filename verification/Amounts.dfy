/** Transfers in bytes, with the sizes of samples and packets written out. */
module Amounts {
  import opened Words
  import opened Common
  import opened LowLevel
  import opened Wire
  import opened Requests
  import opened Server
  import opened Delivery
  import opened Runs
  import Protocol
  import Connection

  function Size(chip: Chip): nat {
    if chip.Adc? then 4 else 16
  }

  function Most(chip: Chip): nat {
    if chip.Adc? then 1024 else 256
  }

  /** The samples of packet i of `left` samples: full packets, and a last one with the rest. */
  function Portion(chip: Chip, left: int, i: nat): int {
    if left - i * Most(chip) < Most(chip) then left - i * Most(chip) else Most(chip)
  }

  lemma {:induction false} DrainPortions(c: Conn, chip: Chip, cmd: Command, st: State, lo: nat, turns: nat -> Turn, text: Texts)
    requires Healthy(c) && Quiet(turns) && GoodTurns(turns) && GoodTexts(text) && GoodGet(cmd, chip) && Admitted(cmd)
    requires At(c.board.Of(chip), st, lo) && lo <= st.count < lo + cmd.val
    ensures var attempts := Serve(c, cmd, (st.count - lo) * SampleSize(chip), turns, text).attempts;
            forall i | 0 <= i < |attempts| :: attempts[i].response.num == Portion(chip, st.count - lo, i) * Size(chip)
    decreases st.count - lo
  {
    hide Step, Serve, Admitted, RangePacket, GoodGet, Frame, Sendable, Bytes, Alongside, Settled, Portion, Delivered;
    hide Healthy, ValidConn, ValidBoard, Quiet, GoodTurns, GoodTexts, SampleSize, PacketSamples, MaxSamples, PacketCount;
    var k, left := SampleSize(chip), st.count - lo;
    Protocol.SampleBytes(chip);
    HealthyFacts(c, chip);
    ServeStep(c, cmd, left * k, turns, text);
    if left > 0 {
      SampleScale(left, k);
      var (c', a, out) := Step(c, cmd, turns, text);
      var hi := DrainStep(c, chip, cmd, st, lo, turns, text);
      PacketShape(chip, st, lo, hi);
      Distribute(left, hi - lo, k);
      DrainPortions(c', chip, cmd, st, hi, turns, text);
      Drain(c', chip, cmd, st, hi, turns, text);
      NonePackets(chip, st.count - hi);
      var rest := Serve(c', cmd, (st.count - hi) * k, turns, text).attempts;
      assert |rest| == PacketCount(chip, st.count - hi) by { Packets(c', chip, cmd, st, hi, turns, text); }
      forall i | 0 <= i < |rest| + 1
        ensures ([a] + rest)[i].response.num == Portion(chip, left, i) * Size(chip)
      {
        PortionStep(chip, left, hi - lo, i);
      }
    }
  }

  lemma Packets(c: Conn, chip: Chip, cmd: Command, st: State, lo: nat, turns: nat -> Turn, text: Texts)
    requires Healthy(c) && Quiet(turns) && GoodTurns(turns) && GoodTexts(text) && GoodGet(cmd, chip) && Admitted(cmd)
    requires At(c.board.Of(chip), st, lo) && lo <= st.count < lo + cmd.val
    ensures |Serve(c, cmd, (st.count - lo) * SampleSize(chip), turns, text).attempts| == PacketCount(chip, st.count - lo)
  {
    hide Serve, Admitted, Frame, Sendable, Bytes, Alongside, At, Healthy, Quiet, GoodTurns, GoodTexts, GoodGet, PacketCount;
    Drain(c, chip, cmd, st, lo, turns, text);
  }

  lemma PortionStep(chip: Chip, left: int, n: nat, i: nat)
    requires left > 0 && n == if left < Most(chip) then left else Most(chip)
    ensures Portion(chip, left, 0) == n
    ensures i > 0 && n == Most(chip) ==> Portion(chip, left, i) == Portion(chip, left - n, i - 1)
    ensures n < Most(chip) ==> left == n
  {
    Distribute(i, 1, Most(chip));
  }

  /** A GET of S samples with nothing or just S left: 4 * S or 16 * S bytes in all, in packets of 1024 or 256 samples
      for as long as that many are left, after a first one of a single sample if S were left. */
  lemma GetAmounts(c: Conn, chip: Chip, cmd: Command, turns: nat -> Turn, text: Texts)
    requires Healthy(c) && Quiet(turns) && GoodTurns(turns) && GoodTexts(text)
    requires cmd.comm == (if chip.Adc? then 3 else 7) && 1 <= cmd.val <= if chip.Adc? then 2097151 else 524287
    requires Left(c.board.Of(chip)) == 0 || Left(c.board.Of(chip)) == cmd.val
    ensures ValidConn(c) && Admitted(cmd)
    ensures var attempts := Serve(c, cmd, PrepareToHandle(cmd), turns, text).attempts;
            var (size, most, n) := if chip.Adc? then (4, 1024, cmd.val) else (16, 256, cmd.val);
            && Completed(attempts) && |Bodies(attempts)| == n * size
            && (if Left(c.board.Of(chip)) == 0 then
                  && |attempts| == (n + most - 1) / most
                  && forall i | 0 <= i < |attempts| ::
                       attempts[i].response.num == size * if n - i * most < most then n - i * most else most
                else
                  && |attempts| == 1 + (n - 1 + most - 1) / most && attempts[0].response.num == size
                  && forall i | 1 <= i < |attempts| ::
                       attempts[i].response.num
                         == size * if n - 1 - (i - 1) * most < most then n - 1 - (i - 1) * most else most)
  {
    hide Serve, Admitted, Bodies, Healthy, Quiet, GoodTurns, GoodTexts, PrepareToHandle, ValidConn, Completed, Step;
    hide SampleSize, PacketSamples, MaxSamples, PacketCount;
    Protocol.SampleBytes(chip);
    HealthyFacts(c, chip);
    GoodGetBytes(cmd, chip);
    GetTotals(c, chip, cmd, turns, text);
    GetSizes(c, chip, cmd, turns, text);
    CountOf(chip, cmd.val);
    CountOf(chip, cmd.val - 1);
  }

  lemma CountOf(chip: Chip, n: nat)
    ensures PacketCount(chip, n) == if chip.Adc? then (n + 1023) / 1024 else (n + 255) / 256
  {
  }

  /** The first packet of such a transfer takes n samples, the others the portions of the rest. */
  lemma GetSizes(c: Conn, chip: Chip, cmd: Command, turns: nat -> Turn, text: Texts)
    requires Healthy(c) && Quiet(turns) && GoodTurns(turns) && GoodTexts(text) && GoodGet(cmd, chip) && Admitted(cmd)
    requires Left(c.board.Of(chip)) == 0 || Left(c.board.Of(chip)) == cmd.val
    ensures var all := Serve(c, cmd, PrepareToHandle(cmd), turns, text).attempts; var val := cmd.val;
            if Left(c.board.Of(chip)) == 0 then
              forall i | 0 <= i < |all| :: all[i].response.num
                == Size(chip) * if val - i * Most(chip) < Most(chip) then val - i * Most(chip) else Most(chip)
            else
              && all != [] && all[0].response.num == Size(chip)
              && forall i | 1 <= i < |all| :: var due := val - 1 - (i - 1) * Most(chip);
                   all[i].response.num == Size(chip) * if due < Most(chip) then due else Most(chip)
  {
    hide Serve, Admitted, Frame, Sendable, Bytes, Healthy, Quiet, GoodTurns, GoodTexts, PrepareToHandle, Portion, Delivered;
    hide Origin, ValidConn, Step, RangePacket, Chunk, Alongside, Settled, SampleSize, PacketSamples, MaxSamples, PacketCount;
    Protocol.SampleBytes(chip);
    HealthyFacts(c, chip);
    GoodGetBytes(cmd, chip);
    var k, val := SampleSize(chip), cmd.val;
    OriginStart(chip, c.board.Of(chip), val, turns(c.calls).env.dma);
    ServeStep(c, cmd, val * k, turns, text);
    var (c', a, out) := Step(c, cmd, turns, text);
    var from, hi := QuietStep(c, chip, cmd, turns, text);
    PacketShape(chip, from, from.pos, hi);
    FirstChunk(chip, from, val, Left(c.board.Of(chip)));
    Distribute(val, hi - from.pos, k);
    InMemory(chip, from.count);
    DrainPortions(c', chip, cmd, from, hi, turns, text);
    Packets(c', chip, cmd, from, hi, turns, text);
    NonePackets(chip, from.count - hi);
    var rest := Serve(c', cmd, (from.count - hi) * k, turns, text).attempts;
    GetPortions(chip, a, rest, val, hi - from.pos, Left(c.board.Of(chip)) == 0);
  }

  lemma FirstChunk(chip: Chip, from: State, val: nat, left: int)
    requires Left(from) == val && (left == 0 || left == val) && val > 0
    ensures Chunk(chip, val, val <= left)
         == if left == val then 1 else if val < PacketSamples(chip) then val else PacketSamples(chip)
  {
  }

  lemma GetPortions(chip: Chip, a: Attempt, rest: seq<Attempt>, val: nat, n: nat, anew: bool)
    requires val > 0 && a.response.num == n * Size(chip)
    requires n == if anew then (if val < Most(chip) then val else Most(chip)) else 1
    requires forall i | 0 <= i < |rest| :: rest[i].response.num == Portion(chip, val - n, i) * Size(chip)
    requires n == val ==> rest == []
    ensures var all := [a] + rest;
            if anew then
              forall i | 0 <= i < |all| :: all[i].response.num
                == Size(chip) * if val - i * Most(chip) < Most(chip) then val - i * Most(chip) else Most(chip)
            else
              && all[0].response.num == Size(chip)
              && forall i | 1 <= i < |all| :: var due := val - 1 - (i - 1) * Most(chip);
                   all[i].response.num == Size(chip) * if due < Most(chip) then due else Most(chip)
  {
    if anew {
      var all := [a] + rest;
      forall i | 0 <= i < |all| ensures all[i].response.num == Portion(chip, val, i) * Size(chip) {
        PortionStep(chip, val, n, i);
      }
    }
  }

  // ---------------------------------------------------------------- whole streams

  /** The packets that the first i transfers take. */
  function PacketsBefore(cmds: seq<Command>, i: nat): nat
    requires i <= |cmds|
  {
    if i == 0 then 0
    else
      var most := if cmds[0].comm == 3 then 1024 else 256;
      (cmds[0].val + most - 1) / most + PacketsBefore(cmds[1..], i - 1)
  }

  /** The buffers captured for a list of transfers, byte by byte. */
  lemma {:induction false} BuffersInBytes(cmds: seq<Command>, call: nat, turns: nat -> Turn)
    requires AllGets(cmds)
    ensures var buffers := CapturedBuffers(cmds, call, turns);
            && |buffers| == |cmds|
            && forall i | 0 <= i < |cmds| ::
                 && |buffers[i]| == cmds[i].val * (if cmds[i].comm == 3 then 4 else 16)
                 && forall j | 0 <= j < |buffers[i]| :: buffers[i][j] == turns(call + PacketsBefore(cmds, i)).env.dma.data(j)
  {
    hide Captured, SampleSize, PacketSamples, MaxSamples, PacketCount, GoodGet, PacketsBefore, CapturedBuffers;
    NoBuffers(call, turns);
    if cmds != [] {
      var next := FirstBuffer(cmds, call, turns);
      BuffersInBytes(cmds[1..], next, turns);
      var buffers, later := CapturedBuffers(cmds, call, turns), CapturedBuffers(cmds[1..], next, turns);
      forall i | 0 <= i < |cmds|
        ensures |buffers[i]| == cmds[i].val * (if cmds[i].comm == 3 then 4 else 16)
        ensures forall j | 0 <= j < |buffers[i]| :: buffers[i][j] == turns(call + PacketsBefore(cmds, i)).env.dma.data(j)
      {
        if i > 0 {
          LaterPackets(cmds, call, next, i);
          assert buffers[i] == later[i - 1] && cmds[i] == cmds[1..][i - 1];
        }
      }
    }
  }

  lemma NoBuffers(call: nat, turns: nat -> Turn)
    ensures CapturedBuffers([], call, turns) == []
  {
  }

  lemma FirstBuffer(cmds: seq<Command>, call: nat, turns: nat -> Turn) returns (next: nat)
    requires AllGets(cmds) && cmds != []
    ensures var most := if cmds[0].comm == 3 then 1024 else 256; next == call + (cmds[0].val + most - 1) / most
    ensures AllGets(cmds[1..]) && PacketsBefore(cmds, 0) == 0
    ensures var buffers := CapturedBuffers(cmds, call, turns);
            && buffers != [] && buffers[1..] == CapturedBuffers(cmds[1..], next, turns)
            && |buffers[0]| == cmds[0].val * (if cmds[0].comm == 3 then 4 else 16)
            && forall j | 0 <= j < |buffers[0]| :: buffers[0][j] == turns(call).env.dma.data(j)
  {
    hide Captured, SampleSize, PacketSamples, MaxSamples;
    assert GoodGet(cmds[0], Adc) || GoodGet(cmds[0], Ddc);
    var chip := ChipOf(cmds[0]);
    Protocol.SampleBytes(chip);
    Protocol.CapturedData(chip, cmds[0].val, turns(call).env.dma);
    next := call + PacketCount(chip, cmds[0].val);
  }

  lemma LaterPackets(cmds: seq<Command>, call: nat, next: nat, i: nat)
    requires 0 < i <= |cmds|
    requires var most := if cmds[0].comm == 3 then 1024 else 256; next == call + (cmds[0].val + most - 1) / most
    ensures call + PacketsBefore(cmds, i) == next + PacketsBefore(cmds[1..], i - 1)
  {
  }

  /** What the client reads off the wire after a list of transfers on drained handlers: one buffer for each, of 4 or 16
      bytes a sample, and in it the bytes the DMA engine delivered for the call that captured it. */
  lemma EndToEndBytes(c: Conn, cmds: seq<Command>, tail: seq<byte>, cuts: seq<int>, turns: nat -> Turn, text: Texts)
    requires Healthy(c) && Quiet(turns) && GoodTurns(turns) && GoodTexts(text) && Drained(c.board)
    requires forall cmd | cmd in cmds ::
               (cmd.comm == 3 && 1 <= cmd.val <= 2097151) || (cmd.comm == 7 && 1 <= cmd.val <= 524287)
    requires |tail| < 16 && Connection.NoErrors(cuts)
    ensures ValidConn(c)
    ensures var parsed := ParseAll(Session(c, Stream(cmds) + tail, cuts, turns, text).output);
            && parsed.Some?
            && var buffers := Groups(parsed.value);
               && |buffers| == |cmds|
               && forall i | 0 <= i < |cmds| ::
                    && |buffers[i]| == cmds[i].val * (if cmds[i].comm == 3 then 4 else 16)
                    && forall j | 0 <= j < |buffers[i]| ::
                         buffers[i][j] == turns(c.calls + PacketsBefore(cmds, i)).env.dma.data(j)
  {
    hide Session, Groups, Healthy, Quiet, GoodTurns, GoodTexts, Drained, ValidConn, ParseAll, CapturedBuffers, Stream;
    HealthyFacts(c, Adc);
    assert AllGets(cmds) by {
      Protocol.SampleBytes(Adc);
      Protocol.SampleBytes(Ddc);
    }
    EndToEnd(c, cmds, tail, cuts, turns, text);
    BuffersInBytes(cmds, c.calls, turns);
  }
}
