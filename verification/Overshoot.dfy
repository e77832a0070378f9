/** How far an uninterrupted transfer overshoots, and exactly when it does not. */
module Overshoot {
  import opened Words
  import opened Common
  import opened LowLevel
  import opened Wire
  import opened Requests
  import opened Server
  import opened Delivery
  import opened Runs

  /** The samples of a request for `want` that are sent while `remaining` are due and `left` are in the buffer. */
  function Sent(chip: Chip, left: nat, want: nat, remaining: int): nat
    requires want > 0
    decreases if remaining > 0 then remaining else 0
  {
    if remaining <= 0 then 0
    else
      var available := if left > 0 then left else want;
      var n := Chunk(chip, available, want <= left);
      n + Sent(chip, available - n, want, remaining - n)
  }

  /** The size of n samples in bytes. */
  function InBytes(chip: Chip, n: int): int {
    n * SampleSize(chip)
  }

  lemma InBytesMinus(chip: Chip, a: int, b: int)
    ensures InBytes(chip, a - b) == InBytes(chip, a) - InBytes(chip, b)
    ensures a > 0 <==> InBytes(chip, a) > 0
  {
    Distribute(a, b, SampleSize(chip));
    MultipleGap(a, SampleSize(chip));
  }

  /** An uninterrupted transfer sends exactly that many, and never fails. */
  lemma {:induction false} SentBytes(c: Conn, chip: Chip, cmd: Command, remaining: int, turns: nat -> Turn, text: Texts)
    requires Healthy(c) && Quiet(turns) && GoodTurns(turns) && GoodTexts(text) && GoodGet(cmd, chip) && Admitted(cmd)
    ensures Left(c.board.Of(chip)) >= 0
    ensures var s := Serve(c, cmd, InBytes(chip, remaining), turns, text);
            && Completed(s.attempts)
            && |Bodies(s.attempts)| == InBytes(chip, Sent(chip, Left(c.board.Of(chip)), cmd.val, remaining))
    decreases if remaining > 0 then remaining else 0
  {
    hide Step, Serve, Admitted, GoodGet, Healthy, ValidConn, Quiet, GoodTurns, GoodTexts, Chunk, Sent, InBytes;
    HasSamples(cmd, chip);
    HealthyFacts(c, chip);
    var left := Left(c.board.Of(chip));
    ServeStep(c, cmd, InBytes(chip, remaining), turns, text);
    InBytesMinus(chip, remaining, remaining);
    SentStep(chip, left, cmd.val, remaining);
    if remaining > 0 {
      hide Completed, Bodies;
      var (c', a, out) := Step(c, cmd, turns, text);
      var n := QuietPacket(c, chip, cmd, turns, text);
      InBytesMinus(chip, remaining, n);
      SentBytes(c', chip, cmd, remaining - n, turns, text);
      CompletedMore(a, Serve(c', cmd, InBytes(chip, remaining - n), turns, text).attempts);
      InBytesMinus(chip, Sent(chip, left, cmd.val, remaining), n);
    }
  }

  /** One packet of an uninterrupted transfer: its size, and what it leaves. */
  lemma QuietPacket(c: Conn, chip: Chip, cmd: Command, turns: nat -> Turn, text: Texts) returns (n: nat)
    requires Healthy(c) && Quiet(turns) && GoodTurns(turns) && GoodTexts(text) && GoodGet(cmd, chip) && Admitted(cmd)
    ensures var left := Left(c.board.Of(chip));
            var available := if left > 0 then left else cmd.val;
            var (c', a, out) := Step(c, cmd, turns, text);
            && left >= 0 && 0 < n == Chunk(chip, available, cmd.val <= left) <= available
            && Healthy(c') && Left(c'.board.Of(chip)) == available - n
            && a.ok && !Breaks(a) && a.response.num == |a.response.body| == InBytes(chip, n)
  {
    hide Step, Admitted, RangePacket, GoodGet, Frame, Sendable, Bytes, Origin, Settled, Valid, Interleave;
    hide Healthy, ValidConn, Quiet, GoodTurns, GoodTexts, SampleSize, PacketSamples, MaxSamples;
    HealthyFacts(c, chip);
    OriginStart(chip, c.board.Of(chip), cmd.val, turns(c.calls).env.dma);
    var from, hi := QuietStep(c, chip, cmd, turns, text);
    PacketShape(chip, from, from.pos, hi);
    n := hi - from.pos;
  }

  lemma SentStep(chip: Chip, left: nat, want: nat, remaining: int)
    requires want > 0
    ensures remaining <= 0 ==> Sent(chip, left, want, remaining) == 0
    ensures remaining > 0 ==>
              var available := if left > 0 then left else want;
              var n := Chunk(chip, available, want <= left);
              n <= available && Sent(chip, left, want, remaining) == n + Sent(chip, available - n, want, remaining - n)
  {
  }

  lemma CompletedMore(a: Attempt, rest: seq<Attempt>)
    requires a.ok && !Breaks(a) && Completed(rest)
    ensures Completed([a] + rest) && |Bodies([a] + rest)| == |a.response.body| + |Bodies(rest)|
  {
    var all := [a] + rest;
    assert all[0] == a && all[1..] == rest;
  }

  // ---------------------------------------------------------------- the three phases

  /** The least multiple of the packet size that is at least n. */
  function RoundUp(chip: Chip, n: nat): nat {
    PacketCount(chip, n) * PacketSamples(chip)
  }

  /** While everything due is in the buffer and less than a request: full packets, cut at the end of the buffer. */
  lemma {:induction false} FullPackets(chip: Chip, left: nat, want: nat, remaining: nat)
    requires left < want && remaining <= if left > 0 then left else want
    ensures var available := if left > 0 then left else want;
            Sent(chip, left, want, remaining) ==
              if RoundUp(chip, remaining) < available then RoundUp(chip, remaining) else available
    decreases remaining
  {
    hide PacketSamples, RoundUp, Sent;
    var available := if left > 0 then left else want;
    var n := Chunk(chip, available, false);
    SentStep(chip, left, want, remaining);
    if remaining == 0 {
      NoPackets(chip);
    } else if remaining <= n {
      OnePacket(chip, remaining, n);
      SentStep(chip, available - n, want, remaining - n);
    } else {
      FullPackets(chip, available - n, want, remaining - n);
      RoundUpStep(chip, remaining);
    }
  }

  lemma NoPackets(chip: Chip)
    ensures PacketCount(chip, 0) == 0 && RoundUp(chip, 0) == 0
  {
  }

  lemma OnePacket(chip: Chip, remaining: nat, n: nat)
    requires 0 < remaining <= n <= PacketSamples(chip)
    ensures RoundUp(chip, remaining) == PacketSamples(chip)
  {
    hide PacketCount, PacketSamples;
    PacketCountStep(chip, remaining, if remaining < PacketSamples(chip) then remaining else PacketSamples(chip));
    NoPackets(chip);
  }

  lemma RoundUpStep(chip: Chip, n: nat)
    requires n >= PacketSamples(chip)
    ensures RoundUp(chip, n) == RoundUp(chip, n - PacketSamples(chip)) + PacketSamples(chip)
  {
    hide PacketCount, PacketSamples;
    PacketCountStep(chip, n, PacketSamples(chip));
    Distribute(PacketCount(chip, n), 1, PacketSamples(chip));
  }

  lemma RoundUpFixed(chip: Chip, n: nat)
    ensures RoundUp(chip, n) >= n && (RoundUp(chip, n) == n <==> n % PacketSamples(chip) == 0)
  {
    hide PacketSamples;
    Ceiling(n, PacketSamples(chip));
  }

  lemma Ceiling(n: nat, m: nat)
    requires m > 0
    ensures var up := (n + m - 1) / m * m; up >= n && (up == n <==> n % m == 0)
  {
    var q, r := n / m, n % m;
    if r == 0 {
      DivModUnique(n + m - 1, m, q, m - 1);
    } else {
      DivModUnique(n + m - 1, m, q + 1, r - 1);
    }
  }

  /** A buffer with less than a request is emptied first. */
  lemma {:induction false} EmptyFirst(chip: Chip, left: nat, want: nat, remaining: nat)
    requires left < want && left <= remaining
    ensures Sent(chip, left, want, remaining) == left + Sent(chip, 0, want, remaining - left)
    decreases left
  {
    hide PacketSamples;
    if left > 0 {
      var n := Chunk(chip, left, false);
      EmptyFirst(chip, left - n, want, remaining - n);
    }
  }

  /** While a whole request fits in the buffer, samples go out one at a time. */
  lemma {:induction false} OneByOne(chip: Chip, left: nat, want: nat, remaining: nat)
    requires left >= want > 0
    ensures var ones := left - want + 1;
            Sent(chip, left, want, remaining) ==
              if remaining <= ones then remaining else ones + Sent(chip, want - 1, want, remaining - ones)
    decreases left
  {
    if remaining > 1 && left > want {
      OneByOne(chip, left - 1, want, remaining - 1);
    }
  }

  // ---------------------------------------------------------------- the exact condition

  /** The leftovers with which a request for `want` samples is met exactly. */
  predicate ExactLeftover(chip: Chip, left: nat, want: nat) {
    || left == 0 || left == want
    || (left < want && (want - left) % PacketSamples(chip) == 0)
    || (left > want && (left >= 2 * want - 1 || (2 * want - 1 - left) % PacketSamples(chip) == 0))
  }

  lemma SentExactly(chip: Chip, left: nat, want: nat)
    requires want > 0
    ensures Sent(chip, left, want, want) >= want
    ensures Sent(chip, left, want, want) == want <==> ExactLeftover(chip, left, want)
  {
    hide PacketSamples, RoundUp, Sent;
    if left < want {
      EmptyFirst(chip, left, want, want);
      FullPackets(chip, 0, want, want - left);
      RoundUpFixed(chip, want - left);
    } else {
      OneByOne(chip, left, want, want);
      if want > left - want + 1 {
        FullPackets(chip, want - 1, want, 2 * want - 1 - left);
        RoundUpFixed(chip, 2 * want - 1 - left);
      }
    }
  }

  /** An uninterrupted GET of S samples sends exactly S samples if and only if the leftover is one of these. */
  lemma ExactlyWhen(c: Conn, chip: Chip, cmd: Command, turns: nat -> Turn, text: Texts)
    requires Healthy(c) && Quiet(turns) && GoodTurns(turns) && GoodTexts(text) && GoodGet(cmd, chip) && Admitted(cmd)
    ensures Left(c.board.Of(chip)) >= 0
    ensures var s := Serve(c, cmd, PrepareToHandle(cmd), turns, text);
            && Completed(s.attempts)
            && (|Bodies(s.attempts)| == cmd.val * SampleSize(chip) <==> ExactLeftover(chip, Left(c.board.Of(chip)), cmd.val))
  {
    hide Serve, Quiet, Healthy, GoodGet, Admitted, PrepareToHandle, ExactLeftover, Sent, SampleSize;
    GoodGetBytes(cmd, chip);
    HasSamples(cmd, chip);
    SentBytes(c, chip, cmd, cmd.val, turns, text);
    SentExactly(chip, Left(c.board.Of(chip)), cmd.val);
    SameScale(Sent(chip, Left(c.board.Of(chip)), cmd.val, cmd.val), cmd.val, SampleSize(chip));
  }

  lemma HasSamples(cmd: Command, chip: Chip)
    requires GoodGet(cmd, chip)
    ensures cmd.val > 0
  {
  }

  lemma SameScale(a: int, b: int, k: nat)
    requires k > 0
    ensures a * k == b * k <==> a == b
  {
    Distribute(a, b, k);
    MultipleGap(a - b, k);
  }

  /** CAPTURE(2) and then GET(3), with nobody interfering and nothing failing: five samples are sent. */
  lemma OvershootExample(c: Conn, capture: Command, get: Command, turns: nat -> Turn, text: Texts)
    requires Healthy(c) && Quiet(turns) && GoodTurns(turns) && GoodTexts(text)
    requires capture.comm == FMC150_CAPTURE && capture.val == 2 && get.comm == FMC150_GET_SAMPLES && get.val == 3
    ensures ValidConn(c) && Admitted(capture) && Admitted(get)
    ensures var s := Serve(c, capture, PrepareToHandle(capture), turns, text);
            var t := Serve(s.conn, get, PrepareToHandle(get), turns, text);
            Completed(t.attempts) && |Bodies(t.attempts)| == 20
  {
    hide Serve, Quiet, GoodTurns, GoodTexts, Healthy, Sent, Completed, Bodies, PacketSamples, InBytes;
    HealthyFacts(c, Adc);
    GoodGetBytes(get, Adc);
    CaptureReady(c, Adc, capture, turns, text);
    SentBytes(Serve(c, capture, 1, turns, text).conn, Adc, get, 3, turns, text);
    SentFive();
  }

  lemma SentFive()
    ensures InBytes(Adc, 3) == 12 && InBytes(Adc, Sent(Adc, 2, 3, 3)) == 20
  {
    SentStep(Adc, 2, 3, 3);
    SentStep(Adc, 0, 3, 1);
    SentStep(Adc, 0, 3, -2);
  }
}
