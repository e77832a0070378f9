/** The capture handlers: starting a capture and walking through the captured DMA buffer. */
module LowLevel {
  import opened Words
  import opened Common
  import Bits

  const MAX_DMA_TRANSFER_SIZE: nat := 8388608
  const MAX_DMA_TRIES: nat := 5

  /** The longest transfer the DMA engine accepts, in bytes. */
  const XAXIDMA_MAX_TRANSFER_LEN: nat := 0x7f_ffff

  /** The distance between the DMA buffers of the two handlers; only the first half of each region is transferred to. */
  const REGION_SIZE: nat := 0x100_0000

  datatype Chip = Adc | Ddc

  function SampleSize(chip: Chip): (n: nat)
    ensures n > 0
  {
    if chip.Adc? then 4 else 16
  }

  function MaxSamples(chip: Chip): nat {
    MAX_DMA_TRANSFER_SIZE / SampleSize(chip) - 1
  }

  /** The most samples one response packet carries. */
  function PacketSamples(chip: Chip): (n: nat)
    ensures n > 0
  {
    RESPONSE_PACKET_BUF_SIZE / SampleSize(chip)
  }

  /** What the DMA engine does during one call: whether it is free to accept a transfer, the bytes that transfer
      delivers, and for how many polls it reports busy. */
  datatype Dma = Dma(accepts: bool, data: nat -> byte, busyPolls: nat)

  /** Samples [lo, hi) of the captured buffer, handed out in one packet. */
  datatype Range = Range(lo: nat, hi: nat)

  /** What a byte of memory is: byte `index` of some transfer for a handler, or none of any. */
  datatype Cell = Sample(owner: Chip, transfer: nat, index: nat) | Plain

  /** A handler with its memory region; the transfers the DMA engine ever accepted, the last of which is in progress
      until all its bytes have landed; the last transfer length and control word written to the device. Three
      histories: the ranges handed out since the last capture, what each byte of the region is, and which transfer
      belongs to the last capture (none if it was refused). */
  datatype State = State(owner: Chip, count: u32, pos: u32, memory: seq<byte>, transfers: seq<seq<byte>>, landed: nat,
                         dmaLength: u32, control: nat,
                         handed: seq<Range>, cells: seq<Cell>, source: Option<nat>)

  datatype GetResult = GetOk(size: u32, byteOffset: u32) | GetFailed

  /** The bytes a capture of n samples delivers. */
  function Captured(chip: Chip, n: nat, dma: Dma): (b: seq<byte>)
    ensures |b| == n * SampleSize(chip)
  {
    seq<byte>(n * SampleSize(chip), i requires i >= 0 => dma.data(i))
  }

  /** A sequence after b was stored in it from position `at` on. */
  function Overlaid<T>(s: seq<T>, at: nat, b: seq<T>): (r: seq<T>)
    ensures |r| == |s|
    ensures forall i | 0 <= i < |r| :: r[i] == if at <= i < at + |b| then b[i - at] else s[i]
  {
    seq(|s|, i requires 0 <= i < |s| => if at <= i < at + |b| then b[i - at] else s[i])
  }

  /** The handler after bytes were stored in its region. */
  function Overwritten(st: State, at: nat, b: seq<byte>, cells: seq<Cell>): State {
    st.(memory := Overlaid(st.memory, at, b), cells := Overlaid(st.cells, at, cells))
  }

  /** The bytes of the transfer in progress, or just completed. */
  function Running(st: State): seq<byte> {
    if st.transfers == [] then [] else st.transfers[|st.transfers| - 1]
  }

  /** Nothing is in progress any more. */
  predicate Settled(st: State) {
    st.landed >= |Running(st)|
  }

  function LandedBytes(memory: seq<byte>, data: seq<byte>, lo: nat, hi: nat): (r: seq<byte>)
    requires hi <= |data|
    ensures |r| == |memory|
    ensures forall i | 0 <= i < |r| :: r[i] == if lo <= i < hi then data[i] else memory[i]
  {
    seq(|memory|, i requires 0 <= i < |memory| => if lo <= i < hi then data[i] else memory[i])
  }

  function LandedCells(cells: seq<Cell>, owner: Chip, transfer: nat, lo: nat, hi: nat): (r: seq<Cell>)
    ensures |r| == |cells|
    ensures forall i | 0 <= i < |r| :: r[i] == if lo <= i < hi then Sample(owner, transfer, i) else cells[i]
  {
    seq(|cells|, i requires 0 <= i < |cells| => if lo <= i < hi then Sample(owner, transfer, i) else cells[i])
  }

  /** The engine works on until `upto` bytes of its transfer, or all of them, are in memory. */
  function Land(st: State, upto: nat): State {
    var data := Running(st);
    var n := if upto < |data| then upto else |data|;
    if n <= st.landed then st
    else
      st.(memory := LandedBytes(st.memory, data, st.landed, n),
          cells := LandedCells(st.cells, st.owner, |st.transfers| - 1, st.landed, n),
          landed := n)
  }

  function LandAll(st: State): State {
    Land(st, |Running(st)|)
  }

  /** Bit 21 starts the capture; the count sits below it, one less for the DDC. */
  function ControlWord(chip: Chip, n: u32): nat {
    Bits.BitOr(0x20_0000, if chip.Adc? then n else U32(n - 1))
  }

  /** XAxiDma_SimpleTransfer: refused while another transfer is in progress, and for lengths out of range. */
  predicate Accepts(chip: Chip, n: u32, dma: Dma) {
    dma.accepts && 1 <= U32(n * SampleSize(chip)) <= XAXIDMA_MAX_TRANSFER_LEN
  }

  /** capture_samples: it only starts the engine. That it accepts shows that the transfer before has landed. */
  function Capture(chip: Chip, st: State, n: u32, dma: Dma): State {
    var st' := st.(count := n, pos := 0, handed := [], dmaLength := U32(n * SampleSize(chip)), source := None);
    if Accepts(chip, n, dma) then
      LandAll(st').(transfers := st.transfers + [Captured(chip, n, dma)], landed := 0, control := ControlWord(chip, n),
                    source := Some(|st.transfers|))
    else st'
  }

  /** get_samples: a request that fits in what is left yields one sample, one that does not is trimmed to
      what is left, and only a drained buffer is captured anew. It succeeds only when the engine is found idle, and
      then everything has landed. */
  function Get(chip: Chip, st: State, size: u32, dma: Dma): (State, GetResult) {
    var tmp := if U32(st.pos + size) > st.count then S32(U32(st.count - st.pos)) else 1;
    var recapture := tmp <= 0 && size != 0;
    var st' := if recapture then Capture(chip, st, size, dma) else st;
    if recapture && !Accepts(chip, size, dma) then (st', GetFailed)
    else
      var want := if tmp <= 0 then S32(size) else tmp;
      var given := if U32(want) > PacketSamples(chip) then PacketSamples(chip) else U32(want);
      if dma.busyPolls >= MAX_DMA_TRIES then (st', GetFailed)
      else (LandAll(st').(pos := U32(st'.pos + given), handed := st'.handed + [Range(st'.pos, st'.pos + given)]),
            GetOk(given, U32(st'.pos * SampleSize(chip))))
  }

  // ---------------------------------------------------------------- what every call keeps

  /** The ranges tile [0, pos): in order, nonempty, no gap and no overlap. */
  predicate Tiles(rs: seq<Range>, pos: nat) {
    if rs == [] then pos == 0
    else
      var last := rs[|rs| - 1];
      last.lo < last.hi == pos && Tiles(rs[..|rs| - 1], last.lo)
  }

  /** Nothing started yet, or the start bit with a count below it. */
  predicate ValidControl(control: nat) {
    control == 0 || 0x20_0000 <= control < 0x40_0000
  }

  predicate Valid(chip: Chip, st: State) {
    && st.owner == chip && st.pos <= st.count <= MaxSamples(chip)
    && |st.memory| == REGION_SIZE
    && st.dmaLength <= 0x7f_ffff
    && ValidControl(st.control)
    && st.landed <= |Running(st)| <= XAXIDMA_MAX_TRANSFER_LEN
    && Tiles(st.handed, st.pos)
  }

  /** The handler at start-up, with whatever its region holds. */
  function Initial(chip: Chip, memory: seq<byte>): State {
    State(chip, 0, 0, memory, [], 0, 0, 0, [], seq(|memory|, i => Plain), None)
  }

  function Left(st: State): int {
    st.count - st.pos
  }

  /** A capture of an admissible count: the transfer length is exact; it is accepted exactly when the engine is free
      and there is something to transfer, and then the control word is the start bit with the adjusted count below
      it, memory holds what it held when the last transfer was through, and nothing of the new one yet. */
  lemma CaptureKeeps(chip: Chip, st: State, n: u32, dma: Dma)
    requires Valid(chip, st) && n <= MaxSamples(chip)
    ensures Accepts(chip, n, dma) <==> dma.accepts && n > 0
    ensures var st' := Capture(chip, st, n, dma);
            && Valid(chip, st') && Left(st') == n && st'.dmaLength == n * SampleSize(chip) <= XAXIDMA_MAX_TRANSFER_LEN
            && (if Accepts(chip, n, dma) then
                  && st'.transfers == st.transfers + [Captured(chip, n, dma)] && st'.landed == 0
                  && st'.source == Some(|st.transfers|) && st'.memory == LandAll(st).memory
                  && st'.control == 0x20_0000 + (if chip.Adc? then n else n - 1) < 0x40_0000
                else
                  && st'.transfers == st.transfers && st'.landed == st.landed && st'.source == None
                  && st'.memory == st.memory && st'.control == st.control)
  {
    hide Bits.BitOr, Pow2, Captured, SampleSize, MaxSamples, U32;
    var q := if chip.Adc? then n else U32(n - 1);
    LengthBound(chip, n);
    SmallU32(n * SampleSize(chip));
    CountBelow(chip, n);
    Pow2Constants();
    if n > 0 {
      Bits.OrDisjoint(1, q, 21);
      SizeInBytes(1, n, SampleSize(chip));
    }
  }

  lemma CaptureStart(chip: Chip, st: State, n: u32, dma: Dma)
    ensures var st' := Capture(chip, st, n, dma); st'.pos == 0 && st'.count == n && st'.handed == []
  {
  }

  /** Landing moves bytes and nothing else. */
  lemma LandKeeps(chip: Chip, st: State, upto: nat)
    ensures var st' := Land(st, upto);
            && st' == st.(memory := st'.memory, cells := st'.cells, landed := st'.landed)
            && st.landed <= st'.landed && (Valid(chip, st) ==> Valid(chip, st'))
            && (Settled(st) ==> st' == st)
    ensures Settled(LandAll(st)) && Running(LandAll(st)) == Running(st)
  {
    hide Tiles;
  }

  /** When a transfer is through, it does not matter how far it was in between. */
  lemma LandAbsorb(st: State, upto: nat)
    ensures LandAll(Land(st, upto)) == LandAll(st)
  {
  }

  /** Nor does it matter to a capture that is accepted. */
  lemma CaptureAbsorb(chip: Chip, st: State, upto: nat, n: u32, dma: Dma)
    requires Accepts(chip, n, dma)
    ensures Capture(chip, Land(st, upto), n, dma) == Capture(chip, st, n, dma)
  {
    hide SampleSize, ControlWord, Captured, Accepts, U32;
    var length := U32(n * SampleSize(chip));
    var a := st.(count := n, pos := 0, handed := [], dmaLength := length, source := None);
    LandAbsorb(a, upto);
    assert Land(st, upto).(count := n, pos := 0, handed := [], dmaLength := length, source := None) == Land(a, upto);
  }

  lemma CountBelow(chip: Chip, n: u32)
    requires n <= MaxSamples(chip)
    ensures n < 0x20_0000 && (n > 0 ==> U32(n - 1) == n - 1)
  {
  }

  /** get_samples over unbounded integers, as it reads when nothing wraps. */
  function GetPlain(chip: Chip, st: State, size: nat, dma: Dma): (State, GetResult)
    requires Valid(chip, st) && size <= MaxSamples(chip)
  {
    var recapture := Left(st) == 0 && size > 0;
    var from := if recapture then Capture(chip, st, size, dma) else st;
    var want := if recapture then size else if size > Left(st) then Left(st) else 1;
    var given := if want > PacketSamples(chip) then PacketSamples(chip) else want;
    if (recapture && !dma.accepts) || dma.busyPolls >= MAX_DMA_TRIES then (from, GetFailed)
    else (LandAll(from).(pos := from.pos + given, handed := from.handed + [Range(from.pos, from.pos + given)]),
          GetOk(given, from.pos * SampleSize(chip)))
  }

  lemma SmallU32(x: int)
    requires 0 <= x < TWO_32
    ensures U32(x) == x
    ensures x < TWO_31 ==> S32(x) == x
  {
  }

  lemma S32Zero(x: u32)
    ensures S32(x) == 0 <==> x == 0
  {
  }

  /** Neither the unsigned sum nor the signed difference in get_samples overflows. */
  lemma NothingWraps(chip: Chip, st: State, size: u32, dma: Dma)
    requires Valid(chip, st) && size <= MaxSamples(chip)
    ensures Get(chip, st, size, dma) == GetPlain(chip, st, size, dma)
  {
    hide U32, S32, Capture, LandAll, Running, Accepts, Valid, SampleSize, MaxSamples, PacketSamples;
    CountBounds(chip, st);
    Limits(chip);
    SmallU32(st.pos + size);
    SmallU32(Left(st));
    SmallU32(size);
    SmallU32(1);
    CaptureStart(chip, st, size, dma);
    CaptureKeeps(chip, st, size, dma);
    var from := if Left(st) == 0 && size > 0 then Capture(chip, st, size, dma) else st;
    LengthBound(chip, from.pos);
    SmallU32(from.pos * SampleSize(chip));
    var want := if Left(st) == 0 && size > 0 then size else if size > Left(st) then Left(st) else 1;
    SmallU32(from.pos + want);
    SmallU32(from.pos + PacketSamples(chip));
  }

  lemma CountBounds(chip: Chip, st: State)
    requires Valid(chip, st)
    ensures st.pos <= st.count <= MaxSamples(chip)
  {
  }

  lemma Limits(chip: Chip)
    ensures MaxSamples(chip) < 0x20_0000 && PacketSamples(chip) <= 1024
  {
  }

  lemma LengthBound(chip: Chip, n: nat)
    requires n <= MaxSamples(chip)
    ensures n * SampleSize(chip) <= 0x7f_ffff
  {
    match chip
    case Adc =>
    case Ddc =>
  }

  /** The single place where get_samples can leave the buffer: a request for nothing on a drained handler. */
  lemma GetKeepsExactly(chip: Chip, st: State, size: u32, dma: Dma)
    requires Valid(chip, st) && size <= MaxSamples(chip)
    ensures Valid(chip, Get(chip, st, size, dma).0)
       <==> size > 0 || Left(st) > 0 || dma.busyPolls >= MAX_DMA_TRIES
  {
    hide Get, Capture, Land, Valid, SampleSize, MaxSamples, PacketSamples, Accepts;
    NothingWraps(chip, st, size, dma);
    CaptureKeeps(chip, st, size, dma);
    CaptureStart(chip, st, size, dma);
    LeftBounds(chip, st);
    var from := if Left(st) == 0 && size > 0 then Capture(chip, st, size, dma) else st;
    LandKeeps(chip, from, |Running(from)|);
    var (st', r) := GetPlain(chip, st, size, dma);
    if r.GetOk? {
      HandedKeeps(chip, LandAll(from), r.size);
    }
  }

  lemma LeftBounds(chip: Chip, st: State)
    requires Valid(chip, st)
    ensures Left(st) >= 0
  {
  }

  /** Handing out n more samples keeps a handler valid exactly when it has them. */
  lemma HandedKeeps(chip: Chip, st: State, n: nat)
    requires Valid(chip, st) && n > 0 && st.pos + n < TWO_32
    ensures Valid(chip, st.(pos := st.pos + n, handed := st.handed + [Range(st.pos, st.pos + n)])) <==> n <= Left(st)
  {
    hide Tiles, ValidControl;
    TilesMore(st.handed, st.pos, st.pos + n);
  }

  lemma TilesMore(rs: seq<Range>, pos: nat, next: nat)
    requires pos < next && (Tiles(rs, pos) || (rs == [] && pos == 0))
    ensures Tiles(rs + [Range(pos, next)], next)
  {
    var all := rs + [Range(pos, next)];
    assert all[..|all| - 1] == rs;
  }

  /** Which samples a successful call hands out, and from which buffer. */
  lemma GetHandsOut(chip: Chip, st: State, size: u32, dma: Dma)
    requires Valid(chip, st) && 0 < size <= MaxSamples(chip)
    ensures var (st', r) := Get(chip, st, size, dma);
            var from := if Left(st) > 0 then st else Capture(chip, st, size, dma);
            && (r.GetOk? <==> dma.busyPolls < MAX_DMA_TRIES && (Left(st) > 0 || dma.accepts))
            && (r.GetFailed? ==> st' == from)
            && (r.GetOk? ==>
                 && 1 <= r.size <= PacketSamples(chip)
                 && r.size == (if size <= Left(st) then 1
                               else if Left(from) < PacketSamples(chip) then Left(from) else PacketSamples(chip))
                 && r.byteOffset == from.pos * SampleSize(chip)
                 && r.byteOffset + r.size * SampleSize(chip) <= st'.count * SampleSize(chip)
                 && st' == LandAll(from).(pos := from.pos + r.size,
                                          handed := from.handed + [Range(from.pos, from.pos + r.size)])
                 && st'.pos <= st'.count == from.count)
  {
    hide Get, Land, Captured, ControlWord, Tiles, Accepts;
    NothingWraps(chip, st, size, dma);
    CaptureKeeps(chip, st, size, dma);
    var from := if Left(st) > 0 then st else Capture(chip, st, size, dma);
    LandKeeps(chip, from, |Running(from)|);
    match chip
    case Adc =>
    case Ddc =>
  }

  /** The bytes a successful call names; none if it fails. */
  function Named(chip: Chip, st: State, size: u32, dma: Dma): seq<byte> {
    var (st', r) := Get(chip, st, size, dma);
    if r.GetOk? && r.byteOffset + r.size * SampleSize(chip) <= |st'.memory| then
      st'.memory[r.byteOffset..r.byteOffset + r.size * SampleSize(chip)]
    else []
  }

  /** A capture counts its samples even if the transfer is refused, and the next call hands out what lay in memory
      before. So the bytes handed out are the captured ones, whatever is captured, if and only if it was accepted. */
  lemma AcceptedExactly(chip: Chip, st: State, n: u32, dma: Dma, size: u32, later: Dma)
    requires Valid(chip, st) && 0 < n <= MaxSamples(chip) && 0 < size <= MaxSamples(chip) && later.busyPolls < MAX_DMA_TRIES
    ensures forall data: nat -> byte :: Named(chip, Capture(chip, st, n, dma.(data := data)), size, later) != []
    ensures (forall data: nat -> byte ::
               Named(chip, Capture(chip, st, n, dma.(data := data)), size, later) <= Captured(chip, n, dma.(data := data)))
       <==> dma.accepts
    ensures !dma.accepts ==> forall data: nat -> byte ::
              Named(chip, Capture(chip, st, n, dma.(data := data)), size, later) <= LandAll(st).memory
  {
    hide Named, Capture, Captured, Land, SampleSize, MaxSamples, Tiles;
    LandKeeps(chip, st, |Running(st)|);
    var before := LandAll(st).memory;
    forall data: nat -> byte
      ensures var named := Named(chip, Capture(chip, st, n, dma.(data := data)), size, later);
              && named != []
              && named <= if dma.accepts then Captured(chip, n, dma.(data := data)) else LandAll(st).memory
    {
      FirstNamed(chip, st, n, dma.(data := data), size, later);
    }
    if !dma.accepts {
      var different: byte := if before[0] == 0 then 1 else 0;
      var data: nat -> byte := i => different;
      CapturedFirst(chip, n, dma.(data := data));
      assert Named(chip, Capture(chip, st, n, dma.(data := data)), size, later)[0] == before[0];
    }
  }

  /** Once it is through, an accepted transfer has replaced the start of the region and nothing else; a refused one
      has changed nothing. */
  lemma CaptureLands(chip: Chip, st: State, n: u32, dma: Dma)
    requires Valid(chip, st) && n <= MaxSamples(chip)
    ensures var m, m' := LandAll(st).memory, LandAll(Capture(chip, st, n, dma)).memory; var size := n * SampleSize(chip);
            && size <= |m| == |m'|
            && (if Accepts(chip, n, dma) then Captured(chip, n, dma) <= m' && m'[size..] == m[size..] else m' == m)
  {
    hide Captured, Accepts, SampleSize, MaxSamples, ControlWord, Tiles, ValidControl;
    CaptureKeeps(chip, st, n, dma);
    LengthBound(chip, n);
  }

  lemma CapturedFirst(chip: Chip, n: nat, dma: Dma)
    requires n > 0
    ensures Captured(chip, n, dma) != [] && Captured(chip, n, dma)[0] == dma.data(0)
  {
    hide SampleSize;
    assert n * SampleSize(chip) > 0;
  }

  lemma FirstNamed(chip: Chip, st: State, n: u32, dma: Dma, size: u32, later: Dma)
    requires Valid(chip, st) && 0 < n <= MaxSamples(chip) && 0 < size <= MaxSamples(chip) && later.busyPolls < MAX_DMA_TRIES
    ensures var named := Named(chip, Capture(chip, st, n, dma), size, later);
            && named != []
            && named <= if dma.accepts then Captured(chip, n, dma) else LandAll(st).memory
  {
    hide Get, Capture, Captured, Land, Accepts, SampleSize, MaxSamples, PacketSamples, Tiles, ValidControl;
    var from := Capture(chip, st, n, dma);
    CaptureKeeps(chip, st, n, dma);
    CaptureStart(chip, st, n, dma);
    CaptureLands(chip, st, n, dma);
    LandKeeps(chip, from, |Running(from)|);
    GetHandsOut(chip, from, size, later);
    var (st', r) := Get(chip, from, size, later);
    LengthBound(chip, n);
    SizeInBytes(r.size, n, SampleSize(chip));
  }

  lemma SizeInBytes(a: nat, b: nat, k: nat)
    requires 0 < a <= b && k > 0
    ensures 0 < a * k <= b * k
  {
    Distribute(b, a, k);
  }

  // ---------------------------------------------------------------- tiling, sample by sample

  /** Every sample below pos was handed out in exactly one range. */
  lemma {:induction false} TilesOnce(rs: seq<Range>, pos: nat, p: nat) returns (i: nat)
    requires Tiles(rs, pos) && p < pos
    ensures i < |rs| && rs[i].lo <= p < rs[i].hi
    ensures forall j | 0 <= j < |rs| && rs[j].lo <= p < rs[j].hi :: j == i
    decreases |rs|
  {
    var n := |rs| - 1;
    TilesBelow(rs[..n], rs[n].lo);
    if p < rs[n].lo {
      i := TilesOnce(rs[..n], rs[n].lo, p);
      forall j | 0 <= j < |rs| && rs[j].lo <= p < rs[j].hi ensures j == i {
        if j < n {
          assert rs[..n][j] == rs[j];
        }
      }
    } else {
      i := n;
      forall j | 0 <= j < n ensures rs[j].hi <= p {
        assert rs[..n][j] == rs[j];
      }
    }
  }

  lemma {:induction false} TilesBelow(rs: seq<Range>, pos: nat)
    requires Tiles(rs, pos)
    ensures forall j | 0 <= j < |rs| :: rs[j].lo < rs[j].hi <= pos
    ensures forall j, k | 0 <= j < k < |rs| :: rs[j].hi <= rs[k].lo
    decreases |rs|
  {
    if rs == [] {
    } else {
      var n := |rs| - 1;
      TilesBelow(rs[..n], rs[n].lo);
      forall j | 0 <= j < |rs| ensures rs[j].lo < rs[j].hi <= pos {
        if j < n {
          assert rs[..n][j] == rs[j];
        }
      }
      forall j, k | 0 <= j < k < |rs| ensures rs[j].hi <= rs[k].lo {
        assert rs[..n][j] == rs[j];
        if k < n {
          assert rs[..n][k] == rs[k];
        }
      }
    }
  }

  // ---------------------------------------------------------------- the handler object

  class LowLevelHandler {
    const chip: Chip
    var samplesCount: u32
    var samplesCountPos: u32
    var memory: seq<byte>
    var transfers: seq<seq<byte>>
    var landed: nat
    var dmaLength: u32
    var control: nat
    ghost var handed: seq<Range>
    ghost var cells: seq<Cell>
    ghost var source: Option<nat>

    ghost function Contents(): State
      reads this
    {
      State(chip, samplesCount, samplesCountPos, memory, transfers, landed, dmaLength, control, handed, cells, source)
    }

    /** The static initialiser, with whatever the buffer holds at start-up. */
    constructor (chip: Chip, memory: seq<byte>)
      ensures this.chip == chip && Contents() == Initial(chip, memory)
    {
      this.chip := chip;
      this.memory := memory;
      samplesCount, samplesCountPos, transfers, landed, dmaLength, control := 0, 0, [], 0, 0, 0;
      handed, cells, source := [], seq(|memory|, i => Plain), None;
    }

    /** Bytes stored in the region through a pointer or at an address. */
    method Store(at: nat, b: seq<byte>, ghost what: seq<Cell>)
      modifies this`memory, this`cells
      ensures Contents() == Overwritten(old(Contents()), at, b, what)
    {
      memory := Overlaid(memory, at, b);
      cells := Overlaid(cells, at, what);
    }

    /** What the engine does meanwhile. */
    method Progress(upto: nat)
      modifies this`memory, this`cells, this`landed
      ensures Contents() == Land(old(Contents()), upto)
    {
      var data := if transfers == [] then [] else transfers[|transfers| - 1];
      var n := if upto < |data| then upto else |data|;
      if n > landed {
        memory := LandedBytes(memory, data, landed, n);
        cells := LandedCells(cells, chip, |transfers| - 1, landed, n);
        landed := n;
      }
    }

    method CaptureSamples(qwCount: u32, dma: Dma) returns (ret: int)
      modifies this
      ensures Contents() == Capture(chip, old(Contents()), qwCount, dma)
      ensures ret == if Accepts(chip, qwCount, dma) then SUCCESS else ERROR
    {
      hide Land, Captured, SampleSize, Bits.BitOr, U32, S32;
      ghost var st := Contents();
      samplesCountPos := 0;
      samplesCount := qwCount;
      handed, source := [], None;
      var qwCountFix: u32 := if chip.Adc? then qwCount else U32(qwCount - 1);
      dmaLength := U32(qwCount * SampleSize(chip));
      assert Contents() == st.(count := qwCount, pos := 0, handed := [], dmaLength := dmaLength, source := None);
      if !(dma.accepts && 1 <= dmaLength <= XAXIDMA_MAX_TRANSFER_LEN) {
        return ERROR;
      }
      Progress(if transfers == [] then 0 else |transfers[|transfers| - 1]|);
      source := Some(|transfers|);
      transfers, landed := transfers + [Captured(chip, qwCount, dma)], 0;
      control := Bits.BitOr(0x20_0000, qwCountFix);
      return SUCCESS;
    }

    /** size and byteOffset are in-out in the original; on failure only size may have changed there. */
    method GetSamples(request: u32, dma: Dma) returns (ret: int, size: u32, byteOffset: u32)
      modifies this
      ensures var (st, r) := Get(chip, old(Contents()), request, dma);
              && Contents() == st
              && (if r.GetOk? then ret == SUCCESS && r == GetOk(size, byteOffset) else ret == ERROR)
    {
      hide Capture, SampleSize, U32, S32, Land, Accepts;
      S32Zero(request);
      size, byteOffset := request, 0;
      var tmpSize: int := 1;
      if U32(samplesCountPos + size) > samplesCount {
        tmpSize := S32(U32(samplesCount - samplesCountPos));
      }
      if tmpSize <= 0 {
        tmpSize := S32(size);
        if tmpSize != 0 {
          var captured := CaptureSamples(size, dma);
          if captured < 0 {
            return ERROR, size, byteOffset;
          }
        }
      }
      size := if U32(tmpSize) > PacketSamples(chip) then PacketSamples(chip) else U32(tmpSize);
      var i := 0;
      while i < MAX_DMA_TRIES && i < dma.busyPolls
        invariant i <= MAX_DMA_TRIES && i <= dma.busyPolls
      {
        i := i + 1;
      }
      if i == MAX_DMA_TRIES {
        return ERROR, size, byteOffset;
      }
      Progress(if transfers == [] then 0 else |transfers[|transfers| - 1]|);
      byteOffset := U32(samplesCountPos * SampleSize(chip));
      handed := handed + [Range(samplesCountPos, samplesCountPos + size)];
      samplesCountPos := U32(samplesCountPos + size);
      ret := SUCCESS;
    }
  }
}
