/** Moving whole packets over a stream socket that fragments as it likes. */
module Connection {
  import opened Words
  import opened Common
  import opened Codec
  import opened Wire
  import opened PackLoops
  import Formats

  /** How a transfer over the socket ended. Overrun: a text that no longer ends within send_buf was about to be
      packed, and what the program does from there on is undefined. */
  datatype Status = Full | Closed | Failed | Overrun

  // ---------------------------------------------------------------- what the network does

  function NextCut(cuts: seq<int>, len: int): int {
    if cuts == [] then len else cuts[0]
  }

  function Later(cuts: seq<int>): seq<int> {
    if cuts == [] then [] else cuts[1..]
  }

  /** Result of one receive call: an error when the cut is negative, nothing once the peer has closed, else
      at least one byte and no more than the cut, the request and the pending input allow. */
  function RecvOnce(available: nat, cut: int, len: nat): (n: int)
    requires len > 0
    ensures n <= len && n <= available
    ensures n == 0 ==> available == 0
  {
    if cut < 0 then ERROR
    else
      var most := if available < len then available else len;
      if cut < 1 && most > 1 then 1 else if cut >= 1 && cut < most then cut else most
  }

  /** Result of one send call: an error, a closed peer, or the number of bytes accepted. */
  function SendOnce(cut: int, len: nat): (n: int)
    ensures n <= len
  {
    if cut < 0 then ERROR else if cut < len then cut else len
  }

  class Socket {
    var input: seq<byte>   // bytes the peer will have sent before it closes
    var cuts: seq<int>     // how the network fragments receives; unlimited when exhausted
    var plan: seq<int>     // how much each send accepts; everything when exhausted
    var output: seq<byte>  // bytes accepted for the peer

    constructor (input: seq<byte>, cuts: seq<int>, plan: seq<int>)
      ensures this.input == input && this.cuts == cuts && this.plan == plan && output == []
    {
      this.input, this.cuts, this.plan, this.output := input, cuts, plan, [];
    }

    /** lwip_recv */
    method Recv(buf: array<byte>, at: nat, len: nat) returns (n: int)
      requires 0 < len && at + len <= buf.Length
      modifies this`input, this`cuts, buf
      ensures n == RecvOnce(|old(input)|, NextCut(old(cuts), len), len) && cuts == Later(old(cuts))
      ensures n >= 0 ==> input == old(input)[n..] && buf[..] == Written(old(buf[..]), at, old(input)[..n])
      ensures n < 0 ==> input == old(input) && buf[..] == old(buf[..])
    {
      n := RecvOnce(|input|, NextCut(cuts, len), len);
      cuts := Later(cuts);
      if n >= 0 {
        CopyBytes(buf, at, input[..n]);
        input := input[n..];
      }
    }

    /** lwip_send */
    method Send(buf: array<byte>, from: nat, len: nat) returns (n: int)
      requires from + len <= buf.Length
      modifies this`plan, this`output
      ensures n == SendOnce(NextCut(old(plan), len), len) && plan == Later(old(plan))
      ensures output == old(output) + if n < 0 then [] else buf[from..from + n]
    {
      n := SendOnce(NextCut(plan, len), len);
      plan := Later(plan);
      if n >= 0 {
        output := output + buf[from..from + n];
      }
    }
  }

  // ---------------------------------------------------------------- recvall and sendall

  datatype Received = Received(data: seq<byte>, input: seq<byte>, cuts: seq<int>, status: Status)

  function RecvAll(input: seq<byte>, cuts: seq<int>, len: nat): (r: Received)
    ensures input == r.data + r.input && |r.data| <= len
    ensures r.status.Full? <==> |r.data| == len
  {
    if len == 0 then Received([], input, cuts, Full)
    else
      hide RecvOnce;
      var n := RecvOnce(|input|, NextCut(cuts, len), len);
      if n < 0 then Received([], input, Later(cuts), Failed)
      else if n == 0 then Received([], input, Later(cuts), Closed)
      else
        var r := RecvAll(input[n..], Later(cuts), len - n);
        assert input == input[..n] + (r.data + r.input) == (input[..n] + r.data) + r.input;
        Received(input[..n] + r.data, r.input, r.cuts, r.status)
  }

  predicate NoErrors(cuts: seq<int>) {
    forall i | 0 <= i < |cuts| :: cuts[i] >= 0
  }

  /** Without receive errors the fragmentation does not matter: recvall takes the next len bytes, or
      drains a shorter stream and reports it closed. */
  lemma {:induction false} RecvUnfragmented(input: seq<byte>, cuts: seq<int>, len: nat)
    requires NoErrors(cuts)
    ensures var r := RecvAll(input, cuts, len);
            && NoErrors(r.cuts)
            && (if |input| >= len then r.status == Full && r.data == input[..len] && r.input == input[len..]
                else r.status == Closed && r.data == input && r.input == [])
    decreases len
  {
    if len == 0 {
      assert input[..0] == [] && input[0..] == input;
    } else {
      var n := RecvOnce(|input|, NextCut(cuts, len), len);
      assert n >= 0;
      hide RecvOnce;
      if n > 0 {
        RecvUnfragmented(input[n..], Later(cuts), len - n);
        SplitAt(input, n, len);
      }
    }
  }

  lemma SplitAt(input: seq<byte>, n: nat, len: nat)
    requires n <= len && n <= |input|
    ensures input[..n] + input[n..] == input
    ensures |input| >= len ==> input[..n] + input[n..][..len - n] == input[..len] && input[n..][len - n..] == input[len..]
  {
  }

  datatype Sent = Sent(count: nat, plan: seq<int>, status: Status)

  function SendAll(plan: seq<int>, len: nat): (r: Sent)
    ensures r.count <= len
    ensures (r.status.Full? <==> r.count == len) && !r.status.Overrun?
  {
    if len == 0 then Sent(0, plan, Full)
    else
      var n := SendOnce(NextCut(plan, len), len);
      if n < 0 then Sent(0, Later(plan), Failed)
      else if n == 0 then Sent(0, Later(plan), Closed)
      else
        var r := SendAll(Later(plan), len - n);
        r.(count := n + r.count)
  }

  predicate Progress(plan: seq<int>) {
    forall i | 0 <= i < |plan| :: plan[i] > 0
  }

  /** While every send accepts something, sendall delivers everything. */
  lemma {:induction false} SendUnfragmented(plan: seq<int>, len: nat)
    requires Progress(plan)
    ensures var r := SendAll(plan, len); r.status == Full && r.count == len && Progress(r.plan)
    decreases len
  {
    if len == 0 {
    } else {
      SendUnfragmented(Later(plan), len - SendOnce(NextCut(plan, len), len));
    }
  }

  function ReturnValue(status: Status, len: nat): int {
    match status
    case Full => len
    case Closed => 0
    case _ => ERROR
  }

  lemma RecvNothing(input: seq<byte>, cuts: seq<int>)
    ensures RecvAll(input, cuts, 0) == Received([], input, cuts, Full)
  {
  }

  lemma RecvStep(input: seq<byte>, cuts: seq<int>, len: nat)
    requires len > 0
    ensures var n := RecvOnce(|input|, NextCut(cuts, len), len);
            && (n <= 0 ==> RecvAll(input, cuts, len) == Received([], input, Later(cuts), if n < 0 then Failed else Closed))
            && (n > 0 ==>
                  var r := RecvAll(input[n..], Later(cuts), len - n);
                  RecvAll(input, cuts, len) == Received(input[..n] + r.data, r.input, r.cuts, r.status))
  {
    hide RecvOnce, NextCut, Later;
  }

  method RecvAllLoop(sock: Socket, buf: array<byte>, len: nat) returns (ret: int)
    requires len <= buf.Length
    modifies sock`input, sock`cuts, buf
    ensures var r := RecvAll(old(sock.input), old(sock.cuts), len);
            && sock.input == r.input && sock.cuts == r.cuts && ret == ReturnValue(r.status, len)
            && buf[..] == Written(old(buf[..]), 0, r.data)
  {
    hide RecvOnce, RecvAll, Written, NextCut, Later;
    var bytesRecvd: nat := 0;
    ghost var r := RecvAll(sock.input, sock.cuts, len);
    ghost var data, s := [], buf[..];
    WrittenNothing(s, 0);
    assert data + r.data == r.data;
    while bytesRecvd < len
      invariant bytesRecvd == |data| <= len
      invariant var t := RecvAll(sock.input, sock.cuts, len - bytesRecvd);
                r == Received(data + t.data, t.input, t.cuts, t.status)
      invariant buf[..] == Written(s, 0, data)
      decreases len - bytesRecvd
    {
      ghost var chunk := sock.input;
      RecvStep(sock.input, sock.cuts, len - bytesRecvd);
      var n := sock.Recv(buf, bytesRecvd, len - bytesRecvd);
      if n < 0 {
        assert data + [] == data;
        return ERROR;
      }
      if n == 0 {
        assert data + [] == data && chunk[..0] == [] && chunk[0..] == chunk;
        WrittenNothing(Written(s, 0, data), bytesRecvd);
        return 0;
      }
      ghost var u := RecvAll(sock.input, sock.cuts, len - bytesRecvd - n);
      assert data + (chunk[..n] + u.data) == data + chunk[..n] + u.data;
      WrittenTwice(s, 0, data, chunk[..n]);
      bytesRecvd := bytesRecvd + n;
      data := data + chunk[..n];
    }
    RecvNothing(sock.input, sock.cuts);
    assert data + [] == data;
    ret := bytesRecvd;
  }

  lemma SendStep(plan: seq<int>, len: nat)
    ensures len == 0 ==> SendAll(plan, len) == Sent(0, plan, Full)
    ensures len > 0 ==>
              var n := SendOnce(NextCut(plan, len), len);
              && (n <= 0 ==> SendAll(plan, len) == Sent(0, Later(plan), if n < 0 then Failed else Closed))
              && (n > 0 ==> var r := SendAll(Later(plan), len - n); SendAll(plan, len) == r.(count := n + r.count))
  {
    hide SendOnce, NextCut, Later;
  }

  method SendAllLoop(sock: Socket, buf: array<byte>, len: nat) returns (ret: int)
    requires len <= buf.Length
    modifies sock`plan, sock`output
    ensures var r := SendAll(old(sock.plan), len);
            && sock.plan == r.plan && ret == ReturnValue(r.status, len)
            && sock.output == old(sock.output) + buf[..r.count]
  {
    hide SendOnce, SendAll, NextCut, Later;
    var bytesSent: nat := 0;
    ghost var r, out, s := SendAll(sock.plan, len), sock.output, buf[..];
    assert s[..0] == [];
    while bytesSent < len
      invariant bytesSent <= len
      invariant var t := SendAll(sock.plan, len - bytesSent); r == t.(count := bytesSent + t.count)
      invariant sock.output == out + s[..bytesSent]
      decreases len - bytesSent
    {
      SendStep(sock.plan, len - bytesSent);
      var n := sock.Send(buf, bytesSent, len - bytesSent);
      assert n >= 0 ==> buf[bytesSent..bytesSent + n] == s[bytesSent..bytesSent + n];
      if n < 0 {
        return ERROR;
      }
      if n == 0 {
        return 0;
      }
      assert s[..bytesSent] + s[bytesSent..bytesSent + n] == s[..bytesSent + n];
      bytesSent := bytesSent + n;
    }
    SendStep(sock.plan, 0);
    ret := bytesSent;
  }

  // ---------------------------------------------------------------- commands in

  datatype Incoming = Arrived(command: Command) | PeerClosed | RecvFailed

  /** recv_command_packet: a command only ever comes from 16 whole bytes. */
  function RecvCommand(input: seq<byte>, cuts: seq<int>): (r: (Incoming, Received))
    ensures r.0.Arrived? <==> r.1.status.Full?
    ensures r.0.Arrived? ==> |input| == |r.1.input| + COMMAND_PACKET_SIZE
  {
    var r := RecvAll(input, cuts, COMMAND_PACKET_SIZE);
    match r.status
    case Full => (Arrived(CommandOf(r.data)), r)
    case Closed => (PeerClosed, r)
    case _ => (RecvFailed, r)
  }

  method RecvCommandPacket(sock: Socket) returns (ret: int, command: Command)
    modifies sock`input, sock`cuts
    ensures var (i, r) := RecvCommand(old(sock.input), old(sock.cuts));
            && sock.input == r.input && sock.cuts == r.cuts
            && ret == (match i case Arrived(_) => COMMAND_PACKET_SIZE as int case PeerClosed => 0 case RecvFailed => ERROR)
            && (i.Arrived? ==> command == i.command)
  {
    hide CommandOf, RecvAll, Formats.Decode;
    command := Command(0, 0, 0, 0);
    var recvBuf := new byte[COMMAND_PACKET_SIZE](_ => 0);
    ghost var r := RecvAll(sock.input, sock.cuts, COMMAND_PACKET_SIZE);
    ret := RecvAllLoop(sock, recvBuf, COMMAND_PACKET_SIZE);
    if ret <= 0 {
      return;
    }
    assert recvBuf[..] == r.data + [];
    CommandDecoding(r.data, []);
    assert recvBuf[0..] == recvBuf[..];
    var fields := Unpack(recvBuf, 0, "LLLL");
    command := Command(fields[0].i, fields[1].i, fields[2].i, fields[3].i);
  }

  /** The commands of a connection: decode 16-byte blocks until the stream ends; a partial block is no command. */
  function Blocks(input: seq<byte>): seq<Command> {
    if |input| < COMMAND_PACKET_SIZE then []
    else [CommandOf(input[..COMMAND_PACKET_SIZE])] + Blocks(input[COMMAND_PACKET_SIZE..])
  }

  /** The commands delivered by receiving until the first call that delivers none, and how that call ended. */
  function ReceiveUntilEnd(input: seq<byte>, cuts: seq<int>): (seq<Command>, Incoming)
    decreases |input|
  {
    var (i, r) := RecvCommand(input, cuts);
    if !i.Arrived? then ([], i)
    else
      var (cs, last) := ReceiveUntilEnd(r.input, r.cuts);
      ([i.command] + cs, last)
  }

  /** However the network fragments the stream, the same commands arrive and the connection ends as closed. */
  lemma {:induction false} ReceiveUnfragmented(input: seq<byte>, cuts: seq<int>)
    requires NoErrors(cuts)
    ensures ReceiveUntilEnd(input, cuts) == (Blocks(input), PeerClosed)
    decreases |input|
  {
    hide CommandOf, RecvAll;
    RecvUnfragmented(input, cuts, COMMAND_PACKET_SIZE);
    if |input| >= COMMAND_PACKET_SIZE {
      var (i, r) := RecvCommand(input, cuts);
      ReceiveUnfragmented(r.input, r.cuts);
    }
  }

  // ---------------------------------------------------------------- responses out

  /** prepare_to_write_response: lays the frame out at the start of the buffer. */
  method PrepareToWriteResponse(sendBuf: array<byte>, len: int, r: Response) returns (n: int)
    requires sendBuf.Length == RESPONSE_PACKET_SIZE && (len > RESPONSE_PACKET_HEADER_SIZE ==> InBuffer(r))
    modifies sendBuf
    ensures len <= RESPONSE_PACKET_HEADER_SIZE ==> n == ERROR
    ensures len > RESPONSE_PACKET_HEADER_SIZE ==> n == |Frame(r)| && sendBuf[..] == Written(old(sendBuf[..]), 0, Frame(r))
  {
    hide BigEndian, Formats.Encode, Formats.Accepts, Formats.Decode, Formats.Decimal, Written;
    if len <= RESPONSE_PACKET_HEADER_SIZE {
      return ERROR;
    }
    ghost var s := sendBuf[..];
    FrameSize(r);
    HeaderEncoding(r.comm, r.num, []);
    var bytesPacked := Pack(sendBuf, 0, "LL", [Int(r.comm), Int(r.num)]);
    assert sendBuf[..] == Written(s, 0, Header(r)) && bytesPacked == 8;
    if CarriesData(r.comm) {
      CopyBytes(sendBuf, bytesPacked, r.body);
      WrittenTwice(s, 0, Header(r), r.body);
      n := bytesPacked + r.num;
    } else {
      TextEncoding(r.body, r.num, []);
      var more := Pack(sendBuf, bytesPacked, Formats.Decimal(r.num) + "s", [Str(r.body)]);
      WrittenTwice(s, 0, Header(r), BigEndian(2, |r.body|) + r.body);
      n := bytesPacked + more;
    }
  }

  /** send_response_packet: an empty packet is refused, a text without an end is lost, everything else is handed
      to sendall. */
  function SendResponse(plan: seq<int>, r: Response): (s: Sent)
    ensures s.count <= |Frame(r)|
  {
    if r.num == 0 then Sent(0, plan, Failed)
    else if !InBuffer(r) then Sent(0, plan, Overrun)
    else SendAll(plan, |Frame(r)|)
  }

  method SendResponsePacket(sock: Socket, r: Response) returns (ret: int)
    requires r.num <= RESPONSE_PACKET_BUF_SIZE && (r.num == 0 || InBuffer(r))
    modifies sock`plan, sock`output
    ensures var t := SendResponse(old(sock.plan), r);
            && sock.plan == t.plan && ret == ReturnValue(t.status, |Frame(r)|)
            && sock.output == old(sock.output) + Frame(r)[..t.count]
  {
    hide Frame, SendAll;
    var sendBuf := new byte[RESPONSE_PACKET_SIZE](_ => 0);
    var n := PrepareToWriteResponse(sendBuf, S32(U32(r.num + RESPONSE_PACKET_HEADER_SIZE)), r);
    if n < 0 {
      assert sock.output + Frame(r)[..0] == sock.output;
      return ERROR;
    }
    FrameSize(r);
    ret := SendAllLoop(sock, sendBuf, n);
    ghost var t := SendAll(old(sock.plan), |Frame(r)|);
    assert sendBuf[..t.count] == Frame(r)[..t.count];
  }

  // ---------------------------------------------------------------- transfers that stop

  function Total(plan: seq<int>): int {
    if plan == [] then 0 else plan[0] + Total(plan[1..])
  }

  /** sendall stops at the first send that accepts nothing, with what was accepted before: the peer has closed if that
      send returned 0, and an error occurred if it returned less. */
  lemma {:induction false} SendStops(plan: seq<int>, len: nat, k: nat)
    requires k < |plan| && plan[k] <= 0 && (forall i | 0 <= i < k :: plan[i] > 0) && Total(plan[..k]) < len
    ensures var n := Total(plan[..k]);
            n >= 0 && SendAll(plan, len) == Sent(n, plan[k + 1..], if plan[k] < 0 then Failed else Closed)
    decreases k
  {
    if k > 0 {
      assert plan[..k][1..] == plan[1..][..k - 1] && plan[1..][k..] == plan[k + 1..];
      TotalPositive(plan[1..][..k - 1]);
      SendStops(plan[1..], len - plan[0], k - 1);
    }
  }

  lemma {:induction false} TotalPositive(plan: seq<int>)
    requires forall i | 0 <= i < |plan| :: plan[i] > 0
    ensures Total(plan) >= 0
  {
    if plan != [] {
      TotalPositive(plan[1..]);
    }
  }

  /** recvall stops at the first receive that fails, and what came before is lost to the caller. */
  lemma {:induction false} RecvStops(input: seq<byte>, cuts: seq<int>, len: nat, k: nat)
    requires k < |cuts| && cuts[k] < 0 && (forall i | 0 <= i < k :: cuts[i] > 0)
    requires Total(cuts[..k]) < len && Total(cuts[..k]) < |input|
    ensures var r := RecvAll(input, cuts, len); var n := Total(cuts[..k]);
            n >= 0 && r == Received(input[..n], input[n..], cuts[k + 1..], Failed)
    decreases k
  {
    hide RecvAll;
    TotalPositive(cuts[..k]);
    RecvStep(input, cuts, len);
    if k == 0 {
      assert input[..0] == [] && input[0..] == input;
    } else {
      var n, later := cuts[0], cuts[1..];
      assert cuts[..k][1..] == later[..k - 1] && later[k..] == cuts[k + 1..];
      TotalPositive(later[..k - 1]);
      RecvStops(input[n..], later, len - n, k - 1);
      Regroup(input, n, Total(later[..k - 1]));
    }
  }

  lemma Regroup(s: seq<byte>, n: nat, m: nat)
    requires n + m <= |s|
    ensures s[..n] + s[n..][..m] == s[..n + m] && s[n..][m..] == s[n + m..]
  {
  }

  /** What becomes of a response: nothing is sent for an empty one, one whose text does not end in time is lost, and any
      other reaches the peer if every send makes progress. */
  lemma ResponseSent(plan: seq<int>, r: Response)
    ensures r.num == 0 ==> SendResponse(plan, r) == Sent(0, plan, Failed)
    ensures r.num > 0 && !InBuffer(r) ==> SendResponse(plan, r) == Sent(0, plan, Overrun)
    ensures r.num > 0 && InBuffer(r) && Progress(plan) ==>
              SendResponse(plan, r).status == Full && SendResponse(plan, r).count == |Frame(r)|
  {
    if Progress(plan) {
      SendUnfragmented(plan, |Frame(r)|);
    }
  }
}
