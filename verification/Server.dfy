/** The connection loop: read a command, answer it with as many packets as it takes, repeat until the stream ends. */
module Server {
  import opened Words
  import opened Common
  import opened LowLevel
  import opened Wire
  import opened Requests
  import Connection

  // ---------------------------------------------------------------- what a connection does

  /** Around one handle_request of this connection: the calls other connections make before it, the hardware, and
      the calls others make between it and the copying of the payload, and how far the engines have got by then. */
  datatype Turn = Turn(others: seq<Call>, env: Env, between: seq<Call>, copy: Landing)

  ghost predicate GoodTurns(turns: nat -> Turn) {
    forall k :: (forall c | c in turns(k).others :: GoodCall(c)) && (forall c | c in turns(k).between :: GoodCall(c))
  }

  /** One call of send_response_packet. */
  datatype Attempt = Attempt(response: Response, ok: bool, delivered: Connection.Status)

  /** A received command with the response attempts it caused. */
  datatype Exchange = Exchange(command: Command, attempts: seq<Attempt>)

  /** The connection between two passes of a loop: the shared handlers, the send side of the socket, the
      response packet on the stack, the sticky error flag and the number of handle_request calls so far. */
  datatype Conn = Conn(board: Board, plan: seq<int>, packet: Packet, error: bool, calls: nat)

  ghost predicate ValidConn(c: Conn) {
    ValidBoard(c.board) && ValidPacket(c.packet)
  }

  datatype Served = Served(conn: Conn, attempts: seq<Attempt>, output: seq<byte>)

  /** One handle_request and one send_response_packet, which reads the payload through the packet's pointer. */
  ghost function Step(c: Conn, cmd: Command, turns: nat -> Turn, text: Texts): (r: (Conn, Attempt, seq<byte>))
    requires ValidConn(c) && Admitted(cmd) && GoodTurns(turns) && GoodTexts(text)
    ensures ValidConn(r.0)
    ensures r.1.response == Fetch(r.0.board, r.0.packet) && (r.1.ok ==> r.1.response.num > 0)
    ensures r.0.error == (c.error || !r.1.ok) && r.0.calls == c.calls + 1
  {
    var turn := turns(c.calls);
    var before := Interleave(c.board, turn.others, text);
    EffectKeeps(before, cmd, turn.env);
    HandleKeeps(before, c.packet, cmd, turn.env, text);
    AnswerCounts(before, c.packet, cmd, turn.env, text);
    var (after, packet, o) := Handle(before, c.packet, cmd, turn.env, text);
    LandBoardKeeps(Interleave(after, turn.between, text), turn.copy);
    var board := LandBoard(Interleave(after, turn.between, text), turn.copy);
    var response := Fetch(board, packet);
    var sent := Connection.SendResponse(c.plan, response);
    (Conn(board, sent.plan, packet, c.error || Fails(o), c.calls + 1), Attempt(response, !Fails(o), sent.status),
     Frame(response)[..sent.count])
  }

  lemma AnswerCounts(b: Board, p: Packet, c: Command, env: Env, text: Texts)
    requires ValidBoard(b) && Admitted(c) && GoodTexts(text)
    ensures var (b', p', o) := Handle(b, p, c, env, text); Fails(o) || p'.num > 0
  {
    hide Valid, Get, Capture, Land, LandBoard, StoreWord, ReadWord;
    LandBoardKeeps(b, env.early);
    EffectKeeps(LandBoard(b, env.early), c, env);
  }

  /** The packet was not sent as a whole in a way that ends the inner loop. */
  predicate Breaks(a: Attempt) {
    a.delivered.Failed? || a.delivered.Overrun?
  }

  /** The inner loop of process_client_request. */
  ghost function Serve(c: Conn, cmd: Command, remaining: int, turns: nat -> Turn, text: Texts): (s: Served)
    requires ValidConn(c) && GoodTurns(turns) && GoodTexts(text) && (remaining > 0 ==> Admitted(cmd))
    ensures ValidConn(s.conn)
    decreases if c.error then 0 else 1, remaining
  {
    if remaining <= 0 || c.error then Served(c, [], [])
    else
      var (c', a, out) := Step(c, cmd, turns, text);
      if Breaks(a) then Served(c', [a], out)
      else
        var rest := Serve(c', cmd, if a.ok then remaining - a.response.num else remaining + 1, turns, text);
        Served(rest.conn, [a] + rest.attempts, out + rest.output)
  }

  datatype Ended = Ended(conn: Conn, input: seq<byte>, cuts: seq<int>, log: seq<Exchange>, output: seq<byte>)

  /** The last packet overran send_buf: the run is not followed any further. */
  predicate Lost(attempts: seq<Attempt>) {
    attempts != [] && attempts[|attempts| - 1].delivered.Overrun?
  }

  /** process_client_request, until the peer closes, a receive fails or a text overruns send_buf. */
  ghost function Session(c: Conn, input: seq<byte>, cuts: seq<int>, turns: nat -> Turn, text: Texts): (e: Ended)
    requires ValidConn(c) && GoodTurns(turns) && GoodTexts(text)
    ensures ValidConn(e.conn)
    decreases |input|
  {
    var (i, r) := Connection.RecvCommand(input, cuts);
    if !i.Arrived? then Ended(c, r.input, r.cuts, [], [])
    else
      var s := Serve(c, i.command, PrepareToHandle(i.command), turns, text);
      var rest := if Lost(s.attempts) then Ended(s.conn, r.input, r.cuts, [], [])
                  else Session(s.conn, r.input, r.cuts, turns, text);
      rest.(log := [Exchange(i.command, s.attempts)] + rest.log, output := s.output + rest.output)
  }

  lemma ServeStep(c: Conn, cmd: Command, remaining: int, turns: nat -> Turn, text: Texts)
    requires ValidConn(c) && GoodTurns(turns) && GoodTexts(text) && (remaining > 0 ==> Admitted(cmd))
    ensures remaining <= 0 || c.error ==> Serve(c, cmd, remaining, turns, text) == Served(c, [], [])
    ensures remaining > 0 && !c.error ==>
              var (c', a, out) := Step(c, cmd, turns, text);
              var rest := Serve(c', cmd, if a.ok then remaining - a.response.num else remaining + 1, turns, text);
              Serve(c, cmd, remaining, turns, text)
                == if Breaks(a) then Served(c', [a], out)
                   else Served(rest.conn, [a] + rest.attempts, out + rest.output)
  {
    hide Step, PrepareToHandle, ValidConn, GoodTurns, GoodTexts, Admitted, Breaks, Fetch;
  }

  lemma SessionStep(c: Conn, input: seq<byte>, cuts: seq<int>, turns: nat -> Turn, text: Texts)
    requires ValidConn(c) && GoodTurns(turns) && GoodTexts(text)
    ensures var (i, r) := Connection.RecvCommand(input, cuts);
            if !i.Arrived? then Session(c, input, cuts, turns, text) == Ended(c, r.input, r.cuts, [], [])
            else
              var s := Serve(c, i.command, PrepareToHandle(i.command), turns, text);
              var rest := if Lost(s.attempts) then Ended(s.conn, r.input, r.cuts, [], [])
                          else Session(s.conn, r.input, r.cuts, turns, text);
              Session(c, input, cuts, turns, text)
                == rest.(log := [Exchange(i.command, s.attempts)] + rest.log, output := s.output + rest.output)
  {
    hide Serve, PrepareToHandle, Connection.RecvCommand, ValidConn, GoodTurns, GoodTexts, Lost;
  }

  // ---------------------------------------------------------------- the objects

  /** struct response_packet, with the memory its pointer refers to before the first transfer. */
  class ResponsePacket {
    var comm: u32
    var num: u32
    var buf: Pointer
    var outside: seq<byte>

    function Value(): Packet
      reads this
    {
      Packet(comm, num, buf, outside)
    }

    constructor (p: Packet)
      ensures Value() == p
    {
      comm, num, buf, outside := p.comm, p.num, p.buf, p.outside;
    }
  }

  class AcquisitionServer {
    const adc: LowLevelHandler
    const ddc: LowLevelHandler
    const text: Texts

    ghost predicate Wired() {
      adc != ddc && adc.chip == Adc && ddc.chip == Ddc && GoodTexts(text)
    }

    ghost function Board(): Board
      reads adc, ddc
    {
      Requests.Board(adc.Contents(), ddc.Contents())
    }

    constructor (text: Texts, adcMemory: seq<byte>, ddcMemory: seq<byte>)
      requires GoodTexts(text)
      requires |adcMemory| == |ddcMemory| == REGION_SIZE
      ensures Wired() && this.text == text && fresh(adc) && fresh(ddc)
      ensures ValidBoard(Board()) && Left(Board().adc) == Left(Board().ddc) == 0
    {
      this.text := text;
      adc := new LowLevelHandler(Adc, adcMemory);
      ddc := new LowLevelHandler(Ddc, ddcMemory);
    }

    /** The engines work on. */
    method Advance(l: Landing)
      requires Wired()
      modifies adc, ddc
      ensures Board() == LandBoard(old(Board()), l)
    {
      hide Land;
      adc.Progress(l.adc);
      ddc.Progress(l.ddc);
    }

    /** sprintf or memcpy through the pointer of the packet. */
    method Print(resp: ResponsePacket, bytes: seq<byte>, ghost what: seq<Cell>)
      requires Wired()
      modifies adc, ddc, resp
      ensures (Board(), resp.Value()) == Requests.Print(old(Board()), old(resp.Value()), bytes, what)
    {
      match resp.buf
      case Outside => resp.outside := Overlaid(resp.outside, 0, bytes);
      case Into(chip, offset) =>
        if chip.Adc? {
          adc.Store(offset, bytes, what);
        } else {
          ddc.Store(offset, bytes, what);
        }
    }

    method Message(resp: ResponsePacket, m: Message, late: Landing)
      requires Wired() && |text(m)| <= 4094
      modifies adc, ddc, resp
      ensures (Board(), resp.Value()) == Respond(LandBoard(old(Board()), late), old(resp.Value()), Done(m), text)
      ensures resp.num == |text(m)| + 1
    {
      hide LandBoard, Requests.Print;
      Advance(late);
      resp.comm, resp.num := MESSAGE, |text(m)| + 1;
      KeepsHeader(Board(), resp.Value(), text(m) + [0], Plains(|text(m)| + 1));
      Print(resp, text(m) + [0], Plains(|text(m)| + 1));
    }

    method CaptureRequest(h: LowLevelHandler, val: u32, maxSamples: nat, env: Env, resp: ResponsePacket)
      returns (ret: int)
      requires Wired() && (h == adc || h == ddc) && maxSamples == MaxSamples(h.chip)
      modifies adc, ddc, resp
      ensures var (b, o) := CaptureEffect(old(Board()), h.chip, val, env.dma);
              && (Board(), resp.Value()) == Respond(LandBoard(b, env.late), old(resp.Value()), o, text)
              && ret == if Fails(o) then ERROR else resp.num
    {
      hide Capture, LandBoard, Accepts;
      if val > maxSamples {
        Message(resp, InvalidValue(maxSamples), env.late);
        return ERROR;
      }
      var error := h.CaptureSamples(val, env.dma);
      assert Board() == CaptureEffect(old(Board()), h.chip, val, env.dma).0;
      if error < 0 {
        Message(resp, CaptureError, env.late);
        return ERROR;
      }
      Message(resp, CaptureStarted, env.late);
      ret := resp.num;
    }

    method GetRequest(h: LowLevelHandler, val: u32, attr: Attributes, tags: Tags, env: Env, resp: ResponsePacket)
      returns (ret: int)
      requires Wired() && (h == adc || h == ddc) && ValidBoard(Board()) && val > 0
      requires attr == Attributes(MaxSamples(h.chip), SampleSize(h.chip))
      requires tags == GetResponseHandler(GetCommand(h.chip)).value
      modifies adc, ddc, resp
      ensures var (b, o) := GetEffect(old(Board()), h.chip, val, env.dma);
              && (Board(), resp.Value()) == Respond(LandBoard(b, env.late), old(resp.Value()), o, text)
              && ret == if Fails(o) then ERROR else resp.num
    {
      hide Get, Capture, Valid, SampleSize, MaxSamples, GetResponseHandler, LandBoard;
      if val > attr.maxSamples {
        Message(resp, InvalidValue(attr.maxSamples), env.late);
        return ERROR;
      }
      ghost var st := h.Contents();
      assert st == Board().Of(h.chip);
      var error, size, byteOffset := h.GetSamples(val, env.dma);
      assert Board() == GetEffect(old(Board()), h.chip, val, env.dma).0;
      if error < 0 {
        assert Get(h.chip, st, val, env.dma).1.GetFailed?;
        Message(resp, GetError, env.late);
        return ERROR;
      }
      PayloadInBuffer(h.chip, st, val, env.dma);
      Advance(env.late);
      resp.buf := Into(h.chip, byteOffset);
      resp.comm := if byteOffset == 0 then tags.newData else tags.remainingData;
      resp.num := size * attr.sampleSize;
      ret := resp.num;
    }

    /** write_soft_register */
    method WriteWord(addr: u32, val: u32)
      requires Wired()
      modifies adc, ddc
      ensures Board() == StoreWord(old(Board()), addr, val)
    {
      var place := Place(addr);
      if place.Some? {
        var (chip, at) := place.value;
        if chip.Adc? {
          adc.Store(at, HostBytes(val), Plains(4));
        } else {
          ddc.Store(at, HostBytes(val), Plains(4));
        }
      }
    }

    /** read_soft_register */
    method FetchWord(addr: u32, regValue: u32) returns (bytes: seq<byte>)
      requires Wired() && ValidBoard(Board())
      ensures |adc.memory| == |ddc.memory| == REGION_SIZE && bytes == ReadWord(Board(), addr, regValue).0
    {
      hide HostBytes, Place, Tiles, ValidControl;
      PlaceInRegion(addr);
      ValidMemory(Board());
      var place := Place(addr);
      if place.None? {
        return HostBytes(regValue);
      }
      var (chip, at) := place.value;
      bytes := if chip.Adc? then adc.memory[at..at + 4] else ddc.memory[at..at + 4];
    }

    /** handle_request; the engines work on before the command is carried out and before it is answered. */
    method HandleRequest(c: Command, resp: ResponsePacket, env: Env) returns (ret: int)
      requires Wired() && ValidBoard(Board()) && Admitted(c)
      modifies adc, ddc, resp
      ensures var (b, p, o) := Handle(old(Board()), old(resp.Value()), c, env, text);
              && Board() == b && resp.Value() == p
              && ret == if Fails(o) then ERROR else resp.num
    {
      hide Valid, Get, Capture, CaptureEffect, GetEffect, Requests.Print, LandBoard, StoreWord, ReadWord;
      LandBoardKeeps(Board(), env.early);
      Advance(env.early);
      var attr := GetCommandHandler(c.comm);
      if attr.None? {
        Advance(env.late);
        return ERROR;
      }
      var tags := GetResponseHandler(c.comm);
      if tags.None? {
        Advance(env.late);
        return ERROR;
      }
      var chip := GetLowLevelHandler(c.comm);
      if chip.None? {
        Advance(env.late);
        return ERROR;
      }
      if c.comm == FMC150_CAPTURE || c.comm == DDC_CAPTURE {
        var h := if chip.value.value.Adc? then adc else ddc;
        ret := CaptureRequest(h, c.val, attr.value.maxSamples, env, resp);
      } else if c.comm == FMC150_GET_SAMPLES || c.comm == DDC_GET_SAMPLES {
        var h := if chip.value.value.Adc? then adc else ddc;
        AdmittedGet(c, chip.value.value);
        ret := GetRequest(h, c.val, attr.value, tags.value, env, resp);
      } else if c.comm == FMC150_READ && !env.spiReady {
        Message(resp, ReadError, env.late);
        ret := ERROR;
      } else if c.comm == FMC150_READ || c.comm == SOFT_REG_READ {
        var bytes := HostBytes(env.regValue);
        ghost var cells := Plains(4);
        if c.comm == SOFT_REG_READ {
          ValidMemory(Board());
          cells := ReadWord(Board(), c.addr, env.regValue).1;
          bytes := FetchWord(c.addr, env.regValue);
        }
        Advance(env.late);
        resp.comm, resp.num := tags.value.newData, 4;
        KeepsHeader(Board(), resp.Value(), bytes, cells);
        Print(resp, bytes, cells);
        ret := resp.num;
      } else if c.comm == FMC150_WRITE || c.comm == SOFT_REG_WRITE {
        if c.comm == SOFT_REG_WRITE {
          WriteWord(c.addr, c.val);
        }
        Message(resp, WriteOk, env.late);
        ret := resp.num;
      } else if c.comm == LED_READ {
        Message(resp, LedValue(env.regValue), env.late);
        ret := resp.num;
      } else {
        Message(resp, LedWritten, env.late);
        ret := resp.num;
      }
    }

    /** What send_response_packet finds behind the pointer. */
    method Read(resp: ResponsePacket) returns (r: Response)
      requires Wired() && ValidBoard(Board()) && ValidPacket(resp.Value())
      ensures r == Fetch(Board(), resp.Value())
    {
      var h := if resp.buf.Into? && resp.buf.chip.Ddc? then ddc else adc;
      var s := if resp.buf.Outside? then resp.outside else h.memory[resp.buf.offset..];
      assert s == Pointed(Board(), resp.Value());
      r := Response(resp.comm, resp.num,
                    if CarriesData(resp.comm) then s[..resp.num] else CText(s[..RESPONSE_PACKET_BUF_SIZE - 1]));
    }

    /** What other connections do to the shared handlers before this one goes on. */
    method Interfere(calls: seq<Call>)
      requires Wired() && ValidBoard(Board()) && forall c | c in calls :: GoodCall(c)
      modifies adc, ddc
      ensures Board() == Interleave(old(Board()), calls, text)
      decreases |calls|
    {
      hide ValidBoard, Handle, LandBoard, Admitted, ValidPacket;
      if calls == [] {
        return;
      }
      assert GoodCall(calls[0]);
      match calls[0] {
        case Pause(l) =>
          LandBoardKeeps(Board(), l);
          Advance(l);
        case Call(command, env, packet) =>
          var theirs := new ResponsePacket(packet);
          HandleKeeps(Board(), packet, command, env, text);
          var _ := HandleRequest(command, theirs, env);
      }
      Interfere(calls[1..]);
    }

    ghost function ConnState(sock: Connection.Socket, resp: ResponsePacket, error: bool, calls: nat): Conn
      reads adc, ddc, sock, resp
    {
      Conn(Board(), sock.plan, resp.Value(), error, calls)
    }

    /** One pass of the inner loop: the call, and the packet it produced, copied when it is sent. */
    method HandleAndSend(sock: Connection.Socket, c: Command, resp: ResponsePacket, error: bool, ghost calls: nat,
                         turns: nat -> Turn, turn: Turn)
      returns (ret: int, sent: int, lost: bool)
      requires Wired() && Admitted(c) && GoodTurns(turns) && ValidConn(ConnState(sock, resp, error, calls))
      requires turn == turns(calls)
      modifies adc, ddc, resp, sock`plan, sock`output
      ensures var (conn, a, out) := Step(old(ConnState(sock, resp, error, calls)), c, turns, text);
              && ConnState(sock, resp, error || ret < 0, calls + 1) == conn
              && sock.output == old(sock.output) + out
              && (a.ok <==> ret >= 0) && (a.ok ==> ret == a.response.num)
              && (lost <==> a.delivered.Overrun?) && (!lost ==> (a.delivered.Failed? <==> sent < 0))
    {
      hide Handle, ValidBoard, LandBoard, InBuffer, Frame, Admitted, Pointed, CText, CarriesData;
      Interfere(turn.others);
      HandleKeeps(Board(), resp.Value(), c, turn.env, text);
      ret := HandleRequest(c, resp, turn.env);
      Interfere(turn.between);
      LandBoardKeeps(Board(), turn.copy);
      Advance(turn.copy);
      var response := Read(resp);
      lost := response.num != 0 && !InBuffer(response);
      if lost {
        sent := ERROR;
        assert sock.output + Frame(response)[..0] == sock.output;
      } else {
        sent := Connection.SendResponsePacket(sock, response);
      }
    }

    /** The inner loop of process_client_request for one command. */
    method Answer(sock: Connection.Socket, c: Command, resp: ResponsePacket, failed: bool, ghost calls: nat,
                  turns: nat -> Turn, now: nat)
      returns (error: bool, lost: bool, next: nat, ghost attempts: seq<Attempt>)
      requires Wired() && GoodTurns(turns) && ValidConn(ConnState(sock, resp, failed, calls)) && now == calls
      modifies adc, ddc, resp, sock`plan, sock`output
      ensures var s := Serve(old(ConnState(sock, resp, failed, calls)), c, PrepareToHandle(c), turns, text);
              && ConnState(sock, resp, error, next) == s.conn && attempts == s.attempts && lost == Lost(attempts)
              && sock.output == old(sock.output) + s.output
    {
      hide Step, Serve, PrepareToHandle, Admitted, ValidBoard, ValidPacket, Fetch, GoodTurns;
      Admission(c);
      error, lost, next, attempts := failed, false, now, [];
      var remainingBytes := PrepareToHandle(c);
      ghost var s := Serve(ConnState(sock, resp, failed, calls), c, remainingBytes, turns, text);
      ghost var out, before := [], sock.output;
      assert [] + s.attempts == s.attempts && [] + s.output == s.output && before + out == before;
      while remainingBytes > 0 && !error
        invariant ValidConn(ConnState(sock, resp, error, next)) && (remainingBytes > 0 ==> Admitted(c))
        invariant var t := Serve(ConnState(sock, resp, error, next), c, remainingBytes, turns, text);
                  s == Served(t.conn, attempts + t.attempts, out + t.output)
        invariant sock.output == before + out && !lost && !Lost(attempts)
        decreases if error then 0 else 1, remainingBytes
      {
        ghost var conn := ConnState(sock, resp, error, next);
        ghost var (conn', a, bytes) := Step(conn, c, turns, text);
        ServeStep(conn, c, remainingBytes, turns, text);
        var validBytes, sent;
        validBytes, sent, lost := HandleAndSend(sock, c, resp, error, next, turns, turns(next));
        if validBytes < 0 {
          error := true;
        }
        next := next + 1;
        assert before + (out + bytes) == before + out + bytes;
        if lost || sent < 0 {
          attempts, out := attempts + [a], out + bytes;
          return;
        }
        remainingBytes := if validBytes < 0 then remainingBytes + 1 else remainingBytes - validBytes;
        ghost var t := Serve(conn', c, remainingBytes, turns, text);
        assert attempts + ([a] + t.attempts) == attempts + [a] + t.attempts;
        assert out + (bytes + t.output) == out + bytes + t.output;
        attempts, out := attempts + [a], out + bytes;
      }
      ServeStep(ConnState(sock, resp, error, next), c, remainingBytes, turns, text);
      assert attempts + [] == attempts && out + [] == out;
    }

    /** process_client_request; resp is the packet on its stack, whatever it holds at first. */
    method ProcessClientRequest(sock: Connection.Socket, resp: ResponsePacket, turns: nat -> Turn)
      returns (ghost log: seq<Exchange>)
      requires Wired() && GoodTurns(turns) && ValidConn(ConnState(sock, resp, false, 0))
      modifies adc, ddc, resp, sock
      ensures var e := Session(old(ConnState(sock, resp, false, 0)), old(sock.input), old(sock.cuts), turns, text);
              && Board() == e.conn.board && sock.plan == e.conn.plan && resp.Value() == e.conn.packet
              && sock.input == e.input && sock.cuts == e.cuts
              && sock.output == old(sock.output) + e.output && log == e.log
    {
      hide Serve, Session, ValidConn, GoodTurns, Lost, Connection.RecvCommand, PrepareToHandle;
      log := [];
      var error, calls := false, 0;
      ghost var e := Session(ConnState(sock, resp, error, calls), sock.input, sock.cuts, turns, text);
      ghost var out, before := [], sock.output;
      assert [] + e.log == e.log && [] + e.output == e.output && before + out == before;
      while true
        invariant ValidConn(ConnState(sock, resp, error, calls))
        invariant var t := Session(ConnState(sock, resp, error, calls), sock.input, sock.cuts, turns, text);
                  e == t.(log := log + t.log, output := out + t.output)
        invariant sock.output == before + out
        decreases |sock.input|
      {
        ghost var conn := ConnState(sock, resp, error, calls);
        ghost var (i, r) := Connection.RecvCommand(sock.input, sock.cuts);
        SessionStep(conn, sock.input, sock.cuts, turns, text);
        var recvd, command := Connection.RecvCommandPacket(sock);
        if recvd <= 0 {
          assert log + [] == log && out + [] == out;
          return;
        }
        assert conn == ConnState(sock, resp, error, calls);
        ghost var s := Serve(conn, command, PrepareToHandle(command), turns, text);
        ghost var attempts;
        var lost;
        error, lost, calls, attempts := Answer(sock, command, resp, error, calls, turns, calls);
        assert before + (out + s.output) == before + out + s.output;
        if lost {
          assert [Exchange(command, attempts)] + [] == [Exchange(command, attempts)] && s.output + [] == s.output;
          log := log + [Exchange(command, attempts)];
          return;
        }
        ghost var t := Session(s.conn, r.input, r.cuts, turns, text);
        assert log + ([Exchange(command, attempts)] + t.log) == log + [Exchange(command, attempts)] + t.log;
        assert out + (s.output + t.output) == out + s.output + t.output;
        log, out := log + [Exchange(command, attempts)], out + s.output;
      }
    }
  }
}
