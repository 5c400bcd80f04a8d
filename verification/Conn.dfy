/** The client side of one connection (rcon/conn.go, rcon/auth.go): the specification functions first, then
    the class whose methods carry them out. */
module Conn {
  import opened Wire
  import opened RequestIds
  import opened Sockets

  datatype Mode = ReadMulti | ReadSingle | ReadIdle

  /** What one round of reading returns, and the bytes it leaves unread. */
  datatype Reply = Reply(result: Result<Bytes>, rest: Bytes)

  function Prepend(b: Bytes, r: Reply): (s: Reply)
  {
    if r.result.Ok? then r.(result := Ok(b + r.result.value)) else r
  }

  /** readSinglePacket. */
  function Single(input: Bytes, ending: Ending, req: Int32): (r: Reply)
  {
    match Decode(input, ending)
    case Fault(e, rest) => Reply(Err(e), rest)
    case Frame(p, rest) =>
      if p.id != req && p.id != -1 then Reply(Err(ResponseMismatch), rest) else Reply(Ok(p.body), rest)
  }

  /** drainSourceMirror: discard frames as long as the reader's buffer is not empty. The buffer holds none
      of an empty input. */
  function Drain(input: Bytes, ending: Ending, buffered: Bytes -> nat): (rest: Bytes)
    ensures |rest| <= |input|
    decreases |input|
  {
    if input == [] || buffered(input) == 0 then input
    else
      match Decode(input, ending)
      case Fault(_, rest) => rest
      case Frame(_, rest) => Drain(rest, ending, buffered)
  }

  /** readMultiPacket. */
  function Multi(input: Bytes, ending: Ending, buffered: Bytes -> nat, req: Int32, sentinel: Int32): (r: Reply)
    decreases |input|
  {
    match Decode(input, ending)
    case Fault(e, rest) => Reply(Err(e), rest)
    case Frame(p, rest) =>
      if p.id == sentinel then Reply(Ok([]), Drain(rest, ending, buffered))
      else if p.id != req && p.id != -1 then Reply(Err(ResponseMismatch), rest)
      else Prepend(p.body, Multi(rest, ending, buffered, req, sentinel))
  }

  /** A read error that ends a read-until-idle response instead of failing it. */
  predicate EndsIdle(e: Error) { e == Net(true) || e == Eof }

  /** readIdleDrain, before (`first`) or after its first packet. */
  function Idle(input: Bytes, ending: Ending, req: Int32, first: bool): (r: Reply)
    decreases |input|
  {
    match Decode(input, ending)
    case Fault(e, rest) => Reply(if !first && EndsIdle(e) then Ok([]) else Err(e), rest)
    case Frame(p, rest) =>
      Prepend(if p.id == req || p.id == -1 then p.body else [], Idle(rest, ending, req, false))
  }

  /** readIdleDrain on a socket that was closed locally: a first frame may still be there, but no deadline can be set
      for a second. */
  function IdleClosed(input: Bytes, ending: Ending): (r: Reply)
  {
    match Decode(input, ending)
    case Fault(e, rest) => Reply(Err(e), rest)
    case Frame(_, rest) => Reply(Err(Net(false)), rest)
  }

  /** The state of a Conn and its socket as the specification sees it. */
  datatype State = State(id: Int32, closed: bool, open: bool, sent: Bytes, room: nat, unread: Bytes)

  /** A write of one frame, which fails when the network takes only a part of it. */
  function Put(st: State, p: Packet): (st': State)
  {
    st.(sent := st.sent + Take(Encode(p), st.room), room := st.room - |Take(Encode(p), st.room)|)
  }

  predicate Fits(st: State, p: Packet) { |Encode(p)| <= st.room }

  /** The identifiers of one call; outside multi-packet mode there is no sentinel. */
  datatype Ids = Ids(req: Int32, sentinel: Int32)

  function ExecFrame(req: Int32, command: Bytes): (p: Packet) { Packet(req, EXEC_COMMAND, command) }

  function SentinelFrame(sentinel: Int32): (p: Packet) { Packet(sentinel, RESPONSE_VALUE, []) }

  /** The part of Execute up to its last write. */
  function Send(st: State, mode: Mode, maxLen: int, command: Bytes): (r: (State, Result<Ids>))
    ensures st.sent <= r.0.sent && st.unread == r.0.unread
  {
    if st.closed then (st, Err(Closed))
    else if command == [] then (st, Err(CommandEmpty))
    else if maxLen > 0 && |command| > maxLen then (st, Err(CommandTooLong))
    else if !st.open then (st, Err(Net(false)))
    else
      var req := NextId(st.id);
      var st1 := Put(st.(id := req), ExecFrame(req, command));
      if !Fits(st, ExecFrame(req, command)) then (st1, Err(Net(false)))
      else if mode != ReadMulti then (st1, Ok(Ids(req, 0)))
      else
        var sentinel := NextId(req);
        var st2 := Put(st1.(id := sentinel), SentinelFrame(sentinel));
        (st2, if Fits(st1, SentinelFrame(sentinel)) then Ok(Ids(req, sentinel)) else Err(Net(false)))
  }

  /** What the network does while Execute waits: the bytes that arrive, how the stream ends after them, and
      how full the reader's buffer is at each point. */
  datatype Network = Network(arriving: Bytes, ending: Ending, buffered: Bytes -> nat)

  /** The part of Execute after its last write. */
  function Receive(st: State, mode: Mode, ids: Ids, net: Network): (r: (State, Result<Bytes>))
  {
    var input := st.unread + net.arriving;
    var reply := match mode
                 case ReadSingle => Single(input, net.ending, ids.req)
                 case ReadIdle => Idle(input, net.ending, ids.req, true)
                 case ReadMulti => Multi(input, net.ending, net.buffered, ids.req, ids.sentinel);
    (st.(unread := reply.rest), reply.result)
  }

  function Execute(st: State, mode: Mode, maxLen: int, command: Bytes, net: Network): (r: (State, Result<Bytes>))
  {
    var (st1, sent) := Send(st, mode, maxLen, command);
    match sent
    case Err(e) => (st1, Err(e))
    case Ok(ids) => Receive(st1, mode, ids, net)
  }

  /** The reading half of authenticate (rcon/auth.go): an optional leading response value, then the verdict. */
  function Verdict(input: Bytes, ending: Ending): (r: (Option<Error>, Bytes))
  {
    match Decode(input, ending)
    case Fault(e, rest) => (Some(e), rest)
    case Frame(p, rest) => if p.typ == RESPONSE_VALUE then FinalVerdict(rest, ending) else (Judge(p), rest)
  }

  function FinalVerdict(input: Bytes, ending: Ending): (r: (Option<Error>, Bytes))
  {
    match Decode(input, ending)
    case Fault(e, rest) => (Some(e), rest)
    case Frame(p, rest) => (Judge(p), rest)
  }

  function Judge(p: Packet): (e: Option<Error>)
  {
    if p.typ != AUTH_RESPONSE then Some(InvalidAuthResponse) else if p.id == -1 then Some(AuthFailed) else None
  }

  function Authenticate(st: State, password: Bytes, net: Network): (r: (State, Option<Error>))
  {
    var req := NextId(st.id);
    var p := Packet(req, AUTH, password);
    var st1 := Put(st.(id := req), p);
    if !Fits(st, p) then (st1, Some(Net(false)))
    else
      var (verdict, rest) := Verdict(st1.unread + net.arriving, net.ending);
      (st1.(unread := rest), verdict)
  }

  class Connection {
    const socket: Socket
    const mode: Mode
    const maxCommandLen: int
    var closed: bool
    var id: Int32

    constructor (socket: Socket, mode: Mode, maxCommandLen: int)
      ensures this.socket == socket && this.mode == mode && this.maxCommandLen == maxCommandLen
      ensures !closed && id == 0
    {
      this.socket, this.mode, this.maxCommandLen := socket, mode, maxCommandLen;
      closed, id := false, 0;
    }

    ghost function Abs(): (st: State)
      reads this, socket
    {
      State(id, closed, socket.open, socket.output, socket.room, socket.input)
    }

    method NextID() returns (next: Int32)
      modifies `id
      ensures next == id == NextId(old(id))
    {
      hide AsInt32, AsUint32;
      id := AsInt32(AsUint32(id + 1));
      if id <= 0 { id := 1; }
      next := id;
    }

    /** The network's part of a call, between its last write and its first read. */
    method Deliver(net: Network)
      modifies socket`input, socket`ending, socket`buffered
      ensures socket.input == old(socket.input) + net.arriving
      ensures socket.ending == net.ending && socket.buffered == net.buffered
    {
      socket.input, socket.ending, socket.buffered := socket.input + net.arriving, net.ending, net.buffered;
    }

    method Close()
      modifies this`closed, socket
      ensures closed && !socket.open && socket.output == old(socket.output)
    {
      closed := true;
      socket.Close();
    }

    method ReadSinglePacket(req: Int32) returns (r: Result<Bytes>)
      modifies socket`input
      ensures Reply(r, socket.input) == Single(old(socket.input), socket.ending, req)
    {
      hide Decode;
      var _, resp := ReadFrom(socket);
      if resp.Err? { return Err(resp.error); }
      if resp.value.id != req && resp.value.id != -1 { return Err(ResponseMismatch); }
      return Ok(resp.value.body);
    }

    method DrainSourceMirror()
      modifies socket`input
      ensures socket.input == Drain(old(socket.input), socket.ending, socket.buffered)
    {
      hide Decode;
      while socket.input != [] && socket.buffered(socket.input) > 0
        invariant Drain(old(socket.input), socket.ending, socket.buffered)
               == Drain(socket.input, socket.ending, socket.buffered)
        decreases |socket.input|
      {
        var _, junk := ReadFrom(socket);
        if junk.Err? { return; }
      }
    }

    method ReadMultiPacket(req: Int32, sentinel: Int32) returns (r: Result<Bytes>)
      modifies socket`input
      ensures Reply(r, socket.input) == Multi(old(socket.input), socket.ending, socket.buffered, req, sentinel)
    {
      hide Decode, Drain;
      var b: Bytes := [];
      PrependNothing(Multi(socket.input, socket.ending, socket.buffered, req, sentinel));
      ghost var whole := Multi(socket.input, socket.ending, socket.buffered, req, sentinel);
      while true
        invariant whole == Prepend(b, Multi(socket.input, socket.ending, socket.buffered, req, sentinel))
        decreases |socket.input|
      {
        ghost var later := Multi(Decode(socket.input, socket.ending).rest, socket.ending, socket.buffered, req, sentinel);
        var _, resp := ReadFrom(socket);
        if resp.Err? { return Err(resp.error); }
        if resp.value.id == sentinel {
          DrainSourceMirror();
          assert b + [] == b;
          return Ok(b);
        }
        if resp.value.id != req && resp.value.id != -1 { return Err(ResponseMismatch); }
        PrependTwice(b, resp.value.body, later);
        b := b + resp.value.body;
      }
    }

    method ReadIdleDrain(req: Int32) returns (r: Result<Bytes>)
      modifies socket`input
      ensures socket.open ==> Reply(r, socket.input) == Idle(old(socket.input), socket.ending, req, true)
      ensures !socket.open ==> Reply(r, socket.input) == IdleClosed(old(socket.input), socket.ending)
    {
      hide Decode;
      var b: Bytes := [];
      var first := true;
      PrependNothing(Idle(socket.input, socket.ending, req, true));
      ghost var whole := Idle(socket.input, socket.ending, req, true);
      while true
        invariant whole == Prepend(b, Idle(socket.input, socket.ending, req, first))
        invariant first ==> b == [] && socket.input == old(socket.input)
        invariant !first ==> Decode(old(socket.input), socket.ending).Frame?
        invariant !first && !socket.open ==> socket.input == Decode(old(socket.input), socket.ending).rest
        decreases |socket.input|
      {
        if !first {
          var err := socket.SetDeadline();
          if err.Some? { return Err(err.value); }
        }
        ghost var later := Idle(Decode(socket.input, socket.ending).rest, socket.ending, req, false);
        var _, resp := ReadFrom(socket);
        if resp.Err? {
          if first { return Err(resp.error); }
          if EndsIdle(resp.error) {
            assert b + [] == b;
            return Ok(b);
          }
          return Err(resp.error);
        }
        if resp.value.id == req || resp.value.id == -1 {
          PrependTwice(b, resp.value.body, later);
          b := b + resp.value.body;
        } else {
          PrependTwice(b, [], later);
          assert b + [] == b;
        }
        first := false;
      }
    }

    method ExecuteCommand(command: Bytes, net: Network) returns (r: Result<Bytes>)
      modifies this`id, socket`input, socket`output, socket`room, socket`ending, socket`buffered
      ensures (Abs(), r) == Execute(old(Abs()), mode, maxCommandLen, command, net)
    {
      hide NextId, Encode, Single, Multi, Idle;
      if closed { return Err(Closed); }
      if command == [] { return Err(CommandEmpty); }
      if maxCommandLen > 0 && |command| > maxCommandLen { return Err(CommandTooLong); }
      var err := socket.SetDeadline();
      if err.Some? { return Err(err.value); }
      var req := NextID();
      var _, werr := WriteTo(ExecFrame(req, command), socket);
      if werr.Some? { return Err(werr.value); }
      match mode
      case ReadSingle =>
        Deliver(net);
        r := ReadSinglePacket(req);
      case ReadIdle =>
        Deliver(net);
        r := ReadIdleDrain(req);
      case ReadMulti =>
        var sentinel := NextID();
        var _, serr := WriteTo(SentinelFrame(sentinel), socket);
        if serr.Some? { return Err(serr.value); }
        Deliver(net);
        r := ReadMultiPacket(req, sentinel);
    }

    /** authenticate, on a connection that open has just built. */
    method Handshake(password: Bytes, net: Network) returns (err: Option<Error>)
      modifies this`id, socket`input, socket`output, socket`room, socket`ending, socket`buffered
      ensures (Abs(), err) == Authenticate(old(Abs()), password, net)
    {
      hide NextId, Encode, Decode;
      var req := NextID();
      var _, werr := WriteTo(Packet(req, AUTH, password), socket);
      if werr.Some? { return werr; }
      Deliver(net);
      var n, resp := ReadFrom(socket);
      if resp.Err? { return Some(resp.error); }
      if resp.value.typ == RESPONSE_VALUE {
        n, resp := ReadFrom(socket);
        if resp.Err? { return Some(resp.error); }
      }
      if resp.value.typ != AUTH_RESPONSE { return Some(InvalidAuthResponse); }
      if resp.value.id == -1 { return Some(AuthFailed); }
      return None;
    }
  }

  lemma PrependNothing(r: Reply)
    ensures Prepend([], r) == r
  {
    if r.result.Ok? {
      assert [] + r.result.value == r.result.value;
    }
  }

  lemma PrependTwice(a: Bytes, b: Bytes, r: Reply)
    ensures Prepend(a, Prepend(b, r)) == Prepend(a + b, r)
  {
    if r.result.Ok? {
      Assoc(a, b, r.result.value);
    }
  }
}
