/** What a stop inside a frame can do to the next call on the same Conn (rcon/conn.go 111-185, rcon/packet.go 67-92):
    the streams are out of step, and a part of a body is taken for a frame. */
module TornStreams {
  import opened Wire
  import opened RequestIds
  import opened Conn
  import opened ServerConn
  import opened Reassembly
  import opened EndToEnd

  /** An output that contains, after some bytes x, what looks like the echo of a sentinel. */
  function Trap(x: Bytes, sentinel: Int32): (b: Bytes) { x + Encode(SentinelFrame(sentinel)) }

  lemma TrapFrame(req: Int32, x: Bytes, sentinel: Int32)
    ensures var p := Packet(req, RESPONSE_VALUE, Trap(x, sentinel));
            Encode(p)[12 + |x|..] == Encode(SentinelFrame(sentinel)) + [0, 0]
  {
    var p := Packet(req, RESPONSE_VALUE, Trap(x, sentinel));
    var front, echo := Header(p) + x, Encode(SentinelFrame(sentinel));
    hide Encode, Header;
    assert Encode(p) == Header(p) + p.body + [0, 0] by { EncodeParts(p); }
    assert Encode(p) == front + (echo + [0, 0]);
  }

  lemma EncodeParts(p: Packet)
    ensures Encode(p) == Header(p) + p.body + [0, 0]
  {
  }

  lemma TrapIsOneFrame(req: Int32, x: Bytes, sentinel: Int32)
    requires |x| + 14 <= MAX_PAYLOAD_SIZE
    ensures ResponseFrames(req, Trap(x, sentinel)) == [Packet(req, RESPONSE_VALUE, Trap(x, sentinel))]
  {
    var b := Trap(x, sentinel);
    ResponseFramesCarryBody(req, b);
    var ps := ResponseFrames(req, b);
    hide ResponseFrames, Encode;
    assert ps == [ps[0]];
  }

  /** The reply to the first call: its only chunk, then the echo. */
  lemma TrapReply(req: Int32, sentinel: Int32, x: Bytes, later: Int32)
    requires |x| + 14 <= MAX_PAYLOAD_SIZE
    ensures EncodeAll(Answer(req, sentinel, Trap(x, later)))
         == Encode(Packet(req, RESPONSE_VALUE, Trap(x, later))) + Encode(SentinelFrame(sentinel))
  {
    TrapIsOneFrame(req, x, later);
    var p, echo := Packet(req, RESPONSE_VALUE, Trap(x, later)), SentinelFrame(sentinel);
    hide ResponseFrames, Encode, EncodeAll;
    EncodeAllConcat([p], [echo]);
    EncodeAllOne(p);
    EncodeAllOne(echo);
  }

  lemma TrapSprung(req: Int32, sentinel: Int32, x: Bytes, later: Int32)
    requires |x| + 14 <= MAX_PAYLOAD_SIZE
    ensures var reply := EncodeAll(Answer(req, sentinel, Trap(x, later)));
            var stop := 12 + |x|;
            stop <= |reply|
            && Decode(reply[..stop], DeadlineExpired) == Fault(Net(true), [])
            && reply[stop..] == Encode(SentinelFrame(later)) + ([0, 0] + Encode(SentinelFrame(sentinel)))
  {
    var p, stop := Packet(req, RESPONSE_VALUE, Trap(x, later)), 12 + |x|;
    var reply := EncodeAll(Answer(req, sentinel, p.body));
    TrapReply(req, sentinel, x, later);
    TrapFrame(req, x, later);
    CutFrameFaults(p, stop, DeadlineExpired);
    hide Encode, EncodeAll, Answer, Decode, Trap;
    assert reply[..stop] == Encode(p)[..stop];
    assert reply[stop..] == Encode(p)[stop..] + Encode(SentinelFrame(sentinel));
    assert reply[stop..] == Encode(SentinelFrame(later)) + ([0, 0] + Encode(SentinelFrame(sentinel)));
  }

  /** A multi-packet call whose frames get through, in terms of the bytes it can read. */
  lemma ExecuteReads(st: State, maxLen: int, command: Bytes, net: Network)
    requires !st.closed && st.open && st.unread == [] && command != [] && (maxLen > 0 ==> |command| <= maxLen)
    requires RequestLen(command) <= st.room
    ensures var req := NextId(st.id);
            var sentinel := NextId(req);
            var reply := Multi(net.arriving, net.ending, net.buffered, req, sentinel);
            var (st', r) := Execute(st, ReadMulti, maxLen, command, net);
            r == reply.result && st'.unread == reply.rest && st'.id == sentinel && !st'.closed && st'.open
            && st'.room == st.room - RequestLen(command)
  {
    SendMulti(st, maxLen, command);
    hide Send, Multi, NextId, EncodeAll, Encode;
    assert [] + net.arriving == net.arriving;
  }

  /** A read that stops inside a frame admits a foreign body. On any open connection, let the first command's output be
      a trap for the second call and let the first read time out right after the x in it. The first call fails, as it
      should; but the second returns an empty body, whatever its own command's output b. */
  lemma TornReadGivesForeignBody(st: State, maxLen: int, first: Bytes, second: Bytes, x: Bytes, b: Bytes,
                                 ending: Ending, buffered: Bytes -> nat)
    requires !st.closed && st.open && st.unread == [] && |x| + 14 <= MAX_PAYLOAD_SIZE
    requires first != [] && second != [] && (maxLen > 0 ==> |first| <= maxLen && |second| <= maxLen)
    requires RequestLen(first) + RequestLen(second) <= st.room
    ensures var req1 := NextId(st.id);
            var sentinel1 := NextId(req1);
            var req2 := NextId(sentinel1);
            var sentinel2 := NextId(req2);
            var reply1 := EncodeAll(Answer(req1, sentinel1, Trap(x, sentinel2)));
            var reply2 := EncodeAll(Answer(req2, sentinel2, b));
            var stop := 12 + |x|;
            var (st1, r1) := Execute(st, ReadMulti, maxLen, first, Network(Take(reply1, stop), DeadlineExpired, buffered));
            var (st2, r2) := Execute(st1, ReadMulti, maxLen, second, Network(reply1[|Take(reply1, stop)|..] + reply2, ending, buffered));
            r1 == Err(Net(true)) && r2 == Ok([])
  {
    var req1 := NextId(st.id);
    var sentinel1 := NextId(req1);
    var req2 := NextId(sentinel1);
    var sentinel2 := NextId(req2);
    var reply1, reply2 := EncodeAll(Answer(req1, sentinel1, Trap(x, sentinel2))), EncodeAll(Answer(req2, sentinel2, b));
    var stop := 12 + |x|;
    TrapSprung(req1, sentinel1, x, sentinel2);
    assert Take(reply1, stop) == reply1[..stop];
    var echo, more := Encode(SentinelFrame(sentinel2)), [0, 0] + Encode(SentinelFrame(sentinel1));
    var seen, unseen := Take(reply1, stop), reply1[|Take(reply1, stop)|..] + reply2;
    assert unseen == echo + (more + reply2);
    hide Encode, EncodeAll, Answer, NextId, Decode, Execute, Trap, Take, Multi, RequestLen;
    StoppedCall(st, maxLen, first, Network(seen, DeadlineExpired, buffered));
    FooledCall(Execute(st, ReadMulti, maxLen, first, Network(seen, DeadlineExpired, buffered)).0, maxLen, second, more + reply2,
               ending, buffered);
  }

  lemma StoppedCall(st: State, maxLen: int, command: Bytes, net: Network)
    requires !st.closed && st.open && st.unread == [] && command != [] && (maxLen > 0 ==> |command| <= maxLen)
    requires RequestLen(command) <= st.room && Decode(net.arriving, net.ending) == Fault(Net(true), [])
    ensures var (st', r) := Execute(st, ReadMulti, maxLen, command, net);
            r == Err(Net(true)) && st'.unread == [] && st'.id == NextId(NextId(st.id)) && !st'.closed && st'.open
            && st'.room == st.room - RequestLen(command)
  {
    ExecuteReads(st, maxLen, command, net);
    MultiOfFault(net.arriving, net.ending, net.buffered, NextId(st.id), NextId(NextId(st.id)));
  }

  lemma FooledCall(st: State, maxLen: int, command: Bytes, more: Bytes, ending: Ending, buffered: Bytes -> nat)
    requires !st.closed && st.open && st.unread == [] && command != [] && (maxLen > 0 ==> |command| <= maxLen)
    requires RequestLen(command) <= st.room
    ensures var echo := Encode(SentinelFrame(NextId(NextId(st.id))));
            Execute(st, ReadMulti, maxLen, command, Network(echo + more, ending, buffered)).1 == Ok([])
  {
    var req := NextId(st.id);
    var sentinel := NextId(req);
    ExecuteReads(st, maxLen, command, Network(Encode(SentinelFrame(sentinel)) + more, ending, buffered));
    MultiStep(SentinelFrame(sentinel), more, ending, buffered, req, sentinel);
    hide Encode, Execute, Multi, NextId;
  }

  lemma MultiOfFault(input: Bytes, ending: Ending, buffered: Bytes -> nat, req: Int32, sentinel: Int32)
    requires Decode(input, ending).Fault?
    ensures Multi(input, ending, buffered, req, sentinel) == Reply(Err(Decode(input, ending).error), Decode(input, ending).rest)
  {
  }

  // ----- a torn write -----

  /** The first nine bytes of a request with a command of seven bytes, and then the whole of a request whose command is
      itself the encoding of a sentinel: the server takes the first request's size for the nine bytes and the second
      one's header, a frame of no known type, and then takes the command for a frame. */
  lemma TornRequestParses(first: Bytes, req1: Int32, req2: Int32, sentinel: Int32)
    requires |first| == 7
    ensures var bytes := Encode(ExecFrame(req1, first))[..9]
                         + Encode(ExecFrame(req2, Encode(SentinelFrame(sentinel)))) + Encode(SentinelFrame(sentinel));
            var frames := ParseFrames(bytes, EndOfStream).frames;
            |frames| == 2 && frames[0].typ == 0x1802 && frames[1] == SentinelFrame(sentinel)
  {
    var inner := Encode(SentinelFrame(sentinel));
    var second := ExecFrame(req2, inner);
    var torn := Encode(ExecFrame(req1, first))[..9];
    var tail: Bytes := [0, 0] + inner;
    var front := torn + Header(second);
    TornFront(first, req1, second);
    EncodeParts(second);
    hide Encode, Header, Decode, PutUint32, GetUint32;
    assert torn + Encode(second) + inner == front + (inner + tail);
    JunkDecodes(front, inner + tail);
    DecodeEncode(SentinelFrame(sentinel), tail, EndOfStream);
    TailIsRefused(inner, sentinel);
    TwoFrames(front + (inner + tail), inner + tail, tail);
  }

  lemma TwoFrames(input: Bytes, second: Bytes, third: Bytes)
    requires Decode(input, EndOfStream).Frame? && Decode(input, EndOfStream).rest == second
    requires Decode(second, EndOfStream).Frame? && Decode(second, EndOfStream).rest == third
    requires Decode(third, EndOfStream).Fault?
    ensures ParseFrames(input, EndOfStream).frames == [Decode(input, EndOfStream).packet, Decode(second, EndOfStream).packet]
  {
    hide Decode;
    var p, q := Decode(input, EndOfStream).packet, Decode(second, EndOfStream).packet;
    assert ParseFrames(third, EndOfStream).frames == [];
    assert ParseFrames(second, EndOfStream).frames == [q];
    assert [p] + [q] == [p, q];
  }

  lemma TornFront(first: Bytes, req1: Int32, second: Packet)
    requires |first| == 7 && |second.body| == 14
    ensures var front := Encode(ExecFrame(req1, first))[..9] + Header(second);
            |front| == 21 && GetUint32(front[..4]) == 17 && GetUint32(front[8..12]) == 0x1802
  {
    var p := ExecFrame(req1, first);
    var front := Encode(p)[..9] + Header(second);
    assert Encode(p)[..9] == PutUint32(17) + PutUint32(AsUint32(req1)) + [2];
    Uint32RoundTrip(17);
    assert Header(second)[..4] == PutUint32(24);
    hide Encode, Header;
    assert front[..4] == PutUint32(17);
    assert front[8..12] == [2, 24, 0, 0];
  }

  lemma JunkDecodes(front: Bytes, more: Bytes)
    requires |front| == 21 && GetUint32(front[..4]) == 17
    ensures var r := Decode(front + more, EndOfStream);
            r.Frame? && r.rest == more && r.packet.typ == AsInt32(GetUint32(front[8..12]))
  {
    var input := front + more;
    assert input[..4] == front[..4];
    assert input[4..21][4..8] == front[8..12];
    assert input[21..] == more;
    hide GetUint32;
  }

  lemma TailIsRefused(inner: Bytes, sentinel: Int32)
    requires inner == Encode(SentinelFrame(sentinel))
    ensures Decode([0, 0] + inner, EndOfStream).Fault?
  {
    var input: Bytes := [0, 0] + inner;
    assert input[..4] == [0, 0, 10, 0];
    assert GetUint32(input[..4]) == 0xA_0000;
    hide Encode;
  }

  /** A write that takes nine bytes of the request. */
  lemma TornSend(st: State, maxLen: int, command: Bytes, net: Network)
    requires !st.closed && st.open && command != [] && (maxLen > 0 ==> |command| <= maxLen) && st.room == 9
    ensures var req := NextId(st.id);
            var frame := Encode(ExecFrame(req, command));
            |frame| >= 9 && Execute(st, ReadMulti, maxLen, command, net)
                            == (st.(id := req, sent := st.sent + frame[..9], room := 0), Err(Net(false)))
  {
    hide Encode, NextId;
  }

  lemma ServeJunkAndSentinel(h: Handler, log: seq<Bytes>, junk: Packet, sentinel: Int32)
    requires junk.typ != EXEC_COMMAND && junk.typ != RESPONSE_VALUE
    ensures Serve(h, log, [junk, SentinelFrame(sentinel)]) == Served([SentinelFrame(sentinel)], log, true)
  {
    assert [junk, SentinelFrame(sentinel)][1..] == [SentinelFrame(sentinel)];
    assert [SentinelFrame(sentinel)][1..] == [];
    assert Serve(h, log, []) == Served([], log, true);
    assert [SentinelFrame(sentinel)] + [] == [SentinelFrame(sentinel)];
  }

  /** So does a write that stops inside a frame. The first call's request is cut after nine bytes, and the connection
      recovers. The second call returns an empty body although the server has not run its command at all. */
  lemma TornWriteGivesForeignBody(st: State, maxLen: int, h: Handler, log: seq<Bytes>, first: Bytes, room: nat,
                                  net: Network, ending: Ending, buffered: Bytes -> nat)
    requires !st.closed && st.open && st.unread == [] && |first| == 7 && (maxLen > 0 ==> maxLen >= 14)
    requires st.room == 9 && room >= 42
    ensures var sentinel := NextId(NextId(NextId(st.id)));
            var second := Encode(SentinelFrame(sentinel));
            var (st1, r1) := Execute(st, ReadMulti, maxLen, first, net);
            var recovered := st1.(room := room);
            var got := Send(recovered, ReadMulti, maxLen, second).0.sent[|st.sent|..];
            var served := Serve(h, log, ParseFrames(got, EndOfStream).frames);
            r1 == Err(Net(false)) && served.log == log
            && Execute(recovered, ReadMulti, maxLen, second, Network(EncodeAll(served.out), ending, buffered)).1 == Ok([])
  {
    var req1 := NextId(st.id);
    var sentinel := NextId(NextId(req1));
    var second := Encode(SentinelFrame(sentinel));
    var torn := Encode(ExecFrame(req1, first))[..9];
    TornSend(st, maxLen, first, net);
    var recovered := st.(id := req1, sent := st.sent + torn, room := room);
    SendAfter(recovered, maxLen, second, st.sent, torn);
    TornServed(h, log, first, req1, NextId(req1), sentinel);
    EncodeAllOne(SentinelFrame(sentinel));
    assert second + [] == second;
    hide Encode, EncodeAll, Send, Execute, NextId, ParseFrames, Serve;
    FooledCall(recovered, maxLen, second, [], ending, buffered);
  }

  /** What a whole request adds to a stream that ends in a torn one. */
  lemma SendAfter(st: State, maxLen: int, command: Bytes, before: Bytes, torn: Bytes)
    requires !st.closed && st.open && command != [] && (maxLen > 0 ==> |command| <= maxLen)
    requires RequestLen(command) <= st.room && st.sent == before + torn
    ensures var req := NextId(st.id);
            var sent := Send(st, ReadMulti, maxLen, command).0.sent;
            before <= sent
            && sent[|before|..] == torn + Encode(ExecFrame(req, command)) + Encode(SentinelFrame(NextId(req)))
  {
    SendMulti(st, maxLen, command);
    var req := NextId(st.id);
    TwoEncoded(ExecFrame(req, command), SentinelFrame(NextId(req)));
    hide Encode, EncodeAll, Send, NextId;
    assert Send(st, ReadMulti, maxLen, command).0.sent
        == before + (torn + Encode(ExecFrame(req, command)) + Encode(SentinelFrame(NextId(req))));
  }

  lemma TornServed(h: Handler, log: seq<Bytes>, first: Bytes, req1: Int32, req2: Int32, sentinel: Int32)
    requires |first| == 7
    ensures var bytes := Encode(ExecFrame(req1, first))[..9]
                         + Encode(ExecFrame(req2, Encode(SentinelFrame(sentinel)))) + Encode(SentinelFrame(sentinel));
            Serve(h, log, ParseFrames(bytes, EndOfStream).frames) == Served([SentinelFrame(sentinel)], log, true)
  {
    TornRequestParses(first, req1, req2, sentinel);
    var bytes := Encode(ExecFrame(req1, first))[..9]
                 + Encode(ExecFrame(req2, Encode(SentinelFrame(sentinel)))) + Encode(SentinelFrame(sentinel));
    var frames := ParseFrames(bytes, EndOfStream).frames;
    hide Encode, ParseFrames, Serve;
    assert frames == [frames[0], SentinelFrame(sentinel)];
    ServeJunkAndSentinel(h, log, frames[0], sentinel);
  }

  lemma TwoEncoded(p: Packet, q: Packet)
    ensures EncodeAll([p, q]) == Encode(p) + Encode(q)
  {
    hide EncodeAll, Encode;
    EncodeAllConcat([p], [q]);
    EncodeAllOne(p);
    EncodeAllOne(q);
    assert [p] + [q] == [p, q];
  }
}
