/** The three reading modes of one client against the repository's server (rcon/conn.go 151-219). */
module Modes {
  import opened Wire
  import opened RequestIds
  import opened Conn
  import opened ServerConn
  import opened Reassembly
  import opened EndToEnd

  /** Without a sentinel only the command's frame goes out. */
  lemma SendOne(st: State, mode: Mode, maxLen: int, command: Bytes)
    requires mode != ReadMulti
    requires !st.closed && st.open && 1 <= |command| && (maxLen > 0 ==> |command| <= maxLen)
    requires RequestLen(command) <= st.room
    ensures var req := NextId(st.id);
            var sent := st.sent + Encode(ExecFrame(req, command));
            Send(st, mode, maxLen, command).0 == st.(id := req, sent := sent, room := st.room - 14 - |command|)
            && Send(st, mode, maxLen, command).1 == Ok(Ids(req, 0))
  {
    hide Encode, NextId;
  }

  lemma ReactToCommand(w: Joined, h: Handler, req: Int32, command: Bytes)
    requires w.serving && |command| <= MAX_PAYLOAD_SIZE && h(w.log, command).Respond?
    ensures React(w, h, Encode(ExecFrame(req, command)))
         == Served(ResponseFrames(req, h(w.log, command).body), w.log + [command], true)
  {
    hide Encode, EncodeAll, ParseFrames, ResponseFrames;
    var a := ExecFrame(req, command);
    ParseEncodeAll([a], [], EndOfStream);
    EncodeAllOne(a);
    assert Encode(a) + [] == Encode(a);
    ParseNothing();
    assert [a] + [] == [a] && [a][1..] == [];
    var out, log := ResponseFrames(req, h(w.log, command).body), w.log + [command];
    assert out + [] == out;
    assert Serve(h, log, []) == Served([], log, true);
  }

  lemma ResponseLen(req: Int32, body: Bytes)
    ensures |EncodeAll(ResponseFrames(req, body))| <= ReplyLen(body)
  {
    hide EncodeAll, Concat, Chunks;
    FramedLen(req, Chunks(body));
    ChunksPartition(body);
  }

  /** Single-packet mode returns exactly the first 4096 bytes of the output and leaves the frames of the rest
      unread; it agrees with multi-packet mode exactly on outputs of at most 4096 bytes. */
  lemma SingleReturnsFirstChunk(w: Joined, h: Handler, maxLen: int, call: Call)
    requires InSync(w) && LegalCall(call, maxLen) && h(w.log, call.command).Respond?
    requires RequestLen(call.command) <= w.conn.room && ReplyLen(h(w.log, call.command).body) <= w.budget
    ensures var b := h(w.log, call.command).body;
            var (w', r) := Round(w, h, ReadSingle, maxLen, call);
            r == Ok(Take(b, MAX_PAYLOAD_SIZE))
            && w'.conn.unread == EncodeAll(ResponseFrames(NextId(w.conn.id), b)[1..])
            && w'.conn.id == NextId(w.conn.id) && Usable(w')
            && (r == Round(w, h, ReadMulti, maxLen, call).1 <==> |b| <= MAX_PAYLOAD_SIZE)
            && (InSync(w') <==> |b| <= MAX_PAYLOAD_SIZE)
  {
    hide Encode, NextId, React, Send, Single, ResponseFrames, ReplyLen, Multi;
    var b := h(w.log, call.command).body;
    var req := NextId(w.conn.id);
    var ps := ResponseFrames(req, b);
    SendOne(w.conn, ReadSingle, maxLen, call.command);
    SuffixOfConcat(w.conn.sent, Encode(ExecFrame(req, call.command)));
    ReactToCommand(w, h, req, call.command);
    ResponseLen(req, b);
    ResponseFramesCarryBody(req, b);
    SingleStep(ps[0], EncodeAll(ps[1..]), call.ending, req);
    assert [] + EncodeAll(ps) == EncodeAll(ps);
    RoundAnswered(w, h, maxLen, call);
  }

  /** After a longer output, the next single-packet call reads a leftover frame and reports a mismatch,
      whatever arrives meanwhile. */
  lemma SingleThenMismatch(st: State, maxLen: int, command: Bytes, net: Network, earlier: Int32, body: Bytes)
    requires !st.closed && st.open && 1 <= |command| && (maxLen > 0 ==> |command| <= maxLen)
    requires RequestLen(command) <= st.room && st.id == NextId(earlier) && |body| > MAX_PAYLOAD_SIZE
    requires st.unread == EncodeAll(ResponseFrames(st.id, body)[1..])
    ensures Execute(st, ReadSingle, maxLen, command, net).1 == Err(ResponseMismatch)
  {
    hide Encode, NextId, Send, Single, ResponseFrames;
    var req := NextId(st.id);
    var ps := ResponseFrames(st.id, body);
    ResponseFramesCarryBody(st.id, body);
    FreshIds(earlier);
    SendOne(st, ReadSingle, maxLen, command);
    Assoc(Encode(ps[1]), EncodeAll(ps[1..][1..]), net.arriving);
    SingleStep(ps[1], EncodeAll(ps[1..][1..]) + net.arriving, net.ending, req);
    PositiveId(earlier);
  }

  lemma PositiveId(id: Int32)
    ensures NextId(id) != -1
  {
  }

  /** Read-until-idle mode, when the quiet period falls between frames, returns the whole output whatever its
      length, just as multi-packet mode does. */
  lemma IdleAgreesWithMulti(w: Joined, h: Handler, maxLen: int, call: Call)
    requires InSync(w) && LegalCall(call, maxLen) && h(w.log, call.command).Respond? && call.ending != Broken
    requires RequestLen(call.command) <= w.conn.room && ReplyLen(h(w.log, call.command).body) <= w.budget
    ensures var (w', r) := Round(w, h, ReadIdle, maxLen, call);
            r == Ok(h(w.log, call.command).body) && r == Round(w, h, ReadMulti, maxLen, call).1 && InSync(w')
  {
    hide Encode, EncodeAll, NextId, React, Send, Idle, ResponseFrames, ReplyLen, Multi, Bodies, BodiesOf;
    var b := h(w.log, call.command).body;
    var req := NextId(w.conn.id);
    var ps := ResponseFrames(req, b);
    SendOne(w.conn, ReadIdle, maxLen, call.command);
    SuffixOfConcat(w.conn.sent, Encode(ExecFrame(req, call.command)));
    ReactToCommand(w, h, req, call.command);
    ResponseLen(req, b);
    ResponseFramesCarryBody(req, b);
    IdleCollects(ps, call.ending, req, true);
    AllBodiesBelong(ps, req);
    assert [] + EncodeAll(ps) == EncodeAll(ps);
    RoundAnswered(w, h, maxLen, call);
  }
}
