/** Client and server of the repository joined by two byte streams, each of which may be cut anywhere. */
module EndToEnd {
  import opened Wire
  import opened RequestIds
  import opened Conn
  import opened ServerConn
  import opened Reassembly

  /** An authenticated connection seen from both ends: the client, the commands the server's handler was
      given, whether serveConn still runs, and how many more bytes of the server's stream get through.
      How many bytes of the client's stream get through is conn.room. */
  datatype Joined = Joined(conn: State, log: seq<Bytes>, serving: bool, budget: nat)

  /** One call of Execute, with the network's free choices. */
  datatype Call = Call(command: Bytes, ending: Ending, buffered: Bytes -> nat)

  /** What serveConn does with bytes that reach it. It stays in its loop if they end between two frames. */
  function React(w: Joined, h: Handler, incoming: Bytes): (s: Served)
  {
    if !w.serving then Served([], w.log, false)
    else
      var parse := ParseFrames(incoming, EndOfStream);
      var s := Serve(h, w.log, parse.frames);
      s.(alive := s.alive && |EncodeAll(parse.frames)| == |incoming|)
  }

  function Round(w: Joined, h: Handler, mode: Mode, maxLen: int, call: Call): (r: (Joined, Result<Bytes>))
  {
    var (st, sent) := Send(w.conn, mode, maxLen, call.command);
    var served := React(w, h, st.sent[|w.conn.sent|..]);
    var arriving := Take(EncodeAll(served.out), w.budget);
    var budget := w.budget - |arriving|;
    match sent
    case Err(e) => (Joined(st.(unread := st.unread + arriving), served.log, served.alive, budget), Err(e))
    case Ok(ids) =>
      var (st', r) := Receive(st, mode, ids, Network(arriving, call.ending, call.buffered));
      (Joined(st', served.log, served.alive, budget), r)
  }

  /** A sequence of calls on one connection. */
  function Run(w: Joined, h: Handler, mode: Mode, maxLen: int, calls: seq<Call>): (r: (Joined, seq<Result<Bytes>>))
    ensures |r.1| == |calls|
    decreases |calls|
  {
    if calls == [] then (w, [])
    else
      var (w1, r) := Round(w, h, mode, maxLen, calls[0]);
      var (w2, rs) := Run(w1, h, mode, maxLen, calls[1..]);
      (w2, [r] + rs)
  }

  /** A command Execute refuses before it writes anything, and the error it gives. */
  predicate Refused(c: Call, maxLen: int) { c.command == [] || (maxLen > 0 && |c.command| > maxLen) }
  function RefusalOf(c: Call): (e: Error) { if c.command == [] then CommandEmpty else CommandTooLong }

  /** A command Execute accepts and whose frame the server reads. */
  predicate LegalCall(c: Call, maxLen: int) { !Refused(c, maxLen) && |c.command| <= MAX_PAYLOAD_SIZE }

  /** A command whose frame size does not wrap in its 32-bit field. */
  predicate SizedCall(c: Call) { Sized(ExecFrame(0, c.command)) }

  predicate Usable(w: Joined) { !w.conn.closed && w.conn.open }

  /** Between two commands of an undisturbed connection: nothing is left unread. */
  predicate InSync(w: Joined) { Usable(w) && w.conn.unread == [] && w.serving }

  /** A connection on which no command can be answered any more. */
  predicate Dead(w: Joined)
  {
    Usable(w) && (w.conn.room == 0 || (w.conn.unread == [] && (!w.serving || w.budget == 0)))
  }

  /** Bytes of the two request frames, and of the response frames with the sentinel's echo. */
  function RequestLen(command: Bytes): (n: nat) { 28 + |command| }
  function ReplyLen(body: Bytes): (n: nat) { |body| + 14 * (|Chunks(body)| + 1) }

  lemma FreshIds(id: Int32)
    ensures NextId(NextId(id)) != NextId(id)
  {
  }

  lemma {:induction false} FramedLen(id: Int32, cs: seq<Bytes>)
    ensures |EncodeAll(Framed(id, cs))| == |Concat(cs)| + 14 * |cs|
  {
    hide Encode;
    if cs != [] {
      assert Framed(id, cs)[1..] == Framed(id, cs[1..]);
      FramedLen(id, cs[1..]);
    }
  }

  /** The server's answer to one command and its sentinel. */
  function Answer(req: Int32, sentinel: Int32, body: Bytes): (ps: seq<Packet>)
  {
    ResponseFrames(req, body) + [SentinelFrame(sentinel)]
  }

  lemma AnswerLen(req: Int32, sentinel: Int32, body: Bytes)
    ensures |EncodeAll(Answer(req, sentinel, body))| == ReplyLen(body)
  {
    hide EncodeAll, Concat, Chunks;
    FramedLen(req, Chunks(body));
    ChunksPartition(body);
    EncodeAllConcat(ResponseFrames(req, body), [SentinelFrame(sentinel)]);
    EncodeAllOne(SentinelFrame(sentinel));
  }

  /** The writing half of a multi-packet Execute: both frames go out whole, or the stream is used up. */
  lemma SendMulti(st: State, maxLen: int, command: Bytes)
    requires !st.closed && st.open && 1 <= |command| && (maxLen > 0 ==> |command| <= maxLen)
    ensures var req := NextId(st.id);
            var sentinel := NextId(req);
            var frames := [ExecFrame(req, command), SentinelFrame(sentinel)];
            var (st', r) := Send(st, ReadMulti, maxLen, command);
            st'.closed == st.closed && st'.open == st.open && st'.unread == st.unread
            && if RequestLen(command) <= st.room then
                 r == Ok(Ids(req, sentinel)) && st'.sent == st.sent + EncodeAll(frames)
                 && st'.room == st.room - RequestLen(command) && st'.id == sentinel
               else r == Err(Net(false)) && st'.room == 0
  {
    hide Encode, NextId;
    var req := NextId(st.id);
    var sentinel := NextId(req);
    var a, b := ExecFrame(req, command), SentinelFrame(sentinel);
    assert [a, b] == [a] + [b];
    EncodeAllConcat([a], [b]);
    EncodeAllOne(a);
    EncodeAllOne(b);
    Assoc(st.sent, Encode(a), Encode(b));
  }

  lemma SuffixOfConcat(a: Bytes, b: Bytes)
    ensures (a + b)[|a|..] == b
  {
  }

  /** Whole frames keep serveConn in its loop, unless the handler panics. */
  lemma ReactToFrames(w: Joined, h: Handler, ps: seq<Packet>)
    requires w.serving && AllLegal(ps)
    ensures React(w, h, EncodeAll(ps)) == Serve(h, w.log, ps)
  {
    ParseEncodeAll(ps, [], EndOfStream);
    ParseNothing();
    hide ParseFrames, EncodeAll, Serve;
    assert EncodeAll(ps) + [] == EncodeAll(ps) && ps + [] == ps;
  }

  /** The server's reaction to one request and its sentinel. */
  lemma ReactToRequest(w: Joined, h: Handler, req: Int32, sentinel: Int32, command: Bytes)
    requires w.serving && 1 <= |command| <= MAX_PAYLOAD_SIZE
    ensures var s := React(w, h, EncodeAll([ExecFrame(req, command), SentinelFrame(sentinel)]));
            match h(w.log, command)
            case Respond(b) => s == Served(Answer(req, sentinel, b), w.log + [command], true)
            case Panic => s == Served([], w.log + [command], false)
  {
    hide EncodeAll, React, ResponseFrames;
    var a, b := ExecFrame(req, command), SentinelFrame(sentinel);
    ReactToFrames(w, h, [a, b]);
    assert [a, b][1..] == [b] && [b][1..] == [];
    var log := w.log + [command];
    assert Serve(h, log, []) == Served([], log, true);
    assert Serve(h, log, [b]) == Served([b], log, true) by { assert [b] + [] == [b]; }
  }

  lemma ParseNothing()
    ensures ParseFrames([], EndOfStream) == Parse([], Eof)
  {
  }

  /** A call on an undisturbed connection whose bytes all get through returns the handler's output, and
      leaves the connection undisturbed. */
  lemma RoundAnswered(w: Joined, h: Handler, maxLen: int, call: Call)
    requires InSync(w) && LegalCall(call, maxLen) && h(w.log, call.command).Respond?
    requires RequestLen(call.command) <= w.conn.room && ReplyLen(h(w.log, call.command).body) <= w.budget
    ensures var b := h(w.log, call.command).body;
            var (w', r) := Round(w, h, ReadMulti, maxLen, call);
            r == Ok(b) && InSync(w') && w'.log == w.log + [call.command]
            && w'.conn.room == w.conn.room - RequestLen(call.command) && w'.budget == w.budget - ReplyLen(b)
            && w'.conn.id == NextId(NextId(w.conn.id))
  {
    hide EncodeAll, NextId, React, Send, Multi, ResponseFrames, ReplyLen, Bodies;
    var b := h(w.log, call.command).body;
    var req := NextId(w.conn.id);
    var sentinel := NextId(req);
    SendMulti(w.conn, maxLen, call.command);
    SuffixOfConcat(w.conn.sent, EncodeAll([ExecFrame(req, call.command), SentinelFrame(sentinel)]));
    ReactToRequest(w, h, req, sentinel, call.command);
    AnswerLen(req, sentinel, b);
    ResponseFramesCarryBody(req, b);
    FreshIds(w.conn.id);
    var bytes := EncodeAll(Answer(req, sentinel, b));
    MultiComplete(ResponseFrames(req, b), SentinelFrame(sentinel), [], call.ending, call.buffered, req, sentinel);
    assert [] + bytes == bytes == bytes + [];
  }

  /** A call that Execute refuses changes nothing at either end. */
  lemma RoundRefused(w: Joined, h: Handler, mode: Mode, maxLen: int, call: Call)
    requires Usable(w) && Refused(call, maxLen)
    ensures Round(w, h, mode, maxLen, call) == (w, Err(RefusalOf(call)))
  {
    ParseNothing();
    EmptyEncoding();
    hide ParseFrames, EncodeAll;
    assert w.conn.sent[|w.conn.sent|..] == [] && w.conn.unread + [] == w.conn.unread;
  }

  /** The server's reaction to a request too long for it: none, and it is gone. */
  lemma ReactToOverlong(w: Joined, h: Handler, req: Int32, sentinel: Int32, command: Bytes)
    requires w.serving && |command| > MAX_PAYLOAD_SIZE && Sized(ExecFrame(req, command))
    ensures React(w, h, EncodeAll([ExecFrame(req, command), SentinelFrame(sentinel)])) == Served([], w.log, false)
  {
    var a, b := ExecFrame(req, command), SentinelFrame(sentinel);
    OverlongIsRefused(a, EncodeAll([b]), EndOfStream);
    EmptyEncoding();
    hide Encode, Decode;
    assert [a, b][1..] == [b];
  }

  /** A call on an undisturbed connection that is cut in either direction, whose command is too long for the server,
      or whose handler panics, returns an error, and so will every later one. */
  lemma RoundUnanswered(w: Joined, h: Handler, maxLen: int, call: Call)
    requires InSync(w) && !Refused(call, maxLen) && SizedCall(call)
    requires |call.command| > MAX_PAYLOAD_SIZE || h(w.log, call.command).Panic? || RequestLen(call.command) > w.conn.room
             || ReplyLen(h(w.log, call.command).body) > w.budget
    ensures var (w', r) := Round(w, h, ReadMulti, maxLen, call);
            r.Err? && Dead(w')
  {
    hide EncodeAll, NextId, React, Send, Multi, ResponseFrames, ReplyLen, Bodies;
    var req := NextId(w.conn.id);
    var sentinel := NextId(req);
    SendMulti(w.conn, maxLen, call.command);
    if RequestLen(call.command) <= w.conn.room {
      SuffixOfConcat(w.conn.sent, EncodeAll([ExecFrame(req, call.command), SentinelFrame(sentinel)]));
      if |call.command| > MAX_PAYLOAD_SIZE {
        ReactToOverlong(w, h, req, sentinel, call.command);
        NothingArrives(w.budget);
        MultiNothing(call.ending, call.buffered, req, sentinel);
      } else if h(w.log, call.command).Panic? {
        ReactToRequest(w, h, req, sentinel, call.command);
        NothingArrives(w.budget);
        MultiNothing(call.ending, call.buffered, req, sentinel);
      } else {
        ReactToRequest(w, h, req, sentinel, call.command);
        var b := h(w.log, call.command).body;
        AnswerLen(req, sentinel, b);
        ResponseFramesCarryBody(req, b);
        FreshIds(w.conn.id);
        MultiCut(ResponseFrames(req, b), SentinelFrame(sentinel), w.budget, call.ending, call.buffered, req, sentinel);
        var arriving := Take(EncodeAll(Answer(req, sentinel, b)), w.budget);
        assert [] + arriving == arriving;
      }
    }
  }

  lemma NothingArrives(budget: nat)
    ensures Take(EncodeAll([]), budget) == [] && [] + Take(EncodeAll([]), budget) == []
  {
  }

  lemma MultiNothing(ending: Ending, buffered: Bytes -> nat, req: Int32, sentinel: Int32)
    ensures Multi([], ending, buffered, req, sentinel) == Reply(Err(ShortRead(0, ending)), [])
  {
  }

  lemma RoundDead(w: Joined, h: Handler, maxLen: int, call: Call)
    requires Dead(w)
    ensures var (w', r) := Round(w, h, ReadMulti, maxLen, call);
            r.Err? && Dead(w')
  {
    if Refused(call, maxLen) {
      RoundRefused(w, h, ReadMulti, maxLen, call);
    } else {
      hide EncodeAll, NextId, Send, Multi, ParseFrames, Serve;
      SendMulti(w.conn, maxLen, call.command);
      if RequestLen(call.command) <= w.conn.room {
        EmptyEncoding();
        assert w.conn.unread + [] == [];
        var req := NextId(w.conn.id);
        MultiNothing(call.ending, call.buffered, req, NextId(req));
      }
    }
  }

  /** How many leading calls leave the connection in sync: those Execute refuses, and those the server can read, whose
      handler responds and whose bytes get through both ways. */
  function Answered(h: Handler, log: seq<Bytes>, calls: seq<Call>, maxLen: int, room: nat, budget: nat): (n: nat)
    ensures n <= |calls|
    decreases |calls|
  {
    if calls == [] then 0
    else if Refused(calls[0], maxLen) then 1 + Answered(h, log, calls[1..], maxLen, room, budget)
    else
      var c := calls[0].command;
      match h(log, c)
      case Panic => 0
      case Respond(b) =>
        if |c| <= MAX_PAYLOAD_SIZE && RequestLen(c) <= room && ReplyLen(b) <= budget then
          1 + Answered(h, log + [c], calls[1..], maxLen, room - RequestLen(c), budget - ReplyLen(b))
        else 0
  }

  /** The commands of the calls that are not refused. */
  function CommandsOf(calls: seq<Call>, maxLen: int): (cs: seq<Bytes>)
  {
    if calls == [] then [] else LogAfter([], calls[0], maxLen) + CommandsOf(calls[1..], maxLen)
  }

  function LogAfter(log: seq<Bytes>, call: Call, maxLen: int): (log': seq<Bytes>)
  {
    if Refused(call, maxLen) then log else log + [call.command]
  }

  /** The handler's outcome for call i, when all calls before it were served. */
  function OutcomeOf(h: Handler, log: seq<Bytes>, calls: seq<Call>, maxLen: int, i: nat): (o: Outcome)
    requires i < |calls|
  {
    h(log + CommandsOf(calls[..i], maxLen), calls[i].command)
  }

  lemma OutcomeLater(h: Handler, log: seq<Bytes>, calls: seq<Call>, maxLen: int, i: nat)
    requires 1 <= i < |calls|
    ensures OutcomeOf(h, log, calls, maxLen, i) == OutcomeOf(h, LogAfter(log, calls[0], maxLen), calls[1..], maxLen, i - 1)
  {
    assert calls[..i][1..] == calls[1..][..i - 1];
    assert log + CommandsOf(calls[..i], maxLen) == LogAfter(log, calls[0], maxLen) + CommandsOf(calls[1..][..i - 1], maxLen);
  }

  /** Result i of a connection that was in sync until then: the refusal, or the output for the call's own command. */
  ghost predicate ResultIs(h: Handler, log: seq<Bytes>, calls: seq<Call>, maxLen: int, i: nat, r: Result<Bytes>)
    requires i < |calls|
  {
    if Refused(calls[i], maxLen) then r == Err(RefusalOf(calls[i]))
    else r.Ok? && OutcomeOf(h, log, calls, maxLen, i) == Respond(r.value)
  }

  /** Main result. Over any sequence of commands, any handler, and any cut of either stream: the i-th multi-packet
      Execute returns exactly the handler's output for the i-th command, or refuses it, if it is among the answered
      ones, and an error otherwise; never a truncated body and never another command's. As long as all are answered
      nothing is left unread and the handler has run each command once, in order. */
  lemma {:induction false} EveryCallIsAnsweredOrFails(w: Joined, h: Handler, maxLen: int, calls: seq<Call>)
    requires InSync(w) && forall i :: 0 <= i < |calls| ==> SizedCall(calls[i])
    ensures var k := Answered(h, w.log, calls, maxLen, w.conn.room, w.budget);
            var (w', rs) := Run(w, h, ReadMulti, maxLen, calls);
            AnsweredThenFailed(h, w.log, calls, maxLen, k, rs)
            && (k == |calls| ==> InSync(w') && w'.log == w.log + CommandsOf(calls, maxLen))
    decreases |calls|
  {
    hide Round, Answered, AnsweredThenFailed, SizedCall, CommandsOf, InSync;
    if calls == [] {
      NothingAnswered(h, w.log, calls, maxLen, []);
      NoCommands(w.log, maxLen);
    } else {
      var (w1, r) := Round(w, h, ReadMulti, maxLen, calls[0]);
      var (w2, rs) := Run(w1, h, ReadMulti, maxLen, calls[1..]);
      if Answered(h, w.log, calls, maxLen, w.conn.room, w.budget) > 0 {
        FirstAnswered(w, h, maxLen, calls);
        EveryCallIsAnsweredOrFails(w1, h, maxLen, calls[1..]);
        OneMoreAnswered(h, w.log, calls, maxLen, Answered(h, w1.log, calls[1..], maxLen, w1.conn.room, w1.budget), r, rs);
        CommandsFirst(w.log, calls, maxLen);
      } else {
        FirstUnanswered(w, h, maxLen, calls);
        DeadStaysDead(w1, h, maxLen, calls[1..]);
        NothingAnswered(h, w.log, calls, maxLen, [r] + rs);
      }
    }
  }

  lemma NoCommands(log: seq<Bytes>, maxLen: int)
    ensures log + CommandsOf([], maxLen) == log
  {
  }

  lemma CommandsFirst(log: seq<Bytes>, calls: seq<Call>, maxLen: int)
    requires calls != []
    ensures log + CommandsOf(calls, maxLen) == LogAfter(log, calls[0], maxLen) + CommandsOf(calls[1..], maxLen)
  {
  }

  lemma FirstAnswered(w: Joined, h: Handler, maxLen: int, calls: seq<Call>)
    requires InSync(w) && calls != [] && Answered(h, w.log, calls, maxLen, w.conn.room, w.budget) > 0
    ensures var (w1, r) := Round(w, h, ReadMulti, maxLen, calls[0]);
            InSync(w1) && w1.log == LogAfter(w.log, calls[0], maxLen)
            && Answered(h, w.log, calls, maxLen, w.conn.room, w.budget)
               == 1 + Answered(h, w1.log, calls[1..], maxLen, w1.conn.room, w1.budget)
            && (if Refused(calls[0], maxLen) then r == Err(RefusalOf(calls[0]))
                else r.Ok? && h(w.log, calls[0].command) == Respond(r.value))
  {
    hide Round, ReplyLen;
    if Refused(calls[0], maxLen) {
      RoundRefused(w, h, ReadMulti, maxLen, calls[0]);
    } else {
      RoundAnswered(w, h, maxLen, calls[0]);
    }
  }

  lemma FirstUnanswered(w: Joined, h: Handler, maxLen: int, calls: seq<Call>)
    requires InSync(w) && calls != [] && Answered(h, w.log, calls, maxLen, w.conn.room, w.budget) == 0 && SizedCall(calls[0])
    ensures var (w1, r) := Round(w, h, ReadMulti, maxLen, calls[0]);
            r.Err? && Dead(w1)
  {
    hide Round, ReplyLen;
    RoundUnanswered(w, h, maxLen, calls[0]);
  }

  /** The first k results are refusals or the handler's outputs for their own commands, the others are errors. */
  ghost predicate AnsweredThenFailed(h: Handler, log: seq<Bytes>, calls: seq<Call>, maxLen: int, k: nat, rs: seq<Result<Bytes>>)
    requires k <= |calls| == |rs|
  {
    (forall i :: 0 <= i < k ==> ResultIs(h, log, calls, maxLen, i, rs[i])) && AllFailed(rs[k..])
  }

  ghost predicate AllFailed(rs: seq<Result<Bytes>>) { forall i :: 0 <= i < |rs| ==> rs[i].Err? }

  lemma NothingAnswered(h: Handler, log: seq<Bytes>, calls: seq<Call>, maxLen: int, rs: seq<Result<Bytes>>)
    requires |calls| == |rs| && AllFailed(rs)
    ensures AnsweredThenFailed(h, log, calls, maxLen, 0, rs)
  {
    assert rs[0..] == rs;
  }

  lemma OneMoreAnswered(h: Handler, log: seq<Bytes>, calls: seq<Call>, maxLen: int, k: nat, r: Result<Bytes>, rs: seq<Result<Bytes>>)
    requires |calls| == |rs| + 1 && k <= |rs|
    requires if Refused(calls[0], maxLen) then r == Err(RefusalOf(calls[0])) else r.Ok? && h(log, calls[0].command) == Respond(r.value)
    requires AnsweredThenFailed(h, LogAfter(log, calls[0], maxLen), calls[1..], maxLen, k, rs)
    ensures AnsweredThenFailed(h, log, calls, maxLen, k + 1, [r] + rs)
  {
    hide OutcomeOf, LogAfter, Refused, RefusalOf;
    var all := [r] + rs;
    assert all[k + 1..] == rs[k..];
    forall i | 0 <= i < k + 1 ensures ResultIs(h, log, calls, maxLen, i, all[i]) {
      if i == 0 {
        FirstOutcome(h, log, calls, maxLen);
      } else {
        OutcomeLater(h, log, calls, maxLen, i);
        assert ResultIs(h, LogAfter(log, calls[0], maxLen), calls[1..], maxLen, i - 1, rs[i - 1]);
      }
    }
  }

  lemma FirstOutcome(h: Handler, log: seq<Bytes>, calls: seq<Call>, maxLen: int)
    requires calls != []
    ensures OutcomeOf(h, log, calls, maxLen, 0) == h(log, calls[0].command)
  {
    assert calls[..0] == [] && log + CommandsOf([], maxLen) == log;
  }

  lemma {:induction false} DeadStaysDead(w: Joined, h: Handler, maxLen: int, calls: seq<Call>)
    requires Dead(w)
    ensures AllFailed(Run(w, h, ReadMulti, maxLen, calls).1)
    decreases |calls|
  {
    hide Round;
    if calls != [] {
      RoundDead(w, h, maxLen, calls[0]);
      DeadStaysDead(Round(w, h, ReadMulti, maxLen, calls[0]).0, h, maxLen, calls[1..]);
    }
  }

  /** The bytes the calls that are not refused write, and the bytes of their replies. */
  function RequestBytes(calls: seq<Call>, maxLen: int): (n: nat)
  {
    if calls == [] then 0
    else (if Refused(calls[0], maxLen) then 0 else RequestLen(calls[0].command)) + RequestBytes(calls[1..], maxLen)
  }

  function ReplyBytes(h: Handler, log: seq<Bytes>, calls: seq<Call>, maxLen: int): (n: nat)
    decreases |calls|
  {
    if calls == [] then 0
    else
      (if Refused(calls[0], maxLen) then 0
       else match h(log, calls[0].command) case Panic => 0 case Respond(b) => ReplyLen(b))
      + ReplyBytes(h, LogAfter(log, calls[0], maxLen), calls[1..], maxLen)
  }

  /** Call i is refused, or is one the server can read and the handler responds to. */
  ghost predicate Answerable(h: Handler, log: seq<Bytes>, calls: seq<Call>, maxLen: int, i: nat)
    requires i < |calls|
  {
    Refused(calls[i], maxLen) || (|calls[i].command| <= MAX_PAYLOAD_SIZE && OutcomeOf(h, log, calls, maxLen, i).Respond?)
  }

  ghost predicate AllAnswerable(h: Handler, log: seq<Bytes>, calls: seq<Call>, maxLen: int, n: nat)
    requires n <= |calls|
  {
    forall i :: 0 <= i < n ==> Answerable(h, log, calls, maxLen, i)
  }

  /** When the first n calls are answered: exactly if each is answerable, the bytes the client writes for them fit
      through its stream, and the server's through the other. */
  lemma {:induction false} AnsweredMeaning(h: Handler, log: seq<Bytes>, calls: seq<Call>, maxLen: int, room: nat, budget: nat, n: nat)
    requires n <= |calls|
    ensures n <= Answered(h, log, calls, maxLen, room, budget)
       <==> AllAnswerable(h, log, calls, maxLen, n)
            && RequestBytes(calls[..n], maxLen) <= room && ReplyBytes(h, log, calls[..n], maxLen) <= budget
    decreases n
  {
    hide ReplyLen, AllAnswerable;
    if n == 0 {
      assert AllAnswerable(h, log, calls, maxLen, n) by { NoneToAnswer(h, log, calls, maxLen); }
    } else {
      var c, later := calls[0].command, calls[1..];
      assert calls[..n][1..] == later[..n - 1];
      AnswerableSplit(h, log, calls, maxLen, n);
      FirstOutcome(h, log, calls, maxLen);
      if Refused(calls[0], maxLen) {
        AnsweredMeaning(h, log, later, maxLen, room, budget, n - 1);
      } else if h(log, c).Respond? && RequestLen(c) <= room && ReplyLen(h(log, c).body) <= budget {
        AnsweredMeaning(h, log + [c], later, maxLen, room - RequestLen(c), budget - ReplyLen(h(log, c).body), n - 1);
      }
    }
  }

  lemma NoneToAnswer(h: Handler, log: seq<Bytes>, calls: seq<Call>, maxLen: int)
    ensures AllAnswerable(h, log, calls, maxLen, 0)
  {
  }

  lemma AnswerableSplit(h: Handler, log: seq<Bytes>, calls: seq<Call>, maxLen: int, n: nat)
    requires 1 <= n <= |calls|
    ensures AllAnswerable(h, log, calls, maxLen, n)
       <==> Answerable(h, log, calls, maxLen, 0) && AllAnswerable(h, LogAfter(log, calls[0], maxLen), calls[1..], maxLen, n - 1)
  {
    hide OutcomeOf, LogAfter, Refused;
    var log', later := LogAfter(log, calls[0], maxLen), calls[1..];
    forall i | 1 <= i < n ensures Answerable(h, log, calls, maxLen, i) <==> Answerable(h, log', later, maxLen, i - 1) {
      OutcomeLater(h, log, calls, maxLen, i);
    }
    if AllAnswerable(h, log, calls, maxLen, n) {
      forall j | 0 <= j < n - 1 ensures Answerable(h, log', later, maxLen, j) {
        assert Answerable(h, log, calls, maxLen, j + 1);
      }
    }
  }
}
