/** Runs of the concurrent system in which a call returns a body that is not its own command's output: after a read that
    stopped inside a frame, after a write that did, and after an identifier came round again while a reply to it was unread.
    So none of the conditions of EveryCallerGetsItsOwnReply can be dropped. */
module ConnTorn {
  import opened Wire
  import opened RequestIds
  import opened Conn
  import opened ServerConn
  import opened Reassembly
  import opened EndToEnd
  import opened ConnRace
  import opened ConnReplies
  import opened TornStreams
  import opened ConnSolo

  function AfterRequest(g: Shared, t: Tid, cmd: Bytes): (g': Shared) { Written(g, t, Request(g, cmd), |Encode(Request(g, cmd))|) }

  /** Both frames of a call are written whole and have reached the server. */
  function AfterSend(g: Shared, t: Tid, cmd: Bytes): (g': Shared)
  {
    var g2 := Written(AfterRequest(g, t, cmd), t, Sentinel(g), |Encode(Sentinel(g))|);
    g2.(got := |g2.sent|)
  }

  /** With enough room both frames are written whole. */
  lemma WrittenWhole(g: Shared, t: Tid, cmd: Bytes)
    ensures var room := |Encode(Request(g, cmd))| + |Encode(Sentinel(g))|;
            var (g', pc') := WrittenSecond(g, t, cmd, room);
            g' == Written(AfterRequest(g, t, cmd), t, Sentinel(g), |Encode(Sentinel(g))|)
            && pc' == Reading(cmd, |g.past.wire|, Ids(IdAfter(g.issued + 1), IdAfter(g.issued + 2)), [])
  {
    hide Encode, IdAfter;
  }

  /** A call goes through until it waits for its reply. */
  lemma SendRound(h: Handler, maxLen: int, run: seq<System>, t: Tid, cmd: Bytes) returns (run': seq<System>)
    requires IsRun(h, maxLen, run)
    requires var s := run[|run| - 1]; s.g.got <= |s.g.sent| && s.g.mu.None? && s.g.flags == {} && t !in s.threads
    requires cmd != [] && (maxLen > 0 ==> |cmd| <= maxLen)
    ensures IsRun(h, maxLen, run') && |run'| > 0
    ensures var s := run[|run| - 1];
            run'[|run'| - 1] == At(AfterSend(s.g.(mu := Some(t)), t, cmd), s.threads, t,
                                   Reading(cmd, |s.g.past.wire|, Ids(IdAfter(s.g.issued + 1), IdAfter(s.g.issued + 2)), []))
  {
    var s := run[|run| - 1];
    var g := s.g.(mu := Some(t));
    var room := |Encode(Request(g, cmd))| + |Encode(Sentinel(g))|;
    hide IsRun, IdAfter, Encode;
    run' := EnterIsARun(h, maxLen, run, t, cmd);
    run' := WriteIsARun(h, maxLen, run', g, s.threads, t, cmd, room);
    WrittenWhole(g, t, cmd);
    WrittenKeeps(g, t, cmd, room);
    var g2 := WrittenSecond(g, t, cmd, room).0;
    hide WrittenSecond;
    run' := ArriveIsARun(h, maxLen, run', g.got, |g2.sent|);
  }

  lemma {:induction false} ReadableAll(ps: seq<Packet>)
    requires AllLegal(ps)
    ensures Readable(ps, |EncodeAll(ps)|) == |ps|
  {
    hide Encode;
    if ps != [] {
      ReadableAll(ps[1..]);
    }
  }

  /** The server's stream once everything written has arrived. */
  lemma StreamOfAll(h: Handler, g: Shared)
    requires g.sent == EncodeAll(g.past.wire) && g.got == |g.sent| && AllLegal(g.past.wire)
    ensures Stream(h, g) == EncodeAll(Serve(h, [], g.past.wire).out)
  {
    ReadableAll(g.past.wire);
    hide Serve, EncodeAll, Readable;
    StreamIsReplies(h, g);
    assert g.past.wire[..|g.past.wire|] == g.past.wire;
  }

  lemma ServeRequest(h: Handler, log: seq<Bytes>, req: Int32, sentinel: Int32, cmd: Bytes, b: Bytes)
    requires h(log, cmd) == Respond(b)
    ensures Serve(h, log, [ExecFrame(req, cmd), SentinelFrame(sentinel)]) == Served(Answer(req, sentinel, b), log + [cmd], true)
  {
    var p, q := ExecFrame(req, cmd), SentinelFrame(sentinel);
    ServeOne(h, log, p);
    ServeOne(h, log + [cmd], q);
    hide Serve, ResponseFrames;
    ServeIncremental(h, log, [p], [q]);
    assert [p] + [q] == [p, q];
  }

  /** One call's steps on the history: two more frames, and nothing torn. */
  lemma SentTwo(g: Shared, t: Tid, cmd: Bytes)
    requires g.sent == EncodeAll(g.past.wire)
    ensures var g' := AfterSend(g, t, cmd);
            g'.past == g.past.(wire := g.past.wire + [Request(g, cmd), Sentinel(g)], writers := g'.past.writers, nums := g'.past.nums)
            && g'.sent == EncodeAll(g'.past.wire) && g'.got == |g'.sent| && g'.issued == g.issued + 2
            && g'.mu == g.mu && g'.read == g.read && g'.flags == g.flags
  {
    var p, q := Request(g, cmd), Sentinel(g);
    EncodeAllConcat(g.past.wire, [p]);
    EncodeAllConcat(g.past.wire + [p], [q]);
    EncodeAllOne(p);
    EncodeAllOne(q);
    hide Encode, EncodeAll, IdAfter;
    assert Encode(p)[..|Encode(p)|] == Encode(p) && Encode(q)[..|Encode(q)|] == Encode(q);
    assert g.past.wire + [p] + [q] == g.past.wire + [p, q];
  }

  /** The state in which a call has read the first n bytes of what there is, and failed on them. */
  function AfterSpill(g: Shared, n: nat): (g': Shared)
  {
    Consume(Release(g), n).(past := g.past.(spilled := g.past.spilled + n))
  }

  lemma SpillStep(h: Handler, maxLen: int, g: Shared, threads: map<Tid, Pc>, t: Tid, pc: Pc, n: nat)
    requires pc.Reading? && g.got <= |g.sent| && g.read + n <= |Stream(h, g)|
    requires Decode(Stream(h, g)[g.read..g.read + n], DeadlineExpired) == Fault(Net(true), [])
    ensures Do(h, maxLen, At(g, threads, t, pc), At(AfterSpill(g, n), threads, t, Finished(pc.cmd, false, 0, Err(Net(true)))), t,
               Read(n, DeadlineExpired, _ => 0))
  {
    hide Stream, Decode, IdAfter;
    assert threads[t := pc][t := Finished(pc.cmd, false, 0, Err(Net(true)))] == threads[t := Finished(pc.cmd, false, 0, Err(Net(true)))];
  }

  lemma EchoRead(g: Shared, pc: Pc, more: Bytes) returns (g': Shared)
    requires pc.Reading?
    ensures ReadStep(g, g', pc, Finished(pc.cmd, false, pc.k, Ok(pc.acc)), Encode(SentinelFrame(pc.ids.sentinel)) + more,
                     EndOfStream, _ => 0)
    ensures g'.past == g.past.(taken := g.past.taken + 1) && g'.issued == g.issued
  {
    DecodeEncode(SentinelFrame(pc.ids.sentinel), more, EndOfStream);
    hide Decode, Encode;
    var n := |Encode(SentinelFrame(pc.ids.sentinel)) + more| - |Drain(more, EndOfStream, _ => 0)|;
    g' := Consume(Release(g), n).(past := g.past.(taken := g.past.taken + 1));
  }

  lemma EchoStep(h: Handler, maxLen: int, g: Shared, threads: map<Tid, Pc>, t: Tid, pc: Pc, n: nat, more: Bytes) returns (g': Shared)
    requires pc.Reading? && g.got <= |g.sent| && g.read + n <= |Stream(h, g)|
    requires Stream(h, g)[g.read..g.read + n] == Encode(SentinelFrame(pc.ids.sentinel)) + more
    ensures Do(h, maxLen, At(g, threads, t, pc), At(g', threads, t, Finished(pc.cmd, false, pc.k, Ok(pc.acc))), t,
               Read(n, EndOfStream, _ => 0))
    ensures g'.past == g.past.(taken := g.past.taken + 1) && g'.issued == g.issued
  {
    hide Stream, IdAfter, Encode, ReadStep;
    g' := EchoRead(g, pc, more);
    assert threads[t := pc][t := Finished(pc.cmd, false, pc.k, Ok(pc.acc))] == threads[t := Finished(pc.cmd, false, pc.k, Ok(pc.acc))];
  }

  /** The replies to the two calls of the run below. */
  lemma TwoReplies(h: Handler, first: Bytes, second: Bytes, trap: Bytes, b: Bytes, req: Int32, sentinel: Int32)
    requires h([], first) == Respond(trap) && h([first], second) == Respond(b)
    ensures var wire1 := [ExecFrame(1, first), SentinelFrame(2)];
            var wire2 := wire1 + [ExecFrame(req, second), SentinelFrame(sentinel)];
            Serve(h, [], wire1) == Served(Answer(1, 2, trap), [first], true)
            && EncodeAll(Serve(h, [], wire2).out) == EncodeAll(Answer(1, 2, trap)) + EncodeAll(Answer(req, sentinel, b))
  {
    var wire1 := [ExecFrame(1, first), SentinelFrame(2)];
    var more := [ExecFrame(req, second), SentinelFrame(sentinel)];
    ServeRequest(h, [], 1, 2, first, trap);
    ServeRequest(h, [first], req, sentinel, second, b);
    hide Serve, EncodeAll, Answer;
    assert [] + [first] == [first];
    ServeIncremental(h, [], wire1, more);
    EncodeAllConcat(Answer(1, 2, trap), Answer(req, sentinel, b));
  }

  function Begun(): (s: System) { System(Shared(None, {}, 0, [], [], 0, 0, Past([], [], [], 0, 0, 0)), map[]) }

  /** The first call: it sends, and its read times out after the header and x. */
  lemma FirstCall(h: Handler, maxLen: int, first: Bytes, x: Bytes) returns (run: seq<System>, g: Shared)
    requires 0 < |first| <= MAX_PAYLOAD_SIZE && (maxLen > 0 ==> |first| <= maxLen) && |x| + 14 <= MAX_PAYLOAD_SIZE
    requires h([], first) == Respond(Trap(x, 4))
    ensures IsRun(h, maxLen, run) && run[|run| - 1] == System(g, map[0 := Finished(first, false, 0, Err(Net(true)))])
    ensures g.past.wire == [ExecFrame(1, first), SentinelFrame(2)] && g.past.torn == 0 && g.past.spilled == g.read == 12 + |x|
    ensures g.sent == EncodeAll(g.past.wire) && g.got == |g.sent| && g.mu.None? && g.flags == {} && g.issued == 2
  {
    EveryPositiveIdIsIssued(1);
    EveryPositiveIdIsIssued(2);
    var s := Begun();
    run := [s];
    hide IdAfter;
    run := SendRound(h, maxLen, run, 0, first);
    var g0 := s.g.(mu := Some(0));
    SentTwo(g0, 0, first);
    var g1 := AfterSend(g0, 0, first);
    var pc := Reading(first, 0, Ids(1, 2), []);
    assert g1.past.wire == [ExecFrame(1, first), SentinelFrame(2)];
    StreamOfAll(h, g1);
    TwoRepliesFirst(h, first, Trap(x, 4));
    TrapSprung(1, 2, x, 4);
    hide Stream, Serve, EncodeAll, Answer, Trap, AfterSend, Decode, IsRun, Do;
    var n := 12 + |x|;
    assert Stream(h, g1)[0..n] == Stream(h, g1)[..n];
    SpillStep(h, maxLen, g1, map[], 0, pc, n);
    g := AfterSpill(g1, n);
    run := Grow(h, maxLen, run, At(g, map[], 0, Finished(first, false, 0, Err(Net(true)))), 0, Read(n, DeadlineExpired, _ => 0));
  }

  lemma TwoRepliesFirst(h: Handler, first: Bytes, trap: Bytes)
    requires h([], first) == Respond(trap)
    ensures Serve(h, [], [ExecFrame(1, first), SentinelFrame(2)]) == Served(Answer(1, 2, trap), [first], true)
  {
    ServeRequest(h, [], 1, 2, first, trap);
    assert [] + [first] == [first];
  }

  /** There is a run, for every x, in which nothing was torn, one read spilled 12 + |x| bytes of a frame, only four
      identifiers were used, and the second call returns a body that is not its own command's output. */
  lemma SpilledReadAdmitsForeignBody(h: Handler, maxLen: int, first: Bytes, second: Bytes, x: Bytes, b: Bytes)
      returns (run: seq<System>)
    requires 0 < |first| <= MAX_PAYLOAD_SIZE && 0 < |second| <= MAX_PAYLOAD_SIZE && |x| + 14 <= MAX_PAYLOAD_SIZE
    requires maxLen > 0 ==> |first| <= maxLen && |second| <= maxLen
    requires h([], first) == Respond(Trap(x, 4)) && h([first], second) == Respond(b) && b != []
    ensures IsRun(h, maxLen, run)
    ensures var s := run[|run| - 1];
            s.g.past.torn == 0 && s.g.past.spilled == 12 + |x| && AllSized(s.g.past.wire) && s.g.issued == 4
            && 1 in s.threads && s.threads[1] == Finished(second, false, 2, Ok([])) && !OwnReply(h, s.g, 1, s.threads[1])
  {
    hide Stream, EncodeAll, Answer, Trap, IsRun, Do, Encode, OwnReply, SoFar;
    var g, threads;
    run, g, threads := SecondSend(h, maxLen, first, second, x);
    SecondStream(h, g, first, second, x, b);
    var more := [0, 0] + Encode(SentinelFrame(2)) + EncodeAll(Answer(3, 4, b));
    var n := |Stream(h, g)| - g.read;
    var g' := EchoStep(h, maxLen, g, threads, 1, Reading(second, 2, Ids(3, 4), []), n, more);
    var done := Finished(second, false, 2, Ok([]));
    run := Grow(h, maxLen, run, At(g', threads, 1, done), 1, Read(n, EndOfStream, _ => 0));
    ForeignReply(h, g', first, second, Trap(x, 4), b, done);
  }

  /** The second call, until it waits for its reply. */
  lemma SecondSend(h: Handler, maxLen: int, first: Bytes, second: Bytes, x: Bytes)
      returns (run: seq<System>, g: Shared, threads: map<Tid, Pc>)
    requires 0 < |first| <= MAX_PAYLOAD_SIZE && 0 < |second| <= MAX_PAYLOAD_SIZE && |x| + 14 <= MAX_PAYLOAD_SIZE
    requires maxLen > 0 ==> |first| <= maxLen && |second| <= maxLen
    requires h([], first) == Respond(Trap(x, 4))
    ensures IsRun(h, maxLen, run) && run[|run| - 1] == At(g, threads, 1, Reading(second, 2, Ids(3, 4), []))
    ensures g.past.wire == [ExecFrame(1, first), SentinelFrame(2)] + [ExecFrame(3, second), SentinelFrame(4)]
    ensures g.past.torn == 0 && g.past.spilled == g.read == 12 + |x| && AllSized(g.past.wire) && g.issued == 4
    ensures g.sent == EncodeAll(g.past.wire) && g.got == |g.sent|
  {
    EveryPositiveIdIsIssued(3);
    EveryPositiveIdIsIssued(4);
    hide IdAfter, EncodeAll, Trap, IsRun, Encode;
    var g0;
    run, g0 := FirstCall(h, maxLen, first, x);
    threads := run[|run| - 1].threads;
    run := SendRound(h, maxLen, run, 1, second);
    SentTwo(g0.(mu := Some(1)), 1, second);
    g := AfterSend(g0.(mu := Some(1)), 1, second);
    hide AfterSend;
  }

  lemma ForeignReply(h: Handler, g: Shared, first: Bytes, second: Bytes, trap: Bytes, b: Bytes, pc: Pc)
    requires h([], first) == Respond(trap) && h([first], second) == Respond(b) && b != []
    requires g.past.wire == [ExecFrame(1, first), SentinelFrame(2)] + [ExecFrame(3, second), SentinelFrame(4)]
    requires pc == Finished(second, false, 2, Ok([]))
    ensures !OwnReply(h, g, 1, pc)
  {
    TwoRepliesFirst(h, first, trap);
    hide Serve, Answer;
    assert g.past.wire[..2] == [ExecFrame(1, first), SentinelFrame(2)];
  }

  /** What the second call sees where the first one stopped. */
  lemma SecondStream(h: Handler, g: Shared, first: Bytes, second: Bytes, x: Bytes, b: Bytes)
    requires |first| <= MAX_PAYLOAD_SIZE && |second| <= MAX_PAYLOAD_SIZE && |x| + 14 <= MAX_PAYLOAD_SIZE
    requires h([], first) == Respond(Trap(x, 4)) && h([first], second) == Respond(b)
    requires g.past.wire == [ExecFrame(1, first), SentinelFrame(2)] + [ExecFrame(3, second), SentinelFrame(4)]
    requires g.sent == EncodeAll(g.past.wire) && g.got == |g.sent| && g.read == 12 + |x|
    ensures g.read <= |Stream(h, g)|
    ensures Stream(h, g)[g.read..|Stream(h, g)|]
         == Encode(SentinelFrame(4)) + ([0, 0] + Encode(SentinelFrame(2)) + EncodeAll(Answer(3, 4, b)))
  {
    StreamOfAll(h, g);
    TwoReplies(h, first, second, Trap(x, 4), b, 3, 4);
    TrapSprung(1, 2, x, 4);
    var reply1, reply2 := EncodeAll(Answer(1, 2, Trap(x, 4))), EncodeAll(Answer(3, 4, b));
    hide Stream, Serve, EncodeAll, Answer, Trap, Encode, Decode;
    assert (reply1 + reply2)[g.read..] == reply1[g.read..] + reply2;
  }

  // ----- a torn write -----

  /** The first call: its request is cut after nine bytes. */
  lemma TornCall(h: Handler, maxLen: int, first: Bytes) returns (run: seq<System>, g: Shared)
    requires |first| == 7 && (maxLen > 0 ==> maxLen >= 7)
    ensures IsRun(h, maxLen, run) && run[|run| - 1] == System(g, map[0 := Finished(first, false, 0, Err(Net(false)))])
    ensures |Encode(ExecFrame(1, first))| >= 9 && g.sent == Encode(ExecFrame(1, first))[..9] && g.got == 0 && g.mu.None? && g.flags == {}
    ensures g.issued == 1 && g.read == 0 && g.past == Past([], [], [], 0, 9, 0)
  {
    EveryPositiveIdIsIssued(1);
    run := [Begun()];
    hide IdAfter, Encode;
    run := EnterIsARun(h, maxLen, run, 0, first);
    var g0 := Begun().g.(mu := Some(0));
    hide IsRun;
    run := WriteIsARun(h, maxLen, run, g0, map[], 0, first, 9);
    g := WrittenSecond(g0, 0, first, 9).0;
    assert [] + Encode(ExecFrame(1, first))[..9] == Encode(ExecFrame(1, first))[..9];
  }

  /** There is a run with two calls in which nothing was spilled and three identifiers were used, but the first write was torn;
      and the second call returns an empty body although the server has not run its command. */
  lemma TornWriteAdmitsForeignBody(h: Handler, maxLen: int, first: Bytes) returns (run: seq<System>)
    requires |first| == 7 && (maxLen > 0 ==> maxLen >= 14)
    requires h([], Encode(SentinelFrame(3))) != Respond([])
    ensures IsRun(h, maxLen, run)
    ensures var s := run[|run| - 1];
            s.g.past.torn == 9 && s.g.past.spilled == 0 && AllSized(s.g.past.wire) && s.g.issued == 3
            && 1 in s.threads && s.threads[1] == Finished(Encode(SentinelFrame(3)), false, 0, Ok([]))
            && !OwnReply(h, s.g, 1, s.threads[1])
  {
    var second := Encode(SentinelFrame(3));
    hide Encode, IsRun, Stream, OwnReply, Do, At;
    var g, threads;
    run, g, threads := TornSecond(h, maxLen, first);
    var pc, n, done := Reading(second, 0, Ids(2, 3), []), |Stream(h, g)|, Finished(second, false, 0, Ok([]));
    assert Stream(h, g)[0..n] == second + [];
    var g' := EchoStep(h, maxLen, g, threads, 1, pc, n, []);
    run := Grow(h, maxLen, run, At(g', threads, 1, done), 1, Read(n, EndOfStream, _ => 0));
    NotRun(h, g', second, done);
    AtItsPlace(g', threads, 1, done);
  }

  /** The second call, until it waits for its reply. */
  lemma TornSecond(h: Handler, maxLen: int, first: Bytes) returns (run: seq<System>, g: Shared, threads: map<Tid, Pc>)
    requires |first| == 7 && (maxLen > 0 ==> maxLen >= 14)
    ensures var second := Encode(SentinelFrame(3));
            IsRun(h, maxLen, run) && |run| > 0 && run[|run| - 1] == At(g, threads, 1, Reading(second, 0, Ids(2, 3), []))
            && g.got <= |g.sent| && Stream(h, g) == second
    ensures g.past.torn == 9 && g.past.spilled == 0 && g.issued == 3 && g.read == 0 && AllSized(g.past.wire)
  {
    var second := Encode(SentinelFrame(3));
    EveryPositiveIdIsIssued(2);
    EveryPositiveIdIsIssued(3);
    var g0;
    run, g0 := TornCall(h, maxLen, first);
    assert |run| > 0;
    hide IdAfter, Encode, IsRun, Stream, AfterSend, At;
    threads := run[|run| - 1].threads;
    run := SendRound(h, maxLen, run, 1, second);
    g := AfterSend(g0.(mu := Some(1)), 1, second);
    TornStream(h, g0.(mu := Some(1)), first);
  }

  lemma NotRun(h: Handler, g: Shared, second: Bytes, pc: Pc)
    requires h([], second) != Respond([]) && pc == Finished(second, false, 0, Ok([]))
    ensures !OwnReply(h, g, 1, pc)
  {
    if |g.past.wire| > 0 {
      assert g.past.wire[..0] == [];
    }
  }

  lemma TornStream(h: Handler, g: Shared, first: Bytes)
    requires |first| == 7 && g.sent == Encode(ExecFrame(1, first))[..9] && g.issued == 1 && g.past == Past([], [], [], 0, 9, 0)
    requires IdAfter(2) == 2 && IdAfter(3) == 3
    ensures var second := Encode(SentinelFrame(3));
            var g' := AfterSend(g, 1, second);
            g'.got <= |g'.sent| && Stream(h, g') == second && g'.past.torn == 9 && g'.past.spilled == 0 && g'.issued == 3 && g'.read == g.read
            && g'.past.wire == [ExecFrame(2, second), SentinelFrame(3)]
  {
    var second := Encode(SentinelFrame(3));
    var g' := AfterSend(g, 1, second);
    TornServed(h, [], first, 1, 2, 3);
    EncodeAllOne(SentinelFrame(3));
    hide IdAfter, Encode, ParseFrames, Serve, EncodeAll;
    var p, q := ExecFrame(2, second), SentinelFrame(3);
    assert Encode(p)[..|Encode(p)|] == Encode(p) && Encode(q)[..|Encode(q)|] == Encode(q);
    assert g'.sent == Encode(ExecFrame(1, first))[..9] + Encode(p) + Encode(q);
    assert g'.sent[..g'.got] == g'.sent;
    assert [] + [p] + [q] == [p, q];
  }

  // ----- identifiers that come round again -----

  /** A call whose write takes nothing uses up an identifier and changes nothing else. */
  lemma FailingCall(h: Handler, maxLen: int, run: seq<System>, t: Tid, cmd: Bytes) returns (run': seq<System>)
    requires IsRun(h, maxLen, run) && cmd != [] && (maxLen > 0 ==> |cmd| <= maxLen)
    requires var s := run[|run| - 1]; s.g.got <= |s.g.sent| && s.g.mu.None? && s.g.flags == {} && t !in s.threads
    ensures IsRun(h, maxLen, run')
    ensures var s := run[|run| - 1];
            run'[|run'| - 1] == At(s.g.(issued := s.g.issued + 1), s.threads, t, Finished(cmd, false, 0, Err(Net(false))))
  {
    var s := run[|run| - 1];
    var g := s.g.(mu := Some(t));
    hide IsRun, IdAfter, Encode;
    run' := EnterIsARun(h, maxLen, run, t, cmd);
    run' := WriteIsARun(h, maxLen, run', g, s.threads, t, cmd, 0);
    var g' := WrittenSecond(g, t, cmd, 0).0;
    assert g'.sent == g.sent && g'.authors == g.authors;
  }

  lemma {:induction false} FailingCalls(h: Handler, maxLen: int, run: seq<System>, from: Tid, cmd: Bytes, m: nat) returns (run': seq<System>)
    requires IsRun(h, maxLen, run) && cmd != [] && (maxLen > 0 ==> |cmd| <= maxLen)
    requires var s := run[|run| - 1];
             s.g.got <= |s.g.sent| && s.g.mu.None? && s.g.flags == {} && forall t: Tid :: t >= from ==> t !in s.threads
    ensures IsRun(h, maxLen, run') && |run'| > 0
    ensures var s, s' := run[|run| - 1], run'[|run'| - 1];
            s'.g == s.g.(issued := s.g.issued + m) && forall t: Tid :: t >= from + m ==> t !in s'.threads
    decreases m
  {
    assert |run| > 0;
    hide IsRun;
    if m == 0 {
      run' := run;
    } else {
      run' := FailingCall(h, maxLen, run, from, cmd);
      run' := FailingCalls(h, maxLen, run', from + 1, cmd, m - 1);
    }
  }

  /** The first call: its read times out before anything came, and its reply stays unread. */
  lemma UnreadCall(h: Handler, maxLen: int, first: Bytes) returns (run: seq<System>, g: Shared)
    requires 0 < |first| <= MAX_PAYLOAD_SIZE && (maxLen > 0 ==> |first| <= maxLen)
    ensures IsRun(h, maxLen, run) && run[|run| - 1] == System(g, map[0 := Finished(first, false, 0, Err(Net(true)))])
    ensures g.past.wire == [ExecFrame(1, first), SentinelFrame(2)] && g.past.torn == 0 && g.past.spilled == g.read == 0
    ensures g.sent == EncodeAll(g.past.wire) && g.got == |g.sent| && g.mu.None? && g.flags == {} && g.issued == 2
  {
    EveryPositiveIdIsIssued(1);
    EveryPositiveIdIsIssued(2);
    run := [Begun()];
    hide IdAfter;
    run := SendRound(h, maxLen, run, 0, first);
    var g0 := Begun().g.(mu := Some(0));
    SentTwo(g0, 0, first);
    var g1 := AfterSend(g0, 0, first);
    hide Stream, EncodeAll, AfterSend, IsRun, Do;
    assert Stream(h, g1)[0..0] == [];
    DecodeNothing(DeadlineExpired);
    SpillStep(h, maxLen, g1, map[], 0, Reading(first, 0, Ids(1, 2), []), 0);
    g := AfterSpill(g1, 0);
    run := Grow(h, maxLen, run, At(g, map[], 0, Finished(first, false, 0, Err(Net(true)))), 0, Read(0, DeadlineExpired, _ => 0));
    assert [ExecFrame(1, first), SentinelFrame(2)] == [] + [ExecFrame(1, first), SentinelFrame(2)];
  }

  lemma ReusedIds()
    ensures IdAfter(PERIOD + 1) == 1 && IdAfter(PERIOD + 2) == 2
  {
    IdFormula(PERIOD + 1);
    IdFormula(PERIOD + 2);
    hide IdAfter;
  }

  /** The last call of the run below, until it waits for its reply: its identifiers are those of the first one. */
  lemma ReusingSend(h: Handler, maxLen: int, first: Bytes, second: Bytes)
      returns (run: seq<System>, g: Shared, threads: map<Tid, Pc>, t: Tid)
    requires 0 < |first| <= MAX_PAYLOAD_SIZE && 0 < |second| <= MAX_PAYLOAD_SIZE
    requires maxLen > 0 ==> |first| <= maxLen && |second| <= maxLen
    ensures IsRun(h, maxLen, run) && run[|run| - 1] == At(g, threads, t, Reading(second, 2, Ids(1, 2), []))
    ensures g.past.wire == [ExecFrame(1, first), SentinelFrame(2)] + [ExecFrame(1, second), SentinelFrame(2)]
    ensures g.past.torn == 0 && g.past.spilled == g.read == 0 && AllSized(g.past.wire)
    ensures g.sent == EncodeAll(g.past.wire) && g.got == |g.sent|
  {
    ReusedIds();
    hide IdAfter, EncodeAll, IsRun, AfterSend, At;
    var g0;
    run, g0 := UnreadCall(h, maxLen, first);
    run := FailingCalls(h, maxLen, run, 1, second, PERIOD - 2);
    t := PERIOD - 1;
    threads := run[|run| - 1].threads;
    run := SendRound(h, maxLen, run, t, second);
    var held := g0.(issued := PERIOD, mu := Some(t));
    SentTwo(held, t, second);
    g := AfterSend(held, t, second);
  }

  /** There is a run in which nothing was torn or spilled, but identifiers came round again while the reply to the first call was
      unread; and a later call returns the first one's output, of any length, for its own. */
  lemma ReusedIdAdmitsForeignBody(h: Handler, maxLen: int, first: Bytes, second: Bytes, a: Bytes, b: Bytes)
      returns (run: seq<System>, t: Tid)
    requires 0 < |first| <= MAX_PAYLOAD_SIZE && 0 < |second| <= MAX_PAYLOAD_SIZE
    requires maxLen > 0 ==> |first| <= maxLen && |second| <= maxLen
    requires h([], first) == Respond(a) && h([first], second) == Respond(b) && a != b
    ensures IsRun(h, maxLen, run)
    ensures var s := run[|run| - 1];
            Undisturbed(s.g) && t in s.threads && s.threads[t].Finished? && s.threads[t].cmd == second
            && s.threads[t].result == Ok(a) && !OwnReply(h, s.g, t, s.threads[t])
  {
    hide IsRun, EncodeAll, Stream, OwnReply, Answer, AllSized, Multi, At;
    var g, threads;
    run, g, threads, t := ReusingSend(h, maxLen, first, second);
    var none: Bytes -> nat := _ => 0;
    ReusedStream(h, g, first, second, a, b, none);
    var n := |Stream(h, g)|;
    assert Stream(h, g)[0..n] == Stream(h, g);
    var pc := Reading(second, 2, Ids(1, 2), []);
    var g', pc';
    run, g', pc' := ReadAll(h, maxLen, run, g, threads, t, pc, n, EndOfStream, none);
    OldEnd(h, g, g', pc, pc', Stream(h, g), none, a);
    OldReply(h, g', t, first, second, a, b, pc');
    AtItsPlace(g', threads, t, pc');
  }

  lemma AtItsPlace(g: Shared, threads: map<Tid, Pc>, t: Tid, pc: Pc)
    ensures var s := At(g, threads, t, pc); s.g == g && t in s.threads && s.threads[t] == pc
  {
  }

  lemma OldEnd(h: Handler, g: Shared, g': Shared, pc: Pc, pc': Pc, seen: Bytes, buffered: Bytes -> nat, a: Bytes)
    requires pc.Reading? && pc.acc == [] && ReadsEnd(g, g', pc, pc', seen, EndOfStream, buffered)
    requires Multi(seen, EndOfStream, buffered, pc.ids.req, pc.ids.sentinel).result == Ok(a)
    ensures pc'.Finished? && pc'.cmd == pc.cmd && pc'.k == pc.k && pc'.result == Ok(a)
    ensures g'.past == g.past.(taken := g'.past.taken)
  {
    hide Multi;
    assert [] + a == a;
  }

  lemma ReusedStream(h: Handler, g: Shared, first: Bytes, second: Bytes, a: Bytes, b: Bytes, buffered: Bytes -> nat)
    requires |first| <= MAX_PAYLOAD_SIZE && |second| <= MAX_PAYLOAD_SIZE
    requires h([], first) == Respond(a) && h([first], second) == Respond(b)
    requires g.past.wire == [ExecFrame(1, first), SentinelFrame(2)] + [ExecFrame(1, second), SentinelFrame(2)]
    requires g.sent == EncodeAll(g.past.wire) && g.got == |g.sent|
    ensures Multi(Stream(h, g), EndOfStream, buffered, 1, 2).result == Ok(a)
  {
    StreamOfAll(h, g);
    TwoReplies(h, first, second, a, b, 1, 2);
    ResponseFramesCarryBody(1, a);
    hide Stream, Serve, EncodeAll, ResponseFrames, Bodies, Multi;
    MultiComplete(ResponseFrames(1, a), SentinelFrame(2), EncodeAll(Answer(1, 2, b)), EndOfStream, buffered, 1, 2);
  }

  lemma OldReply(h: Handler, g: Shared, t: Tid, first: Bytes, second: Bytes, a: Bytes, b: Bytes, pc: Pc)
    requires h([], first) == Respond(a) && h([first], second) == Respond(b) && a != b
    requires g.past.wire == [ExecFrame(1, first), SentinelFrame(2)] + [ExecFrame(1, second), SentinelFrame(2)]
    requires pc.Finished? && pc.cmd == second && pc.k == 2 && pc.result == Ok(a)
    ensures !OwnReply(h, g, t, pc)
  {
    TwoRepliesFirst(h, first, a);
    hide Serve, Answer;
    assert g.past.wire[..2] == [ExecFrame(1, first), SentinelFrame(2)];
  }
}
