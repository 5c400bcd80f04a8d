/** Servers that send extra frames after the echo of the sentinel (rcon/conn.go 228-243): what happens when
    they are drained, and what happens when they come too late. */
module Mirrors {
  import opened Wire
  import opened RequestIds
  import opened Conn
  import opened ServerConn
  import opened Reassembly
  import opened EndToEnd

  /** One call. `late` are frames that reach the client ahead of its reply, `trailing` frames that follow the
      echo of its sentinel. */
  datatype MirrorCall = MirrorCall(call: Call, late: seq<Packet>, trailing: seq<Packet>)

  function MirrorRound(st: State, log: seq<Bytes>, h: Handler, maxLen: int, m: MirrorCall): (r: (State, Result<Bytes>))
  {
    var (st1, sent) := Send(st, ReadMulti, maxLen, m.call.command);
    match sent
    case Err(e) => (st1, Err(e))
    case Ok(ids) =>
      var reply := match h(log, m.call.command) case Respond(b) => Answer(ids.req, ids.sentinel, b) + m.trailing case Panic => [];
      Receive(st1, ReadMulti, ids, Network(EncodeAll(m.late + reply), m.call.ending, m.call.buffered))
  }

  function MirrorRun(st: State, log: seq<Bytes>, h: Handler, maxLen: int, ms: seq<MirrorCall>)
    : (r: (State, seq<Result<Bytes>>))
    ensures |r.1| == |ms|
    decreases |ms|
  {
    if ms == [] then (st, [])
    else
      var (st1, r) := MirrorRound(st, log, h, maxLen, ms[0]);
      var (st2, rs) := MirrorRun(st1, log + [ms[0].call.command], h, maxLen, ms[1..]);
      (st2, [r] + rs)
  }

  /** The assumptions on a run: legal commands, legal extra frames, and a handler that responds. */
  ghost predicate Plain(h: Handler, log: seq<Bytes>, maxLen: int, ms: seq<MirrorCall>)
    decreases |ms|
  {
    ms == []
    || (LegalCall(ms[0].call, maxLen) && AllLegal(ms[0].late) && AllLegal(ms[0].trailing)
        && h(log, ms[0].call.command).Respond?
        && Plain(h, log + [ms[0].call.command], maxLen, ms[1..]))
  }

  function WriteBytes(ms: seq<MirrorCall>): (n: nat)
  {
    if ms == [] then 0 else RequestLen(ms[0].call.command) + WriteBytes(ms[1..])
  }

  /** The reader holds something of every input that is not empty: all that follows the echo is buffered. */
  ghost predicate HoldsEverything(buffered: Bytes -> nat) { forall b: Bytes :: b != [] ==> buffered(b) > 0 }

  lemma {:induction false} DrainsEverything(ps: seq<Packet>, ending: Ending, buffered: Bytes -> nat)
    requires AllLegal(ps) && HoldsEverything(buffered)
    ensures Drain(EncodeAll(ps), ending, buffered) == []
  {
    hide Decode, Encode;
    if ps != [] {
      DecodeEncode(ps[0], EncodeAll(ps[1..]), ending);
      DrainsEverything(ps[1..], ending, buffered);
    }
  }

  lemma DrainsNothing(input: Bytes, ending: Ending, buffered: Bytes -> nat)
    requires buffered(input) == 0
    ensures Drain(input, ending, buffered) == input
  {
  }

  /** The reader's buffer held all but the last `left` bytes of the input; what it fetches after using those
      up is left open. */
  ghost predicate HoldsAllBut(buffered: Bytes -> nat, left: nat)
  {
    forall b: Bytes :: |b| >= left ==> buffered(b) == |b| - left
  }

  /** Where draining stops, of which the first `held` bytes were buffered. If those end between two frames of the
      input: right there. If they end inside a whole frame: beyond them. If they reach past the last whole frame:
      where reading the bytes after it fails. */
  ghost predicate StopsAt(input: Bytes, ending: Ending, held: nat, rest: Bytes)
    requires held <= |input|
  {
    var frames := ParseFrames(input, ending).frames;
    var n := WholeFrames(frames, held);
    var at := |EncodeAll(frames[..n])|;
    at <= |input|
    && if at == held then rest == input[held..]
       else if n < |frames| then |rest| < |input| - held
       else rest == Decode(input[at..], ending).rest
  }

  /** Where drainSourceMirror stops, for any bytes. It keeps to the buffered bytes exactly when they end between two
      frames or a refused frame size lies among them. Otherwise it reads on, where it may have to wait, although its
      comment says it never does. */
  lemma {:induction false} DrainStops(input: Bytes, ending: Ending, buffered: Bytes -> nat, held: nat)
    requires held <= |input| && HoldsAllBut(buffered, |input| - held)
    ensures StopsAt(input, ending, held, Drain(input, ending, buffered))
    decreases |input|
  {
    hide Encode, Decode, StopsAt, ParseFrames;
    assert buffered(input) == held;
    if held == 0 {
      StopsAtOnce(input, ending);
    } else {
      match Decode(input, ending)
      case Fault(_, rest) => StopsAtFault(input, ending, held);
      case Frame(p, rest) =>
        FrameSize(input, ending);
        if held < |Encode(p)| {
          StopsPastFrame(input, ending, held, Drain(rest, ending, buffered));
        } else {
          DrainStops(rest, ending, buffered, held - |Encode(p)|);
          StopsLater(input, ending, held, Drain(rest, ending, buffered));
        }
    }
  }

  lemma StopsAtOnce(input: Bytes, ending: Ending)
    ensures StopsAt(input, ending, 0, input)
  {
    hide Encode, Decode, ParseFrames;
    var frames := ParseFrames(input, ending).frames;
    assert frames[..0] == [] && input[0..] == input;
  }

  lemma StopsAtFault(input: Bytes, ending: Ending, held: nat)
    requires 0 < held <= |input| && Decode(input, ending).Fault?
    ensures StopsAt(input, ending, held, Decode(input, ending).rest)
  {
    hide Encode, Decode;
    assert input[0..] == input;
  }

  lemma StopsPastFrame(input: Bytes, ending: Ending, held: nat, rest: Bytes)
    requires held <= |input| && Decode(input, ending).Frame? && 0 < held < |Encode(Decode(input, ending).packet)|
    requires |rest| <= |input| - |Encode(Decode(input, ending).packet)|
    ensures StopsAt(input, ending, held, rest)
  {
    hide Encode, Decode;
    var frames := ParseFrames(input, ending).frames;
    assert frames[..0] == [];
  }

  lemma StopsLater(input: Bytes, ending: Ending, held: nat, rest: Bytes)
    requires held <= |input| && Decode(input, ending).Frame? && held >= |Encode(Decode(input, ending).packet)|
    requires var r := Decode(input, ending);
             r.rest == input[|Encode(r.packet)|..] && StopsAt(r.rest, ending, held - |Encode(r.packet)|, rest)
    ensures StopsAt(input, ending, held, rest)
  {
    hide Encode, Decode;
    var r := Decode(input, ending);
    var frames, size := ParseFrames(input, ending).frames, |Encode(r.packet)|;
    var later, n := frames[1..], WholeFrames(frames, held);
    assert later == ParseFrames(r.rest, ending).frames;
    assert frames[..n][1..] == later[..n - 1];
    var at := |EncodeAll(later[..n - 1])|;
    assert input[size..][at..] == input[size + at..];
    assert input[size..][held - size..] == input[held..];
  }

  /** What a call reads when nothing is left over: its own reply, then its trailing frames. */
  lemma AnswerRead(st: State, log: seq<Bytes>, h: Handler, maxLen: int, m: MirrorCall)
    requires Plain(h, log, maxLen, [m]) && m.late == [] && st.unread == [] && !st.closed && st.open
    requires RequestLen(m.call.command) <= st.room
    ensures var (st', r) := MirrorRound(st, log, h, maxLen, m);
            r.Ok? && h(log, m.call.command) == Respond(r.value)
            && st'.unread == Drain(EncodeAll(m.trailing), m.call.ending, m.call.buffered)
            && st'.closed == st.closed && st'.open == st.open
            && st'.room == st.room - RequestLen(m.call.command) && st'.id == NextId(NextId(st.id))
  {
    hide EncodeAll, NextId, Send, Multi, ResponseFrames, Drain, Bodies;
    var b := h(log, m.call.command).body;
    var req := NextId(st.id);
    var sentinel := NextId(req);
    SendMulti(st, maxLen, m.call.command);
    FreshIds(st.id);
    ResponseFramesCarryBody(req, b);
    var reply := Answer(req, sentinel, b);
    assert [] + (reply + m.trailing) == reply + m.trailing;
    EncodeAllConcat(reply, m.trailing);
    var input := EncodeAll(reply) + EncodeAll(m.trailing);
    assert [] + input == input;
    MultiComplete(ResponseFrames(req, b), SentinelFrame(sentinel), EncodeAll(m.trailing), m.call.ending,
                  m.call.buffered, req, sentinel);
  }

  /** Every result of a run is the handler's output for its own command. */
  ghost predicate AllCorrect(h: Handler, log: seq<Bytes>, ms: seq<MirrorCall>, rs: seq<Result<Bytes>>)
    requires |ms| == |rs|
    decreases |ms|
  {
    ms == []
    || (rs[0].Ok? && h(log, ms[0].call.command) == Respond(rs[0].value)
        && AllCorrect(h, log + [ms[0].call.command], ms[1..], rs[1..]))
  }

  /** When the extra frames are whole and buffered with the echo, they are discarded: every call of every run
      returns its own command's output and leaves nothing unread. */
  lemma {:induction false} BufferedMirrorsAreHarmless(st: State, log: seq<Bytes>, h: Handler, maxLen: int, ms: seq<MirrorCall>)
    requires Plain(h, log, maxLen, ms) && st.unread == [] && !st.closed && st.open && WriteBytes(ms) <= st.room
    requires forall i :: 0 <= i < |ms| ==> ms[i].late == [] && HoldsEverything(ms[i].call.buffered)
    ensures var (st', rs) := MirrorRun(st, log, h, maxLen, ms);
            AllCorrect(h, log, ms, rs) && st'.unread == []
    decreases |ms|
  {
    hide MirrorRound, EncodeAll, Drain;
    if ms != [] {
      var m := ms[0];
      var (st1, r) := MirrorRound(st, log, h, maxLen, m);
      var rs := MirrorRun(st1, log + [m.call.command], h, maxLen, ms[1..]).1;
      assert Plain(h, log, maxLen, [m]) by { assert [m][1..] == []; }
      AnswerRead(st, log, h, maxLen, m);
      DrainsEverything(m.trailing, m.call.ending, m.call.buffered);
      BufferedMirrorsAreHarmless(st1, log + [m.call.command], h, maxLen, ms[1..]);
      assert ([r] + rs)[1..] == rs;
    }
  }

  /** The identifier was issued by this connection, by its lo-th to hi-th call of nextID. */
  ghost predicate Issued(id: Int32, lo: nat, hi: nat) { exists m: nat :: 1 <= lo <= m <= hi && id == IdAfter(m) }

  ghost predicate AllIssued(ps: seq<Packet>, lo: nat, hi: nat)
  {
    forall i :: 0 <= i < |ps| ==> Issued(ps[i].id, lo, hi)
  }

  lemma IssuedIsForeign(id: Int32, lo: nat, n: nat)
    requires Issued(id, lo, n) && n + 2 - lo < PERIOD
    ensures id != IdAfter(n + 1) && id != IdAfter(n + 2) && id != -1
  {
    hide IdAfter;
    var m: nat :| 1 <= lo <= m <= n && id == IdAfter(m);
    RecentIdsDiffer(m, n + 1);
    RecentIdsDiffer(m, n + 2);
  }

  lemma NextTwo(id: Int32, n: nat)
    requires id == IdAfter(n)
    ensures NextId(id) == IdAfter(n + 1) && NextId(NextId(id)) == IdAfter(n + 2)
  {
    hide NextId;
    assert IdAfter(n + 1) == NextId(IdAfter(n));
    assert IdAfter(n + 2) == NextId(IdAfter(n + 1));
  }

  lemma IssuedNow(lo: nat, n: nat)
    requires 1 <= lo <= n + 1
    ensures Issued(IdAfter(n + 1), lo, n + 2) && Issued(IdAfter(n + 2), lo, n + 2)
  {
    hide IdAfter;
  }

  lemma AnswerIsIssued(lo: nat, n: nat, b: Bytes)
    requires 1 <= lo <= n + 1
    ensures var ps := Answer(IdAfter(n + 1), IdAfter(n + 2), b);
            AllIssued(ps, lo, n + 2) && AllLegal(ps) && |ps| >= 2
  {
    hide IdAfter, ResponseFrames, Bodies;
    IssuedNow(lo, n);
    ResponseFramesCarryBody(IdAfter(n + 1), b);
  }

  /** A call that finds an old frame ahead of its reply consumes that frame and reports a mismatch; the rest,
      with the reply, is left for the next call to trip over. */
  lemma StaleRound(st: State, log: seq<Bytes>, h: Handler, maxLen: int, m: MirrorCall, fs: seq<Packet>, lo: nat, n: nat)
    requires Plain(h, log, maxLen, [m]) && !st.closed && st.open && RequestLen(m.call.command) <= st.room
    requires st.id == IdAfter(n) && st.unread == EncodeAll(fs) && AllLegal(fs) && fs + m.late != []
    requires AllIssued(fs + m.late, lo, n) && AllIssued(m.trailing, lo, n + 2)
    requires 1 <= lo <= n + 1 && n + 2 - lo < PERIOD
    ensures var (st', r) := MirrorRound(st, log, h, maxLen, m);
            var reply := Answer(IdAfter(n + 1), IdAfter(n + 2), h(log, m.call.command).body);
            var fs' := (fs + m.late)[1..] + (reply + m.trailing);
            r == Err(ResponseMismatch) && st'.unread == EncodeAll(fs') && fs' != []
            && AllLegal(fs') && AllIssued(fs', lo, n + 2) && st'.id == IdAfter(n + 2)
            && st'.closed == st.closed && st'.open == st.open && st'.room == st.room - RequestLen(m.call.command)
  {
    hide EncodeAll, NextId, IdAfter, Send, Multi, ResponseFrames, Bodies, Issued;
    var req, sentinel := IdAfter(n + 1), IdAfter(n + 2);
    NextTwo(st.id, n);
    SendMulti(st, maxLen, m.call.command);
    var b := h(log, m.call.command).body;
    AnswerIsIssued(lo, n, b);
    var out := Answer(req, sentinel, b) + m.trailing;
    var stale := fs + m.late;
    var f, fs' := stale[0], stale[1..] + out;
    PacketsAssoc(fs, m.late, out);
    PacketsAssoc([f], stale[1..], out);
    assert [f] + stale[1..] == stale;
    EncodeAllConcat(fs, m.late + out);
    EncodeAllConcat([f], fs');
    EncodeAllOne(f);
    IssuedIsForeign(f.id, lo, n);
    MultiStep(f, EncodeAll(fs'), m.call.ending, m.call.buffered, req, sentinel);
    forall i | 0 <= i < |fs'| ensures Issued(fs'[i].id, lo, n + 2) {
      if i < |stale| - 1 {
        assert fs'[i] == stale[i + 1];
        IssuedLonger(fs'[i].id, lo, n, n + 2);
      }
    }
  }

  lemma IssuedLonger(id: Int32, lo: nat, n: nat, n': nat)
    requires Issued(id, lo, n) && n <= n'
    ensures Issued(id, lo, n')
  {
  }

  /** Extra frames carry identifiers this connection issued before they were sent. */
  ghost predicate MirrorsIssued(ms: seq<MirrorCall>, lo: nat, n: nat)
    decreases |ms|
  {
    ms == [] || (AllIssued(ms[0].late, lo, n) && AllIssued(ms[0].trailing, lo, n + 2) && MirrorsIssued(ms[1..], lo, n + 2))
  }

  ghost predicate AllMismatch(rs: seq<Result<Bytes>>) { forall i :: 0 <= i < |rs| ==> rs[i] == Err(ResponseMismatch) }

  /** Once a frame of an earlier call is left unread, the connection never recovers: every later call reports a
      mismatch and none ever returns a body, for as long as identifiers do not repeat. */
  lemma {:induction false} StaleForever(st: State, log: seq<Bytes>, h: Handler, maxLen: int, ms: seq<MirrorCall>,
                                        fs: seq<Packet>, lo: nat, n: nat)
    requires Plain(h, log, maxLen, ms) && !st.closed && st.open && WriteBytes(ms) <= st.room
    requires st.id == IdAfter(n) && st.unread == EncodeAll(fs) && AllLegal(fs) && AllIssued(fs, lo, n)
    requires ms != [] ==> fs + ms[0].late != []
    requires MirrorsIssued(ms, lo, n)
    requires 1 <= lo <= n + 1 && n + 2 * |ms| - lo < PERIOD
    ensures AllMismatch(MirrorRun(st, log, h, maxLen, ms).1)
    decreases |ms|
  {
    hide MirrorRound, EncodeAll, IdAfter, Issued;
    if ms != [] {
      var m := ms[0];
      assert Plain(h, log, maxLen, [m]) by { assert [m][1..] == []; }
      var (st1, r) := MirrorRound(st, log, h, maxLen, m);
      StaleRound(st, log, h, maxLen, m, fs, lo, n);
      var reply := Answer(IdAfter(n + 1), IdAfter(n + 2), h(log, m.call.command).body);
      var fs' := (fs + m.late)[1..] + (reply + m.trailing);
      StaleForever(st1, log + [m.call.command], h, maxLen, ms[1..], fs', lo, n + 2);
    }
  }

  /** A mirror that misses the buffer: the call it follows is answered correctly, and every later call, any
      number of them up to the repetition of identifiers, reports a mismatch. */
  lemma LateMirrorPoisonsConnection(st: State, log: seq<Bytes>, h: Handler, maxLen: int, m: MirrorCall,
                                    ms: seq<MirrorCall>, n: nat)
    requires Plain(h, log, maxLen, [m] + ms) && m.late == [] && st.unread == [] && !st.closed && st.open
    requires WriteBytes([m] + ms) <= st.room && st.id == IdAfter(n)
    requires m.trailing != [] && AllIssued(m.trailing, n + 2, n + 2)
    requires m.call.buffered(EncodeAll(m.trailing)) == 0
    requires MirrorsIssued(ms, n + 2, n + 2) && 2 * |ms| < PERIOD
    ensures var rs := MirrorRun(st, log, h, maxLen, [m] + ms).1;
            rs[0].Ok? && h(log, m.call.command) == Respond(rs[0].value) && AllMismatch(rs[1..])
  {
    hide MirrorRound, EncodeAll, IdAfter, Issued, Drain;
    var all := [m] + ms;
    assert all[1..] == ms;
    assert Plain(h, log, maxLen, [m]) by { assert [m][1..] == []; }
    AnswerRead(st, log, h, maxLen, m);
    DrainsNothing(EncodeAll(m.trailing), m.call.ending, m.call.buffered);
    NextTwo(st.id, n);
    var (st1, r) := MirrorRound(st, log, h, maxLen, m);
    var rs := MirrorRun(st1, log + [m.call.command], h, maxLen, ms).1;
    assert ([r] + rs)[1..] == rs;
    StaleForever(st1, log + [m.call.command], h, maxLen, ms, m.trailing, n + 2, n + 2);
  }
}
