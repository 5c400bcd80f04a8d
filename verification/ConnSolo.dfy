/** One call of Execute with no other thread in between: the steps of ConnRace, taken one after the other, come to exactly
    what Conn.Execute says (rcon/conn.go 111-185). */
module ConnSolo {
  import opened Wire
  import opened RequestIds
  import opened Conn
  import opened ServerConn
  import opened Reassembly
  import opened ConnRace

  // ----- building runs -----

  function At(g: Shared, threads: map<Tid, Pc>, t: Tid, pc: Pc): (s: System) { System(g, threads[t := pc]) }

  lemma Extend(h: Handler, maxLen: int, run: seq<System>, s': System, t: Tid, a: Action)
    requires IsRun(h, maxLen, run) && Do(h, maxLen, run[|run| - 1], s', t, a)
    ensures IsRun(h, maxLen, run + [s'])
  {
    hide Do, Initial;
    var run' := run + [s'];
    forall i | 0 <= i < |run'| - 1 ensures Next(h, maxLen, run'[i], run'[i + 1]) {
      if i < |run| - 1 { assert Next(h, maxLen, run[i], run[i + 1]); }
    }
  }

  lemma Grow(h: Handler, maxLen: int, run: seq<System>, s': System, t: Tid, a: Action) returns (run': seq<System>)
    requires IsRun(h, maxLen, run) && Do(h, maxLen, run[|run| - 1], s', t, a)
    ensures IsRun(h, maxLen, run') && run' == run + [s']
  {
    Extend(h, maxLen, run, s', t, a);
    run' := run + [s'];
  }

  predicate IsCall(a: Action) { !a.Begin? && !IsEnv(a) }

  /** A step of a call extends a run. */
  lemma GrowCall(h: Handler, maxLen: int, run: seq<System>, g: Shared, g': Shared, threads: map<Tid, Pc>, t: Tid, pc: Pc, pc': Pc,
                 a: Action) returns (run': seq<System>)
    requires IsRun(h, maxLen, run) && run[|run| - 1] == At(g, threads, t, pc)
    requires g.got <= |g.sent| && IsCall(a) && CallStep(h, maxLen, g, g', t, pc, pc', a)
    ensures IsRun(h, maxLen, run') && run' == run + [At(g', threads, t, pc')]
  {
    assert Do(h, maxLen, At(g, threads, t, pc), At(g', threads, t, pc'), t, a) by {
      hide CallStep;
      assert threads[t := pc][t := pc'] == threads[t := pc'];
    }
    hide Do, IsRun, CallStep;
    run' := Grow(h, maxLen, run, At(g', threads, t, pc'), t, a);
  }

  lemma GrowBegin(h: Handler, maxLen: int, run: seq<System>, t: Tid, cmd: Bytes) returns (run': seq<System>)
    requires IsRun(h, maxLen, run) && t !in run[|run| - 1].threads && run[|run| - 1].g.got <= |run[|run| - 1].g.sent|
    ensures IsRun(h, maxLen, run')
    ensures var s := run[|run| - 1];
            run' == run + [At(s.g, s.threads, t, Start(cmd, ClosedSet in s.g.flags))]
  {
    var s := run[|run| - 1];
    var s' := At(s.g, s.threads, t, Start(cmd, ClosedSet in s.g.flags));
    assert Do(h, maxLen, s, s', t, Begin) by { hide CallStep; }
    hide Do, IsRun;
    run' := Grow(h, maxLen, run, s', t, Begin);
  }

  lemma GrowArrive(h: Handler, maxLen: int, run: seq<System>, n: nat) returns (run': seq<System>)
    requires IsRun(h, maxLen, run) && run[|run| - 1].g.got + n <= |run[|run| - 1].g.sent|
    ensures IsRun(h, maxLen, run')
    ensures var s := run[|run| - 1];
            run' == run + [System(s.g.(got := s.g.got + n), s.threads)]
  {
    var s := run[|run| - 1];
    var s' := System(s.g.(got := s.g.got + n), s.threads);
    assert Do(h, maxLen, s, s', 0, Arrive(n)) by { hide CallStep; }
    hide Do, IsRun;
    run' := Grow(h, maxLen, run, s', 0, Arrive(n));
  }

  // ----- the server's stream only grows -----

  lemma {:induction false} ParseGrows(a: Bytes, b: Bytes, ending: Ending)
    requires a <= b
    ensures ParseFrames(a, ending).frames <= ParseFrames(b, ending).frames
    decreases |a|
  {
    if Decode(a, ending).Frame? {
      DecodeGrows(a, b, ending);
      hide Decode;
      ParseGrows(Decode(a, ending).rest, Decode(b, ending).rest, ending);
    }
  }

  lemma DecodeGrows(a: Bytes, b: Bytes, ending: Ending)
    requires a <= b && Decode(a, ending).Frame?
    ensures Decode(b, ending).Frame? && Decode(b, ending).packet == Decode(a, ending).packet
    ensures Decode(a, ending).rest <= Decode(b, ending).rest
  {
    assert a[..4] == b[..4];
    var n := 4 + GetUint32(a[..4]);
    assert a[4..n] == b[4..n];
    hide GetUint32;
  }

  lemma StreamGrows(h: Handler, g: Shared, g': Shared)
    requires g.got <= |g.sent| && g'.got <= |g'.sent| && g.got <= g'.got && g.sent <= g'.sent
    ensures Stream(h, g) <= Stream(h, g')
  {
    var a, b := g.sent[..g.got], g'.sent[..g'.got];
    assert a <= b;
    ParseGrows(a, b, EndOfStream);
    hide ParseFrames, Serve, EncodeAll;
    ServeGrows(h, ParseFrames(a, EndOfStream).frames, ParseFrames(b, EndOfStream).frames);
  }

  lemma ServeGrows(h: Handler, f: seq<Packet>, f': seq<Packet>)
    requires f <= f'
    ensures EncodeAll(Serve(h, [], f).out) <= EncodeAll(Serve(h, [], f').out)
  {
    hide Serve, EncodeAll;
    var more := f'[|f|..];
    assert f' == f + more;
    ServeIncremental(h, [], f, more);
    var o := Serve(h, [], f);
    if o.alive {
      EncodeAllConcat(o.out, Serve(h, o.log, more).out);
    }
  }

  /** The client never consumes more than was sent, in any run. */
  ghost predicate ReadWithin(h: Handler, g: Shared) { g.got <= |g.sent| && g.read <= |Stream(h, g)| }

  lemma ReadWithinStep(h: Handler, maxLen: int, s: System, s': System, t: Tid, a: Action)
    requires ReadWithin(h, s.g) && StreamInv(s'.g) && Do(h, maxLen, s, s', t, a)
    ensures ReadWithin(h, s'.g)
  {
    StepOnly(h, maxLen, s, s', t, a);
    hide Do, Stream, Adjacent;
    StreamGrows(h, s.g, s'.g);
  }

  lemma StepOnly(h: Handler, maxLen: int, s: System, s': System, t: Tid, a: Action)
    requires Do(h, maxLen, s, s', t, a)
    ensures s.g.got <= |s.g.sent| && s.g.sent <= s'.g.sent && s.g.got <= s'.g.got
    ensures s'.g.read == s.g.read || s'.g.read <= |Stream(h, s.g)|
  {
    hide Stream, IdAfter, Encode, Decode, Drain;
  }

  lemma {:induction false} RunReadsWithin(h: Handler, maxLen: int, run: seq<System>, i: nat)
    requires IsRun(h, maxLen, run) && i < |run|
    ensures ReadWithin(h, run[i].g)
  {
    if i > 0 {
      hide Do, Initial, ReadWithin;
      RunReadsWithin(h, maxLen, run, i - 1);
      RunKeepsInv(h, maxLen, run, i);
      assert StreamInv(run[i].g);
      hide Inv;
      assert Next(h, maxLen, run[i - 1], run[i - 1 + 1]);
      var t: Tid, a: Action :| Do(h, maxLen, run[i - 1], run[i], t, a);
      ReadWithinStep(h, maxLen, run[i - 1], run[i], t, a);
    }
  }

  // ----- the reads of a call -----

  lemma RestIsSuffix(input: Bytes, ending: Ending)
    ensures var rest := Decode(input, ending).rest;
            rest == input[|input| - |rest|..]
  {
    hide GetUint32;
  }

  /** What is the same before and after the reads. */
  ghost predicate OnlyRead(g: Shared, g': Shared)
  {
    g' == g.(mu := None, read := g'.read, past := g'.past)
    && g'.past == g.past.(taken := g'.past.taken, spilled := g'.past.spilled)
  }

  /** One turn of the loop that does not end it. */
  lemma ReadOn(g: Shared, pc: Pc, seen: Bytes, ending: Ending, buffered: Bytes -> nat) returns (g': Shared, pc': Pc)
    requires pc.Reading? && Decode(seen, ending).Frame?
    requires var f := Decode(seen, ending).packet; f.id != pc.ids.sentinel && Belongs(f, pc.ids.req)
    ensures var r := Decode(seen, ending);
            ReadStep(g, g', pc, pc', seen, ending, buffered) && pc' == Reading(pc.cmd, pc.k, pc.ids, pc.acc + r.packet.body)
            && g' == g.(read := g.read + |seen| - |r.rest|, past := g.past.(taken := g.past.taken + 1))
  {
    var r := Decode(seen, ending);
    hide Decode;
    g' := Consume(g, |seen| - |r.rest|).(past := g.past.(taken := g.past.taken + 1));
    pc' := Reading(pc.cmd, pc.k, pc.ids, pc.acc + r.packet.body);
  }

  /** The reads ended, from (g, pc) to (g', pc'), as readMultiPacket does on the bytes seen. */
  ghost predicate ReadsEnd(g: Shared, g': Shared, pc: Pc, pc': Pc, seen: Bytes, ending: Ending, buffered: Bytes -> nat)
    requires pc.Reading?
  {
    var reply := Multi(seen, ending, buffered, pc.ids.req, pc.ids.sentinel);
    pc'.Finished? && pc'.cmd == pc.cmd && pc'.result == Prepend(pc.acc, reply).result
    && OnlyRead(g, g') && |reply.rest| <= |seen| && g'.read == g.read + |seen| - |reply.rest|
    && (pc'.result.Ok? ==> pc'.k == pc.k && g'.past.spilled == g.past.spilled)
  }

  /** The turn that ends it. */
  lemma ReadLast(g: Shared, pc: Pc, seen: Bytes, ending: Ending, buffered: Bytes -> nat) returns (g': Shared, pc': Pc)
    requires pc.Reading?
    requires Decode(seen, ending).Frame? ==>
               var f := Decode(seen, ending).packet; f.id == pc.ids.sentinel || !Belongs(f, pc.ids.req)
    ensures ReadStep(g, g', pc, pc', seen, ending, buffered) && ReadsEnd(g, g', pc, pc', seen, ending, buffered)
  {
    var reply := Multi(seen, ending, buffered, pc.ids.req, pc.ids.sentinel);
    var n := |seen| - |reply.rest|;
    hide Decode, Drain;
    assert pc.acc + [] == pc.acc;
    match Decode(seen, ending)
    case Fault(e, rest) =>
      g' := Consume(Release(g), n).(past := g.past.(spilled := g.past.spilled + n));
      pc' := Finished(pc.cmd, false, 0, Err(e));
    case Frame(f, rest) =>
      g' := Consume(Release(g), n).(past := g.past.(taken := g.past.taken + 1));
      pc' := if f.id == pc.ids.sentinel then Finished(pc.cmd, false, pc.k, Ok(pc.acc))
             else Finished(pc.cmd, false, 0, Err(ResponseMismatch));
  }

  /** A turn that does not end it, and the turns after that. */
  lemma ReadsEndLater(g: Shared, g1: Shared, g': Shared, pc: Pc, pc1: Pc, pc': Pc, seen: Bytes, ending: Ending, buffered: Bytes -> nat)
    requires pc.Reading? && Decode(seen, ending).Frame?
    requires var f := Decode(seen, ending).packet; f.id != pc.ids.sentinel && Belongs(f, pc.ids.req)
    requires var r := Decode(seen, ending);
             pc1 == Reading(pc.cmd, pc.k, pc.ids, pc.acc + r.packet.body)
             && g1 == g.(read := g.read + |seen| - |r.rest|, past := g.past.(taken := g.past.taken + 1))
             && ReadsEnd(g1, g', pc1, pc', r.rest, ending, buffered)
    ensures ReadsEnd(g, g', pc, pc', seen, ending, buffered)
  {
    MultiOn(seen, ending, buffered, pc.ids.req, pc.ids.sentinel, pc.acc);
    hide Decode, Multi;
  }

  lemma StreamRest(h: Handler, g: Shared, n: nat, ending: Ending)
    requires g.got <= |g.sent| && g.read + n <= |Stream(h, g)|
    ensures var rest := Decode(Stream(h, g)[g.read..g.read + n], ending).rest;
            Stream(h, g)[g.read + n - |rest|..g.read + n] == rest
  {
    var seen := Stream(h, g)[g.read..g.read + n];
    RestIsSuffix(seen, ending);
    hide Stream, Decode;
  }

  /** The reads of a call that sees n more bytes come to what readMultiPacket makes of them. */
  lemma {:induction false} ReadAll(h: Handler, maxLen: int, run: seq<System>, g: Shared, threads: map<Tid, Pc>, t: Tid, pc: Pc,
                                   n: nat, ending: Ending, buffered: Bytes -> nat)
      returns (run': seq<System>, g': Shared, pc': Pc)
    requires IsRun(h, maxLen, run) && run[|run| - 1] == At(g, threads, t, pc)
    requires pc.Reading? && g.got <= |g.sent| && g.read + n <= |Stream(h, g)|
    ensures IsRun(h, maxLen, run') && run'[|run'| - 1] == At(g', threads, t, pc')
    ensures ReadsEnd(g, g', pc, pc', Stream(h, g)[g.read..g.read + n], ending, buffered)
    decreases n
  {
    hide IsRun, CallStep, Decode, ReadStep, ReadsEnd, At;
    var seen := Stream(h, g)[g.read..g.read + n];
    var r := Decode(seen, ending);
    if r.Frame? && r.packet.id != pc.ids.sentinel && Belongs(r.packet, pc.ids.req) {
      var g1, pc1 := ReadOn(g, pc, seen, ending, buffered);
      ReadIsCallStep(h, maxLen, g, g1, t, pc, pc1, n, ending, buffered);
      StreamRest(h, g, n, ending);
      assert Stream(h, g1) == Stream(h, g);
      hide Stream;
      run' := GrowCall(h, maxLen, run, g, g1, threads, t, pc, pc1, Read(n, ending, buffered));
      run', g', pc' := ReadAll(h, maxLen, run', g1, threads, t, pc1, |r.rest|, ending, buffered);
      ReadsEndLater(g, g1, g', pc, pc1, pc', seen, ending, buffered);
    } else {
      hide Stream;
      g', pc' := ReadLast(g, pc, seen, ending, buffered);
      ReadIsCallStep(h, maxLen, g, g', t, pc, pc', n, ending, buffered);
      run' := GrowCall(h, maxLen, run, g, g', threads, t, pc, pc', Read(n, ending, buffered));
    }
  }

  lemma ReadIsCallStep(h: Handler, maxLen: int, g: Shared, g': Shared, t: Tid, pc: Pc, pc': Pc, n: nat, ending: Ending, buffered: Bytes -> nat)
    requires pc.Reading? && g.got <= |g.sent| && g.read + n <= |Stream(h, g)|
    requires ReadStep(g, g', pc, pc', Stream(h, g)[g.read..g.read + n], ending, buffered)
    ensures CallStep(h, maxLen, g, g', t, pc, pc', Read(n, ending, buffered))
  {
    hide Stream, ReadStep;
  }

  lemma MultiOn(seen: Bytes, ending: Ending, buffered: Bytes -> nat, req: Int32, sentinel: Int32, acc: Bytes)
    requires var r := Decode(seen, ending); r.Frame? && r.packet.id != sentinel && Belongs(r.packet, req)
    ensures var r := Decode(seen, ending);
            var later := Multi(r.rest, ending, buffered, req, sentinel);
            Prepend(acc, Multi(seen, ending, buffered, req, sentinel)) == Prepend(acc + r.packet.body, later)
            && Multi(seen, ending, buffered, req, sentinel).rest == later.rest
  {
    var r := Decode(seen, ending);
    PrependTwice(acc, r.packet.body, Multi(r.rest, ending, buffered, req, sentinel));
    hide Decode;
  }

  /** What readMultiPacket leaves unread is the end of what it saw. */
  lemma {:induction false} MultiRest(seen: Bytes, ending: Ending, buffered: Bytes -> nat, req: Int32, sentinel: Int32)
    ensures IsEnd(Multi(seen, ending, buffered, req, sentinel).rest, seen)
    decreases |seen|
  {
    RestIsSuffix(seen, ending);
    hide Decode;
    var r := Decode(seen, ending);
    if r.Frame? {
      if r.packet.id == sentinel {
        DrainRest(r.rest, ending, buffered);
        EndOfEnd(Drain(r.rest, ending, buffered), r.rest, seen);
      } else if Belongs(r.packet, req) {
        MultiRest(r.rest, ending, buffered, req, sentinel);
        EndOfEnd(Multi(r.rest, ending, buffered, req, sentinel).rest, r.rest, seen);
      }
    }
  }

  predicate IsEnd(a: Bytes, b: Bytes) { |a| <= |b| && a == b[|b| - |a|..] }

  lemma EndOfEnd(a: Bytes, b: Bytes, c: Bytes)
    requires IsEnd(a, b) && IsEnd(b, c)
    ensures IsEnd(a, c)
  {
    assert b[|b| - |a|..] == c[|c| - |a|..];
  }

  lemma {:induction false} DrainRest(input: Bytes, ending: Ending, buffered: Bytes -> nat)
    ensures IsEnd(Drain(input, ending, buffered), input)
    decreases |input|
  {
    RestIsSuffix(input, ending);
    hide Decode;
    if input != [] && buffered(input) != 0 && Decode(input, ending).Frame? {
      DrainRest(Decode(input, ending).rest, ending, buffered);
      EndOfEnd(Drain(Decode(input, ending).rest, ending, buffered), Decode(input, ending).rest, input);
    }
  }

  // ----- the whole call -----

  /** The state of Conn.Execute that a state of the system stands for, with room for that many bytes. */
  function Abs(g: Shared, room: nat, unread: Bytes): (st: State)
  {
    State(IdAfter(g.issued), ClosedSet in g.flags, SocketClosed !in g.flags, g.sent, room, unread)
  }

  /** The call ended, in state s', with what Execute returns and leaves from state st with this network. */
  ghost predicate EndsAsExecute(maxLen: int, s': System, t: Tid, cmd: Bytes, st: State, net: Network)
  {
    var (st', r) := Execute(st, ReadMulti, maxLen, cmd, net);
    t in s'.threads && s'.threads[t].Finished? && s'.threads[t].cmd == cmd && s'.threads[t].result == r
    && st' == Abs(s'.g, st'.room, st'.unread) && s'.g.mu.None?
  }

  /** A call that is refused. */
  lemma RefusedIsARun(h: Handler, maxLen: int, run: seq<System>, t: Tid, cmd: Bytes) returns (run': seq<System>, e: Error)
    requires IsRun(h, maxLen, run) && t !in run[|run| - 1].threads && run[|run| - 1].g.got <= |run[|run| - 1].g.sent|
    requires ClosedSet in run[|run| - 1].g.flags || cmd == [] || (maxLen > 0 && |cmd| > maxLen)
    ensures IsRun(h, maxLen, run')
    ensures var s := run[|run| - 1];
            e == (if ClosedSet in s.g.flags then Closed else if cmd == [] then CommandEmpty else CommandTooLong)
            && run'[|run'| - 1] == At(s.g, s.threads, t, Finished(cmd, ClosedSet in s.g.flags, 0, Err(e)))
  {
    var s := run[|run| - 1];
    var late := ClosedSet in s.g.flags;
    e := if late then Closed else if cmd == [] then CommandEmpty else CommandTooLong;
    run' := GrowBegin(h, maxLen, run, t, cmd);
    var pc, pc' := Start(cmd, late), Finished(cmd, late, 0, Err(e));
    assert CallStep(h, maxLen, s.g, s.g, t, pc, pc', Check) by { hide Stream, IdAfter; }
    hide CallStep, IsRun, IdAfter;
    run' := GrowCall(h, maxLen, run', s.g, s.g, s.threads, t, pc, pc', Check);
  }

  /** A call that is let in: it waits for mu and takes it. */
  lemma EnterIsARun(h: Handler, maxLen: int, run: seq<System>, t: Tid, cmd: Bytes) returns (run': seq<System>)
    requires IsRun(h, maxLen, run) && t !in run[|run| - 1].threads
    requires var g := run[|run| - 1].g; g.got <= |g.sent| && ClosedSet !in g.flags && g.mu.None?
    requires cmd != [] && (maxLen > 0 ==> |cmd| <= maxLen)
    ensures IsRun(h, maxLen, run')
    ensures var s := run[|run| - 1]; run'[|run'| - 1] == At(s.g.(mu := Some(t)), s.threads, t, Locked(cmd))
  {
    var s := run[|run| - 1];
    var g := s.g.(mu := Some(t));
    assert CallStep(h, maxLen, s.g, s.g, t, Start(cmd, false), Waiting(cmd), Check)
        && CallStep(h, maxLen, s.g, g, t, Waiting(cmd), Locked(cmd), Acquire) by { hide Stream, IdAfter; }
    hide CallStep, IsRun, At;
    run' := GrowBegin(h, maxLen, run, t, cmd);
    run' := GrowCall(h, maxLen, run', s.g, s.g, s.threads, t, Start(cmd, false), Waiting(cmd), Check);
    run' := GrowCall(h, maxLen, run', s.g, g, s.threads, t, Waiting(cmd), Locked(cmd), Acquire);
  }

  function Least(a: nat, b: nat): (n: nat) { if a <= b then a else b }

  /** How far the writes of a call get: the state after them, and where the call is then. */
  function Request(g: Shared, cmd: Bytes): (p: Packet) { ExecFrame(IdAfter(g.issued + 1), cmd) }
  function Sentinel(g: Shared): (p: Packet) { SentinelFrame(IdAfter(g.issued + 2)) }

  function WrittenFirst(g: Shared, t: Tid, cmd: Bytes, room: nat): (r: (Shared, Pc))
  {
    var p := Request(g, cmd);
    var n := Least(|Encode(p)|, room);
    (Written(g, t, p, n), if Whole(p, n) then Wrote(cmd, |g.past.wire|, p.id) else Finished(cmd, false, 0, Err(Net(false))))
  }

  function WrittenSecond(g: Shared, t: Tid, cmd: Bytes, room: nat): (r: (Shared, Pc))
  {
    var (g1, pc1) := WrittenFirst(g, t, cmd, room);
    if pc1.Finished? then (g1, pc1)
    else
      var q := Sentinel(g);
      var n := Least(|Encode(q)|, room - Least(|Encode(Request(g, cmd))|, room));
      (Written(g1, t, q, n),
       if Whole(q, n) then Reading(cmd, |g.past.wire|, Ids(Request(g, cmd).id, q.id), []) else Finished(cmd, false, 0, Err(Net(false))))
  }

  lemma WrittenSteps(h: Handler, maxLen: int, g: Shared, t: Tid, cmd: Bytes, room: nat)
    requires g.got <= |g.sent| && SocketClosed !in g.flags
    ensures var (g1, pc1) := WrittenFirst(g, t, cmd, room);
            var (g2, pc2) := WrittenSecond(g, t, cmd, room);
            CallStep(h, maxLen, g, g, t, Locked(cmd), Ready(cmd), SetDeadline)
            && CallStep(h, maxLen, g, g1, t, Ready(cmd), pc1, WriteRequest(Least(|Encode(Request(g, cmd))|, room), false))
            && g1.got <= |g1.sent|
            && (pc1.Wrote? ==>
                  CallStep(h, maxLen, g1, g2, t, pc1, pc2,
                           WriteSentinel(Least(|Encode(Sentinel(g))|, room - Least(|Encode(Request(g, cmd))|, room)), false)))
  {
    hide Stream, IdAfter, Encode, ReadStep;
  }

  /** They get as far as Execute says. */
  lemma WrittenIsSend(g: Shared, t: Tid, maxLen: int, cmd: Bytes, room: nat, unread: Bytes)
    requires SocketClosed !in g.flags && ClosedSet !in g.flags && g.mu == Some(t)
    requires cmd != [] && (maxLen > 0 ==> |cmd| <= maxLen)
    ensures var (g', pc') := WrittenSecond(g, t, cmd, room);
            var (st', r) := Send(Abs(g, room, unread), ReadMulti, maxLen, cmd);
            st' == Abs(g', st'.room, unread)
            && (if r.Ok? then pc' == Reading(cmd, |g.past.wire|, r.value, []) && g'.mu == Some(t)
                else pc' == Finished(cmd, false, 0, Err(r.error)) && g'.mu.None?)
  {
    var p, q := Request(g, cmd), Sentinel(g);
    assert p.id == NextId(IdAfter(g.issued)) && q.id == NextId(p.id);
    assert IdAfter(g.issued + 1) == p.id && IdAfter(g.issued + 2) == q.id;
    hide IdAfter, NextId, Encode;
    var n1 := Least(|Encode(p)|, room);
    assert Encode(p)[..n1] == Take(Encode(p), room);
    assert Encode(q)[..Least(|Encode(q)|, room - n1)] == Take(Encode(q), room - n1);
  }

  lemma WriteIsARun(h: Handler, maxLen: int, run: seq<System>, g: Shared, threads: map<Tid, Pc>, t: Tid, cmd: Bytes, room: nat)
      returns (run': seq<System>)
    requires IsRun(h, maxLen, run) && run[|run| - 1] == At(g, threads, t, Locked(cmd))
    requires g.got <= |g.sent| && SocketClosed !in g.flags
    ensures IsRun(h, maxLen, run')
    ensures var (g', pc') := WrittenSecond(g, t, cmd, room);
            run'[|run'| - 1] == At(g', threads, t, pc')
  {
    WrittenSteps(h, maxLen, g, t, cmd, room);
    var (g1, pc1) := WrittenFirst(g, t, cmd, room);
    var (g2, pc2) := WrittenSecond(g, t, cmd, room);
    var n := Least(|Encode(Request(g, cmd))|, room);
    assert pc1.Wrote? || (g2 == g1 && pc2 == pc1);
    hide CallStep, IsRun, At, IdAfter, Encode, WrittenFirst, WrittenSecond;
    run' := GrowCall(h, maxLen, run, g, g, threads, t, Locked(cmd), Ready(cmd), SetDeadline);
    run' := GrowCall(h, maxLen, run', g, g1, threads, t, Ready(cmd), pc1, WriteRequest(n, false));
    if pc1.Wrote? {
      run' := GrowCall(h, maxLen, run', g1, g2, threads, t, pc1, pc2, WriteSentinel(Least(|Encode(Sentinel(g))|, room - n), false));
    }
  }

  lemma WrittenKeeps(g: Shared, t: Tid, cmd: Bytes, room: nat)
    ensures var (g', pc') := WrittenSecond(g, t, cmd, room);
            g'.got == g.got && g'.read == g.read && g'.flags == g.flags && g.sent <= g'.sent
  {
    hide IdAfter, Encode;
  }

  /** A call that finds its socket closed. */
  lemma DeadIsARun(h: Handler, maxLen: int, run: seq<System>, g: Shared, threads: map<Tid, Pc>, t: Tid, cmd: Bytes)
      returns (run': seq<System>)
    requires IsRun(h, maxLen, run) && run[|run| - 1] == At(g, threads, t, Locked(cmd))
    requires g.got <= |g.sent| && SocketClosed in g.flags
    ensures IsRun(h, maxLen, run')
    ensures run'[|run'| - 1] == At(Release(g), threads, t, Finished(cmd, false, 0, Err(Net(false))))
  {
    var pc' := Finished(cmd, false, 0, Err(Net(false)));
    assert CallStep(h, maxLen, g, Release(g), t, Locked(cmd), pc', SetDeadline) by { hide Stream, IdAfter; }
    hide CallStep, IsRun, At;
    run' := GrowCall(h, maxLen, run, g, Release(g), threads, t, Locked(cmd), pc', SetDeadline);
  }

  /** What the call can see: the next n bytes of the server's stream, or what there is of them. */
  function Seen(h: Handler, g: Shared, from: nat, n: nat): (b: Bytes)
    requires g.got <= |g.sent|
  {
    var stream := Stream(h, g);
    if from <= |stream| then Take(stream[from..], n) else []
  }

  /** What a lone call does from state s to state s', when `arrive` more bytes reach the server and the call sees n bytes of the
      server's stream, of which the first m were there before: its result, its identifiers, its flags and its bytes are those
      of Execute, and if it got to reading, so is what it leaves unread. */
  ghost predicate SameAsExecute(h: Handler, maxLen: int, s: System, s': System, t: Tid, cmd: Bytes, arrive: nat, n: nat, m: nat,
                                st: State, net: Network)
  {
    s'.g.got <= |s'.g.sent| && s'.g.got == Least(s.g.got + arrive, |s'.g.sent|)
    && var seen := Seen(h, s'.g, s.g.read, n);
       st == Abs(s.g, st.room, Take(seen, m)) && st.unread + net.arriving == seen
       && EndsAsExecute(maxLen, s', t, cmd, st, net)
       && (Send(st, ReadMulti, maxLen, cmd).1.Ok? ==>
             s.g.read <= s'.g.read <= s.g.read + |seen|
             && Execute(st, ReadMulti, maxLen, cmd, net).0.unread == seen[s'.g.read - s.g.read..])
  }

  /** The network that shows the call these bytes. */
  function Showing(seen: Bytes, m: nat, ending: Ending, buffered: Bytes -> nat): (net: Network)
  {
    Network(seen[|Take(seen, m)|..], ending, buffered)
  }

  lemma ShowsAll(seen: Bytes, m: nat)
    ensures Take(seen, m) + seen[|Take(seen, m)|..] == seen
  {
  }

  /** Bytes reach the server. */
  lemma ArriveIsARun(h: Handler, maxLen: int, run: seq<System>, got: nat, arrive: nat) returns (run': seq<System>)
    requires IsRun(h, maxLen, run) && run[|run| - 1].g.got == got <= |run[|run| - 1].g.sent|
    ensures IsRun(h, maxLen, run')
    ensures var s := run[|run| - 1];
            run'[|run'| - 1] == System(s.g.(got := Least(got + arrive, |s.g.sent|)), s.threads)
  {
    run' := GrowArrive(h, maxLen, run, Least(arrive, |run[|run| - 1].g.sent| - got));
    hide IsRun;
  }

  /** The call's steps before it may read, for a socket that lets `room` bytes through. */
  lemma SendIsARun(h: Handler, maxLen: int, run: seq<System>, t: Tid, cmd: Bytes, room: nat)
      returns (run': seq<System>, g': Shared, pc': Pc)
    requires IsRun(h, maxLen, run) && t !in run[|run| - 1].threads
    requires var g := run[|run| - 1].g; g.got <= |g.sent| && g.mu.None?
    ensures IsRun(h, maxLen, run') && run'[|run'| - 1] == At(g', run[|run| - 1].threads, t, pc')
    ensures var g := run[|run| - 1].g;
            g'.got == g.got && g'.read == g.read && g'.flags == g.flags && g.sent <= g'.sent
    ensures SendsAsAlways(maxLen, run[|run| - 1].g, g', pc', cmd, room)
  {
    var s := run[|run| - 1];
    var g := s.g.(mu := Some(t));
    hide IsRun, Send, IdAfter, Written;
    if ClosedSet in s.g.flags || cmd == [] || (maxLen > 0 && |cmd| > maxLen) {
      var e;
      run', e := RefusedIsARun(h, maxLen, run, t, cmd);
      g', pc' := s.g, Finished(cmd, ClosedSet in s.g.flags, 0, Err(e));
      forall unread: Bytes ensures SendsAs(maxLen, s.g, g', pc', cmd, room, unread) { RefusedSends(maxLen, s.g, cmd, room, unread); }
    } else {
      run' := EnterIsARun(h, maxLen, run, t, cmd);
      if SocketClosed in s.g.flags {
        run' := DeadIsARun(h, maxLen, run', g, s.threads, t, cmd);
        g', pc' := Release(g), Finished(cmd, false, 0, Err(Net(false)));
        forall unread: Bytes ensures SendsAs(maxLen, s.g, g', pc', cmd, room, unread) { DeadSends(maxLen, s.g, cmd, room, unread); }
      } else {
        run' := WriteIsARun(h, maxLen, run', g, s.threads, t, cmd, room);
        g', pc' := WrittenSecond(g, t, cmd, room).0, WrittenSecond(g, t, cmd, room).1;
        WrittenKeeps(g, t, cmd, room);
        forall unread: Bytes ensures SendsAs(maxLen, s.g, g', pc', cmd, room, unread) {
          WrittenIsSend(g, t, maxLen, cmd, room, unread);
          assert Abs(g, room, unread) == Abs(s.g, room, unread);
        }
      }
    }
  }

  /** The call has sent what Execute sends, and is about to read, or has ended with the error Execute gives. */
  ghost predicate SendsAs(maxLen: int, g: Shared, g': Shared, pc': Pc, cmd: Bytes, room: nat, unread: Bytes)
  {
    var (st', r) := Send(Abs(g, room, unread), ReadMulti, maxLen, cmd);
    st' == Abs(g', st'.room, unread)
    && if r.Ok? then pc' == Reading(cmd, |g.past.wire|, r.value, []) && g'.mu.Some?
       else pc'.Finished? && pc'.cmd == cmd && pc'.result == Err(r.error) && g'.mu.None?
  }

  ghost predicate SendsAsAlways(maxLen: int, g: Shared, g': Shared, pc': Pc, cmd: Bytes, room: nat)
  {
    forall unread: Bytes :: SendsAs(maxLen, g, g', pc', cmd, room, unread)
  }

  lemma RefusedSends(maxLen: int, g: Shared, cmd: Bytes, room: nat, unread: Bytes)
    requires g.mu.None? && (ClosedSet in g.flags || cmd == [] || (maxLen > 0 && |cmd| > maxLen))
    ensures var e := if ClosedSet in g.flags then Closed else if cmd == [] then CommandEmpty else CommandTooLong;
            SendsAs(maxLen, g, g, Finished(cmd, ClosedSet in g.flags, 0, Err(e)), cmd, room, unread)
  {
    hide IdAfter;
  }

  lemma DeadSends(maxLen: int, g: Shared, cmd: Bytes, room: nat, unread: Bytes)
    requires g.mu.None? && ClosedSet !in g.flags && SocketClosed in g.flags && cmd != [] && (maxLen > 0 ==> |cmd| <= maxLen)
    ensures SendsAs(maxLen, g, g, Finished(cmd, false, 0, Err(Net(false))), cmd, room, unread)
  {
    hide IdAfter;
  }

  lemma EndedAs(maxLen: int, s: System, s1: System, t: Tid, cmd: Bytes, room: nat, unread: Bytes, net: Network)
    requires t in s1.threads && SendsAs(maxLen, s.g, s1.g, s1.threads[t], cmd, room, unread) && s1.threads[t].Finished?
    ensures EndsAsExecute(maxLen, s1, t, cmd, Abs(s.g, room, unread), net) && Send(Abs(s.g, room, unread), ReadMulti, maxLen, cmd).1.Err?
  {
    hide Send, IdAfter;
  }

  /** A call that ended without reading. */
  lemma UnreadIsSame(h: Handler, maxLen: int, s: System, s1: System, t: Tid, cmd: Bytes, room: nat, arrive: nat, n: nat, m: nat,
                     ending: Ending, buffered: Bytes -> nat) returns (s': System, st: State, net: Network)
    requires s1.g.got == s.g.got <= |s1.g.sent| && t in s1.threads && s1.threads[t].Finished?
    requires SendsAsAlways(maxLen, s.g, s1.g, s1.threads[t], cmd, room)
    ensures s' == System(s1.g.(got := Least(s.g.got + arrive, |s1.g.sent|)), s1.threads)
    ensures net.ending == ending && net.buffered == buffered && st.room == room
    ensures SameAsExecute(h, maxLen, s, s', t, cmd, arrive, n, m, st, net)
  {
    hide Send, Execute, IdAfter, Seen, SendsAs;
    s' := System(s1.g.(got := Least(s.g.got + arrive, |s1.g.sent|)), s1.threads);
    var seen := Seen(h, s'.g, s.g.read, n);
    st := Abs(s.g, room, Take(seen, m));
    net := Showing(seen, m, ending, buffered);
    ShowsAll(seen, m);
    EndedAs(maxLen, s, s1, t, cmd, room, Take(seen, m), net);
  }

  /** A call that got to reading. */
  lemma ReadIsSame(h: Handler, maxLen: int, s: System, g1: Shared, g2: Shared, g': Shared, pc: Pc, s': System, t: Tid, cmd: Bytes, room: nat,
                   arrive: nat, n: nat, m: nat, ending: Ending, buffered: Bytes -> nat)
    requires g1.got == s.g.got && g1.read == s.g.read && g1.flags == s.g.flags && pc.Reading?
    requires g2 == g1.(got := Least(s.g.got + arrive, |g1.sent|)) && g2.got <= |g2.sent| && g2.read <= |Stream(h, g2)|
    requires t in s'.threads && s'.g == g'
    requires var seen := Seen(h, g2, s.g.read, n);
             SendsAs(maxLen, s.g, g1, pc, cmd, room, Take(seen, m)) && ReadsEnd(g2, g', pc, s'.threads[t], seen, ending, buffered)
    ensures var seen := Seen(h, g2, s.g.read, n);
            SameAsExecute(h, maxLen, s, s', t, cmd, arrive, n, m, Abs(s.g, room, Take(seen, m)), Showing(seen, m, ending, buffered))
  {
    var seen := Seen(h, g2, s.g.read, n);
    ShowsAll(seen, m);
    assert Stream(h, g') == Stream(h, g2);
    hide Send, IdAfter, Multi, Stream, Take, Execute, SendsAs, EndsAsExecute;
    ReadEnds(maxLen, s, g1, g2, s', pc, t, cmd, room, seen, Take(seen, m), Showing(seen, m, ending, buffered));
  }

  /** What such a call returns and leaves. */
  lemma ReadEnds(maxLen: int, s: System, g1: Shared, g2: Shared, s': System, pc: Pc, t: Tid, cmd: Bytes, room: nat, seen: Bytes,
                 unread: Bytes, net: Network)
    requires pc.Reading? && t in s'.threads && g2 == g1.(got := g2.got) && unread + net.arriving == seen
    requires SendsAs(maxLen, s.g, g1, pc, cmd, room, unread)
    requires ReadsEnd(g2, s'.g, pc, s'.threads[t], seen, net.ending, net.buffered)
    ensures EndsAsExecute(maxLen, s', t, cmd, Abs(s.g, room, unread), net)
    ensures g2.read <= s'.g.read <= g2.read + |seen|
    ensures Execute(Abs(s.g, room, unread), ReadMulti, maxLen, cmd, net).0.unread == seen[s'.g.read - g2.read..]
  {
    MultiRest(seen, net.ending, net.buffered, pc.ids.req, pc.ids.sentinel);
    hide Send, IdAfter, Multi;
    PrependNothing(Multi(seen, net.ending, net.buffered, pc.ids.req, pc.ids.sentinel));
  }

  /** The reads of a call that has sent its frames. */
  lemma ReadIsARun(h: Handler, maxLen: int, run: seq<System>, s: System, g1: Shared, pc: Pc, t: Tid, cmd: Bytes, room: nat, arrive: nat,
                   n: nat, m: nat, ending: Ending, buffered: Bytes -> nat) returns (run': seq<System>, st: State, net: Network)
    requires IsRun(h, maxLen, run) && run[|run| - 1] == At(g1, s.threads, t, pc) && pc.Reading? && ReadWithin(h, s.g)
    requires g1.got == s.g.got && g1.read == s.g.read && g1.flags == s.g.flags && s.g.sent <= g1.sent
    requires SendsAsAlways(maxLen, s.g, g1, pc, cmd, room)
    ensures IsRun(h, maxLen, run')
    ensures net.ending == ending && net.buffered == buffered && st.room == room
    ensures SameAsExecute(h, maxLen, s, run'[|run'| - 1], t, cmd, arrive, n, m, st, net)
  {
    hide IsRun, SameAsExecute, SendsAs, Stream, IdAfter, ReadsEnd;
    run' := ArriveIsARun(h, maxLen, run, s.g.got, arrive);
    var g2 := g1.(got := Least(s.g.got + arrive, |g1.sent|));
    StreamGrows(h, s.g, g2);
    var seen := Seen(h, g2, s.g.read, n);
    SeenIsSlice(h, g2, n);
    hide Seen, Take;
    var g', pc';
    run', g', pc' := ReadAll(h, maxLen, run', g2, s.threads, t, pc, |seen|, ending, buffered);
    st, net := Abs(s.g, room, Take(seen, m)), Showing(seen, m, ending, buffered);
    ReadIsSame(h, maxLen, s, g1, g2, g', pc, At(g', s.threads, t, pc'), t, cmd, room, arrive, n, m, ending, buffered);
  }

  lemma SeenIsSlice(h: Handler, g: Shared, n: nat)
    requires g.got <= |g.sent| && g.read <= |Stream(h, g)|
    ensures var seen := Seen(h, g, g.read, n);
            g.read + |seen| <= |Stream(h, g)| && seen == Stream(h, g)[g.read..g.read + |seen|]
  {
    hide Stream;
  }

  /** Main result. From any state of any run in which mu is free, a new call can go through all its steps with no other thread in
      between, however much of its writes gets through, of them reaches the server, and of the server's stream it sees; and it
      comes to exactly what Execute does. */
  lemma ExecuteIsARun(h: Handler, maxLen: int, run: seq<System>, t: Tid, cmd: Bytes, room: nat, arrive: nat, n: nat, m: nat,
                      ending: Ending, buffered: Bytes -> nat) returns (run': seq<System>, st: State, net: Network)
    requires IsRun(h, maxLen, run) && t !in run[|run| - 1].threads && run[|run| - 1].g.mu.None?
    ensures IsRun(h, maxLen, run')
    ensures net.ending == ending && net.buffered == buffered && st.room == room
    ensures SameAsExecute(h, maxLen, run[|run| - 1], run'[|run'| - 1], t, cmd, arrive, n, m, st, net)
  {
    var s := run[|run| - 1];
    RunReadsWithin(h, maxLen, run, |run| - 1);
    assert s.g.got <= |s.g.sent|;
    var g1, pc;
    hide IsRun, SameAsExecute, SendsAsAlways, ReadWithin, Least;
    run', g1, pc := SendIsARun(h, maxLen, run, t, cmd, room);
    if pc.Finished? {
      var s';
      s', st, net := UnreadIsSame(h, maxLen, s, At(g1, s.threads, t, pc), t, cmd, room, arrive, n, m, ending, buffered);
      run' := ArriveIsARun(h, maxLen, run', s.g.got, arrive);
    } else {
      SendsReading(maxLen, s.g, g1, pc, cmd, room);
      run', st, net := ReadIsARun(h, maxLen, run', s, g1, pc, t, cmd, room, arrive, n, m, ending, buffered);
    }
  }

  lemma SendsReading(maxLen: int, g: Shared, g': Shared, pc': Pc, cmd: Bytes, room: nat)
    requires SendsAsAlways(maxLen, g, g', pc', cmd, room) && !pc'.Finished?
    ensures pc'.Reading?
  {
    assert SendsAs(maxLen, g, g', pc', cmd, room, []);
    hide Send;
  }
}
