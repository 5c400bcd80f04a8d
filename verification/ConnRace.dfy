/** One Conn shared by any number of concurrent Execute calls, with Close at any moment (rcon/conn.go 86-149),
    in multi-packet mode against the repository's server. A step is one atomic load or store, the acquisition
    of mu, one write or read of a frame, which may fail at any byte, or the arrival of bytes at the server. */
module ConnRace {
  import opened Wire
  import opened RequestIds
  import opened Conn
  import opened ServerConn
  import opened Reassembly

  type Tid = nat

  /** Close's two effects: the flag is set, then the socket is closed. */
  datatype Flag = ClosedSet | SocketClosed

  /** Where a call of Execute is. `late` records that the flag was already set when the call began; k is the
      index of the call's request among the frames written whole. */
  datatype Pc =
    | Start(cmd: Bytes, late: bool)
    | Waiting(cmd: Bytes)
    | Locked(cmd: Bytes)
    | Ready(cmd: Bytes)
    | Wrote(cmd: Bytes, k: nat, req: Int32)
    | Reading(cmd: Bytes, k: nat, ids: Ids, acc: Bytes)
    | Finished(cmd: Bytes, late: bool, k: nat, result: Result<Bytes>)

  /** History: the frames written whole, with the call that wrote each and the number of its identifier; how many
      frames the client has read; how many bytes failed writes left of frames they did not finish, and how many
      bytes failed reads consumed of frames they did not get. */
  datatype Past = Past(
    wire: seq<Packet>, writers: seq<Tid>, nums: seq<nat>,
    taken: nat, torn: nat, spilled: nat)

  /** What the calls, Close and the server share: the client's stream with the call that wrote each byte, how much
      of it has reached the server, and how much of the server's stream the client has consumed. */
  datatype Shared = Shared(
    mu: Option<Tid>, flags: set<Flag>, issued: nat,
    sent: Bytes, authors: seq<Tid>, got: nat, read: nat,
    past: Past)

  datatype System = System(g: Shared, threads: map<Tid, Pc>)

  /** All the server has written: serveConn's answer to whatever frames it decodes in the bytes it got. */
  function Stream(h: Handler, g: Shared): (b: Bytes)
    requires g.got <= |g.sent|
  {
    EncodeAll(Serve(h, [], ParseFrames(g.sent[..g.got], EndOfStream).frames).out)
  }

  predicate HoldsMu(pc: Pc) { pc.Locked? || pc.Ready? || pc.Wrote? || pc.Reading? }

  /** A write takes n bytes of its frame. A read sees the next n bytes, and then the stream ends for it as `ending`
      says; `buffered` is the state of the reader's buffer while it drains. */
  datatype Action =
    | Begin | Check | Acquire | SetDeadline
    | WriteRequest(n: nat, timeout: bool) | WriteSentinel(n: nat, timeout: bool)
    | Read(n: nat, ending: Ending, buffered: Bytes -> nat)
    | Arrive(n: nat) | StoreClosed | CloseSocket

  function Release(g: Shared): (g': Shared) { g.(mu := None) }

  predicate Whole(p: Packet, n: nat) { n == |Encode(p)| }

  /** After n bytes of p were written by t; mu is released if that was not all of it. */
  function Written(g: Shared, t: Tid, p: Packet, n: nat): (g': Shared)
    requires n <= |Encode(p)|
  {
    var past := if Whole(p, n) then
                  g.past.(wire := g.past.wire + [p], writers := g.past.writers + [t], nums := g.past.nums + [g.issued + 1])
                else g.past.(torn := g.past.torn + n);
    g.(mu := if Whole(p, n) then g.mu else None, issued := g.issued + 1,
       sent := g.sent + Encode(p)[..n], authors := g.authors + seq(n, _ => t), past := past)
  }

  predicate Writable(g: Shared, p: Packet, n: nat) { n <= |Encode(p)| && (SocketClosed in g.flags ==> n == 0) }

  /** A step of a call from pc to pc'. */
  ghost predicate CallStep(h: Handler, maxLen: int, g: Shared, g': Shared, t: Tid, pc: Pc, pc': Pc, a: Action)
    requires g.got <= |g.sent|
  {
    var next := IdAfter(g.issued + 1);
    match a
    case Check =>
      pc.Start? && g' == g
      && pc' == (if ClosedSet in g.flags then Finished(pc.cmd, pc.late, 0, Err(Closed))
                 else if pc.cmd == [] then Finished(pc.cmd, pc.late, 0, Err(CommandEmpty))
                 else if maxLen > 0 && |pc.cmd| > maxLen then Finished(pc.cmd, pc.late, 0, Err(CommandTooLong))
                 else Waiting(pc.cmd))
    case Acquire =>
      pc.Waiting? && g.mu.None? && g' == g.(mu := Some(t)) && pc' == Locked(pc.cmd)
    case SetDeadline =>
      pc.Locked?
      && if SocketClosed in g.flags then pc' == Finished(pc.cmd, false, 0, Err(Net(false))) && g' == Release(g)
         else pc' == Ready(pc.cmd) && g' == g
    case WriteRequest(n, timeout) =>
      var p := ExecFrame(next, pc.cmd);
      pc.Ready? && Writable(g, p, n) && g' == Written(g, t, p, n)
      && pc' == (if Whole(p, n) then Wrote(pc.cmd, |g.past.wire|, next) else Finished(pc.cmd, false, 0, Err(Net(timeout))))
    case WriteSentinel(n, timeout) =>
      var p := SentinelFrame(next);
      pc.Wrote? && Writable(g, p, n) && g' == Written(g, t, p, n)
      && pc' == (if Whole(p, n) then Reading(pc.cmd, pc.k, Ids(pc.req, next), []) else Finished(pc.cmd, false, 0, Err(Net(timeout))))
    case Read(n, ending, buffered) =>
      pc.Reading? && g.read + n <= |Stream(h, g)|
      && ReadStep(g, g', pc, pc', Stream(h, g)[g.read..g.read + n], ending, buffered)
    case _ => false
  }

  /** The client has consumed n more bytes. */
  function Consume(g: Shared, n: nat): (g': Shared) { g.(read := g.read + n) }

  /** One turn of readMultiPacket, which sees these bytes before the stream ends for it. */
  ghost predicate ReadStep(g: Shared, g': Shared, pc: Pc, pc': Pc, seen: Bytes, ending: Ending, buffered: Bytes -> nat)
    requires pc.Reading?
  {
    match Decode(seen, ending)
    case Fault(e, rest) =>
      var n := |seen| - |rest|;
      g' == Consume(Release(g), n).(past := g.past.(spilled := g.past.spilled + n))
      && pc' == Finished(pc.cmd, false, 0, Err(e))
    case Frame(f, rest) =>
      var n := |seen| - |rest|;
      var past := g.past.(taken := g.past.taken + 1);
      if f.id == pc.ids.sentinel then
        g' == Consume(Release(g), |seen| - |Drain(rest, ending, buffered)|).(past := past)
        && pc' == Finished(pc.cmd, false, pc.k, Ok(pc.acc))
      else if !Belongs(f, pc.ids.req) then
        g' == Consume(Release(g), n).(past := past) && pc' == Finished(pc.cmd, false, 0, Err(ResponseMismatch))
      else
        g' == Consume(g, n).(past := past) && pc' == Reading(pc.cmd, pc.k, pc.ids, pc.acc + f.body)
  }

  /** Bytes reach the server, or Close makes one of its two moves. */
  ghost predicate EnvStep(g: Shared, g': Shared, a: Action)
  {
    match a
    case Arrive(n) => g.got + n <= |g.sent| && g' == g.(got := g.got + n)
    case StoreClosed => g' == g.(flags := g.flags + {ClosedSet})
    case CloseSocket => ClosedSet in g.flags && g' == g.(flags := g.flags + {SocketClosed})
    case _ => false
  }

  predicate IsEnv(a: Action) { a.Arrive? || a.StoreClosed? || a.CloseSocket? }

  ghost predicate Moves(s: System, s': System, t: Tid) { t in s'.threads && s'.threads == s.threads[t := s'.threads[t]] }

  ghost predicate BeginStep(s: System, s': System, t: Tid)
  {
    t !in s.threads && Moves(s, s', t) && s'.g == s.g && s'.threads[t].Start?
    && s'.threads[t].late == (ClosedSet in s.g.flags)
  }

  ghost predicate Do(h: Handler, maxLen: int, s: System, s': System, t: Tid, a: Action)
  {
    s.g.got <= |s.g.sent|
    && if a.Begin? then BeginStep(s, s', t)
       else if IsEnv(a) then s'.threads == s.threads && EnvStep(s.g, s'.g, a)
       else t in s.threads && Moves(s, s', t) && CallStep(h, maxLen, s.g, s'.g, t, s.threads[t], s'.threads[t], a)
  }

  ghost predicate Next(h: Handler, maxLen: int, s: System, s': System) { exists t: Tid, a: Action :: Do(h, maxLen, s, s', t, a) }

  /** An authenticated connection; the handshake has used up some identifiers. */
  ghost predicate Initial(s: System)
  {
    s == System(Shared(None, {}, s.g.issued, [], [], 0, 0, Past([], [], [], 0, 0, 0)), map[])
  }

  ghost predicate IsRun(h: Handler, maxLen: int, run: seq<System>)
  {
    |run| > 0 && Initial(run[0])
    && (forall i :: 0 <= i < |run| - 1 ==> Next(h, maxLen, run[i], run[i + 1]))
  }

  // ----- invariants of every run -----

  ghost predicate LockInv(s: System)
  {
    (forall t :: t in s.threads && HoldsMu(s.threads[t]) ==> s.g.mu == Some(t))
    && (s.g.mu.Some? ==> s.g.mu.value in s.threads && HoldsMu(s.threads[s.g.mu.value]))
  }

  /** What lies between two bytes of one call is of that call. */
  ghost predicate Adjacent(authors: seq<Tid>)
  {
    forall i, j, k :: 0 <= i < j < k < |authors| && authors[i] == authors[k] ==> authors[j] == authors[i]
  }

  /** The frames written whole: numbers rising, identifiers those of the numbers, commands within the limit; as
      long as no write was torn they are all there is on the stream. */
  ghost predicate PastInv(maxLen: int, g: Shared)
  {
    var w := g.past;
    |w.writers| == |w.wire| && |w.nums| == |w.wire|
    && (forall i :: 0 <= i < |w.wire| ==>
          1 <= w.nums[i] <= g.issued && w.wire[i].id == IdAfter(w.nums[i]) && (maxLen > 0 ==> |w.wire[i].body| <= maxLen))
    && (forall i, j :: 0 <= i < j < |w.nums| ==> w.nums[i] < w.nums[j])
    && (w.torn == 0 ==> g.sent == EncodeAll(w.wire))
  }

  ghost predicate StreamInv(g: Shared) { |g.authors| == |g.sent| && g.got <= |g.sent| && Adjacent(g.authors) }

  /** The errors of a call that is refused before it writes. */
  predicate Refusal(e: Error) { e in {Closed, CommandEmpty, CommandTooLong} }

  /** Where a call's bytes are: nowhere before it writes, then at the end of the stream while it holds mu. */
  ghost predicate CallInv(maxLen: int, g: Shared, t: Tid, pc: Pc)
  {
    var w := g.past;
    match pc
    case Start(_, late) => t !in g.authors && (late ==> ClosedSet in g.flags)
    case Waiting(cmd) => t !in g.authors && (maxLen > 0 ==> |cmd| <= maxLen)
    case Locked(cmd) => t !in g.authors && (maxLen > 0 ==> |cmd| <= maxLen)
    case Ready(cmd) => t !in g.authors && (maxLen > 0 ==> |cmd| <= maxLen)
    case Wrote(cmd, k, req) =>
      g.authors != [] && g.authors[|g.authors| - 1] == t
      && |w.wire| == |w.writers| == |w.nums| == k + 1 && w.writers[k] == t && w.nums[k] == g.issued && w.wire[k] == ExecFrame(req, cmd)
    case Reading(cmd, k, ids, _) =>
      |w.wire| == |w.writers| == |w.nums| == k + 2 && w.writers[k] == t && w.nums[k] + 1 == w.nums[k + 1] == g.issued
      && w.wire[k] == ExecFrame(ids.req, cmd) && w.wire[k + 1] == SentinelFrame(ids.sentinel)
    case Finished(_, late, _, r) =>
      (late ==> r == Err(Closed)) && (r.Err? && Refusal(r.error) ==> t !in g.authors)
  }

  ghost predicate CallsInv(maxLen: int, s: System)
  {
    forall t :: t in s.threads ==> CallInv(maxLen, s.g, t, s.threads[t])
  }

  /** A thread that has not called Execute yet has written nothing. */
  ghost predicate KnownWriters(s: System) { forall t :: t in s.g.authors ==> t in s.threads }

  ghost predicate Inv(maxLen: int, s: System)
  {
    LockInv(s) && StreamInv(s.g) && PastInv(maxLen, s.g) && CallsInv(maxLen, s) && KnownWriters(s)
  }

  // ----- every step keeps them -----

  /** What a call's step leaves alone unless it writes. */
  ghost predicate SameWritten(g: Shared, g': Shared)
  {
    g'.sent == g.sent && g'.authors == g.authors && g'.issued == g.issued
    && g'.past == g.past.(taken := g'.past.taken, spilled := g'.past.spilled)
  }

  /** Call t writes some bytes of some frame. */
  ghost predicate WritesSome(g: Shared, g': Shared, t: Tid)
  {
    exists p: Packet, n: nat :: n <= |Encode(p)| && g' == Written(g, t, p, n)
  }

  lemma WritesOnlyItsOwn(g: Shared, g': Shared, t: Tid, u: Tid)
    requires WritesSome(g, g', t) && u in g'.authors
    ensures u == t || u in g.authors
  {
  }

  /** What a call's step does to mu and to the client's stream. */
  ghost predicate CallMove(g: Shared, g': Shared, t: Tid, pc: Pc, pc': Pc)
  {
    g'.mu == (if HoldsMu(pc') then Some(t) else if HoldsMu(pc) then None else g.mu)
    && (HoldsMu(pc') && !HoldsMu(pc) ==> g.mu.None?)
    && g'.got == g.got && g'.flags == g.flags
    && (SameWritten(g, g') || (HoldsMu(pc) && WritesSome(g, g', t)))
  }

  lemma CallMoves(h: Handler, maxLen: int, g: Shared, g': Shared, t: Tid, pc: Pc, pc': Pc, a: Action)
    requires g.got <= |g.sent| && CallStep(h, maxLen, g, g', t, pc, pc', a) && (HoldsMu(pc) ==> g.mu == Some(t))
    ensures CallMove(g, g', t, pc, pc')
  {
    hide Stream, IdAfter, Encode, Decode, Drain;
  }

  lemma LockKept(s: System, s': System, t: Tid)
    requires LockInv(s) && t in s.threads && Moves(s, s', t) && CallMove(s.g, s'.g, t, s.threads[t], s'.threads[t])
    ensures LockInv(s')
  {
    hide WritesSome;
  }

  /** Bytes appended by a call that has written nothing yet, or the last byte. */
  lemma AppendKeepsAdjacent(authors: seq<Tid>, t: Tid, n: nat)
    requires Adjacent(authors) && (t !in authors || authors[|authors| - 1] == t)
    ensures Adjacent(authors + seq(n, _ => t))
  {
    var authors' := authors + seq(n, _ => t);
    forall i, j, k | 0 <= i < j < k < |authors'| && authors'[i] == authors'[k] ensures authors'[j] == authors'[i] {
      if |authors| <= k && i < |authors| {
        assert authors[i] == t;
        assert j < |authors| - 1 ==> authors[j] == authors[i];
      }
    }
  }

  lemma WriteKeepsStream(g: Shared, t: Tid, p: Packet, n: nat)
    requires StreamInv(g) && n <= |Encode(p)| && (t !in g.authors || g.authors[|g.authors| - 1] == t)
    ensures StreamInv(Written(g, t, p, n))
  {
    hide Encode, Adjacent;
    AppendKeepsAdjacent(g.authors, t, n);
  }

  lemma WriteKeepsPast(maxLen: int, g: Shared, t: Tid, p: Packet, n: nat)
    requires PastInv(maxLen, g) && n <= |Encode(p)| && p.id == IdAfter(g.issued + 1) && (maxLen > 0 ==> |p.body| <= maxLen)
    ensures PastInv(maxLen, Written(g, t, p, n))
  {
    EncodeAllConcat(g.past.wire, [p]);
    EncodeAllOne(p);
    hide IdAfter, Encode, EncodeAll;
    assert n == |Encode(p)| ==> Encode(p)[..n] == Encode(p);
    assert n == 0 ==> g.sent + Encode(p)[..n] == g.sent;
  }

  lemma SameKeeps(maxLen: int, g: Shared, g': Shared)
    requires StreamInv(g) && PastInv(maxLen, g) && SameWritten(g, g') && g'.got <= |g.sent|
    ensures StreamInv(g') && PastInv(maxLen, g')
  {
    hide IdAfter, EncodeAll, Adjacent;
  }

  /** The stream and the frames on it. */
  lemma WrittenKept(h: Handler, maxLen: int, g: Shared, g': Shared, t: Tid, pc: Pc, pc': Pc, a: Action)
    requires StreamInv(g) && PastInv(maxLen, g) && CallInv(maxLen, g, t, pc) && CallStep(h, maxLen, g, g', t, pc, pc', a)
    ensures StreamInv(g') && PastInv(maxLen, g')
  {
    hide Stream, IdAfter, Encode, Decode, Drain, PastInv, Adjacent, Written;
    match a
    case WriteRequest(n, _) =>
      var p := ExecFrame(IdAfter(g.issued + 1), pc.cmd);
      WriteKeepsStream(g, t, p, n);
      WriteKeepsPast(maxLen, g, t, p, n);
    case WriteSentinel(n, _) =>
      var p := SentinelFrame(IdAfter(g.issued + 1));
      WriteKeepsStream(g, t, p, n);
      WriteKeepsPast(maxLen, g, t, p, n);
    case _ =>
      SameKeeps(maxLen, g, g');
  }

  /** The call that steps. */
  lemma OwnCallKept(h: Handler, maxLen: int, g: Shared, g': Shared, t: Tid, pc: Pc, pc': Pc, a: Action)
    requires StreamInv(g) && PastInv(maxLen, g) && CallInv(maxLen, g, t, pc) && CallStep(h, maxLen, g, g', t, pc, pc', a)
    ensures CallInv(maxLen, g', t, pc')
  {
    hide Stream, IdAfter, Encode, EncodeAll, Adjacent, ReadStep;
    if a.Read? {
      ReadingCallKept(maxLen, g, g', t, pc, pc', Stream(h, g)[g.read..g.read + a.n], a.ending, a.buffered);
    }
  }

  lemma ReadingCallKept(maxLen: int, g: Shared, g': Shared, t: Tid, pc: Pc, pc': Pc, seen: Bytes, ending: Ending, buffered: Bytes -> nat)
    requires pc.Reading? && CallInv(maxLen, g, t, pc) && ReadStep(g, g', pc, pc', seen, ending, buffered)
    ensures CallInv(maxLen, g', t, pc')
  {
    DecodeFaults(seen, ending);
    hide Decode, Drain;
  }

  /** Every other call: it does not hold mu while the stepping call writes. */
  lemma OtherCallKept(maxLen: int, g: Shared, g': Shared, u: Tid, pc: Pc, t: Tid)
    requires CallInv(maxLen, g, u, pc) && u != t && g.flags <= g'.flags
    requires SameWritten(g, g') || (!HoldsMu(pc) && WritesSome(g, g', t))
    ensures CallInv(maxLen, g', u, pc)
  {
    hide IdAfter, Encode;
    if !SameWritten(g, g') && u in g'.authors {
      WritesOnlyItsOwn(g, g', t, u);
    }
  }

  lemma CallsKept(h: Handler, maxLen: int, s: System, s': System, t: Tid, a: Action)
    requires Inv(maxLen, s) && t in s.threads && Moves(s, s', t)
    requires CallStep(h, maxLen, s.g, s'.g, t, s.threads[t], s'.threads[t], a)
    ensures CallsInv(maxLen, s')
  {
    CallMoves(h, maxLen, s.g, s'.g, t, s.threads[t], s'.threads[t], a);
    OwnCallKept(h, maxLen, s.g, s'.g, t, s.threads[t], s'.threads[t], a);
    hide CallStep, CallInv, WritesSome, PastInv, StreamInv, Encode;
    forall u | u in s'.threads && u != t ensures CallInv(maxLen, s'.g, u, s'.threads[u]) {
      OtherCallKept(maxLen, s.g, s'.g, u, s.threads[u], t);
    }
  }

  lemma KnownKept(s: System, s': System, t: Tid)
    requires KnownWriters(s) && t in s.threads && Moves(s, s', t) && CallMove(s.g, s'.g, t, s.threads[t], s'.threads[t])
    ensures KnownWriters(s')
  {
    hide Encode, Written, WritesSome;
    forall u | u in s'.g.authors ensures u in s'.threads {
      if !SameWritten(s.g, s'.g) {
        WritesOnlyItsOwn(s.g, s'.g, t, u);
      }
    }
  }

  lemma CallStepKept(h: Handler, maxLen: int, s: System, s': System, t: Tid, a: Action)
    requires Inv(maxLen, s) && t in s.threads && Moves(s, s', t)
    requires CallStep(h, maxLen, s.g, s'.g, t, s.threads[t], s'.threads[t], a)
    ensures Inv(maxLen, s')
  {
    CallsKept(h, maxLen, s, s', t, a);
    hide CallStep, PastInv, CallInv, WritesSome, Encode, Adjacent;
    WrittenKept(h, maxLen, s.g, s'.g, t, s.threads[t], s'.threads[t], a);
    CallMoves(h, maxLen, s.g, s'.g, t, s.threads[t], s'.threads[t], a);
    hide CallMove;
    LockKept(s, s', t);
    KnownKept(s, s', t);
  }

  lemma EnvStepKept(maxLen: int, s: System, s': System, a: Action)
    requires Inv(maxLen, s) && s'.threads == s.threads && EnvStep(s.g, s'.g, a)
    ensures Inv(maxLen, s')
  {
    hide PastInv, CallInv, IdAfter, Adjacent;
    SameKeeps(maxLen, s.g, s'.g);
    forall u | u in s'.threads ensures CallInv(maxLen, s'.g, u, s'.threads[u]) {
      OtherCallKept(maxLen, s.g, s'.g, u, s.threads[u], u + 1);
    }
  }

  lemma BeginKept(maxLen: int, s: System, s': System, t: Tid)
    requires Inv(maxLen, s) && BeginStep(s, s', t)
    ensures Inv(maxLen, s')
  {
    hide PastInv, StreamInv;
  }

  lemma StepKept(h: Handler, maxLen: int, s: System, s': System, t: Tid, a: Action)
    requires Inv(maxLen, s) && Do(h, maxLen, s, s', t, a)
    ensures Inv(maxLen, s')
  {
    hide Inv, CallStep, EnvStep, BeginStep;
    if a.Begin? {
      BeginKept(maxLen, s, s', t);
    } else if IsEnv(a) {
      EnvStepKept(maxLen, s, s', a);
    } else {
      CallStepKept(h, maxLen, s, s', t, a);
    }
  }

  /** They hold in every state of every run, however long. */
  lemma {:induction false} RunKeepsInv(h: Handler, maxLen: int, run: seq<System>, i: nat)
    requires IsRun(h, maxLen, run) && i < |run|
    ensures Inv(maxLen, run[i])
  {
    if i > 0 {
      hide Inv, Do, Initial;
      RunKeepsInv(h, maxLen, run, i - 1);
      assert Next(h, maxLen, run[i - 1], run[i - 1 + 1]);
      var t: Tid, a: Action :| Do(h, maxLen, run[i - 1], run[i], t, a);
      StepKept(h, maxLen, run[i - 1], run[i], t, a);
    } else {
      InitialInv(maxLen, run[0]);
    }
  }

  lemma InitialInv(maxLen: int, s: System)
    requires Initial(s)
    ensures Inv(maxLen, s)
  {
  }

  // ----- main results for every run -----

  /** The bytes of different calls never interleave on the wire, torn frames included; and as long as no write was
      torn, the stream is a list of whole frames, which a server can read if the command limit lets it. */
  lemma FramesNeverInterleave(h: Handler, maxLen: int, run: seq<System>, n: nat)
    requires IsRun(h, maxLen, run) && n < |run|
    ensures var g := run[n].g;
            |g.authors| == |g.sent| && Adjacent(g.authors) && |g.past.writers| == |g.past.wire|
            && (g.past.torn == 0 ==> g.sent == EncodeAll(g.past.wire))
            && (0 < maxLen <= MAX_PAYLOAD_SIZE ==> AllLegal(g.past.wire))
  {
    hide IsRun;
    RunKeepsInv(h, maxLen, run, n);
    hide LockInv, CallsInv, IdAfter, KnownWriters, Adjacent, EncodeAll;
  }

  /** A call begun after Close set the flag has not got past its first check, or was refused there. */
  ghost predicate LateOrRefused(g: Shared, t: Tid, pc: Pc)
  {
    (pc.Start? || (pc.Finished? && pc.result == Err(Closed))) && pc.late && t !in g.authors
  }

  lemma LateStep(h: Handler, maxLen: int, s: System, s': System, t: Tid, u: Tid, a: Action)
    requires Inv(maxLen, s) && Do(h, maxLen, s, s', u, a) && t in s.threads && LateOrRefused(s.g, t, s.threads[t])
    ensures t in s'.threads && LateOrRefused(s'.g, t, s'.threads[t])
  {
    assert CallInv(maxLen, s.g, t, s.threads[t]);
    StepKept(h, maxLen, s, s', u, a);
    hide Stream, IdAfter, Encode, ReadStep, PastInv, Adjacent, LockInv, KnownWriters;
    if u != t {
      assert s'.threads[t] == s.threads[t];
    }
    assert CallInv(maxLen, s'.g, t, s'.threads[t]);
  }

  /** A call begun after Close has set the flag never gets past its first check: from then on, to the end of the run, it
      has written nothing, and when it returns it returns ErrClosed. */
  lemma {:induction false} LateCallsAreRefused(h: Handler, maxLen: int, run: seq<System>, m: nat, n: nat, t: Tid)
    requires IsRun(h, maxLen, run) && m <= n < |run| && t in run[m].threads
    requires run[m].threads[t].Start? && run[m].threads[t].late
    ensures t in run[n].threads && LateOrRefused(run[n].g, t, run[n].threads[t])
  {
    hide Inv, Do, Initial, LateOrRefused;
    if m == n {
      RunKeepsInv(h, maxLen, run, m);
      LateNow(maxLen, run[m], t);
    } else {
      RunKeepsInv(h, maxLen, run, n - 1);
      LateCallsAreRefused(h, maxLen, run, m, n - 1, t);
      assert Next(h, maxLen, run[n - 1], run[n - 1 + 1]);
      var u: Tid, a: Action :| Do(h, maxLen, run[n - 1], run[n], u, a);
      LateStep(h, maxLen, run[n - 1], run[n], t, u, a);
    }
  }

  lemma LateNow(maxLen: int, s: System, t: Tid)
    requires Inv(maxLen, s) && t in s.threads && s.threads[t].Start? && s.threads[t].late
    ensures LateOrRefused(s.g, t, s.threads[t])
  {
    hide LockInv, PastInv, StreamInv, KnownWriters;
    assert CallInv(maxLen, s.g, t, s.threads[t]);
  }

  /** The mark says what it should: exactly the calls that begin once the flag is set carry it. */
  lemma LateMeansAfterClose(h: Handler, maxLen: int, s: System, s': System, t: Tid, a: Action)
    requires Do(h, maxLen, s, s', t, a) && t !in s.threads && t in s'.threads
    ensures s'.threads[t].Start? && (s'.threads[t].late <==> ClosedSet in s.g.flags)
  {
    hide CallStep, EnvStep;
  }

  lemma FlagsStep(h: Handler, maxLen: int, s: System, s': System, t: Tid, a: Action)
    requires Do(h, maxLen, s, s', t, a)
    ensures s.g.flags <= s'.g.flags && s.g.sent <= s'.g.sent && (SocketClosed in s.g.flags ==> s'.g.sent == s.g.sent)
    ensures a == StoreClosed ==> ClosedSet in s'.g.flags
    ensures a == CloseSocket ==> SocketClosed in s'.g.flags
  {
    hide Stream, IdAfter, Encode, Decode, Drain;
  }

  /** Close is for good: from its first step on every call that begins is refused, and from its second on not one more byte
      goes out, also of the calls that were under way. */
  lemma {:induction false} CloseIsForGood(h: Handler, maxLen: int, run: seq<System>, m: nat, n: nat, t: Tid, a: Action)
    requires IsRun(h, maxLen, run) && m < n < |run| && Do(h, maxLen, run[m], run[m + 1], t, a)
    ensures a == StoreClosed ==> ClosedSet in run[n].g.flags
    ensures a == CloseSocket ==> SocketClosed in run[n].g.flags && run[n].g.sent == run[m + 1].g.sent
  {
    hide Do, Initial;
    if n == m + 1 {
      FlagsStep(h, maxLen, run[m], run[n], t, a);
    } else {
      CloseIsForGood(h, maxLen, run, m, n - 1, t, a);
      assert Next(h, maxLen, run[n - 1], run[n - 1 + 1]);
      var u: Tid, b: Action :| Do(h, maxLen, run[n - 1], run[n], u, b);
      FlagsStep(h, maxLen, run[n - 1], run[n], u, b);
    }
  }
}
