/** What a caller can rely on without looking at the wire: as long as no call on a Conn has failed in the network,
    every call is answered correctly, for ever (rcon/conn.go 111-185). */
module ConnHealth {
  import opened Wire
  import opened RequestIds
  import opened Conn
  import opened ServerConn
  import opened ConnRace
  import opened ConnReplies

  /** No call has returned a network error, an end of stream or a refused frame size. */
  ghost predicate Healthy(s: System) { forall t :: t in s.threads ==> !Failed(s.threads[t]) }

  /** The first frame that may have unread replies, as far as the holder of mu knows: its own request. */
  function FloorOf(g: Shared, pc: Pc): (n: nat)
    ensures n <= |g.past.wire|
  {
    if (pc.Wrote? || pc.Reading?) && pc.k <= |g.past.wire| then pc.k else |g.past.wire|
  }

  function Floor(s: System): (n: nat)
    ensures n <= |s.g.past.wire|
  {
    if s.g.mu.Some? && s.g.mu.value in s.threads then FloorOf(s.g, s.threads[s.g.mu.value]) else |s.g.past.wire|
  }

  /** All replies to earlier calls have been read. */
  ghost predicate CaughtUp(h: Handler, g: Shared, floor: nat)
    requires floor <= |g.past.wire|
  {
    |SoFar(h, g.past.wire, floor).out| <= g.past.taken
  }

  predicate OkOrRefused(pc: Pc) { pc.Finished? && pc.result.Err? ==> Refusal(pc.result.error) }

  ghost predicate HealthInv(h: Handler, s: System)
  {
    Undisturbed(s.g) && RepliesInv(h, s) && CaughtUp(h, s.g, Floor(s))
    && forall t :: t in s.threads ==> OkOrRefused(s.threads[t])
  }

  /** Then nothing unread is old. */
  lemma CaughtUpIsFresh(h: Handler, maxLen: int, s: System)
    requires Inv(maxLen, s) && CaughtUp(h, s.g, Floor(s))
    ensures Fresh(h, s.g)
  {
    hide SoFar, IdAfter, EncodeAll, Adjacent, KnownWriters;
    var w := s.g.past;
    forall j | 0 <= j < |w.nums| && j < |w.wire| && |SoFar(h, w.wire, j + 1).out| > w.taken
      ensures s.g.issued - w.nums[j] < PERIOD
    {
      if j < Floor(s) {
        ServedGrows(h, w.wire, j + 1, Floor(s));
      } else {
        var t := s.g.mu.value;
        assert CallInv(maxLen, s.g, t, s.threads[t]);
      }
    }
  }

  /** A read of a call that has caught up gets the next part of its own answer. */
  lemma ReadKeepsUp(h: Handler, maxLen: int, g: Shared, g': Shared, t: Tid, pc: Pc, pc': Pc, n: nat)
    requires PastInv(maxLen, g) && CallInv(maxLen, g, t, pc) && pc.Reading? && !Failed(pc')
    requires PositionInv(h, g) && ReadOf(h, g, pc) && ReadsFrame(g, g', pc, pc', n, Replies(h, g))
    requires CaughtUp(h, g, FloorOf(g, pc))
    ensures CaughtUp(h, g', FloorOf(g', pc')) && OkOrRefused(pc')
  {
    OwnAnswerNext(h, maxLen, g, t, pc);
    hide PastInv, SoFar, Bodies, EncodeAll, Replies;
  }

  lemma WriteKeepsUp(h: Handler, maxLen: int, g: Shared, g': Shared, t: Tid, pc: Pc, pc': Pc, a: Action)
    requires g.got <= |g.sent| && CallStep(h, maxLen, g, g', t, pc, pc', a) && !a.Read? && !Failed(pc')
    requires CallInv(maxLen, g, t, pc) && CaughtUp(h, g, FloorOf(g, pc))
    ensures CaughtUp(h, g', FloorOf(g', pc')) && OkOrRefused(pc')
  {
    hide Stream, IdAfter, Encode, SoFar, ReadStep;
    if a.WriteRequest? {
      SoFarKept(h, g.past.wire, g'.past.wire, |g.past.wire|);
    } else if a.WriteSentinel? {
      SoFarKept(h, g.past.wire, g'.past.wire, pc.k);
    }
  }

  /** A call that does not fail spills nothing. */
  lemma NoSpill(h: Handler, maxLen: int, g: Shared, g': Shared, t: Tid, pc: Pc, pc': Pc, a: Action)
    requires g.got <= |g.sent| && CallStep(h, maxLen, g, g', t, pc, pc', a) && !Failed(pc')
    ensures g'.past.spilled == g.past.spilled && g'.past.torn == g.past.torn
  {
    CallGrows(h, maxLen, g, g', t, pc, pc', a);
    hide Stream, Encode, Drain, IdAfter;
    if a.Read? {
      DecodeFaults(Stream(h, g)[g.read..g.read + a.n], a.ending);
      hide Decode;
    }
  }

  lemma OwnKeepsUp(h: Handler, maxLen: int, g: Shared, g': Shared, t: Tid, pc: Pc, pc': Pc, a: Action)
    requires StreamInv(g) && PastInv(maxLen, g) && CallInv(maxLen, g, t, pc) && Undisturbed(g) && !Failed(pc')
    requires PositionInv(h, g) && ReadOf(h, g, pc) && CallStep(h, maxLen, g, g', t, pc, pc', a)
    requires CaughtUp(h, g, FloorOf(g, pc))
    ensures CaughtUp(h, g', FloorOf(g', pc')) && OkOrRefused(pc')
  {
    hide CallStep, PositionInv, ReadOf, CallInv, Adjacent, EncodeAll, PastInv, CaughtUp, OkOrRefused, Failed;
    if a.Read? {
      hide ReadsFrame, Replies, Undisturbed;
      StepReadsFrame(h, maxLen, g, g', t, pc, pc', a);
      ReadKeepsUp(h, maxLen, g, g', t, pc, pc', a.n);
    } else {
      WriteKeepsUp(h, maxLen, g, g', t, pc, pc', a);
    }
  }

  /** Whose position counts before and after a call's step. */
  lemma FloorMoves(h: Handler, maxLen: int, s: System, s': System, t: Tid, a: Action)
    requires LockInv(s) && s.g.got <= |s.g.sent| && t in s.threads && Moves(s, s', t)
    requires CallStep(h, maxLen, s.g, s'.g, t, s.threads[t], s'.threads[t], a)
    ensures if a.Check? then s'.g == s.g && Floor(s') == Floor(s) && OkOrRefused(s'.threads[t])
            else Floor(s) == FloorOf(s.g, s.threads[t]) && Floor(s') == FloorOf(s'.g, s'.threads[t])
  {
    hide Stream, IdAfter, Encode, Decode, Drain;
  }

  lemma CallStepKept(h: Handler, maxLen: int, s: System, s': System, t: Tid, a: Action)
    requires Inv(maxLen, s) && HealthInv(h, s) && Healthy(s') && AllSized(s'.g.past.wire)
    requires t in s.threads && Moves(s, s', t) && CallStep(h, maxLen, s.g, s'.g, t, s.threads[t], s'.threads[t], a)
    ensures HealthInv(h, s')
  {
    var pc, pc' := s.threads[t], s'.threads[t];
    assert !Failed(pc') && CallInv(maxLen, s.g, t, pc) && ReadOf(h, s.g, pc);
    hide CallStep, CallsInv, CallInv, PastInv, PositionInv, ReadOf, AnswerOf, Adjacent, CaughtUp, Failed, OkOrRefused,
         KnownWriters, Floor, FloorOf;
    NoSpill(h, maxLen, s.g, s'.g, t, pc, pc', a);
    assert Undisturbed(s'.g);
    hide Undisturbed;
    CaughtUpIsFresh(h, maxLen, s);
    hide Fresh;
    ConnReplies.CallStepKept(h, maxLen, s, s', t, a);
    FloorMoves(h, maxLen, s, s', t, a);
    hide RepliesInv;
    if !a.Check? {
      OwnKeepsUp(h, maxLen, s.g, s'.g, t, pc, pc', a);
    }
  }

  lemma OtherStepKept(h: Handler, maxLen: int, s: System, s': System, t: Tid, a: Action)
    requires Inv(maxLen, s) && HealthInv(h, s) && Do(h, maxLen, s, s', t, a) && (a.Begin? || IsEnv(a))
    ensures HealthInv(h, s')
  {
    hide CallsInv, PastInv, StreamInv, KnownWriters, RepliesInv, SoFar, CallStep;
    if a.Begin? {
      ConnReplies.BeginKept(h, s, s', t);
    } else {
      ConnReplies.EnvStepKept(h, s, s', a);
    }
  }

  lemma HealthyBefore(h: Handler, maxLen: int, s: System, s': System, t: Tid, a: Action)
    requires Do(h, maxLen, s, s', t, a) && Healthy(s')
    ensures Healthy(s)
  {
    hide Stream, IdAfter, Encode, ReadStep, IoError;
    forall u | u in s.threads ensures !Failed(s.threads[u]) {
      assert u in s'.threads && !Failed(s'.threads[u]);
    }
  }

  lemma StepKept(h: Handler, maxLen: int, s: System, s': System, t: Tid, a: Action)
    requires Inv(maxLen, s) && HealthInv(h, s) && Healthy(s') && AllSized(s'.g.past.wire) && Do(h, maxLen, s, s', t, a)
    ensures HealthInv(h, s')
  {
    hide Inv, HealthInv, Healthy, AllSized, CallStep;
    if a.Begin? || IsEnv(a) {
      OtherStepKept(h, maxLen, s, s', t, a);
    } else {
      CallStepKept(h, maxLen, s, s', t, a);
    }
  }

  lemma {:induction false} RunKeepsHealth(h: Handler, maxLen: int, run: seq<System>, i: nat)
    requires IsRun(h, maxLen, run) && i < |run| && Healthy(run[i]) && AllSized(run[i].g.past.wire)
    ensures HealthInv(h, run[i])
  {
    hide HealthInv, Healthy, Inv, Do, Initial, Grows, AllSized;
    if i > 0 {
      assert Next(h, maxLen, run[i - 1], run[i - 1 + 1]);
      var t: Tid, a: Action :| Do(h, maxLen, run[i - 1], run[i], t, a);
      StepGrows(h, maxLen, run[i - 1], run[i], t, a);
      SizedBefore(run[i - 1].g, run[i].g);
      HealthyBefore(h, maxLen, run[i - 1], run[i], t, a);
      RunKeepsHealth(h, maxLen, run, i - 1);
      RunKeepsInv(h, maxLen, run, i - 1);
      StepKept(h, maxLen, run[i - 1], run[i], t, a);
    } else {
      InitialHealth(h, run[0]);
    }
  }

  lemma SizedBefore(g: Shared, g': Shared)
    requires Grows(g, g') && AllSized(g'.past.wire)
    ensures AllSized(g.past.wire)
  {
  }

  lemma InitialHealth(h: Handler, s: System)
    requires Initial(s)
    ensures HealthInv(h, s)
  {
    InitialReplies(h, s);
  }

  /** Main result. In a run of any length with any number of callers, as long as no call has returned a network error,
      io.EOF, io.ErrUnexpectedEOF or a refused frame size, every call that has returned returned its own command's
      output, or was refused before it wrote anything. There is no mismatch and no window of identifiers. */
  lemma HealthyCallersGetTheirOwnReplies(h: Handler, maxLen: int, run: seq<System>, n: nat, t: Tid)
    requires IsRun(h, maxLen, run) && n < |run| && Healthy(run[n]) && AllSized(run[n].g.past.wire)
    requires t in run[n].threads && run[n].threads[t].Finished?
    ensures var pc := run[n].threads[t];
            if pc.result.Ok? then OwnReply(h, run[n].g, t, pc)
            else Refusal(pc.result.error) && t !in run[n].g.authors
  {
    hide IsRun, Healthy, AllSized;
    RunKeepsInv(h, maxLen, run, n);
    RunKeepsHealth(h, maxLen, run, n);
    assert CallInv(maxLen, run[n].g, t, run[n].threads[t]);
    hide LockInv, CallsInv, StreamInv, KnownWriters, PositionInv, ReadOf, IdAfter, EncodeAll, SoFar, Undisturbed;
    assert AnswerOf(h, run[n].g, t, run[n].threads[t]) && OkOrRefused(run[n].threads[t]);
  }
}
