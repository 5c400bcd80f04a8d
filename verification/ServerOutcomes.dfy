/** What becomes of a connection whose dispatch failed, and of a Shutdown that timed out (rconserver/server.go 61-112, 200-232),
    in every run of the server's step system. */
module ServerOutcomes {
  import opened Wire
  import opened ServerLifecycle

  // ----- failed dispatches -----

  /** On its way out of serveConn after job j: about to leave dispatch, closing, untracking, or gone. */
  predicate Leaving(pc: Pc, j: Job)
  {
    pc.Done? || (pc.Conn? && match pc.cv
                             case Finishing(k, _) => k == j
                             case ConnClosing => true
                             case ConnUntrackWait => true
                             case ConnUntrack => true
                             case _ => false)
  }

  /** A job under a handler has no outcome yet, and one that is leaving dispatch has the outcome it leaves with. */
  ghost predicate JobOf(g: Shared, t: Tid, pc: Pc)
  {
    pc.Conn? ==>
      (pc.cv.Handling? ==> pc.cv.job !in g.finished && pc.cv.job in g.jobOwner && g.jobOwner[pc.cv.job] == t)
      && (pc.cv.Finishing? ==> pc.cv.job in g.finished && g.finished[pc.cv.job] == pc.cv.result
                               && pc.cv.job in g.jobOwner && g.jobOwner[pc.cv.job] == t)
  }

  /** A job that did not end in a written response belongs to a thread that is leaving. */
  ghost predicate FailedOf(s: State, j: Job)
  {
    j in s.g.finished ==>
      j in s.g.jobOwner
      && (s.g.finished[j] != Written ==> s.g.jobOwner[j] in s.threads && Leaving(s.threads[s.g.jobOwner[j]], j))
  }

  ghost predicate OutcomeInv(s: State)
  {
    (forall t :: t in s.threads ==> JobOf(s.g, t, s.threads[t])) && (forall j :: j in s.g.finished ==> FailedOf(s, j))
  }

  /** What a thread's step does to jobs. */
  ghost predicate JobMove(g: Shared, g': Shared, t: Tid, pc: Pc, pc': Pc)
  {
    // nothing happens to any job
    (g'.finished == g.finished && g'.jobOwner == g.jobOwner && !Counted(pc')
     && (forall j :: Leaving(pc, j) && (Counted(pc) ==> j in g.finished && g.finished[j] != Written) ==> Leaving(pc', j)))
    // one is begun
    || (pc.Conn? && pc.cv.Dispatching? && pc'.Conn? && pc'.cv.Handling? && pc'.cv.job !in g.jobOwner
        && g'.jobOwner == g.jobOwner[pc'.cv.job := t] && g'.finished == g.finished)
    // one has its outcome
    || (pc.Conn? && pc.cv.Handling? && pc'.Conn? && pc'.cv.Finishing? && pc'.cv.job == pc.cv.job
        && g'.jobOwner == g.jobOwner && g'.finished == g.finished[pc.cv.job := pc'.cv.result])
  }

  lemma ThreadJobs(g: Shared, g': Shared, t: Tid, pc: Pc, pc': Pc, a: Action)
    requires JobOf(g, t, pc) && ThreadStep(g, g', t, pc, pc', a)
    ensures JobMove(g, g', t, pc, pc')
  {
    if a.InConn? {
      ConnJobs(g, g', t, pc, pc', a.conn);
    } else {
      OtherJobs(g, g', t, pc, pc', a);
    }
  }

  lemma ConnJobs(g: Shared, g': Shared, t: Tid, pc: Pc, pc': Pc, x: ConnAction)
    requires pc.Conn? && JobOf(g, t, pc) && ConnStep(g, g', t, pc.cn, pc.cv, pc', x)
    ensures JobMove(g, g', t, pc, pc')
  {
  }

  lemma OtherJobs(g: Shared, g': Shared, t: Tid, pc: Pc, pc': Pc, a: Action)
    requires ThreadStep(g, g', t, pc, pc', a) && !a.InConn?
    ensures JobMove(g, g', t, pc, pc')
  {
    if a.Acquire? {
      hide ConnStep, CloseStep, ShutStep, ServeStep;
      assert !Counted(pc) && !Counted(pc');
    } else {
      NoJobs(g, g', t, pc, pc', a);
      hide ThreadStep;
    }
  }

  lemma NoJobs(g: Shared, g': Shared, t: Tid, pc: Pc, pc': Pc, a: Action)
    requires ThreadStep(g, g', t, pc, pc', a) && (a.InServe? || a.InClose? || a.InShut?)
    ensures g'.finished == g.finished && g'.jobOwner == g.jobOwner && !pc.Conn? && !pc'.Conn? && !pc.Done?
  {
    hide ServeStep, CloseStep, ShutStep, ConnStep, AcquireStep;
    match a
    case InServe(x) => NoServeJobs(g, g', t, pc.ln, pc.sv, pc', x);
    case InClose(x) => NoCloseJobs(g, g', pc.cl, pc', x);
    case InShut(x) => NoShutJobs(g, g', pc.sh, pc', x);
  }

  lemma NoServeJobs(g: Shared, g': Shared, t: Tid, l: Ln, sv: ServePc, pc': Pc, x: ServeAction)
    requires ServeStep(g, g', t, l, sv, pc', x)
    ensures g'.finished == g.finished && g'.jobOwner == g.jobOwner && !pc'.Conn?
  {
  }

  lemma NoCloseJobs(g: Shared, g': Shared, cl: ClosePc, pc': Pc, x: CloseAction)
    requires CloseStep(g, g', cl, pc', x)
    ensures g'.finished == g.finished && g'.jobOwner == g.jobOwner && !pc'.Conn?
  {
  }

  lemma NoShutJobs(g: Shared, g': Shared, sh: ShutPc, pc': Pc, x: ShutAction)
    requires ShutStep(g, g', sh, pc', x)
    ensures g'.finished == g.finished && g'.jobOwner == g.jobOwner && !pc'.Conn?
  {
  }

  lemma JobsKept(s: State, s': State, t: Tid)
    requires OutcomeInv(s) && t in s.threads && Moves(s, s', t) && JobMove(s.g, s'.g, t, s.threads[t], s'.threads[t])
    ensures OutcomeInv(s')
  {
    forall u | u in s'.threads ensures JobOf(s'.g, u, s'.threads[u]) {
      assert u in s.threads && JobOf(s.g, u, s.threads[u]) && JobOf(s.g, t, s.threads[t]);
    }
    forall j | j in s'.g.finished ensures FailedOf(s', j) {
      assert j in s.g.finished ==> FailedOf(s, j);
      assert JobOf(s.g, t, s.threads[t]);
    }
  }

  lemma OutcomesKept(s: State, s': State, t: Tid, a: Action)
    requires OutcomeInv(s) && Do(s, s', t, a)
    ensures OutcomeInv(s')
  {
    match a
    case AddConn(u) =>
      hide ThreadStep;
      forall j | j in s'.g.finished ensures FailedOf(s', j) { assert FailedOf(s, j); }
      forall v | v in s'.threads ensures JobOf(s'.g, v, s'.threads[v]) { assert v in s.threads ==> JobOf(s.g, v, s.threads[v]); }
    case Spawn =>
      hide ThreadStep;
      forall j | j in s'.g.finished ensures FailedOf(s', j) { assert FailedOf(s, j); }
      forall v | v in s'.threads ensures JobOf(s'.g, v, s'.threads[v]) { assert v in s.threads ==> JobOf(s.g, v, s.threads[v]); }
    case _ =>
      assert JobOf(s.g, t, s.threads[t]);
      ThreadJobs(s.g, s'.g, t, s.threads[t], s'.threads[t], a);
      hide ThreadStep, JobMove;
      JobsKept(s, s', t);
  }

  lemma {:induction false} RunKeepsOutcomes(run: seq<State>, i: nat)
    requires IsRun(run) && i < |run|
    ensures OutcomeInv(run[i])
  {
    hide Do;
    if i > 0 {
      hide OutcomeInv, Initial;
      RunKeepsOutcomes(run, i - 1);
      assert Next(run[i - 1], run[i - 1 + 1]);
      var t: Tid, a: Action :| Do(run[i - 1], run[i], t, a);
      OutcomesKept(run[i - 1], run[i], t, a);
    }
  }

  /** How far a leaving thread is from being gone. */
  function LeavingRank(pc: Pc): (n: nat)
  {
    if !pc.Conn? then 0
    else match pc.cv
         case ConnUntrack => 1
         case ConnUntrackWait => 2
         case ConnClosing => 3
         case _ => 4
  }

  /** The dispatch of job j panicked, or failed to write its response. */
  ghost predicate FailedJob(g: Shared, j: Job) { j in g.finished && g.finished[j] != Written }

  /** Leaving is one way: other threads do not touch it, and every own step brings the thread nearer to its end. */
  lemma LeavingAdvances(s: State, s': State, u: Tid, a: Action, j: Job)
    requires OutcomeInv(s) && FailedJob(s.g, j) && Do(s, s', u, a)
    ensures j in s.g.jobOwner && j in s'.g.jobOwner && s'.g.jobOwner[j] == s.g.jobOwner[j] && FailedJob(s'.g, j)
    ensures var t := s.g.jobOwner[j];
            t in s.threads && t in s'.threads && Leaving(s.threads[t], j) && Leaving(s'.threads[t], j)
            && (u != t ==> s'.threads[t] == s.threads[t])
            && (u == t ==> LeavingRank(s'.threads[t]) < LeavingRank(s.threads[t]))
            && (forall k :: k in s'.g.jobOwner && s'.g.jobOwner[k] == t ==> k in s.g.jobOwner && s.g.jobOwner[k] == t)
  {
    assert FailedOf(s, j);
    var t := s.g.jobOwner[j];
    assert JobOf(s.g, t, s.threads[t]);
    if a.AddConn? || a.Spawn? {
      hide ThreadStep;
    } else if u == t {
      OwnLeaving(s.g, s'.g, t, s.threads[t], s'.threads[t], a, j);
      hide ThreadStep;
    } else {
      assert JobOf(s.g, u, s.threads[u]);
      ThreadJobs(s.g, s'.g, u, s.threads[u], s'.threads[u], a);
      hide ThreadStep;
    }
  }

  lemma OwnLeaving(g: Shared, g': Shared, t: Tid, pc: Pc, pc': Pc, a: Action, j: Job)
    requires JobOf(g, t, pc) && FailedJob(g, j) && Leaving(pc, j) && ThreadStep(g, g', t, pc, pc', a)
    ensures Leaving(pc', j) && LeavingRank(pc') < LeavingRank(pc) && g'.jobOwner == g.jobOwner && g'.finished == g.finished
  {
    hide ServeStep, CloseStep, ShutStep;
  }

  lemma FailedIsLeaving(s: State, j: Job)
    requires OutcomeInv(s) && FailedJob(s.g, j)
    ensures j in s.g.jobOwner && s.g.jobOwner[j] in s.threads && Leaving(s.threads[s.g.jobOwner[j]], j)
  {
    assert FailedOf(s, j);
  }

  /** Main result. In every run, once a dispatch has panicked or failed to write its response, its connection's goroutine only
      goes on to close and untrack the connection: it serves no other command, in any later state. */
  lemma {:induction false} FailedDispatchEndsItsConnection(run: seq<State>, i: nat, k: nat, j: Job)
    requires IsRun(run) && i <= k < |run| && FailedJob(run[i].g, j)
    ensures j in run[i].g.jobOwner && FailedJob(run[k].g, j) && j in run[k].g.jobOwner && run[k].g.jobOwner[j] == run[i].g.jobOwner[j]
    ensures var t := run[i].g.jobOwner[j];
            t in run[i].threads && t in run[k].threads && Leaving(run[k].threads[t], j)
            && LeavingRank(run[k].threads[t]) <= LeavingRank(run[i].threads[t])
            && (forall m :: m in run[k].g.jobOwner && run[k].g.jobOwner[m] == t ==> m in run[i].g.jobOwner)
  {
    hide Do, OutcomeInv, Initial, Leaving, LeavingRank, FailedJob;
    if i == k {
      RunKeepsOutcomes(run, i);
      FailedIsLeaving(run[i], j);
    } else {
      FailedDispatchEndsItsConnection(run, i, k - 1, j);
      RunKeepsOutcomes(run, k - 1);
      assert Next(run[k - 1], run[k - 1 + 1]);
      var u: Tid, a: Action :| Do(run[k - 1], run[k], u, a);
      LeavingAdvances(run[k - 1], run[k], u, a, j);
    }
  }

  /** And the other way round: it goes on serving exactly if the response was written. */
  lemma GoesOnIffWritten(run: seq<State>, i: nat, t: Tid)
    requires IsRun(run) && i + 1 < |run| && Do(run[i], run[i + 1], t, InConn(Exit))
    ensures t in run[i].threads && run[i].threads[t].Conn? && run[i].threads[t].cv.Finishing? && t in run[i + 1].threads
    ensures var c, j := run[i].threads[t].cn, run[i].threads[t].cv.job;
            j in run[i].g.finished
            && (run[i + 1].threads[t] == Conn(c, Serving) <==> run[i].g.finished[j] == Written)
  {
    RunKeepsOutcomes(run, i);
    hide IsRun;
    assert JobOf(run[i].g, t, run[i].threads[t]);
  }

  // ----- when it is gone -----

  /** Thread t is the goroutine of connection c, or was and is done. */
  ghost predicate GoroutineOf(s: State, t: Tid, c: Cn)
  {
    t in s.threads && c in s.g.cnOwner && s.g.cnOwner[c] == t
    && (s.threads[t].Done? || (s.threads[t].Conn? && s.threads[t].cn == c))
  }

  lemma GoroutineStep(s: State, s': State, t: Tid, c: Cn, u: Tid, a: Action)
    requires ConnInv(s) && GoroutineOf(s, t, c) && Do(s, s', u, a)
    ensures GoroutineOf(s', t, c)
  {
    if a.AddConn? {
      assert CnOf(s.threads[u]) == Some(s.threads[u].sv.cn);
      hide ThreadStep;
    } else if a.Spawn? {
      hide ThreadStep;
    } else {
      OwnersStay(s.g, s'.g, u, s.threads[u], s'.threads[u], a, c);
      if u == t {
        ConnStays(s.g, s'.g, t, s.threads[t], s'.threads[t], a);
      }
      hide ThreadStep;
    }
  }

  lemma OwnersStay(g: Shared, g': Shared, u: Tid, pc: Pc, pc': Pc, a: Action, c: Cn)
    requires ThreadStep(g, g', u, pc, pc', a) && c in g.cnOwner
    ensures c in g'.cnOwner && g'.cnOwner[c] == g.cnOwner[c]
  {
    match a
    case InServe(x) => hide ConnStep, CloseStep, ShutStep, AcquireStep;
    case InConn(x) => hide ServeStep, CloseStep, ShutStep, AcquireStep;
    case InClose(x) => hide ConnStep, ServeStep, ShutStep, AcquireStep;
    case InShut(x) => hide ConnStep, CloseStep, ServeStep, AcquireStep;
    case Acquire => hide ConnStep, CloseStep, ShutStep, ServeStep;
  }

  lemma ConnStays(g: Shared, g': Shared, t: Tid, pc: Pc, pc': Pc, a: Action)
    requires ThreadStep(g, g', t, pc, pc', a) && (pc.Done? || pc.Conn?)
    ensures pc.Conn? && (pc'.Done? || (pc'.Conn? && pc'.cn == pc.cn))
  {
    hide ServeStep, CloseStep, ShutStep;
  }

  lemma OwnGoroutine(s: State, t: Tid, c: Cn)
    requires ConnInv(s) && t in s.threads && s.threads[t].Conn? && s.threads[t].cn == c
    ensures GoroutineOf(s, t, c)
  {
    assert CnOf(s.threads[t]) == Some(c);
  }

  lemma {:induction false} GoroutineStays(run: seq<State>, i: nat, k: nat, t: Tid, c: Cn)
    requires IsRun(run) && i <= k < |run| && t in run[i].threads && run[i].threads[t].Conn? && run[i].threads[t].cn == c
    ensures GoroutineOf(run[k], t, c)
  {
    hide Do, Initial, GoroutineOf, LockInv, ListenerInv, SealInv, ContextInv, CounterInv, ConnInv;
    if i == k {
      RunKeepsInv(run, i);
      OwnGoroutine(run[i], t, c);
    } else {
      GoroutineStays(run, i, k - 1, t, c);
      RunKeepsInv(run, k - 1);
      assert Next(run[k - 1], run[k - 1 + 1]);
      var u: Tid, a: Action :| Do(run[k - 1], run[k], u, a);
      GoroutineStep(run[k - 1], run[k], t, c, u, a);
    }
  }

  /** In every run, a connection whose goroutine is done is closed and untracked. */
  lemma DoneMeansClosed(run: seq<State>, i: nat, k: nat, t: Tid, c: Cn)
    requires IsRun(run) && i <= k < |run| && t in run[i].threads && run[i].threads[t].Conn? && run[i].threads[t].cn == c
    requires t in run[k].threads && run[k].threads[t].Done?
    ensures c !in run[k].g.openConns && c !in run[k].g.conns
  {
    GoroutineStays(run, i, k, t, c);
    RunKeepsInv(run, k);
    hide IsRun, LockInv, ListenerInv, SealInv, ContextInv, CounterInv;
  }

  // ----- Shutdown's result -----

  /** A Shutdown that will return, or has returned, the error of its context. */
  predicate TimedOut(pc: Pc) { pc.Shut? && (pc.sh.ShutConnWait? || pc.sh.ShutConns? || pc.sh.ShutDone?) && !pc.sh.ok }

  lemma TimeoutStep(s: State, s': State, t: Tid, u: Tid, a: Action)
    requires Do(s, s', u, a) && t in s'.threads && TimedOut(s'.threads[t])
    ensures (t in s.threads && TimedOut(s.threads[t])) || (u == t && a == InShut(Timeout))
  {
    if u == t && t in s.threads && !a.AddConn? && !a.Spawn? {
      OwnTimeout(s.g, s'.g, t, s.threads[t], s'.threads[t], a);
    }
    hide ThreadStep;
  }

  lemma OwnTimeout(g: Shared, g': Shared, t: Tid, pc: Pc, pc': Pc, a: Action)
    requires ThreadStep(g, g', t, pc, pc', a) && TimedOut(pc')
    ensures TimedOut(pc) || a == InShut(Timeout)
  {
    match a
    case InServe(x) => hide ConnStep, CloseStep, ShutStep, AcquireStep;
    case InConn(x) => hide ServeStep, CloseStep, ShutStep, AcquireStep;
    case InClose(x) => hide ConnStep, ServeStep, ShutStep, AcquireStep;
    case InShut(x) => hide ConnStep, CloseStep, ServeStep, AcquireStep;
    case Acquire => hide ConnStep, CloseStep, ShutStep, ServeStep;
  }

  /** In every run a Shutdown returns an error only if its context ended before its wait did. */
  lemma {:induction false} ErrorMeansTimeout(run: seq<State>, k: nat, t: Tid) returns (i: nat)
    requires IsRun(run) && k < |run| && t in run[k].threads && TimedOut(run[k].threads[t])
    ensures i < k && Do(run[i], run[i + 1], t, InShut(Timeout))
  {
    hide Do, TimedOut;
    i := 0;
    if k > 0 {
      assert Next(run[k - 1], run[k - 1 + 1]);
      var u: Tid, a: Action :| Do(run[k - 1], run[k], u, a);
      TimeoutStep(run[k - 1], run[k], t, u, a);
      if t in run[k - 1].threads && TimedOut(run[k - 1].threads[t]) {
        i := ErrorMeansTimeout(run, k - 1, t);
      } else {
        i := k - 1;
      }
    }
  }

  // ----- a Serve call that was refused -----

  /** On its way out of Serve. */
  predicate ServeLeaving(pc: Pc) { pc.Done? || (pc.Serve? && (pc.sv.UntrackWait? || pc.sv.Untrack? || pc.sv.CloseLn?)) }

  function ServeRank(pc: Pc): (n: nat)
  {
    if !pc.Serve? then 0 else if pc.sv.UntrackWait? then 3 else if pc.sv.Untrack? then 2 else 1
  }

  /** A refused listener or connection, or an error of Accept, ends the call. */
  predicate EndsServe(a: Action) { a == InServe(RefuseListener) || a == InServe(RefuseConn) || a == InServe(AcceptError) }

  lemma ServeLeavingStep(s: State, s': State, t: Tid, u: Tid, a: Action)
    requires Do(s, s', u, a) && t in s.threads && ServeLeaving(s.threads[t])
    ensures t in s'.threads && ServeLeaving(s'.threads[t])
    ensures u != t ==> s'.threads[t] == s.threads[t]
    ensures u == t ==> ServeRank(s'.threads[t]) < ServeRank(s.threads[t])
  {
    if u == t && !a.AddConn? && !a.Spawn? {
      OwnServeLeaving(s.g, s'.g, t, s.threads[t], s'.threads[t], a);
    }
    hide ThreadStep;
  }

  lemma OwnServeLeaving(g: Shared, g': Shared, t: Tid, pc: Pc, pc': Pc, a: Action)
    requires ThreadStep(g, g', t, pc, pc', a) && ServeLeaving(pc)
    ensures ServeLeaving(pc') && ServeRank(pc') < ServeRank(pc)
  {
    hide ConnStep, CloseStep, ShutStep;
  }

  lemma EndStep(s: State, s': State, t: Tid, a: Action)
    requires Do(s, s', t, a) && EndsServe(a)
    ensures t in s'.threads && ServeLeaving(s'.threads[t])
  {
    hide ConnStep, CloseStep, ShutStep;
  }

  /** In every run, a Serve call that was refused or whose Accept failed accepts no more connections: it only goes on to untrack
      and close its listener, each own step bringing it nearer, see ServeLeavingStep. */
  lemma {:induction false} RefusedServeReturns(run: seq<State>, i: nat, k: nat, t: Tid, a: Action)
    requires IsRun(run) && i < k < |run| && Do(run[i], run[i + 1], t, a) && EndsServe(a)
    ensures t in run[k].threads && ServeLeaving(run[k].threads[t])
  {
    hide Do, Initial, ServeLeaving;
    if k == i + 1 {
      EndStep(run[i], run[k], t, a);
    } else {
      RefusedServeReturns(run, i, k - 1, t, a);
      assert Next(run[k - 1], run[k - 1 + 1]);
      var u: Tid, b: Action :| Do(run[k - 1], run[k], u, b);
      ServeLeavingStep(run[k - 1], run[k], t, u, b);
    }
  }

  // ----- no connection after a stop -----

  lemma SealedAcceptsNone(s: State, s': State, t: Tid, a: Action)
    requires Inv(s) && Sealed(s) && Do(s, s', t, a)
    ensures s'.g.openConns <= s.g.openConns
  {
    SealedMeansClosed(s);
    if a.AddConn? || a.Spawn? {
      hide ThreadStep;
    } else {
      assert ListenerInv(s);
      hide LockInv, ConnInv, SealInv, ContextInv, CounterInv;
      OwnOpens(s.g, s'.g, t, s.threads[t], s'.threads[t], a);
      hide ThreadStep;
    }
  }

  lemma OwnOpens(g: Shared, g': Shared, t: Tid, pc: Pc, pc': Pc, a: Action)
    requires ThreadStep(g, g', t, pc, pc', a)
    ensures g'.openConns <= g.openConns || (pc.Serve? && LnTracked(pc) && pc.ln in g.openLns)
  {
    match a
    case InServe(x) => hide ConnStep, CloseStep, ShutStep, AcquireStep;
    case InConn(x) => hide ServeStep, CloseStep, ShutStep, AcquireStep;
    case InClose(x) => hide ConnStep, ServeStep, ShutStep, AcquireStep;
    case InShut(x) => hide ConnStep, CloseStep, ServeStep, AcquireStep;
    case Acquire => hide ConnStep, CloseStep, ShutStep, ServeStep;
  }

  /** In every run, once a Close or Shutdown has finished no connection is ever accepted again: those open later were open then. */
  lemma {:induction false} NoConnectionAfterStop(run: seq<State>, i: nat, j: nat, t: Tid)
    requires IsRun(run) && i <= j < |run| && t in run[i].threads && Stopped(run[i].threads[t])
    ensures run[j].g.openConns <= run[i].g.openConns
  {
    hide Do, Initial, Inv, Sealed, Stopped;
    RunKeepsInv(run, i);
    StoppedIsSealed(run[i], t);
    if i < j {
      NoConnectionAfterStop(run, i, j - 1, t);
      SealedForever(run, i, j - 1);
      RunKeepsInv(run, j - 1);
      assert Next(run[j - 1], run[j - 1 + 1]);
      var u: Tid, a: Action :| Do(run[j - 1], run[j], u, a);
      SealedAcceptsNone(run[j - 1], run[j], u, a);
    }
  }

  // ----- the context a handler runs with -----

  predicate RunsWith(pc: Pc, ctx: Option<Ctx>) { pc.Conn? && (pc.cv.Dispatching? || pc.cv.Handling?) && pc.cv.ctx == ctx }

  /** Every handler runs with a context that was handed out. */
  ghost predicate HandedInv(s: State)
  {
    forall t :: t in s.threads && s.threads[t].Conn? && (s.threads[t].cv.Dispatching? || s.threads[t].cv.Handling?) ==>
      s.threads[t].cv.ctx in s.g.handed
  }

  lemma HandedStep(s: State, s': State, t: Tid, a: Action)
    requires HandedInv(s) && Do(s, s', t, a)
    ensures HandedInv(s')
  {
    if !a.AddConn? && !a.Spawn? {
      OwnHanded(s.g, s'.g, t, s.threads[t], s'.threads[t], a);
    }
    hide ThreadStep;
  }

  lemma OwnHanded(g: Shared, g': Shared, t: Tid, pc: Pc, pc': Pc, a: Action)
    requires ThreadStep(g, g', t, pc, pc', a)
    ensures g.handed <= g'.handed
    ensures pc'.Conn? && (pc'.cv.Dispatching? || pc'.cv.Handling?) ==> pc'.cv.ctx in g'.handed || RunsWith(pc, pc'.cv.ctx)
  {
    match a
    case InServe(x) => hide ConnStep, CloseStep, ShutStep, AcquireStep;
    case InConn(x) => hide ServeStep, CloseStep, ShutStep, AcquireStep;
    case InClose(x) => hide ConnStep, ServeStep, ShutStep, AcquireStep;
    case InShut(x) => hide ConnStep, CloseStep, ServeStep, AcquireStep;
    case Acquire => hide ConnStep, CloseStep, ShutStep, ServeStep;
  }

  lemma {:induction false} RunKeepsHanded(run: seq<State>, i: nat)
    requires IsRun(run) && i < |run|
    ensures HandedInv(run[i])
  {
    hide Do;
    if i > 0 {
      hide HandedInv, Initial;
      RunKeepsHanded(run, i - 1);
      assert Next(run[i - 1], run[i - 1 + 1]);
      var t: Tid, a: Action :| Do(run[i - 1], run[i], t, a);
      HandedStep(run[i - 1], run[i], t, a);
    }
  }

  /** In every run, once a Close or Shutdown has passed its cancel step, every handler that runs, then or later, runs with a
      cancelled context. */
  lemma HandlersSeeCancellation(run: seq<State>, i: nat, k: nat, t: Tid, ctx: Option<Ctx>)
    requires IsRun(run) && i <= k < |run| && CancelCalled in run[i].g.passed
    requires t in run[k].threads && RunsWith(run[k].threads[t], ctx)
    ensures ctx.Some? && ctx.value in run[k].g.cancelled
  {
    RunKeepsHanded(run, k);
    HandedContextsAreCancelled(run, i, k, ctx);
  }
}
