/** The lifecycle of a Server (rconserver/server.go) as a step system: any number of Serve, connection, Close
    and Shutdown threads interleave. A step is one atomic load or store, one acquisition of mu, one action
    under mu, or one effect on a listener or connection. */
module ServerLifecycle {
  import opened Wire

  type Tid = nat
  type Ln = nat
  type Cn = nat
  type Ctx = nat
  type Job = nat

  datatype JobResult = Written | WriteFailed | Panicked

  /** Where a Serve call is: initialise, track the listener, accept and track connections, untrack, close. */
  datatype ServePc =
    | InitWait | Init
    | TrackWait | TrackLoad | TrackAdd | RefusedLn
    | Accepting
    | ConnWait(cn: Cn) | ConnLoad(cn: Cn) | ConnAdd(cn: Cn) | RefusedConn(cn: Cn)
    | UntrackWait | Untrack | CloseLn

  /** Where a connection's goroutine is: serveConn with dispatch, then untrack. */
  datatype ConnPc =
    | Serving | Dispatching(ctx: Option<Ctx>) | Handling(ctx: Option<Ctx>, job: Job) | Finishing(job: Job, result: JobResult)
    | ConnClosing | ConnUntrackWait | ConnUntrack

  datatype ClosePc = CloseStore | CloseWait | CloseCancel | CloseClosing | CloseDone

  /** Where a Shutdown call is. `before` are the dispatches counted when its wait begins, `ok` that it will
      return nil. */
  datatype ShutPc =
    | ShutStore | ShutWait | ShutListeners | ShutCancel | ShutStartWait
    | ShutWaiting(before: set<Job>, done: bool)
    | ShutConnWait(before: set<Job>, ok: bool) | ShutConns(before: set<Job>, ok: bool)
    | ShutDone(before: set<Job>, ok: bool)

  datatype Pc = Serve(ln: Ln, sv: ServePc) | Conn(cn: Cn, cv: ConnPc) | Close(cl: ClosePc) | Shut(sh: ShutPc) | Done

  /** What some Close or Shutdown has done for good: set the flag inShutdown, closed every tracked listener,
      closed every tracked connection, called cancel. Only the first is program state, the others are history. */
  datatype Milestone = InShutdown | ListenersClosed | ConnsClosed | CancelCalled

  /** Everything the threads share. */
  datatype Shared = Shared(
    mu: Option<Tid>,
    conns: set<Cn>, listeners: set<Ln>,                // tracked
    openConns: set<Cn>, openLns: set<Ln>,              // not closed
    doneCtx: Option<Ctx>, cancelled: set<Ctx>,
    counter: int,                                      // handlerWG
    // history: who created what, what was handed out, what has been passed
    lnOwner: map<Ln, Tid>, cnOwner: map<Cn, Tid>, jobOwner: map<Job, Tid>,
    handed: set<Option<Ctx>>, finished: map<Job, JobResult>,
    passed: set<Milestone>)

  datatype State = State(g: Shared, threads: map<Tid, Pc>)

  ghost predicate Initial(s: State)
  {
    s == State(Shared(None, {}, {}, {}, {}, None, {}, 0, map[], map[], map[], {}, map[], {}), map[])
  }

  datatype ServeAction =
    | DoInit(ctx: Ctx)
    | TrackAllowed | TrackRefused | AddListener | RefuseListener
    | Accept(cn: Cn) | AcceptError
    | ConnAllowed | ConnRefused | RefuseConn
    | RemoveListener | CloseListener

  datatype ConnAction =
    | Request | Enter(job: Job) | Outcome(result: JobResult) | Exit | HangUp | CloseConn | RemoveConn

  datatype CloseAction = CloseStores | CloseCancels | CloseListenerNow(ln: Ln) | CloseConnNow(cn: Cn) | CloseFinishes

  datatype ShutAction =
    | ShutStores | ShutListenerNow(ln: Ln) | FinishListeners | ShutCancels
    | StartWait | WaitReturns | Proceed | Timeout | ShutConnNow(cn: Cn) | FinishConns

  datatype Action =
    | Spawn | Acquire | AddConn(child: Tid)
    | InServe(serve: ServeAction) | InConn(conn: ConnAction) | InClose(close: CloseAction) | InShut(shut: ShutAction)

  /** The program counter after mu is acquired, for the threads that wait for it. */
  function Acquired(pc: Pc): (r: Option<Pc>)
  {
    match pc
    case Serve(l, InitWait) => Some(Serve(l, Init))
    case Serve(l, TrackWait) => Some(Serve(l, TrackLoad))
    case Serve(l, ConnWait(c)) => Some(Serve(l, ConnLoad(c)))
    case Serve(l, UntrackWait) => Some(Serve(l, Untrack))
    case Conn(c, ConnUntrackWait) => Some(Conn(c, ConnUntrack))
    case Close(CloseWait) => Some(Close(CloseCancel))
    case Shut(ShutWait) => Some(Shut(ShutListeners))
    case Shut(ShutConnWait(b, ok)) => Some(Shut(ShutConns(b, ok)))
    case _ => None
  }

  predicate HoldsMu(pc: Pc)
  {
    match pc
    case Serve(_, sv) => sv.Init? || sv.TrackLoad? || sv.TrackAdd? || sv.ConnLoad? || sv.ConnAdd? || sv.Untrack?
    case Conn(_, cv) => cv.ConnUntrack?
    case Close(cl) => cl.CloseCancel? || cl.CloseClosing?
    case Shut(sh) => sh.ShutListeners? || sh.ShutConns?
    case Done => false
  }

  /** Calling s.cancel if it is set. */
  function Cancelling(g: Shared): (c: set<Ctx>)
  {
    if g.doneCtx.Some? then g.cancelled + {g.doneCtx.value} else g.cancelled
  }

  ghost predicate ServeStep(g: Shared, g': Shared, t: Tid, l: Ln, sv: ServePc, pc': Pc, a: ServeAction)
  {
    match a
    case DoInit(ctx) =>
      sv.Init? && ctx !in g.cancelled && pc' == Serve(l, TrackWait)
      && g' == g.(mu := None, doneCtx := if g.doneCtx.None? then Some(ctx) else g.doneCtx)
    case TrackAllowed =>
      sv.TrackLoad? && InShutdown !in g.passed && pc' == Serve(l, TrackAdd) && g' == g
    case TrackRefused =>
      sv.TrackLoad? && InShutdown in g.passed && pc' == Serve(l, RefusedLn) && g' == g.(mu := None)
    case AddListener =>
      sv.TrackAdd? && pc' == Serve(l, Accepting) && g' == g.(mu := None, listeners := g.listeners + {l})
    case RefuseListener =>
      sv.RefusedLn? && pc' == Done && g' == g.(openLns := g.openLns - {l})
    case Accept(c) =>
      sv.Accepting? && l in g.openLns && c !in g.cnOwner && pc' == Serve(l, ConnWait(c))
      && g' == g.(openConns := g.openConns + {c}, cnOwner := g.cnOwner[c := t])
    case AcceptError =>
      sv.Accepting? && pc' == Serve(l, UntrackWait) && g' == g
    case ConnAllowed =>
      sv.ConnLoad? && InShutdown !in g.passed && pc' == Serve(l, ConnAdd(sv.cn)) && g' == g
    case ConnRefused =>
      sv.ConnLoad? && InShutdown in g.passed && pc' == Serve(l, RefusedConn(sv.cn)) && g' == g.(mu := None)
    case RefuseConn =>
      sv.RefusedConn? && pc' == Serve(l, UntrackWait) && g' == g.(openConns := g.openConns - {sv.cn})
    case RemoveListener =>
      sv.Untrack? && pc' == Serve(l, CloseLn) && g' == g.(mu := None, listeners := g.listeners - {l})
    case CloseListener =>
      sv.CloseLn? && pc' == Done && g' == g.(openLns := g.openLns - {l})
  }

  ghost predicate ConnStep(g: Shared, g': Shared, t: Tid, c: Cn, cv: ConnPc, pc': Pc, a: ConnAction)
  {
    match a
    case Request =>
      cv.Serving? && pc' == Conn(c, Dispatching(g.doneCtx)) && g' == g.(handed := g.handed + {g.doneCtx})
    case Enter(j) =>
      cv.Dispatching? && j !in g.jobOwner && pc' == Conn(c, Handling(cv.ctx, j))
      && g' == g.(counter := g.counter + 1, jobOwner := g.jobOwner[j := t])
    case Outcome(r) =>
      cv.Handling? && pc' == Conn(c, Finishing(cv.job, r)) && g' == g.(finished := g.finished[cv.job := r])
    case Exit =>
      cv.Finishing? && pc' == Conn(c, if cv.result.Written? then Serving else ConnClosing)
      && g' == g.(counter := g.counter - 1)
    case HangUp =>
      cv.Serving? && pc' == Conn(c, ConnClosing) && g' == g
    case CloseConn =>
      cv.ConnClosing? && pc' == Conn(c, ConnUntrackWait) && g' == g.(openConns := g.openConns - {c})
    case RemoveConn =>
      cv.ConnUntrack? && pc' == Done && g' == g.(mu := None, conns := g.conns - {c})
  }

  ghost predicate CloseStep(g: Shared, g': Shared, cl: ClosePc, pc': Pc, a: CloseAction)
  {
    match a
    case CloseStores =>
      cl.CloseStore? && pc' == Close(CloseWait) && g' == g.(passed := g.passed + {InShutdown})
    case CloseCancels =>
      cl.CloseCancel? && pc' == Close(CloseClosing)
      && g' == g.(cancelled := Cancelling(g), passed := g.passed + {CancelCalled})
    case CloseListenerNow(l) =>
      cl.CloseClosing? && l in g.listeners && pc' == Close(cl) && g' == g.(openLns := g.openLns - {l})
    case CloseConnNow(c) =>
      cl.CloseClosing? && c in g.conns && pc' == Close(cl) && g' == g.(openConns := g.openConns - {c})
    case CloseFinishes =>
      cl.CloseClosing? && g.listeners !! g.openLns && g.conns !! g.openConns && pc' == Close(CloseDone)
      && g' == g.(mu := None, passed := g.passed + {ListenersClosed, ConnsClosed})
  }

  ghost predicate ShutStep(g: Shared, g': Shared, sh: ShutPc, pc': Pc, a: ShutAction)
  {
    match a
    case ShutStores =>
      sh.ShutStore? && pc' == Shut(ShutWait) && g' == g.(passed := g.passed + {InShutdown})
    case ShutListenerNow(l) =>
      sh.ShutListeners? && l in g.listeners && pc' == Shut(sh) && g' == g.(openLns := g.openLns - {l})
    case FinishListeners =>
      sh.ShutListeners? && g.listeners !! g.openLns && pc' == Shut(ShutCancel)
      && g' == g.(mu := None, passed := g.passed + {ListenersClosed})
    case ShutCancels =>
      sh.ShutCancel? && pc' == Shut(ShutStartWait)
      && g' == g.(cancelled := Cancelling(g), passed := g.passed + {CancelCalled})
    case StartWait =>
      sh.ShutStartWait? && pc' == Shut(ShutWaiting(g.jobOwner.Keys, false)) && g' == g
    case WaitReturns =>
      sh.ShutWaiting? && g.counter == 0 && pc' == Shut(ShutWaiting(sh.before, true)) && g' == g
    case Proceed =>
      sh.ShutWaiting? && sh.done && pc' == Shut(ShutConnWait(sh.before, true)) && g' == g
    case Timeout =>
      sh.ShutWaiting? && pc' == Shut(ShutConnWait(sh.before, false)) && g' == g
    case ShutConnNow(c) =>
      sh.ShutConns? && c in g.conns && pc' == Shut(sh) && g' == g.(openConns := g.openConns - {c})
    case FinishConns =>
      sh.ShutConns? && g.conns !! g.openConns && pc' == Shut(ShutDone(sh.before, sh.ok))
      && g' == g.(mu := None, passed := g.passed + {ConnsClosed})
  }

  /** A thread that waits for mu takes it. */
  ghost predicate AcquireStep(g: Shared, g': Shared, t: Tid, pc: Pc, pc': Pc)
  {
    g.mu.None? && Acquired(pc) == Some(pc') && g' == g.(mu := Some(t))
  }

  /** A call of Serve with a new listener, of Close or of Shutdown begins. */
  ghost predicate SpawnStep(g: Shared, g': Shared, t: Tid, pc': Pc)
  {
    match pc'
    case Serve(l, InitWait) =>
      l !in g.lnOwner && g' == g.(openLns := g.openLns + {l}, lnOwner := g.lnOwner[l := t])
    case Close(CloseStore) => g' == g
    case Shut(ShutStore) => g' == g
    case _ => false
  }

  /** Serve tracks a connection and hands it to a new goroutine u. */
  ghost predicate AddConnStep(s: State, s': State, t: Tid, u: Tid)
  {
    t in s.threads && u !in s.threads && AddingCn(s.threads[t])
    && var l, c := s.threads[t].ln, s.threads[t].sv.cn;
       s'.threads == s.threads[t := Serve(l, Accepting)][u := Conn(c, Serving)]
       && s'.g == s.g.(mu := None, conns := s.g.conns + {c}, cnOwner := s.g.cnOwner[c := u])
  }

  /** One thread moves, and with it what is shared. */
  ghost predicate Moves(s: State, s': State, t: Tid) { t in s'.threads && s'.threads == s.threads[t := s'.threads[t]] }

  /** The step of a running thread from pc to pc'. */
  ghost predicate ThreadStep(g: Shared, g': Shared, t: Tid, pc: Pc, pc': Pc, a: Action)
  {
    match a
    case InServe(x) => pc.Serve? && ServeStep(g, g', t, pc.ln, pc.sv, pc', x)
    case InConn(x) => pc.Conn? && ConnStep(g, g', t, pc.cn, pc.cv, pc', x)
    case InClose(x) => pc.Close? && CloseStep(g, g', pc.cl, pc', x)
    case InShut(x) => pc.Shut? && ShutStep(g, g', pc.sh, pc', x)
    case Acquire => AcquireStep(g, g', t, pc, pc')
    case _ => false
  }

  /** Thread t takes step a. */
  ghost predicate Do(s: State, s': State, t: Tid, a: Action)
  {
    match a
    case AddConn(u) => AddConnStep(s, s', t, u)
    case Spawn => t !in s.threads && Moves(s, s', t) && SpawnStep(s.g, s'.g, t, s'.threads[t])
    case _ => t in s.threads && Moves(s, s', t) && ThreadStep(s.g, s'.g, t, s.threads[t], s'.threads[t], a)
  }

  ghost predicate Next(s: State, s': State) { exists t: Tid, a: Action :: Do(s, s', t, a) }

  /** A finite run, from a server nobody has used yet. */
  ghost predicate IsRun(run: seq<State>)
  {
    |run| > 0 && Initial(run[0]) && forall i :: 0 <= i < |run| - 1 ==> Next(run[i], run[i + 1])
  }

  // ----- where a thread is -----

  /** A Serve call whose listener is tracked. The others still have to offer theirs, or are about to close it. */
  predicate LnTracked(pc: Pc)
  {
    pc.Serve? && (pc.sv.Accepting? || Pending(pc.sv) || pc.sv.UntrackWait? || pc.sv.Untrack?)
  }

  /** A Serve call holds an accepted connection that is not tracked. */
  predicate Pending(sv: ServePc) { sv.ConnWait? || sv.ConnLoad? || sv.ConnAdd? || sv.RefusedConn? }

  /** The connection a thread is responsible for. */
  function CnOf(pc: Pc): (c: Option<Cn>)
  {
    match pc
    case Serve(_, sv) => if Pending(sv) then Some(sv.cn) else None
    case Conn(c, _) => Some(c)
    case _ => None
  }

  predicate Counted(pc: Pc) { pc.Conn? && (pc.cv.Handling? || pc.cv.Finishing?) }

  predicate PastStore(pc: Pc) { (pc.Close? && !pc.cl.CloseStore?) || (pc.Shut? && !pc.sh.ShutStore?) }

  /** A Shutdown call past its first section. */
  predicate PastListeners(pc: Pc) { pc.Shut? && !pc.sh.ShutStore? && !pc.sh.ShutWait? && !pc.sh.ShutListeners? }

  predicate Stopped(pc: Pc) { (pc.Close? && pc.cl.CloseDone?) || (pc.Shut? && pc.sh.ShutDone?) }

  /** A Serve call past initialisation, or a connection's goroutine. */
  predicate Initialised(pc: Pc) { (pc.Serve? && !pc.sv.InitWait? && !pc.sv.Init?) || pc.Conn? }

  /** A Serve call that was not refused, or is about not to be, or a connection's goroutine. */
  predicate Admitted(pc: Pc) { (pc.Serve? && (pc.sv.TrackAdd? || pc.sv.CloseLn?)) || LnTracked(pc) || pc.Conn? }

  predicate HasBefore(pc: Pc)
  {
    pc.Shut? && (pc.sh.ShutWaiting? || pc.sh.ShutConnWait? || pc.sh.ShutConns? || pc.sh.ShutDone?)
  }

  /** A Shutdown call whose wait returned and that will return nil. */
  predicate Waited(pc: Pc)
    requires HasBefore(pc)
  {
    if pc.sh.ShutWaiting? then pc.sh.done else pc.sh.ok
  }

  // ----- invariants -----

  /** Exactly the thread inside a section under mu holds mu. */
  ghost predicate LockInv(s: State)
  {
    (forall t :: t in s.threads && HoldsMu(s.threads[t]) ==> s.g.mu == Some(t))
    && (s.g.mu.Some? ==> s.g.mu.value in s.threads && HoldsMu(s.threads[s.g.mu.value]))
  }

  /** Listeners: each belongs to one Serve call, which either has it tracked or will close it. */
  ghost predicate ListenerInv(s: State)
  {
    (forall t :: t in s.threads && s.threads[t].Serve? ==>
       s.threads[t].ln in s.g.lnOwner && s.g.lnOwner[s.threads[t].ln] == t
       && (s.threads[t].ln in s.g.listeners <==> LnTracked(s.threads[t])))
    && (forall l :: l in s.g.listeners || l in s.g.openLns ==> l in s.g.lnOwner && OwnsListener(s, s.g.lnOwner[l], l))
  }

  ghost predicate OwnsListener(s: State, t: Tid, l: Ln) { t in s.threads && s.threads[t].Serve? && s.threads[t].ln == l }

  /** Connections: each belongs to the Serve call that accepted it or to the goroutine that serves it; it is
      tracked from the moment it is served until after it is closed. */
  ghost predicate ConnInv(s: State)
  {
    (forall t :: t in s.threads && CnOf(s.threads[t]).Some? ==>
       var c := CnOf(s.threads[t]).value;
       c in s.g.cnOwner && s.g.cnOwner[c] == t && (c in s.g.conns <==> s.threads[t].Conn?)
       && (Closing(s.threads[t]) ==> c !in s.g.openConns))
    && (forall c :: c in s.g.conns || c in s.g.openConns ==> c in s.g.cnOwner && OwnsConn(s, s.g.cnOwner[c], c))
  }

  predicate Closing(pc: Pc) { pc.Conn? && (pc.cv.ConnUntrackWait? || pc.cv.ConnUntrack?) }

  ghost predicate OwnsConn(s: State, t: Tid, c: Cn) { t in s.threads && CnOf(s.threads[t]) == Some(c) }

  predicate AddingLn(pc: Pc) { pc.Serve? && pc.sv.TrackAdd? }

  predicate AddingCn(pc: Pc) { pc.Serve? && pc.sv.ConnAdd? }

  /** Once a closing section is over, what is tracked is closed and nothing is on its way to being tracked. */
  ghost predicate SealInv(s: State)
  {
    (forall t :: t in s.threads && PastStore(s.threads[t]) ==> InShutdown in s.g.passed)
    && (ListenersClosed in s.g.passed ==> InShutdown in s.g.passed && s.g.listeners !! s.g.openLns && forall t :: t in s.threads ==> !AddingLn(s.threads[t]))
    && (ConnsClosed in s.g.passed ==> InShutdown in s.g.passed && s.g.conns !! s.g.openConns && forall t :: t in s.threads ==> !AddingCn(s.threads[t]))
    && (forall t :: t in s.threads && Stopped(s.threads[t]) ==> ListenersClosed in s.g.passed && ConnsClosed in s.g.passed)
    && (forall t :: t in s.threads && PastListeners(s.threads[t]) ==> ListenersClosed in s.g.passed)
  }

  ghost predicate NoneAdmitted(s: State) { forall t :: t in s.threads ==> !Admitted(s.threads[t]) }

  ghost predicate ContextCancelled(s: State) { s.g.doneCtx.Some? && s.g.doneCtx.value in s.g.cancelled }

  /** There is one context; a cancel step either cancelled it or ran before anything could be served. */
  ghost predicate ContextInv(s: State)
  {
    (forall x :: x in s.g.handed ==> x == s.g.doneCtx && x.Some?)
    && (forall t :: t in s.threads && Initialised(s.threads[t]) ==> s.g.doneCtx.Some?)
    && (CancelCalled in s.g.passed ==> InShutdown in s.g.passed && (ContextCancelled(s) || (s.g.handed == {} && NoneAdmitted(s))))
  }

  ghost function CountedThreads(s: State): (ts: set<Tid>) { set t | t in s.threads && Counted(s.threads[t]) }

  /** The counter is the number of dispatches in flight; every dispatch ever counted is in flight or finished;
      a Shutdown whose wait returned found every earlier dispatch finished. */
  ghost predicate CounterInv(s: State)
  {
    s.g.counter == |CountedThreads(s)|
    && (forall t :: t in s.threads && Counted(s.threads[t]) ==>
          s.threads[t].cv.job in s.g.jobOwner && s.g.jobOwner[s.threads[t].cv.job] == t)
    && (forall j :: j in s.g.jobOwner ==> j in s.g.finished || InFlight(s, s.g.jobOwner[j], j))
    && (forall t :: t in s.threads && HasBefore(s.threads[t]) ==>
          s.threads[t].sh.before <= s.g.jobOwner.Keys
          && (Waited(s.threads[t]) ==> s.threads[t].sh.before <= s.g.finished.Keys))
  }

  ghost predicate InFlight(s: State, t: Tid, j: Job)
  {
    t in s.threads && Counted(s.threads[t]) && s.threads[t].cv.Handling? && s.threads[t].cv.job == j
  }

  ghost predicate Inv(s: State)
  {
    LockInv(s) && ListenerInv(s) && ConnInv(s) && SealInv(s) && ContextInv(s) && CounterInv(s)
  }

  // ----- every step keeps the invariants -----
  //
  // All steps but AddConn move one thread from one program counter to another. For each invariant a predicate
  // without quantifiers says how such a move may change the fields the invariant is about; every step makes
  // such a move, and every such move keeps the invariant.

  /** The program counter of a thread; one that has not started has none of the roles above, like Done. */
  function PcOf(s: State, t: Tid): (pc: Pc) { if t in s.threads then s.threads[t] else Done }

  ghost predicate LockMove(g: Shared, g': Shared, t: Tid, pc: Pc, pc': Pc)
  {
    g'.mu == (if HoldsMu(pc') then Some(t) else if HoldsMu(pc) then None else g.mu)
    && (HoldsMu(pc') && !HoldsMu(pc) ==> g.mu.None?)
  }

  ghost predicate ListenerMove(g: Shared, g': Shared, t: Tid, pc: Pc, pc': Pc)
  {
    // nothing changes hands
    (pc'.Serve? == pc.Serve? && (pc.Serve? ==> pc'.ln == pc.ln && LnTracked(pc') == LnTracked(pc))
     && g'.listeners == g.listeners && g'.lnOwner == g.lnOwner && g'.openLns <= g.openLns)
    // a Serve starts with a new listener
    || (!pc.Serve? && pc'.Serve? && !LnTracked(pc') && pc'.ln !in g.lnOwner && g'.lnOwner == g.lnOwner[pc'.ln := t]
        && g'.openLns == g.openLns + {pc'.ln} && g'.listeners == g.listeners)
    // it is tracked, or untracked, or closed for good
    || (AddingLn(pc) && LnTracked(pc') && pc'.ln == pc.ln && g'.lnOwner == g.lnOwner
        && g'.openLns == g.openLns && g'.listeners == g.listeners + {pc.ln})
    || (LnTracked(pc) && pc'.Serve? && !LnTracked(pc') && pc'.ln == pc.ln && g'.lnOwner == g.lnOwner
        && g'.openLns == g.openLns && g'.listeners == g.listeners - {pc.ln})
    || (pc.Serve? && !LnTracked(pc) && !pc'.Serve? && g'.lnOwner == g.lnOwner && g'.listeners == g.listeners
        && g'.openLns == g.openLns - {pc.ln})
  }

  ghost predicate ConnMove(g: Shared, g': Shared, t: Tid, pc: Pc, pc': Pc)
  {
    // nothing changes hands
    (CnOf(pc') == CnOf(pc) && pc'.Conn? == pc.Conn?
     && g'.conns == g.conns && g'.cnOwner == g.cnOwner && g'.openConns <= g.openConns
     && (Closing(pc') ==> Closing(pc) || pc'.cn !in g'.openConns))
    // it is accepted, or refused and closed, or untracked after it was closed
    || (CnOf(pc).None? && CnOf(pc').Some? && !pc'.Conn? && CnOf(pc').value !in g.cnOwner
        && g'.cnOwner == g.cnOwner[CnOf(pc').value := t]
        && g'.openConns == g.openConns + {CnOf(pc').value} && g'.conns == g.conns)
    || (CnOf(pc).Some? && !pc.Conn? && CnOf(pc').None? && g'.cnOwner == g.cnOwner && g'.conns == g.conns
        && g'.openConns == g.openConns - {CnOf(pc).value})
    || (Closing(pc) && CnOf(pc').None? && g'.cnOwner == g.cnOwner && g'.conns == g.conns - {pc.cn}
        && g'.openConns == g.openConns)
  }

  ghost predicate SealMove(g: Shared, g': Shared, pc: Pc, pc': Pc)
  {
    g.passed <= g'.passed && (PastStore(pc') ==> PastStore(pc) || InShutdown in g'.passed)
    && (AddingLn(pc') || AddingCn(pc') ==> InShutdown !in g.passed)
    && (ListenersClosed in g'.passed ==> ListenersClosed in g.passed || (PastStore(pc) && HoldsMu(pc) && g'.listeners !! g'.openLns && !pc'.Serve?))
    && (ConnsClosed in g'.passed ==> ConnsClosed in g.passed || (PastStore(pc) && HoldsMu(pc) && g'.conns !! g'.openConns && !pc'.Serve?))
    && (Stopped(pc') ==> ConnsClosed in g'.passed && (ListenersClosed in g'.passed || PastListeners(pc)))
    && (PastListeners(pc') ==> PastListeners(pc) || ListenersClosed in g'.passed)
  }

  ghost predicate ContextMove(g: Shared, g': Shared, pc: Pc, pc': Pc)
  {
    (InShutdown in g.passed ==> InShutdown in g'.passed)
    && (g'.doneCtx == g.doneCtx || (g.doneCtx.None? && g'.doneCtx.Some?))
    && (g'.handed == g.handed || (pc.Conn? && g'.handed == g.handed + {g.doneCtx} && g'.doneCtx == g.doneCtx))
    && (Initialised(pc') ==> Initialised(pc) || g'.doneCtx.Some?)
    && (Admitted(pc') ==> Admitted(pc) || InShutdown !in g.passed)
    && g.cancelled <= g'.cancelled
    && (CancelCalled in g'.passed ==> CancelCalled in g.passed || CancelMove(g, g', pc, pc'))
  }

  ghost predicate CancelMove(g: Shared, g': Shared, pc: Pc, pc': Pc)
  {
    PastStore(pc) && !Admitted(pc') && g'.doneCtx == g.doneCtx && g'.handed == g.handed
    && (g.doneCtx.Some? ==> g.doneCtx.value in g'.cancelled)
  }

  ghost predicate CounterMove(g: Shared, g': Shared, t: Tid, pc: Pc, pc': Pc)
  {
    g.finished.Keys <= g'.finished.Keys && g.jobOwner.Keys <= g'.jobOwner.Keys
    && (HasBefore(pc') ==>
          if HasBefore(pc) then pc'.sh.before == pc.sh.before && (Waited(pc') ==> Waited(pc) || g.counter == 0)
          else pc'.sh.before == g.jobOwner.Keys && !Waited(pc'))
    && (// not a dispatch
        (!Counted(pc) && !Counted(pc') && g'.counter == g.counter && g'.jobOwner == g.jobOwner)
        // it is counted, has its outcome, leaves the counter
        || (!Counted(pc) && Counted(pc') && pc'.cv.Handling? && pc'.cv.job !in g.jobOwner && g'.counter == g.counter + 1
            && g'.jobOwner == g.jobOwner[pc'.cv.job := t])
        || (Counted(pc) && Counted(pc') && pc'.cv.job == pc.cv.job && g'.counter == g.counter
            && g'.jobOwner == g.jobOwner && pc.cv.job in g'.finished)
        || (Counted(pc) && pc.cv.Finishing? && !Counted(pc') && g'.counter == g.counter - 1 && g'.jobOwner == g.jobOwner))
  }

  ghost predicate Move(g: Shared, g': Shared, t: Tid, pc: Pc, pc': Pc)
  {
    LockMove(g, g', t, pc, pc') && ListenerMove(g, g', t, pc, pc') && ConnMove(g, g', t, pc, pc')
    && SealMove(g, g', pc, pc') && ContextMove(g, g', pc, pc') && CounterMove(g, g', t, pc, pc')
  }

  lemma ServeOwners(g: Shared, g': Shared, t: Tid, pc: Pc, pc': Pc, x: ServeAction)
    requires pc.Serve? && ServeStep(g, g', t, pc.ln, pc.sv, pc', x)
    ensures ListenerMove(g, g', t, pc, pc') && ConnMove(g, g', t, pc, pc')
  {
  }

  lemma ServeMoves(g: Shared, g': Shared, t: Tid, pc: Pc, pc': Pc, x: ServeAction)
    requires pc.Serve? && (HoldsMu(pc) ==> g.mu == Some(t)) && ServeStep(g, g', t, pc.ln, pc.sv, pc', x)
    ensures Move(g, g', t, pc, pc')
  {
    hide ListenerMove, ConnMove;
    ServeOwners(g, g', t, pc, pc', x);
  }

  lemma ConnMoves(g: Shared, g': Shared, t: Tid, pc: Pc, pc': Pc, x: ConnAction)
    requires pc.Conn? && (HoldsMu(pc) ==> g.mu == Some(t)) && ConnStep(g, g', t, pc.cn, pc.cv, pc', x)
    ensures Move(g, g', t, pc, pc')
  {
  }

  lemma CloseMoves(g: Shared, g': Shared, t: Tid, pc: Pc, pc': Pc, x: CloseAction)
    requires pc.Close? && (HoldsMu(pc) ==> g.mu == Some(t)) && CloseStep(g, g', pc.cl, pc', x)
    ensures Move(g, g', t, pc, pc')
  {
  }

  lemma ShutMoves(g: Shared, g': Shared, t: Tid, pc: Pc, pc': Pc, x: ShutAction)
    requires pc.Shut? && (HoldsMu(pc) ==> g.mu == Some(t)) && ShutStep(g, g', pc.sh, pc', x)
    ensures Move(g, g', t, pc, pc')
  {
  }

  lemma AcquireMoves(g: Shared, g': Shared, t: Tid, pc: Pc, pc': Pc)
    requires AcquireStep(g, g', t, pc, pc')
    ensures Move(g, g', t, pc, pc')
  {
  }

  lemma SpawnMoves(g: Shared, g': Shared, t: Tid, pc': Pc)
    requires SpawnStep(g, g', t, pc')
    ensures Move(g, g', t, Done, pc')
  {
  }

  /** Every step but AddConn is a move. */
  lemma StepMoves(s: State, s': State, t: Tid, a: Action)
    requires LockInv(s) && Do(s, s', t, a) && !a.AddConn?
    ensures Moves(s, s', t) && Move(s.g, s'.g, t, PcOf(s, t), s'.threads[t])
  {
    hide ServeStep, ConnStep, CloseStep, ShutStep, AcquireStep, SpawnStep, Move;
    var pc' := s'.threads[t];
    match a
    case Spawn => SpawnMoves(s.g, s'.g, t, pc');
    case InServe(x) => ServeMoves(s.g, s'.g, t, s.threads[t], pc', x);
    case InConn(x) => ConnMoves(s.g, s'.g, t, s.threads[t], pc', x);
    case InClose(x) => CloseMoves(s.g, s'.g, t, s.threads[t], pc', x);
    case InShut(x) => ShutMoves(s.g, s'.g, t, s.threads[t], pc', x);
    case Acquire => AcquireMoves(s.g, s'.g, t, s.threads[t], pc');
  }

  lemma LockKept(s: State, s': State, t: Tid)
    requires LockInv(s) && Moves(s, s', t) && LockMove(s.g, s'.g, t, PcOf(s, t), s'.threads[t])
    ensures LockInv(s')
  {
  }

  lemma ListenersKept(s: State, s': State, t: Tid)
    requires ListenerInv(s) && Moves(s, s', t) && ListenerMove(s.g, s'.g, t, PcOf(s, t), s'.threads[t])
    ensures ListenerInv(s')
  {
  }

  lemma ConnsKept(s: State, s': State, t: Tid)
    requires ConnInv(s) && Moves(s, s', t) && ConnMove(s.g, s'.g, t, PcOf(s, t), s'.threads[t])
    ensures ConnInv(s')
  {
  }

  lemma SealKept(s: State, s': State, t: Tid)
    requires LockInv(s) && ListenerInv(s) && ConnInv(s) && SealInv(s) && Moves(s, s', t)
    requires ListenerMove(s.g, s'.g, t, PcOf(s, t), s'.threads[t]) && ConnMove(s.g, s'.g, t, PcOf(s, t), s'.threads[t])
    requires SealMove(s.g, s'.g, PcOf(s, t), s'.threads[t])
    ensures SealInv(s')
  {
  }

  lemma ContextKept(s: State, s': State, t: Tid)
    requires SealInv(s) && ContextInv(s) && Moves(s, s', t) && ContextMove(s.g, s'.g, PcOf(s, t), s'.threads[t])
    ensures ContextInv(s')
  {
  }

  lemma CounterKept(s: State, s': State, t: Tid)
    requires CounterInv(s) && Moves(s, s', t) && CounterMove(s.g, s'.g, t, PcOf(s, t), s'.threads[t])
    ensures CounterInv(s')
  {
    hide HasBefore, Waited;
    NoRoleBefore();
    CountedChange(s, s', t);
    if s.g.counter == 0 {
      NoneInFlight(s);
    }
  }

  lemma NoRoleBefore()
    ensures !HasBefore(Done)
  {
  }

  lemma CountedChange(s: State, s': State, t: Tid)
    requires Moves(s, s', t)
    ensures var n, n' := |CountedThreads(s)|, |CountedThreads(s')|;
            n' == n + (if Counted(s'.threads[t]) then 1 else 0) - (if Counted(PcOf(s, t)) then 1 else 0)
  {
    hide Counted;
    assert !Counted(Done) by { NoRoleCounted(); }
    if Counted(s'.threads[t]) {
      assert CountedThreads(s') == CountedThreads(s) + {t};
    } else {
      assert CountedThreads(s') == CountedThreads(s) - {t};
    }
  }

  lemma NoRoleCounted()
    ensures !Counted(Done)
  {
  }

  lemma UnfinishedIsCounted(s: State, j: Job)
    requires CounterInv(s) && j in s.g.jobOwner
    ensures j in s.g.finished || s.g.jobOwner[j] in CountedThreads(s)
  {
  }

  /** With the counter at zero every dispatch ever counted has finished. */
  lemma NoneInFlight(s: State)
    requires CounterInv(s) && s.g.counter == 0
    ensures s.g.jobOwner.Keys <= s.g.finished.Keys
  {
    forall j | j in s.g.jobOwner ensures j in s.g.finished {
      UnfinishedIsCounted(s, j);
    }
  }

  // Serve hands a tracked connection to a new goroutine.

  lemma AddConnLock(s: State, s': State, t: Tid, u: Tid)
    requires LockInv(s) && AddConnStep(s, s', t, u)
    ensures LockInv(s')
  {
  }

  lemma AddConnOwners(s: State, s': State, t: Tid, u: Tid)
    requires ListenerInv(s) && ConnInv(s) && AddConnStep(s, s', t, u)
    ensures ListenerInv(s') && ConnInv(s')
  {
  }

  lemma AddConnSeal(s: State, s': State, t: Tid, u: Tid)
    requires SealInv(s) && ContextInv(s) && AddConnStep(s, s', t, u)
    ensures SealInv(s') && ContextInv(s')
  {
  }

  lemma AddConnCounter(s: State, s': State, t: Tid, u: Tid)
    requires CounterInv(s) && AddConnStep(s, s', t, u)
    ensures CounterInv(s')
  {
    assert CountedThreads(s') == CountedThreads(s);
  }

  lemma InvKept(s: State, s': State, t: Tid, a: Action)
    requires Inv(s) && Do(s, s', t, a)
    ensures Inv(s')
  {
    hide ThreadStep, SpawnStep, AddConnStep, Moves, PcOf, LockInv, ListenerInv, ConnInv, SealInv, ContextInv, CounterInv,
         LockMove, ListenerMove, ConnMove, SealMove, ContextMove, CounterMove;
    if a.AddConn? {
      AddConnLock(s, s', t, a.child);
      AddConnOwners(s, s', t, a.child);
      AddConnSeal(s, s', t, a.child);
      AddConnCounter(s, s', t, a.child);
    } else {
      StepMoves(s, s', t, a);
      LockKept(s, s', t);
      ListenersKept(s, s', t);
      ConnsKept(s, s', t);
      SealKept(s, s', t);
      ContextKept(s, s', t);
      CounterKept(s, s', t);
    }
  }

  lemma {:induction false} RunKeepsInv(run: seq<State>, i: nat)
    requires IsRun(run) && i < |run|
    ensures Inv(run[i])
  {
    hide Do;
    if i == 0 {
      InitialInv(run[0]);
    } else {
      hide Inv, Initial;
      RunKeepsInv(run, i - 1);
      assert Next(run[i - 1], run[i - 1 + 1]);
      var t: Tid, a: Action :| Do(run[i - 1], run[i], t, a);
      InvKept(run[i - 1], run[i], t, a);
    }
  }

  lemma InitialInv(s: State)
    requires Initial(s)
    ensures Inv(s)
  {
    assert CountedThreads(s) == {};
  }

  // ----- after Close or Shutdown -----

  ghost predicate Sealed(s: State) { ListenersClosed in s.g.passed && ConnsClosed in s.g.passed }

  /** A Serve call that has an accepted connection and is on its way to refusing and closing it. */
  predicate WillRefuseConn(pc: Pc) { pc.Serve? && (pc.sv.ConnWait? || pc.sv.ConnLoad? || pc.sv.RefusedConn?) }

  /** A Serve call whose listener is not tracked and that is on its way to refusing or just closing it. */
  predicate WillCloseListener(pc: Pc) { pc.Serve? && !LnTracked(pc) && !pc.sv.TrackAdd? }

  /** Whatever is still open sits with a Serve call that is about to close it. */
  ghost predicate OnlyRefusalsOpen(s: State)
  {
    (forall c :: c in s.g.openConns ==>
       c in s.g.cnOwner && OwnsConn(s, s.g.cnOwner[c], c) && WillRefuseConn(s.threads[s.g.cnOwner[c]]))
    && (forall l :: l in s.g.openLns ==>
       l in s.g.lnOwner && OwnsListener(s, s.g.lnOwner[l], l) && WillCloseListener(s.threads[s.g.lnOwner[l]]))
  }

  lemma SealedMeansClosed(s: State)
    requires Inv(s) && Sealed(s)
    ensures s.g.conns !! s.g.openConns && s.g.listeners !! s.g.openLns && OnlyRefusalsOpen(s)
  {
    hide LockInv, ContextInv, CounterInv;
    forall c | c in s.g.openConns
      ensures c in s.g.cnOwner && OwnsConn(s, s.g.cnOwner[c], c) && WillRefuseConn(s.threads[s.g.cnOwner[c]])
    {
      var t := s.g.cnOwner[c];
      assert OwnsConn(s, t, c) && c !in s.g.conns;
      assert !AddingCn(s.threads[t]);
    }
    forall l | l in s.g.openLns
      ensures l in s.g.lnOwner && OwnsListener(s, s.g.lnOwner[l], l) && WillCloseListener(s.threads[s.g.lnOwner[l]])
    {
      var t := s.g.lnOwner[l];
      assert OwnsListener(s, t, l) && l !in s.g.listeners;
      assert !AddingLn(s.threads[t]);
    }
  }

  /** From then on nothing is tracked that was not tracked before. */
  lemma SealedStep(s: State, s': State, t: Tid, a: Action)
    requires Inv(s) && Sealed(s) && Do(s, s', t, a)
    ensures Sealed(s') && s'.g.conns <= s.g.conns && s'.g.listeners <= s.g.listeners
  {
    hide ThreadStep, SpawnStep, ContextInv, CounterInv, ListenerInv, ConnInv;
    if !a.AddConn? {
      StepMoves(s, s', t, a);
      assert !AddingLn(PcOf(s, t));
    }
  }

  /** Main result. In every run, from the moment some Close or Shutdown has returned: no tracked connection
      or listener is open, none is ever tracked again, and every connection or listener that is still open
      sits in the Serve call that will refuse and close it. */
  lemma NothingSurvivesStop(run: seq<State>, i: nat, j: nat, t: Tid)
    requires IsRun(run) && i <= j < |run|
    requires t in run[i].threads && Stopped(run[i].threads[t])
    ensures run[j].g.conns !! run[j].g.openConns && run[j].g.listeners !! run[j].g.openLns
    ensures run[j].g.conns <= run[i].g.conns && run[j].g.listeners <= run[i].g.listeners
    ensures OnlyRefusalsOpen(run[j])
  {
    hide IsRun, Inv, OnlyRefusalsOpen, Sealed, Stopped;
    RunKeepsInv(run, i);
    StoppedIsSealed(run[i], t);
    SealedForever(run, i, j);
    RunKeepsInv(run, j);
    SealedMeansClosed(run[j]);
  }

  lemma StoppedIsSealed(s: State, t: Tid)
    requires Inv(s) && t in s.threads && Stopped(s.threads[t])
    ensures Sealed(s)
  {
    hide LockInv, ListenerInv, ConnInv, ContextInv, CounterInv;
  }

  lemma {:induction false} SealedForever(run: seq<State>, i: nat, j: nat)
    requires IsRun(run) && i <= j < |run| && Sealed(run[i])
    ensures Sealed(run[j]) && run[j].g.conns <= run[i].g.conns && run[j].g.listeners <= run[i].g.listeners
  {
    hide Inv, Sealed, Do;
    if i < j {
      SealedForever(run, i, j - 1);
      RunKeepsInv(run, j - 1);
      assert Next(run[j - 1], run[j - 1 + 1]);
      var u: Tid, a: Action :| Do(run[j - 1], run[j], u, a);
      SealedStep(run[j - 1], run[j], u, a);
    }
  }

  /** How far a Serve call is from closing a connection it must refuse. */
  function RefusalRank(sv: ServePc): (n: nat) { if sv.ConnWait? then 3 else if sv.ConnLoad? then 2 else 1 }

  /** The refusal is certain: each step of that Serve call closes the connection or brings it nearer to it,
      and no step of another thread takes it out of its hands. */
  lemma RefusalAdvances(s: State, s': State, t: Tid, u: Tid, a: Action)
    requires Inv(s) && Sealed(s) && Do(s, s', u, a)
    requires t in s.threads && WillRefuseConn(s.threads[t])
    ensures t in s'.threads
    ensures u != t ==> s'.threads[t] == s.threads[t]
    ensures u == t ==> var c := s.threads[t].sv.cn;
                       c !in s'.g.openConns
                       || (WillRefuseConn(s'.threads[t]) && s'.threads[t].sv.cn == c
                           && RefusalRank(s'.threads[t].sv) < RefusalRank(s.threads[t].sv))
  {
    hide Inv, LockInv, ListenerInv, ConnInv, ContextInv, CounterInv;
    assert InShutdown in s.g.passed by { SealedIsShutdown(s); }
  }

  function ListenerRank(sv: ServePc): (n: nat)
  {
    if sv.InitWait? then 5 else if sv.Init? then 4 else if sv.TrackWait? then 3 else if sv.TrackLoad? then 2 else 1
  }

  /** The same of a listener that is not tracked. */
  lemma ListenerRefusalAdvances(s: State, s': State, t: Tid, u: Tid, a: Action)
    requires Inv(s) && Sealed(s) && Do(s, s', u, a)
    requires t in s.threads && WillCloseListener(s.threads[t])
    ensures t in s'.threads
    ensures u != t ==> s'.threads[t] == s.threads[t]
    ensures u == t ==> var l := s.threads[t].ln;
                       l !in s'.g.openLns
                       || (WillCloseListener(s'.threads[t]) && s'.threads[t].ln == l
                           && ListenerRank(s'.threads[t].sv) < ListenerRank(s.threads[t].sv))
  {
    hide Inv, LockInv, ListenerInv, ConnInv, ContextInv, CounterInv;
    assert InShutdown in s.g.passed by { SealedIsShutdown(s); }
  }

  lemma SealedIsShutdown(s: State)
    requires Inv(s) && Sealed(s)
    ensures InShutdown in s.g.passed
  {
  }

  // ----- handlers and contexts -----

  /** In every reachable state the counter equals the number of dispatches in flight, panics included. */
  lemma CounterCountsDispatches(run: seq<State>, i: nat)
    requires IsRun(run) && i < |run|
    ensures run[i].g.counter == |set t | t in run[i].threads && Counted(run[i].threads[t])|
  {
    RunKeepsInv(run, i);
    assert CountedThreads(run[i]) == set t | t in run[i].threads && Counted(run[i].threads[t]);
  }

  /** The dispatches a Shutdown waits for are fixed when its wait begins. */
  lemma {:induction false} BeforeIsFixed(run: seq<State>, i: nat, j: nat, t: Tid)
    requires IsRun(run) && i <= j < |run|
    requires t in run[i].threads && HasBefore(run[i].threads[t])
    ensures t in run[j].threads && HasBefore(run[j].threads[t]) && run[j].threads[t].sh.before == run[i].threads[t].sh.before
  {
    hide Do, HasBefore;
    if i < j {
      BeforeIsFixed(run, i, j - 1, t);
      assert Next(run[j - 1], run[j - 1 + 1]);
      var u: Tid, a: Action :| Do(run[j - 1], run[j], u, a);
      BeforeStep(run[j - 1], run[j], t, u, a);
    }
  }

  lemma BeforeStep(s: State, s': State, t: Tid, u: Tid, a: Action)
    requires Do(s, s', u, a) && t in s.threads && HasBefore(s.threads[t])
    ensures t in s'.threads && HasBefore(s'.threads[t]) && s'.threads[t].sh.before == s.threads[t].sh.before
  {
    hide ServeStep, ConnStep, CloseStep, SpawnStep;
  }

  /** Main result. If a Shutdown gets past its wait without an error, every dispatch that was counted when
      the wait began (step i) has written its response, failed to, or panicked by the time that Shutdown
      may close a connection (state j). */
  lemma GracefulShutdown(run: seq<State>, i: nat, j: nat, t: Tid, job: Job)
    requires IsRun(run) && i + 1 <= j < |run|
    requires Do(run[i], run[i + 1], t, InShut(StartWait))
    requires job in run[i].g.jobOwner
    requires t in run[j].threads && run[j].threads[t].Shut? && run[j].threads[t].sh.ShutConns? && run[j].threads[t].sh.ok
    ensures job in run[j].g.finished
  {
    hide Inv;
    assert run[i + 1].threads[t] == Shut(ShutWaiting(run[i].g.jobOwner.Keys, false));
    BeforeIsFixed(run, i + 1, j, t);
    RunKeepsInv(run, j);
    WaitedMeansFinished(run[j], t);
  }

  lemma WaitedMeansFinished(s: State, t: Tid)
    requires Inv(s) && t in s.threads && HasBefore(s.threads[t]) && Waited(s.threads[t])
    ensures s.threads[t].sh.before <= s.g.finished.Keys
  {
  }

  /** Main result. In every run, once a Close or Shutdown has passed its cancel step (state i), every context
      ever handed to a handler, then or at any later time (state j), is a cancelled one. */
  lemma HandedContextsAreCancelled(run: seq<State>, i: nat, j: nat, ctx: Option<Ctx>)
    requires IsRun(run) && i <= j < |run| && CancelCalled in run[i].g.passed && ctx in run[j].g.handed
    ensures ctx.Some? && ctx.value in run[j].g.cancelled
  {
    hide IsRun, Inv;
    MilestonesStay(run, i, j);
    RunKeepsInv(run, j);
    CancelledNow(run[j], ctx);
  }

  lemma CancelledNow(s: State, ctx: Option<Ctx>)
    requires Inv(s) && CancelCalled in s.g.passed && ctx in s.g.handed
    ensures ctx.Some? && ctx.value in s.g.cancelled
  {
    hide LockInv, ListenerInv, ConnInv, SealInv, CounterInv;
  }

  lemma {:induction false} MilestonesStay(run: seq<State>, i: nat, j: nat)
    requires IsRun(run) && i <= j < |run|
    ensures run[i].g.passed <= run[j].g.passed
  {
    hide Inv, Do;
    if i < j {
      MilestonesStay(run, i, j - 1);
      RunKeepsInv(run, j - 1);
      assert Next(run[j - 1], run[j - 1 + 1]);
      var u: Tid, a: Action :| Do(run[j - 1], run[j], u, a);
      MilestoneStep(run[j - 1], run[j], u, a);
    }
  }

  lemma MilestoneStep(s: State, s': State, t: Tid, a: Action)
    requires Inv(s) && Do(s, s', t, a)
    ensures s.g.passed <= s'.g.passed
  {
    hide ThreadStep, SpawnStep, ListenerInv, ConnInv, SealInv, ContextInv, CounterInv, ListenerMove, ConnMove, ContextMove,
         CounterMove, LockMove;
    if !a.AddConn? {
      StepMoves(s, s', t, a);
    }
  }
}
