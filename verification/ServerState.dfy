/** The parts of Server (rconserver/server.go) that its methods change while they hold mu, as those methods
    change them. ServerLifecycle interleaves these same actions with everything else. */
module ServerState {
  import opened Wire
  import L = ServerLifecycle

  /** A run of one Close call by itself: the shared state and where the call is, step by step. */
  type CloseTrace = seq<(L.Shared, L.ClosePc)>

  ghost predicate CloseMoves(t: L.Tid, from: (L.Shared, L.ClosePc), to: (L.Shared, L.ClosePc))
  {
    (exists a :: L.CloseStep(from.0, to.0, from.1, L.Close(to.1), a))
    || L.AcquireStep(from.0, to.0, t, L.Close(from.1), L.Close(to.1))
  }

  ghost predicate IsTrace(t: L.Tid, trace: CloseTrace, from: (L.Shared, L.ClosePc), to: (L.Shared, L.ClosePc))
  {
    |trace| > 0 && trace[0] == from && trace[|trace| - 1] == to
    && forall i :: 0 <= i < |trace| - 1 ==> CloseMoves(t, trace[i], trace[i + 1])
  }

  lemma NotEmpty(t: L.Tid, trace: CloseTrace, from: (L.Shared, L.ClosePc), to: (L.Shared, L.ClosePc))
    requires IsTrace(t, trace, from, to)
    ensures |trace| > 0
  {
  }

  lemma OneMore(t: L.Tid, trace: CloseTrace, from: (L.Shared, L.ClosePc), mid: (L.Shared, L.ClosePc), to: (L.Shared, L.ClosePc))
    requires IsTrace(t, trace, from, mid) && CloseMoves(t, mid, to)
    ensures IsTrace(t, trace + [to], from, to)
  {
    hide CloseMoves;
  }

  lemma Chained(t: L.Tid, a: CloseTrace, b: CloseTrace, from: (L.Shared, L.ClosePc), mid: (L.Shared, L.ClosePc), to: (L.Shared, L.ClosePc))
    requires IsTrace(t, a, from, mid) && IsTrace(t, b, mid, to)
    ensures IsTrace(t, a + b[1..], from, to)
  {
    hide CloseMoves;
    var c := a + b[1..];
    forall i | 0 <= i < |c| - 1 ensures CloseMoves(t, c[i], c[i + 1]) {
      if i < |a| - 1 {
        assert CloseMoves(t, a[i], a[i + 1]);
      } else {
        var j := i - (|a| - 1);
        assert CloseMoves(t, b[j], b[j + 1]);
        assert c[i] == b[j] && c[i + 1] == b[j + 1];
      }
    }
  }

  class Server {
    var conns: set<L.Cn>
    var listeners: set<L.Ln>
    var openConns: set<L.Cn>
    var openLns: set<L.Ln>
    var doneCtx: Option<L.Ctx>
    var cancelled: set<L.Ctx>
    var inShutdown: bool

    constructor ()
      ensures conns == {} && listeners == {} && openConns == {} && openLns == {} && doneCtx == None && cancelled == {}
      ensures !inShutdown
    {
      conns, listeners, openConns, openLns, doneCtx, cancelled, inShutdown := {}, {}, {}, {}, None, {}, false;
    }

    /** The fields within the shared state of the step system. */
    ghost function In(g: L.Shared): (g': L.Shared)
      reads this
    {
      g.(conns := conns, listeners := listeners, openConns := openConns, openLns := openLns, doneCtx := doneCtx,
         cancelled := cancelled,
         passed := if inShutdown then g.passed + {L.InShutdown} else g.passed - {L.InShutdown})
    }

    /** The initialisation section of Serve. */
    method EnsureContext(newCtx: L.Ctx, t: L.Tid, l: L.Ln, ghost g: L.Shared)
      requires g == In(g) && g.mu == Some(t) && newCtx !in cancelled
      modifies `doneCtx
      ensures L.ServeStep(g, In(g).(mu := None), t, l, L.Init, L.Serve(l, L.TrackWait), L.DoInit(newCtx))
    {
      if doneCtx.None? {
        doneCtx := Some(newCtx);
      }
    }

    /** trackConn. */
    method TrackConn(c: L.Cn, add: bool) returns (ok: bool)
      modifies `conns
      ensures ok == (add ==> !inShutdown)
      ensures conns == if !add then old(conns) - {c} else if ok then old(conns) + {c} else old(conns)
    {
      if add {
        if inShutdown { return false; }
        conns := conns + {c};
        return true;
      }
      conns := conns - {c};
      return true;
    }

    /** trackListener. */
    method TrackListener(l: L.Ln, add: bool) returns (ok: bool)
      modifies `listeners
      ensures ok == (add ==> !inShutdown)
      ensures listeners == if !add then old(listeners) - {l} else if ok then old(listeners) + {l} else old(listeners)
    {
      if add {
        if inShutdown { return false; }
        listeners := listeners + {l};
        return true;
      }
      listeners := listeners - {l};
      return true;
    }

    /** The loop that closes every tracked listener, each turn a step of Close. It keeps the first error. */
    method CloseListeners(closing: L.Ln -> Option<Error>, t: L.Tid, ghost g: L.Shared)
      returns (err: Option<Error>, ghost trace: CloseTrace)
      modifies `openLns
      ensures openLns == old(openLns) - listeners
      ensures err.None? <==> forall l :: l in listeners ==> closing(l).None?
      ensures err.Some? ==> exists l :: l in listeners && closing(l) == err
      ensures IsTrace(t, trace, (old(In(g)), L.CloseClosing), (In(g), L.CloseClosing))
    {
      err := None;
      ghost var start := (In(g), L.CloseClosing);
      trace := [start];
      var todo := listeners;
      while todo != {}
        invariant todo <= listeners && openLns == old(openLns) - (listeners - todo)
        invariant err.None? <==> forall l :: l in listeners - todo ==> closing(l).None?
        invariant err.Some? ==> exists l :: l in listeners && closing(l) == err
        invariant IsTrace(t, trace, start, (In(g), L.CloseClosing))
        decreases todo
      {
        hide IsTrace;
        var l :| l in todo;
        ghost var before := In(g);
        openLns := openLns - {l};
        var cerr := closing(l);
        if cerr.Some? && err.None? { err := cerr; }
        todo := todo - {l};
        assert L.CloseStep(before, In(g), L.CloseClosing, L.Close(L.CloseClosing), L.CloseListenerNow(l));
        OneMore(t, trace, start, (before, L.CloseClosing), (In(g), L.CloseClosing));
        trace := trace + [(In(g), L.CloseClosing)];
      }
    }

    /** The loop that closes every tracked connection, each turn a step of Close. */
    method CloseConns(t: L.Tid, ghost g: L.Shared) returns (ghost trace: CloseTrace)
      modifies `openConns
      ensures openConns == old(openConns) - conns
      ensures IsTrace(t, trace, (old(In(g)), L.CloseClosing), (In(g), L.CloseClosing))
    {
      ghost var start := (In(g), L.CloseClosing);
      trace := [start];
      var todo := conns;
      while todo != {}
        invariant todo <= conns && openConns == old(openConns) - (conns - todo)
        invariant IsTrace(t, trace, start, (In(g), L.CloseClosing))
        decreases todo
      {
        hide IsTrace;
        var c :| c in todo;
        ghost var before := In(g);
        openConns := openConns - {c};
        todo := todo - {c};
        assert L.CloseStep(before, In(g), L.CloseClosing, L.Close(L.CloseClosing), L.CloseConnNow(c));
        OneMore(t, trace, start, (before, L.CloseClosing), (In(g), L.CloseClosing));
        trace := trace + [(In(g), L.CloseClosing)];
      }
    }

    method Cancel()
      modifies `cancelled
      ensures cancelled == if doneCtx.Some? then old(cancelled) + {doneCtx.value} else old(cancelled)
    {
      if doneCtx.Some? {
        cancelled := cancelled + {doneCtx.value};
      }
    }

    /** Close, with no other thread in between: everything tracked is closed, the context is cancelled, the first error of
        a listener is returned. The call is a run of the step system's Close, from its first step to its last. */
    method Close(closing: L.Ln -> Option<Error>, t: L.Tid, ghost g: L.Shared)
      returns (err: Option<Error>, ghost g': L.Shared, ghost trace: CloseTrace)
      requires In(g) == g && g.mu.None?
      modifies `inShutdown, `cancelled, `openLns, `openConns
      ensures inShutdown && openLns == old(openLns) - listeners && openConns == old(openConns) - conns
      ensures doneCtx.Some? ==> doneCtx.value in cancelled
      ensures err.None? <==> forall l :: l in listeners ==> closing(l).None?
      ensures err.Some? ==> exists l :: l in listeners && closing(l) == err
      ensures g' == In(g') && IsTrace(t, trace, (g, L.CloseStore), (g', L.CloseDone))
    {
      hide IsTrace;
      inShutdown := true;
      ghost var g1 := In(g);
      ghost var g2 := g1.(mu := Some(t));
      Cancel();
      ghost var g3 := In(g2.(passed := g2.passed + {L.CancelCalled}));
      FirstSteps(t, g, g1, g2, g3);
      ghost var closingLns, closingConns;
      err, closingLns := CloseListeners(closing, t, g3);
      ghost var mid := (In(g3), L.CloseClosing);
      closingConns := CloseConns(t, g3);
      ghost var g4 := In(g3);
      g' := g4.(mu := None, passed := g4.passed + {L.ListenersClosed, L.ConnsClosed});
      LastStep(t, g4, g');
      ghost var a := [(g, L.CloseStore), (g1, L.CloseWait), (g2, L.CloseCancel), (g3, L.CloseClosing)];
      NotEmpty(t, closingConns, mid, (g4, L.CloseClosing));
      ghost var b := closingLns + closingConns[1..];
      Chained(t, closingLns, closingConns, (g3, L.CloseClosing), mid, (g4, L.CloseClosing));
      Chained(t, a, b, (g, L.CloseStore), (g3, L.CloseClosing), (g4, L.CloseClosing));
      NotEmpty(t, b, (g3, L.CloseClosing), (g4, L.CloseClosing));
      trace := a + b[1..];
      OneMore(t, trace, (g, L.CloseStore), (g4, L.CloseClosing), (g', L.CloseDone));
      trace := trace + [(g', L.CloseDone)];
    }
  }

  /** Storing the flag, acquiring mu, cancelling. */
  lemma FirstSteps(t: L.Tid, g: L.Shared, g1: L.Shared, g2: L.Shared, g3: L.Shared)
    requires g.mu.None? && g1 == g.(passed := g.passed + {L.InShutdown}) && g2 == g1.(mu := Some(t))
    requires g3 == g2.(cancelled := L.Cancelling(g2), passed := g2.passed + {L.CancelCalled})
    ensures IsTrace(t, [(g, L.CloseStore), (g1, L.CloseWait), (g2, L.CloseCancel), (g3, L.CloseClosing)], (g, L.CloseStore), (g3, L.CloseClosing))
  {
    assert L.CloseStep(g, g1, L.CloseStore, L.Close(L.CloseWait), L.CloseStores);
    assert L.AcquireStep(g1, g2, t, L.Close(L.CloseWait), L.Close(L.CloseCancel));
    assert L.CloseStep(g2, g3, L.CloseCancel, L.Close(L.CloseClosing), L.CloseCancels);
    hide L.CloseStep, L.AcquireStep;
  }

  lemma LastStep(t: L.Tid, g: L.Shared, g': L.Shared)
    requires g.listeners !! g.openLns && g.conns !! g.openConns
    requires g' == g.(mu := None, passed := g.passed + {L.ListenersClosed, L.ConnsClosed})
    ensures CloseMoves(t, (g, L.CloseClosing), (g', L.CloseDone))
  {
    assert L.CloseStep(g, g', L.CloseClosing, L.Close(L.CloseDone), L.CloseFinishes);
  }
}
