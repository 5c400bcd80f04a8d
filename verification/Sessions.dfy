/** One-shot calls, sessions and a cached session's use (rconclient/client.go, rconclient/session.go,
    rconclient/retry.go, and execute in rconhttp/cache.go), over connections as resources that are opened,
    used and closed. */
module Sessions {
  import opened Wire
  import opened RequestIds
  import opened Conn

  predicate IsRetryable(e: Error) { e == Eof || e.Net? }

  predicate IsConnError(e: Error) { e == Eof || e == Closed || e == ResponseMismatch || e.Net? }

  /** What a dial comes to: no connection; a nil connection; a connection whose handshake fails; a session. */
  datatype DialOutcome = Refused(error: Error) | NilConn | Rejected(error: Error) | Dialed

  /** The free choices of the network: the outcome of the i-th dial, and of the i-th command on an open
      connection. Conn.Execute returns ErrClosed only on a connection that was closed, see
      OnlyClosedConnsReturnClosed; dialers are taken never to return it. */
  datatype Script = Script(dial: nat -> DialOutcome, reply: nat -> Result<Bytes>)

  ghost predicate Honest(sc: Script)
  {
    (forall i :: sc.reply(i) != Err(Closed))
    && (forall i :: sc.dial(i) != Refused(Closed) && sc.dial(i) != Rejected(Closed))
  }

  /** The connections: which are open, how many were ever opened and closed, how many dials and commands. */
  datatype Conns = Conns(live: set<nat>, begun: nat, ended: nat, dials: nat, sends: nat)

  ghost predicate Sane(n: Conns) { forall c :: c in n.live ==> c < n.begun }

  /** dial: on success the new connection's number. A failed handshake closes what was opened. */
  function Dialing(sc: Script, n: Conns): (r: (Conns, Result<nat>))
  {
    match sc.dial(n.dials)
    case Refused(e) => (n.(dials := n.dials + 1), Err(e))
    case NilConn => (n.(dials := n.dials + 1), Err(Other))
    case Rejected(e) => (n.(dials := n.dials + 1, begun := n.begun + 1, ended := n.ended + 1), Err(e))
    case Dialed => (n.(dials := n.dials + 1, begun := n.begun + 1, live := n.live + {n.begun}), Ok(n.begun))
  }

  /** Conn.Execute: a closed connection refuses before sending. */
  function Sending(sc: Script, n: Conns, c: nat): (r: (Conns, Result<Bytes>))
  {
    if c !in n.live then (n, Err(Closed)) else (n.(sends := n.sends + 1), sc.reply(n.sends))
  }

  /** Conn.Close: closing again changes nothing. */
  function CloseConn(n: Conns, c: nat): (n': Conns)
  {
    if c in n.live then n.(live := n.live - {c}, ended := n.ended + 1) else n
  }

  /** Session.Execute: on a retryable error close, dial once more and try once more. */
  function SessionExecute(sc: Script, n: Conns, c: nat): (r: (Conns, nat, Result<Bytes>))
  {
    var (n1, out) := Sending(sc, n, c);
    if out.Ok? || !IsRetryable(out.error) then (n1, c, out)
    else
      var (n2, dialed) := Dialing(sc, CloseConn(n1, c));
      match dialed
      case Err(e) => (n2, c, Err(e))
      case Ok(c') =>
        var (n3, out') := Sending(sc, n2, c');
        (n3, c', out')
  }

  /** sessionCache.execute on one entry: dial if there is no session, run the command, drop the session on a
      connection error. */
  function EntryExecute(sc: Script, n: Conns, session: Option<nat>): (r: (Conns, Option<nat>, Result<Bytes>))
  {
    var (n1, dialed) := if session.Some? then (n, Ok(session.value)) else Dialing(sc, n);
    match dialed
    case Err(e) => (n1, None, Err(e))
    case Ok(c) =>
      var (n2, c', out) := SessionExecute(sc, n1, c);
      if out.Err? && IsConnError(out.error) then (CloseConn(n2, c'), None, out) else (n2, Some(c'), out)
  }

  /** Every state the connections go through in a dial: during a handshake that fails the new one is open. */
  function DialTrace(sc: Script, n: Conns): (ns: seq<Conns>)
  {
    var n' := Dialing(sc, n).0;
    if sc.dial(n.dials).Rejected? then [n.(dials := n.dials + 1, begun := n.begun + 1, live := n.live + {n.begun}), n'] else [n']
  }

  /** Every state the connections go through in a session's call. */
  function SessionTrace(sc: Script, n: Conns, c: nat): (ns: seq<Conns>)
  {
    var (n1, out) := Sending(sc, n, c);
    if out.Ok? || !IsRetryable(out.error) then [n1]
    else
      var n2 := CloseConn(n1, c);
      var (n3, dialed) := Dialing(sc, n2);
      [n1, n2] + DialTrace(sc, n2) + (if dialed.Ok? then [Sending(sc, n3, dialed.value).0] else [])
  }

  /** Every state the connections go through in any number of calls on one session, with the session's connection c. */
  function SessionRun(sc: Script, n: Conns, c: nat, calls: nat): (ns: seq<Conns>)
    decreases calls
  {
    if calls == 0 then [n]
    else
      var (n', c', _) := SessionExecute(sc, n, c);
      [n] + SessionTrace(sc, n, c) + SessionRun(sc, n', c', calls - 1)
  }

  /** Every connection ever opened is open or was closed exactly once. */
  ghost predicate Conserved(n: Conns) { Sane(n) && n.begun - n.ended == |n.live| }

  /** No connection outside `mine` is opened or closed. */
  ghost predicate Touches(n: Conns, n': Conns, mine: set<nat>)
  {
    forall x :: x !in mine ==> (x in n'.live <==> x in n.live)
  }

  lemma DialConserves(sc: Script, n: Conns)
    requires Conserved(n)
    ensures var (n', r) := Dialing(sc, n);
            Conserved(n') && n'.sends == n.sends && n'.dials == n.dials + 1 && n.begun <= n'.begun
            && (r.Err? ==> n'.live == n.live)
            && (r.Ok? ==> n.begun == r.value < n'.begun && r.value in n'.live && Touches(n, n', {r.value}))
  {
  }

  lemma CloseConserves(n: Conns, c: nat)
    requires Conserved(n)
    ensures var n' := CloseConn(n, c);
            Conserved(n') && c !in n'.live && Touches(n, n', {c}) && n'.begun == n.begun
            && n'.sends == n.sends && n'.dials == n.dials
  {
  }

  lemma SendConserves(sc: Script, n: Conns, c: nat)
    requires Conserved(n)
    ensures var (n', r) := Sending(sc, n, c);
            Conserved(n') && n'.live == n.live && n'.begun == n.begun && n'.dials == n.dials && n'.sends <= n.sends + 1
  {
  }

  /** Whatever happens in a session's call: the session ends up with one connection, its old one or a new one,
      and in the second case the old one is closed; no other connection is touched; what was opened is open or
      was closed once; and the command went out at most twice. */
  lemma SessionHoldsOneConnection(sc: Script, n: Conns, c: nat)
    requires Conserved(n) && c < n.begun
    ensures var (n', c', out) := SessionExecute(sc, n, c);
            Conserved(n') && c' < n'.begun && n.begun <= n'.begun && Touches(n, n', {c, c'})
            && (c' != c ==> c !in n'.live && c' >= n.begun)
            && n'.sends <= n.sends + 2 && n'.dials <= n.dials + 1
  {
    hide Conserved, Sending, Dialing, CloseConn;
    var (n1, out) := Sending(sc, n, c);
    SendConserves(sc, n, c);
    CloseConserves(n1, c);
    DialConserves(sc, CloseConn(n1, c));
    var (n2, dialed) := Dialing(sc, CloseConn(n1, c));
    if dialed.Ok? {
      SendConserves(sc, n2, dialed.value);
    }
  }

  /** Besides the connections of others, which are all open, at most one is open. */
  ghost predicate HoldsAtMostOne(n: Conns, others: set<nat>)
  {
    others <= n.live && forall x, y :: x in n.live && y in n.live && x !in others && y !in others ==> x == y
  }

  ghost predicate AllHoldAtMostOne(ns: seq<Conns>, others: set<nat>)
  {
    forall i :: 0 <= i < |ns| ==> HoldsAtMostOne(ns[i], others)
  }

  /** The connections that are not the session's. */
  ghost predicate Others(n: Conns, c: nat, others: set<nat>)
  {
    Conserved(n) && c < n.begun && c !in others && others <= n.live && n.live <= others + {c}
  }

  lemma TraceHoldsAtMostOne(sc: Script, n: Conns, c: nat, others: set<nat>)
    requires Others(n, c, others)
    ensures AllHoldAtMostOne(SessionTrace(sc, n, c), others)
    ensures var (n', c', _) := SessionExecute(sc, n, c);
            Others(n', c', others) && SessionTrace(sc, n, c)[|SessionTrace(sc, n, c)| - 1] == n'
  {
    hide Conserved, CloseConn, Sending, Dialing, DialTrace, HoldsAtMostOne;
    var (n1, out) := Sending(sc, n, c);
    SendConserves(sc, n, c);
    OnlyOthers(n1, c, others);
    if out.Err? && IsRetryable(out.error) {
      var n2 := CloseConn(n1, c);
      CloseConserves(n1, c);
      assert n2.live == others;
      OnlyOthers(n2, c, others);
      RedialHoldsAtMostOne(sc, n2, others);
      var (n3, dialed) := Dialing(sc, n2);
      if dialed.Ok? {
        SendConserves(sc, n3, dialed.value);
        OnlyOthers(Sending(sc, n3, dialed.value).0, dialed.value, others);
      }
    }
  }

  lemma OnlyOthers(n: Conns, c: nat, others: set<nat>)
    requires others <= n.live && n.live <= others + {c}
    ensures HoldsAtMostOne(n, others)
  {
  }

  lemma RedialHoldsAtMostOne(sc: Script, n: Conns, others: set<nat>)
    requires Conserved(n) && n.live == others
    ensures AllHoldAtMostOne(DialTrace(sc, n), others)
    ensures var (n', r) := Dialing(sc, n);
            Conserved(n') && n.begun <= n'.begun && DialTrace(sc, n) != [] && DialTrace(sc, n)[|DialTrace(sc, n)| - 1] == n'
            && (r.Ok? ==> Others(n', r.value, others)) && (r.Err? ==> n'.live == others)
  {
    DialConserves(sc, n);
    DialHoldsAtMostOne(sc, n);
    NewIsNotOpen(n, n.begun);
    hide Conserved, DialTrace, AllHoldAtMostOne;
  }

  lemma DialHoldsAtMostOne(sc: Script, n: Conns)
    ensures AllHoldAtMostOne(DialTrace(sc, n), n.live)
    ensures DialTrace(sc, n) != [] && DialTrace(sc, n)[|DialTrace(sc, n)| - 1] == Dialing(sc, n).0
  {
  }

  /** In every state of every sequence of calls on one session, also between closing one connection and dialing the
      next and in the middle of a handshake, the session has at most one connection open, and no other connection is
      touched. */
  lemma {:induction false} SessionNeverHoldsTwo(sc: Script, n: Conns, c: nat, others: set<nat>, calls: nat)
    requires Others(n, c, others)
    ensures AllHoldAtMostOne(SessionRun(sc, n, c, calls), others)
    decreases calls
  {
    hide SessionTrace, SessionExecute, Conserved;
    if calls > 0 {
      TraceHoldsAtMostOne(sc, n, c, others);
      var (n', c', _) := SessionExecute(sc, n, c);
      SessionNeverHoldsTwo(sc, n', c', others, calls - 1);
    }
  }

  /** What a dial returns. */
  lemma DialOutcomes(sc: Script, n: Conns)
    ensures var (n', r) := Dialing(sc, n);
            match sc.dial(n.dials)
            case Refused(e) => r == Err(e) && n'.begun == n.begun
            case NilConn => r == Err(Other) && n'.begun == n.begun
            case Rejected(e) => r == Err(e) && n'.begun == n.begun + 1
            case Dialed => r == Ok(n.begun) && n'.begun == n.begun + 1 && n.begun in n'.live
  {
  }

  /** What a session's call returns, by the outcome of its first try. A success, and any error but io.EOF and network errors, is
      returned as it is, after one command and no dial. After those two the connection is closed and dialed once more: if that
      fails its error is returned, and if it succeeds the command is sent again, on the new connection, and the second outcome is
      returned whatever it is. On a closed connection nothing is sent. */
  lemma SessionOutcome(sc: Script, n: Conns, c: nat)
    requires Conserved(n)
    ensures var (n', c', out) := SessionExecute(sc, n, c);
            var first := sc.reply(n.sends);
            if c !in n.live then n' == n && c' == c && out == Err(Closed)
            else if !Transient(first) then
              out == first && n'.sends == n.sends + 1 && n'.dials == n.dials && c' == c && c in n'.live
            else
              n'.dials == n.dials + 1 && c !in n'.live
              && match sc.dial(n.dials)
                 case Dialed => out == sc.reply(n.sends + 1) && n'.sends == n.sends + 2 && c' == n.begun && c' in n'.live
                 case Refused(e) => out == Err(e) && n'.sends == n.sends + 1 && c' == c
                 case NilConn => out == Err(Other) && n'.sends == n.sends + 1 && c' == c
                 case Rejected(e) => out == Err(e) && n'.sends == n.sends + 1 && c' == c
  {
    if c in n.live && Transient(sc.reply(n.sends)) {
      var n1 := CloseConn(Sending(sc, n, c).0, c);
      assert n1.live == n.live - {c} && n1.begun == n.begun && c < n.begun;
    }
  }

  /** What a call on a cached entry returns and keeps. Without a session it dials first, and a failed dial is its outcome. The
      session is kept after a success and after every error but io.EOF, ErrClosed, ErrResponseMismatch and network errors; after
      those the entry has none, and its connection is closed. */
  lemma EntryOutcome(sc: Script, n: Conns, session: Option<nat>)
    ensures var (n', session', out) := EntryExecute(sc, n, session);
            var (n1, dialed) := if session.Some? then (n, Ok(session.value)) else Dialing(sc, n);
            if dialed.Err? then out == Err(dialed.error) && session' == None && n' == n1
            else
              var (n2, c, r) := SessionExecute(sc, n1, dialed.value);
              out == r
              && if Transient(r) || r == Err(Closed) || r == Err(ResponseMismatch) then session' == None && c !in n'.live
                 else session' == Some(c) && n' == n2
  {
    hide SessionExecute, Dialing;
    var (n1, dialed) := if session.Some? then (n, Ok(session.value)) else Dialing(sc, n);
    if dialed.Ok? {
      var (n2, c, r) := SessionExecute(sc, n1, dialed.value);
      if r.Err? && r.error.Net? {
        assert r.error == Net(true) || r.error == Net(false);
      }
      assert r.Err? && IsConnError(r.error) <==> Transient(r) || r == Err(Closed) || r == Err(ResponseMismatch);
    }
  }

  /** The same of a call on a cached entry, which may also start or end up without a session; an entry left
      without one has left no connection open. */
  lemma EntryHoldsOneConnection(sc: Script, n: Conns, session: Option<nat>)
    requires Conserved(n) && (session.Some? ==> session.value < n.begun)
    ensures var (n', session', out) := EntryExecute(sc, n, session);
            Conserved(n') && (session'.Some? ==> session'.value < n'.begun)
            && forall x :: session != Some(x) && session' != Some(x) ==> (x in n'.live <==> x in n.live)
  {
    hide Conserved, SessionExecute, Dialing, CloseConn;
    var (n1, dialed) := if session.Some? then (n, Ok(session.value)) else Dialing(sc, n);
    if session.None? {
      DialConserves(sc, n);
    }
    if dialed.Ok? {
      SessionHoldsOneConnection(sc, n1, dialed.value);
      var (n2, c', _) := SessionExecute(sc, n1, dialed.value);
      CloseConserves(n2, c');
      NewIsNotOpen(n, n.begun);
      if c' != dialed.value {
        NewIsNotOpen(n, c');
      }
    }
  }

  lemma NewIsNotOpen(n: Conns, x: nat)
    requires Conserved(n) && x >= n.begun
    ensures x !in n.live
  {
  }

  /** A session's call returns ErrClosed exactly when the session holds a connection that was closed. */
  lemma SessionClosedIff(sc: Script, n: Conns, c: nat)
    requires Honest(sc)
    ensures SessionExecute(sc, n, c).2 == Err(Closed) <==> c !in n.live
  {
  }

  /** A cached entry's call returns ErrClosed exactly when its session holds a closed connection, and then it
      leaves no session behind. */
  lemma EntryClosedIff(sc: Script, n: Conns, session: Option<nat>)
    requires Honest(sc)
    ensures var (n', session', out) := EntryExecute(sc, n, session);
            (out == Err(Closed) <==> session.Some? && session.value !in n.live)
            && (out == Err(Closed) ==> session'.None?)
  {
    hide SessionExecute;
    var (n1, dialed) := if session.Some? then (n, Ok(session.value)) else Dialing(sc, n);
    if dialed.Ok? {
      SessionClosedIff(sc, n1, dialed.value);
    }
  }

  /** Any number of calls on one entry. */
  function EntryRun(sc: Script, n: Conns, session: Option<nat>, calls: nat): (rs: seq<Result<Bytes>>)
    ensures |rs| == calls
    decreases calls
  {
    if calls == 0 then []
    else
      var (n', session', out) := EntryExecute(sc, n, session);
      [out] + EntryRun(sc, n', session', calls - 1)
  }

  /** No two consecutive calls on one entry return ErrClosed: a session whose reconnect failed costs at most
      one more failed call. */
  lemma {:induction false} NeverClosedTwice(sc: Script, n: Conns, session: Option<nat>, calls: nat, i: nat)
    requires Honest(sc) && i + 1 < calls
    ensures var rs := EntryRun(sc, n, session, calls);
            !(rs[i] == Err(Closed) && rs[i + 1] == Err(Closed))
    decreases calls
  {
    hide EntryExecute;
    var (n', session', out) := EntryExecute(sc, n, session);
    if i == 0 {
      EntryClosedIff(sc, n, session);
      EntryClosedIff(sc, n', session');
      var rest := EntryRun(sc, n', session', calls - 1);
      assert rest[0] == EntryExecute(sc, n', session').2;
    } else {
      NeverClosedTwice(sc, n', session', calls - 1, i - 1);
    }
  }

  /** executeOnce: dial, run, close. */
  function OneTry(sc: Script, n: Conns): (r: (Conns, Result<Bytes>))
  {
    var (n1, dialed) := Dialing(sc, n);
    match dialed
    case Err(e) => (n1, Err(e))
    case Ok(c) =>
      var (n2, out) := Sending(sc, n1, c);
      (CloseConn(n2, c), out)
  }

  /** The outcomes of k tries in a row. */
  function TriesOf(sc: Script, n: Conns, k: nat): (r: (Conns, seq<Result<Bytes>>))
    ensures |r.1| == k
  {
    if k == 0 then (n, [])
    else
      var (n1, rs) := TriesOf(sc, n, k - 1);
      var (n2, r) := OneTry(sc, n1);
      (n2, rs + [r])
  }

  /** A try closes what it opened. */
  lemma OneTryConserves(sc: Script, n: Conns)
    requires Conserved(n)
    ensures var (n', r) := OneTry(sc, n);
            Conserved(n') && n'.live == n.live && n'.dials == n.dials + 1 && n'.sends <= n.sends + 1
            && n'.begun - n.begun == n'.ended - n.ended
  {
    hide Conserved, Dialing, Sending, CloseConn;
    DialConserves(sc, n);
    var (n1, dialed) := Dialing(sc, n);
    if dialed.Ok? {
      SendConserves(sc, n1, dialed.value);
      CloseConserves(Sending(sc, n1, dialed.value).0, dialed.value);
      NewIsNotOpen(n, dialed.value);
      assert forall x :: x in OneTry(sc, n).0.live <==> x in n.live;
    }
    assert OneTry(sc, n).0.live == n.live;
    Balanced(n, OneTry(sc, n).0);
  }

  lemma Balanced(n: Conns, n': Conns)
    requires Conserved(n) && Conserved(n') && n'.live == n.live
    ensures n'.begun - n.begun == n'.ended - n.ended
  {
  }

  /** What a try returns: the error of the dial, or the reply to its one command. */
  lemma TryOutcome(sc: Script, n: Conns)
    ensures var (n', r) := OneTry(sc, n);
            match sc.dial(n.dials)
            case Dialed => r == sc.reply(n.sends) && n'.sends == n.sends + 1
            case Refused(e) => r == Err(e) && n'.sends == n.sends
            case NilConn => r == Err(Other) && n'.sends == n.sends
            case Rejected(e) => r == Err(e) && n'.sends == n.sends
  {
  }

  /** So does any number of tries, one dial each. */
  lemma {:induction false} TriesConserve(sc: Script, n: Conns, k: nat)
    requires Conserved(n)
    ensures var n' := TriesOf(sc, n, k).0;
            Conserved(n') && n'.live == n.live && n'.dials == n.dials + k && n'.sends <= n.sends + k
            && n'.begun - n.begun == n'.ended - n.ended
  {
    hide Conserved, OneTry;
    if k > 0 {
      TriesConserve(sc, n, k - 1);
      OneTryConserves(sc, TriesOf(sc, n, k - 1).0);
    }
  }

  // ----- where ErrClosed comes from -----

  predicate NotClosed(r: Result<Bytes>) { r.Ok? || r.error != Closed }

  lemma DecodeNeverClosed(input: Bytes, ending: Ending)
    ensures Decode(input, ending).Fault? ==> Decode(input, ending).error != Closed
  {
  }

  lemma {:induction false} MultiNeverClosed(input: Bytes, ending: Ending, buffered: Bytes -> nat, req: Int32, sentinel: Int32)
    ensures NotClosed(Multi(input, ending, buffered, req, sentinel).result)
    decreases |input|
  {
    hide Decode, Drain;
    DecodeNeverClosed(input, ending);
    match Decode(input, ending)
    case Fault(_, _) =>
    case Frame(_, rest) => MultiNeverClosed(rest, ending, buffered, req, sentinel);
  }

  lemma {:induction false} IdleNeverClosed(input: Bytes, ending: Ending, req: Int32, first: bool)
    ensures NotClosed(Idle(input, ending, req, first).result)
    decreases |input|
  {
    hide Decode;
    DecodeNeverClosed(input, ending);
    match Decode(input, ending)
    case Fault(_, _) =>
    case Frame(_, rest) => IdleNeverClosed(rest, ending, req, false);
  }

  /** Conn.Execute returns ErrClosed exactly on a Conn that was closed, and then it has sent nothing. */
  lemma OnlyClosedConnsReturnClosed(st: State, mode: Mode, maxLen: int, command: Bytes, net: Network)
    ensures var (st', r) := Execute(st, mode, maxLen, command, net);
            (r == Err(Closed) <==> st.closed) && (st.closed ==> st' == st)
  {
    hide Multi, Idle, NextId, Decode, Encode;
    var (st1, sent) := Conn.Send(st, mode, maxLen, command);
    if sent.Ok? {
      var input := st1.unread + net.arriving;
      DecodeNeverClosed(input, net.ending);
      MultiNeverClosed(input, net.ending, net.buffered, sent.value.req, sent.value.sentinel);
      IdleNeverClosed(input, net.ending, sent.value.req, true);
    }
  }

  // ----- the methods -----

  /** The connections of a client, as its methods change them. */
  class Client {
    const script: Script
    var live: set<nat>
    var begun: nat
    var ended: nat
    var dials: nat
    var sends: nat
    ghost var seen: seq<Conns>  // every state so far

    constructor (script: Script)
      ensures this.script == script && Now() == Conns({}, 0, 0, 0, 0) && seen == [] && Valid()
    {
      hide Conserved;
      NoneOpen();
      this.script, live, begun, ended, dials, sends, seen := script, {}, 0, 0, 0, 0, [];
    }

    ghost function Now(): (n: Conns)
      reads this
    {
      Conns(live, begun, ended, dials, sends)
    }

    /** Every connection ever opened is open or was closed once. */
    ghost predicate Valid()
      reads this
    {
      Conserved(Now())
    }

    method Dial() returns (r: Result<nat>)
      requires Valid()
      modifies this
      ensures Valid() && (r.Err? ==> live == old(live)) && (r.Ok? ==> live == old(live) + {r.value} && r.value !in old(live))
      ensures (Now(), r) == Dialing(script, old(Now())) && seen == old(seen) + DialTrace(script, old(Now()))
    {
      DialConserves(script, Now());
      var outcome := script.dial(dials);
      dials := dials + 1;
      if outcome.Refused? {
        seen := seen + [Now()];
        return Err(outcome.error);
      }
      if outcome.NilConn? {
        seen := seen + [Now()];
        return Err(Other);
      }
      var c := begun;
      begun, live := begun + 1, live + {c};
      seen := seen + [Now()];
      if outcome.Rejected? {
        this.Close(c);
        assert live == old(live);
        return Err(outcome.error);
      }
      return Ok(c);
    }

    method Send(c: nat) returns (r: Result<Bytes>)
      modifies this
      ensures (Now(), r) == Sending(script, old(Now()), c) && seen == old(seen) + [Now()]
      ensures old(Valid()) ==> Valid()
    {
      if c in live {
        r := script.reply(sends);
        sends := sends + 1;
      } else {
        r := Err(Closed);
      }
      seen := seen + [Now()];
    }

    method Close(c: nat)
      modifies this
      ensures Now() == CloseConn(old(Now()), c) && seen == old(seen) + [Now()]
      ensures c !in live && (old(Valid()) ==> Valid())
    {
      if Valid() { CloseConserves(Now(), c); }
      if c in live {
        live, ended := live - {c}, ended + 1;
      }
      seen := seen + [Now()];
    }

    method ExecuteOnce() returns (r: Result<Bytes>)
      requires Valid()
      modifies this
      ensures Valid() && (Now(), r) == OneTry(script, old(Now()))
    {
      var dialed := this.Dial();
      if dialed.Err? { return Err(dialed.error); }
      r := this.Send(dialed.value);
      this.Close(dialed.value);
    }

    /** Client.Execute. `tries` lists the outcome of every attempt; `patience(i)` is the error of the context
        if it ends during the pause after attempt i. */
    method Execute(attempts: int, hasBackoff: bool, patience: nat -> Option<Error>)
      returns (r: Result<Bytes>, tries: seq<Result<Bytes>>)
      requires Valid()
      modifies this
      ensures Attempted(if attempts < 1 then 1 else attempts, hasBackoff, patience, tries, r)
      ensures (Now(), tries) == TriesOf(script, old(Now()), |tries|)
      ensures Valid() && live == old(live) && dials == old(dials) + |tries|
      ensures begun - old(begun) == ended - old(ended)
    {
      hide OneTry, Conserved;
      var limit := if attempts < 1 then 1 else attempts;
      ghost var n0 := Now();
      tries := [];
      var attempt := 1;
      while true
        invariant 1 <= attempt <= limit && |tries| == attempt - 1
        invariant forall i :: 0 <= i < |tries| ==> Transient(tries[i])
        invariant Valid() && (Now(), tries) == TriesOf(script, n0, |tries|)
        decreases limit - attempt
      {
        TriesConserve(script, n0, attempt);
        var out := this.ExecuteOnce();
        tries := tries + [out];
        if out.Ok? { return out, tries; }
        if !IsRetryable(out.error) || attempt == limit { return Err(out.error), tries; }
        if hasBackoff && patience(attempt).Some? { return Err(patience(attempt).value), tries; }
        attempt := attempt + 1;
      }
    }

    /** Session.Execute on the session whose connection is c; returns the connection it holds afterwards. */
    method ExecuteOnSession(c: nat) returns (c': nat, r: Result<Bytes>)
      requires Valid()
      modifies this
      ensures Valid() && (Now(), c', r) == SessionExecute(script, old(Now()), c)
      ensures seen == old(seen) + SessionTrace(script, old(Now()), c)
    {
      c' := c;
      r := this.Send(c);
      if r.Ok? || !IsRetryable(r.error) { return; }
      this.Close(c);
      var dialed := this.Dial();
      if dialed.Err? {
        assert seen == old(seen) + SessionTrace(script, old(Now()), c);
        return c, Err(dialed.error);
      }
      c' := dialed.value;
      r := this.Send(c');
      assert seen == old(seen) + SessionTrace(script, old(Now()), c);
    }
  }

  /** The outcomes that are worth another try: io.EOF and network errors, and no others. */
  predicate Transient(r: Result<Bytes>) { r == Err(Eof) || r == Err(Net(true)) || r == Err(Net(false)) }

  /** What a run of Client.Execute may look like: every attempt but the last failed in a retryable way; the last
      succeeded, or failed for good, or was the last allowed, or the context ended in the pause after it. */
  ghost predicate Attempted(limit: nat, hasBackoff: bool, patience: nat -> Option<Error>, tries: seq<Result<Bytes>>,
                            r: Result<Bytes>)
  {
    1 <= |tries| <= limit
    && (forall i :: 0 <= i < |tries| - 1 ==> Transient(tries[i]))
    && var last := tries[|tries| - 1];
       if !Transient(last) || |tries| == limit then r == last
       else hasBackoff && patience(|tries|).Some? && r == Err(patience(|tries|).value)
  }

  lemma NoneOpen()
    ensures Conserved(Conns({}, 0, 0, 0, 0))
  {
  }

  /** A cacheEntry's session and its use under the entry's lock. */
  class Entry {
    var session: Option<nat>

    constructor ()
      ensures session == None
    {
      session := None;
    }

    method Execute(w: Client) returns (r: Result<Bytes>)
      requires w.Valid()
      modifies this, w
      ensures w.Valid() && (w.Now(), session, r) == EntryExecute(w.script, old(w.Now()), old(session))
    {
      hide SessionExecute;
      if session.None? {
        var dialed := w.Dial();
        if dialed.Err? { return Err(dialed.error); }
        session := Some(dialed.value);
      }
      var c, out := w.ExecuteOnSession(session.value);
      session := Some(c);
      r := out;
      if r.Err? && IsConnError(r.error) {
        w.Close(c);
        session := None;
      }
    }
  }
}
