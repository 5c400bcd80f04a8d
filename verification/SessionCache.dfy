/** The session cache and its reaper (rconhttp/cache.go) as a step system: any number of requests, reaps and
    closeAll calls interleave, with two levels of locks and a clock. */
module SessionCache {
  import opened Wire

  type Tid = nat
  type Eid = nat
  type Link = nat
  type Key = Bytes

  /** A cacheEntry: the key it was made for, the connection its session holds, and lastUsed. */
  datatype Entry = Entry(key: Key, session: Option<Link>, lastUsed: int)

  /** Where a thread is. A request has got entry e at time `since`, then holds its lock, then has a session.
      A reap has computed its cutoff; a reap or closeAll works through the entries it took out of the map. */
  datatype Pc =
    | Got(e: Eid, since: int) | Held(e: Eid, since: int) | Ready(e: Eid, since: int)
    | ReapStart | ReapCut(cutoff: int)
    | Work(todo: set<Eid>) | WorkHeld(e: Eid, todo: set<Eid>)
    | Done

  /** What the threads share: the clock, the map, the entries, who holds which entry's lock, and the open
      connections. As history: which entry a connection was dialed for, which thread took an entry out. */
  datatype Shared = Shared(
    clock: int, entries: map<Key, Eid>, ent: map<Eid, Entry>, locks: map<Eid, Tid>, live: set<Link>,
    owner: map<Link, Eid>, takenBy: map<Eid, Tid>)

  datatype State = State(g: Shared, threads: map<Tid, Pc>)

  predicate InMap(g: Shared, e: Eid)
  {
    e in g.ent && g.ent[e].key in g.entries && g.entries[g.ent[e].key] == e
  }

  function Unlock(g: Shared, e: Eid): (g': Shared) { g.(locks := g.locks - {e}) }

  function SetSession(g: Shared, e: Eid, s: Option<Link>): (g': Shared)
    requires e in g.ent
  {
    g.(ent := g.ent[e := g.ent[e].(session := s)])
  }

  /** Closing the session of an entry, if it has one, and forgetting it. */
  function CloseSession(g: Shared, e: Eid): (g': Shared)
    requires e in g.ent
  {
    var s := g.ent[e].session;
    SetSession(if s.Some? then g.(live := g.live - {s.value}) else g, e, None)
  }

  /** The entries a reap takes out. */
  function Stale(entries: map<Key, Eid>, ent: map<Eid, Entry>, cutoff: int): (es: set<Eid>)
  {
    set k | k in entries && entries[k] in ent && ent[entries[k]].lastUsed < cutoff :: entries[k]
  }

  /** The map without them. */
  function Without(entries: map<Key, Eid>, es: set<Eid>): (m: map<Key, Eid>)
  {
    map k | k in entries && entries[k] !in es :: entries[k]
  }

  function TakenBy(g: Shared, es: set<Eid>, t: Tid): (m: map<Eid, Tid>)
  {
    g.takenBy + map e | e in es :: t
  }

  datatype Action =
    | GetOld(key: Key) | GetNew(key: Key, e: Eid) | SpawnReap | CloseAll
    | LockEntry | UseSession | DialOk(c: Link) | DialFails | Reconnect(c: Link) | ReconnectFails | Keep | Drop
    | Cutoff | Select | TakeEntry(e: Eid) | CloseEntry | EndWork
    | Tick(d: nat)

  /** A request's steps, from get to the deferred unlock. */
  ghost predicate RequestStep(g: Shared, g': Shared, t: Tid, pc: Pc, pc': Pc, a: Action)
    requires (pc.Got? || pc.Held? || pc.Ready?) && pc.e in g.ent
  {
    var e, session := pc.e, g.ent[pc.e].session;
    match a
    case LockEntry =>
      pc.Got? && e !in g.locks && g' == g.(locks := g.locks[e := t]) && pc' == Held(e, pc.since)
    case UseSession =>
      pc.Held? && session.Some? && g' == g && pc' == Ready(e, pc.since)
    case DialOk(c) =>
      pc.Held? && session.None? && c !in g.owner && pc' == Ready(e, pc.since)
      && g' == SetSession(g, e, Some(c)).(live := g.live + {c}, owner := g.owner[c := e])
    case DialFails =>
      pc.Held? && session.None? && g' == Unlock(g, e) && pc' == Done
    case Reconnect(c) =>
      pc.Ready? && session.Some? && c !in g.owner && pc' == pc
      && g' == SetSession(g, e, Some(c)).(live := g.live - {session.value} + {c}, owner := g.owner[c := e])
    case ReconnectFails =>
      pc.Ready? && session.Some? && pc' == pc && g' == g.(live := g.live - {session.value})
    case Keep =>
      pc.Ready? && g' == Unlock(g, e) && pc' == Done
    case Drop =>
      pc.Ready? && g' == Unlock(CloseSession(g, e), e) && pc' == Done
    case _ => false
  }

  /** The steps of a reap, and the second half of closeAll. */
  ghost predicate WorkStep(idle: int, g: Shared, g': Shared, t: Tid, pc: Pc, pc': Pc, a: Action)
  {
    match a
    case Cutoff =>
      pc.ReapStart? && g' == g && pc' == ReapCut(g.clock - idle)
    case Select =>
      pc.ReapCut?
      && var es := Stale(g.entries, g.ent, pc.cutoff);
         g' == g.(entries := Without(g.entries, es), takenBy := TakenBy(g, es, t)) && pc' == Work(es)
    case TakeEntry(e) =>
      pc.Work? && e in pc.todo && e !in g.locks && g' == g.(locks := g.locks[e := t]) && pc' == WorkHeld(e, pc.todo - {e})
    case CloseEntry =>
      pc.WorkHeld? && pc.e in g.ent && g' == Unlock(CloseSession(g, pc.e), pc.e) && pc' == Work(pc.todo)
    case EndWork =>
      pc.Work? && pc.todo == {} && g' == g && pc' == Done
    case _ => false
  }

  /** get, on an entry that exists or a new one, is where a request begins; a tick of the reaper starts a reap. */
  ghost predicate BeginStep(g: Shared, g': Shared, pc': Pc, a: Action)
  {
    match a
    case GetOld(k) =>
      k in g.entries && g.entries[k] in g.ent
      && var e := g.entries[k];
         g' == g.(ent := g.ent[e := g.ent[e].(lastUsed := g.clock)]) && pc' == Got(e, g.clock)
    case GetNew(k, e) =>
      k !in g.entries && e !in g.ent && pc' == Got(e, g.clock)
      && g' == g.(ent := g.ent[e := Entry(k, None, g.clock)], entries := g.entries[k := e])
    case SpawnReap => g' == g && pc' == ReapStart
    case _ => false
  }

  ghost predicate Moves(s: State, s': State, t: Tid) { t in s'.threads && s'.threads == s.threads[t := s'.threads[t]] }

  predicate IsRequest(pc: Pc) { pc.Got? || pc.Held? || pc.Ready? }

  /** closeAll swaps the map for an empty one. */
  ghost predicate CloseAllStep(s: State, s': State, t: Tid)
  {
    t in s'.threads && s'.threads[t] == Work(s.g.entries.Values)
    && s'.g == s.g.(entries := map[], takenBy := TakenBy(s.g, s.g.entries.Values, t))
  }

  ghost predicate Do(idle: int, s: State, s': State, t: Tid, a: Action)
  {
    match a
    case Tick(d) => s'.threads == s.threads && s'.g == s.g.(clock := s.g.clock + d)
    case CloseAll => t !in s.threads && Moves(s, s', t) && CloseAllStep(s, s', t)
    case GetOld(_) => t !in s.threads && Moves(s, s', t) && BeginStep(s.g, s'.g, s'.threads[t], a)
    case GetNew(_, _) => t !in s.threads && Moves(s, s', t) && BeginStep(s.g, s'.g, s'.threads[t], a)
    case SpawnReap => t !in s.threads && Moves(s, s', t) && BeginStep(s.g, s'.g, s'.threads[t], a)
    case _ =>
      t in s.threads && Moves(s, s', t)
      && if IsRequest(s.threads[t]) then
           s.threads[t].e in s.g.ent && RequestStep(s.g, s'.g, t, s.threads[t], s'.threads[t], a)
         else WorkStep(idle, s.g, s'.g, t, s.threads[t], s'.threads[t], a)
  }

  /** No request holds on to its entry, from get to unlock, for longer than the idle timeout. */
  ghost predicate HoldBound(idle: int, s: State)
  {
    forall t :: t in s.threads && IsRequest(s.threads[t]) ==> s.g.clock - s.threads[t].since <= idle
  }

  ghost predicate Initial(s: State) { s.g.entries == map[] && s.g == Shared(s.g.clock, map[], map[], map[], {}, map[], map[]) && s.threads == map[] }

  /** A finite run with its steps; acts[i] is the thread and step from run[i] to run[i + 1]. */
  ghost predicate IsRun(idle: int, run: seq<State>, acts: seq<(Tid, Action)>)
  {
    |run| == |acts| + 1 && Initial(run[0])
    && (forall i :: 0 <= i < |acts| ==> Do(idle, run[i], run[i + 1], acts[i].0, acts[i].1))
  }

  ghost predicate Bounded(idle: int, run: seq<State>) { forall i :: 0 <= i < |run| ==> HoldBound(idle, run[i]) }

  ghost predicate NoRequests(s: State) { forall t :: t in s.threads ==> !IsRequest(s.threads[t]) }

  /** Every closeAll begins with no request in flight, as Handler.Close asks of its callers. */
  ghost predicate QuietCloses(run: seq<State>, acts: seq<(Tid, Action)>)
  {
    forall i :: 0 <= i < |acts| && i < |run| && acts[i].1 == CloseAll ==> NoRequests(run[i])
  }

  // ----- invariants -----

  /** The entry whose lock a thread holds. */
  function Holds(pc: Pc): (e: Option<Eid>) { if pc.Held? || pc.Ready? || pc.WorkHeld? then Some(pc.e) else None }

  /** The entries a thread took out of the map and has not dealt with. */
  function Taken(pc: Pc): (es: set<Eid>) { if pc.Work? then pc.todo else if pc.WorkHeld? then pc.todo + {pc.e} else {} }

  ghost predicate LockInv(s: State)
  {
    forall t :: t in s.threads && Holds(s.threads[t]).Some? ==>
      Holds(s.threads[t]).value in s.g.locks && s.g.locks[Holds(s.threads[t]).value] == t
  }

  ghost predicate MapInv(s: State)
  {
    forall k :: k in s.g.entries ==> s.g.entries[k] in s.g.ent && s.g.ent[s.g.entries[k]].key == k
  }

  /** Every request's entry is in the map, and was last used no earlier than the request got it. */
  ghost predicate RequestInv(s: State)
  {
    forall t :: t in s.threads && IsRequest(s.threads[t]) ==> RequestOf(s.g, s.threads[t])
  }

  ghost predicate RequestOf(g: Shared, pc: Pc)
    requires IsRequest(pc)
  {
    InMap(g, pc.e) && pc.since <= g.ent[pc.e].lastUsed && pc.since <= g.clock && (pc.Ready? ==> g.ent[pc.e].session.Some?)
  }

  /** Sessions and open connections: one entry each. */
  ghost predicate LinkInv(g: Shared)
  {
    (forall c :: c in g.live ==> c in g.owner && g.owner[c] in g.ent && g.ent[g.owner[c]].session == Some(c))
    && (forall e :: e in g.ent && g.ent[e].session.Some? ==>
          g.ent[e].session.value in g.owner && g.owner[g.ent[e].session.value] == e)
  }

  /** Entries outside the map: those with a session are on the list of the thread that took them out. */
  ghost predicate TakenInv(s: State)
  {
    (forall t, e :: t in s.threads && e in Taken(s.threads[t]) ==>
       e in s.g.ent && !InMap(s.g, e) && e in s.g.takenBy && s.g.takenBy[e] == t)
    && (forall e :: e in s.g.ent && !InMap(s.g, e) && s.g.ent[e].session.Some? ==>
       e in s.g.takenBy && s.g.takenBy[e] in s.threads && e in Taken(s.threads[s.g.takenBy[e]]))
    && (forall t :: t in s.threads && s.threads[t].WorkHeld? ==> s.threads[t].e !in s.threads[t].todo)
  }

  ghost predicate CutInv(idle: int, s: State)
  {
    forall t :: t in s.threads && s.threads[t].ReapCut? ==> s.threads[t].cutoff <= s.g.clock - idle
  }

  ghost predicate Inv(idle: int, s: State)
  {
    LockInv(s) && MapInv(s) && RequestInv(s) && LinkInv(s.g) && TakenInv(s) && CutInv(idle, s)
  }

  // ----- a frame for the entries outside the map -----

  function PcOf(s: State, t: Tid): (pc: Pc) { if t in s.threads then s.threads[t] else Done }

  /** Entries stay where they are, in the map or out of it; outside it no session appears. */
  ghost predicate SamePlaces(g: Shared, g': Shared)
  {
    g'.takenBy == g.takenBy
    && (forall x :: x in g.ent ==> x in g'.ent && (InMap(g', x) <==> InMap(g, x)))
    && (forall x :: x in g'.ent && !InMap(g', x) && g'.ent[x].session.Some? ==> x in g.ent && g.ent[x].session.Some?)
  }

  /** A thread's list changes only by entries that have lost their session. */
  lemma TakenFrame(s: State, s': State, t: Tid)
    requires TakenInv(s) && Moves(s, s', t) && SamePlaces(s.g, s'.g)
    requires Taken(s'.threads[t]) <= Taken(PcOf(s, t))
    requires forall x :: x in Taken(PcOf(s, t)) && x !in Taken(s'.threads[t]) && x in s'.g.ent ==> s'.g.ent[x].session.None?
    requires s'.threads[t].WorkHeld? ==> s'.threads[t].e !in s'.threads[t].todo
    ensures TakenInv(s')
  {
    assert Taken(Done) == {};
    hide InMap, Taken;
  }

  // ----- requests -----

  /** A request changes nothing about entries but the session of its own. */
  ghost predicate OnlySession(g: Shared, g': Shared, e: Eid)
  {
    g'.entries == g.entries && g'.takenBy == g.takenBy && g'.clock == g.clock && g'.ent.Keys == g.ent.Keys
    && forall x :: x in g.ent ==>
         g'.ent[x].key == g.ent[x].key && g'.ent[x].lastUsed == g.ent[x].lastUsed
         && (x != e ==> g'.ent[x].session == g.ent[x].session)
  }

  lemma RequestChanges(g: Shared, g': Shared, t: Tid, pc: Pc, pc': Pc, a: Action)
    requires IsRequest(pc) && pc.e in g.ent && RequestStep(g, g', t, pc, pc', a)
    ensures OnlySession(g, g', pc.e) && (pc'.Done? || (IsRequest(pc') && pc'.e == pc.e && pc'.since == pc.since))
    ensures pc'.Ready? ==> g'.ent[pc.e].session.Some?
  {
  }

  lemma RequestLock(s: State, s': State, t: Tid, a: Action)
    requires LockInv(s) && t in s.threads && IsRequest(s.threads[t]) && s.threads[t].e in s.g.ent && Moves(s, s', t)
    requires RequestStep(s.g, s'.g, t, s.threads[t], s'.threads[t], a)
    ensures LockInv(s')
  {
  }

  lemma RequestLinks(s: State, s': State, t: Tid, a: Action)
    requires LinkInv(s.g) && t in s.threads && IsRequest(s.threads[t]) && s.threads[t].e in s.g.ent
    requires t in s'.threads && RequestStep(s.g, s'.g, t, s.threads[t], s'.threads[t], a)
    ensures LinkInv(s'.g)
  {
  }

  lemma OneHolder(s: State, t: Tid, u: Tid)
    requires LockInv(s) && t in s.threads && u in s.threads && t != u
    ensures Holds(s.threads[t]).None? || Holds(s.threads[t]) != Holds(s.threads[u])
  {
  }

  /** Two requests never use one entry's session at the same time, so other requests keep theirs. */
  lemma RequestOthers(s: State, s': State, t: Tid)
    requires LockInv(s) && LockInv(s') && MapInv(s) && RequestInv(s) && t in s.threads && IsRequest(s.threads[t])
    requires Moves(s, s', t) && OnlySession(s.g, s'.g, s.threads[t].e)
    requires s'.threads[t].Done? || (IsRequest(s'.threads[t]) && s'.threads[t].e == s.threads[t].e
                                     && s'.threads[t].since == s.threads[t].since)
    requires s'.threads[t].Ready? ==> s'.g.ent[s.threads[t].e].session.Some?
    requires s.threads[t].Got? ==> s'.g.ent == s.g.ent
    ensures MapInv(s') && RequestInv(s')
  {
    var e := s.threads[t].e;
    forall u | u in s'.threads && u != t && IsRequest(s'.threads[u]) ensures RequestOf(s'.g, s'.threads[u]) {
      assert RequestOf(s.g, s.threads[u]);
      OneHolder(s, t, u);
    }
  }

  lemma RequestTaken(idle: int, s: State, s': State, t: Tid)
    requires TakenInv(s) && CutInv(idle, s) && t in s.threads && IsRequest(s.threads[t]) && InMap(s.g, s.threads[t].e)
    requires Moves(s, s', t) && OnlySession(s.g, s'.g, s.threads[t].e)
    requires s'.threads[t].Done? || IsRequest(s'.threads[t])
    ensures TakenInv(s') && CutInv(idle, s')
  {
    TakenFrame(s, s', t);
    hide TakenInv;
  }

  lemma RequestKept(idle: int, s: State, s': State, t: Tid, a: Action)
    requires Inv(idle, s) && t in s.threads && IsRequest(s.threads[t]) && s.threads[t].e in s.g.ent && Moves(s, s', t)
    requires RequestStep(s.g, s'.g, t, s.threads[t], s'.threads[t], a)
    ensures Inv(idle, s')
  {
    RequestChanges(s.g, s'.g, t, s.threads[t], s'.threads[t], a);
    RequestLock(s, s', t, a);
    RequestLinks(s, s', t, a);
    assert s.threads[t].Got? ==> s'.g.ent == s.g.ent;
    assert RequestOf(s.g, s.threads[t]);
    hide RequestStep, LockInv, LinkInv, MapInv, TakenInv, OnlySession;
    RequestOthers(s, s', t);
    RequestTaken(idle, s, s', t);
  }

  // ----- reaps and closeAll -----

  lemma WorkLock(idle: int, s: State, s': State, t: Tid, a: Action)
    requires LockInv(s) && t in s.threads && !IsRequest(s.threads[t]) && Moves(s, s', t)
    requires WorkStep(idle, s.g, s'.g, t, s.threads[t], s'.threads[t], a)
    ensures LockInv(s')
  {
  }

  lemma CloseSessionLinks(g: Shared, e: Eid)
    requires LinkInv(g) && e in g.ent
    ensures LinkInv(Unlock(CloseSession(g, e), e))
  {
  }

  lemma WithoutPlaces(g: Shared, g': Shared, es: set<Eid>)
    requires (forall k :: k in g.entries ==> g.entries[k] in g.ent && g.ent[g.entries[k]].key == k)
    requires g'.entries == Without(g.entries, es) && g'.ent == g.ent
    ensures forall e :: InMap(g', e) <==> InMap(g, e) && e !in es
  {
  }

  lemma TakenByFacts(g: Shared, es: set<Eid>, t: Tid)
    ensures forall e :: e in es ==> e in TakenBy(g, es, t) && TakenBy(g, es, t)[e] == t
    ensures forall e :: e !in es && e in g.takenBy ==> e in TakenBy(g, es, t) && TakenBy(g, es, t)[e] == g.takenBy[e]
  {
  }

  lemma NewListTaken(s: State, s': State, t: Tid, es: set<Eid>)
    requires TakenInv(s) && Moves(s, s', t) && Taken(PcOf(s, t)) == {} && Taken(s'.threads[t]) == es && s'.threads[t].Work?
    requires s'.g.ent == s.g.ent && (forall e :: e in es ==> e in s.g.ent && InMap(s.g, e))
    requires forall e :: InMap(s'.g, e) <==> InMap(s.g, e) && e !in es
    requires forall e :: e in es ==> e in s'.g.takenBy && s'.g.takenBy[e] == t
    requires forall e :: e !in es && e in s.g.takenBy ==> e in s'.g.takenBy && s'.g.takenBy[e] == s.g.takenBy[e]
    ensures TakenInv(s')
  {
    hide InMap, Taken;
  }

  /** Taking entries out of the map puts them on the thread's list, and leaves everyone else's alone. */
  lemma TakeOut(s: State, s': State, t: Tid, es: set<Eid>)
    requires MapInv(s) && TakenInv(s) && Moves(s, s', t)
    requires Taken(PcOf(s, t)) == {}
    requires forall e :: e in es ==> InMap(s.g, e)
    requires s'.threads[t] == Work(es)
    requires s'.g == s.g.(entries := Without(s.g.entries, es), takenBy := TakenBy(s.g, es, t))
    ensures MapInv(s') && TakenInv(s')
    ensures forall e :: InMap(s'.g, e) <==> InMap(s.g, e) && e !in es
  {
    WithoutPlaces(s.g, s'.g, es);
    assert MapInv(s');
    assert forall e :: e in es ==> e in s.g.ent;
    assert Taken(s'.threads[t]) == es;
    TakenByFacts(s.g, es, t);
    hide InMap, Taken, Without, MapInv, TakenBy, PcOf;
    NewListTaken(s, s', t, es);
  }

  /** The heart of the matter: a reap's cutoff spares every entry a request is using. */
  lemma ReapSparesRequests(idle: int, s: State, t: Tid, u: Tid)
    requires Inv(idle, s) && HoldBound(idle, s)
    requires t in s.threads && s.threads[t].ReapCut? && u in s.threads && IsRequest(s.threads[u])
    ensures s.threads[u].e !in Stale(s.g.entries, s.g.ent, s.threads[t].cutoff)
  {
    assert RequestOf(s.g, s.threads[u]);
  }

  lemma SelectKept(idle: int, s: State, s': State, t: Tid)
    requires Inv(idle, s) && HoldBound(idle, s) && t in s.threads && Moves(s, s', t)
    requires WorkStep(idle, s.g, s'.g, t, s.threads[t], s'.threads[t], Select)
    ensures Inv(idle, s')
  {
    var es := Stale(s.g.entries, s.g.ent, s.threads[t].cutoff);
    forall e | e in es ensures InMap(s.g, e) {
      var k :| k in s.g.entries && s.g.entries[k] == e;
    }
    TakeOut(s, s', t, es);
    forall u | u in s'.threads && IsRequest(s'.threads[u]) ensures RequestOf(s'.g, s'.threads[u]) {
      ReapSparesRequests(idle, s, t, u);
      assert RequestOf(s.g, s.threads[u]);
      assert InMap(s'.g, s.threads[u].e);
    }
  }

  lemma CloseAllKept(idle: int, s: State, s': State, t: Tid)
    requires Inv(idle, s) && NoRequests(s) && t !in s.threads && Moves(s, s', t) && CloseAllStep(s, s', t)
    ensures Inv(idle, s')
  {
    var es := s.g.entries.Values;
    forall e | e in es ensures InMap(s.g, e) {
      var k :| k in s.g.entries && s.g.entries[k] == e;
    }
    assert Without(s.g.entries, es) == map[];
    TakeOut(s, s', t, es);
  }

  /** One entry of a list is closed under its lock. */
  lemma CloseEntryKept(idle: int, s: State, s': State, t: Tid)
    requires Inv(idle, s) && t in s.threads && Moves(s, s', t)
    requires WorkStep(idle, s.g, s'.g, t, s.threads[t], s'.threads[t], CloseEntry)
    ensures Inv(idle, s')
  {
    var e := s.threads[t].e;
    CloseSessionLinks(s.g, e);
    WorkLock(idle, s, s', t, CloseEntry);
    assert e in Taken(s.threads[t]) && !InMap(s.g, e);
    assert OnlySession(s.g, s'.g, e) && s'.g.ent[e].session.None?;
    assert Taken(s.threads[t]) == Taken(s'.threads[t]) + {e};
    hide WorkStep, LockInv, LinkInv, CloseSession;
    TakenFrame(s, s', t);
    hide TakenInv, Taken;
    RequestsUntouched(s, s', t, e);
  }

  /** Requests do not notice what happens to an entry outside the map. */
  lemma RequestsUntouched(s: State, s': State, t: Tid, e: Eid)
    requires MapInv(s) && RequestInv(s) && Moves(s, s', t) && !IsRequest(s'.threads[t])
    requires OnlySession(s.g, s'.g, e) && !InMap(s.g, e)
    ensures MapInv(s') && RequestInv(s')
  {
    forall u | u in s'.threads && IsRequest(s'.threads[u]) ensures RequestOf(s'.g, s'.threads[u]) {
      assert RequestOf(s.g, s.threads[u]);
    }
  }

  lemma OtherWorkKept(idle: int, s: State, s': State, t: Tid, a: Action)
    requires Inv(idle, s) && t in s.threads && !IsRequest(s.threads[t]) && Moves(s, s', t)
    requires WorkStep(idle, s.g, s'.g, t, s.threads[t], s'.threads[t], a) && !a.Select? && !a.CloseEntry?
    ensures Inv(idle, s')
  {
    WorkLock(idle, s, s', t, a);
    assert s'.g == s.g.(locks := s'.g.locks) && !IsRequest(s'.threads[t]);
    assert Taken(s'.threads[t]) == Taken(s.threads[t]) && (s'.threads[t].WorkHeld? ==> s'.threads[t].e !in s'.threads[t].todo);
    assert s'.threads[t].ReapCut? ==> s'.threads[t].cutoff <= s.g.clock - idle;
    hide WorkStep, LockInv;
    TakenFrame(s, s', t);
    hide TakenInv, Taken;
  }

  // ----- beginnings and the clock -----

  lemma BeginPlaces(g: Shared, g': Shared, pc': Pc, a: Action)
    requires BeginStep(g, g', pc', a)
    ensures SamePlaces(g, g') && Taken(pc') == {} && Holds(pc').None? && !pc'.ReapCut? && g'.locks == g.locks && g'.clock == g.clock
    ensures Taken(Done) == {} && !pc'.WorkHeld?
  {
  }

  lemma BeginLinks(g: Shared, g': Shared, pc': Pc, a: Action)
    requires BeginStep(g, g', pc', a) && LinkInv(g)
    ensures LinkInv(g')
  {
  }

  lemma BeginRequests(s: State, s': State, t: Tid, a: Action)
    requires MapInv(s) && RequestInv(s) && t !in s.threads && Moves(s, s', t) && BeginStep(s.g, s'.g, s'.threads[t], a)
    ensures MapInv(s') && RequestInv(s')
  {
  }

  lemma BeginKept(idle: int, s: State, s': State, t: Tid, a: Action)
    requires Inv(idle, s) && t !in s.threads && Moves(s, s', t) && BeginStep(s.g, s'.g, s'.threads[t], a)
    ensures Inv(idle, s')
  {
    hide BeginStep, LinkInv, MapInv, RequestInv, TakenInv, SamePlaces, Taken, InMap;
    BeginPlaces(s.g, s'.g, s'.threads[t], a);
    BeginLinks(s.g, s'.g, s'.threads[t], a);
    BeginRequests(s, s', t, a);
    TakenFrame(s, s', t);
  }

  lemma TickKept(idle: int, s: State, s': State, d: nat)
    requires Inv(idle, s) && s'.threads == s.threads && s'.g == s.g.(clock := s.g.clock + d)
    ensures Inv(idle, s')
  {
    assert forall x :: InMap(s'.g, x) <==> InMap(s.g, x);
  }

  lemma StepKept(idle: int, s: State, s': State, t: Tid, a: Action)
    requires Inv(idle, s) && HoldBound(idle, s) && (a == CloseAll ==> NoRequests(s)) && Do(idle, s, s', t, a)
    ensures Inv(idle, s')
  {
    hide Inv, HoldBound, NoRequests, RequestStep, WorkStep, BeginStep, CloseAllStep, Moves;
    match a
    case Tick(d) => TickKept(idle, s, s', d);
    case CloseAll => CloseAllKept(idle, s, s', t);
    case GetOld(_) => BeginKept(idle, s, s', t, a);
    case GetNew(_, _) => BeginKept(idle, s, s', t, a);
    case SpawnReap => BeginKept(idle, s, s', t, a);
    case _ =>
      if IsRequest(s.threads[t]) {
        RequestKept(idle, s, s', t, a);
      } else if a.Select? {
        SelectKept(idle, s, s', t);
      } else if a.CloseEntry? {
        CloseEntryKept(idle, s, s', t);
      } else {
        OtherWorkKept(idle, s, s', t, a);
      }
  }

  lemma {:induction false} RunKeepsInv(idle: int, run: seq<State>, acts: seq<(Tid, Action)>, i: nat)
    requires IsRun(idle, run, acts) && Bounded(idle, run) && QuietCloses(run, acts) && i < |run|
    ensures Inv(idle, run[i])
  {
    hide Do;
    if i > 0 {
      hide Inv, HoldBound, NoRequests, Initial;
      RunKeepsInv(idle, run, acts, i - 1);
      assert Do(idle, run[i - 1], run[i - 1 + 1], acts[i - 1].0, acts[i - 1].1);
      StepKept(idle, run[i - 1], run[i], acts[i - 1].0, acts[i - 1].1);
    }
  }

  // ----- main results -----

  /** An open connection is the session of an entry that is in the map, or on the list of a thread that took
      the entry out and will close it. */
  ghost predicate Tracked(s: State, c: Link)
  {
    c in s.g.owner && s.g.owner[c] in s.g.ent && s.g.ent[s.g.owner[c]].session == Some(c)
    && (InMap(s.g, s.g.owner[c])
        || (s.g.owner[c] in s.g.takenBy && s.g.takenBy[s.g.owner[c]] in s.threads
            && s.g.owner[c] in Taken(s.threads[s.g.takenBy[s.g.owner[c]]])))
  }

  /** Main result. In every run that keeps the hold bound, every open session is tracked in every state. */
  lemma EverySessionIsTracked(idle: int, run: seq<State>, acts: seq<(Tid, Action)>, i: nat, c: Link)
    requires IsRun(idle, run, acts) && Bounded(idle, run) && QuietCloses(run, acts) && i < |run| && c in run[i].g.live
    ensures Tracked(run[i], c)
  {
    hide IsRun, Bounded, QuietCloses;
    RunKeepsInv(idle, run, acts, i);
    hide LockInv, MapInv, RequestInv, CutInv;
  }

  /** Main result. In such a run no reap ever evicts an entry a request is using: from its get to its unlock,
      a request's entry is the one the map holds for its key. */
  lemma RequestsKeepTheirEntries(idle: int, run: seq<State>, acts: seq<(Tid, Action)>, i: nat, t: Tid)
    requires IsRun(idle, run, acts) && Bounded(idle, run) && QuietCloses(run, acts) && i < |run|
    requires t in run[i].threads && IsRequest(run[i].threads[t])
    ensures InMap(run[i].g, run[i].threads[t].e)
  {
    hide IsRun, Bounded, QuietCloses;
    RunKeepsInv(idle, run, acts, i);
    hide LockInv, MapInv, TakenInv, LinkInv, CutInv;
    assert RequestOf(run[i].g, run[i].threads[t]);
  }

  /** The map and the sessions, which neither a slow request nor a closeAll among requests can upset. */
  ghost predicate Structure(s: State) { MapInv(s) && LinkInv(s.g) }

  lemma StructureKept(idle: int, s: State, s': State, t: Tid, a: Action)
    requires Structure(s) && Do(idle, s, s', t, a)
    ensures Structure(s')
  {
    hide LinkInv;
    if a.GetOld? || a.GetNew? || a.SpawnReap? {
      BeginLinks(s.g, s'.g, s'.threads[t], a);
    } else if !a.Tick? && !a.CloseAll? {
      if IsRequest(s.threads[t]) {
        RequestLinks(s, s', t, a);
        RequestChanges(s.g, s'.g, t, s.threads[t], s'.threads[t], a);
        hide RequestStep;
      } else if a.CloseEntry? {
        CloseSessionLinks(s.g, s.threads[t].e);
      } else {
        SameLinks(s.g, s'.g);
      }
    } else {
      SameLinks(s.g, s'.g);
    }
  }

  lemma SameLinks(g: Shared, g': Shared)
    requires LinkInv(g) && g'.live == g.live && g'.owner == g.owner && g'.ent == g.ent
    ensures LinkInv(g')
  {
  }

  lemma {:induction false} RunKeepsStructure(idle: int, run: seq<State>, acts: seq<(Tid, Action)>, i: nat)
    requires IsRun(idle, run, acts) && i < |run|
    ensures Structure(run[i])
  {
    hide Do;
    if i > 0 {
      hide Structure, Initial;
      RunKeepsStructure(idle, run, acts, i - 1);
      assert Do(idle, run[i - 1], run[i - 1 + 1], acts[i - 1].0, acts[i - 1].1);
      StructureKept(idle, run[i - 1], run[i], acts[i - 1].0, acts[i - 1].1);
    }
  }

  /** In every run whatever, distinct entries never share a session. */
  lemma SessionsAreNotShared(idle: int, run: seq<State>, acts: seq<(Tid, Action)>, i: nat, d: Eid, e: Eid)
    requires IsRun(idle, run, acts) && i < |run|
    requires d in run[i].g.ent && e in run[i].g.ent && run[i].g.ent[d].session.Some?
    requires run[i].g.ent[d].session == run[i].g.ent[e].session
    ensures d == e
  {
    hide IsRun;
    RunKeepsStructure(idle, run, acts, i);
    hide MapInv;
  }

  /** A lock is held exactly by the thread that is in the section it guards. */
  ghost predicate LocksExact(s: State)
  {
    LockInv(s) && forall e :: e in s.g.locks ==> HeldBy(s, e, s.g.locks[e])
  }

  ghost predicate HeldBy(s: State, e: Eid, t: Tid) { t in s.threads && Holds(s.threads[t]) == Some(e) }

  lemma LocksKept(idle: int, s: State, s': State, t: Tid, a: Action)
    requires LocksExact(s) && Do(idle, s, s', t, a)
    ensures LocksExact(s')
  {
    if a.Tick? || a.CloseAll? || a.GetOld? || a.GetNew? || a.SpawnReap? {
      LocksUntouched(idle, s, s', t, a);
    } else {
      if IsRequest(s.threads[t]) {
        RequestLock(s, s', t, a);
        RequestLockMoves(s.g, s'.g, t, s.threads[t], s'.threads[t], a);
      } else {
        WorkLock(idle, s, s', t, a);
        WorkLockMoves(idle, s.g, s'.g, t, s.threads[t], s'.threads[t], a);
      }
      hide RequestStep, WorkStep, Holds;
    }
  }

  lemma LocksUntouched(idle: int, s: State, s': State, t: Tid, a: Action)
    requires LocksExact(s) && Do(idle, s, s', t, a) && (a.Tick? || a.CloseAll? || a.GetOld? || a.GetNew? || a.SpawnReap?)
    ensures LocksExact(s')
  {
    hide RequestStep, WorkStep;
  }

  /** The locks after a step of t: those before, with t's old one released and its new one taken. */
  ghost predicate LockMoves(g: Shared, g': Shared, t: Tid, pc: Pc, pc': Pc)
  {
    forall e :: e in g'.locks ==>
      if Holds(pc') == Some(e) then g'.locks[e] == t else e in g.locks && g'.locks[e] == g.locks[e] && Holds(pc) != Some(e)
  }

  lemma RequestLockMoves(g: Shared, g': Shared, t: Tid, pc: Pc, pc': Pc, a: Action)
    requires IsRequest(pc) && pc.e in g.ent && RequestStep(g, g', t, pc, pc', a)
    requires Holds(pc).Some? ==> pc.e in g.locks && g.locks[pc.e] == t
    ensures LockMoves(g, g', t, pc, pc')
  {
  }

  lemma WorkLockMoves(idle: int, g: Shared, g': Shared, t: Tid, pc: Pc, pc': Pc, a: Action)
    requires !IsRequest(pc) && WorkStep(idle, g, g', t, pc, pc', a)
    requires Holds(pc).Some? ==> Holds(pc).value in g.locks && g.locks[Holds(pc).value] == t
    ensures LockMoves(g, g', t, pc, pc')
  {
  }

  /** In every run whatever, an entry's lock is held if and only if some thread is in the section it guards, and by that thread. */
  lemma {:induction false} LocksAreReleased(idle: int, run: seq<State>, acts: seq<(Tid, Action)>, i: nat)
    requires IsRun(idle, run, acts) && i < |run|
    ensures LocksExact(run[i])
  {
    hide Do;
    if i > 0 {
      hide LocksExact, Initial;
      LocksAreReleased(idle, run, acts, i - 1);
      assert Do(idle, run[i - 1], run[i - 1 + 1], acts[i - 1].0, acts[i - 1].1);
      LocksKept(idle, run[i - 1], run[i], acts[i - 1].0, acts[i - 1].1);
    }
  }

  /** So no lock outlives the threads: a later request, reap or closeAll never finds an entry locked by nobody. */
  lemma NoLockOutlivesItsThread(idle: int, run: seq<State>, acts: seq<(Tid, Action)>, i: nat, e: Eid)
    requires IsRun(idle, run, acts) && i < |run| && e in run[i].g.locks
    ensures var t := run[i].g.locks[e];
            t in run[i].threads && run[i].threads[t] != Done && Holds(run[i].threads[t]) == Some(e)
  {
    LocksAreReleased(idle, run, acts, i);
    hide IsRun, LockInv;
    assert HeldBy(run[i], e, run[i].g.locks[e]);
  }

  /** A reap that has computed its cutoff keeps it until it selects. */
  lemma {:induction false} CutoffStays(idle: int, run: seq<State>, acts: seq<(Tid, Action)>, i: nat, j: nat, t: Tid)
    requires IsRun(idle, run, acts) && i < j < |run| && acts[i] == (t, Cutoff)
    requires forall k :: i < k < j ==> acts[k] != (t, Select)
    ensures t in run[j].threads && run[j].threads[t] == ReapCut(run[i].g.clock - idle)
  {
    assert Do(idle, run[j - 1], run[j - 1 + 1], acts[j - 1].0, acts[j - 1].1);
    if j > i + 1 {
      CutoffStays(idle, run, acts, i, j - 1, t);
      CutoffStep(idle, run[j - 1], run[j], t, acts[j - 1].0, acts[j - 1].1);
    }
  }

  lemma CutoffStep(idle: int, s: State, s': State, t: Tid, u: Tid, a: Action)
    requires Do(idle, s, s', u, a) && t in s.threads && s.threads[t].ReapCut? && !(u == t && a == Select)
    ensures t in s'.threads && s'.threads[t] == s.threads[t]
  {
    hide RequestStep;
  }

  /** What a reap evicts, in every run whatever: of the entries in the map when it selects, exactly those not used since one idle
      timeout before it looked at the clock; those go on its list, and all others stay. */
  lemma ReapEvictsExactly(idle: int, run: seq<State>, acts: seq<(Tid, Action)>, i: nat, j: nat, t: Tid, e: Eid)
    requires IsRun(idle, run, acts) && i < j < |acts| && acts[i] == (t, Cutoff) && acts[j] == (t, Select)
    requires forall k :: i < k < j ==> acts[k] != (t, Select)
    requires InMap(run[j].g, e)
    ensures var idled := run[j].g.ent[e].lastUsed < run[i].g.clock - idle;
            (InMap(run[j + 1].g, e) <==> !idled) && t in run[j + 1].threads && (e in Taken(run[j + 1].threads[t]) <==> idled)
  {
    CutoffStays(idle, run, acts, i, j, t);
    RunKeepsStructure(idle, run, acts, j);
    assert Do(idle, run[j], run[j + 1], acts[j].0, acts[j].1);
    hide IsRun, LinkInv, RequestStep;
    SelectTakes(idle, run[j], run[j + 1], t, e);
  }

  lemma SelectTakes(idle: int, s: State, s': State, t: Tid, e: Eid)
    requires MapInv(s) && Do(idle, s, s', t, Select) && s.threads[t].ReapCut? && InMap(s.g, e)
    ensures var idled := s.g.ent[e].lastUsed < s.threads[t].cutoff;
            (InMap(s'.g, e) <==> !idled) && t in s'.threads && (e in Taken(s'.threads[t]) <==> idled)
  {
    hide RequestStep;
    var es := Stale(s.g.entries, s.g.ent, s.threads[t].cutoff);
    var k := s.g.ent[e].key;
    assert e in es <==> s.g.ent[e].lastUsed < s.threads[t].cutoff by {
      if s.g.ent[e].lastUsed < s.threads[t].cutoff {
        assert s.g.entries[k] in es;
      }
    }
  }

  ghost predicate NoGets(acts: seq<(Tid, Action)>, i: nat)
  {
    forall j :: i <= j < |acts| ==> !acts[j].1.GetOld? && !acts[j].1.GetNew?
  }

  lemma {:induction false} MapStaysEmpty(idle: int, run: seq<State>, acts: seq<(Tid, Action)>, i: nat, j: nat)
    requires IsRun(idle, run, acts) && i <= j < |run| && run[i].g.entries == map[] && NoGets(acts, i)
    ensures run[j].g.entries == map[]
  {
    if i < j {
      MapStaysEmpty(idle, run, acts, i, j - 1);
      assert Do(idle, run[j - 1], run[j - 1 + 1], acts[j - 1].0, acts[j - 1].1);
      EmptyStep(idle, run[j - 1], run[j], acts[j - 1].0, acts[j - 1].1);
    }
  }

  lemma EmptyStep(idle: int, s: State, s': State, t: Tid, a: Action)
    requires Do(idle, s, s', t, a) && s.g.entries == map[] && !a.GetOld? && !a.GetNew?
    ensures s'.g.entries == map[]
  {
  }

  /** Main result. After closeAll, with no request begun since, once all threads are done no session is open. */
  lemma NothingOpenAfterClose(idle: int, run: seq<State>, acts: seq<(Tid, Action)>, i: nat, j: nat)
    requires IsRun(idle, run, acts) && Bounded(idle, run) && QuietCloses(run, acts) && i < j < |run|
    requires acts[i].1 == CloseAll && NoGets(acts, i)
    requires forall t :: t in run[j].threads ==> run[j].threads[t] == Done
    ensures run[j].g.live == {}
  {
    assert Do(idle, run[i], run[i + 1], acts[i].0, acts[i].1);
    assert run[i + 1].g.entries == map[];
    hide Do, Bounded, QuietCloses;
    MapStaysEmpty(idle, run, acts, i + 1, j);
    forall c | c in run[j].g.live ensures false {
      EverySessionIsTracked(idle, run, acts, j, c);
    }
  }

  /** A run in which a request waits for its entry's lock until `now`, while its entry is evicted. */
  ghost function LeakShared(now: int, i: nat): (g: Shared)
  {
    var k: Key := [1];
    var first := map[0 := Entry(k, None, 0)];
    if i == 0 then Shared(0, map[], map[], map[], {}, map[], map[])
    else if i == 1 then Shared(0, map[k := 0], first, map[], {}, map[], map[])
    else if i <= 4 then Shared(now, map[k := 0], first, map[], {}, map[], map[])
    else if i == 6 then Shared(now, map[], first, map[0 := 1], {}, map[], map[0 := 1])
    else if i <= 8 then Shared(now, map[], first, map[], {}, map[], map[0 := 1])
    else if i == 9 then Shared(now, map[], first, map[0 := 0], {}, map[], map[0 := 1])
    else Shared(now, map[], map[0 := Entry(k, Some(0), 0)], if i == 10 then map[0 := 0] else map[], {0}, map[0 := 0], map[0 := 1])
  }

  ghost function LeakThreads(i: nat): (m: map<Tid, Pc>)
  {
    if i == 0 then map[]
    else if i <= 2 then map[0 := Got(0, 0)]
    else if i <= 8 then
      map[0 := Got(0, 0),
          1 := if i == 3 then ReapStart else if i == 4 then ReapCut(1) else if i == 5 then Work({0})
               else if i == 6 then WorkHeld(0, {}) else if i == 7 then Work({}) else Done]
    else map[0 := if i == 9 then Held(0, 0) else if i == 10 then Ready(0, 0) else Done, 1 := Done]
  }

  ghost function LeakState(now: int, i: nat): (s: State) { State(LeakShared(now, i), LeakThreads(i)) }

  ghost function LeakAct(now: nat, i: nat): (a: (Tid, Action))
  {
    if i == 0 then (0, GetNew([1], 0))
    else if i == 1 then (0, Tick(now))
    else if i == 2 then (1, SpawnReap)
    else if i == 3 then (1, Cutoff)
    else if i == 4 then (1, Select)
    else if i == 5 then (1, TakeEntry(0))
    else if i == 6 then (1, CloseEntry)
    else if i == 7 then (1, EndWork)
    else if i == 8 then (0, LockEntry)
    else if i == 9 then (0, DialOk(0))
    else (0, Keep)
  }

  ghost predicate LeakStepOk(idle: int, now: nat, i: nat)
  {
    Do(idle, LeakState(now, i), LeakState(now, i + 1), LeakAct(now, i).0, LeakAct(now, i).1)
  }

  lemma LeakBegins(idle: nat, now: nat)
    requires now == idle + 1
    ensures LeakStepOk(idle, now, 0) && LeakStepOk(idle, now, 1)
  {
  }

  lemma LeakReapBegins(idle: nat, now: nat)
    requires now == idle + 1
    ensures LeakStepOk(idle, now, 2) && LeakStepOk(idle, now, 3)
  {
    assert LeakThreads(2)[1 := ReapStart] == LeakThreads(3);
    assert LeakThreads(3)[1 := ReapCut(1)] == LeakThreads(4);
  }

  lemma LeakSelect(idle: nat, now: nat)
    requires now == idle + 1
    ensures LeakStepOk(idle, now, 4)
  {
    var g := LeakShared(now, 4);
    var k: Key := [1];
    assert Stale(g.entries, g.ent, 1) == {0} by { assert k in g.entries && g.entries[k] == 0; }
    assert Without(g.entries, {0}) == map[] && TakenBy(g, {0}, 1) == map[0 := 1];
    assert LeakThreads(4)[1 := Work({0})] == LeakThreads(5);
  }

  lemma LeakTake(idle: int, now: nat)
    ensures LeakStepOk(idle, now, 5)
  {
    assert {0} - {0} == {};
    assert LeakThreads(5)[1 := WorkHeld(0, {})] == LeakThreads(6);
  }

  lemma LeakCloses(idle: int, now: nat)
    ensures LeakStepOk(idle, now, 6)
  {
    var g := LeakShared(now, 6);
    assert Unlock(CloseSession(g, 0), 0) == LeakShared(now, 7) by {
      assert g.ent[0 := g.ent[0].(session := None)] == g.ent && g.locks - {0} == map[];
    }
    assert LeakThreads(6)[1 := Work({})] == LeakThreads(7);
  }

  lemma LeakWorkEnds(idle: int, now: nat)
    ensures LeakStepOk(idle, now, 7)
  {
    assert LeakThreads(7)[1 := Done] == LeakThreads(8);
  }

  lemma LeakLocks(idle: int, now: nat)
    ensures LeakStepOk(idle, now, 8)
  {
    assert LeakThreads(8)[0 := Held(0, 0)] == LeakThreads(9);
  }

  lemma LeakDials(idle: int, now: nat)
    ensures LeakStepOk(idle, now, 9)
  {
    var g, h := LeakShared(now, 9), LeakShared(now, 10);
    assert g.ent[0 := g.ent[0].(session := Some(0))] == h.ent && {} + {0} == h.live;
    assert LeakThreads(9)[0 := Ready(0, 0)] == LeakThreads(10);
  }

  lemma LeakKeeps(idle: int, now: nat)
    ensures LeakStepOk(idle, now, 10)
  {
    assert LeakShared(now, 10).locks - {0} == map[];
    assert LeakThreads(10)[0 := Done] == LeakThreads(11);
  }

  /** The steps from the eviction on do not depend on who evicted, or when. */
  lemma LeakAfterEviction(idle: int, now: nat, i: nat)
    requires 5 <= i <= 10
    ensures LeakStepOk(idle, now, i)
  {
    hide LeakStepOk;
    LeakTake(idle, now);
    LeakCloses(idle, now);
    LeakWorkEnds(idle, now);
    LeakLocks(idle, now);
    LeakDials(idle, now);
    LeakKeeps(idle, now);
  }

  /** An open session nobody tracks, and nobody left to close it. */
  ghost predicate Leaked(s: State)
  {
    s.g.live == {0} && !Tracked(s, 0) && s.g.entries == map[] && forall t :: t in s.threads ==> s.threads[t] == Done
  }

  lemma LeakStarts(idle: nat, now: nat)
    ensures Initial(LeakState(now, 0)) && Leaked(LeakState(now, 11))
    ensures now > idle ==> !HoldBound(idle, LeakState(now, 2))
  {
    assert LeakThreads(2)[0] == Got(0, 0);
  }

  /** Why the hold bound is needed: a request that waits longer than the idle timeout for its entry's lock can
      find the entry evicted and already closed, dial a session into it, and leave that session open with no
      thread and no map entry to ever close it. */
  lemma SlowRequestLeaksSession(idle: nat) returns (run: seq<State>, acts: seq<(Tid, Action)>)
    requires idle > 0
    ensures IsRun(idle, run, acts) && QuietCloses(run, acts) && !Bounded(idle, run) && Leaked(run[|run| - 1])
  {
    hide Do, LeakState, LeakAct, Leaked, HoldBound, Initial;
    var now := idle + 1;
    run := seq(12, (i: nat) => LeakState(now, i));
    acts := seq(11, (i: nat) => LeakAct(now, i));
    LeakBegins(idle, now);
    LeakReapBegins(idle, now);
    LeakSelect(idle, now);
    LeakStarts(idle, now);
    assert !HoldBound(idle, run[2]);
    forall i | 0 <= i < 11 ensures Do(idle, run[i], run[i + 1], acts[i].0, acts[i].1) && acts[i].1 != CloseAll {
      if i >= 5 { LeakAfterEviction(idle, now, i); }
      assert LeakStepOk(idle, now, i);
      assert LeakAct(now, i).1 != CloseAll by { NoCloseAll(now, i); }
    }
  }

  lemma NoCloseAll(now: nat, i: nat)
    ensures LeakAct(now, i).1 != CloseAll
  {
  }

  lemma LeakCloseAll(idle: int)
    ensures Do(idle, LeakState(0, 1), LeakState(0, 5), 1, CloseAll)
  {
    var g := LeakShared(0, 1);
    var k: Key := [1];
    assert g.entries.Values == {0} by { assert k in g.entries && g.entries[k] == 0; }
    assert TakenBy(g, {0}, 1) == map[0 := 1];
    assert LeakThreads(1)[1 := Work({0})] == LeakThreads(5);
  }

  /** Why closeAll must not race with a request: within the hold bound, the request's entry is taken out of the
      map and closed before the request locks it, and the session it then dials is left open. */
  lemma RacingCloseLeaksSession(idle: nat) returns (run: seq<State>, acts: seq<(Tid, Action)>)
    ensures IsRun(idle, run, acts) && Bounded(idle, run) && !QuietCloses(run, acts) && Leaked(run[|run| - 1])
  {
    hide Do, LeakState, LeakAct, Leaked, HoldBound, NoRequests, Initial;
    run := seq(9, (i: nat) => LeakState(0, if i < 2 then i else i + 3));
    acts := seq(8, (i: nat) => if i == 1 then (1, CloseAll) else LeakAct(0, if i == 0 then 0 else i + 3));
    LeakFirst(idle);
    LeakCloseAll(idle);
    LeakStarts(idle, 0);
    assert !NoRequests(run[1]) && acts[1].1 == CloseAll;
    forall i | 0 <= i < 8 ensures Do(idle, run[i], run[i + 1], acts[i].0, acts[i].1) {
      if i >= 2 { LeakAfterEviction(idle, 0, i + 3); assert LeakStepOk(idle, 0, i + 3); }
      if i == 0 { assert LeakStepOk(idle, 0, 0); }
    }
    forall i | 0 <= i < 9 ensures HoldBound(idle, run[i]) {
      NoWait(idle, if i < 2 then i else i + 3);
    }
  }

  lemma LeakFirst(idle: int)
    ensures LeakStepOk(idle, 0, 0) && !NoRequests(LeakState(0, 1))
  {
    assert LeakThreads(1)[0] == Got(0, 0);
  }

  lemma NoWait(idle: nat, i: nat)
    ensures HoldBound(idle, LeakState(0, i))
  {
  }

  // ----- keys -----

  /** cacheKey: address, NUL, password. */
  function CacheKey(addr: Bytes, password: Bytes): (k: Key) { addr + [0] + password }

  /** With addresses free of NUL, distinct backends have distinct keys. */
  lemma CacheKeyInjective(a: Bytes, p: Bytes, b: Bytes, q: Bytes)
    requires 0 !in a && 0 !in b && CacheKey(a, p) == CacheKey(b, q)
    ensures a == b && p == q
  {
    var k := CacheKey(a, p);
    assert k[..|a|] == a && k[|a|] == 0 && k[|a| + 1..] == p;
    assert k[..|b|] == b && k[|b|] == 0 && k[|b| + 1..] == q;
    AddressEndsAtNul(a, p, |b|);
    AddressEndsAtNul(b, q, |a|);
  }

  /** The address and password b, q split the key of a, p at a later NUL. */
  predicate SplitsLater(a: Bytes, p: Bytes, b: Bytes, q: Bytes) { a + [0] <= b && p == b[|a| + 1..] + [0] + q }

  /** For any addresses: two backends have one key exactly when they are the same, or one address continues
      the other after a NUL that the other password contains too. */
  lemma SameKeyIff(a: Bytes, p: Bytes, b: Bytes, q: Bytes)
    ensures CacheKey(a, p) == CacheKey(b, q)
       <==> (a == b && p == q) || SplitsLater(a, p, b, q) || SplitsLater(b, q, a, p)
  {
    SameKeyOrdered(a, p, b, q);
    SameKeyOrdered(b, q, a, p);
  }

  lemma SameKeyOrdered(a: Bytes, p: Bytes, b: Bytes, q: Bytes)
    ensures SplitsLater(a, p, b, q) ==> CacheKey(a, p) == CacheKey(b, q)
    ensures |a| <= |b| && CacheKey(a, p) == CacheKey(b, q) ==> (a == b && p == q) || SplitsLater(a, p, b, q)
  {
    if SplitsLater(a, p, b, q) {
      assert b == a + [0] + b[|a| + 1..];
    }
    if |a| <= |b| && CacheKey(a, p) == CacheKey(b, q) {
      var k := CacheKey(a, p);
      assert k[..|a|] == a && k[|a| + 1..] == p && k[|a|] == 0;
      assert k[..|b|] == b && k[|b| + 1..] == q && k[|b|] == 0;
      if |a| < |b| {
        assert b[..|a| + 1] == k[..|a| + 1] == a + [0];
        assert p == k[|a| + 1..|b|] + [0] + q;
        assert b[|a| + 1..] == k[|a| + 1..|b|];
      }
    }
  }

  lemma AddressEndsAtNul(a: Bytes, p: Bytes, i: nat)
    requires 0 !in a && i < |CacheKey(a, p)| && CacheKey(a, p)[i] == 0
    ensures i >= |a|
  {
  }

  /** So in every run whatever, distinct backends never share an entry, nor a session. */
  lemma BackendsAreSeparate(idle: int, run: seq<State>, acts: seq<(Tid, Action)>, i: nat, a: Bytes, p: Bytes, b: Bytes, q: Bytes)
    requires IsRun(idle, run, acts) && i < |run| && 0 !in a && 0 !in b && (a != b || p != q)
    requires CacheKey(a, p) in run[i].g.entries && CacheKey(b, q) in run[i].g.entries
    ensures var g := run[i].g;
            var d, e := g.entries[CacheKey(a, p)], g.entries[CacheKey(b, q)];
            d != e && d in g.ent && e in g.ent && (g.ent[d].session.None? || g.ent[d].session != g.ent[e].session)
  {
    hide IsRun, CacheKey;
    if CacheKey(a, p) == CacheKey(b, q) {
      CacheKeyInjective(a, p, b, q);
    }
    RunKeepsStructure(idle, run, acts, i);
  }

  /** The step is a get of this key. */
  predicate Gets(a: Action, k: Key) { (a.GetOld? || a.GetNew?) && a.key == k }

  /** Entries stay, and keep the key they were made for. */
  lemma KeysKept(idle: int, s: State, s': State, t: Tid, a: Action, e: Eid)
    requires Do(idle, s, s', t, a) && e in s.g.ent
    ensures e in s'.g.ent && s'.g.ent[e].key == s.g.ent[e].key
  {
    if !a.Tick? && !a.CloseAll? && !a.GetOld? && !a.GetNew? && !a.SpawnReap? && IsRequest(s.threads[t]) {
      RequestChanges(s.g, s'.g, t, s.threads[t], s'.threads[t], a);
      hide RequestStep;
    }
  }

  /** If the thread is a request, it works on an entry made for this key. */
  ghost predicate WorksOnKey(g: Shared, pc: Pc, k: Key) { IsRequest(pc) ==> pc.e in g.ent && g.ent[pc.e].key == k }

  lemma KeyStep(idle: int, s: State, s': State, t: Tid, u: Tid, a: Action, k: Key)
    requires Do(idle, s, s', u, a) && t in s.threads && WorksOnKey(s.g, s.threads[t], k)
    ensures t in s'.threads && WorksOnKey(s'.g, s'.threads[t], k)
  {
    if IsRequest(s.threads[t]) {
      KeysKept(idle, s, s', u, a, s.threads[t].e);
      if u == t && !a.Tick? {
        RequestChanges(s.g, s'.g, t, s.threads[t], s'.threads[t], a);
        hide RequestStep;
      }
    }
  }

  lemma GetStep(idle: int, s: State, s': State, t: Tid, a: Action, k: Key)
    requires Structure(s) && Do(idle, s, s', t, a) && Gets(a, k)
    ensures t in s'.threads && WorksOnKey(s'.g, s'.threads[t], k)
  {
    hide LinkInv;
  }

  /** In every run whatever, a request works from its get to its end on an entry made for the key it asked for, even if
      that entry has been evicted meanwhile. */
  lemma {:induction false} RequestsWorkOnTheirKey(idle: int, run: seq<State>, acts: seq<(Tid, Action)>, m: nat, n: nat, t: Tid, k: Key)
    requires IsRun(idle, run, acts) && m < n < |run| && acts[m].0 == t && Gets(acts[m].1, k)
    ensures t in run[n].threads && WorksOnKey(run[n].g, run[n].threads[t], k)
  {
    assert Do(idle, run[n - 1], run[n - 1 + 1], acts[n - 1].0, acts[n - 1].1);
    hide Do, WorksOnKey, Structure, Initial;
    if n == m + 1 {
      RunKeepsStructure(idle, run, acts, m);
      GetStep(idle, run[m], run[n], t, acts[m].1, k);
    } else {
      RequestsWorkOnTheirKey(idle, run, acts, m, n - 1, t, k);
      KeyStep(idle, run[n - 1], run[n], t, acts[n - 1].0, acts[n - 1].1, k);
    }
  }

  /** Main result. In every run whatever, two requests for distinct backends never work on the same entry and never use the
      same session, in any state from their gets on, entries that were evicted under them included. */
  lemma RequestsAreSeparate(idle: int, run: seq<State>, acts: seq<(Tid, Action)>, i: nat, j: nat, n: nat, t: Tid, u: Tid,
                            a: Bytes, p: Bytes, b: Bytes, q: Bytes)
    requires IsRun(idle, run, acts) && i < n < |run| && j < n && 0 !in a && 0 !in b && (a != b || p != q)
    requires acts[i].0 == t && Gets(acts[i].1, CacheKey(a, p)) && acts[j].0 == u && Gets(acts[j].1, CacheKey(b, q))
    ensures t in run[n].threads && u in run[n].threads
    ensures var g, x, y := run[n].g, run[n].threads[t], run[n].threads[u];
            IsRequest(x) && IsRequest(y) ==>
              x.e != y.e && x.e in g.ent && y.e in g.ent && (g.ent[x.e].session.None? || g.ent[x.e].session != g.ent[y.e].session)
  {
    if CacheKey(a, p) == CacheKey(b, q) {
      CacheKeyInjective(a, p, b, q);
    }
    RequestsWorkOnTheirKey(idle, run, acts, i, n, t, CacheKey(a, p));
    RequestsWorkOnTheirKey(idle, run, acts, j, n, u, CacheKey(b, q));
    hide IsRun, CacheKey;
    var g, x, y := run[n].g, run[n].threads[t], run[n].threads[u];
    if IsRequest(x) && IsRequest(y) && g.ent[x.e].session.Some? && g.ent[x.e].session == g.ent[y.e].session {
      SessionsAreNotShared(idle, run, acts, n, x.e, y.e);
    }
  }

  /** A NUL in an address is enough to make two backends share a key, and so a session. */
  lemma NulInAddressCollides()
    ensures CacheKey([65, 0, 66], [67]) == CacheKey([65], [66, 0, 67])
  {
  }

  // ----- the methods under the cache's lock -----

  /** Every key leads to an entry made for it. */
  predicate Keyed(all: map<Key, Eid>, ent: map<Eid, Entry>) { forall k :: k in all ==> all[k] in ent && ent[all[k]].key == k }

  /** The stale keys a reap has come across when `keys` are still ahead of it, and their entries. */
  function Gone(all: map<Key, Eid>, ent: map<Eid, Entry>, cutoff: int, keys: set<Key>): (ks: set<Key>)
    requires Keyed(all, ent)
  {
    set k | k in all && k !in keys && ent[all[k]].lastUsed < cutoff
  }

  function Images(all: map<Key, Eid>, ks: set<Key>): (es: set<Eid>)
    requires ks <= all.Keys
  {
    set k | k in ks :: all[k]
  }

  lemma GoneNext(all: map<Key, Eid>, ent: map<Eid, Entry>, cutoff: int, keys: set<Key>, k: Key)
    requires Keyed(all, ent) && k in keys && k in all
    ensures var before, after := Gone(all, ent, cutoff, keys), Gone(all, ent, cutoff, keys - {k});
            if ent[all[k]].lastUsed < cutoff then
              after == before + {k} && Images(all, after) == Images(all, before) + {all[k]} && all - after == (all - before) - {k}
            else after == before
    ensures k in all - Gone(all, ent, cutoff, keys)
  {
    if ent[all[k]].lastUsed < cutoff {
      assert Gone(all, ent, cutoff, keys - {k}) == Gone(all, ent, cutoff, keys) + {k};
    }
  }

  lemma NoneGone(all: map<Key, Eid>, ent: map<Eid, Entry>, cutoff: int)
    requires Keyed(all, ent)
    ensures Gone(all, ent, cutoff, all.Keys) == {} && Images(all, {}) == {} && all - {} == all
  {
  }

  /** Deleting the keys of stale entries is deleting the stale entries. */
  lemma StaleKeys(all: map<Key, Eid>, ent: map<Eid, Entry>, cutoff: int)
    requires Keyed(all, ent)
    ensures var gone := Gone(all, ent, cutoff, {});
            Images(all, gone) == Stale(all, ent, cutoff) && all - gone == Without(all, Stale(all, ent, cutoff))
  {
  }

  /** The state c.mu guards. */
  class Cache {
    var entries: map<Key, Eid>
    var ent: map<Eid, Entry>
    var made: nat

    ghost predicate Valid()
      reads this
    {
      (forall e :: e in ent ==> e < made)
      && Keyed(entries, ent)
    }

    constructor ()
      ensures Valid() && entries == map[] && ent == map[]
    {
      entries, ent, made := map[], map[], 0;
    }

    /** get. The result is a step GetOld or GetNew of the system. */
    method Get(k: Key, now: int, ghost g: Shared) returns (e: Eid)
      requires Valid() && g.entries == entries && g.ent == ent && g.clock == now
      modifies this
      ensures Valid() && k in entries && entries[k] == e && ent[e].lastUsed == now
      ensures var a := if k in old(entries) then GetOld(k) else GetNew(k, e);
              BeginStep(g, g.(entries := entries, ent := ent), Got(e, now), a)
    {
      if k !in entries {
        ent := ent[made := Entry(k, None, now)];
        entries := entries[k := made];
        made := made + 1;
      }
      e := entries[k];
      ent := ent[e := ent[e].(lastUsed := now)];
    }

    /** The first half of reap: collect the stale entries and delete them from the map. */
    method TakeStale(cutoff: int) returns (stale: set<Eid>)
      requires Valid()
      modifies this
      ensures Valid() && ent == old(ent)
      ensures stale == Stale(old(entries), ent, cutoff) && entries == Without(old(entries), stale)
    {
      hide Gone, Images;
      stale := {};
      var keys := entries.Keys;
      ghost var all := entries;
      NoneGone(all, ent, cutoff);
      while keys != {}
        invariant keys <= all.Keys && ent == old(ent) && made == old(made)
        invariant entries == all - Gone(all, ent, cutoff, keys) && Gone(all, ent, cutoff, keys) <= all.Keys
        invariant stale == Images(all, Gone(all, ent, cutoff, keys))
        decreases |keys|
      {
        var k :| k in keys;
        GoneNext(all, ent, cutoff, keys, k);
        keys := keys - {k};
        if ent[entries[k]].lastUsed < cutoff {
          stale := stale + {entries[k]};
          entries := entries - {k};
        }
      }
      StaleKeys(all, ent, cutoff);
    }

    /** The first half of closeAll. */
    method TakeAll() returns (all: set<Eid>)
      requires Valid()
      modifies this
      ensures Valid() && ent == old(ent) && entries == map[] && all == old(entries).Values
    {
      all := entries.Values;
      entries := map[];
    }
  }
}
