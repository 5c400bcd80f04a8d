/** The server side of one connection (rconserver/server.go serveConn and dispatch, rconserver/auth.go,
    rconserver/response.go). */
module ServerConn {
  import opened Wire
  import opened Sockets

  datatype Outcome = Respond(body: Bytes) | Panic

  /** An arbitrary handler: its outcome may depend on every command run on the connection before. */
  type Handler = (seq<Bytes>, Bytes) -> Outcome

  /** The parts of a Server that authentication reads. */
  datatype Config = Config(password: Bytes, authenticator: Option<Bytes -> bool>)

  function CheckPassword(c: Config, password: Bytes): (ok: bool)
  {
    match c.authenticator
    case Some(f) => f(password)
    case None => password == c.password
  }

  /** The bodies writeResponse puts in its frames. */
  function Chunks(body: Bytes): (cs: seq<Bytes>)
    decreases |body|
  {
    if |body| <= MAX_PAYLOAD_SIZE then [body]
    else [body[..MAX_PAYLOAD_SIZE]] + Chunks(body[MAX_PAYLOAD_SIZE..])
  }

  function Concat(cs: seq<Bytes>): (b: Bytes)
  {
    if cs == [] then [] else cs[0] + Concat(cs[1..])
  }

  function Bodies(ps: seq<Packet>): (b: Bytes)
  {
    if ps == [] then [] else ps[0].body + Bodies(ps[1..])
  }

  function Framed(id: Int32, cs: seq<Bytes>): (ps: seq<Packet>)
    ensures |ps| == |cs|
  {
    seq(|cs|, i requires 0 <= i < |cs| => Packet(id, RESPONSE_VALUE, cs[i]))
  }

  function ResponseFrames(id: Int32, body: Bytes): (ps: seq<Packet>)
  {
    Framed(id, Chunks(body))
  }

  /** Chunking loses nothing: the chunks put together are the body, every chunk but the last is full, the
      last is not over-full, and it is empty only for the empty body, which is one empty chunk. */
  lemma {:induction false} ChunksPartition(body: Bytes)
    ensures var cs := Chunks(body);
            |cs| >= 1 && Concat(cs) == body
            && (forall i :: 0 <= i < |cs| - 1 ==> |cs[i]| == MAX_PAYLOAD_SIZE)
            && |cs[|cs| - 1]| <= MAX_PAYLOAD_SIZE
            && (cs[|cs| - 1] == [] <==> body == [])
            && cs[0] == Take(body, MAX_PAYLOAD_SIZE)
    decreases |body|
  {
    var cs := Chunks(body);
    if |body| <= MAX_PAYLOAD_SIZE {
      assert cs[1..] == [] && body + [] == body;
    } else {
      var head, tail := body[..MAX_PAYLOAD_SIZE], body[MAX_PAYLOAD_SIZE..];
      ChunksPartition(tail);
      assert cs[1..] == Chunks(tail);
      assert head + tail == body;
    }
  }

  lemma {:induction false} FramedBodies(id: Int32, cs: seq<Bytes>)
    ensures Bodies(Framed(id, cs)) == Concat(cs)
  {
    if cs != [] {
      assert Framed(id, cs)[1..] == Framed(id, cs[1..]);
      FramedBodies(id, cs[1..]);
    }
  }

  /** The response frames are legal, all carry the request's identifier, and together carry the body. */
  lemma ResponseFramesCarryBody(id: Int32, body: Bytes)
    ensures var ps := ResponseFrames(id, body);
            |ps| >= 1 && AllLegal(ps) && Bodies(ps) == body
            && ps[0].body == Take(body, MAX_PAYLOAD_SIZE)
            && (|ps| == 1 <==> |body| <= MAX_PAYLOAD_SIZE)
            && forall i :: 0 <= i < |ps| ==> ps[i].id == id && ps[i].typ == RESPONSE_VALUE
  {
    hide Concat;
    ChunksPartition(body);
    FramedBodies(id, Chunks(body));
    if |body| > MAX_PAYLOAD_SIZE {
      ChunksPartition(body[MAX_PAYLOAD_SIZE..]);
    }
  }

  /** What serving a frame list does: the frames emitted, the commands the handler was given, and whether
      the connection is still served afterwards. */
  datatype Served = Served(out: seq<Packet>, log: seq<Bytes>, alive: bool)

  function Then(out: seq<Packet>, later: Served): (s: Served)
  {
    later.(out := out + later.out)
  }

  /** The command loop on the frames it decodes, when every write succeeds. */
  function Serve(h: Handler, log: seq<Bytes>, frames: seq<Packet>): (s: Served)
    decreases |frames|
  {
    if frames == [] then Served([], log, true)
    else
      var f, later := frames[0], frames[1..];
      if f.typ == EXEC_COMMAND then
        match h(log, f.body)
        case Panic => Served([], log + [f.body], false)
        case Respond(b) => Then(ResponseFrames(f.id, b), Serve(h, log + [f.body], later))
      else if f.typ == RESPONSE_VALUE then
        Then([Packet(f.id, RESPONSE_VALUE, [])], Serve(h, log, later))
      else
        Serve(h, log, later)
  }

  function AuthFrames(c: Config, f: Packet): (ps: seq<Packet>)
  {
    [Packet(f.id, RESPONSE_VALUE, []),
     Packet(if CheckPassword(c, f.body) then f.id else -1, AUTH_RESPONSE, [])]
  }

  /** serveConn on the frames it decodes, when every write succeeds. */
  function ServeAll(c: Config, h: Handler, frames: seq<Packet>): (s: Served)
  {
    if frames == [] || frames[0].typ != AUTH then Served([], [], false)
    else if CheckPassword(c, frames[0].body) then Then(AuthFrames(c, frames[0]), Serve(h, [], frames[1..]))
    else Served(AuthFrames(c, frames[0]), [], false)
  }

  lemma {:induction false} BodiesConcat(ps: seq<Packet>, qs: seq<Packet>)
    ensures Bodies(ps + qs) == Bodies(ps) + Bodies(qs)
  {
    if ps == [] {
      assert ps + qs == qs;
    } else {
      assert (ps + qs)[0] == ps[0] && (ps + qs)[1..] == ps[1..] + qs;
      BodiesConcat(ps[1..], qs);
    }
  }

  lemma PacketsAssoc(a: seq<Packet>, b: seq<Packet>, c: seq<Packet>)
    ensures (a + b) + c == a + (b + c)
  {
  }

  lemma ThenTwice(a: seq<Packet>, b: seq<Packet>, s: Served)
    ensures Then(a, Then(b, s)) == Then(a + b, s)
  {
    PacketsAssoc(a, b, s.out);
  }

  /** Serving is incremental: frames that arrive later are served from the state the earlier ones left,
      and not at all once the handler has panicked. */
  lemma {:induction false} ServeIncremental(h: Handler, log: seq<Bytes>, a: seq<Packet>, b: seq<Packet>)
    ensures var first := Serve(h, log, a);
            Serve(h, log, a + b) == if first.alive then Then(first.out, Serve(h, first.log, b)) else first
    decreases |a|
  {
    hide ResponseFrames;
    if a == [] {
      assert a + b == b;
      assert [] + Serve(h, log, b).out == Serve(h, log, b).out;
    } else {
      var f, later := a[0], a[1..];
      assert (a + b)[0] == f && (a + b)[1..] == later + b;
      if f.typ == EXEC_COMMAND {
        if h(log, f.body).Respond? {
          ServeIncremental(h, log + [f.body], later, b);
          var next := Serve(h, log + [f.body], later);
          ThenTwice(ResponseFrames(f.id, h(log, f.body).body), next.out, Serve(h, next.log, b));
        }
      } else {
        ServeIncremental(h, log, later, b);
        if f.typ == RESPONSE_VALUE {
          var next := Serve(h, log, later);
          ThenTwice([Packet(f.id, RESPONSE_VALUE, [])], next.out, Serve(h, next.log, b));
        }
      }
    }
  }

  /** The commands in a frame list, in order. */
  function Commands(frames: seq<Packet>): (cs: seq<Bytes>)
  {
    if frames == [] then []
    else if frames[0].typ == EXEC_COMMAND then [frames[0].body] + Commands(frames[1..])
    else Commands(frames[1..])
  }

  /** The handler is given the commands of the frame list in order, each once: all of them while the
      connection stays served, otherwise exactly those up to and including the one that panicked. */
  lemma {:induction false} HandlerRunsInOrder(h: Handler, log: seq<Bytes>, frames: seq<Packet>)
    ensures var s := Serve(h, log, frames);
            log <= s.log && s.log <= log + Commands(frames)
            && (s.alive ==> s.log == log + Commands(frames))
            && (!s.alive ==> |s.log| > |log| && h(s.log[..|s.log| - 1], s.log[|s.log| - 1]).Panic?)
            && forall i :: |log| <= i < |s.log| - (if s.alive then 0 else 1) ==> h(s.log[..i], s.log[i]).Respond?
    decreases |frames|
  {
    hide ResponseFrames;
    if frames != [] {
      var f, later := frames[0], frames[1..];
      if f.typ == EXEC_COMMAND {
        var log' := log + [f.body];
        assert log' + Commands(later) == log + Commands(frames);
        if h(log, f.body).Respond? {
          HandlerRunsInOrder(h, log', later);
          var s := Serve(h, log, frames);
          assert s.log[..|log|] == log && s.log[|log|] == f.body;
        } else {
          assert log'[..|log|] == log;
        }
      } else {
        HandlerRunsInOrder(h, log, later);
      }
    }
  }

  /** Every frame the server emits is legal. */
  lemma {:induction false} ServeIsLegal(h: Handler, log: seq<Bytes>, frames: seq<Packet>)
    ensures AllLegal(Serve(h, log, frames).out)
    decreases |frames|
  {
    if frames != [] {
      var f, later := frames[0], frames[1..];
      if f.typ == EXEC_COMMAND {
        if h(log, f.body).Respond? {
          ResponseFramesCarryBody(f.id, h(log, f.body).body);
          ServeIsLegal(h, log + [f.body], later);
        }
      } else {
        ServeIsLegal(h, log, later);
      }
    }
  }

  /** From output o with room for r more bytes, writing `all` leads to o' and r', as far as the room goes. */
  ghost predicate Wrote(o: Bytes, r: nat, o': Bytes, r': nat, all: Bytes)
  {
    o' == o + Take(all, r) && r' == r - |Take(all, r)|
  }

  lemma WroteNothing(o: Bytes, r: nat)
    ensures Wrote(o, r, o, r, [])
  {
    assert o + [] == o;
  }

  /** Writing a and then b is writing a + b. */
  lemma WroteThen(o: Bytes, r: nat, o1: Bytes, r1: nat, o2: Bytes, r2: nat, a: Bytes, b: Bytes)
    requires Wrote(o, r, o1, r1, a) && Wrote(o1, r1, o2, r2, b)
    ensures Wrote(o, r, o2, r2, a + b)
  {
    if r < |a| {
      assert (a + b)[..r] == a[..r];
      assert o1 + [] == o1;
    } else {
      Assoc(o, a, b);
      assert Take(a + b, r) == a + Take(b, r1);
      Assoc(o, a, Take(b, r1));
    }
  }

  /** Once the room is used up, nothing that would follow matters. */
  lemma WroteCut(o: Bytes, r: nat, o1: Bytes, r1: nat, a: Bytes, b: Bytes)
    requires Wrote(o, r, o1, r1, a) && |a| > r
    ensures Wrote(o, r, o1, r1, a + b)
  {
    assert (a + b)[..r] == a[..r];
  }

  /** writeResponse: the loop that shrinks body and writes one frame a turn. */
  method WriteResponse(s: Socket, id: Int32, body: Bytes) returns (err: Option<Error>)
    modifies s`output, s`room
    ensures Wrote(old(s.output), old(s.room), s.output, s.room, EncodeAll(ResponseFrames(id, body)))
    ensures err.None? <==> |EncodeAll(ResponseFrames(id, body))| <= old(s.room)
  {
    ghost var o, r := s.output, s.room;
    if |body| == 0 {
      EmptyResponse(id);
      var _, e := WriteTo(Packet(id, RESPONSE_VALUE, []), s);
      return e;
    }
    hide Encode, EncodeAll, ResponseFrames;
    var rest := body;
    ghost var all := EncodeAll(ResponseFrames(id, body));
    ghost var done: Bytes := [];
    WroteNothing(o, r);
    while |rest| > 0
      invariant all == done + RestFrames(id, rest)
      invariant Wrote(o, r, s.output, s.room, done) && |done| <= r
      decreases |rest|
    {
      var n := if |rest| < MAX_PAYLOAD_SIZE then |rest| else MAX_PAYLOAD_SIZE;
      var p := Packet(id, RESPONSE_VALUE, rest[..n]);
      FirstResponseFrame(id, rest);
      Assoc(done, Encode(p), RestFrames(id, rest[n..]));
      ghost var o1, r1 := s.output, s.room;
      var _, e := WriteTo(p, s);
      WroteThen(o, r, o1, r1, s.output, s.room, done, Encode(p));
      if e.Some? {
        WroteCut(o, r, s.output, s.room, done + Encode(p), RestFrames(id, rest[n..]));
        return e;
      }
      done := done + Encode(p);
      rest := rest[n..];
    }
    assert done + [] == done;
    return None;
  }

  lemma EmptyResponse(id: Int32)
    ensures EncodeAll(ResponseFrames(id, [])) == Encode(Packet(id, RESPONSE_VALUE, []))
  {
    EncodeAllOne(Packet(id, RESPONSE_VALUE, []));
    assert ResponseFrames(id, []) == [Packet(id, RESPONSE_VALUE, [])];
  }

  /** What the loop still has to write. */
  ghost function RestFrames(id: Int32, rest: Bytes): Bytes
  {
    if |rest| > 0 then EncodeAll(ResponseFrames(id, rest)) else []
  }

  lemma FirstResponseFrame(id: Int32, rest: Bytes)
    requires |rest| > 0
    ensures var n := if |rest| < MAX_PAYLOAD_SIZE then |rest| else MAX_PAYLOAD_SIZE;
            var p := Packet(id, RESPONSE_VALUE, rest[..n]);
            RestFrames(id, rest) == Encode(p) + RestFrames(id, rest[n..])
  {
    hide Encode;
    var ps := ResponseFrames(id, rest);
    if |rest| <= MAX_PAYLOAD_SIZE {
      var p := Packet(id, RESPONSE_VALUE, rest[..|rest|]);
      assert rest[..|rest|] == rest && rest[|rest|..] == [];
      assert ps == [p];
      EncodeAllOne(p);
      assert Encode(p) + [] == Encode(p);
    } else {
      assert Chunks(rest)[1..] == Chunks(rest[MAX_PAYLOAD_SIZE..]);
      assert ps[1..] == ResponseFrames(id, rest[MAX_PAYLOAD_SIZE..]);
    }
  }

  /** One more frame list written after `done`. */
  lemma WroteFrames(o: Bytes, r: nat, o1: Bytes, r1: nat, o2: Bytes, r2: nat, done: seq<Packet>, ps: seq<Packet>)
    requires Wrote(o, r, o1, r1, EncodeAll(done)) && Wrote(o1, r1, o2, r2, EncodeAll(ps))
    ensures Wrote(o, r, o2, r2, EncodeAll(done + ps))
    ensures |EncodeAll(ps)| > r1 ==> |EncodeAll(done + ps)| > r
  {
    hide EncodeAll;
    EncodeAllConcat(done, ps);
    WroteThen(o, r, o1, r1, o2, r2, EncodeAll(done), EncodeAll(ps));
  }

  /** The output after stopping with `done` already past the room is that of the whole list. */
  lemma WroteRest(o: Bytes, r: nat, o1: Bytes, r1: nat, done: seq<Packet>, ps: seq<Packet>)
    requires Wrote(o, r, o1, r1, EncodeAll(done)) && |EncodeAll(done)| > r
    ensures Wrote(o, r, o1, r1, EncodeAll(done + ps)) && |EncodeAll(done + ps)| > r
  {
    hide EncodeAll;
    EncodeAllConcat(done, ps);
    WroteCut(o, r, o1, r1, EncodeAll(done), EncodeAll(ps));
  }

  method WriteFrame(p: Packet, s: Socket) returns (err: Option<Error>)
    modifies s`output, s`room
    ensures Wrote(old(s.output), old(s.room), s.output, s.room, EncodeAll([p]))
    ensures err.None? <==> |EncodeAll([p])| <= old(s.room)
  {
    hide Encode;
    EncodeAllOne(p);
    var n, e := WriteTo(p, s);
    return e;
  }

  /** dispatch: run the handler, then frame what it wrote. A panicking handler emits nothing. */
  method Dispatch(s: Socket, h: Handler, log: seq<Bytes>, command: Bytes, id: Int32) returns (stop: bool)
    modifies s`output, s`room
    ensures var out := match h(log, command) case Respond(b) => ResponseFrames(id, b) case Panic => [];
            Wrote(old(s.output), old(s.room), s.output, s.room, EncodeAll(out))
            && (stop <==> h(log, command).Panic? || |EncodeAll(out)| > old(s.room))
  {
    hide ResponseFrames, Wrote;
    WroteNothing(s.output, s.room);
    match h(log, command)
    case Panic => stop := true;
    case Respond(body) =>
      var err := WriteResponse(s, id, body);
      stop := err.Some?;
  }

  /** The command loop of serveConn, after authentication. */
  method CommandLoop(s: Socket, h: Handler) returns (log: seq<Bytes>)
    modifies s`input, s`output, s`room
    ensures var spec := Serve(h, [], ParseFrames(old(s.input), s.ending).frames);
            Wrote(old(s.output), old(s.room), s.output, s.room, EncodeAll(spec.out))
            && log <= spec.log && (|EncodeAll(spec.out)| <= old(s.room) ==> log == spec.log)
  {
    hide Decode, Wrote, EncodeAll, ResponseFrames;
    ghost var o, r := s.output, s.room;
    ghost var spec := Serve(h, [], ParseFrames(s.input, s.ending).frames);
    ghost var done: seq<Packet> := [];
    log := [];
    EmptyEncoding();
    WroteNothing(o, r);
    assert [] + spec.out == spec.out;
    while true
      invariant spec == Then(done, Serve(h, log, ParseFrames(s.input, s.ending).frames))
      invariant Wrote(o, r, s.output, s.room, EncodeAll(done))
      decreases |s.input|
    {
      ghost var frames := ParseFrames(s.input, s.ending).frames;
      ghost var o1, r1 := s.output, s.room;
      HandlerRunsInOrder(h, log, frames);
      var n, req := ReadFrom(s);
      if req.Err? {
        assert done + [] == done;
        return;
      }
      ghost var later := ParseFrames(s.input, s.ending).frames;
      assert frames[0] == req.value && frames[1..] == later;
      if req.value.typ == EXEC_COMMAND {
        ghost var log0 := log;
        ghost var next := Serve(h, log + [req.value.body], later);
        HandlerRunsInOrder(h, log + [req.value.body], later);
        var stop := Dispatch(s, h, log, req.value.body, req.value.id);
        log := log + [req.value.body];
        ghost var out := match h(log0, req.value.body) case Respond(b) => ResponseFrames(req.value.id, b) case Panic => [];
        WroteFrames(o, r, o1, r1, s.output, s.room, done, out);
        ThenTwice(done, out, next);
        done := done + out;
        if stop {
          if h(log0, req.value.body).Panic? {
            assert done == spec.out;
          } else {
            WroteRest(o, r, s.output, s.room, done, next.out);
          }
          return;
        }
      } else if req.value.typ == RESPONSE_VALUE {
        ghost var next := Serve(h, log, later);
        var echo := Packet(req.value.id, RESPONSE_VALUE, []);
        var _ := WriteFrame(echo, s);
        WroteFrames(o, r, o1, r1, s.output, s.room, done, [echo]);
        ThenTwice(done, [echo], next);
        done := done + [echo];
      }
    }
  }

  lemma EmptyEncoding()
    ensures EncodeAll([]) == []
  {
  }

  /** authenticate: the first frame must be an authentication request; the reply is an empty response value
      and then the verdict. Reports whether the client is in. */
  method Authenticate(s: Socket, c: Config) returns (ok: bool)
    modifies s`input, s`output, s`room
    ensures var frames := ParseFrames(old(s.input), s.ending).frames;
            if frames == [] || frames[0].typ != AUTH then
              !ok && s.output == old(s.output) && s.room == old(s.room)
            else
              var out := AuthFrames(c, frames[0]);
              Wrote(old(s.output), old(s.room), s.output, s.room, EncodeAll(out))
              && (ok <==> CheckPassword(c, frames[0].body) && |EncodeAll(out)| <= old(s.room))
              && (ok ==> ParseFrames(s.input, s.ending).frames == frames[1..])
  {
    hide Decode, Wrote, EncodeAll;
    ghost var o, r := s.output, s.room;
    ghost var frames := ParseFrames(s.input, s.ending).frames;
    var n, req := ReadFrom(s);
    if req.Err? || req.value.typ != AUTH { return false; }
    assert frames[0] == req.value && frames[1..] == ParseFrames(s.input, s.ending).frames;
    ok := CheckPassword(c, req.value.body);
    var first := Packet(req.value.id, RESPONSE_VALUE, []);
    var second := Packet(if ok then req.value.id else -1, AUTH_RESPONSE, []);
    assert AuthFrames(c, frames[0]) == [first] + [second];
    var err := WriteFrame(first, s);
    if err.Some? {
      WroteRest(o, r, s.output, s.room, [first], [second]);
      return false;
    }
    ghost var o1, r1 := s.output, s.room;
    err := WriteFrame(second, s);
    WroteFrames(o, r, o1, r1, s.output, s.room, [first], [second]);
    if err.Some? { return false; }
    FitsBoth(first, second, o, r, o1, r1);
  }

  lemma FitsBoth(first: Packet, second: Packet, o: Bytes, r: nat, o1: Bytes, r1: nat)
    requires Wrote(o, r, o1, r1, EncodeAll([first])) && |EncodeAll([first])| <= r && |EncodeAll([second])| <= r1
    ensures |EncodeAll([first] + [second])| <= r
  {
    hide EncodeAll;
    EncodeAllConcat([first], [second]);
  }

  /** serveConn: authenticate, then serve commands; always close. What goes out is the encoding of the
      specified frames, up to the point where the network stops taking bytes; the handler is given the
      specified commands, all of them unless writing failed before the end. */
  method ServeConnection(s: Socket, c: Config, h: Handler) returns (log: seq<Bytes>)
    modifies s
    ensures var spec := ServeAll(c, h, ParseFrames(old(s.input), old(s.ending)).frames);
            s.output == old(s.output) + Take(EncodeAll(spec.out), old(s.room))
            && log <= spec.log && (|EncodeAll(spec.out)| <= old(s.room) ==> log == spec.log)
    ensures !s.open
  {
    hide Decode, EncodeAll, AuthFrames, CheckPassword, ParseFrames;
    ghost var o, r := s.output, s.room;
    ghost var frames := ParseFrames(s.input, s.ending).frames;
    log := [];
    var ok := Authenticate(s, c);
    if !ok {
      if frames == [] || frames[0].typ != AUTH {
        EmptyEncoding();
        WroteNothing(o, r);
      } else if CheckPassword(c, frames[0].body) {
        WroteRest(o, r, s.output, s.room, AuthFrames(c, frames[0]), Serve(h, [], frames[1..]).out);
        HandlerRunsInOrder(h, [], frames[1..]);
      }
    } else {
      ghost var o1, r1 := s.output, s.room;
      log := CommandLoop(s, h);
      WroteFrames(o, r, o1, r1, s.output, s.room, AuthFrames(c, frames[0]), Serve(h, [], frames[1..]).out);
    }
    s.Close();
  }

  /** No command runs before a successful authentication. */
  lemma HandlerRunsOnlyAfterAuth(c: Config, h: Handler, frames: seq<Packet>)
    ensures var s := ServeAll(c, h, frames);
            (s.log != [] ==> frames[0].typ == AUTH && CheckPassword(c, frames[0].body))
            && s.log <= Commands(if frames == [] then [] else frames[1..])
  {
    if frames != [] {
      HandlerRunsInOrder(h, [], frames[1..]);
      assert [] + Commands(frames[1..]) == Commands(frames[1..]);
    }
  }
}
