/** The authentication handshake, client against server (rcon/auth.go, rconserver/auth.go). */
module Handshake {
  import opened Wire
  import opened RequestIds
  import opened Conn
  import opened ServerConn
  import opened EndToEnd

  /** The frame that decides: the first, or the second if the first is a leading response value. */
  function VerdictFrame(fs: seq<Packet>): (f: Option<Packet>)
  {
    if |fs| >= 1 && fs[0].typ != RESPONSE_VALUE then Some(fs[0])
    else if |fs| >= 2 then Some(fs[1])
    else None
  }

  /** What the client concludes, for every byte stream: success exactly from an auth response with another identifier than -1,
      authentication failure exactly from one with -1, an invalid response exactly from any other deciding frame; and if no frame
      decides, the error the read met, never one of the others. */
  lemma VerdictMeaning(input: Bytes, ending: Ending)
    ensures var parse := ParseFrames(input, ending);
            var err := Verdict(input, ending).0;
            match VerdictFrame(parse.frames)
            case Some(f) =>
              (err == None <==> f.typ == 2 && f.id != -1) && (err == Some(AuthFailed) <==> f.typ == 2 && f.id == -1)
              && (err == Some(InvalidAuthResponse) <==> f.typ != 2)
            case None => err == Some(parse.fault) && IoError(parse.fault)
  {
    DecodeFaults(input, ending);
    if Decode(input, ending).Frame? {
      var rest := Decode(input, ending).rest;
      DecodeFaults(rest, ending);
      hide Decode, IoError;
      var p, later := Decode(input, ending).packet, ParseFrames(rest, ending).frames;
      assert ([p] + later)[0] == p;
      if later != [] {
        assert ([p] + later)[1] == later[0];
      }
    }
    hide Decode, IoError;
  }

  /** So a handshake that is cut before its last byte gives neither success nor an authentication failure. */
  lemma CutHandshakeGivesNoVerdict(c: Config, f: Packet, cut: nat, ending: Ending)
    requires cut < |EncodeAll(AuthFrames(c, f))|
    ensures var err := Verdict(Take(EncodeAll(AuthFrames(c, f)), cut), ending).0;
            err.Some? && IoError(err.value)
  {
    var ps := AuthFrames(c, f);
    var bytes := Take(EncodeAll(ps), cut);
    WholeFramesMeaning(ps, cut, 2);
    assert ps[..2] == ps;
    ParseCut(ps, cut, ending);
    VerdictMeaning(bytes, ending);
    hide Verdict, EncodeAll, IoError, CheckPassword, WholeFrames, ParseFrames;
    assert ps[..WholeFrames(ps, cut)] == [] || ps[..WholeFrames(ps, cut)] == [ps[0]];
  }

  /** The whole of authenticate, for every state, password and network: the error of the write if the request does not get
      through, and else what the bytes that can be read say; the request is what was written. */
  lemma AuthenticateMeaning(st: State, password: Bytes, net: Network)
    ensures var request := Encode(Packet(NextId(st.id), 3, password));
            var (st', err) := Conn.Authenticate(st, password, net);
            st'.id == NextId(st.id) && st'.sent == st.sent + Take(request, st.room)
            && err == if |request| > st.room then Some(Net(false)) else Verdict(st.unread + net.arriving, net.ending).0
  {
    hide Encode, Verdict, NextId;
  }

  /** Which passwords are accepted. With an Authenticator, exactly those it accepts, whatever Password is; without one, exactly
      Password. */
  lemma AcceptedExactly(c: Config, h: Handler, st: State, password: Bytes, ending: Ending, buffered: Bytes -> nat, budget: nat)
    requires st.unread == [] && !st.closed && st.open
    requires |password| <= MAX_PAYLOAD_SIZE && |Encode(Packet(NextId(st.id), AUTH, password))| <= st.room
    ensures var request := Packet(NextId(st.id), AUTH, password);
            var served := ServeAll(c, h, ParseFrames(Encode(request), EndOfStream).frames);
            var err := Conn.Authenticate(st, password, Network(EncodeAll(served.out), ending, buffered)).1;
            err == None <==> (c.authenticator.None? && password == c.password)
                             || (c.authenticator.Some? && c.authenticator.value(password))
  {
    AuthenticationAgrees(c, h, st, password, ending, buffered, budget);
    hide Conn.Authenticate, Encode, ParseFrames, EncodeAll, NextId, ServeAll;
  }

  /** What serveConn answers before any command: nothing unless the first frame is an auth request; and then an empty response
      value and an auth response, the second with -1 exactly if the password is rejected, after which nothing follows. */
  lemma AnswerToFirstFrame(c: Config, h: Handler, frames: seq<Packet>)
    ensures var s := ServeAll(c, h, frames);
            if frames == [] || frames[0].typ != 3 then s == Served([], [], false)
            else
              var ok := CheckPassword(c, frames[0].body);
              |s.out| >= 2 && s.out[0] == Packet(frames[0].id, 0, []) && s.out[1] == Packet(if ok then frames[0].id else -1, 2, [])
              && (if ok then s == Served(s.out[..2] + Serve(h, [], frames[1..]).out, Serve(h, [], frames[1..]).log, Serve(h, [], frames[1..]).alive)
                  else s == Served(s.out[..2], [], false))
  {
    hide Serve, CheckPassword;
    var s := ServeAll(c, h, frames);
    if frames != [] && frames[0].typ == AUTH {
      assert s.out[..2] == AuthFrames(c, frames[0]);
    }
  }

  /** The verdict the client draws from the two frames an authenticating server sends. */
  lemma VerdictOfAuthFrames(c: Config, f: Packet, ending: Ending)
    ensures Verdict(EncodeAll(AuthFrames(c, f)), ending)
         == (if CheckPassword(c, f.body) && f.id != -1 then None else Some(AuthFailed), [])
  {
    hide Decode, Encode, CheckPassword;
    var ps := AuthFrames(c, f);
    var a, b := ps[0], ps[1];
    assert ps == [a] + [b];
    EncodeAllConcat([a], [b]);
    EncodeAllOne(a);
    EncodeAllOne(b);
    DecodeEncode(a, Encode(b), ending);
    DecodeEncode(b, [], ending);
    assert Encode(b) + [] == Encode(b);
  }

  /** From every counter value and for every password the server can read: the client is told success exactly
      when the server accepts and authentication failure exactly when it rejects, both streams are empty
      afterwards, and an accepted client finds the connection ready for commands. */
  lemma AuthenticationAgrees(c: Config, h: Handler, st: State, password: Bytes, ending: Ending,
                             buffered: Bytes -> nat, budget: nat)
    requires st.unread == [] && !st.closed && st.open
    requires |password| <= MAX_PAYLOAD_SIZE && |Encode(Packet(NextId(st.id), AUTH, password))| <= st.room
    ensures var request := Packet(NextId(st.id), AUTH, password);
            var served := ServeAll(c, h, ParseFrames(Encode(request), EndOfStream).frames);
            var (st', err) := Conn.Authenticate(st, password, Network(EncodeAll(served.out), ending, buffered));
            st'.sent == st.sent + Encode(request) && st'.unread == []
            && (err.None? <==> CheckPassword(c, password))
            && (err == Some(AuthFailed) <==> !CheckPassword(c, password))
            && (served.alive <==> CheckPassword(c, password))
            && InSync(Joined(st', served.log, served.alive, budget)) == CheckPassword(c, password)
  {
    hide Encode, ParseFrames, EncodeAll, CheckPassword, NextId, AuthFrames, Verdict;
    var request := Packet(NextId(st.id), AUTH, password);
    ParseEncodeAll([request], [], EndOfStream);
    EncodeAllOne(request);
    assert Encode(request) + [] == Encode(request);
    ParseNothing();
    assert [request] + [] == [request];
    var served := ServeAll(c, h, [request]);
    assert [request][1..] == [];
    assert AuthFrames(c, request) + [] == AuthFrames(c, request);
    VerdictOfAuthFrames(c, request, ending);
    assert [] + EncodeAll(served.out) == EncodeAll(served.out);
  }

  /** A longer password is refused by the server's frame reader: it answers nothing, and the client sees the
      stream end, never a success and never an authentication failure. */
  lemma OverlongPasswordGetsNoVerdict(c: Config, h: Handler, st: State, password: Bytes, ending: Ending,
                                      buffered: Bytes -> nat)
    requires st.unread == []
    requires MAX_PAYLOAD_SIZE < |password| < 0x1_0000_0000 - MIN_PACKET_SIZE
    requires |Encode(Packet(NextId(st.id), AUTH, password))| <= st.room
    ensures var request := Packet(NextId(st.id), AUTH, password);
            var served := ServeAll(c, h, ParseFrames(Encode(request), EndOfStream).frames);
            served == Served([], [], false)
            && Conn.Authenticate(st, password, Network(EncodeAll(served.out), ending, buffered)).1
               == Some(ShortRead(0, ending))
  {
    hide Encode, CheckPassword, NextId;
    var request := Packet(NextId(st.id), AUTH, password);
    OverlongIsRefused(request, [], EndOfStream);
    assert Encode(request) + [] == Encode(request);
    assert st.unread + [] == [];
  }

  /** serveConn does not care how its input is split into arrivals: reacting to one batch of whole frames and
      then to the next is reacting to both at once. */
  lemma ReactIsIncremental(w: Joined, h: Handler, a: seq<Packet>, b: seq<Packet>)
    requires w.serving && AllLegal(a) && AllLegal(b)
    ensures var s1 := React(w, h, EncodeAll(a));
            var s2 := React(w.(log := s1.log, serving := s1.alive), h, EncodeAll(b));
            React(w, h, EncodeAll(a) + EncodeAll(b)) == Served(s1.out + s2.out, s2.log, s2.alive)
  {
    var s1 := Serve(h, w.log, a);
    ReactToFrames(w, h, a);
    ReactToFrames(w, h, a + b);
    EncodeAllConcat(a, b);
    ServeIncremental(h, w.log, a, b);
    if s1.alive {
      ReactToFrames(w.(log := s1.log, serving := s1.alive), h, b);
    } else {
      ReactWhenGone(w.(log := s1.log, serving := false), h, EncodeAll(b));
    }
    hide React, EncodeAll, Serve;
    assert s1.out + [] == s1.out;
  }

  lemma ReactWhenGone(w: Joined, h: Handler, incoming: Bytes)
    requires !w.serving
    ensures React(w, h, incoming) == Served([], w.log, false)
  {
  }
}
