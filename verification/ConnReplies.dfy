/** What concurrent callers of one Conn get back (rcon/conn.go 111-185): their own command's output, as long as
    every failed write and read stopped between two frames. */
module ConnReplies {
  import opened Wire
  import opened RequestIds
  import opened Conn
  import opened ServerConn
  import opened Reassembly
  import opened EndToEnd
  import opened ConnRace

  // ----- the server's frames -----

  /** The server after the first n of these frames. */
  function SoFar(h: Handler, wire: seq<Packet>, n: nat): (s: Served)
    requires n <= |wire|
  {
    Serve(h, [], wire[..n])
  }

  /** How many of the frames written whole the server has got and can read. */
  function Reached(g: Shared): (n: nat)
    ensures n <= |g.past.wire|
  {
    Readable(g.past.wire, g.got)
  }

  /** Every frame the server has sent, if it got no others. */
  function Replies(h: Handler, g: Shared): (ps: seq<Packet>) { SoFar(h, g.past.wire, Reached(g)).out }

  /** Every failed write and read so far stopped between two frames, and no command was 4 GiB long. */
  ghost predicate Undisturbed(g: Shared) { g.past.torn == 0 && g.past.spilled == 0 && AllSized(g.past.wire) }

  /** Then the server's stream is the encoding of its replies to the frames on the wire. */
  lemma StreamIsReplies(h: Handler, g: Shared)
    requires g.got <= |g.sent| && g.sent == EncodeAll(g.past.wire) && AllSized(g.past.wire)
    ensures Stream(h, g) == EncodeAll(Replies(h, g))
  {
    hide EncodeAll, Serve, Readable;
    assert g.sent[..g.got] == Take(g.sent, g.got);
    ParseReadable(g.past.wire, g.got, EndOfStream);
  }

  /** What the server has sent for a part of the wire is the beginning of what it sends for more of it. */
  lemma ServedGrows(h: Handler, wire: seq<Packet>, a: nat, b: nat)
    requires a <= b <= |wire|
    ensures SoFar(h, wire, a).out <= SoFar(h, wire, b).out
  {
    hide Serve;
    assert wire[..b] == wire[..a] + wire[a..b];
    ServeIncremental(h, [], wire[..a], wire[a..b]);
  }

  lemma SoFarKept(h: Handler, wire: seq<Packet>, wire': seq<Packet>, n: nat)
    requires n <= |wire| && wire <= wire'
    ensures SoFar(h, wire, n) == SoFar(h, wire', n)
  {
    assert wire[..n] == wire'[..n];
  }

  /** Replies only grow. */
  lemma RepliesGrow(h: Handler, g: Shared, g': Shared)
    requires g.past.wire <= g'.past.wire && g.got <= g'.got
    ensures Replies(h, g) <= Replies(h, g')
  {
    hide SoFar, Readable;
    ReadableGrows(g.past.wire, g'.past.wire, g.got, g'.got);
    SoFarKept(h, g.past.wire, g'.past.wire, Reached(g));
    ServedGrows(h, g'.past.wire, Reached(g), Reached(g'));
  }

  lemma ServeOne(h: Handler, log: seq<Bytes>, p: Packet)
    ensures Serve(h, log, [p]) == if p.typ == EXEC_COMMAND then
                                    (match h(log, p.body)
                                     case Panic => Served([], log + [p.body], false)
                                     case Respond(b) => Served(ResponseFrames(p.id, b), log + [p.body], true))
                                  else if p.typ == RESPONSE_VALUE then Served([Packet(p.id, RESPONSE_VALUE, [])], log, true)
                                  else Served([], log, true)
  {
    hide ResponseFrames;
    assert [p][1..] == [];
    assert Serve(h, log, []) == Served([], log, true);
    if p.typ == EXEC_COMMAND {
      assert Serve(h, log + [p.body], []) == Served([], log + [p.body], true);
      if h(log, p.body).Respond? {
        var ps := ResponseFrames(p.id, h(log, p.body).body);
        assert ps + [] == ps;
      }
    } else if p.typ == RESPONSE_VALUE {
      assert [Packet(p.id, RESPONSE_VALUE, [])] + [] == [Packet(p.id, RESPONSE_VALUE, [])];
    }
  }

  lemma ServedNext(h: Handler, wire: seq<Packet>, n: nat)
    requires n < |wire|
    ensures var s := SoFar(h, wire, n);
            SoFar(h, wire, n + 1) == if s.alive then Then(s.out, Serve(h, s.log, [wire[n]])) else s
  {
    hide Serve;
    assert wire[..n + 1] == wire[..n] + [wire[n]];
    ServeIncremental(h, [], wire[..n], [wire[n]]);
  }

  /** Every reply carries the identifier of the frame it answers, which is the one that made the server send it. */
  lemma {:induction false} Answering(h: Handler, wire: seq<Packet>, n: nat, i: nat) returns (j: nat)
    requires n <= |wire| && i < |SoFar(h, wire, n).out|
    ensures j < n && |SoFar(h, wire, j).out| <= i < |SoFar(h, wire, j + 1).out|
    ensures SoFar(h, wire, n).out[i].id == wire[j].id
  {
    assert n > 0 by { assert wire[..0] == [] && Serve(h, [], []).out == []; }
    hide SoFar, Serve;
    ServedGrows(h, wire, n - 1, n);
    if i < |SoFar(h, wire, n - 1).out| {
      j := Answering(h, wire, n - 1, i);
    } else {
      j := n - 1;
      ServedNext(h, wire, n - 1);
      RepliesOfOne(h, SoFar(h, wire, n - 1).log, wire[n - 1], i - |SoFar(h, wire, n - 1).out|);
    }
  }

  lemma RepliesOfOne(h: Handler, log: seq<Bytes>, p: Packet, i: nat)
    requires i < |Serve(h, log, [p]).out|
    ensures Serve(h, log, [p]).out[i].id == p.id
  {
    ServeOne(h, log, p);
    hide Serve, ResponseFrames, Bodies;
    if p.typ == EXEC_COMMAND && h(log, p.body).Respond? {
      ResponseFramesCarryBody(p.id, h(log, p.body).body);
    }
  }

  /** The server's frames around a request at k and its sentinel at k + 1, the last frames on the wire. */
  lemma AroundRequest(h: Handler, wire: seq<Packet>, n: nat, k: nat, cmd: Bytes)
    requires |wire| == k + 2 && n <= k + 2
    requires wire[k].typ == EXEC_COMMAND && wire[k].body == cmd
    requires wire[k + 1] == SentinelFrame(wire[k + 1].id)
    ensures var before := SoFar(h, wire, k);
            |SoFar(h, wire, n).out| > |before.out| ==>
              h(before.log, cmd).Respond?
              && SoFar(h, wire, n).out <= before.out + Answer(wire[k].id, wire[k + 1].id, h(before.log, cmd).body)
              && SoFar(h, wire, k + 2).out == before.out + Answer(wire[k].id, wire[k + 1].id, h(before.log, cmd).body)
  {
    hide Serve, ResponseFrames;
    var s := SoFar(h, wire, k);
    ServedGrows(h, wire, n, k + 2);
    ServedNext(h, wire, k);
    ServedNext(h, wire, k + 1);
    ServeOne(h, s.log, wire[k]);
    if n <= k {
      ServedGrows(h, wire, n, k);
    }
    if s.alive && h(s.log, cmd).Respond? {
      var b := h(s.log, cmd).body;
      ServeOne(h, s.log + [cmd], wire[k + 1]);
      PacketsAssoc(s.out, ResponseFrames(wire[k].id, b), [wire[k + 1]]);
    }
  }

  // ----- invariants of undisturbed runs -----

  /** The client stands between two frames of the server's stream. */
  ghost predicate PositionInv(h: Handler, g: Shared)
  {
    g.past.taken <= |Replies(h, g)| && g.read == |EncodeAll(Replies(h, g)[..g.past.taken])|
  }

  /** The holder of mu has read, of the frames that answer its own request, exactly those whose bodies it has
      accumulated. */
  ghost predicate ReadOf(h: Handler, g: Shared, pc: Pc)
  {
    var wire, taken := g.past.wire, g.past.taken;
    match pc
    case Wrote(_, k, _) => k <= |wire| && taken <= |SoFar(h, wire, k).out|
    case Reading(_, k, ids, acc) =>
      k <= |wire|
      && var base := |SoFar(h, wire, k).out|;
         if taken <= base then acc == []
         else taken <= |Replies(h, g)| && acc == Bodies(Replies(h, g)[base..taken])
    case _ => true
  }

  /** A call that returned a body: it is the handler's output for the call's own command, run where the call's
      own request stands on the wire. */
  ghost predicate AnswerOf(h: Handler, g: Shared, t: Tid, pc: Pc)
  {
    pc.Finished? && pc.result.Ok? ==>
      pc.k < |g.past.wire| && pc.k < |g.past.writers| && g.past.writers[pc.k] == t
      && g.past.wire[pc.k].typ == EXEC_COMMAND && g.past.wire[pc.k].body == pc.cmd
      && h(SoFar(h, g.past.wire, pc.k).log, pc.cmd) == Respond(pc.result.value)
  }

  ghost predicate RepliesInv(h: Handler, s: System)
  {
    PositionInv(h, s.g)
    && forall t :: t in s.threads ==> ReadOf(h, s.g, s.threads[t]) && AnswerOf(h, s.g, t, s.threads[t])
  }

  /** The window in which identifiers do not repeat, measured from the oldest frame with a reply not yet read. On a
      connection whose replies were all read it says nothing. */
  ghost predicate Fresh(h: Handler, g: Shared)
  {
    forall j :: 0 <= j < |g.past.nums| && j < |g.past.wire| && |SoFar(h, g.past.wire, j + 1).out| > g.past.taken ==>
      g.issued - g.past.nums[j] < PERIOD
  }

  // ----- what a reader meets -----

  /** A frame of an earlier call has none of the identifiers the reader is looking for. */
  lemma StaleIsForeign(h: Handler, maxLen: int, g: Shared, t: Tid, pc: Pc)
    requires PastInv(maxLen, g) && CallInv(maxLen, g, t, pc) && pc.Reading? && Fresh(h, g)
    requires g.past.taken < |Replies(h, g)| && g.past.taken < |SoFar(h, g.past.wire, pc.k).out|
    ensures var f := Replies(h, g)[g.past.taken];
            f.id != pc.ids.sentinel && !Belongs(f, pc.ids.req)
  {
    hide SoFar, IdAfter, EncodeAll, Readable;
    var wire, nums, i, k := g.past.wire, g.past.nums, g.past.taken, pc.k;
    if Reached(g) <= k {
      ServedGrows(h, wire, Reached(g), k);
    } else {
      ServedGrows(h, wire, k, Reached(g));
    }
    var j := Answering(h, wire, k, i);
    assert g.issued - nums[j] < PERIOD;
    RecentIdsDiffer(nums[j], nums[k]);
    RecentIdsDiffer(nums[j], nums[k + 1]);
  }

  lemma BodiesSnoc(ps: seq<Packet>, p: Packet)
    ensures Bodies(ps + [p]) == Bodies(ps) + p.body
  {
    hide Bodies;
    BodiesConcat(ps, [p]);
    assert Bodies([p]) == p.body by { BodiesOne(p); }
  }

  lemma BodiesOne(p: Packet)
    ensures Bodies([p]) == p.body
  {
    assert [p][1..] == [] && p.body + [] == p.body;
  }

  lemma EmptyBodies()
    ensures Bodies([]) == []
  {
  }

  /** A frame past those of earlier calls is the next chunk of the reader's own answer, or, exactly when the
      whole answer has been accumulated, the echo of its sentinel, and then it is the last. */
  lemma OwnAnswerNext(h: Handler, maxLen: int, g: Shared, t: Tid, pc: Pc)
    requires PastInv(maxLen, g) && CallInv(maxLen, g, t, pc) && pc.Reading? && ReadOf(h, g, pc)
    requires |SoFar(h, g.past.wire, pc.k).out| <= g.past.taken < |Replies(h, g)|
    ensures var base := |SoFar(h, g.past.wire, pc.k).out|;
            var f := Replies(h, g)[g.past.taken];
            if f.id == pc.ids.sentinel then
              h(SoFar(h, g.past.wire, pc.k).log, pc.cmd) == Respond(pc.acc)
              && g.past.taken + 1 == |Replies(h, g)| == |SoFar(h, g.past.wire, pc.k + 2).out|
            else
              Belongs(f, pc.ids.req) && pc.acc + f.body == Bodies(Replies(h, g)[base..g.past.taken + 1])
  {
    hide SoFar, IdAfter, ResponseFrames, Bodies, EncodeAll, Readable;
    var wire, k, i := g.past.wire, pc.k, g.past.taken;
    var before := SoFar(h, wire, k);
    var base, req, sentinel := |before.out|, pc.ids.req, pc.ids.sentinel;
    var all := Replies(h, g);
    var f := all[i];
    AroundRequest(h, wire, Reached(g), k, pc.cmd);
    var b := h(before.log, pc.cmd).body;
    var chunks := ResponseFrames(req, b);
    ResponseFramesCarryBody(req, b);
    RecentIdsDiffer(g.past.nums[k], g.past.nums[k + 1]);
    var answer := before.out + Answer(req, sentinel, b);
    assert forall x :: base <= x < |all| ==> all[x] == answer[x];
    assert all[base..i] == Answer(req, sentinel, b)[..i - base];
    if i == base { assert all[base..i] == [] && Bodies([]) == [] by { EmptyBodies(); } }
    assert pc.acc == Bodies(all[base..i]);
    if i - base < |chunks| {
      assert f == chunks[i - base];
      assert all[base..i + 1] == all[base..i] + [f];
      BodiesSnoc(all[base..i], f);
    } else {
      assert f == SentinelFrame(sentinel);
      assert all[base..i] == chunks;
    }
  }

  // ----- one read -----

  lemma EncodeAllSplit(ps: seq<Packet>, n: nat)
    requires n <= |ps|
    ensures EncodeAll(ps) == EncodeAll(ps[..n]) + EncodeAll(ps[n..])
  {
    hide EncodeAll;
    assert ps == ps[..n] + ps[n..];
    EncodeAllConcat(ps[..n], ps[n..]);
  }

  /** A reader that stood after `taken` of these frames, at byte `from`, and saw n more bytes: it got the next frame,
      or it used up what it saw. */
  ghost predicate TookNext(ps: seq<Packet>, taken: nat, from: nat, n: nat, r: Read)
  {
    match r
    case Fault(e, rest) => rest == [] && IoError(e)
    case Frame(f, rest) =>
      taken < |ps| && f == ps[taken] && from + n - |rest| == |EncodeAll(ps[..taken + 1])|
      && (taken + 1 == |ps| ==> rest == [])
  }

  /** A read sees the beginning of the next reply, or all of it, or more. */
  lemma NextDecoded(ps: seq<Packet>, taken: nat, n: nat, ending: Ending)
    requires AllLegal(ps) && taken <= |ps| && |EncodeAll(ps[..taken])| + n <= |EncodeAll(ps)|
    ensures var from := |EncodeAll(ps[..taken])|;
            TookNext(ps, taken, from, n, Decode(EncodeAll(ps)[from..from + n], ending))
  {
    hide Decode, Encode, EncodeAll;
    var from, later := |EncodeAll(ps[..taken])|, ps[taken..];
    EncodeAllSplit(ps, taken);
    assert EncodeAll(ps)[from..from + n] == Take(EncodeAll(later), n);
    DecodeFaults(Take(EncodeAll(later), n), ending);
    hide IoError;
    if taken == |ps| {
      NothingEncoded(ps);
      DecodeNothing(ending);
    } else {
      FirstEncoded(later);
      TakeOfConcat(Encode(ps[taken]), EncodeAll(later[1..]), n);
      if n < |Encode(ps[taken])| {
        CutFrameFaults(ps[taken], n, ending);
      } else {
        DecodeEncode(ps[taken], Take(EncodeAll(later[1..]), n - |Encode(ps[taken])|), ending);
        assert ps[..taken + 1] == ps[..taken] + [ps[taken]];
        EncodeAllConcat(ps[..taken], [ps[taken]]);
        EncodeAllOne(ps[taken]);
        NothingEncoded(later);
      }
    }
  }

  lemma NothingEncoded(ps: seq<Packet>)
    ensures EncodeAll([]) == [] && ps[|ps|..] == [] && (|ps| == 1 ==> ps[1..] == [])
  {
  }

  lemma FirstEncoded(ps: seq<Packet>)
    requires ps != []
    ensures EncodeAll(ps) == Encode(ps[0]) + EncodeAll(ps[1..])
  {
  }

  /** The effect of a read on an undisturbed connection, frame by frame. */
  ghost predicate FrameRead(g: Shared, g': Shared, pc: Pc, pc': Pc, f: Packet)
    requires pc.Reading?
  {
    g'.past == g.past.(taken := g.past.taken + 1)
    && if f.id == pc.ids.sentinel then pc' == Finished(pc.cmd, false, pc.k, Ok(pc.acc))
       else if !Belongs(f, pc.ids.req) then pc' == Finished(pc.cmd, false, 0, Err(ResponseMismatch))
       else pc' == Reading(pc.cmd, pc.k, pc.ids, pc.acc + f.body)
  }

  /** A read takes the next reply, which leaves the client between two frames at least unless it was an echo with
      more to drain after it; or it fails, and spills what it saw. */
  ghost predicate ReadsFrame(g: Shared, g': Shared, pc: Pc, pc': Pc, n: nat, ps: seq<Packet>)
    requires pc.Reading?
  {
    if Failed(pc') then
      g'.read == g.read + n && g'.past == g.past.(spilled := g.past.spilled + n)
    else
      g.past.taken < |ps| && FrameRead(g, g', pc, pc', ps[g.past.taken])
      && (g.past.taken + 1 == |ps| || !pc'.Finished? || pc'.result.Err? ==> g'.read == |EncodeAll(ps[..g.past.taken + 1])|)
  }

  /** The call returned an error that may have stopped it inside a frame. */
  predicate Failed(pc: Pc) { pc.Finished? && pc.result.Err? && IoError(pc.result.error) }

  lemma ReadStepReads(g: Shared, g': Shared, pc: Pc, pc': Pc, seen: Bytes, ending: Ending, buffered: Bytes -> nat, ps: seq<Packet>)
    requires pc.Reading? && ReadStep(g, g', pc, pc', seen, ending, buffered)
    requires TookNext(ps, g.past.taken, g.read, |seen|, Decode(seen, ending))
    ensures ReadsFrame(g, g', pc, pc', |seen|, ps)
  {
    hide Decode, EncodeAll;
    assert !IoError(ResponseMismatch);
    hide IoError;
    match Decode(seen, ending)
    case Fault(_, _) =>
    case Frame(f, rest) =>
      if f.id == pc.ids.sentinel {
        assert g.past.taken + 1 == |ps| ==> Drain(rest, ending, buffered) == [];
      }
  }

  lemma ReadIsFrameRead(h: Handler, g: Shared, g': Shared, pc: Pc, pc': Pc, n: nat, ending: Ending, buffered: Bytes -> nat)
    requires g.got <= |g.sent| && g.sent == EncodeAll(g.past.wire) && Undisturbed(g) && PositionInv(h, g) && pc.Reading?
    requires g.read + n <= |Stream(h, g)|
    requires ReadStep(g, g', pc, pc', Stream(h, g)[g.read..g.read + n], ending, buffered)
    ensures ReadsFrame(g, g', pc, pc', n, Replies(h, g))
  {
    hide ReadStep, ReadsFrame, TookNext;
    var ps, seen := Replies(h, g), Stream(h, g)[g.read..g.read + n];
    StreamIsReplies(h, g);
    RepliesAreLegal(h, g);
    assert |EncodeAll(ps[..g.past.taken])| == g.read;
    hide Stream, Replies, EncodeAll, AllLegal, PositionInv;
    NextDecoded(ps, g.past.taken, n, ending);
    ReadStepReads(g, g', pc, pc', seen, ending, buffered, ps);
  }

  lemma RepliesAreLegal(h: Handler, g: Shared)
    ensures AllLegal(Replies(h, g))
  {
    ServeIsLegal(h, [], g.past.wire[..Reached(g)]);
  }

  // ----- every step keeps the invariants -----

  /** A reader's position does not depend on frames that come after. */
  lemma ReadOfKept(h: Handler, g: Shared, g': Shared, pc: Pc)
    requires g.past.taken <= |Replies(h, g)| && ReadOf(h, g, pc)
    requires g.past.wire <= g'.past.wire && g.got <= g'.got && g'.past.taken == g.past.taken
    ensures ReadOf(h, g', pc)
  {
    RepliesGrow(h, g, g');
    hide Replies, Bodies, SoFar;
    if pc.Wrote? || pc.Reading? {
      SoFarKept(h, g.past.wire, g'.past.wire, pc.k);
    }
    if pc.Reading? {
      var base := |SoFar(h, g.past.wire, pc.k).out|;
      if g.past.taken > base {
        assert Replies(h, g)[base..g.past.taken] == Replies(h, g')[base..g.past.taken];
      }
    }
  }

  lemma PositionKept(h: Handler, g: Shared, g': Shared)
    requires PositionInv(h, g) && g.past.wire <= g'.past.wire && g.got <= g'.got
    requires g'.past.taken == g.past.taken && g'.read == g.read
    ensures PositionInv(h, g')
  {
    RepliesGrow(h, g, g');
    hide Replies, EncodeAll;
    assert Replies(h, g)[..g.past.taken] == Replies(h, g')[..g.past.taken];
  }

  lemma AnswerOfKept(h: Handler, g: Shared, g': Shared, t: Tid, pc: Pc)
    requires AnswerOf(h, g, t, pc) && g.past.wire <= g'.past.wire && g.past.writers <= g'.past.writers
    ensures AnswerOf(h, g', t, pc)
  {
    hide SoFar;
    if pc.Finished? && pc.result.Ok? {
      SoFarKept(h, g.past.wire, g'.past.wire, pc.k);
    }
  }

  /** Nothing written is ever taken back. */
  ghost predicate Grows(g: Shared, g': Shared)
  {
    g.past.wire <= g'.past.wire && g.past.writers <= g'.past.writers && g.got <= g'.got
    && g.past.torn <= g'.past.torn && g.past.spilled <= g'.past.spilled
  }

  lemma CallGrows(h: Handler, maxLen: int, g: Shared, g': Shared, t: Tid, pc: Pc, pc': Pc, a: Action)
    requires g.got <= |g.sent| && CallStep(h, maxLen, g, g', t, pc, pc', a)
    ensures Grows(g, g') && (pc.Reading? || (g'.past.taken == g.past.taken && g'.read == g.read))
    ensures g'.past.torn == g.past.torn || Failed(pc')
  {
    hide Stream, IdAfter, Encode, Decode, Drain;
  }

  /** The call that steps, when it reads. */
  lemma OwnReadKept(h: Handler, maxLen: int, g: Shared, g': Shared, t: Tid, pc: Pc, pc': Pc, n: nat)
    requires PastInv(maxLen, g) && CallInv(maxLen, g, t, pc) && pc.Reading? && Fresh(h, g) && Grows(g, g')
    requires PositionInv(h, g) && ReadOf(h, g, pc) && ReadsFrame(g, g', pc, pc', n, Replies(h, g)) && g'.got == g.got
    requires g'.past.spilled == g.past.spilled
    ensures PositionInv(h, g') && ReadOf(h, g', pc') && AnswerOf(h, g', t, pc')
  {
    hide EncodeAll, Bodies, IdAfter, Readable;
    if Failed(pc') {
      hide Replies, SoFar, PositionInv;
      PositionKept(h, g, g');
    } else {
      hide Grows;
      assert g'.past.wire == g.past.wire && Replies(h, g') == Replies(h, g);
      if g.past.taken < |SoFar(h, g.past.wire, pc.k).out| {
        StaleIsForeign(h, maxLen, g, t, pc);
      } else {
        OwnAnswerNext(h, maxLen, g, t, pc);
      }
      hide PastInv, Fresh, EncodeAll, Bodies, SoFar, Reached, IoError, Grows;
    }
  }

  /** The call that steps, when it does not read. */
  lemma OwnWriteKept(h: Handler, maxLen: int, g: Shared, g': Shared, t: Tid, pc: Pc, pc': Pc, a: Action)
    requires g.got <= |g.sent| && CallStep(h, maxLen, g, g', t, pc, pc', a) && !a.Read?
    requires CallInv(maxLen, g, t, pc) && PositionInv(h, g) && ReadOf(h, g, pc)
    ensures PositionInv(h, g') && ReadOf(h, g', pc') && AnswerOf(h, g', t, pc')
  {
    CallGrows(h, maxLen, g, g', t, pc, pc', a);
    hide Stream, IdAfter, Encode, EncodeAll, Bodies, SoFar, ReadStep, Readable;
    PositionKept(h, g, g');
    if a.WriteRequest? {
      ServedGrows(h, g.past.wire, Reached(g), |g.past.wire|);
      SoFarKept(h, g.past.wire, g'.past.wire, |g.past.wire|);
    } else if a.WriteSentinel? {
      SoFarKept(h, g.past.wire, g'.past.wire, pc.k);
    }
  }

  lemma OwnKept(h: Handler, maxLen: int, g: Shared, g': Shared, t: Tid, pc: Pc, pc': Pc, a: Action)
    requires StreamInv(g) && PastInv(maxLen, g) && CallInv(maxLen, g, t, pc) && Fresh(h, g) && Undisturbed(g')
    requires PositionInv(h, g) && ReadOf(h, g, pc) && CallStep(h, maxLen, g, g', t, pc, pc', a)
    ensures PositionInv(h, g') && ReadOf(h, g', pc') && AnswerOf(h, g', t, pc')
  {
    hide CallStep, PositionInv, ReadOf, AnswerOf, CallInv, Fresh, Adjacent, EncodeAll, PastInv;
    CallGrows(h, maxLen, g, g', t, pc, pc', a);
    UndisturbedBefore(g, g');
    assert g'.past.spilled == g.past.spilled;
    hide Undisturbed, Grows;
    if a.Read? {
      hide ReadsFrame, Replies;
      StepReadsFrame(h, maxLen, g, g', t, pc, pc', a);
      OwnReadKept(h, maxLen, g, g', t, pc, pc', a.n);
    } else {
      OwnWriteKept(h, maxLen, g, g', t, pc, pc', a);
    }
  }

  lemma WireIsStream(maxLen: int, g: Shared)
    requires PastInv(maxLen, g) && g.past.torn == 0
    ensures g.sent == EncodeAll(g.past.wire)
  {
    hide EncodeAll;
  }

  lemma ReadUnfolds(h: Handler, maxLen: int, g: Shared, g': Shared, t: Tid, pc: Pc, pc': Pc, a: Action)
    requires g.got <= |g.sent| && CallStep(h, maxLen, g, g', t, pc, pc', a) && a.Read?
    ensures pc.Reading? && g.read + a.n <= |Stream(h, g)| && g'.got == g.got
    ensures ReadStep(g, g', pc, pc', Stream(h, g)[g.read..g.read + a.n], a.ending, a.buffered)
  {
    hide Stream, Decode, Drain;
  }

  /** On an undisturbed connection a read step is a frame read. */
  lemma StepReadsFrame(h: Handler, maxLen: int, g: Shared, g': Shared, t: Tid, pc: Pc, pc': Pc, a: Action)
    requires StreamInv(g) && PastInv(maxLen, g) && Undisturbed(g) && PositionInv(h, g)
    requires CallStep(h, maxLen, g, g', t, pc, pc', a) && a.Read?
    ensures pc.Reading? && g'.got == g.got && ReadsFrame(g, g', pc, pc', a.n, Replies(h, g))
  {
    hide CallStep, PositionInv, Adjacent, EncodeAll, PastInv, ReadStep, ReadsFrame, Stream, Replies, AllSized;
    WireIsStream(maxLen, g);
    ReadUnfolds(h, maxLen, g, g', t, pc, pc', a);
    ReadIsFrameRead(h, g, g', pc, pc', a.n, a.ending, a.buffered);
  }

  /** Only the holder of mu is in the middle of a round trip. */
  lemma NoReaderWithoutMu(h: Handler, g: Shared, pc: Pc)
    requires !HoldsMu(pc)
    ensures ReadOf(h, g, pc)
  {
  }

  lemma CallStepKept(h: Handler, maxLen: int, s: System, s': System, t: Tid, a: Action)
    requires Inv(maxLen, s) && RepliesInv(h, s) && Fresh(h, s.g) && Undisturbed(s'.g)
    requires t in s.threads && Moves(s, s', t) && CallStep(h, maxLen, s.g, s'.g, t, s.threads[t], s'.threads[t], a)
    ensures RepliesInv(h, s')
  {
    assert CallInv(maxLen, s.g, t, s.threads[t]);
    OwnKept(h, maxLen, s.g, s'.g, t, s.threads[t], s'.threads[t], a);
    CallGrows(h, maxLen, s.g, s'.g, t, s.threads[t], s'.threads[t], a);
    assert s.g.past.taken <= |Replies(h, s.g)|;
    hide CallStep, PositionInv, ReadOf, AnswerOf, Fresh, PastInv, CallsInv, Undisturbed, Replies, KnownWriters;
    forall u | u in s'.threads && u != t
      ensures ReadOf(h, s'.g, s'.threads[u]) && AnswerOf(h, s'.g, u, s'.threads[u])
    {
      AnswerOfKept(h, s.g, s'.g, u, s.threads[u]);
      if HoldsMu(s.threads[u]) {
        ReadOfKept(h, s.g, s'.g, s.threads[u]);
      } else {
        NoReaderWithoutMu(h, s'.g, s.threads[u]);
      }
    }
  }

  lemma EnvStepKept(h: Handler, s: System, s': System, a: Action)
    requires RepliesInv(h, s) && s'.threads == s.threads && EnvStep(s.g, s'.g, a)
    ensures RepliesInv(h, s')
  {
    PositionKept(h, s.g, s'.g);
    assert s.g.past.taken <= |Replies(h, s.g)| && Grows(s.g, s'.g) && s'.g.past == s.g.past;
    hide PositionInv, ReadOf, AnswerOf, Replies, EnvStep;
    forall u | u in s'.threads ensures ReadOf(h, s'.g, s'.threads[u]) && AnswerOf(h, s'.g, u, s'.threads[u]) {
      ReadOfKept(h, s.g, s'.g, s.threads[u]);
      AnswerOfKept(h, s.g, s'.g, u, s.threads[u]);
    }
  }

  lemma BeginKept(h: Handler, s: System, s': System, t: Tid)
    requires RepliesInv(h, s) && BeginStep(s, s', t)
    ensures RepliesInv(h, s')
  {
    NoReaderWithoutMu(h, s'.g, s'.threads[t]);
    assert AnswerOf(h, s'.g, t, s'.threads[t]);
    hide PositionInv, ReadOf, AnswerOf;
  }

  /** Every step that does not stop inside a frame keeps them, in the window. */
  lemma StepKept(h: Handler, maxLen: int, s: System, s': System, t: Tid, a: Action)
    requires Inv(maxLen, s) && RepliesInv(h, s) && Fresh(h, s.g) && Undisturbed(s'.g) && Do(h, maxLen, s, s', t, a)
    ensures RepliesInv(h, s')
  {
    hide Inv, RepliesInv, Fresh, Undisturbed, CallStep, EnvStep, BeginStep;
    if a.Begin? {
      BeginKept(h, s, s', t);
    } else if IsEnv(a) {
      EnvStepKept(h, s, s', a);
    } else {
      CallStepKept(h, maxLen, s, s', t, a);
    }
  }

  lemma StepGrows(h: Handler, maxLen: int, s: System, s': System, t: Tid, a: Action)
    requires Do(h, maxLen, s, s', t, a)
    ensures Grows(s.g, s'.g)
  {
    if !a.Begin? && !IsEnv(a) {
      CallGrows(h, maxLen, s.g, s'.g, t, s.threads[t], s'.threads[t], a);
    }
    hide CallStep;
  }

  lemma UndisturbedBefore(g: Shared, g': Shared)
    requires Grows(g, g') && Undisturbed(g')
    ensures Undisturbed(g)
  {
  }

  lemma {:induction false} RunKeepsReplies(h: Handler, maxLen: int, run: seq<System>, i: nat)
    requires IsRun(h, maxLen, run) && i < |run| && Undisturbed(run[i].g)
    requires forall j :: 0 <= j < i ==> Fresh(h, run[j].g)
    ensures RepliesInv(h, run[i])
  {
    hide RepliesInv, Inv, Do, Initial, Fresh, Undisturbed, Grows;
    if i > 0 {
      assert Next(h, maxLen, run[i - 1], run[i - 1 + 1]);
      var t: Tid, a: Action :| Do(h, maxLen, run[i - 1], run[i], t, a);
      StepGrows(h, maxLen, run[i - 1], run[i], t, a);
      UndisturbedBefore(run[i - 1].g, run[i].g);
      RunKeepsReplies(h, maxLen, run, i - 1);
      RunKeepsInv(h, maxLen, run, i - 1);
      StepKept(h, maxLen, run[i - 1], run[i], t, a);
    } else {
      InitialReplies(h, run[0]);
    }
  }

  lemma InitialReplies(h: Handler, s: System)
    requires Initial(s)
    ensures RepliesInv(h, s)
  {
  }

  /** The call got its own command's output: the body is what the handler made of the command, run after exactly the
      commands that precede the call's own request on the wire. */
  ghost predicate OwnReply(h: Handler, g: Shared, t: Tid, pc: Pc)
    requires pc.Finished? && pc.result.Ok?
  {
    pc.k < |g.past.wire| == |g.past.writers| && g.past.writers[pc.k] == t && g.past.wire[pc.k].body == pc.cmd
    && h(SoFar(h, g.past.wire, pc.k).log, pc.cmd) == Respond(pc.result.value)
  }

  /** Main result. A call that returns a body returns its own command's output, if every failed read and write until
      then stopped between two frames, and no identifier came round again while a reply to it was unread. */
  lemma EveryCallerGetsItsOwnReply(h: Handler, maxLen: int, run: seq<System>, n: nat, t: Tid)
    requires IsRun(h, maxLen, run) && n < |run| && t in run[n].threads
    requires Undisturbed(run[n].g) && forall j :: 0 <= j < n ==> Fresh(h, run[j].g)
    requires run[n].threads[t].Finished? && run[n].threads[t].result.Ok?
    ensures OwnReply(h, run[n].g, t, run[n].threads[t])
  {
    hide IsRun, Undisturbed, Fresh;
    RunKeepsInv(h, maxLen, run, n);
    RunKeepsReplies(h, maxLen, run, n);
    hide LockInv, CallsInv, StreamInv, KnownWriters, PositionInv, ReadOf, IdAfter, EncodeAll, SoFar;
    assert AnswerOf(h, run[n].g, t, run[n].threads[t]);
  }
}
