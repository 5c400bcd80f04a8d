/** What the three reading modes of rcon/conn.go make of a stream of frames. */
module Reassembly {
  import opened Wire
  import opened Conn
  import opened ServerConn

  predicate Belongs(p: Packet, req: Int32) { p.id == req || p.id == -1 }

  predicate AllBelong(ps: seq<Packet>, req: Int32) { forall i :: 0 <= i < |ps| ==> Belongs(ps[i], req) }

  lemma MultiStep(p: Packet, more: Bytes, ending: Ending, buffered: Bytes -> nat, req: Int32, sentinel: Int32)
    requires Legal(p)
    ensures Multi(Encode(p) + more, ending, buffered, req, sentinel)
         == if p.id == sentinel then Reply(Ok([]), Drain(more, ending, buffered))
            else if !Belongs(p, req) then Reply(Err(ResponseMismatch), more)
            else Prepend(p.body, Multi(more, ending, buffered, req, sentinel))
  {
    hide Decode, Encode, Drain;
    DecodeEncode(p, more, ending);
  }

  /** Frames that belong to the request are collected in order. */
  lemma {:induction false} MultiCollects(ps: seq<Packet>, more: Bytes, ending: Ending, buffered: Bytes -> nat,
                                         req: Int32, sentinel: Int32)
    requires AllLegal(ps) && AllBelong(ps, req) && sentinel != req && sentinel != -1
    ensures Multi(EncodeAll(ps) + more, ending, buffered, req, sentinel)
         == Prepend(Bodies(ps), Multi(more, ending, buffered, req, sentinel))
  {
    hide Multi, Encode;
    if ps == [] {
      assert EncodeAll(ps) + more == more;
      PrependNothing(Multi(more, ending, buffered, req, sentinel));
    } else {
      var p, later := ps[0], ps[1..];
      Assoc(Encode(p), EncodeAll(later), more);
      MultiStep(p, EncodeAll(later) + more, ending, buffered, req, sentinel);
      MultiCollects(later, more, ending, buffered, req, sentinel);
      PrependTwice(p.body, Bodies(later), Multi(more, ending, buffered, req, sentinel));
    }
  }

  /** A complete response: its chunks, the echo, and then anything at all. */
  lemma MultiComplete(ps: seq<Packet>, echo: Packet, more: Bytes, ending: Ending, buffered: Bytes -> nat,
                      req: Int32, sentinel: Int32)
    requires AllLegal(ps) && AllBelong(ps, req) && sentinel != req && sentinel != -1
    requires Legal(echo) && echo.id == sentinel
    ensures Multi(EncodeAll(ps + [echo]) + more, ending, buffered, req, sentinel)
         == Reply(Ok(Bodies(ps)), Drain(more, ending, buffered))
  {
    hide Multi, Encode, EncodeAll, Drain, Bodies;
    EncodeAllConcat(ps, [echo]);
    EncodeAllOne(echo);
    Assoc(EncodeAll(ps), Encode(echo), more);
    MultiCollects(ps, Encode(echo) + more, ending, buffered, req, sentinel);
    MultiStep(echo, more, ending, buffered, req, sentinel);
    assert Bodies(ps) + [] == Bodies(ps);
  }

  /** A complete response cut anywhere: the whole body if the echo got through, otherwise an error and an
      empty stream. Nothing in between. */
  lemma {:induction false} MultiCut(ps: seq<Packet>, echo: Packet, cut: nat, ending: Ending,
                                    buffered: Bytes -> nat, req: Int32, sentinel: Int32)
    requires AllLegal(ps) && AllBelong(ps, req) && sentinel != req && sentinel != -1
    requires Legal(echo) && echo.id == sentinel
    ensures var r := Multi(Take(EncodeAll(ps + [echo]), cut), ending, buffered, req, sentinel);
            r.rest == []
            && if |EncodeAll(ps + [echo])| <= cut then r.result == Ok(Bodies(ps)) else r.result.Err?
  {
    hide Multi, Encode;
    var all := ps + [echo];
    var p := all[0];
    if cut < |Encode(p)| {
      TakeOfConcat(Encode(p), EncodeAll(all[1..]), cut);
      MultiFault(p, cut, ending, buffered, req, sentinel);
    } else {
      var left := cut - |Encode(p)|;
      var more := Take(EncodeAll(all[1..]), left);
      TakeOfConcat(Encode(p), EncodeAll(all[1..]), cut);
      MultiStep(p, more, ending, buffered, req, sentinel);
      if ps == [] {
        assert all[1..] == [] && more == [];
      } else {
        assert all[1..] == ps[1..] + [echo];
        MultiCut(ps[1..], echo, left, ending, buffered, req, sentinel);
      }
    }
  }

  lemma MultiFault(p: Packet, cut: nat, ending: Ending, buffered: Bytes -> nat, req: Int32, sentinel: Int32)
    requires Legal(p) && cut < |Encode(p)|
    ensures var r := Multi(Encode(p)[..cut], ending, buffered, req, sentinel);
            r.rest == [] && r.result.Err?
  {
    hide Decode, Encode;
    CutFrameFaults(p, cut, ending);
  }

  /** Bodies of the frames that belong to the request, in order; the others are skipped. */
  function BodiesOf(ps: seq<Packet>, req: Int32): (b: Bytes)
  {
    if ps == [] then []
    else (if Belongs(ps[0], req) then ps[0].body else []) + BodiesOf(ps[1..], req)
  }

  /** Frame n is the first with the sentinel's identifier, and all frames before it belong to the request. */
  ghost predicate Terminated(fs: seq<Packet>, n: nat, req: Int32, sentinel: Int32)
    requires n < |fs|
  {
    fs[n].id == sentinel && forall i :: 0 <= i < n ==> fs[i].id != sentinel && Belongs(fs[i], req)
  }

  /** A frame list answers the request with body b. */
  ghost predicate Answers(fs: seq<Packet>, req: Int32, sentinel: Int32, b: Bytes)
  {
    exists n :: 0 <= n < |fs| && Terminated(fs, n, req, sentinel) && b == Bodies(fs[..n])
  }

  lemma TerminatedLater(p: Packet, later: seq<Packet>, n: nat, req: Int32, sentinel: Int32)
    requires n < |later| && p.id != sentinel && Belongs(p, req)
    ensures Terminated([p] + later, n + 1, req, sentinel) <==> Terminated(later, n, req, sentinel)
    ensures Bodies(([p] + later)[..n + 1]) == p.body + Bodies(later[..n])
  {
    var fs := [p] + later;
    assert forall i :: 0 <= i < |later| ==> fs[i + 1] == later[i];
    assert fs[..n + 1][1..] == later[..n];
    if Terminated(fs, n + 1, req, sentinel) {
      forall i | 0 <= i < n ensures later[i].id != sentinel && Belongs(later[i], req) {
        assert later[i] == fs[i + 1];
      }
    }
  }

  lemma AnswersAtOnce(p: Packet, later: seq<Packet>, req: Int32, sentinel: Int32, b: Bytes)
    requires p.id == sentinel
    ensures Answers([p] + later, req, sentinel, b) <==> b == []
  {
    var fs := [p] + later;
    assert Terminated(fs, 0, req, sentinel) && fs[..0] == [];
  }

  lemma AnswersNever(p: Packet, later: seq<Packet>, req: Int32, sentinel: Int32, b: Bytes)
    requires p.id != sentinel && !Belongs(p, req)
    ensures !Answers([p] + later, req, sentinel, b)
  {
  }

  lemma AnswersLater(p: Packet, later: seq<Packet>, req: Int32, sentinel: Int32, b: Bytes)
    requires p.id != sentinel && Belongs(p, req)
    ensures Answers([p] + later, req, sentinel, b)
       <==> p.body <= b && Answers(later, req, sentinel, b[|p.body|..])
  {
    hide Bodies, Terminated;
    var fs := [p] + later;
    if Answers(fs, req, sentinel, b) {
      var n :| 0 <= n < |fs| && Terminated(fs, n, req, sentinel) && b == Bodies(fs[..n]);
      assert n > 0 by { FirstTerminates(fs, req, sentinel); }
      TerminatedLater(p, later, n - 1, req, sentinel);
      assert b[|p.body|..] == Bodies(later[..n - 1]);
    }
    if p.body <= b && Answers(later, req, sentinel, b[|p.body|..]) {
      var n :| 0 <= n < |later| && Terminated(later, n, req, sentinel) && b[|p.body|..] == Bodies(later[..n]);
      TerminatedLater(p, later, n, req, sentinel);
      assert b == p.body + b[|p.body|..];
    }
  }

  lemma FirstTerminates(fs: seq<Packet>, req: Int32, sentinel: Int32)
    requires fs != []
    ensures Terminated(fs, 0, req, sentinel) <==> fs[0].id == sentinel
  {
  }

  /** For every byte stream whatsoever: multi-packet reading succeeds exactly when some frame carries the
      sentinel's identifier and every frame before it belongs to the request, and then it returns the bodies
      of those frames. */
  lemma {:induction false} MultiMeaning(input: Bytes, ending: Ending, buffered: Bytes -> nat, req: Int32,
                                        sentinel: Int32, b: Bytes)
    ensures Multi(input, ending, buffered, req, sentinel).result == Ok(b)
       <==> Answers(ParseFrames(input, ending).frames, req, sentinel, b)
    decreases |input|
  {
    hide Decode, Drain, Answers;
    match Decode(input, ending)
    case Fault(_, _) => AnswersNone(req, sentinel, b);
    case Frame(p, rest) =>
      var later := ParseFrames(rest, ending).frames;
      if p.id == sentinel {
        AnswersAtOnce(p, later, req, sentinel, b);
      } else if !Belongs(p, req) {
        AnswersNever(p, later, req, sentinel, b);
      } else {
        AnswersLater(p, later, req, sentinel, b);
        PrependIsOk(p.body, Multi(rest, ending, buffered, req, sentinel), b);
        if p.body <= b {
          MultiMeaning(rest, ending, buffered, req, sentinel, b[|p.body|..]);
        }
      }
  }

  /** Frame n is the first that is neither of the request nor the echo. */
  ghost predicate ForeignAt(fs: seq<Packet>, n: nat, req: Int32, sentinel: Int32)
  {
    n < |fs| && fs[n].id != sentinel && !Belongs(fs[n], req)
    && forall i :: 0 <= i < n ==> fs[i].id != sentinel && Belongs(fs[i], req)
  }

  /** And what multi mode returns if it does not return a body: a mismatch exactly if a foreign frame comes before the echo, and else
      the error the read met after the last whole frame. */
  lemma {:induction false} MultiFailure(input: Bytes, ending: Ending, buffered: Bytes -> nat, req: Int32, sentinel: Int32)
    ensures var parse := ParseFrames(input, ending);
            var r := Multi(input, ending, buffered, req, sentinel).result;
            r.Err? ==> r.error == if exists n: nat :: ForeignAt(parse.frames, n, req, sentinel) then ResponseMismatch else parse.fault
    decreases |input|
  {
    hide Decode;
    var d, fs := Decode(input, ending), ParseFrames(input, ending).frames;
    if d.Frame? {
      if d.packet.id == sentinel {
      } else if !Belongs(d.packet, req) {
        assert ForeignAt(fs, 0, req, sentinel);
      } else {
        MultiFailure(d.rest, ending, buffered, req, sentinel);
        ForeignLater(d.packet, ParseFrames(d.rest, ending).frames, req, sentinel);
      }
    }
  }

  lemma ForeignLater(p: Packet, later: seq<Packet>, req: Int32, sentinel: Int32)
    requires p.id != sentinel && Belongs(p, req)
    ensures (exists n: nat :: ForeignAt([p] + later, n, req, sentinel)) <==> (exists n: nat :: ForeignAt(later, n, req, sentinel))
  {
    var fs := [p] + later;
    if n: nat :| ForeignAt(fs, n, req, sentinel) {
      forall i | 0 <= i < n - 1 ensures later[i].id != sentinel && Belongs(later[i], req) { assert fs[i + 1] == later[i]; }
      assert ForeignAt(later, n - 1, req, sentinel);
    }
    if n: nat :| ForeignAt(later, n, req, sentinel) {
      assert ForeignAt(fs, n + 1, req, sentinel);
    }
  }

  lemma AnswersNone(req: Int32, sentinel: Int32, b: Bytes)
    ensures !Answers([], req, sentinel, b)
  {
  }

  lemma PrependIsOk(a: Bytes, r: Reply, b: Bytes)
    ensures Prepend(a, r).result == Ok(b) <==> a <= b && r.result == Ok(b[|a|..])
  {
    if a <= b {
      assert b == a + b[|a|..];
    }
    if r.result.Ok? && b == a + r.result.value {
      assert b[|a|..] == r.result.value;
    }
  }

  lemma IdleStep(p: Packet, more: Bytes, ending: Ending, req: Int32, first: bool)
    requires Legal(p)
    ensures Idle(Encode(p) + more, ending, req, first)
         == Prepend(if Belongs(p, req) then p.body else [], Idle(more, ending, req, false))
  {
    hide Decode, Encode;
    DecodeEncode(p, more, ending);
  }

  /** Reading until idle collects, from any list of frames that ends in quiet or in the end of the stream,
      just the bodies that belong to the request. */
  lemma {:induction false} IdleCollects(ps: seq<Packet>, ending: Ending, req: Int32, first: bool)
    requires AllLegal(ps) && (first ==> ps != []) && ending != Broken
    ensures Idle(EncodeAll(ps), ending, req, first) == Reply(Ok(BodiesOf(ps, req)), [])
  {
    hide Encode;
    if ps == [] {
    } else {
      hide Idle;
      IdleStep(ps[0], EncodeAll(ps[1..]), ending, req, first);
      IdleCollects(ps[1..], ending, req, false);
    }
  }

  /** What reading until idle means, for every byte stream: the bodies of the request among all frames the stream holds,
      if it got one at all and the stream then falls quiet or ends; else the error the read met. */
  lemma {:induction false} IdleMeaning(input: Bytes, ending: Ending, req: Int32, first: bool)
    ensures var parse := ParseFrames(input, ending);
            Idle(input, ending, req, first).result
            == if (first && parse.frames == []) || !EndsIdle(parse.fault) then Err(parse.fault)
               else Ok(BodiesOf(parse.frames, req))
    decreases |input|
  {
    hide Decode;
    if Decode(input, ending).Frame? {
      IdleMeaning(Decode(input, ending).rest, ending, req, false);
    }
  }

  /** How read-until-idle mode ends, for every byte stream and without reference to how it tells errors apart. Let `frames` be
      the whole frames of the stream and `left` the number of bytes after them. A refused frame size fails the call, see
      SizeRefusedIff, and so does a broken connection. A timeout completes the response once one frame has arrived, wherever
      it falls. The end of the stream completes it only if nothing or just a size field follows the last whole frame. */
  lemma IdleEndings(input: Bytes, ending: Ending, req: Int32, first: bool)
    ensures var parse := ParseFrames(input, ending);
            var left := |input| - |EncodeAll(parse.frames)|;
            var got := !first || parse.frames != [];
            Idle(input, ending, req, first).result
            == if SizeRefused(parse.fault) then Err(parse.fault)
               else match ending
                    case Broken => Err(Net(false))
                    case DeadlineExpired => if got then Ok(BodiesOf(parse.frames, req)) else Err(Net(true))
                    case EndOfStream =>
                      if left != 0 && left != 4 then Err(UnexpectedEof)
                      else if got then Ok(BodiesOf(parse.frames, req)) else Err(Eof)
  {
    IdleMeaning(input, ending, req, first);
    ParseFaultMeaning(input, ending);
    hide Idle, ParseFrames, EncodeAll, BodiesOf;
  }

  /** A frame size is refused exactly when the first bytes after the whole frames declare one out of range; every such stream
      fails, in idle mode as in the others. */
  lemma {:induction false} SizeRefusedIff(input: Bytes, ending: Ending)
    ensures var parse := ParseFrames(input, ending);
            var at := |EncodeAll(parse.frames)|;
            at <= |input| && (SizeRefused(parse.fault) <==> |input| - at >= 4 && !InRange(GetUint32(input[at..at + 4])))
    decreases |input|
  {
    hide Encode, GetUint32, Decode, InRange;
    if Decode(input, ending).Frame? {
      FrameSize(input, ending);
      var r := Decode(input, ending);
      SizeRefusedIff(r.rest, ending);
      var later, size := ParseFrames(r.rest, ending).frames, |Encode(r.packet)|;
      assert ([r.packet] + later)[1..] == later;
      var at := |EncodeAll(later)|;
      if |r.rest| - at >= 4 {
        assert input[size..][at..at + 4] == input[size + at..size + at + 4];
      }
    } else {
      assert EncodeAll([]) == [];
      FaultRefusedIff(input, ending);
    }
  }

  predicate InRange(size: int) { 10 <= size <= 4106 }

  lemma FaultRefusedIff(input: Bytes, ending: Ending)
    requires Decode(input, ending).Fault?
    ensures SizeRefused(Decode(input, ending).error) <==> |input| >= 4 && !InRange(GetUint32(input[0..4]))
  {
    hide GetUint32;
    if |input| >= 4 {
      assert input[0..4] == input[..4];
    }
  }

  /** What single mode means, for every byte stream: the first frame's body or a mismatch, with all after it left unread; or,
      if there is no whole frame, the error the read met. */
  lemma SingleMeaning(input: Bytes, ending: Ending, req: Int32)
    ensures var parse := ParseFrames(input, ending);
            var reply := Single(input, ending, req);
            if parse.frames == [] then reply.result == Err(parse.fault)
            else
              var f := parse.frames[0];
              |Encode(f)| <= |input| && reply.rest == input[|Encode(f)|..]
              && reply.result == if f.id == req || f.id == -1 then Ok(f.body) else Err(ResponseMismatch)
  {
    if Decode(input, ending).Frame? {
      FrameSize(input, ending);
    }
    hide Decode, Encode;
  }

  /** How many bytes of the first incomplete frame lie within the first `cut` bytes. */
  function Leftover(ps: seq<Packet>, cut: nat): (n: nat)
  {
    if ps == [] then 0 else if cut < |Encode(ps[0])| then cut else Leftover(ps[1..], cut - |Encode(ps[0])|)
  }

  /** The error a read meets at the cut. */
  function CutError(ps: seq<Packet>, cut: nat, ending: Ending): (e: Error)
  {
    var n := Leftover(ps, cut);
    ShortRead(if n < 4 then n else n - 4, ending)
  }

  /** What reading until idle makes of a response cut anywhere. Once one frame has arrived whole, a timeout at
      any point, and an end of stream between frames or right after a size field, pass for the end of the
      response: the body is that of the whole frames of the request only, and the bytes of the incomplete one are lost. */
  function IdleAtCut(ps: seq<Packet>, cut: nat, ending: Ending, req: Int32, first: bool): (r: Reply)
  {
    var n, e := WholeFrames(ps, cut), CutError(ps, cut, ending);
    Reply(if (first && n == 0) || !EndsIdle(e) then Err(e) else Ok(BodiesOf(ps[..n], req)), [])
  }

  lemma IdleAtCutStep(ps: seq<Packet>, cut: nat, ending: Ending, req: Int32, first: bool)
    requires ps != [] && cut >= |Encode(ps[0])|
    ensures IdleAtCut(ps, cut, ending, req, first)
         == Prepend(if Belongs(ps[0], req) then ps[0].body else [], IdleAtCut(ps[1..], cut - |Encode(ps[0])|, ending, req, false))
  {
    hide Encode;
    var n := WholeFrames(ps, cut);
    assert ps[..n][1..] == ps[1..][..n - 1];
  }

  lemma {:induction false} IdleCut(ps: seq<Packet>, cut: nat, ending: Ending, req: Int32, first: bool)
    requires AllLegal(ps)
    ensures Idle(Take(EncodeAll(ps), cut), ending, req, first) == IdleAtCut(ps, cut, ending, req, first)
  {
    hide Encode, Idle, IdleAtCut;
    if ps == [] {
      IdleNothing(ending, req, first, cut);
    } else {
      TakeOfConcat(Encode(ps[0]), EncodeAll(ps[1..]), cut);
      hide Take;
      if cut < |Encode(ps[0])| {
        IdleFault(ps[0], cut, ending, req, first);
        IdleAtCutBase(ps, cut, ending, req, first);
      } else {
        var left := cut - |Encode(ps[0])|;
        IdleStep(ps[0], Take(EncodeAll(ps[1..]), left), ending, req, first);
        IdleCut(ps[1..], left, ending, req, false);
        IdleAtCutStep(ps, cut, ending, req, first);
      }
    }
  }

  lemma IdleNothing(ending: Ending, req: Int32, first: bool, cut: nat)
    ensures Idle(Take(EncodeAll([]), cut), ending, req, first) == IdleAtCut([], cut, ending, req, first)
  {
  }

  lemma IdleAtCutBase(ps: seq<Packet>, cut: nat, ending: Ending, req: Int32, first: bool)
    requires ps != [] && cut < |Encode(ps[0])|
    ensures var e := ShortRead(if cut < 4 then cut else cut - 4, ending);
            IdleAtCut(ps, cut, ending, req, first) == Reply(if first || !EndsIdle(e) then Err(e) else Ok([]), [])
  {
    hide Encode;
    assert ps[..0] == [];
  }

  lemma IdleFault(p: Packet, cut: nat, ending: Ending, req: Int32, first: bool)
    requires Legal(p) && cut < |Encode(p)|
    ensures var e := ShortRead(if cut < 4 then cut else cut - 4, ending);
            Idle(Encode(p)[..cut], ending, req, first) == Reply(if first || !EndsIdle(e) then Err(e) else Ok([]), [])
  {
    hide Decode, Encode;
    CutFrameFaults(p, cut, ending);
  }

  lemma {:induction false} AllBodiesBelong(ps: seq<Packet>, req: Int32)
    requires AllBelong(ps, req)
    ensures BodiesOf(ps, req) == Bodies(ps)
  {
    if ps != [] {
      AllBodiesBelong(ps[1..], req);
    }
  }

  lemma SingleStep(p: Packet, more: Bytes, ending: Ending, req: Int32)
    requires Legal(p)
    ensures Single(Encode(p) + more, ending, req)
         == Reply(if Belongs(p, req) then Ok(p.body) else Err(ResponseMismatch), more)
  {
    hide Decode, Encode;
    DecodeEncode(p, more, ending);
  }
}
