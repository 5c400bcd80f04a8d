/** The RCON frame codec of rcon/packet.go, stated on byte sequences: one frame, and a stream of frames
    that ends somewhere. The methods that fill and consume buffers are in Sockets. */
module Wire {

  type byte = x: int | 0 <= x < 0x100
  type Bytes = seq<byte>
  type Int32 = x: int | -0x8000_0000 <= x < 0x8000_0000
  type Uint32 = x: int | 0 <= x < 0x1_0000_0000

  datatype Option<+T> = None | Some(value: T)

  datatype Error =
    | Eof                 // io.EOF
    | UnexpectedEof       // io.ErrUnexpectedEOF
    | Net(timeout: bool)  // any net.Error; timeout tells its Timeout() method
    | ResponseTooShort
    | ResponseTooLong
    | AuthFailed
    | InvalidAuthResponse
    | Closed
    | CommandEmpty
    | CommandTooLong
    | ResponseMismatch
    | Cancelled           // the error of a finished context
    | Other               // any error none of the packages classifies

  datatype Result<+T> = Ok(value: T) | Err(error: Error)

  /** What a read meets once every byte that arrived has been consumed. */
  datatype Ending = EndOfStream | DeadlineExpired | Broken

  const RESPONSE_VALUE: Int32 := 0
  const EXEC_COMMAND: Int32 := 2
  const AUTH_RESPONSE: Int32 := 2
  const AUTH: Int32 := 3

  const MAX_PAYLOAD_SIZE := 4096
  const HEADER_SIZE := 8
  const PADDING_SIZE := 2
  const MIN_PACKET_SIZE := HEADER_SIZE + PADDING_SIZE

  datatype Packet = Packet(id: Int32, typ: Int32, body: Bytes)

  /** The packets a reader accepts: every other body makes a frame whose declared size is refused. */
  predicate Legal(p: Packet) { |p.body| <= MAX_PAYLOAD_SIZE }

  predicate AllLegal(ps: seq<Packet>) { forall i :: 0 <= i < |ps| ==> Legal(ps[i]) }

  function AsUint32(x: int): (u: Uint32) { x % 0x1_0000_0000 }

  function AsInt32(u: Uint32): (x: Int32) { if u < 0x8000_0000 then u else u - 0x1_0000_0000 }

  function PutUint32(u: Uint32): (b: Bytes)
    ensures |b| == 4
  {
    [u % 0x100, u / 0x100 % 0x100, u / 0x1_0000 % 0x100, u / 0x100_0000]
  }

  function GetUint32(b: Bytes): (u: Uint32)
    requires |b| == 4
  {
    var b0: int, b1: int, b2: int, b3: int := b[0], b[1], b[2], b[3];
    b0 + 0x100 * b1 + 0x1_0000 * b2 + 0x100_0000 * b3
  }

  lemma Uint32RoundTrip(u: Uint32)
    ensures GetUint32(PutUint32(u)) == u
  {
    assert u / 0x1_0000 == u / 0x100 / 0x100;
    assert u / 0x100_0000 == u / 0x1_0000 / 0x100;
  }

  lemma BytesRoundTrip(b: Bytes)
    requires |b| == 4
    ensures PutUint32(GetUint32(b)) == b
  {
    var u := GetUint32(b);
    var b1: int, b2: int, b3: int := b[1], b[2], b[3];
    assert u / 0x100 == b1 + 0x100 * b2 + 0x1_0000 * b3;
    assert u / 0x1_0000 == b2 + 0x100 * b3;
  }

  /** The header: size, id and type, each little-endian. */
  function Header(p: Packet): (h: Bytes)
    ensures |h| == 4 + HEADER_SIZE
  {
    PutUint32(AsUint32(MIN_PACKET_SIZE + |p.body|)) + PutUint32(AsUint32(p.id)) + PutUint32(AsUint32(p.typ))
  }

  /** One frame as it goes on the wire. */
  function Encode(p: Packet): (b: Bytes)
    ensures |b| == 4 + MIN_PACKET_SIZE + |p.body|
  {
    Header(p) + p.body + [0, 0]
  }

  datatype Read =
    | Frame(packet: Packet, rest: Bytes)
    | Fault(error: Error, rest: Bytes)

  /** io.ReadFull on a stream that ends after `got` more bytes, fewer than it wants. */
  function ShortRead(got: nat, ending: Ending): (e: Error)
  {
    match ending
    case EndOfStream => if got == 0 then Eof else UnexpectedEof
    case DeadlineExpired => Net(true)
    case Broken => Net(false)
  }

  /** One frame read off the front of `input`, after which the stream ends as `ending` says. */
  function Decode(input: Bytes, ending: Ending): (r: Read)
    ensures |r.rest| <= |input|
    ensures r.Frame? ==> |r.rest| < |input| && Legal(r.packet)
  {
    if |input| < 4 then Fault(ShortRead(|input|, ending), [])
    else
      var size := GetUint32(input[..4]);
      if size > MAX_PAYLOAD_SIZE + MIN_PACKET_SIZE then Fault(ResponseTooLong, input[4..])
      else if size < MIN_PACKET_SIZE then Fault(ResponseTooShort, input[4..])
      else if |input| - 4 < size then Fault(ShortRead(|input| - 4, ending), [])
      else
        var body := input[4..4 + size];
        Frame(Packet(AsInt32(GetUint32(body[..4])), AsInt32(GetUint32(body[4..8])), body[8..size - PADDING_SIZE]),
              input[4 + size..])
  }

  lemma FrameParts(size: Bytes, id: Bytes, typ: Bytes, body: Bytes, tail: Bytes)
    requires |size| == |id| == |typ| == 4
    ensures var input := size + id + typ + body + [0, 0] + tail;
            var n := 14 + |body|;
            input[..4] == size && input[4..n][..4] == id && input[4..n][4..8] == typ
            && input[4..n][8..n - 6] == body && input[n..] == tail
  {
  }

  /** Decoding what was encoded gives the packet back and leaves exactly the bytes that followed. */
  lemma DecodeEncode(p: Packet, tail: Bytes, ending: Ending)
    requires Legal(p)
    ensures Decode(Encode(p) + tail, ending) == Frame(p, tail)
  {
    hide PutUint32, GetUint32;
    var size := MIN_PACKET_SIZE + |p.body|;
    Uint32RoundTrip(AsUint32(size));
    Uint32RoundTrip(AsUint32(p.id));
    Uint32RoundTrip(AsUint32(p.typ));
    FrameParts(PutUint32(AsUint32(size)), PutUint32(AsUint32(p.id)), PutUint32(AsUint32(p.typ)), p.body, tail);
  }

  /** A body over the payload cap makes a frame every reader refuses after its four size bytes. The one
      exception, a body so long that the 32-bit size field wraps, is outside this lemma. */
  lemma OverlongIsRefused(p: Packet, tail: Bytes, ending: Ending)
    requires !Legal(p) && |p.body| < 0x1_0000_0000 - MIN_PACKET_SIZE
    ensures Decode(Encode(p) + tail, ending) == Fault(ResponseTooLong, (Encode(p) + tail)[4..])
  {
    var input := Encode(p) + tail;
    Uint32RoundTrip(AsUint32(MIN_PACKET_SIZE + |p.body|));
    assert input[..4] == PutUint32(AsUint32(MIN_PACKET_SIZE + |p.body|));
  }

  /** A declared size outside the legal range consumes exactly the four size bytes, whatever follows. */
  lemma OutOfRangeConsumesFour(input: Bytes, ending: Ending)
    requires |input| >= 4
    ensures var size := GetUint32(input[..4]);
            var r := Decode(input, ending);
            (r.Fault? && r.error == ResponseTooLong <==> size > MAX_PAYLOAD_SIZE + MIN_PACKET_SIZE)
            && (r.Fault? && r.error == ResponseTooShort <==> size < MIN_PACKET_SIZE)
            && (r.Fault? && r.error in {ResponseTooLong, ResponseTooShort} ==> r.rest == input[4..])
  {
  }

  lemma SliceOfSlice(s: Bytes, a: nat, b: nat, c: nat, d: nat)
    requires a <= b <= |s| && c <= d <= b - a
    ensures s[a..b][c..d] == s[a + c..a + d]
  {
    forall i | 0 <= i < d - c ensures s[a..b][c..d][i] == s[a + c..a + d][i] {
      assert s[a..b][c..d][i] == s[a..b][c + i] == s[a + c + i];
    }
  }

  /** The parts of a frame of n bytes at the front of the input. */
  lemma FrameSlices(input: Bytes, n: nat)
    requires 14 <= n <= |input|
    ensures var body := input[4..n];
            body[..4] == input[4..8] && body[4..8] == input[8..12] && body[8..n - 6] == input[12..n - 2]
    ensures input[..12] == input[..4] + input[4..8] + input[8..12]
    ensures input[..n] == input[..12] + input[12..n - 2] + [input[n - 2], input[n - 1]]
  {
    SliceOfSlice(input, 4, n, 0, 4);
    assert input[4..n][0..4] == input[4..n][..4];
    SliceOfSlice(input, 4, n, 4, 8);
    SliceOfSlice(input, 4, n, 8, n - 6);
  }

  lemma PaddingIff(front: Bytes, x: byte, y: byte)
    ensures front + [0, 0] == front + [x, y] <==> x == 0 && y == 0
  {
    assert (front + [x, y])[|front|] == x && (front + [x, y])[|front| + 1] == y;
    assert (front + [0, 0])[|front|] == 0 && (front + [0, 0])[|front| + 1] == 0;
  }

  /** Re-encoding a decoded frame gives back the consumed bytes exactly when its two padding bytes were zero. */
  lemma ReencodeIffZeroPadding(input: Bytes, ending: Ending)
    requires Decode(input, ending).Frame?
    ensures var r := Decode(input, ending);
            var n := |input| - |r.rest|;
            n >= 14 && |Encode(r.packet)| == n && r.rest == input[n..]
            && (Encode(r.packet) == input[..n] <==> input[n - 2] == 0 && input[n - 1] == 0)
  {
    hide PutUint32, GetUint32;
    var r := Decode(input, ending);
    var n := 4 + GetUint32(input[..4]);
    FrameSlices(input, n);
    BytesRoundTrip(input[..4]);
    BytesRoundTrip(input[4..8]);
    BytesRoundTrip(input[8..12]);
    assert AsUint32(r.packet.id) == GetUint32(input[4..8]);
    assert AsUint32(r.packet.typ) == GetUint32(input[8..12]);
    assert |r.packet.body| == n - 14 && r.packet.body == input[12..n - 2];
    assert Header(r.packet) == input[..12];
    PaddingIff(input[..12] + input[12..n - 2], input[n - 2], input[n - 1]);
  }

  /** A frame cut short never decodes: a reader gets the error of a short read, and nothing is left. The
      clean end of stream shows up as io.EOF only before the frame or right after its size field. */
  lemma CutFrameFaults(p: Packet, cut: nat, ending: Ending)
    requires Legal(p) && cut < |Encode(p)|
    ensures Decode(Encode(p)[..cut], ending) == Fault(ShortRead(if cut < 4 then cut else cut - 4, ending), [])
  {
    if cut >= 4 {
      var size := MIN_PACKET_SIZE + |p.body|;
      Uint32RoundTrip(AsUint32(size));
      assert Encode(p)[..cut][..4] == PutUint32(AsUint32(size));
    }
  }

  /** A list of frames, one after the other. */
  function EncodeAll(ps: seq<Packet>): (b: Bytes)
  {
    if ps == [] then [] else Encode(ps[0]) + EncodeAll(ps[1..])
  }

  lemma {:induction false} EncodeAllConcat(ps: seq<Packet>, qs: seq<Packet>)
    ensures EncodeAll(ps + qs) == EncodeAll(ps) + EncodeAll(qs)
  {
    if ps == [] {
      assert ps + qs == qs;
    } else {
      assert (ps + qs)[0] == ps[0] && (ps + qs)[1..] == ps[1..] + qs;
      EncodeAllConcat(ps[1..], qs);
    }
  }

  lemma EncodeAllOne(p: Packet)
    ensures EncodeAll([p]) == Encode(p)
  {
    assert [p][1..] == [];
  }

  /** The frames a reader gets off `input` before its first fault, and that fault. */
  datatype Parse = Parse(frames: seq<Packet>, fault: Error)

  function ParseFrames(input: Bytes, ending: Ending): (r: Parse)
    ensures AllLegal(r.frames)
    decreases |input|
  {
    match Decode(input, ending)
    case Fault(e, _) => Parse([], e)
    case Frame(p, rest) =>
      var later := ParseFrames(rest, ending);
      Parse([p] + later.frames, later.fault)
  }

  lemma ParseStep(p: Packet, more: Bytes, ending: Ending)
    requires Legal(p)
    ensures ParseFrames(Encode(p) + more, ending)
         == Parse([p] + ParseFrames(more, ending).frames, ParseFrames(more, ending).fault)
  {
    DecodeEncode(p, more, ending);
  }

  lemma Assoc(a: Bytes, b: Bytes, c: Bytes)
    ensures (a + b) + c == a + (b + c)
  {
  }

  /** The encoding of any list of legal packets parses back to that list, and then to whatever follows. */
  lemma {:induction false} ParseEncodeAll(ps: seq<Packet>, tail: Bytes, ending: Ending)
    requires AllLegal(ps)
    ensures ParseFrames(EncodeAll(ps) + tail, ending)
         == Parse(ps + ParseFrames(tail, ending).frames, ParseFrames(tail, ending).fault)
  {
    hide ParseFrames, Encode;
    if ps == [] {
      assert EncodeAll(ps) + tail == tail;
    } else {
      var more := EncodeAll(ps[1..]) + tail;
      Assoc(Encode(ps[0]), EncodeAll(ps[1..]), tail);
      ParseStep(ps[0], more, ending);
      ParseEncodeAll(ps[1..], tail, ending);
      assert ps == [ps[0]] + ps[1..];
    }
  }

  /** Two lists with the same encoding are the same list. */
  lemma EncodingIsUnique(ps: seq<Packet>, qs: seq<Packet>)
    requires AllLegal(ps) && AllLegal(qs)
    requires EncodeAll(ps) == EncodeAll(qs)
    ensures ps == qs
  {
    hide Encode, EncodeAll;
    ParseEncodeAll(ps, [], EndOfStream);
    ParseEncodeAll(qs, [], EndOfStream);
    assert EncodeAll(ps) + [] == EncodeAll(ps);
    assert EncodeAll(qs) + [] == EncodeAll(qs);
    var tail := ParseFrames([], EndOfStream).frames;
    assert ps + tail == qs + tail;
    assert ps == (ps + tail)[..|ps|] && qs == (qs + tail)[..|qs|];
  }

  /** The first `limit` bytes, or all of them. */
  function Take(b: Bytes, limit: nat): (r: Bytes)
    ensures r <= b
  {
    if limit < |b| then b[..limit] else b
  }

  lemma TakeOfConcat(a: Bytes, b: Bytes, limit: nat)
    ensures Take(a + b, limit) == if limit < |a| then a[..limit] else a + Take(b, limit - |a|)
  {
  }

  /** How many whole frames lie within the first `cut` bytes of the encoding of `ps`. */
  function WholeFrames(ps: seq<Packet>, cut: nat): (n: nat)
    ensures n <= |ps|
  {
    if ps == [] || cut < |Encode(ps[0])| then 0 else 1 + WholeFrames(ps[1..], cut - |Encode(ps[0])|)
  }

  /** WholeFrames counts what it says: n frames fit exactly when their encoding is no longer than the cut. */
  lemma {:induction false} WholeFramesMeaning(ps: seq<Packet>, cut: nat, n: nat)
    requires n <= |ps|
    ensures n <= WholeFrames(ps, cut) <==> |EncodeAll(ps[..n])| <= cut
  {
    hide Encode;
    if n > 0 {
      assert ps[..n][1..] == ps[1..][..n - 1];
      if cut >= |Encode(ps[0])| {
        WholeFramesMeaning(ps[1..], cut - |Encode(ps[0])|, n - 1);
      }
    }
  }

  /** Cutting the stream of a frame list anywhere yields the frames that arrived whole, then an error. */
  lemma {:induction false} ParseCut(ps: seq<Packet>, cut: nat, ending: Ending)
    requires AllLegal(ps)
    ensures ParseFrames(Take(EncodeAll(ps), cut), ending).frames == ps[..WholeFrames(ps, cut)]
  {
    hide Decode, Encode;
    if ps == [] {
    } else if cut < |Encode(ps[0])| {
      TakeOfConcat(Encode(ps[0]), EncodeAll(ps[1..]), cut);
      CutFrameFaults(ps[0], cut, ending);
    } else {
      var left := cut - |Encode(ps[0])|;
      TakeOfConcat(Encode(ps[0]), EncodeAll(ps[1..]), cut);
      ParseStep(ps[0], Take(EncodeAll(ps[1..]), left), ending);
      ParseCut(ps[1..], left, ending);
      assert ps[..WholeFrames(ps, cut)] == [ps[0]] + ps[1..][..WholeFrames(ps[1..], left)];
    }
  }

  // ----- frames of any size -----

  /** Bodies whose frame size does not wrap in its 32-bit field. */
  predicate Sized(p: Packet) { |p.body| < 0x1_0000_0000 - MIN_PACKET_SIZE }

  predicate AllSized(ps: seq<Packet>) { forall i :: 0 <= i < |ps| ==> Sized(ps[i]) }

  /** How many leading frames a reader gets out of the first `cut` bytes of the encoding of `ps`: it stops at the
      cut, and for good at the first frame that is too long. */
  function Readable(ps: seq<Packet>, cut: nat): (n: nat)
    ensures n <= |ps| && n <= cut
  {
    if ps == [] || !Legal(ps[0]) || cut < |Encode(ps[0])| then 0 else 1 + Readable(ps[1..], cut - |Encode(ps[0])|)
  }

  /** However little of an overlong frame arrives, it never decodes. */
  lemma OverlongNeverDecodes(p: Packet, tail: Bytes, cut: nat, ending: Ending)
    requires !Legal(p) && Sized(p)
    ensures Decode(Take(Encode(p) + tail, cut), ending).Fault?
  {
    var input := Take(Encode(p) + tail, cut);
    if |input| >= 4 {
      OverlongIsRefused(p, tail, ending);
      assert input[..4] == (Encode(p) + tail)[..4];
      hide Encode, GetUint32;
    }
  }

  /** Any frames at all, cut anywhere, parse to exactly the readable ones. */
  lemma {:induction false} ParseReadable(ps: seq<Packet>, cut: nat, ending: Ending)
    requires AllSized(ps)
    ensures ParseFrames(Take(EncodeAll(ps), cut), ending).frames == ps[..Readable(ps, cut)]
  {
    hide Decode, Encode;
    if ps == [] {
      DecodeNothing(ending);
    } else if !Legal(ps[0]) {
      OverlongNeverDecodes(ps[0], EncodeAll(ps[1..]), cut, ending);
    } else if cut < |Encode(ps[0])| {
      TakeOfConcat(Encode(ps[0]), EncodeAll(ps[1..]), cut);
      CutFrameFaults(ps[0], cut, ending);
    } else {
      var left := cut - |Encode(ps[0])|;
      TakeOfConcat(Encode(ps[0]), EncodeAll(ps[1..]), cut);
      ParseStep(ps[0], Take(EncodeAll(ps[1..]), left), ending);
      ParseReadable(ps[1..], left, ending);
      assert ps[..Readable(ps, cut)] == [ps[0]] + ps[1..][..Readable(ps[1..], left)];
    }
  }

  lemma DecodeNothing(ending: Ending)
    ensures Decode([], ending) == Fault(ShortRead(0, ending), [])
  {
  }

  /** More frames and more bytes never make fewer readable. */
  lemma {:induction false} ReadableGrows(ps: seq<Packet>, qs: seq<Packet>, a: nat, b: nat)
    requires ps <= qs && a <= b
    ensures Readable(ps, a) <= Readable(qs, b)
  {
    hide Encode;
    if ps != [] && Legal(ps[0]) && a >= |Encode(ps[0])| {
      ReadableGrows(ps[1..], qs[1..], a - |Encode(ps[0])|, b - |Encode(ps[0])|);
    }
  }

  // ----- how a stream ends for its reader -----

  /** The errors that can stop a read or a write inside a frame. */
  predicate IoError(e: Error) { e.Net? || e in {Eof, UnexpectedEof, ResponseTooLong, ResponseTooShort} }

  predicate SizeRefused(e: Error) { e == ResponseTooLong || e == ResponseTooShort }

  lemma DecodeFaults(input: Bytes, ending: Ending)
    ensures Decode(input, ending).Fault? ==> IoError(Decode(input, ending).error)
  {
    hide GetUint32;
  }

  lemma FrameSize(input: Bytes, ending: Ending)
    requires Decode(input, ending).Frame?
    ensures var r := Decode(input, ending);
            |input| - |r.rest| == |Encode(r.packet)| && r.rest == input[|Encode(r.packet)|..]
  {
    ReencodeIffZeroPadding(input, ending);
  }

  /** The error a reader meets after the last whole frame, when `left` bytes follow it: a refused size; or the timeout, or
      the broken connection; or, at the end of the stream, io.EOF if nothing or just a size field follows, and else
      io.ErrUnexpectedEOF. */
  ghost predicate FaultIs(e: Error, ending: Ending, left: int)
  {
    SizeRefused(e) || (match ending
                       case DeadlineExpired => e == Net(true)
                       case Broken => e == Net(false)
                       case EndOfStream => e == if left == 0 || left == 4 then Eof else UnexpectedEof)
  }

  lemma {:induction false} ParseFaultMeaning(input: Bytes, ending: Ending)
    ensures var parse := ParseFrames(input, ending);
            |EncodeAll(parse.frames)| <= |input| && FaultIs(parse.fault, ending, |input| - |EncodeAll(parse.frames)|)
    decreases |input|
  {
    hide Decode, Encode, FaultIs;
    match Decode(input, ending)
    case Fault(e, rest) => DecodeFaultIs(input, ending);
    case Frame(p, rest) =>
      FrameSize(input, ending);
      ParseFaultMeaning(rest, ending);
      var later := ParseFrames(rest, ending).frames;
      assert ([p] + later)[1..] == later;
  }

  lemma DecodeFaultIs(input: Bytes, ending: Ending)
    requires Decode(input, ending).Fault?
    ensures FaultIs(Decode(input, ending).error, ending, |input|)
  {
    hide GetUint32;
  }

  // ----- the bytes of a frame -----

  /** Four bytes as the digits of a number to base 256, the lowest first. */
  predicate IsNumber(b: Bytes, u: int) { |b| == 4 && u == b[0] as int + 256 * (b[1] as int) + 0x1_0000 * (b[2] as int) + 0x100_0000 * (b[3] as int) }

  lemma PutIsNumber(u: Uint32)
    ensures IsNumber(PutUint32(u), u)
  {
    var v := u / 0x100;
    var w := v / 0x100;
    assert u == 0x100 * v + u % 0x100 && v == 0x100 * w + v % 0x100 && w == 0x100 * (w / 0x100) + w % 0x100;
    assert u / 0x1_0000 == w && u / 0x100_0000 == w / 0x100;
  }

  /** The layout of a frame on the wire: the size of what follows, the identifier and the type, each a little-endian number
      of four bytes, negative ones in two's complement; then the body, then two zero bytes. */
  lemma EncodeLayout(p: Packet)
    requires Sized(p)
    ensures var b := Encode(p);
            |b| == 14 + |p.body|
            && IsNumber(b[0..4], |b| - 4)
            && IsNumber(b[4..8], if p.id >= 0 then p.id else p.id + 0x1_0000_0000)
            && IsNumber(b[8..12], if p.typ >= 0 then p.typ else p.typ + 0x1_0000_0000)
            && b[12..12 + |p.body|] == p.body && b[|b| - 2] == 0 && b[|b| - 1] == 0
  {
    var size, id, typ := AsUint32(MIN_PACKET_SIZE + |p.body|), AsUint32(p.id), AsUint32(p.typ);
    PutIsNumber(size);
    PutIsNumber(id);
    PutIsNumber(typ);
    hide PutUint32, IsNumber;
    var b := Encode(p);
    assert b[0..4] == PutUint32(size);
    assert b[4..8] == PutUint32(id);
    assert b[8..12] == PutUint32(typ);
  }
}
