/** A connection as the program sees it, and the two packet operations of rcon/packet.go on it: WriteTo
    fills a buffer in place and writes it, ReadFrom consumes bytes and assigns a packet. */
module Sockets {
  import opened Wire

  /** Two byte queues. The network's part is explicit: which bytes have arrived, how the stream ends after
      them, how many more bytes a write gets through, and how much of the unread input a bufio.Reader
      holds, as any function of that input. */
  class Socket {
    var input: Bytes
    var ending: Ending
    var output: Bytes
    var room: nat
    var buffered: Bytes -> nat
    var open: bool

    constructor (room: nat)
      ensures input == [] && output == [] && open && this.room == room
    {
      input, ending, output, open := [], EndOfStream, [], true;
      buffered := _ => 0;
      this.room := room;
    }

    /** io.ReadFull. */
    method ReadFull(n: nat) returns (r: Result<Bytes>)
      modifies `input
      ensures n <= |old(input)| ==> r == Ok(old(input)[..n]) && input == old(input)[n..]
      ensures n > |old(input)| ==> r == Err(ShortRead(|old(input)|, ending)) && input == []
    {
      if n <= |input| {
        r := Ok(input[..n]);
        input := input[n..];
      } else {
        r := Err(ShortRead(|input|, ending));
        input := [];
      }
    }

    method Write(buf: array<byte>) returns (n: nat, err: Option<Error>)
      modifies `output, `room
      ensures output == old(output) + Take(buf[..], old(room))
      ensures n == |Take(buf[..], old(room))| && room == old(room) - n
      ensures err == if buf.Length <= old(room) then None else Some(Net(false))
    {
      n := if buf.Length <= room then buf.Length else room;
      err := if buf.Length <= room then None else Some(Net(false));
      assert buf[..n] == Take(buf[..], room);
      output := output + buf[..n];
      room := room - n;
    }

    method SetDeadline() returns (err: Option<Error>)
      ensures err == if open then None else Some(Net(false))
    {
      err := if open then None else Some(Net(false));
    }

    /** Closing locally: nothing more is read or written. */
    method Close()
      modifies this
      ensures !open && input == [] && ending == Broken && room == 0
      ensures output == old(output)
    {
      open, input, ending, room := false, [], Broken, 0;
    }
  }

  /** binary.LittleEndian.PutUint32 on buf[at..at+4]. */
  method PutUint32At(buf: array<byte>, at: nat, u: Uint32)
    requires at + 4 <= buf.Length
    modifies buf
    ensures buf[..] == old(buf[..at]) + PutUint32(u) + old(buf[at + 4..])
  {
    var four := PutUint32(u);
    buf[at], buf[at + 1], buf[at + 2], buf[at + 3] := four[0], four[1], four[2], four[3];
  }

  /** copy(buf[at:], body). */
  method CopyAt(buf: array<byte>, at: nat, body: Bytes)
    requires at + |body| <= buf.Length
    modifies buf
    ensures buf[..] == old(buf[..at]) + body + old(buf[at + |body|..])
  {
    ghost var before := buf[..];
    assert before == before[..at] + body[..0] + before[at..];
    for i := 0 to |body|
      invariant buf[..] == before[..at] + body[..i] + before[at + i..]
    {
      buf[at + i] := body[i];
      assert before[at + i..][1..] == before[at + i + 1..];
      assert body[..i + 1] == body[..i] + [body[i]];
    }
    assert body[..|body|] == body;
  }

  /** The four in-place stores of WriteTo produce Encode. */
  lemma StoresAreEncode(p: Packet, zero: Bytes, b1: Bytes, b2: Bytes, b3: Bytes, b4: Bytes)
    requires |zero| == 14 + |p.body| && forall i :: 0 <= i < |zero| ==> zero[i] == 0
    requires b1 == zero[..0] + PutUint32(AsUint32(MIN_PACKET_SIZE + |p.body|)) + zero[4..]
    requires b2 == b1[..4] + PutUint32(AsUint32(p.id)) + b1[8..]
    requires b3 == b2[..8] + PutUint32(AsUint32(p.typ)) + b2[12..]
    requires b4 == b3[..12] + p.body + b3[12 + |p.body|..]
    ensures b4 == Encode(p)
  {
    hide PutUint32, AsUint32;
    assert b3[..12] == Header(p);
    assert b3[12..] == zero[12..];
    assert b3[12 + |p.body|..] == zero[12 + |p.body|..] == [0, 0];
  }

  method WriteTo(p: Packet, s: Socket) returns (n: nat, err: Option<Error>)
    modifies s`output, s`room
    ensures s.output == old(s.output) + Take(Encode(p), old(s.room))
    ensures n == |Take(Encode(p), old(s.room))| && s.room == old(s.room) - n
    ensures err == if |Encode(p)| <= old(s.room) then None else Some(Net(false))
  {
    hide PutUint32, AsUint32;
    var size := MIN_PACKET_SIZE + |p.body|;
    var buf := new byte[4 + size](_ => 0);
    ghost var zero := buf[..];
    PutUint32At(buf, 0, AsUint32(size));
    ghost var b1 := buf[..];
    PutUint32At(buf, 4, AsUint32(p.id));
    ghost var b2 := buf[..];
    PutUint32At(buf, 8, AsUint32(p.typ));
    ghost var b3 := buf[..];
    CopyAt(buf, 12, p.body);
    StoresAreEncode(p, zero, b1, b2, b3, buf[..]);
    n, err := s.Write(buf);
  }

  /** The bytes ReadFrom reports as consumed: the frame, or 4 once the size field was read. */
  function CountRead(input: Bytes, ending: Ending): (n: nat)
  {
    match Decode(input, ending)
    case Frame(_, rest) => |input| - |rest|
    case Fault(_, _) => if |input| < 4 then 0 else 4
  }

  /** The count is that of the bytes taken off the stream, except that a frame cut short counts only its size field. */
  lemma CountMeaning(input: Bytes, ending: Ending)
    ensures var r, n := Decode(input, ending), CountRead(input, ending);
            (r.Frame? || SizeRefused(r.error) ==> n == |input| - |r.rest|)
            && (r.Fault? ==> n == if |input| < 4 then 0 else 4)
  {
    hide GetUint32;
  }

  method ReadFrom(s: Socket) returns (n: nat, r: Result<Packet>)
    modifies s`input
    ensures s.input == Decode(old(s.input), s.ending).rest
    ensures r == match Decode(old(s.input), s.ending) case Frame(p, _) => Ok(p) case Fault(e, _) => Err(e)
    ensures n == CountRead(old(s.input), s.ending)
  {
    hide GetUint32;
    ghost var all := s.input;
    var head := s.ReadFull(4);
    if head.Err? { return 0, Err(head.error); }
    var size := GetUint32(head.value);
    if size > MAX_PAYLOAD_SIZE + MIN_PACKET_SIZE { return 4, Err(ResponseTooLong); }
    if size < MIN_PACKET_SIZE { return 4, Err(ResponseTooShort); }
    var body := s.ReadFull(size);
    if body.Err? { return 4, Err(body.error); }
    assert body.value == all[4..4 + size];
    var b := body.value;
    return 4 + size, Ok(Packet(AsInt32(GetUint32(b[..4])), AsInt32(GetUint32(b[4..8])), b[8..size - PADDING_SIZE]));
  }
}
