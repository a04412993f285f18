/**
 The two readers of frames, in the form they have in the program: the registry's decoder, which
 is fed chunks and advances a buffer, and the server's reader, which blocks until a buffer is
 full. Both return what `Framing.Parse` finds in the whole stream, so chunking does not matter.
 */
module Streams {

  import opened Common
  import opened Framing

  // ----- the registry's decoder

  /** How a decoded stream ends. `Garbled` is a body that is no protobuf message. */
  datatype StreamEnd = Clean | Truncated | TooLarge(length: nat) | Garbled

  datatype Delivered = Delivered(bodies: seq<Bytes>, end: StreamEnd)

  function EndOf(end: End): StreamEnd {
    match end
    case Oversize(n) => TooLarge(n)
    case Rest(left) => if left == [] then Clean else Truncated
  }

  /** The bodies up to the first one that does not decode; `ok` is the protobuf decoder's verdict. */
  function Accept(p: Parsed, ok: Bytes -> bool): Delivered
    decreases |p.bodies|
  {
    if p.bodies == [] then Delivered([], EndOf(p.end))
    else if !ok(p.bodies[0]) then Delivered([], Garbled)
    else Prepend([p.bodies[0]], Accept(Parsed(p.bodies[1..], p.end), ok))
  }

  function Prepend(bodies: seq<Bytes>, d: Delivered): Delivered {
    Delivered(bodies + d.bodies, d.end)
  }

  datatype Item = Pending | Message(body: Bytes) | Rejected(length: nat) | Undecodable

  class RegistryCodec {
    var buffer: Bytes

    constructor ()
      ensures buffer == []
    {
      buffer := [];
    }

    /** Takes at most one frame off the front of the buffer. */
    method DecodeNext(ok: Bytes -> bool) returns (r: Item)
      modifies this
      ensures var d := Decode(old(buffer));
              && (d.More? ==> r == Pending && buffer == old(buffer))
              && (d.TooLong? ==> r == Rejected(d.length) && buffer == old(buffer))
              && (d.Got? && ok(d.body) ==> r == Message(d.body) && buffer == d.rest)
              && (d.Got? && !ok(d.body) ==> r == Undecodable && buffer == d.body + d.rest)
    {
      if |buffer| < HEADER {
        return Pending;
      }
      var len := Length(buffer);
      if len > MAX_FRAME {
        return Rejected(len);
      }
      if |buffer| < HEADER + len {
        return Pending;
      }
      buffer := buffer[HEADER..];
      var body := buffer[..len];
      assert body == old(buffer)[HEADER..HEADER + len];
      if !ok(body) {
        assert buffer == body + old(buffer)[HEADER + len..];
        return Undecodable;
      }
      buffer := buffer[len..];
      return Message(body);
    }

    method Encode(body: Bytes)
      modifies this
      ensures buffer == old(buffer) + Frame(body)
    {
      buffer := buffer + Header(|body|);
      buffer := buffer + body;
      Assoc(old(buffer), Header(|body|), body);
    }
  }

  lemma AcceptNext(b: Bytes, more: Bytes, ok: Bytes -> bool)
    ensures var d, r := Decode(b), Accept(Parse(b + more), ok);
            && (d.TooLong? ==> r == Delivered([], TooLarge(d.length)))
            && (d.Got? && ok(d.body) ==> r == Prepend([d.body], Accept(Parse(d.rest + more), ok)))
            && (d.Got? && !ok(d.body) ==> r == Delivered([], Garbled))
  {
    DecodeAppend(b, more);
    if Decode(b).Got? {
      var p := Parse(Decode(b).rest + more);
      assert ([Decode(b).body] + p.bodies)[1..] == p.bodies;
    }
  }

  lemma PrependTwice(a: seq<Bytes>, b: seq<Bytes>, d: Delivered)
    ensures Prepend(a, Prepend(b, d)) == Prepend(a + b, d)
  {
    assert a + (b + d.bodies) == a + b + d.bodies;
  }

  /** Decodes until the buffer holds no whole frame or an error stops the stream. */
  method Drain(codec: RegistryCodec, ok: Bytes -> bool, ghost more: Bytes) returns (out: seq<Bytes>, stop: Option<StreamEnd>)
    modifies codec
    ensures stop == None ==>
              && Decode(codec.buffer) == More
              && Accept(Parse(old(codec.buffer) + more), ok) == Prepend(out, Accept(Parse(codec.buffer + more), ok))
    ensures stop.Some? ==> Accept(Parse(old(codec.buffer) + more), ok) == Delivered(out, stop.value)
  {
    out := [];
    ghost var whole := Accept(Parse(codec.buffer + more), ok);
    assert Prepend([], whole) == whole;
    while true
      invariant whole == Prepend(out, Accept(Parse(codec.buffer + more), ok))
      decreases |codec.buffer|
    {
      AcceptNext(codec.buffer, more, ok);
      var item := codec.DecodeNext(ok);
      match item
      case Pending => return out, None;
      case Message(body) =>
        PrependTwice(out, [body], Accept(Parse(codec.buffer + more), ok));
        out := out + [body];
      case Rejected(n) => return out, Some(TooLarge(n));
      case Undecodable => return out, Some(Garbled);
    }
  }

  lemma NextChunk(buffer: Bytes, chunks: seq<Bytes>, i: nat)
    requires i < |chunks|
    ensures buffer + Concat(chunks[i..]) == buffer + chunks[i] + Concat(chunks[i + 1..])
  {
    assert chunks[i..][1..] == chunks[i + 1..];
    Assoc(buffer, chunks[i], Concat(chunks[i + 1..]));
  }

  lemma NoChunks(d: Delivered, chunks: seq<Bytes>)
    ensures Prepend([], d) == d && [] + Concat(chunks) == Concat(chunks) && chunks[0..] == chunks
  {}

  /**
   The framed stream of a connection: every chunk is appended to the buffer and the buffer is
   decoded until it has no whole frame left; at the end of the stream leftover bytes are an error.
   For every chunking the result is that of parsing the whole stream.
   */
  method ReadFramed(chunks: seq<Bytes>, ok: Bytes -> bool) returns (d: Delivered)
    ensures d == Accept(Parse(Concat(chunks)), ok)
  {
    var codec := new RegistryCodec();
    var out: seq<Bytes> := [];
    ghost var whole := Accept(Parse(Concat(chunks)), ok);
    NoChunks(whole, chunks);
    for i := 0 to |chunks|
      invariant Decode(codec.buffer) == More
      invariant whole == Prepend(out, Accept(Parse(codec.buffer + Concat(chunks[i..])), ok))
    {
      ghost var more := Concat(chunks[i + 1..]);
      NextChunk(codec.buffer, chunks, i);
      codec.buffer := codec.buffer + chunks[i];
      var got, stop := Drain(codec, ok, more);
      if stop.Some? {
        return Delivered(out + got, stop.value);
      }
      PrependTwice(out, got, Accept(Parse(codec.buffer + more), ok));
      out := out + got;
    }
    assert codec.buffer + Concat(chunks[|chunks|..]) == codec.buffer;
    return Delivered(out, if codec.buffer == [] then Clean else Truncated);
  }

  // ----- the server's reader and writer

  datatype ReadError = EOF | UnexpectedEOF | FrameTooLarge

  /** A source of bytes that hands out whatever piece of the stream has arrived. */
  class Reader {
    var chunks: seq<Bytes>

    constructor (arrivals: seq<Bytes>)
      ensures chunks == arrivals
    {
      chunks := arrivals;
    }

    ghost function Remaining(): Bytes
      reads this
    {
      Concat(chunks)
    }

    /** Some of the bytes that remain, at most `n`; none only at the end of the stream. */
    method Read(n: nat) returns (data: Bytes)
      requires n > 0
      modifies this
      ensures |data| <= n && old(Remaining()) == data + Remaining()
      ensures data == [] <==> old(Remaining()) == []
    {
      while |chunks| > 0 && chunks[0] == []
        invariant Remaining() == old(Remaining())
        decreases |chunks|
      {
        assert chunks[0] + Concat(chunks[1..]) == Concat(chunks[1..]);
        chunks := chunks[1..];
      }
      if chunks == [] {
        return [];
      }
      var k := if |chunks[0]| < n then |chunks[0]| else n;
      data := chunks[0][..k];
      Assoc(data, chunks[0][k..], Concat(chunks[1..]));
      assert chunks[0] == data + chunks[0][k..];
      var rest := [chunks[0][k..]] + chunks[1..];
      assert rest[1..] == chunks[1..];
      chunks := rest;
    }
  }

  /** `io.ReadFull`: exactly `n` bytes, or an error that is EOF only if nothing was read. */
  method ReadFull(r: Reader, n: nat) returns (data: Bytes, err: Option<ReadError>)
    modifies r
    ensures n <= |old(r.Remaining())| ==>
              err == None && data == old(r.Remaining())[..n] && r.Remaining() == old(r.Remaining())[n..]
    ensures n > |old(r.Remaining())| ==> err == Some(if old(r.Remaining()) == [] then EOF else UnexpectedEOF)
  {
    data := [];
    assert [] + r.Remaining() == r.Remaining();
    while |data| < n
      invariant |data| <= n
      invariant old(r.Remaining()) == data + r.Remaining()
      decreases n - |data|
    {
      ghost var before := r.Remaining();
      var piece := r.Read(n - |data|);
      if piece == [] {
        return data, Some(if data == [] then EOF else UnexpectedEOF);
      }
      Assoc(data, piece, r.Remaining());
      data := data + piece;
    }
    err := None;
  }

  /** What the blocking reader reports for leftover bytes: plain EOF also right after a header. */
  function ReaderEnd(end: End): ReadError {
    match end
    case Oversize(_) => FrameTooLarge
    case Rest(left) => if |left| == 0 || |left| == HEADER then EOF else UnexpectedEOF
  }

  method ReadFrame(r: Reader) returns (data: Bytes, err: Option<ReadError>)
    modifies r
    ensures var d := Decode(old(r.Remaining()));
            && (d.Got? ==> err == None && data == d.body && r.Remaining() == d.rest)
            && (d.TooLong? ==> err == Some(FrameTooLarge))
            && (d.More? ==> err == Some(ReaderEnd(Rest(old(r.Remaining())))))
  {
    ghost var all := r.Remaining();
    var header;
    header, err := ReadFull(r, HEADER);
    if err != None {
      return [], err;
    }
    var length := Length(header);
    assert length == Length(all);
    if length > MAX_FRAME {
      return [], Some(FrameTooLarge);
    }
    data, err := ReadFull(r, length);
    assert HEADER + length <= |all| ==> all[HEADER..][..length] == all[HEADER..HEADER + length];
    if err != None {
      data := [];
    }
  }

  lemma Grow(bodies: seq<Bytes>, body: Bytes, more: seq<Bytes>)
    ensures bodies + [] == bodies && bodies + ([body] + more) == bodies + [body] + more
  {}

  /** The frames of a connection until the first error. */
  method ReadFrames(r: Reader) returns (bodies: seq<Bytes>, err: ReadError)
    modifies r
    ensures bodies == Parse(old(r.Remaining())).bodies && err == ReaderEnd(Parse(old(r.Remaining())).end)
  {
    bodies := [];
    ghost var whole := Parse(r.Remaining());
    assert [] + whole.bodies == whole.bodies;
    while true
      invariant whole == Parsed(bodies + Parse(r.Remaining()).bodies, Parse(r.Remaining()).end)
      decreases |r.Remaining()|
    {
      ghost var rest := r.Remaining();
      var data, e := ReadFrame(r);
      Grow(bodies, data, Parse(r.Remaining()).bodies);
      if e != None {
        return bodies, e.value;
      }
      bodies := bodies + [data];
    }
  }

  /** What a write puts on the connection: everything, or a part of it and then an error. */
  datatype Write = Whole | Cut(at: nat)

  function Taken(w: Write, data: Bytes): Bytes {
    if w.Cut? && w.at <= |data| then data[..w.at] else data
  }

  /**
   `WriteFrame`: two writes, header and body, whose fates are given. Without an error exactly one
   frame was added; with one, a part of the frame was, and none of the body if the header failed.
   */
  method WriteFrame(wire: Bytes, data: Bytes, header: Write, body: Write) returns (wire': Bytes, ok: bool)
    ensures ok <==> header.Whole? && body.Whole?
    ensures ok ==> wire' == wire + Frame(data)
    ensures wire <= wire' <= wire + Frame(data)
    ensures header.Cut? ==> |wire'| <= |wire| + HEADER
    ensures header.Whole? ==> wire' == wire + Header(|data|) + Taken(body, data)
  {
    Assoc(wire, Header(|data|), data);
    assert wire + Header(|data|) <= wire + Frame(data);
    wire' := wire + Taken(header, Header(|data|));
    if header.Cut? {
      return wire', false;
    }
    wire' := wire' + Taken(body, data);
    ok := body.Whole?;
  }

  // ----- the readers agree

  lemma {:induction false} AllAccepted(p: Parsed, ok: Bytes -> bool)
    requires forall i :: 0 <= i < |p.bodies| ==> ok(p.bodies[i])
    ensures Accept(p, ok) == Delivered(p.bodies, EndOf(p.end))
    decreases |p.bodies|
  {
    if p.bodies != [] {
      AllAccepted(Parsed(p.bodies[1..], p.end), ok);
      assert p.bodies == [p.bodies[0]] + p.bodies[1..];
    }
  }

  /**
   One stream, cut into chunks in two arbitrary ways, read by both readers: the same bodies (if
   the messages decode) and the same oversize rejection. At the end of the stream they agree
   except in one case: a stream that stops right after a header, which the blocking reader cannot
   tell from a clean end.
   */
  method ReadersAgree(a: seq<Bytes>, b: seq<Bytes>, ok: Bytes -> bool)
    returns (d: Delivered, bodies: seq<Bytes>, err: ReadError)
    requires Concat(a) == Concat(b)
    ensures d == Accept(Parse(Concat(a)), ok) && bodies == Parse(Concat(a)).bodies
    ensures (forall i :: 0 <= i < |bodies| ==> ok(bodies[i])) ==>
              && d.bodies == bodies
              && (d.end.TooLarge? <==> err == FrameTooLarge)
              && (d.end == Clean ==> err == EOF)
              && (err == UnexpectedEOF ==> d.end == Truncated)
              && (d.end == Truncated && err == EOF <==>
                    Parse(Concat(a)).end.Rest? && |Parse(Concat(a)).end.left| == HEADER)
  {
    d := ReadFramed(a, ok);
    var r := new Reader(b);
    bodies, err := ReadFrames(r);
    if forall i :: 0 <= i < |bodies| ==> ok(bodies[i]) {
      AllAccepted(Parse(Concat(a)), ok);
    }
  }

  /**
   End to end: bodies of at most 16 MiB, framed, cut into chunks in any way and read by either
   reader, come back in order and complete.
   */
  lemma EndToEnd(bodies: seq<Bytes>, chunks: seq<Bytes>, ok: Bytes -> bool)
    requires Fits(bodies) && Concat(chunks) == Frames(bodies)
    requires forall i :: 0 <= i < |bodies| ==> ok(bodies[i])
    ensures Accept(Parse(Concat(chunks)), ok) == Delivered(bodies, Clean)
    ensures Parse(Concat(chunks)).bodies == bodies && ReaderEnd(Parse(Concat(chunks)).end) == EOF
  {
    RoundTripIff(bodies);
    AllAccepted(Parse(Concat(chunks)), ok);
  }
}
