/**
 Frames on a byte stream: a big-endian length of four bytes, then the body.

 `Parse` says, of a whole byte string, which bodies it carries and how it ends. The registry's
 incremental decoder and the server's blocking reader are both proved to compute it, whatever
 the chunks in which the bytes arrive.
 */
module Framing {

  type byte = x: int | 0 <= x < 256

  type Bytes = seq<byte>

  const HEADER := 4
  const MAX_FRAME := 16 * 1024 * 1024
  const U32 := 0x1_0000_0000

  /** `put_u32` / `PutUint32` of a length, which both writers first cut to 32 bits. */
  function Header(n: nat): (h: Bytes)
    ensures |h| == HEADER
  {
    [n / 0x100_0000 % 256, n / 0x1_0000 % 256, n / 0x100 % 256, n % 256]
  }

  function Length(b: Bytes): (n: nat)
    requires |b| >= HEADER
    ensures n < U32
  {
    b[0] as int * 0x100_0000 + b[1] as int * 0x1_0000 + b[2] as int * 0x100 + b[3] as int
  }

  function Frame(body: Bytes): Bytes {
    Header(|body|) + body
  }

  lemma HeaderRoundTrip(n: nat, rest: Bytes)
    ensures Length(Header(n) + rest) == n % U32
  {
    Digits(n);
  }

  /** The four base-256 digits that the header keeps. */
  lemma Digits(n: nat)
    ensures n / 0x100_0000 % 256 * 0x100_0000 + n / 0x1_0000 % 256 * 0x1_0000 + n / 0x100 % 256 * 0x100 + n % 256 == n % U32
  {
    var a := n / 256;
    var b := a / 256;
    var c := b / 256;
    SplitLow(n);
    SplitLow(a);
    SplitLow(b);
    SplitLow(c);
    assert n / 0x1_0000 == b;
    assert n / 0x100_0000 == c;
    assert n == c / 256 * U32 + c % 256 * 0x100_0000 + b % 256 * 0x1_0000 + a % 256 * 0x100 + n % 256;
  }

  lemma SplitLow(n: nat)
    ensures n == n / 256 * 256 + n % 256 && n % 256 < 256
  {}

  /** `a` comes before `b` in the order of words: at the first place where they differ. */
  predicate Before(a: Bytes, b: Bytes) {
    a != [] && b != [] && (a[0] < b[0] || (a[0] == b[0] && Before(a[1..], b[1..])))
  }

  /** The headers of two lengths compare as words in the order of the lengths: the highest byte comes first. */
  lemma HeadersInOrder(n: nat, m: nat)
    requires n < m < U32
    ensures Before(Header(n), Header(m))
  {
    HeaderRoundTrip(n, []);
    HeaderRoundTrip(m, []);
    SmallMod(n);
    SmallMod(m);
    assert Header(n) + [] == Header(n) && Header(m) + [] == Header(m);
    LongerIsLater(Header(n), Header(m));
  }

  lemma LongerIsLater(h: Bytes, g: Bytes)
    requires |h| == |g| == HEADER && Length(h) < Length(g)
    ensures Before(h, g)
  {
    assert h[0] < g[0]
           || (h[0] == g[0] && (h[1] < g[1] || (h[1] == g[1] && (h[2] < g[2] || (h[2] == g[2] && h[3] < g[3])))));
    assert h[1..][1..] == h[2..] && g[1..][1..] == g[2..];
    assert h[2..][1..] == h[3..] && g[2..][1..] == g[3..];
    assert Before(h[3..], g[3..]) <==> h[3] < g[3] || (h[3] == g[3] && Before(h[3..][1..], g[3..][1..]));
    assert Before(h[2..], g[2..]) <==> h[2] < g[2] || (h[2] == g[2] && Before(h[3..], g[3..]));
    assert Before(h[1..], g[1..]) <==> h[1] < g[1] || (h[1] == g[1] && Before(h[2..], g[2..]));
  }

  /** The format byte by byte, and the bound in figures. */
  lemma WireFormat()
    ensures Header(1) == [0, 0, 0, 1] && Header(0x0102_0304) == [1, 2, 3, 4]
    ensures Length([0, 0, 0, 1]) == 1 && Length([0, 0, 1, 0]) == 256
    ensures Length([0, 1, 0, 0]) == 65536 && Length([1, 0, 0, 0]) == 16777216
    ensures Frame([7]) == [0, 0, 0, 1, 7] && Frame([]) == [0, 0, 0, 0]
    ensures MAX_FRAME == 16777216
    ensures Decode([0, 0, 0, 1, 7]) == Got([7], []) && Decode([0, 0, 0, 1]) == More
    ensures Decode([1, 0, 0, 1]) == TooLong(16777217) && Decode([1, 0, 0, 0]) == More
  {
    assert Header(1) == [0, 0, 0, 1];
    assert [0, 0, 0, 1, 7][4..5] == [7] && [0, 0, 0, 1, 7][5..] == [];
  }

  // ----- what a byte string carries

  /** How the stream ends after the last whole frame. */
  datatype End = Rest(left: Bytes) | Oversize(length: nat)

  datatype Parsed = Parsed(bodies: seq<Bytes>, end: End)

  /** One look at the front of a byte string. */
  datatype Step = More | TooLong(length: nat) | Got(body: Bytes, rest: Bytes)

  function Decode(b: Bytes): (d: Step)
    ensures d.Got? ==> |d.rest| < |b|
  {
    if |b| < HEADER then More
    else
      var n := Length(b);
      if n > MAX_FRAME then TooLong(n)
      else if |b| < HEADER + n then More
      else Got(b[HEADER..HEADER + n], b[HEADER + n..])
  }

  function Parse(b: Bytes): (p: Parsed)
    decreases |b|
  {
    match Decode(b)
    case More => Parsed([], Rest(b))
    case TooLong(n) => Parsed([], Oversize(n))
    case Got(body, rest) => Cons(body, Parse(rest))
  }

  function Cons(body: Bytes, p: Parsed): Parsed {
    Parsed([body] + p.bodies, p.end)
  }

  lemma DecodeAppend(a: Bytes, b: Bytes)
    ensures Decode(a).Got? ==> Decode(a + b) == Got(Decode(a).body, Decode(a).rest + b)
    ensures Decode(a).TooLong? ==> Decode(a + b) == Decode(a)
  {
    if |a| >= HEADER {
      var n := Length(a);
      assert Length(a + b) == n;
      if HEADER + n <= |a| {
        assert (a + b)[HEADER + n..] == a[HEADER + n..] + b;
        assert (a + b)[HEADER..HEADER + n] == a[HEADER..HEADER + n];
      }
    }
  }

  /** The parse continued with `b` from what was left over. */
  function Then(p: Parsed, b: Bytes): Parsed {
    if p.end.Oversize? then p
    else
      var q := Parse(p.end.left + b);
      Parsed(p.bodies + q.bodies, q.end)
  }

  /** More bytes only ever continue the parse from what was left over. */
  lemma {:induction false} ParseAppend(a: Bytes, b: Bytes)
    ensures Parse(a + b) == Then(Parse(a), b)
    decreases |a|
  {
    DecodeAppend(a, b);
    var d := Decode(a);
    if d.Got? {
      ParseAppend(d.rest, b);
      ThenCons(d.body, Parse(d.rest), b);
    } else if d.More? {
      assert [] + Parse(a + b).bodies == Parse(a + b).bodies;
    }
  }

  lemma ThenCons(body: Bytes, p: Parsed, b: Bytes)
    ensures Then(Cons(body, p), b) == Cons(body, Then(p, b))
  {
    if p.end.Rest? {
      var q := Parse(p.end.left + b);
      assert [body] + p.bodies + q.bodies == [body] + (p.bodies + q.bodies);
    }
  }

  function Frames(bodies: seq<Bytes>): Bytes {
    if bodies == [] then [] else Frame(bodies[0]) + Frames(bodies[1..])
  }

  predicate Fits(bodies: seq<Bytes>) {
    forall i :: 0 <= i < |bodies| ==> |bodies[i]| <= MAX_FRAME
  }

  lemma DecodeFrame(body: Bytes, rest: Bytes)
    ensures |body| <= MAX_FRAME ==> Decode(Frame(body) + rest) == Got(body, rest)
    ensures |body| > MAX_FRAME ==> Decode(Frame(body) + rest).Got? ==> Decode(Frame(body) + rest).body != body
  {
    HeaderRoundTrip(|body|, body + rest);
    DecodeCut(Header(|body|), body, rest);
    assert Header(|body|) + (body + rest) == Frame(body) + rest;
  }

  lemma DecodeCut(h: Bytes, body: Bytes, rest: Bytes)
    requires |h| == HEADER
    requires Length(h + (body + rest)) == |body| % U32
    ensures |body| <= MAX_FRAME ==> Decode(h + (body + rest)) == Got(body, rest)
    ensures |body| > MAX_FRAME ==> Decode(h + (body + rest)).Got? ==> Decode(h + (body + rest)).body != body
  {
    var b := h + (body + rest);
    if |body| <= MAX_FRAME {
      assert b[HEADER + |body|..] == rest;
      assert b[HEADER..HEADER + |body|] == body;
    }
  }

  /** Whole frames parse to their bodies, and what follows them is parsed on its own. */
  lemma {:induction false} ParseFrames(bodies: seq<Bytes>, rest: Bytes)
    requires Fits(bodies)
    ensures Parse(Frames(bodies) + rest) == Parsed(bodies + Parse(rest).bodies, Parse(rest).end)
  {
    if bodies == [] {
      assert Frames(bodies) + rest == rest;
    } else {
      ParseFrames(bodies[1..], rest);
      ParseFirst(bodies, rest);
      Regroup(bodies, Parse(rest));
    }
  }

  lemma ParseFirst(bodies: seq<Bytes>, rest: Bytes)
    requires bodies != [] && |bodies[0]| <= MAX_FRAME
    ensures Parse(Frames(bodies) + rest) == Cons(bodies[0], Parse(Frames(bodies[1..]) + rest))
  {
    DecodeFrame(bodies[0], Frames(bodies[1..]) + rest);
    Assoc(Frame(bodies[0]), Frames(bodies[1..]), rest);
  }

  lemma Regroup(bodies: seq<Bytes>, p: Parsed)
    requires bodies != []
    ensures Cons(bodies[0], Parsed(bodies[1..] + p.bodies, p.end)) == Parsed(bodies + p.bodies, p.end)
  {
    assert [bodies[0]] + (bodies[1..] + p.bodies) == bodies + p.bodies;
  }

  lemma Assoc(a: Bytes, b: Bytes, c: Bytes)
    ensures a + b + c == a + (b + c)
  {}

  /** After any whole frames, a header that announces more than 16 MiB is a rejection, whatever follows. */
  lemma OversizeIsRejected(bodies: seq<Bytes>, n: nat, rest: Bytes)
    requires Fits(bodies) && MAX_FRAME < n < U32
    ensures Parse(Frames(bodies) + (Header(n) + rest)) == Parsed(bodies, Oversize(n))
  {
    DecodeOversize(n, rest);
    ParseFrames(bodies, Header(n) + rest);
    assert bodies + [] == bodies;
  }

  lemma DecodeOversize(n: nat, rest: Bytes)
    requires MAX_FRAME < n < U32
    ensures Decode(Header(n) + rest) == TooLong(n)
  {
    HeaderRoundTrip(n, rest);
    SmallMod(n);
  }

  lemma SmallMod(n: nat)
    requires n < U32
    ensures n % U32 == n
  {}

  /** A frame of which a part is missing is left over for later. */
  lemma UnfinishedIsLeft(bodies: seq<Bytes>, body: Bytes, n: nat)
    requires Fits(bodies) && |body| <= MAX_FRAME && n < |Frame(body)|
    ensures Parse(Frames(bodies) + Frame(body)[..n]) == Parsed(bodies, Rest(Frame(body)[..n]))
  {
    var part := Frame(body)[..n];
    DecodeUnfinished(body, n);
    ParseFrames(bodies, part);
    assert bodies + [] == bodies;
  }

  lemma DecodeUnfinished(body: Bytes, n: nat)
    requires |body| <= MAX_FRAME && n < |Frame(body)|
    ensures Decode(Frame(body)[..n]) == More
  {
    if n >= HEADER {
      var h, part := Header(|body|), body[..n - HEADER];
      CutFrame(h, body, n);
      HeaderRoundTrip(|body|, part);
      SmallMod(|body|);
    }
  }

  lemma CutFrame(h: Bytes, body: Bytes, n: nat)
    requires |h| == HEADER <= n <= HEADER + |body|
    ensures (h + body)[..n] == h + body[..n - HEADER]
  {}

  /** Round trip: a sequence of bodies comes back exactly if and only if each is at most 16 MiB. */
  lemma {:induction false} RoundTripIff(bodies: seq<Bytes>)
    ensures Parse(Frames(bodies)) == Parsed(bodies, Rest([])) <==> Fits(bodies)
  {
    if bodies != [] {
      DecodeFrame(bodies[0], Frames(bodies[1..]));
      RoundTripIff(bodies[1..]);
      ConsInjective(bodies, Parse(Frames(bodies[1..])));
      assert Fits(bodies) <==> |bodies[0]| <= MAX_FRAME && Fits(bodies[1..]) by {
        assert forall i :: 0 <= i < |bodies| - 1 ==> bodies[1..][i] == bodies[i + 1];
        assert forall i :: 1 <= i < |bodies| ==> bodies[i] == bodies[1..][i - 1];
      }
    }
  }

  lemma ConsInjective(bodies: seq<Bytes>, p: Parsed)
    requires bodies != []
    ensures Cons(bodies[0], p) == Parsed(bodies, Rest([])) <==> p == Parsed(bodies[1..], Rest([]))
  {
    assert ([bodies[0]] + p.bodies)[1..] == p.bodies;
    assert bodies == [bodies[0]] + bodies[1..];
  }

  function Concat(chunks: seq<Bytes>): Bytes {
    if chunks == [] then [] else chunks[0] + Concat(chunks[1..])
  }
}
