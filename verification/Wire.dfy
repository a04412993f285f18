/**
 One server connection, written by many goroutines: each takes the write mutex, writes the
 header and then the body of its frame in two separate calls, and releases the mutex. A call may
 put its bytes on the connection piece by piece, and may fail after any of them; from then on the
 connection takes no more bytes.
 */
module Wire {

  import opened Common
  import opened Framing

  /** A frame of which everything has been written, by the task that wrote it. */
  datatype Whole = Whole(task: nat, body: Bytes)

  /** The holder of the mutex: in the middle of its frame, or done and about to unlock. */
  datatype Holder = Writing(task: nat, body: Bytes, sent: nat) | Leaving(task: nat)

  /** `cut` is what is on the connection of a frame whose writing failed. */
  datatype Sys = Sys(bytes: Bytes, holder: Option<Holder>, done: seq<Whole>, broken: bool, cut: Bytes)

  datatype Event =
    | Lock(task: nat, body: Bytes)
    | Emit(n: nat)
    | Fail
    | Unlock

  const Init: Sys := Sys([], None, [], false, [])

  predicate Enabled(s: Sys, e: Event) {
    match e
    case Lock(_, _) => s.holder == None
    case Emit(n) =>
      && !s.broken && s.holder.Some? && s.holder.value.Writing?
      && 0 < n
      // one call writes the header, the next one the body
      && (if s.holder.value.sent < HEADER then s.holder.value.sent + n <= HEADER
          else s.holder.value.sent + n <= HEADER + |s.holder.value.body|)
    case Fail => s.holder.Some? && s.holder.value.Writing?
    case Unlock => s.holder.Some? && s.holder.value.Leaving?
  }

  /** The writer after `n` more bytes: still writing, or done when the frame is complete. */
  function Advanced(h: Holder, n: nat): Holder
    requires h.Writing?
  {
    if h.sent + n >= HEADER + |h.body| then Leaving(h.task) else h.(sent := h.sent + n)
  }

  function Next(s: Sys, e: Event): Sys
    requires Enabled(s, e)
  {
    match e
    case Lock(task, body) => s.(holder := Some(Writing(task, body, 0)))
    case Emit(n) =>
      var h := s.holder.value;
      var after := Advanced(h, n);
      s.(bytes := s.bytes + Piece(h, n),
         holder := Some(after),
         done := if after.Leaving? then s.done + [Whole(h.task, h.body)] else s.done)
    case Fail =>
      var h := s.holder.value;
      s.(holder := Some(Leaving(h.task)),
         broken := true,
         cut := if s.broken then s.cut else First(Frame(h.body), h.sent))
    case Unlock => s.(holder := None)
  }

  /** The next `n` bytes of the writer's frame. */
  function Piece(h: Holder, n: nat): Bytes
    requires h.Writing?
  {
    var f := Frame(h.body);
    if h.sent + n <= |f| then f[h.sent..h.sent + n] else []
  }

  function First(f: Bytes, n: nat): Bytes {
    if n <= |f| then f[..n] else f
  }

  function Bodies(done: seq<Whole>): seq<Bytes> {
    seq(|done|, i requires 0 <= i < |done| => done[i].body)
  }

  /** What is on the connection after the last whole frame. */
  function Partial(s: Sys): Bytes {
    if s.broken then s.cut
    else if s.holder.Some? && s.holder.value.Writing? then First(Frame(s.holder.value.body), s.holder.value.sent)
    else []
  }

  /**
   The bytes are whole frames, in the order in which they were finished, and then a prefix of at
   most one frame: the one the mutex holder is writing, or the one whose writing failed.
   */
  ghost predicate Inv(s: Sys) {
    && s.bytes == Frames(Bodies(s.done)) + Partial(s)
    && (s.holder.Some? && s.holder.value.Writing? ==>
          && s.holder.value.sent < HEADER + |s.holder.value.body|
          && (s.broken ==> s.holder.value.sent == 0))
    && (s.broken ==> CutShort(s.cut))
  }

  /** A proper prefix of some frame. */
  ghost predicate CutShort(b: Bytes) {
    exists body: Bytes :: |b| < HEADER + |body| && b == Frame(body)[..|b|]
  }

  lemma {:induction false} FramesSnoc(bodies: seq<Bytes>, body: Bytes)
    ensures Frames(bodies + [body]) == Frames(bodies) + Frame(body)
  {
    if bodies == [] {
      assert bodies + [body] == [body];
      assert Frames([body]) == Frame(body) + [];
    } else {
      assert (bodies + [body])[1..] == bodies[1..] + [body];
      FramesSnoc(bodies[1..], body);
      Assoc(Frame(bodies[0]), Frames(bodies[1..]), Frame(body));
    }
  }

  lemma FrameLength(body: Bytes)
    ensures |Frame(body)| == HEADER + |body|
  {}

  lemma PieceExtends(whole: Bytes, f: Bytes, i: nat, n: nat)
    requires i + n <= |f|
    ensures whole + First(f, i) + f[i..i + n] == whole + First(f, i + n)
    ensures i + n == |f| ==> First(f, i + n) == f
  {
    assert f[..i] + f[i..i + n] == f[..i + n];
    Assoc(whole, f[..i], f[i..i + n]);
  }

  lemma EmitBytes(s: Sys, n: nat)
    requires Inv(s) && Enabled(s, Emit(n))
    ensures var h := s.holder.value;
            Next(s, Emit(n)).bytes == Frames(Bodies(s.done)) + First(Frame(h.body), h.sent + n)
  {
    FrameLength(s.holder.value.body);
    PieceExtends(Frames(Bodies(s.done)), Frame(s.holder.value.body), s.holder.value.sent, n);
  }

  lemma EmitKeeps(s: Sys, n: nat)
    requires Inv(s) && Enabled(s, Emit(n))
    ensures Inv(Next(s, Emit(n)))
  {
    var s' := Next(s, Emit(n));
    var h := s.holder.value;
    EmitBytes(s, n);
    if Advanced(h, n).Leaving? {
      FinishBytes(s.done, h, n);
    }
  }

  /** The last piece of a frame makes it one more whole frame. */
  lemma FinishBytes(done: seq<Whole>, h: Holder, n: nat)
    requires h.Writing? && h.sent + n >= HEADER + |h.body|
    ensures Frames(Bodies(done)) + First(Frame(h.body), h.sent + n) == Frames(Bodies(done + [Whole(h.task, h.body)])) + []
  {
    FrameLength(h.body);
    var f := Frame(h.body);
    assert First(f, h.sent + n) == f;
    assert Bodies(done + [Whole(h.task, h.body)]) == Bodies(done) + [h.body];
    FramesSnoc(Bodies(done), h.body);
    NothingMore(Frames(Bodies(done) + [h.body]));
  }

  lemma NothingMore(b: Bytes)
    ensures b + [] == b
  {}

  lemma StepKeeps(s: Sys, e: Event)
    requires Inv(s) && Enabled(s, e)
    ensures Inv(Next(s, e))
  {
    match e
    case Lock(_, body) => FrameLength(body);
    case Emit(n) => EmitKeeps(s, n);
    case Fail =>
      var h := s.holder.value;
      FrameLength(h.body);
      if !s.broken {
        assert Frame(h.body)[..h.sent] == Frame(h.body)[..|Next(s, Fail).cut|];
        assert CutShort(Next(s, Fail).cut);
      }
    case Unlock =>
  }

  ghost predicate StepOf(events: seq<Event>, states: seq<Sys>, i: nat)
    requires i < |events| && |states| == |events| + 1
  {
    Enabled(states[i], events[i]) && states[i + 1] == Next(states[i], events[i])
  }

  ghost predicate Run(events: seq<Event>, states: seq<Sys>) {
    && |states| == |events| + 1
    && states[0] == Init
    && forall i :: 0 <= i < |events| ==> StepOf(events, states, i)
  }

  /** In every interleaving the bytes on the connection are whole frames and a part of at most one more. */
  lemma {:induction false} AlwaysWholeFrames(events: seq<Event>, states: seq<Sys>, n: nat)
    requires Run(events, states) && n < |states|
    ensures Inv(states[n])
  {
    if n > 0 {
      AlwaysWholeFrames(events, states, n - 1);
      assert StepOf(events, states, n - 1);
      StepKeeps(states[n - 1], events[n - 1]);
    }
  }

  lemma CutNeedsMore(b: Bytes, body: Bytes)
    requires |body| <= MAX_FRAME && |b| < HEADER + |body| && b == Frame(body)[..|b|]
    ensures Decode(b) == More
  {
    if |b| >= HEADER {
      var f := Frame(body);
      assert f + [] == f;
      assert Header(|body|) + body == f;
      HeaderRoundTrip(|body|, body);
      assert Length(b) == Length(f);
    }
  }

  /** All frames begun so far are within the readers' bound. */
  ghost predicate InBound(s: Sys) {
    && Fits(Bodies(s.done))
    && (s.holder.Some? && s.holder.value.Writing? ==> |s.holder.value.body| <= MAX_FRAME)
    && (s.broken ==> exists body: Bytes :: |body| <= MAX_FRAME && |s.cut| < HEADER + |body| && s.cut == Frame(body)[..|s.cut|])
  }

  /** Parsing what is on the connection at any moment gives back exactly the finished frames, in order. */
  lemma ParsesToDone(s: Sys)
    requires Inv(s) && InBound(s)
    ensures Parse(s.bytes) == Parsed(Bodies(s.done), Rest(Partial(s)))
  {
    var p := Partial(s);
    if s.broken {
      var body: Bytes :| |body| <= MAX_FRAME && |s.cut| < HEADER + |body| && s.cut == Frame(body)[..|s.cut|];
      CutNeedsMore(p, body);
    } else if s.holder.Some? && s.holder.value.Writing? {
      var h := s.holder.value;
      FrameLength(h.body);
      assert |p| == h.sent;
      CutNeedsMore(p, h.body);
    }
    ParseFrames(Bodies(s.done), p);
    assert Bodies(s.done) + [] == Bodies(s.done);
  }

  ghost predicate SmallFrames(e: Event) {
    e.Lock? ==> |e.body| <= MAX_FRAME
  }

  lemma BoundStep(s: Sys, e: Event)
    requires Inv(s) && InBound(s) && Enabled(s, e) && SmallFrames(e)
    ensures InBound(Next(s, e))
  {
    if e.Emit? && Advanced(s.holder.value, e.n).Leaving? {
      assert Bodies(Next(s, e).done) == Bodies(s.done) + [s.holder.value.body];
    }
    if e.Fail? {
      var h := s.holder.value;
      FrameLength(h.body);
      if !s.broken {
        assert Frame(h.body)[..h.sent] == Frame(h.body)[..|Next(s, e).cut|];
      }
    }
  }

  /**
   The reader at the other end, however little of the stream has reached it: it finds a prefix of
   the finished frames, in order and unmixed, and never an oversized one.
   */
  lemma ReaderSeesPrefix(s: Sys, arrived: Bytes, rest: Bytes)
    requires Inv(s) && InBound(s) && s.bytes == arrived + rest
    ensures Parse(arrived).bodies <= Bodies(s.done) && Parse(arrived).end.Rest?
  {
    ParsesToDone(s);
    ParseAppend(arrived, rest);
  }

  /** `ParsesToDone` over every run whose bodies are within the bound. */
  lemma {:induction false} AlwaysInBound(events: seq<Event>, states: seq<Sys>, n: nat)
    requires Run(events, states) && n < |states|
    requires forall i :: 0 <= i < n ==> SmallFrames(events[i])
    ensures Inv(states[n]) && InBound(states[n])
    ensures Parse(states[n].bytes) == Parsed(Bodies(states[n].done), Rest(Partial(states[n])))
  {
    AlwaysWholeFrames(events, states, n);
    if n > 0 {
      AlwaysInBound(events, states, n - 1);
      assert StepOf(events, states, n - 1);
      BoundStep(states[n - 1], events[n - 1]);
    }
    ParsesToDone(states[n]);
  }

  lemma OneStepMore(events: seq<Event>, states: seq<Sys>, e: Event) returns (events': seq<Event>, states': seq<Sys>)
    requires Run(events, states) && Enabled(states[|events|], e)
    ensures Run(events', states') && events' == events + [e] && states' == states + [Next(states[|events|], e)]
  {
    events', states' := events + [e], states + [Next(states[|events|], e)];
    forall i | 0 <= i < |events'| ensures StepOf(events', states', i) {
      if i < |events| { assert StepOf(events, states, i); }
    }
  }

  /**
   Whoever holds the mutex can always go on to release it: with its frame finished, if the connection is
   not broken, and otherwise with nothing added. So no goroutine waits for the mutex for ever.
   */
  lemma HolderCanFinish(events: seq<Event>, states: seq<Sys>) returns (events': seq<Event>, states': seq<Sys>)
    requires Run(events, states) && states[|events|].holder.Some?
    ensures Run(events', states') && events <= events' && states'[|events'|].holder == None
    ensures var s := states[|events|];
            var h := s.holder.value;
            states'[|events'|].done == if h.Writing? && !s.broken then s.done + [Whole(h.task, h.body)] else s.done
  {
    AlwaysWholeFrames(events, states, |events|);
    events', states' := events, states;
    var s := states[|events|];
    var h := s.holder.value;
    if h.Writing? && s.broken {
      events', states' := OneStepMore(events, states, Fail);
    } else if h.Writing? {
      if h.sent < HEADER { events', states' := OneStepMore(events, states, Emit(HEADER - h.sent)); }
      var h1 := states'[|events'|].holder.value;
      if h1.Writing? { events', states' := OneStepMore(events', states', Emit(HEADER + |h.body| - h1.sent)); }
    }
    events', states' := OneStepMore(events', states', Unlock);
  }
}
