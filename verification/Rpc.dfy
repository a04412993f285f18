/**
 One RPC connection with both of its ends: any number of calling threads, timers and completion
 callbacks and the event loop on the caller's side; the read loop, one goroutine per request and
 the write mutex on the server's side; and the bytes of the replies in between.

 One action per step, in any interleaving. Requests travel in order; replies are the frames of
 module `Wire`, so that what the caller reads is what parsing the bytes gives.
 */
module Rpc {

  import opened Common
  import opened Framing
  import Routing
  import W = Wire

  datatype Request = Request(id: string, service: string, rpc: string, payload: Bytes)

  datatype Error = Error(code: int, message: string)

  datatype Response = Response(id: string, payload: Bytes, error: Option<Error>)

  /** What arrives at the server in a frame: a request, or bytes that are none. */
  datatype Message = Good(req: Request) | Garbage(reason: string)

  /** A handler returns a payload or an error, or panics and returns nothing. */
  datatype Outcome = Payload(bytes: Bytes) | HandlerError(message: string) | Panic

  /** The protobuf encoding of responses. */
  datatype Codec = Codec(enc: Response -> Bytes, dec: Bytes -> Option<Response>)

  ghost predicate RoundTrips(codec: Codec) {
    forall r :: codec.dec(codec.enc(r)) == Some(r)
  }

  /** The routing table, and what each handler may do with a payload. */
  datatype Server = Server(handlers: map<string, Routing.Handler>, may: (Routing.Handler, Bytes, Outcome) -> bool)

  function Answer(req: Request, o: Outcome): Response
    requires !o.Panic?
  {
    if o.Payload? then Response(req.id, o.bytes, None)
    else Response(req.id, [], Some(Error(500, o.message)))
  }

  function NotFound(req: Request): Response {
    Response(req.id, [], Some(Error(404, "method not found: " + req.service + "." + req.rpc)))
  }

  function Invalid(reason: string): Response {
    Response("", [], Some(Error(400, "invalid request: " + reason)))
  }

  /** A right reply to a message: from the handler routed for it, or the error its absence calls for. */
  ghost predicate Answers(srv: Server, m: Message, r: Response) {
    match m
    case Garbage(reason) => r == Invalid(reason)
    case Good(req) =>
      var key := Routing.Key(req.service, req.rpc);
      if key in srv.handlers then
        exists o: Outcome :: !o.Panic? && srv.may(srv.handlers[key], req.payload, o) && r == Answer(req, o)
      else r == NotFound(req)
  }

  // ----- the server's side

  /** Task `t` deals with the `t`-th message received. */
  datatype Task = Running | Ready(r: Response) | Writing(r: Response) | Written(r: Response) | Dropped

  // ----- the caller's side

  datatype Result = Replied(r: Response) | ConnectionClosed | TimedOut

  /** One call: its future, whether the timer and the removal callback are set up, and what has run. */
  datatype Call = Call(req: Request, armed: bool, sent: bool, result: Option<Result>, cleaned: bool)

  /** The channel's event loop. */
  datatype Loop = Idle | Claimed(r: Response) | Closing(todo: set<string>) | Gone

  datatype Sys = Sys(
    calls: map<string, Call>, pending: set<string>, loop: Loop, read: nat,
    c2s: seq<Message>, tasks: seq<Task>, serving: bool, reader: Option<nat>, out: W.Sys)

  const Init: Sys := Sys(map[], {}, Idle, 0, [], [], true, None, W.Init)

  datatype Event =
    // calling threads, timers and callbacks
    | Begin(req: Request)
    | Arm(id: string)
    | Write(id: string)
    | Timeout(id: string)
    | Callback(id: string)
    // the event loop
    | Claim
    | Complete
    | Inactive
    | Visit(id: string)
    | Clear
    // the server
    | Receive
    | Return(t: nat, o: Outcome)
    | Lock(t: nat)
    | Emit(n: nat)
    | Fail
    | Unlock
    | Hangup
    // the peer may send anything
    | Garble(reason: string)

  /** The frame that the event loop reads next. */
  function Incoming(s: Sys): Option<Bytes> {
    var bodies := Parse(s.out.bytes).bodies;
    if s.read < |bodies| then Some(bodies[s.read]) else None
  }

  /** What the server does to the connection's write side. */
  function WireEvent(codec: Codec, s: Sys, e: Event): Option<W.Event> {
    match e
    case Lock(t) => if t < |s.tasks| && s.tasks[t].Ready? then Some(W.Lock(t, codec.enc(s.tasks[t].r))) else None
    case Emit(n) => Some(W.Emit(n))
    case Fail => Some(W.Fail)
    case Unlock => Some(W.Unlock)
    case _ => None
  }

  ghost predicate Enabled(srv: Server, codec: Codec, s: Sys, e: Event) {
    match e
    case Begin(req) => req.id !in s.calls && req.id != ""
    case Arm(id) => id in s.calls && !s.calls[id].armed
    case Write(id) => id in s.calls && s.calls[id].armed && !s.calls[id].sent
    case Timeout(id) => id in s.calls && s.calls[id].armed && s.calls[id].result == None
    case Callback(id) => id in s.calls && s.calls[id].armed && s.calls[id].result.Some? && !s.calls[id].cleaned
    case Claim => s.loop.Idle? && Incoming(s).Some? && codec.dec(Incoming(s).value).Some?
    case Complete => s.loop.Claimed? && s.loop.r.id in s.calls
    case Inactive => s.loop.Idle?
    case Visit(id) => s.loop.Closing? && id in s.pending && id in s.calls
    case Clear => s.loop.Closing? && s.loop.todo * s.pending == {}
    case Receive => s.serving && s.reader == None && |s.tasks| < |s.c2s|
    case Return(t, o) =>
      && t < |s.tasks| && t < |s.c2s| && s.tasks[t].Running? && s.c2s[t].Good?
      && var key := Routing.Key(s.c2s[t].req.service, s.c2s[t].req.rpc);
         key in srv.handlers && srv.may(srv.handlers[key], s.c2s[t].req.payload, o)
    case Garble(_) => true
    case Hangup => s.serving && s.reader == None
    case _ => WireEvent(codec, s, e).Some? && W.Enabled(s.out, WireEvent(codec, s, e).value)
  }

  /** A future is completed at most once. */
  function Completed(c: Call, r: Result): Call {
    if c.result == None then c.(result := Some(r)) else c
  }

  /** What the read loop makes of the next message: a task for a handler or an error it writes itself. */
  function Received(srv: Server, m: Message): Task {
    match m
    case Garbage(reason) => Ready(Invalid(reason))
    case Good(req) => if Routing.Key(req.service, req.rpc) in srv.handlers then Running else Ready(NotFound(req))
  }

  /** The holder's task once it stops writing: its frame is complete, or it failed. */
  function AfterEmit(s: Sys, n: nat): seq<Task>
    requires W.Enabled(s.out, W.Emit(n))
  {
    var h := s.out.holder.value;
    if W.Advanced(h, n).Leaving? && h.task < |s.tasks| && s.tasks[h.task].Writing? then
      s.tasks[h.task := Written(s.tasks[h.task].r)]
    else s.tasks
  }

  ghost function Next(srv: Server, codec: Codec, s: Sys, e: Event): Sys
    requires Enabled(srv, codec, s, e)
  {
    match e
    case Begin(req) =>
      s.(calls := s.calls[req.id := Call(req, false, false, None, false)], pending := s.pending + {req.id})
    case Arm(id) => s.(calls := s.calls[id := s.calls[id].(armed := true)])
    case Write(id) =>
      s.(calls := s.calls[id := s.calls[id].(sent := true)],
         c2s := if s.loop.Closing? || s.loop.Gone? then s.c2s else s.c2s + [Good(s.calls[id].req)])
    case Timeout(id) => s.(calls := s.calls[id := Completed(s.calls[id], TimedOut)])
    case Callback(id) => s.(calls := s.calls[id := s.calls[id].(cleaned := true)], pending := s.pending - {id})
    case Claim =>
      var r := codec.dec(Incoming(s).value).value;
      s.(read := s.read + 1,
         loop := if r.id in s.pending then Claimed(r) else Idle,
         pending := s.pending - {r.id})
    case Complete =>
      s.(calls := s.calls[s.loop.r.id := Completed(s.calls[s.loop.r.id], Replied(s.loop.r))], loop := Idle)
    case Inactive => s.(loop := Closing(s.pending))
    case Visit(id) =>
      s.(calls := s.calls[id := Completed(s.calls[id], ConnectionClosed)], loop := Closing(s.loop.todo - {id}))
    case Clear => s.(pending := {}, loop := Gone)
    case Receive =>
      var task := Received(srv, s.c2s[|s.tasks|]);
      s.(tasks := s.tasks + [task], reader := if task.Ready? then Some(|s.tasks|) else None)
    case Return(t, o) =>
      s.(tasks := s.tasks[t := if o.Panic? then Dropped else Ready(Answer(s.c2s[t].req, o))])
    case Lock(t) =>
      s.(tasks := s.tasks[t := Writing(s.tasks[t].r)], out := W.Next(s.out, W.Lock(t, codec.enc(s.tasks[t].r))))
    case Emit(n) => s.(tasks := AfterEmit(s, n), out := W.Next(s.out, W.Emit(n)))
    case Fail =>
      var t := s.out.holder.value.task;
      s.(tasks := if t < |s.tasks| then s.tasks[t := Dropped] else s.tasks, out := W.Next(s.out, W.Fail))
    case Unlock =>
      s.(out := W.Next(s.out, W.Unlock),
         reader := if s.reader == Some(s.out.holder.value.task) then None else s.reader)
    case Hangup => s.(serving := false)
    case Garble(reason) => s.(c2s := s.c2s + [Garbage(reason)])
  }

  ghost predicate StepOf(srv: Server, codec: Codec, events: seq<Event>, states: seq<Sys>, i: nat)
    requires i < |events| && |states| == |events| + 1
  {
    Enabled(srv, codec, states[i], events[i]) && states[i + 1] == Next(srv, codec, states[i], events[i])
  }

  ghost predicate Run(srv: Server, codec: Codec, events: seq<Event>, states: seq<Sys>) {
    && |states| == |events| + 1
    && states[0] == Init
    && forall i :: 0 <= i < |events| ==> StepOf(srv, codec, events, states, i)
  }

  /** A run from the start that ends in `s`. */
  ghost predicate RunTo(srv: Server, codec: Codec, events: seq<Event>, states: seq<Sys>, s: Sys) {
    Run(srv, codec, events, states) && states[|events|] == s
  }

  lemma OneStepMore(srv: Server, codec: Codec, events: seq<Event>, states: seq<Sys>, s: Sys, e: Event)
    returns (events': seq<Event>, states': seq<Sys>)
    requires RunTo(srv, codec, events, states, s) && Enabled(srv, codec, s, e)
    ensures RunTo(srv, codec, events', states', Next(srv, codec, s, e))
    ensures events' == events + [e] && states' == states + [Next(srv, codec, s, e)]
  {
    events', states' := events + [e], states + [Next(srv, codec, s, e)];
    forall i | 0 <= i < |events'| ensures StepOf(srv, codec, events', states', i) {
      if i < |events| { assert StepOf(srv, codec, events, states, i); }
    }
  }
}
