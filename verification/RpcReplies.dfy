/**
 Replies reach the calls they answer. In every interleaving of one connection, a future that is
 completed with a reply holds the result of the handler routed for its own request, and each
 message received is answered by at most one frame.
 */
module RpcReplies {

  import opened Common
  import opened Framing
  import Routing
  import W = Wire
  import opened Rpc

  ghost predicate CallsOk(s: Sys) {
    && s.pending <= s.calls.Keys
    && (forall id :: id in s.calls ==> s.calls[id].req.id == id && id != "")
  }

  /** Requests on the way are those of calls, each sent once. */
  ghost predicate RequestsOk(s: Sys) {
    && (forall i :: 0 <= i < |s.c2s| && s.c2s[i].Good? ==> FromCall(s, s.c2s[i].req))
    && (forall i, j :: 0 <= i < j < |s.c2s| && s.c2s[i].Good? && s.c2s[j].Good? ==> s.c2s[i].req.id != s.c2s[j].req.id)
  }

  ghost predicate FromCall(s: Sys, req: Request) {
    req.id in s.calls && s.calls[req.id].req == req && s.calls[req.id].sent
  }

  ghost predicate TaskOk(srv: Server, m: Message, task: Task) {
    match task
    case Running => m.Good? && Routing.Key(m.req.service, m.req.rpc) in srv.handlers
    case Dropped => true
    case Ready(r) => Answers(srv, m, r)
    case Writing(r) => Answers(srv, m, r)
    case Written(r) => Answers(srv, m, r)
  }

  ghost predicate TasksOk(srv: Server, s: Sys) {
    && |s.tasks| <= |s.c2s|
    && forall t :: 0 <= t < |s.tasks| ==> TaskOk(srv, s.c2s[t], s.tasks[t])
  }

  /** The frame is the reply that its task worked out. */
  ghost predicate FrameOf(codec: Codec, s: Sys, x: W.Whole) {
    x.task < |s.tasks| && s.tasks[x.task].Written? && x.body == codec.enc(s.tasks[x.task].r)
  }

  ghost predicate WireOk(codec: Codec, s: Sys) {
    && W.Inv(s.out)
    && (s.out.holder.Some? && s.out.holder.value.Writing? ==>
          var h := s.out.holder.value;
          h.task < |s.tasks| && s.tasks[h.task].Writing? && h.body == codec.enc(s.tasks[h.task].r))
    && (forall i :: 0 <= i < |s.out.done| ==> FrameOf(codec, s, s.out.done[i]))
    && (forall i, j :: 0 <= i < j < |s.out.done| ==> s.out.done[i].task != s.out.done[j].task)
  }

  /** Task `t`, which dealt with the request of the call with the reply's id, wrote this reply. */
  ghost predicate WrittenFor(s: Sys, t: nat, r: Response) {
    && t < |s.tasks| && t < |s.c2s| && s.tasks[t] == Written(r)
    && r.id in s.calls && s.c2s[t] == Good(s.calls[r.id].req)
  }

  ghost predicate Right(srv: Server, s: Sys, r: Response) {
    && r.id in s.calls && Answers(srv, Good(s.calls[r.id].req), r)
    && exists t: nat :: WrittenFor(s, t, r)
  }

  ghost predicate RepliesOk(srv: Server, s: Sys) {
    && (s.loop.Claimed? ==> Right(srv, s, s.loop.r))
    && (forall id :: id in s.calls && s.calls[id].result.Some? && s.calls[id].result.value.Replied? ==>
                       s.calls[id].result.value.r.id == id && Right(srv, s, s.calls[id].result.value.r))
  }

  ghost predicate Inv(srv: Server, codec: Codec, s: Sys) {
    CallsOk(s) && RequestsOk(s) && TasksOk(srv, s) && WireOk(codec, s) && W.InBound(s.out) && RepliesOk(srv, s)
  }

  /** The reply being written is at most 16 MiB. */
  ghost predicate Small(codec: Codec, s: Sys, e: Event) {
    e.Lock? && e.t < |s.tasks| && s.tasks[e.t].Ready? ==> |codec.enc(s.tasks[e.t].r)| <= MAX_FRAME
  }

  /** A call keeps its request, and a completed future keeps its result. */
  ghost predicate Continues(c: Call, c': Call) {
    c'.req == c.req && (c.sent ==> c'.sent) && (c.result.Some? ==> c'.result == c.result)
  }

  lemma CallContinues(srv: Server, codec: Codec, s: Sys, e: Event, id: string)
    requires Enabled(srv, codec, s, e) && id in s.calls
    ensures id in Next(srv, codec, s, e).calls && Continues(s.calls[id], Next(srv, codec, s, e).calls[id])
  {}

  lemma NewCalls(srv: Server, codec: Codec, s: Sys, e: Event)
    requires Enabled(srv, codec, s, e)
    ensures Next(srv, codec, s, e).calls.Keys == s.calls.Keys + if e.Begin? then {e.req.id} else {}
    ensures Next(srv, codec, s, e).pending <= s.pending + if e.Begin? then {e.req.id} else {}
  {}

  lemma CallsStep(srv: Server, codec: Codec, s: Sys, e: Event)
    requires CallsOk(s) && Enabled(srv, codec, s, e)
    ensures CallsOk(Next(srv, codec, s, e))
  {
    NewCalls(srv, codec, s, e);
    forall id | id in s.calls ensures Next(srv, codec, s, e).calls[id].req == s.calls[id].req {
      CallContinues(srv, codec, s, e, id);
    }
  }

  lemma RequestsStep(srv: Server, codec: Codec, s: Sys, e: Event)
    requires CallsOk(s) && RequestsOk(s) && Enabled(srv, codec, s, e)
    ensures RequestsOk(Next(srv, codec, s, e))
  {
    var s' := Next(srv, codec, s, e);
    forall i | 0 <= i < |s'.c2s| && s'.c2s[i].Good? ensures FromCall(s', s'.c2s[i].req) {
      if i < |s.c2s| {
        assert FromCall(s, s.c2s[i].req);
        CallContinues(srv, codec, s, e, s.c2s[i].req.id);
      }
    }
    if e.Write? {
      forall i | 0 <= i < |s.c2s| && s.c2s[i].Good? ensures s.c2s[i].req.id != e.id {
        assert FromCall(s, s.c2s[i].req);
      }
    }
  }

  lemma TasksStep(srv: Server, codec: Codec, s: Sys, e: Event)
    requires TasksOk(srv, s) && WireOk(codec, s) && Enabled(srv, codec, s, e)
    ensures TasksOk(srv, Next(srv, codec, s, e))
  {
    var s' := Next(srv, codec, s, e);
    assert s.c2s <= s'.c2s;
    forall t | 0 <= t < |s'.tasks| ensures TaskOk(srv, s'.c2s[t], s'.tasks[t]) {
      if t < |s.tasks| { assert TaskOk(srv, s.c2s[t], s.tasks[t]); }
    }
  }

  lemma FramesKept(codec: Codec, s: Sys, s': Sys)
    requires WireOk(codec, s) && s'.out.done == s.out.done
    requires forall t :: 0 <= t < |s.tasks| && s.tasks[t].Written? ==> t < |s'.tasks| && s'.tasks[t] == s.tasks[t]
    ensures forall i :: 0 <= i < |s'.out.done| ==> FrameOf(codec, s', s'.out.done[i])
  {
    forall i | 0 <= i < |s'.out.done| ensures FrameOf(codec, s', s'.out.done[i]) {
      assert FrameOf(codec, s, s.out.done[i]);
    }
  }

  lemma EmitStep(srv: Server, codec: Codec, s: Sys, n: nat)
    requires WireOk(codec, s) && Enabled(srv, codec, s, Emit(n))
    ensures WireOk(codec, Next(srv, codec, s, Emit(n)))
  {
    var s' := Next(srv, codec, s, Emit(n));
    W.StepKeeps(s.out, W.Emit(n));
    var h := s.out.holder.value;
    forall i | 0 <= i < |s'.out.done| ensures FrameOf(codec, s', s'.out.done[i]) {
      if i < |s.out.done| { assert FrameOf(codec, s, s.out.done[i]); }
    }
    forall i | 0 <= i < |s.out.done| ensures s.out.done[i].task != h.task {
      assert FrameOf(codec, s, s.out.done[i]);
    }
  }

  lemma WireStep(srv: Server, codec: Codec, s: Sys, e: Event)
    requires WireOk(codec, s) && Enabled(srv, codec, s, e)
    ensures WireOk(codec, Next(srv, codec, s, e))
  {
    var s' := Next(srv, codec, s, e);
    if e.Emit? {
      EmitStep(srv, codec, s, e.n);
    } else {
      var w := WireEvent(codec, s, e);
      if w.Some? { W.StepKeeps(s.out, w.value); }
      FramesKept(codec, s, s');
    }
  }

  lemma BoundStep(srv: Server, codec: Codec, s: Sys, e: Event)
    requires WireOk(codec, s) && W.InBound(s.out) && Enabled(srv, codec, s, e) && Small(codec, s, e)
    ensures W.InBound(Next(srv, codec, s, e).out)
  {
    var w := WireEvent(codec, s, e);
    if w.Some? && (e.Lock? || e.Emit? || e.Fail? || e.Unlock?) { W.BoundStep(s.out, w.value); }
  }

  /** What the event loop reads next is the reply that some task worked out for a message received. */
  lemma IncomingIsReply(srv: Server, codec: Codec, s: Sys)
    requires RoundTrips(codec) && WireOk(codec, s) && TasksOk(srv, s) && W.InBound(s.out) && Incoming(s).Some?
    ensures s.read < |s.out.done|
    ensures var t := s.out.done[s.read].task;
            && t < |s.tasks| && s.tasks[t].Written?
            && codec.dec(Incoming(s).value) == Some(s.tasks[t].r) && Answers(srv, s.c2s[t], s.tasks[t].r)
  {
    W.ParsesToDone(s.out);
    assert FrameOf(codec, s, s.out.done[s.read]);
    var t := s.out.done[s.read].task;
    assert TaskOk(srv, s.c2s[t], s.tasks[t]);
  }

  lemma AnswerCarriesId(srv: Server, m: Message, r: Response)
    requires Answers(srv, m, r)
    ensures r.id == if m.Good? then m.req.id else ""
  {}

  lemma ClaimStep(srv: Server, codec: Codec, s: Sys)
    requires RoundTrips(codec) && Inv(srv, codec, s) && Enabled(srv, codec, s, Claim)
    ensures RepliesOk(srv, Next(srv, codec, s, Claim))
  {
    IncomingIsReply(srv, codec, s);
    var t := s.out.done[s.read].task;
    var r := s.tasks[t].r;
    AnswerCarriesId(srv, s.c2s[t], r);
    var s' := Next(srv, codec, s, Claim);
    if r.id in s.pending {
      assert s.c2s[t].Good?;
      assert FromCall(s, s.c2s[t].req);
      assert WrittenFor(s', t, r);
    }
    forall x | Right(srv, s, x) ensures Right(srv, s', x) { RightKept(srv, codec, s, Claim, x); }
  }

  /** A written reply stays with its task, and the task with its message. */
  lemma RightKept(srv: Server, codec: Codec, s: Sys, e: Event, r: Response)
    requires WireOk(codec, s) && Enabled(srv, codec, s, e) && Right(srv, s, r)
    ensures Right(srv, Next(srv, codec, s, e), r)
  {
    var s' := Next(srv, codec, s, e);
    CallContinues(srv, codec, s, e, r.id);
    var t: nat :| WrittenFor(s, t, r);
    assert s.c2s <= s'.c2s;
    assert s'.tasks[t] == s.tasks[t];
    assert WrittenFor(s', t, r);
  }

  lemma RepliesStep(srv: Server, codec: Codec, s: Sys, e: Event)
    requires RoundTrips(codec) && Inv(srv, codec, s) && Enabled(srv, codec, s, e)
    ensures RepliesOk(srv, Next(srv, codec, s, e))
  {
    if e.Claim? {
      ClaimStep(srv, codec, s);
    } else {
      var s' := Next(srv, codec, s, e);
      if s'.loop.Claimed? {
        RightKept(srv, codec, s, e, s.loop.r);
      }
      forall id | id in s'.calls && s'.calls[id].result.Some? && s'.calls[id].result.value.Replied?
        ensures s'.calls[id].result.value.r.id == id && Right(srv, s', s'.calls[id].result.value.r)
      {
        ResultStep(srv, codec, s, e, id);
      }
    }
  }

  lemma ResultStep(srv: Server, codec: Codec, s: Sys, e: Event, id: string)
    requires RepliesOk(srv, s) && WireOk(codec, s) && Enabled(srv, codec, s, e)
    requires var s' := Next(srv, codec, s, e);
             id in s'.calls && s'.calls[id].result.Some? && s'.calls[id].result.value.Replied?
    ensures var s' := Next(srv, codec, s, e);
            s'.calls[id].result.value.r.id == id && Right(srv, s', s'.calls[id].result.value.r)
  {
    var s' := Next(srv, codec, s, e);
    assert id in s.calls;
    CallContinues(srv, codec, s, e, id);
    assert s'.calls[id].result == s.calls[id].result || (e.Complete? && id == s.loop.r.id && s'.calls[id].result == Some(Replied(s.loop.r)));
    RightKept(srv, codec, s, e, s'.calls[id].result.value.r);
  }

  lemma StepKeeps(srv: Server, codec: Codec, s: Sys, e: Event)
    requires RoundTrips(codec) && Inv(srv, codec, s) && Enabled(srv, codec, s, e) && Small(codec, s, e)
    ensures Inv(srv, codec, Next(srv, codec, s, e))
  {
    CallsStep(srv, codec, s, e);
    RequestsStep(srv, codec, s, e);
    TasksStep(srv, codec, s, e);
    WireStep(srv, codec, s, e);
    BoundStep(srv, codec, s, e);
    RepliesStep(srv, codec, s, e);
  }

  lemma {:induction false} RunInv(srv: Server, codec: Codec, events: seq<Event>, states: seq<Sys>, n: nat)
    requires RoundTrips(codec) && Run(srv, codec, events, states) && n < |states|
    requires forall i :: 0 <= i < n ==> Small(codec, states[i], events[i])
    ensures Inv(srv, codec, states[n])
  {
    if n > 0 {
      RunInv(srv, codec, events, states, n - 1);
      assert StepOf(srv, codec, events, states, n - 1);
      StepKeeps(srv, codec, states[n - 1], events[n - 1]);
    }
  }

  /** The reply that a task has worked out. */
  function ReplyOf(task: Task): Option<Response> {
    if task.Ready? || task.Writing? || task.Written? then Some(task.r) else None
  }

  predicate HasHandler(srv: Server, req: Request) {
    Routing.Key(req.service, req.rpc) in srv.handlers
  }

  /** In step `i` the handler that task `t` runs returned `o`, one of the outcomes it may have for `req`. */
  ghost predicate ReturnedIn(srv: Server, events: seq<Event>, i: nat, t: nat, req: Request, o: Outcome) {
    && i < |events| && events[i] == Return(t, o) && !o.Panic?
    && HasHandler(srv, req) && srv.may(srv.handlers[Routing.Key(req.service, req.rpc)], req.payload, o)
  }

  lemma ReplyStep(srv: Server, codec: Codec, s: Sys, e: Event, t: nat)
    requires WireOk(codec, s) && TasksOk(srv, s) && Enabled(srv, codec, s, e)
    requires t < |Next(srv, codec, s, e).tasks| && ReplyOf(Next(srv, codec, s, e).tasks[t]).Some?
    ensures var s' := Next(srv, codec, s, e);
            && t < |s'.c2s|
            && (s'.c2s[t].Good? && HasHandler(srv, s'.c2s[t].req) ==>
                  && t < |s.tasks| && t < |s.c2s| && s.c2s[t] == s'.c2s[t]
                  && (|| ReplyOf(s.tasks[t]) == ReplyOf(s'.tasks[t])
                      || (e.Return? && e.t == t && !e.o.Panic? && ReplyOf(s'.tasks[t]) == Some(Answer(s.c2s[t].req, e.o)))))
  {
    TasksStep(srv, codec, s, e);
    assert s.c2s <= Next(srv, codec, s, e).c2s;
  }

  /** A reply to a routed request is the answer with which the handler of that very task returned. */
  lemma {:induction false} HandlerReturned(srv: Server, codec: Codec, events: seq<Event>, states: seq<Sys>, n: nat, t: nat)
    returns (i: nat)
    requires RoundTrips(codec) && Run(srv, codec, events, states) && n < |states|
    requires forall m :: 0 <= m < n ==> Small(codec, states[m], events[m])
    requires t < |states[n].tasks| && ReplyOf(states[n].tasks[t]).Some?
    requires t < |states[n].c2s| && states[n].c2s[t].Good? && HasHandler(srv, states[n].c2s[t].req)
    ensures i < n && events[i].Return? && ReturnedIn(srv, events, i, t, states[n].c2s[t].req, events[i].o)
    ensures ReplyOf(states[n].tasks[t]) == Some(Answer(states[n].c2s[t].req, events[i].o))
    decreases n
  {
    RunInv(srv, codec, events, states, n - 1);
    assert StepOf(srv, codec, events, states, n - 1);
    ReplyStep(srv, codec, states[n - 1], events[n - 1], t);
    i := n - 1;
    if ReplyOf(states[n - 1].tasks[t]).Some? {
      i := HandlerReturned(srv, codec, events, states, n - 1, t);
    }
  }

  /** The reply tells the caller this outcome: the handler's payload and no error, or its error and no payload. */
  predicate Tells(r: Response, o: Outcome) {
    match o
    case Payload(bytes) => r.payload == bytes && r.error == None
    case HandlerError(message) => r.payload == [] && r.error == Some(Error(500, message))
    case Panic => false
  }

  /** The reply tells the outcome with which the handler run for this request returned before step `n`. */
  ghost predicate OwnRunReturned(srv: Server, events: seq<Event>, n: nat, c2s: seq<Message>, req: Request, r: Response) {
    exists i: nat, t: nat, o: Outcome ::
      i < n && t < |c2s| && c2s[t] == Good(req) && ReturnedIn(srv, events, i, t, req, o) && Tells(r, o)
  }

  /** The reply tells the caller that there is no such method. */
  predicate TellsNotFound(r: Response, req: Request) {
    r.payload == [] && r.error == Some(Error(404, "method not found: " + req.service + "." + req.rpc))
  }

  /**
   In every interleaving with fresh request ids and replies of at most 16 MiB: a future completed
   with a reply holds, under its own id, the payload or the error with which the handler routed for
   its own service and method returned, in the goroutine started for this very request, for its own
   payload; or the "method not found" error if there is no such handler.
   */
  lemma RepliesMatchCalls(srv: Server, codec: Codec, events: seq<Event>, states: seq<Sys>, n: nat, id: string)
    requires RoundTrips(codec) && Run(srv, codec, events, states) && n < |states|
    requires forall i :: 0 <= i < n ==> Small(codec, states[i], events[i])
    requires id in states[n].calls
    requires states[n].calls[id].result.Some? && states[n].calls[id].result.value.Replied?
    ensures var call := states[n].calls[id];
            var r := call.result.value.r;
            && call.req.id == id && r.id == id
            && (if HasHandler(srv, call.req) then OwnRunReturned(srv, events, n, states[n].c2s, call.req, r)
                else TellsNotFound(r, call.req))
  {
    RunInv(srv, codec, events, states, n);
    var call := states[n].calls[id];
    var r := call.result.value.r;
    if HasHandler(srv, call.req) {
      var t: nat :| WrittenFor(states[n], t, r);
      var i := HandlerReturned(srv, codec, events, states, n, t);
      assert ReturnedIn(srv, events, i, t, call.req, events[i].o);
    }
  }

  /**
   Each message received is answered by at most one frame: the frames on the connection belong to
   different messages, and no two of them carry the same request id.
   */
  lemma AtMostOneReply(srv: Server, codec: Codec, events: seq<Event>, states: seq<Sys>, n: nat, i: nat, j: nat)
    requires RoundTrips(codec) && Run(srv, codec, events, states) && n < |states|
    requires forall m :: 0 <= m < n ==> Small(codec, states[m], events[m])
    requires i < j < |Parse(states[n].out.bytes).bodies|
    ensures j < |states[n].out.done| && states[n].out.done[i].task != states[n].out.done[j].task
    ensures var a, b := codec.dec(Parse(states[n].out.bytes).bodies[i]), codec.dec(Parse(states[n].out.bytes).bodies[j]);
            a.Some? && b.Some? && (a.value.id == b.value.id ==> a.value.id == "")
  {
    var s := states[n];
    RunInv(srv, codec, events, states, n);
    W.ParsesToDone(s.out);
    IncomingIsReply(srv, codec, s.(read := i));
    IncomingIsReply(srv, codec, s.(read := j));
    var t, u := s.out.done[i].task, s.out.done[j].task;
    AnswerCarriesId(srv, s.c2s[t], s.tasks[t].r);
    AnswerCarriesId(srv, s.c2s[u], s.tasks[u].r);
  }

  /**
   What the frames on the connection say, in every state: each of them decodes to a reply to a message
   received. For a request it carries that request's id and tells what the
   handler run for it returned, or that there is none; for anything else it carries no id, the code 400
   and the reason.
   */
  lemma EveryFrameAnswers(srv: Server, codec: Codec, events: seq<Event>, states: seq<Sys>, n: nat, i: nat) returns (t: nat)
    requires RoundTrips(codec) && Run(srv, codec, events, states) && n < |states|
    requires forall m :: 0 <= m < n ==> Small(codec, states[m], events[m])
    requires i < |Parse(states[n].out.bytes).bodies|
    ensures i < |states[n].out.done| && t == states[n].out.done[i].task && t < |states[n].c2s|
    ensures var r := codec.dec(Parse(states[n].out.bytes).bodies[i]);
            var msg := states[n].c2s[t];
            && r.Some?
            && (msg.Garbage? ==>
                  r.value.id == "" && r.value.payload == [] && r.value.error == Some(Error(400, "invalid request: " + msg.reason)))
            && (msg.Good? ==>
                  && r.value.id == msg.req.id
                  && (if HasHandler(srv, msg.req) then OwnRunReturned(srv, events, n, states[n].c2s, msg.req, r.value)
                      else TellsNotFound(r.value, msg.req)))
  {
    var s := states[n];
    RunInv(srv, codec, events, states, n);
    W.ParsesToDone(s.out);
    IncomingIsReply(srv, codec, s.(read := i));
    t := s.out.done[i].task;
    if s.c2s[t].Good? && HasHandler(srv, s.c2s[t].req) {
      var m := HandlerReturned(srv, codec, events, states, n, t);
      assert ReturnedIn(srv, events, m, t, s.c2s[t].req, events[m].o);
    }
  }

  /**
   Through the generated code at both ends: the server's routing table is the one the generated
   registrations fill, and the request is sent by the generated stub of `rpc`. A reply to it is an
   outcome of the handler generated for that same rpc, on the payload that was sent.
   */
  lemma StubCallsReachTheirHandler(srv: Server, codec: Codec, services: seq<Routing.Service>, r: nat,
                                   events: seq<Event>, states: seq<Sys>, n: nat, id: string)
    requires Routing.DotFreeServices(services) && Routing.NoRepeats(Routing.Rpcs(services))
    requires Routing.Unambiguous(Routing.Rpcs(services)) && r < |Routing.Rpcs(services)|
    requires srv.handlers == Routing.Table(Routing.Rpcs(services))
    requires RoundTrips(codec) && Run(srv, codec, events, states) && n < |states|
    requires forall i :: 0 <= i < n ==> Small(codec, states[i], events[i])
    requires id in states[n].calls
    requires states[n].calls[id].result.Some? && states[n].calls[id].result.value.Replied?
    requires var req := states[n].calls[id].req;
             (req.service, req.rpc) == Routing.StubRequest(Routing.Rpcs(services)[r])
    ensures var call := states[n].calls[id];
            && call.result.value.r.id == id
            && exists o: Outcome :: srv.may(Routing.Rpcs(services)[r], call.req.payload, o) && Tells(call.result.value.r, o)
  {
    RepliesMatchCalls(srv, codec, events, states, n, id);
    Routing.StubsReachHandlersIff(services);
    assert Routing.Routed(services, Routing.Rpcs(services)[r]) == Some(Routing.Rpcs(services)[r]);
    var req := states[n].calls[id].req;
    assert HasHandler(srv, req);
    assert OwnRunReturned(srv, events, n, states[n].c2s, req, states[n].calls[id].result.value.r);
  }
}
