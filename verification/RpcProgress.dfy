/**
 Calls come through. For every request and everything its handler may return for it, there is a run
 of the connection, from the calling thread to the handler and back, at the end of which the call's
 future holds just that; and likewise without a handler.
 */
module RpcProgress {

  import opened Common
  import opened Framing
  import Routing
  import W = Wire
  import opened Rpc
  import opened RpcReplies

  /** One call has been begun, its timer is set and its request is on the way. */
  function Asked(req: Request): Sys {
    Init.(calls := map[req.id := Call(req, true, true, None, false)], pending := {req.id}, c2s := [Good(req)])
  }

  lemma Ask(srv: Server, codec: Codec, req: Request) returns (events: seq<Event>, states: seq<Sys>)
    requires req.id != ""
    ensures RunTo(srv, codec, events, states, Asked(req)) && forall i :: 0 <= i < |events| ==> !events[i].Lock?
  {
    var s1 := Next(srv, codec, Init, Begin(req));
    var s2 := Next(srv, codec, s1, Arm(req.id));
    events, states := OneStepMore(srv, codec, [], [Init], Init, Begin(req));
    events, states := OneStepMore(srv, codec, events, states, s1, Arm(req.id));
    events, states := OneStepMore(srv, codec, events, states, s2, Write(req.id));
    assert Next(srv, codec, s2, Write(req.id)) == Asked(req);
  }

  /** The server has worked out the reply; the read loop writes it itself if there is no handler. */
  function WorkedOut(req: Request, r: Response, own: bool): Sys {
    Asked(req).(tasks := [Ready(r)], reader := if own then Some(0) else None)
  }

  lemma WorkOut(srv: Server, codec: Codec, req: Request, o: Outcome)
    returns (events: seq<Event>, states: seq<Sys>, r: Response)
    requires req.id != "" && HasHandler(srv, req) && !o.Panic?
    requires srv.may(srv.handlers[Routing.Key(req.service, req.rpc)], req.payload, o)
    ensures RunTo(srv, codec, events, states, WorkedOut(req, r, false)) && forall i :: 0 <= i < |events| ==> !events[i].Lock?
    ensures r.id == req.id && Tells(r, o)
  {
    events, states := Ask(srv, codec, req);
    r := Answer(req, o);
    var s := Asked(req);
    var s1 := Next(srv, codec, s, Receive);
    events, states := OneStepMore(srv, codec, events, states, s, Receive);
    events, states := OneStepMore(srv, codec, events, states, s1, Return(0, o));
    assert Next(srv, codec, s1, Return(0, o)) == WorkedOut(req, r, false);
  }

  lemma TurnDown(srv: Server, codec: Codec, req: Request)
    returns (events: seq<Event>, states: seq<Sys>, r: Response)
    requires req.id != "" && !HasHandler(srv, req)
    ensures RunTo(srv, codec, events, states, WorkedOut(req, r, true)) && forall i :: 0 <= i < |events| ==> !events[i].Lock?
    ensures r.id == req.id && TellsNotFound(r, req)
  {
    events, states := Ask(srv, codec, req);
    r := NotFound(req);
    events, states := OneStepMore(srv, codec, events, states, Asked(req), Receive);
    assert Next(srv, codec, Asked(req), Receive) == WorkedOut(req, r, true);
  }

  /** No lock is taken for a reply above the bound. */
  ghost predicate AllSmall(codec: Codec, events: seq<Event>, states: seq<Sys>)
    requires |states| == |events| + 1
  {
    forall i :: 0 <= i < |events| ==> Small(codec, states[i], events[i])
  }

  /** The header is written, and with it the whole frame if there is no body. */
  lemma WriteHeader(srv: Server, codec: Codec, events: seq<Event>, states: seq<Sys>, req: Request, r: Response, own: bool)
    returns (events': seq<Event>, states': seq<Sys>, s: Sys)
    requires RunTo(srv, codec, events, states, WorkedOut(req, r, own)) && AllSmall(codec, events, states)
    requires |codec.enc(r)| <= MAX_FRAME
    ensures RunTo(srv, codec, events', states', s) && AllSmall(codec, events', states')
    ensures s.calls == Asked(req).calls && s.pending == {req.id} && s.loop.Idle? && s.read == 0 && |s.tasks| == 1
    ensures codec.enc(r) == [] ==> s.tasks[0] == Written(r) && |s.out.done| == 1 && s.out.holder == Some(W.Leaving(0))
    ensures codec.enc(r) != [] ==>
              s.tasks[0] == Writing(r) && !s.out.broken && s.out.done == []
              && s.out.holder == Some(W.Writing(0, codec.enc(r), HEADER))
  {
    var s0 := WorkedOut(req, r, own);
    var s1 := Next(srv, codec, s0, Lock(0));
    events', states' := OneStepMore(srv, codec, events, states, s0, Lock(0));
    events', states' := OneStepMore(srv, codec, events', states', s1, Emit(HEADER));
    s := Next(srv, codec, s1, Emit(HEADER));
  }

  lemma WriteReply(srv: Server, codec: Codec, events: seq<Event>, states: seq<Sys>, req: Request, r: Response, own: bool)
    returns (events': seq<Event>, states': seq<Sys>, s: Sys)
    requires RunTo(srv, codec, events, states, WorkedOut(req, r, own)) && AllSmall(codec, events, states)
    requires |codec.enc(r)| <= MAX_FRAME
    ensures RunTo(srv, codec, events', states', s) && AllSmall(codec, events', states')
    ensures s.calls == Asked(req).calls && s.pending == {req.id} && s.loop.Idle? && s.read == 0
    ensures |s.tasks| == 1 && s.tasks[0] == Written(r) && |s.out.done| == 1 && s.out.holder == None
  {
    events', states', s := WriteHeader(srv, codec, events, states, req, r, own);
    var n := |codec.enc(r)|;
    if n > 0 {
      var s1 := s;
      events', states' := OneStepMore(srv, codec, events', states', s1, Emit(n));
      s := Next(srv, codec, s1, Emit(n));
    }
    events', states' := OneStepMore(srv, codec, events', states', s, Unlock);
    s := Next(srv, codec, s, Unlock);
  }

  /** The frame is read and the future completed with the reply in it. */
  lemma Reply(srv: Server, codec: Codec, events: seq<Event>, states: seq<Sys>, req: Request, r: Response, own: bool)
    returns (events': seq<Event>, states': seq<Sys>)
    requires RoundTrips(codec) && r.id == req.id && |codec.enc(r)| <= MAX_FRAME
    requires RunTo(srv, codec, events, states, WorkedOut(req, r, own)) && AllSmall(codec, events, states)
    ensures Run(srv, codec, events', states') && AllSmall(codec, events', states')
    ensures var calls := states'[|events'|].calls;
            req.id in calls && calls[req.id].req == req && calls[req.id].result == Some(Replied(r))
    ensures states'[|events'|].out.holder == None
  {
    var s;
    events', states', s := WriteReply(srv, codec, events, states, req, r, own);
    RunInv(srv, codec, events', states', |events'|);
    W.ParsesToDone(s.out);
    IncomingIsReply(srv, codec, s);
    var s1 := Next(srv, codec, s, Claim);
    events', states' := OneStepMore(srv, codec, events', states', s, Claim);
    events', states' := OneStepMore(srv, codec, events', states', s1, Complete);
  }

  /**
   Whatever the handler of a request may return for it, the call can end with exactly that: there is a
   run from the start after which the call's future holds a reply that tells this outcome, and the
   connection is free for the next reply. The one condition is that the reply is at most 16 MiB once
   encoded.
   */
  lemma CallsComeThrough(srv: Server, codec: Codec, req: Request, o: Outcome) returns (events: seq<Event>, states: seq<Sys>, r: Response)
    requires RoundTrips(codec) && req.id != "" && HasHandler(srv, req) && !o.Panic?
    requires srv.may(srv.handlers[Routing.Key(req.service, req.rpc)], req.payload, o)
    requires forall x: Response :: x.id == req.id && Tells(x, o) ==> |codec.enc(x)| <= MAX_FRAME
    ensures Run(srv, codec, events, states) && AllSmall(codec, events, states)
    ensures r.id == req.id && Tells(r, o)
    ensures var calls := states[|events|].calls;
            req.id in calls && calls[req.id].req == req && calls[req.id].result == Some(Replied(r))
    ensures states[|events|].out.holder == None
  {
    events, states, r := WorkOut(srv, codec, req, o);
    events, states := Reply(srv, codec, events, states, req, r, false);
  }

  /** And a request without a handler can end with the reply that says so. */
  lemma RefusalsComeThrough(srv: Server, codec: Codec, req: Request) returns (events: seq<Event>, states: seq<Sys>, r: Response)
    requires RoundTrips(codec) && req.id != "" && !HasHandler(srv, req)
    requires forall x: Response :: x.id == req.id && TellsNotFound(x, req) ==> |codec.enc(x)| <= MAX_FRAME
    ensures Run(srv, codec, events, states) && AllSmall(codec, events, states)
    ensures r.id == req.id && TellsNotFound(r, req)
    ensures var calls := states[|events|].calls;
            req.id in calls && calls[req.id].req == req && calls[req.id].result == Some(Replied(r))
    ensures states[|events|].out.holder == None
  {
    events, states, r := TurnDown(srv, codec, req);
    events, states := Reply(srv, codec, events, states, req, r, true);
  }
}
