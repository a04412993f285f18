/**
 No call is lost. Whatever the threads, the timers, the event loop and the server do, including
 a call that slips in while the channel is being closed: every future is completed by a reply, by
 the close or by its timer, once, and its id leaves the pending map.
 */
module RpcFutures {

  import opened Common
  import opened Rpc
  import opened RpcReplies

  /** An id is pending only while its future is incomplete or its removal callback has yet to run. */
  ghost predicate Tidy(s: Sys) {
    && CallsOk(s)
    && (forall id :: id in s.calls && s.calls[id].cleaned ==>
                       s.calls[id].armed && s.calls[id].result.Some? && id !in s.pending)
    && (s.loop.Claimed? ==> s.loop.r.id in s.calls && s.loop.r.id !in s.pending)
  }

  lemma CleanedStep(srv: Server, codec: Codec, s: Sys, e: Event, id: string)
    requires Tidy(s) && Enabled(srv, codec, s, e)
    requires id in Next(srv, codec, s, e).calls && Next(srv, codec, s, e).calls[id].cleaned
    ensures var s' := Next(srv, codec, s, e);
            s'.calls[id].armed && s'.calls[id].result.Some? && id !in s'.pending
  {
    NewCalls(srv, codec, s, e);
    if !(e.Begin? && e.req.id == id) {
      assert s.calls[id].cleaned || e == Callback(id);
    }
  }

  lemma TidyStep(srv: Server, codec: Codec, s: Sys, e: Event)
    requires Tidy(s) && Enabled(srv, codec, s, e)
    ensures Tidy(Next(srv, codec, s, e))
  {
    var s' := Next(srv, codec, s, e);
    CallsStep(srv, codec, s, e);
    NewCalls(srv, codec, s, e);
    forall id | id in s'.calls && s'.calls[id].cleaned
      ensures s'.calls[id].armed && s'.calls[id].result.Some? && id !in s'.pending
    {
      CleanedStep(srv, codec, s, e, id);
    }
  }

  lemma {:induction false} AlwaysTidy(srv: Server, codec: Codec, events: seq<Event>, states: seq<Sys>, n: nat)
    requires Run(srv, codec, events, states) && n < |states|
    ensures Tidy(states[n])
  {
    if n > 0 {
      AlwaysTidy(srv, codec, events, states, n - 1);
      assert StepOf(srv, codec, events, states, n - 1);
      TidyStep(srv, codec, states[n - 1], events[n - 1]);
    }
  }

  /** The calling thread, the timer and the callback of this call have nothing left to do. */
  ghost predicate AtRest(srv: Server, codec: Codec, s: Sys, id: string) {
    !Enabled(srv, codec, s, Arm(id)) && !Enabled(srv, codec, s, Timeout(id)) && !Enabled(srv, codec, s, Callback(id))
  }

  /** The channel was closed in one of the first `n` steps, before the call was begun. */
  ghost predicate Late(events: seq<Event>, states: seq<Sys>, n: nat, id: string)
    requires |states| == |events| + 1
  {
    exists i :: 0 <= i < n && i < |events| && events[i].Inactive? && id !in states[i].calls
  }

  /**
   An incomplete call is within reach of the event loop: in the pending map, which the close has
   yet to walk as far as this call if it has begun, or in the hand of the loop; or else it came
   after the close.
   */
  ghost predicate Reachable(events: seq<Event>, states: seq<Sys>, n: nat, id: string)
    requires |states| == |events| + 1 && n < |states|
  {
    var s := states[n];
    || (s.loop.Claimed? && s.loop.r.id == id)
    || (id in s.pending && !s.loop.Gone? && (s.loop.Closing? ==> id in s.loop.todo))
    || Late(events, states, n, id)
  }

  lemma ReachableStep(srv: Server, codec: Codec, events: seq<Event>, states: seq<Sys>, n: nat, id: string)
    requires Run(srv, codec, events, states) && n < |events|
    requires id in states[n].calls && states[n].calls[id].result == None ==> Reachable(events, states, n, id)
    requires id in states[n + 1].calls && states[n + 1].calls[id].result == None
    requires Began(events, states, n)
    ensures Reachable(events, states, n + 1, id)
  {
    assert StepOf(srv, codec, events, states, n);
    if id in states[n].calls {
      CallContinues(srv, codec, states[n], events[n], id);
      if Late(events, states, n, id) {
        var i :| 0 <= i < n && i < |events| && events[i].Inactive? && id !in states[i].calls;
        assert Late(events, states, n + 1, id);
      }
    } else if states[n].loop.Closing? || states[n].loop.Gone? {
      var i :| 0 <= i < n && events[i].Inactive?;
      NeverForgotten(srv, codec, events, states, i, n, id);
      assert Late(events, states, n + 1, id);
    }
  }

  lemma {:induction false} NeverForgotten(srv: Server, codec: Codec, events: seq<Event>, states: seq<Sys>, i: nat, n: nat, id: string)
    requires Run(srv, codec, events, states) && i <= n < |states| && id !in states[n].calls
    ensures id !in states[i].calls
  {
    if i < n {
      assert StepOf(srv, codec, events, states, n - 1);
      NewCalls(srv, codec, states[n - 1], events[n - 1]);
      NeverForgotten(srv, codec, events, states, i, n - 1, id);
    }
  }

  /** A channel that is closing or closed has been told so in an earlier step. */
  ghost predicate Began(events: seq<Event>, states: seq<Sys>, n: nat)
    requires |states| == |events| + 1 && n < |states|
  {
    states[n].loop.Closing? || states[n].loop.Gone? ==> exists i :: 0 <= i < n && events[i].Inactive?
  }

  lemma {:induction false} AlwaysBegan(srv: Server, codec: Codec, events: seq<Event>, states: seq<Sys>, n: nat)
    requires Run(srv, codec, events, states) && n < |states|
    ensures Began(events, states, n)
  {
    if n > 0 {
      AlwaysBegan(srv, codec, events, states, n - 1);
      assert StepOf(srv, codec, events, states, n - 1);
      if states[n - 1].loop.Idle? && states[n].loop.Closing? { assert events[n - 1].Inactive?; }
    }
  }

  lemma {:induction false} AlwaysReachable(srv: Server, codec: Codec, events: seq<Event>, states: seq<Sys>, n: nat, id: string)
    requires Run(srv, codec, events, states) && n < |states|
    requires id in states[n].calls && states[n].calls[id].result == None
    ensures Reachable(events, states, n, id)
  {
    if n > 0 {
      AlwaysBegan(srv, codec, events, states, n - 1);
      if id in states[n - 1].calls && states[n - 1].calls[id].result == None {
        AlwaysReachable(srv, codec, events, states, n - 1, id);
      }
      ReachableStep(srv, codec, events, states, n - 1, id);
    }
  }

  /** What completed a call, and in which step. */
  ghost predicate Caused(events: seq<Event>, states: seq<Sys>, m: nat, id: string, r: Result)
    requires |states| == |events| + 1
  {
    && m < |events|
    && match r
       case Replied(resp) => events[m].Complete? && states[m].loop == Claimed(resp) && resp.id == id
       case ConnectionClosed => events[m] == Visit(id)
       case TimedOut => events[m] == Timeout(id)
  }

  /** A result has its cause: a reply claimed for this id, the close coming across it, or its own timer. */
  lemma {:induction false} ResultHasCause(srv: Server, codec: Codec, events: seq<Event>, states: seq<Sys>, n: nat, id: string)
    returns (m: nat)
    requires Run(srv, codec, events, states) && n < |states| && id in states[n].calls && states[n].calls[id].result.Some?
    ensures m < n && Caused(events, states, m, id, states[n].calls[id].result.value)
    ensures id in states[m].calls && states[m].calls[id].result == None
    ensures id in states[m + 1].calls && states[m + 1].calls[id].result == states[n].calls[id].result
    decreases n
  {
    assert StepOf(srv, codec, events, states, n - 1);
    NewCalls(srv, codec, states[n - 1], events[n - 1]);
    if states[n - 1].calls[id].result.Some? {
      CallContinues(srv, codec, states[n - 1], events[n - 1], id);
      m := ResultHasCause(srv, codec, events, states, n - 1, id);
    } else {
      m := n - 1;
    }
  }

  /**
   The close of the channel completes every call that was there when it began: once the event loop
   is through, an incomplete call is one that was begun after the close. A call that was incomplete
   when the close began ends as closed, or by its own timer if that was faster.
   */
  lemma CloseCompletesCalls(srv: Server, codec: Codec, events: seq<Event>, states: seq<Sys>, i: nat, n: nat, id: string)
    requires Run(srv, codec, events, states) && i < n < |states|
    requires events[i].Inactive? && id in states[i].calls && states[n].loop.Gone?
    ensures id in states[n].calls && states[n].calls[id].result.Some?
    ensures states[i].calls[id].result == None ==>
              || states[n].calls[id].result == Some(ConnectionClosed)
              || (states[n].calls[id].result == Some(TimedOut) && exists m :: i < m < n && events[m] == Timeout(id))
  {
    ResultsAreFinal(srv, codec, events, states, i, n, id);
    if states[n].calls[id].result.Some? {
      var m := ResultHasCause(srv, codec, events, states, n, id);
      if m < i { ResultsAreFinal(srv, codec, events, states, m + 1, i, id); }
      if i < m { AfterClose(srv, codec, events, states, i, m); }
    } else {
      AlwaysReachable(srv, codec, events, states, n, id);
      var j :| 0 <= j < n && events[j].Inactive? && id !in states[j].calls;
      ClosedOnce(srv, codec, events, states, i, n, j);
    }
  }

  /** The event loop begins to close the channel once. */
  lemma {:induction false} AfterClose(srv: Server, codec: Codec, events: seq<Event>, states: seq<Sys>, i: nat, n: nat)
    requires Run(srv, codec, events, states) && i < n < |states| && events[i].Inactive?
    ensures states[n].loop.Closing? || states[n].loop.Gone?
  {
    assert StepOf(srv, codec, events, states, n - 1);
    if i < n - 1 { AfterClose(srv, codec, events, states, i, n - 1); }
  }

  lemma ClosedOnce(srv: Server, codec: Codec, events: seq<Event>, states: seq<Sys>, i: nat, n: nat, j: nat)
    requires Run(srv, codec, events, states) && i < n < |states| && j < n && events[i].Inactive? && events[j].Inactive?
    ensures i == j
  {
    assert StepOf(srv, codec, events, states, i) && StepOf(srv, codec, events, states, j);
    if i < j { AfterClose(srv, codec, events, states, i, j); }
    if j < i { AfterClose(srv, codec, events, states, j, i); }
  }

  /**
   In every state of every run: an id in the pending map belongs to a call that is incomplete or
   whose callback has yet to run; an incomplete call is within reach of the event loop or came after
   the close, and has a timer running, or a thread about to start it; and once the threads, timers
   and callbacks of all calls are at rest, every future is complete and the pending map is empty.
   */
  lemma NoCallIsLost(srv: Server, codec: Codec, events: seq<Event>, states: seq<Sys>, n: nat)
    requires Run(srv, codec, events, states) && n < |states|
    ensures var s := states[n];
            && (forall id :: id in s.pending ==>
                               id in s.calls && (s.calls[id].result == None || !s.calls[id].cleaned))
            && (forall id :: id in s.calls && s.calls[id].result == None ==> Reachable(events, states, n, id))
            && (forall id :: id in s.calls && s.calls[id].result == None ==>
                               Enabled(srv, codec, s, Arm(id)) || Enabled(srv, codec, s, Timeout(id)))
            && ((forall id :: id in s.calls ==> AtRest(srv, codec, s, id)) ==>
                  s.pending == {} && forall id :: id in s.calls ==> s.calls[id].result.Some?)
  {
    AlwaysTidy(srv, codec, events, states, n);
    var s := states[n];
    forall id | id in s.calls && s.calls[id].result == None ensures Reachable(events, states, n, id) {
      AlwaysReachable(srv, codec, events, states, n, id);
    }
    assert forall id :: id in s.pending ==> id in s.calls && !AtRest(srv, codec, s, id);
  }

  /** Once the call's own thread, timer and callback have had their turn, the call is complete and forgotten. */
  lemma OwnTurnFinishes(srv: Server, codec: Codec, s: Sys, id: string) returns (s': Sys)
    requires Tidy(s) && id in s.calls
    ensures Tidy(s') && id in s'.calls && s'.calls[id].result.Some? && id !in s'.pending
    ensures s.calls[id].result.Some? ==> s'.calls[id].result == s.calls[id].result
  {
    s' := s;
    if !s'.calls[id].armed {
      TidyStep(srv, codec, s', Arm(id));
      s' := Next(srv, codec, s', Arm(id));
    }
    if s'.calls[id].result == None {
      TidyStep(srv, codec, s', Timeout(id));
      s' := Next(srv, codec, s', Timeout(id));
    }
    if !s'.calls[id].cleaned {
      TidyStep(srv, codec, s', Callback(id));
      s' := Next(srv, codec, s', Callback(id));
    }
  }

  /** A future is completed once: its result never changes again. */
  lemma {:induction false} ResultsAreFinal(srv: Server, codec: Codec, events: seq<Event>, states: seq<Sys>, i: nat, n: nat, id: string)
    requires Run(srv, codec, events, states) && i <= n < |states|
    requires id in states[i].calls
    ensures id in states[n].calls && states[n].calls[id].req == states[i].calls[id].req
    ensures states[i].calls[id].result.Some? ==> states[n].calls[id].result == states[i].calls[id].result
  {
    if i < n {
      ResultsAreFinal(srv, codec, events, states, i, n - 1, id);
      assert StepOf(srv, codec, events, states, n - 1);
      CallContinues(srv, codec, states[n - 1], events[n - 1], id);
    }
  }

  // ----- the race with the close of the channel

  /** Nothing but its timer can complete this call any more. */
  ghost predicate Orphan(s: Sys, id: string) {
    s.loop.Gone? && id in s.calls && s.calls[id].result in {None, Some(TimedOut)}
  }

  /** A call that the close of the channel has missed ends in a timeout, whatever happens next. */
  lemma {:induction false} OrphansTimeOut(srv: Server, codec: Codec, events: seq<Event>, states: seq<Sys>, i: nat, n: nat, id: string)
    requires Run(srv, codec, events, states) && i <= n < |states|
    requires Orphan(states[i], id)
    ensures Orphan(states[n], id)
  {
    if i < n {
      OrphansTimeOut(srv, codec, events, states, i, n - 1, id);
      assert StepOf(srv, codec, events, states, n - 1);
      OrphanStep(srv, codec, states[n - 1], events[n - 1], id);
    }
  }

  lemma OrphanStep(srv: Server, codec: Codec, s: Sys, e: Event, id: string)
    requires Orphan(s, id) && Enabled(srv, codec, s, e)
    ensures Orphan(Next(srv, codec, s, e), id)
  {}

  /** The close goes through the rest of the map and ends, without coming across call `id`. */
  lemma {:induction false} FinishClosing(srv: Server, codec: Codec, events: seq<Event>, states: seq<Sys>, s: Sys, id: string)
    returns (events': seq<Event>, states': seq<Sys>)
    requires RunTo(srv, codec, events, states, s) && CallsOk(s)
    requires s.loop.Closing? && id !in s.loop.todo && id in s.calls && s.calls[id].result == None
    ensures Run(srv, codec, events', states') && events <= events'
    ensures var s' := states'[|events'|];
            s'.loop.Gone? && s'.pending == {} && id in s'.calls && s'.calls[id].result == None
    decreases s.loop.todo
  {
    if x :| x in s.loop.todo && x in s.pending {
      var e := Visit(x);
      CallsStep(srv, codec, s, e);
      events', states' := OneStepMore(srv, codec, events, states, s, e);
      events', states' := FinishClosing(srv, codec, events', states', Next(srv, codec, s, e), id);
    } else {
      assert s.loop.todo * s.pending == {};
      events', states' := OneStepMore(srv, codec, events, states, s, Clear);
    }
  }

  /**
   The other direction: from every state in which the close has begun, any call begun now can be
   missed by it. The run goes on so that the close is over and the call incomplete, and dropped from
   the map if the close cleared that later; only its timer will end the call.
   */
  lemma LateCallsCanBeMissed(srv: Server, codec: Codec, events: seq<Event>, states: seq<Sys>, s: Sys, req: Request)
    returns (events': seq<Event>, states': seq<Sys>)
    requires RunTo(srv, codec, events, states, s) && (s.loop.Closing? || s.loop.Gone?)
    requires Enabled(srv, codec, s, Begin(req))
    ensures Run(srv, codec, events', states') && events + [Begin(req)] <= events'
    ensures var s' := states'[|events'|];
            Orphan(s', req.id) && s'.calls[req.id].result == None && (s.loop.Closing? ==> s'.pending == {})
  {
    AlwaysTidy(srv, codec, events, states, |events|);
    AlwaysWalking(srv, codec, events, states, |events|);
    CallsStep(srv, codec, s, Begin(req));
    events', states' := OneStepMore(srv, codec, events, states, s, Begin(req));
    if s.loop.Closing? {
      events', states' := FinishClosing(srv, codec, events', states', Next(srv, codec, s, Begin(req)), req.id);
    }
  }

  /** The close walks over ids of calls. */
  lemma {:induction false} AlwaysWalking(srv: Server, codec: Codec, events: seq<Event>, states: seq<Sys>, n: nat)
    requires Run(srv, codec, events, states) && n < |states|
    ensures states[n].loop.Closing? ==> states[n].loop.todo <= states[n].calls.Keys
  {
    if n > 0 {
      AlwaysWalking(srv, codec, events, states, n - 1);
      AlwaysTidy(srv, codec, events, states, n - 1);
      assert StepOf(srv, codec, events, states, n - 1);
      NewCalls(srv, codec, states[n - 1], events[n - 1]);
    }
  }
}
