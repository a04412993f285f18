/**
 The order of things on one connection: the caller reads every frame once, in order; the server's read
 loop writes an error reply of its own before it reads on; and nothing is sent or read once the end of
 the connection has been noticed.
 */
module RpcOrder {

  import opened Common
  import opened Framing
  import W = Wire
  import opened Rpc
  import opened RpcReplies

  function Claims(events: seq<Event>, n: nat): nat
    requires n <= |events|
  {
    if n == 0 then 0 else Claims(events, n - 1) + if events[n - 1].Claim? then 1 else 0
  }

  lemma {:induction false} ReadIsClaims(srv: Server, codec: Codec, events: seq<Event>, states: seq<Sys>, n: nat)
    requires Run(srv, codec, events, states) && n < |states|
    ensures states[n].read == Claims(events, n)
  {
    if n > 0 {
      ReadIsClaims(srv, codec, events, states, n - 1);
      assert StepOf(srv, codec, events, states, n - 1);
    }
  }

  /**
   The event loop takes the frames one by one: the k-th time it reads, it decodes the k-th frame on the
   connection, takes the call with that id out of the pending map and has it to complete, or goes on if
   there is none.
   */
  lemma ReadsInOrder(srv: Server, codec: Codec, events: seq<Event>, states: seq<Sys>, i: nat)
    requires Run(srv, codec, events, states) && i < |events| && events[i].Claim?
    ensures var k, bodies := Claims(events, i), Parse(states[i].out.bytes).bodies;
            && k < |bodies| && codec.dec(bodies[k]).Some?
            && var r := codec.dec(bodies[k]).value;
               && states[i + 1].pending == states[i].pending - {r.id}
               && states[i + 1].loop == if r.id in states[i].pending then Claimed(r) else Idle
  {
    assert StepOf(srv, codec, events, states, i);
    ReadIsClaims(srv, codec, events, states, i);
  }

  // ----- the server's read loop

  /** The read loop itself answers this message. */
  predicate AnsweredByLoop(srv: Server, m: Message) {
    m.Garbage? || !HasHandler(srv, m.req)
  }

  predicate Over(task: Task) {
    task.Written? || task.Dropped?
  }

  /** The holder of the write mutex belongs to a task that is writing, or has just stopped. */
  ghost predicate HolderOk(s: Sys) {
    s.out.holder.Some? ==>
      && s.out.holder.value.task < |s.tasks|
      && var task := s.tasks[s.out.holder.value.task];
         if s.out.holder.value.Leaving? then Over(task) else task.Writing?
  }

  lemma HolderStep(srv: Server, codec: Codec, s: Sys, e: Event)
    requires HolderOk(s) && Enabled(srv, codec, s, e)
    ensures HolderOk(Next(srv, codec, s, e))
  {}

  /** The read loop is done with this task, or waits for it; handlers never run for it. */
  ghost predicate LoopTaskOk(srv: Server, s: Sys, t: nat)
    requires t < |s.tasks| <= |s.c2s|
  {
    AnsweredByLoop(srv, s.c2s[t]) ==> !s.tasks[t].Running? && (s.reader == Some(t) || Over(s.tasks[t]))
  }

  /** The read loop waits for its own reply to the message received last, and for no other. */
  ghost predicate Waiting(srv: Server, s: Sys) {
    && HolderOk(s)
    && |s.tasks| <= |s.c2s|
    && (s.reader.Some? ==> s.reader.value == |s.tasks| - 1)
    && (forall t :: 0 <= t < |s.tasks| ==> LoopTaskOk(srv, s, t))
  }

  lemma LoopTaskStep(srv: Server, codec: Codec, s: Sys, e: Event, t: nat)
    requires Waiting(srv, s) && Enabled(srv, codec, s, e)
    requires t < |Next(srv, codec, s, e).tasks| <= |Next(srv, codec, s, e).c2s|
    ensures LoopTaskOk(srv, Next(srv, codec, s, e), t)
  {
    var s' := Next(srv, codec, s, e);
    assert s.c2s <= s'.c2s;
    if t < |s.tasks| {
      assert s'.c2s[t] == s.c2s[t];
      assert LoopTaskOk(srv, s, t);
    }
  }

  lemma WaitingStep(srv: Server, codec: Codec, s: Sys, e: Event)
    requires Waiting(srv, s) && Enabled(srv, codec, s, e)
    ensures Waiting(srv, Next(srv, codec, s, e))
  {
    var s' := Next(srv, codec, s, e);
    HolderStep(srv, codec, s, e);
    assert |s'.tasks| <= |s'.c2s| && (s'.reader.Some? ==> s'.reader.value == |s'.tasks| - 1);
    forall t | 0 <= t < |s'.tasks| ensures LoopTaskOk(srv, s', t) {
      LoopTaskStep(srv, codec, s, e, t);
    }
  }

  lemma {:induction false} AlwaysWaiting(srv: Server, codec: Codec, events: seq<Event>, states: seq<Sys>, n: nat)
    requires Run(srv, codec, events, states) && n < |states|
    ensures Waiting(srv, states[n])
  {
    if n > 0 {
      AlwaysWaiting(srv, codec, events, states, n - 1);
      assert StepOf(srv, codec, events, states, n - 1);
      WaitingStep(srv, codec, states[n - 1], events[n - 1]);
    }
  }

  /**
   An error reply of the read loop, to a message that is no request or has no handler, is written or has
   failed before the next message is read. Handlers hold nothing up.
   */
  lemma ErrorsBeforeTheNext(srv: Server, codec: Codec, events: seq<Event>, states: seq<Sys>, i: nat, t: nat)
    requires Run(srv, codec, events, states) && i < |events| && events[i].Receive? && t < |states[i].tasks|
    ensures t < |states[i].c2s| && (AnsweredByLoop(srv, states[i].c2s[t]) ==> Over(states[i].tasks[t]))
  {
    AlwaysWaiting(srv, codec, events, states, i);
    assert StepOf(srv, codec, events, states, i);
    assert LoopTaskOk(srv, states[i], t);
  }

  /** While it serves, the loop reads on as soon as there is a message, unless it is writing an error itself. */
  lemma ReadsOn(srv: Server, codec: Codec, events: seq<Event>, states: seq<Sys>, n: nat)
    requires Run(srv, codec, events, states) && n < |states|
    requires states[n].serving && |states[n].tasks| < |states[n].c2s|
    requires forall t :: 0 <= t < |states[n].tasks| ==> !AnsweredByLoop(srv, states[n].c2s[t])
    ensures Enabled(srv, codec, states[n], Receive)
  {
    NoOwnReply(srv, codec, events, states, n);
  }

  /** The read loop waits for replies of its own only. */
  lemma {:induction false} NoOwnReply(srv: Server, codec: Codec, events: seq<Event>, states: seq<Sys>, n: nat)
    requires Run(srv, codec, events, states) && n < |states|
    ensures states[n].reader.Some? ==>
              states[n].reader.value < |states[n].tasks| <= |states[n].c2s|
              && AnsweredByLoop(srv, states[n].c2s[states[n].reader.value])
  {
    if n > 0 {
      NoOwnReply(srv, codec, events, states, n - 1);
      AlwaysWaiting(srv, codec, events, states, n - 1);
      assert StepOf(srv, codec, events, states, n - 1);
      assert states[n - 1].c2s <= states[n].c2s;
    }
  }

  /** A handler that panics is never answered for: its task is dropped, and no frame is ever its reply. */
  lemma {:induction false} PanicsAreSilent(srv: Server, codec: Codec, events: seq<Event>, states: seq<Sys>, i: nat, n: nat, t: nat)
    requires Run(srv, codec, events, states) && i < n < |states| && events[i] == Return(t, Panic)
    ensures t < |states[n].tasks| && states[n].tasks[t] == Dropped
  {
    assert StepOf(srv, codec, events, states, n - 1);
    if i < n - 1 {
      PanicsAreSilent(srv, codec, events, states, i, n - 1, t);
      AlwaysWaiting(srv, codec, events, states, n - 1);
    }
  }

  // ----- after the end

  /** Once the caller has noticed the end of the channel, it sends no request any more. */
  lemma {:induction false} NothingSentAfterClose(srv: Server, codec: Codec, events: seq<Event>, states: seq<Sys>, i: nat, n: nat, k: nat)
    requires Run(srv, codec, events, states) && i <= n < |states|
    requires states[i].loop.Closing? || states[i].loop.Gone?
    ensures states[n].loop.Closing? || states[n].loop.Gone?
    ensures states[i].c2s <= states[n].c2s
    ensures |states[i].c2s| <= k < |states[n].c2s| ==> states[n].c2s[k].Garbage?
  {
    if i < n {
      NothingSentAfterClose(srv, codec, events, states, i, n - 1, k);
      assert StepOf(srv, codec, events, states, n - 1);
    }
  }

  /** Once the server's read loop has ended, no message is read any more. */
  lemma {:induction false} NothingReadAfterHangup(srv: Server, codec: Codec, events: seq<Event>, states: seq<Sys>, i: nat, n: nat)
    requires Run(srv, codec, events, states) && i < n < |states| && events[i].Hangup?
    ensures !states[n].serving && |states[n].tasks| == |states[i].tasks|
  {
    assert StepOf(srv, codec, events, states, n - 1);
    if i < n - 1 {
      NothingReadAfterHangup(srv, codec, events, states, i, n - 1);
    }
  }
}
