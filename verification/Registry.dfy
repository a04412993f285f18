/**
 The registry as a protocol: any number of connections, the sweeper and the broadcast channel,
 one action per step. Building a list and sending it are separate steps, and so are the two
 halves of a heartbeat. A connection serves requests, may turn once into a subscriber, and ends
 either through cleanup or, on the error exits, without it.

 The channel is the log of everything sent, of which a receiver can still read the last
 `capacity` entries; a receiver that has fallen further behind is told so once and resumes at
 the oldest entry left.
 */
module Registry {

  import opened Common
  import opened Store
  import M = MapRuns
  import R = StoreRuns

  /** A list on its way to the channel; `stamp` numbers the lists in the order they were built. */
  datatype Sent = Sent(list: ServiceList, stamp: nat)

  datatype Phase =
    | Serving
    | Replying(changed: bool)
    | Beating(p: M.Pending)
    | BeatReplying(found: bool)
    | Snapshotting(list: ServiceList)
    | Subscribed
    | Lagging
    | Notifying(list: ServiceList)
    | Cleaning(rest: seq<Key>, changed: bool)
    | Building(cleanup: bool)
    | Sending(sent: Sent, cleanup: bool)
    | Closed
    | Aborted

  /** `joined` is the length of the log when the connection was accepted, `pos` its read position. */
  datatype Conn = Conn(peer: string, registered: seq<Key>, joined: nat, pos: nat, delivered: seq<ServiceList>, phase: Phase)

  datatype Sweeper = SweepIdle | SweepBuilding | SweepSending(sent: Sent)

  datatype Sys = Sys(st: R.Sys, conns: seq<Conn>, sweeper: Sweeper, log: seq<Sent>, builds: nat)

  datatype Action =
    | DoRegister(port: int, service: string, now: Time)
    | DoHeartbeat(port: int)
    | DoHeartbeatLists(now: Time)
    | DoSubscribe
    | DoReply(ok: bool)
    | DoIgnore
    | DoFail
    | DoEnd
    | DoReceive
    | DoLag
    | DoRelist
    | DoDeregister
    | DoCleaned
    | DoBuild
    | DoSend

  datatype Event =
    | Accept(peer: string)
    | At(c: nat, a: Action)
    | SweepStart(timeout: nat, at: Key -> Time)
    | SweepBuild
    | SweepSend

  const Init: Sys := Sys(R.Init, [], SweepIdle, [], 0)

  /** Which actions a connection can take. */
  predicate CanDo(capacity: nat, logged: nat, conn: Conn, a: Action) {
    var p := conn.phase;
    match a
    case DoRegister(_, _, _) => p.Serving?
    case DoHeartbeat(_) => p.Serving?
    case DoHeartbeatLists(_) => p.Beating?
    case DoSubscribe => p.Serving?
    case DoReply(_) => p.Replying? || p.BeatReplying? || p.Snapshotting? || p.Notifying?
    case DoIgnore => p.Serving? || p.Subscribed?
    case DoFail => p.Serving? || p.Subscribed?
    case DoEnd => p.Serving? || p.Subscribed?
    case DoReceive => p.Subscribed? && conn.pos < logged <= conn.pos + capacity
    case DoLag => p.Subscribed? && conn.pos + capacity < logged
    case DoRelist => p.Lagging?
    case DoDeregister => p.Cleaning? && p.rest != []
    case DoCleaned => p.Cleaning? && p.rest == []
    case DoBuild => p.Building?
    case DoSend => p.Sending?
  }

  /** The critical section of the store that a step runs, `Idle` if it runs none. */
  ghost function StoreEvent(capacity: nat, s: Sys, e: Event): M.Event {
    match e
    case At(c, a) =>
      if c < |s.conns| && CanDo(capacity, |s.log|, s.conns[c], a) then
        (match a
         case DoRegister(port, service, now) => M.DoRegister(Key(s.conns[c].peer, port), service, now)
         case DoHeartbeat(port) => M.DoHeartbeatRead(c, Key(s.conns[c].peer, port))
         case DoHeartbeatLists(now) => M.DoHeartbeatWrite(c, now)
         case DoDeregister => M.DoDeregister(s.conns[c].phase.rest[0])
         case _ => M.Idle)
      else M.Idle
    case SweepStart(timeout, at) => M.DoSweep(timeout, at)
    case _ => M.Idle
  }

  ghost predicate Enabled(capacity: nat, s: Sys, e: Event) {
    && M.Enabled(s.st.pending, StoreEvent(capacity, s, e))
    && match e
       case Accept(_) => true
       case At(c, a) => c < |s.conns| && CanDo(capacity, |s.log|, s.conns[c], a)
       case SweepStart(_, _) => s.sweeper.SweepIdle?
       case SweepBuild => s.sweeper.SweepBuilding?
       case SweepSend => s.sweeper.SweepSending?
  }

  /** The outcome of writing a reply or a list to the peer. */
  function Replied(conn: Conn, ok: bool): Conn {
    match conn.phase
    case Replying(changed) => conn.(phase := if !ok then Aborted else if changed then Building(false) else Serving)
    case BeatReplying(_) => conn.(phase := if ok then Serving else Aborted)
    case Snapshotting(list) =>
      if ok then conn.(phase := Subscribed, delivered := conn.delivered + [list]) else conn.(phase := Aborted)
    case Notifying(list) =>
      if ok then conn.(phase := Subscribed, delivered := conn.delivered + [list])
      else conn.(phase := Cleaning(conn.registered, false))
    case _ => conn
  }

  ghost function ConnAfter(capacity: nat, s: Sys, conn: Conn, a: Action): Conn
    requires CanDo(capacity, |s.log|, conn, a)
  {
    match a
    case DoRegister(port, service, _) =>
      var k := Key(conn.peer, port);
      conn.(registered := conn.registered + [k], phase := Replying(RegisterChanges(s.st.store, k, service)))
    case DoHeartbeat(port) =>
      var k := Key(conn.peer, port);
      conn.(phase := Beating(M.Pending(k, HeartbeatRead(s.st.store, k))))
    case DoHeartbeatLists(_) =>
      var p := conn.phase.p;
      conn.(phase := BeatReplying(p.service.Some? && HeartbeatFinds(s.st.store, p.k, p.service.value)))
    case DoSubscribe => conn.(phase := Snapshotting(Visible(s.st.store)))
    case DoReply(ok) => Replied(conn, ok)
    case DoIgnore => conn
    case DoFail => conn.(phase := Aborted)
    case DoEnd => conn.(phase := Cleaning(conn.registered, false))
    case DoReceive => conn.(phase := Notifying(s.log[conn.pos].list), pos := conn.pos + 1)
    case DoLag => conn.(phase := Lagging, pos := |s.log| - capacity)
    case DoRelist => conn.(phase := Notifying(Visible(s.st.store)))
    case DoDeregister =>
      var p := conn.phase;
      conn.(phase := Cleaning(p.rest[1..], p.changed || p.rest[0] in s.st.store.index))
    case DoCleaned => conn.(phase := if conn.phase.changed then Building(true) else Closed)
    case DoBuild => conn.(phase := Sending(Sent(Visible(s.st.store), s.builds), conn.phase.cleanup))
    case DoSend => conn.(phase := if conn.phase.cleanup then Closed else Serving)
  }

  ghost predicate Builds(e: Event) {
    e.SweepBuild? || (e.At? && e.a.DoBuild?)
  }

  /** The list a step puts on the channel. */
  ghost function Emits(capacity: nat, s: Sys, e: Event): Option<Sent>
    requires Enabled(capacity, s, e)
  {
    if e.SweepSend? then Some(s.sweeper.sent)
    else if e.At? && e.a.DoSend? then Some(s.conns[e.c].phase.sent)
    else None
  }

  ghost function SweeperAfter(s: Sys, e: Event): Sweeper {
    match e
    case SweepStart(timeout, at) => if Expired(s.st.store, timeout, at) != {} then SweepBuilding else SweepIdle
    case SweepBuild => SweepSending(Sent(Visible(s.st.store), s.builds))
    case SweepSend => SweepIdle
    case _ => s.sweeper
  }

  ghost function ConnsAfter(capacity: nat, s: Sys, e: Event): seq<Conn>
    requires Enabled(capacity, s, e)
  {
    match e
    case Accept(peer) => s.conns + [Conn(peer, [], |s.log|, |s.log|, [], Serving)]
    case At(c, a) => s.conns[c := ConnAfter(capacity, s, s.conns[c], a)]
    case _ => s.conns
  }

  ghost function Next(capacity: nat, s: Sys, e: Event): Sys
    requires Enabled(capacity, s, e)
  {
    Sys(R.Next(s.st, StoreEvent(capacity, s, e)),
        ConnsAfter(capacity, s, e),
        SweeperAfter(s, e),
        (if Emits(capacity, s, e).Some? then s.log + [Emits(capacity, s, e).value] else s.log),
        (if Builds(e) then s.builds + 1 else s.builds))
  }

  ghost predicate StepOf(capacity: nat, events: seq<Event>, states: seq<Sys>, i: nat)
    requires i < |events| && |states| == |events| + 1
  {
    Enabled(capacity, states[i], events[i]) && states[i + 1] == Next(capacity, states[i], events[i])
  }

  ghost predicate Run(capacity: nat, events: seq<Event>, states: seq<Sys>) {
    && |states| == |events| + 1
    && states[0] == Init
    && forall i :: 0 <= i < |events| ==> StepOf(capacity, events, states, i)
  }

  /** A run that ends in `s`. */
  ghost predicate RunTo(capacity: nat, events: seq<Event>, states: seq<Sys>, s: Sys) {
    Run(capacity, events, states) && states[|events|] == s
  }

  lemma OneStepMore(capacity: nat, events: seq<Event>, states: seq<Sys>, s: Sys, e: Event)
    returns (events': seq<Event>, states': seq<Sys>)
    requires RunTo(capacity, events, states, s) && Enabled(capacity, s, e)
    ensures RunTo(capacity, events', states', Next(capacity, s, e))
    ensures events' == events + [e] && states' == states + [Next(capacity, s, e)]
  {
    events', states' := events + [e], states + [Next(capacity, s, e)];
    forall i | 0 <= i < |events'| ensures StepOf(capacity, events', states', i) {
      if i < |events| { assert StepOf(capacity, events, states, i); }
    }
  }

  // ----- what every step keeps

  ghost predicate ConnOk(s: Sys, conn: Conn) {
    && (forall k :: k in conn.registered ==> k.ip == conn.peer)
    && (conn.phase.Cleaning? ==> forall k :: k in conn.phase.rest ==> k in conn.registered)
    && conn.joined <= conn.pos <= |s.log|
  }

  /** The heartbeats under way in the store are those of the connections, with the same key and service read. */
  ghost predicate PendingOk(s: Sys) {
    && (forall t: nat :: t in s.st.pending <==> t < |s.conns| && s.conns[t].phase.Beating?)
    && (forall t: nat :: t in s.st.pending ==> s.st.pending[t] == s.conns[t].phase.p)
  }

  lemma PendingStep(capacity: nat, s: Sys, e: Event)
    requires PendingOk(s) && Enabled(capacity, s, e)
    ensures PendingOk(Next(capacity, s, e))
  {
    var s' := Next(capacity, s, e);
    if e.At? {
      assert forall t: nat :: t != e.c ==> (t in s'.st.pending <==> t in s.st.pending);
      assert s'.conns[e.c].phase.Beating? <==> e.a.DoHeartbeat?;
    }
  }

  ghost predicate Inv(s: Sys) {
    && WellFormed(s.st.store)
    && PendingOk(s)
    && (forall c :: 0 <= c < |s.conns| ==> ConnOk(s, s.conns[c]))
  }

  lemma ConnKept(capacity: nat, s: Sys, conn: Conn, a: Action)
    requires ConnOk(s, conn) && CanDo(capacity, |s.log|, conn, a)
    ensures ConnOk(s, ConnAfter(capacity, s, conn, a))
    ensures ConnAfter(capacity, s, conn, a).peer == conn.peer && ConnAfter(capacity, s, conn, a).joined == conn.joined
    ensures conn.registered <= ConnAfter(capacity, s, conn, a).registered
  {}

  lemma StepKeeps(capacity: nat, s: Sys, e: Event)
    requires Inv(s) && Enabled(capacity, s, e)
    ensures Inv(Next(capacity, s, e))
  {
    var s' := Next(capacity, s, e);
    assert WellFormed(s'.st.store) by { R.StepRefines(s.st, StoreEvent(capacity, s, e)); }
    PendingStep(capacity, s, e);
    forall c | 0 <= c < |s'.conns| ensures ConnOk(s', s'.conns[c]) {
      if e.At? && e.c == c {
        ConnKept(capacity, s, s.conns[c], e.a);
      } else if c < |s.conns| {
        assert ConnOk(s, s.conns[c]);
      }
    }
  }

  lemma InitInv()
    ensures Inv(Init)
  {
    R.EmptyRefines();
  }

  lemma {:induction false} RunInv(capacity: nat, events: seq<Event>, states: seq<Sys>, n: nat)
    requires Run(capacity, events, states) && n < |states|
    ensures Inv(states[n])
  {
    if n == 0 {
      InitInv();
    } else {
      RunInv(capacity, events, states, n - 1);
      assert StepOf(capacity, events, states, n - 1);
      StepKeeps(capacity, states[n - 1], events[n - 1]);
    }
  }

  // ----- the store's part of a run

  ghost function StoreEvents(capacity: nat, events: seq<Event>, states: seq<Sys>): seq<M.Event>
    requires |states| == |events| + 1
  {
    seq(|events|, i requires 0 <= i < |events| => StoreEvent(capacity, states[i], events[i]))
  }

  ghost function StoreStates(states: seq<Sys>): seq<R.Sys> {
    seq(|states|, i requires 0 <= i < |states| => states[i].st)
  }

  /** A run of the registry, seen from the store, is a run of the store. */
  lemma StoreRun(capacity: nat, events: seq<Event>, states: seq<Sys>)
    requires Run(capacity, events, states)
    ensures R.Run(StoreEvents(capacity, events, states), StoreStates(states))
  {
    forall i | 0 <= i < |events| ensures R.StepOf(StoreEvents(capacity, events, states), StoreStates(states), i) {
      assert StepOf(capacity, events, states, i);
    }
  }

  /** The run of the one map from key to service and heartbeat behind a run of the registry. */
  ghost function EntriesRun(capacity: nat, events: seq<Event>, states: seq<Sys>): (abs: seq<M.Sys>)
    requires Run(capacity, events, states)
    ensures R.Run(StoreEvents(capacity, events, states), StoreStates(states))
    ensures M.Run(StoreEvents(capacity, events, states), abs)
    ensures abs == R.AbsRun(StoreEvents(capacity, events, states), StoreStates(states))
  {
    StoreRun(capacity, events, states);
    R.RunRefines(StoreEvents(capacity, events, states), StoreStates(states));
    R.AbsRun(StoreEvents(capacity, events, states), StoreStates(states))
  }
}
