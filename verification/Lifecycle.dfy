/**
 The life of one connection among all the others: which keys it can touch and when, and what
 its cleanup leaves behind.
 */
module Lifecycle {

  import opened Store
  import M = MapRuns
  import R = StoreRuns
  import opened Registry

  /** Serving, then possibly subscribed, then cleaning up or publishing the cleanup, then over. */
  function Stage(p: Phase): nat {
    match p
    case Snapshotting(_) => 1
    case Subscribed => 1
    case Lagging => 1
    case Notifying(_) => 1
    case Cleaning(_, _) => 2
    case Building(cleanup) => if cleanup then 3 else 0
    case Sending(_, cleanup) => if cleanup then 3 else 0
    case Closed => 4
    case Aborted => 4
    case _ => 0
  }

  lemma StageStep(capacity: nat, s: Sys, e: Event, c: nat)
    requires Enabled(capacity, s, e) && c < |s.conns|
    ensures c < |Next(capacity, s, e).conns|
    ensures Stage(s.conns[c].phase) <= Stage(Next(capacity, s, e).conns[c].phase)
    ensures Next(capacity, s, e).conns[c].peer == s.conns[c].peer
    ensures Stage(s.conns[c].phase) > 0 ==> Next(capacity, s, e).conns[c].registered == s.conns[c].registered
  {}

  /** A connection never goes back: not from subscriber to server, not from its end to anything. */
  lemma {:induction false} StagesAdvance(capacity: nat, events: seq<Event>, states: seq<Sys>, i: nat, n: nat, c: nat)
    requires Run(capacity, events, states) && i <= n < |states| && c < |states[i].conns|
    ensures c < |states[n].conns|
    ensures Stage(states[i].conns[c].phase) <= Stage(states[n].conns[c].phase)
    ensures states[n].conns[c].peer == states[i].conns[c].peer
    ensures Stage(states[i].conns[c].phase) > 0 ==> states[n].conns[c].registered == states[i].conns[c].registered
  {
    if i < n {
      StagesAdvance(capacity, events, states, i, n - 1, c);
      assert StepOf(capacity, events, states, n - 1);
      StageStep(capacity, states[n - 1], events[n - 1], c);
    }
  }

  /**
   How a connection ends, by its own steps: without cleanup if its stream fails, or a write does before
   it was sent its snapshot; in cleanup, with every key it registered to be gone through, if the stream
   ends or a list cannot be written; and for good when cleanup has nothing to publish, or has.
   */
  lemma HowItEnds(capacity: nat, events: seq<Event>, states: seq<Sys>, i: nat, c: nat, a: Action)
    requires Run(capacity, events, states) && i < |events| && events[i] == At(c, a)
    ensures c < |states[i].conns| && c < |states[i + 1].conns|
    ensures var p, p' := states[i].conns[c].phase, states[i + 1].conns[c].phase;
            && (p'.Aborted? <==> a.DoFail? || (a == DoReply(false) && !p.Notifying?))
            && (p'.Cleaning? <==> a.DoEnd? || (a == DoReply(false) && p.Notifying?) || a.DoDeregister?)
            && (p'.Cleaning? && !a.DoDeregister? ==> p' == Cleaning(states[i].conns[c].registered, false))
            && (p'.Closed? <==> (a.DoCleaned? && p == Cleaning([], false)) || (a.DoSend? && Stage(p) == 3))
  {
    assert StepOf(capacity, events, states, i);
  }

  /** The keys whose entry a critical section of the store may change. */
  ghost function Touched(st: R.Sys, e: M.Event): set<Key>
    requires M.Enabled(st.pending, e)
  {
    match e
    case DoRegister(k, _, _) => {k}
    case DoHeartbeatWrite(task, _) => {st.pending[task].k}
    case DoDeregister(k) => {k}
    case DoSweep(timeout, at) => Expired(st.store, timeout, at)
    case _ => {}
  }

  /** `Touched` is what it says: every other key keeps its entry, or its absence. */
  lemma TouchedIsAll(st: R.Sys, e: M.Event, k: Key)
    requires WellFormed(st.store) && M.Enabled(st.pending, e) && k !in Touched(st, e)
    ensures WellFormed(R.Next(st, e).store)
    ensures SameEntry(st.store, R.Next(st, e).store, k)
  {
    R.StepRefines(st, e);
    if e.DoSweep? { ExpiredIsContents(st.store, e.timeout, e.at, k); }
  }

  ghost predicate BeatsOwn(s: Sys) {
    forall t: nat :: t in s.st.pending && t < |s.conns| ==> s.st.pending[t].k.ip == s.conns[t].peer
  }

  lemma {:induction false} AlwaysBeatsOwn(capacity: nat, events: seq<Event>, states: seq<Sys>, n: nat)
    requires Run(capacity, events, states) && n < |states|
    ensures BeatsOwn(states[n])
  {
    if n > 0 {
      AlwaysBeatsOwn(capacity, events, states, n - 1);
      RunInv(capacity, events, states, n - 1);
      assert StepOf(capacity, events, states, n - 1);
    }
  }

  /** The key has the same entry in both stores, or is absent from both. */
  ghost predicate SameEntry(a: State, b: State, k: Key)
    requires WellFormed(a) && WellFormed(b)
  {
    (k in Contents(a) <==> k in Contents(b)) && (k in Contents(a) ==> Contents(a)[k] == Contents(b)[k])
  }

  /**
   What a step of one connection can do to the store, in every run: an entry that changes is one
   under the connection's own peer address; in cleanup it is one that this connection registered;
   and from the subscription on until cleanup, and after it, nothing changes at all.
   */
  lemma Footprint(capacity: nat, events: seq<Event>, states: seq<Sys>, i: nat)
    requires Run(capacity, events, states) && i < |events| && events[i].At?
    ensures WellFormed(states[i].st.store) && WellFormed(states[i + 1].st.store) && events[i].c < |states[i].conns|
    ensures var conn := states[i].conns[events[i].c];
            && (forall k :: !SameEntry(states[i].st.store, states[i + 1].st.store, k) ==>
                              && k.ip == conn.peer
                              && (Stage(conn.phase) == 2 ==> k in conn.registered))
            && (Stage(conn.phase) != 0 && Stage(conn.phase) != 2 ==> states[i + 1].st == states[i].st)
  {
    assert StepOf(capacity, events, states, i);
    var s := states[i];
    var conn := s.conns[events[i].c];
    RunInv(capacity, events, states, i);
    RunInv(capacity, events, states, i + 1);
    forall k | !SameEntry(s.st.store, states[i + 1].st.store, k)
      ensures k.ip == conn.peer && (Stage(conn.phase) == 2 ==> k in conn.registered)
    {
      var ev := StoreEvent(capacity, s, events[i]);
      if k !in Touched(s.st, ev) { TouchedIsAll(s.st, ev, k); }
      AlwaysBeatsOwn(capacity, events, states, i);
      assert ConnOk(s, conn);
    }
  }

  // ----- cleanup among other tasks

  /** The key is still to be deregistered by this connection, or it is gone. */
  ghost predicate Handled(s: Sys, c: nat, k: Key)
    requires c < |s.conns| && WellFormed(s.st.store)
  {
    (s.conns[c].phase.Cleaning? && k in s.conns[c].phase.rest) || k !in Contents(s.st.store)
  }

  lemma HandledStep(capacity: nat, s: Sys, e: Event, c: nat, k: Key)
    requires Inv(s) && Enabled(capacity, s, e) && c < |s.conns| && Handled(s, c, k)
    requires !(StoreEvent(capacity, s, e).DoRegister? && StoreEvent(capacity, s, e).k == k)
    requires s.conns[c].phase.Cleaning? || Stage(s.conns[c].phase) >= 3
    ensures Inv(Next(capacity, s, e)) && c < |Next(capacity, s, e).conns|
    ensures Handled(Next(capacity, s, e), c, k)
  {
    StepKeeps(capacity, s, e);
    StageStep(capacity, s, e, c);
    var ev := StoreEvent(capacity, s, e);
    if k !in Contents(s.st.store) {
      NeverAppears(s.st, ev, k);
    } else if e.At? && e.c == c && e.a.DoDeregister? {
      var rest := s.conns[c].phase.rest;
      assert rest == [rest[0]] + rest[1..];
      DeregisterRefines(s.st.store, rest[0]);
    }
  }

  /** Only a registration makes a key appear. */
  lemma NeverAppears(st: R.Sys, e: M.Event, k: Key)
    requires WellFormed(st.store) && M.Enabled(st.pending, e) && k !in Contents(st.store)
    requires !(e.DoRegister? && e.k == k)
    ensures WellFormed(R.Next(st, e).store) && k !in Contents(R.Next(st, e).store)
  {
    R.StepRefines(st, e);
    assert k !in M.Next(R.Abs(st), e).entries;
  }

  /**
   A connection that reached cleanup in state `i` and has left the deregistration loop by state
   `n`: every key it ever registered, however often, is gone from the store, unless some task
   registered it anew in the meantime.
   */
  lemma CleanupRemoves(capacity: nat, events: seq<Event>, states: seq<Sys>, i: nat, n: nat, c: nat, k: Key)
    requires Run(capacity, events, states) && i <= n < |states| && c < |states[i].conns|
    requires states[i].conns[c].phase == Cleaning(states[i].conns[c].registered, false)
    requires k in states[i].conns[c].registered
    requires forall j :: i <= j < n ==>
                           var ev := StoreEvent(capacity, states[j], events[j]);
                           !(ev.DoRegister? && ev.k == k)
    ensures c < |states[n].conns| && Stage(states[n].conns[c].phase) >= 2
    ensures Stage(states[n].conns[c].phase) > 2 ==> k !in states[n].st.store.index
  {
    StagesAdvance(capacity, events, states, i, n, c);
    RunInv(capacity, events, states, n);
    AlwaysHandled(capacity, events, states, i, n, c, k);
  }

  lemma {:induction false} AlwaysHandled(capacity: nat, events: seq<Event>, states: seq<Sys>, i: nat, n: nat, c: nat, k: Key)
    requires Run(capacity, events, states) && i <= n < |states| && c < |states[i].conns|
    requires states[i].conns[c].phase == Cleaning(states[i].conns[c].registered, false)
    requires k in states[i].conns[c].registered
    requires forall j :: i <= j < n ==>
                           var ev := StoreEvent(capacity, states[j], events[j]);
                           !(ev.DoRegister? && ev.k == k)
    ensures c < |states[n].conns| && WellFormed(states[n].st.store) && Handled(states[n], c, k)
  {
    RunInv(capacity, events, states, n);
    if i < n {
      AlwaysHandled(capacity, events, states, i, n - 1, c, k);
      RunInv(capacity, events, states, n - 1);
      StagesAdvance(capacity, events, states, i, n - 1, c);
      assert StepOf(capacity, events, states, n - 1);
      HandledStep(capacity, states[n - 1], events[n - 1], c, k);
    }
  }

  /** Connection `d` refreshes the key in step `i`, by registering it or by a heartbeat that finds it. */
  ghost predicate RefreshedBy(capacity: nat, events: seq<Event>, states: seq<Sys>, d: nat, i: nat, k: Key)
    requires Run(capacity, events, states) && i < |events|
  {
    && events[i].At? && events[i].c == d
    && M.Refreshes(EntriesRun(capacity, events, states)[i], StoreEvent(capacity, states[i], events[i]), k)
  }

  /** Connection `c` is over in every later state, so a step that refreshes a key is one of another connection. */
  lemma OnlyOthersRefresh(capacity: nat, events: seq<Event>, states: seq<Sys>, j: nat, c: nat, i: nat, k: Key)
    requires Run(capacity, events, states) && j <= i < |events|
    requires c < |states[j].conns| && states[j].conns[c].phase.Aborted?
    requires M.Refreshes(EntriesRun(capacity, events, states)[i], StoreEvent(capacity, states[i], events[i]), k)
    ensures events[i].At? && events[i].c != c && RefreshedBy(capacity, events, states, events[i].c, i, k)
  {
    assert StepOf(capacity, events, states, i);
    StagesAdvance(capacity, events, states, j, i, c);
  }

  /**
   What an error exit leaves behind. A connection is over without cleanup in state `j`. In a timed
   run with sweeps, each key that it had registered and that no other connection refreshes from then
   on is gone from the store and from every list by the expiry bound.
   */
  lemma AbandonedKeysExpire(capacity: nat, events: seq<Event>, states: seq<Sys>, clock: seq<Time>,
                            timeout: nat, gap: nat, j: nat, c: nat, t: Time, k: Key)
    requires Run(capacity, events, states)
    requires M.Timed(StoreEvents(capacity, events, states), clock)
    requires M.SweptEvery(StoreEvents(capacity, events, states), clock, timeout, gap)
    requires j < |states| && clock[j] <= t
    requires c < |states[j].conns| && states[j].conns[c].phase.Aborted? && k in states[j].conns[c].registered
    requires forall d: nat, i: nat :: d != c && j <= i < |events| ==> !RefreshedBy(capacity, events, states, d, i, k)
    requires t + timeout + gap <= clock[|events|]
    ensures k !in states[|events|].st.store.index
    ensures forall svc :: svc in Visible(states[|events|].st.store) ==> k !in Visible(states[|events|].st.store)[svc]
  {
    StoreRun(capacity, events, states);
    var evs, abs := StoreEvents(capacity, events, states), EntriesRun(capacity, events, states);
    forall i | j <= i < |evs| ensures !M.Refreshes(abs[i], evs[i], k) {
      if M.Refreshes(abs[i], evs[i], k) { OnlyOthersRefresh(capacity, events, states, j, c, i, k); }
    }
    R.GoneByTheBound(evs, StoreStates(states), clock, timeout, gap, j, t, k);
  }

  // ----- the cleanup of a connection that others have taken over from

  /** Step `m` is a step of the cleanup of connection `d`, and deregisters `k`. */
  ghost predicate CleansUp(capacity: nat, events: seq<Event>, states: seq<Sys>, m: nat, d: nat, k: Key)
    requires |states| == |events| + 1 && m < |events|
  {
    && events[m] == At(d, DoDeregister) && d < |states[m].conns| && k in states[m].conns[d].registered
    && StoreEvent(capacity, states[m], events[m]) == M.DoDeregister(k)
  }

  /** Only a cleanup deregisters. */
  lemma DeregistersInCleanup(capacity: nat, events: seq<Event>, states: seq<Sys>, m: nat, k: Key) returns (d: nat)
    requires Run(capacity, events, states) && m < |events|
    requires StoreEvent(capacity, states[m], events[m]) == M.DoDeregister(k)
    ensures CleansUp(capacity, events, states, m, d, k) && Stage(states[m].conns[d].phase) == 2
  {
    assert StepOf(capacity, events, states, m);
    RunInv(capacity, events, states, m);
    d := events[m].c;
    assert ConnOk(states[m], states[m].conns[d]);
    assert k in states[m].conns[d].phase.rest;
  }

  /**
   Connection `c` is still serving in state `n`, and a key that was in the store in state `j` has been
   refreshed in time for every sweep. If the key is gone nevertheless, then the cleanup of another
   connection, which had registered the key as well, has deregistered it in some step `m`.
   */
  lemma DroppedByAnotherCleanup(capacity: nat, events: seq<Event>, states: seq<Sys>, clock: seq<Time>,
                                j: nat, n: nat, c: nat, k: Key) returns (m: nat, d: nat)
    requires Run(capacity, events, states) && M.Timed(StoreEvents(capacity, events, states), clock) && j <= n < |states|
    requires c < |states[j].conns| && k in states[j].conns[c].registered
    requires c < |states[n].conns| && Stage(states[n].conns[c].phase) == 0
    requires k in EntriesRun(capacity, events, states)[j].entries
    requires forall i :: j <= i < n ==>
                           M.InTime(StoreEvents(capacity, events, states), EntriesRun(capacity, events, states), j, i, k)
    requires k !in states[n].st.store.index
    ensures j <= m < n && d != c && CleansUp(capacity, events, states, m, d, k)
  {
    var evs, abs := StoreEvents(capacity, events, states), EntriesRun(capacity, events, states);
    if forall i :: j <= i < n ==> evs[i] != M.DoDeregister(k) {
      M.KeptWhileRefreshed(evs, abs, clock, j, n, k);
    }
    m :| j <= m < n && evs[m] == M.DoDeregister(k);
    d := DeregistersInCleanup(capacity, events, states, m, k);
    StagesAdvance(capacity, events, states, j, m, c);
    StagesAdvance(capacity, events, states, m, n, c);
  }

  /** No sweep takes part. */
  ghost predicate Unswept(events: seq<Event>) {
    forall i :: 0 <= i < |events| ==> !events[i].SweepStart?
  }

  /** A connection has been accepted and has registered. */
  lemma JustRegistered(capacity: nat, k: Key, service: string) returns (events: seq<Event>, states: seq<Sys>, s: Sys)
    ensures RunTo(capacity, events, states, s) && Unswept(events)
    ensures s.st == R.Sys(Register(Empty, k, service, 0), map[])
    ensures |s.conns| == 1 && s.conns[0].phase == Replying(true) && s.conns[0].peer == k.ip && s.conns[0].registered == [k]
  {
    var e1, e2 := Accept(k.ip), At(0, DoRegister(k.port, service, 0));
    var s1 := Next(capacity, Init, e1);
    s := Next(capacity, s1, e2);
    events, states := OneStepMore(capacity, [], [Init], Init, e1);
    events, states := OneStepMore(capacity, events, states, s1, e2);
  }

  /** Its reply is written and its list is sent. */
  lemma RegisteredOnce(capacity: nat, k: Key, service: string) returns (events: seq<Event>, states: seq<Sys>, s: Sys)
    ensures RunTo(capacity, events, states, s) && Unswept(events)
    ensures s.st == R.Sys(Register(Empty, k, service, 0), map[])
    ensures |s.conns| == 1 && s.conns[0].phase.Serving? && s.conns[0].peer == k.ip && s.conns[0].registered == [k]
  {
    var s0;
    events, states, s0 := JustRegistered(capacity, k, service);
    var s1 := Next(capacity, s0, At(0, DoReply(true)));
    var s2 := Next(capacity, s1, At(0, DoBuild));
    s := Next(capacity, s2, At(0, DoSend));
    events, states := OneStepMore(capacity, events, states, s0, At(0, DoReply(true)));
    events, states := OneStepMore(capacity, events, states, s1, At(0, DoBuild));
    events, states := OneStepMore(capacity, events, states, s2, At(0, DoSend));
  }

  /** A second connection from the same address has registered the same key. */
  lemma RegisteredTwice(capacity: nat, k: Key, service: string) returns (events: seq<Event>, states: seq<Sys>, s: Sys)
    ensures RunTo(capacity, events, states, s) && Unswept(events)
    ensures |s.conns| == 2 && s.conns[0].phase.Serving? && s.conns[0].registered == [k]
    ensures s.conns[1].phase.Serving? && s.conns[1].registered == [k] && k in s.st.store.index
  {
    var s0;
    events, states, s0 := RegisteredOnce(capacity, k, service);
    var e1, e2, e3 := Accept(k.ip), At(1, DoRegister(k.port, service, 0)), At(1, DoReply(true));
    assert !RegisterChanges(s0.st.store, k, service);
    var s1 := Next(capacity, s0, e1);
    var s2 := Next(capacity, s1, e2);
    s := Next(capacity, s2, e3);
    events, states := OneStepMore(capacity, events, states, s0, e1);
    events, states := OneStepMore(capacity, events, states, s1, e2);
    events, states := OneStepMore(capacity, events, states, s2, e3);
  }

  /**
   It does happen, for every key: a server registers, registers again on a second connection and goes
   on serving that; then the first connection ends cleanly, and its cleanup takes the server off the
   store. In the last state but one the key is there, in the last one it is not.
   */
  lemma CleanupDropsLiveKey(capacity: nat, k: Key, service: string) returns (events: seq<Event>, states: seq<Sys>)
    ensures Run(capacity, events, states) && Unswept(events) && |events| > 0
    ensures var n := |events|;
            && k in states[n - 1].st.store.index && k !in states[n].st.store.index
            && CleansUp(capacity, events, states, n - 1, 0, k)
            && 1 < |states[n].conns| && states[n].conns[1].phase.Serving? && states[n].conns[1].registered == [k]
  {
    var s;
    events, states, s := RegisteredTwice(capacity, k, service);
    var s1 := Next(capacity, s, At(0, DoEnd));
    events, states := OneStepMore(capacity, events, states, s, At(0, DoEnd));
    events, states := OneStepMore(capacity, events, states, s1, At(0, DoDeregister));
  }
}
