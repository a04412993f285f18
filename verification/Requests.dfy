/**
 What the registry does for the requests it receives, in their own terms: a registration, a
 heartbeat, a cleanup and a sweep on the one map from key to service and last heartbeat, and what a
 server gets for registering and sending heartbeats in time.
 */
module Requests {

  import opened Common
  import opened Store
  import M = MapRuns
  import R = StoreRuns
  import opened Registry
  import opened Lifecycle

  lemma WellFormedStep(capacity: nat, events: seq<Event>, states: seq<Sys>, i: nat)
    requires Run(capacity, events, states) && i < |events|
    ensures WellFormed(states[i].st.store) && WellFormed(states[i + 1].st.store) && StepOf(capacity, events, states, i)
  {
    RunInv(capacity, events, states, i);
    RunInv(capacity, events, states, i + 1);
    assert StepOf(capacity, events, states, i);
  }

  /**
   A registration assigns the peer's address with the requested port to the service, as of now; the
   connection remembers the key, and goes on to publish exactly if the visible list has changed.
   */
  lemma RegisterTakesEffect(capacity: nat, events: seq<Event>, states: seq<Sys>, i: nat, c: nat, port: int, service: string, now: Time)
    requires Run(capacity, events, states) && i < |events| && events[i] == At(c, DoRegister(port, service, now))
    ensures WellFormed(states[i].st.store) && WellFormed(states[i + 1].st.store)
    ensures c < |states[i].conns| && c < |states[i + 1].conns|
    ensures var conn, conn' := states[i].conns[c], states[i + 1].conns[c];
            var k := Key(conn.peer, port);
            && Contents(states[i + 1].st.store) == Contents(states[i].st.store)[k := Entry(service, now)]
            && conn'.registered == conn.registered + [k]
            && conn'.phase == Replying(Visible(states[i + 1].st.store) != Visible(states[i].st.store))
  {
    WellFormedStep(capacity, events, states, i);
    RegisterRefines(states[i].st.store, Key(states[i].conns[c].peer, port), service, now);
  }

  /** A connection takes any request when it has answered the one before and has not subscribed, and only then. */
  lemma OneRequestAtATime(capacity: nat, events: seq<Event>, states: seq<Sys>, n: nat, c: nat, port: int, service: string, now: Time)
    requires Run(capacity, events, states) && n < |states| && c < |states[n].conns|
    ensures var s, free := states[n], states[n].conns[c].phase.Serving?;
            && (Enabled(capacity, s, At(c, DoRegister(port, service, now))) <==> free)
            && (Enabled(capacity, s, At(c, DoHeartbeat(port))) <==> free)
            && (Enabled(capacity, s, At(c, DoSubscribe)) <==> free)
            && (Enabled(capacity, s, At(c, DoEnd)) <==> free || states[n].conns[c].phase.Subscribed?)
  {
    RunInv(capacity, events, states, n);
  }

  /** The heartbeat for `port` that connection `c` began in step `r` is completed in step `w`, at `now`. */
  ghost predicate HeartbeatOf(events: seq<Event>, c: nat, port: int, now: Time, r: nat, w: nat) {
    && r < w < |events|
    && events[r] == At(c, DoHeartbeat(port)) && events[w] == At(c, DoHeartbeatLists(now))
    && forall i :: r < i < w ==> !(events[i].At? && events[i].c == c && events[i].a.DoHeartbeatLists?)
  }

  lemma SplitBy(capacity: nat, events: seq<Event>, states: seq<Sys>, c: nat, port: int, now: Time, r: nat, w: nat)
    requires Run(capacity, events, states) && HeartbeatOf(events, c, port, now, r, w)
    ensures c < |states[r].conns|
    ensures var evs := StoreEvents(capacity, events, states);
            M.SplitHeartbeat(evs, c, r, w) && evs[r].k == Key(states[r].conns[c].peer, port) && evs[w].now == now
  {
    assert StepOf(capacity, events, states, r) && StepOf(capacity, events, states, w);
    var evs := StoreEvents(capacity, events, states);
    forall i | r < i < w ensures !(evs[i].DoHeartbeatWrite? && evs[i].task == c) {
      assert evs[i] == StoreEvent(capacity, states[i], events[i]);
    }
  }

  /** The reply to a heartbeat is what the store reports when the lists are written. */
  lemma HeartbeatReply(capacity: nat, events: seq<Event>, states: seq<Sys>, c: nat, now: Time, w: nat)
    requires Run(capacity, events, states) && w < |events| && events[w] == At(c, DoHeartbeatLists(now))
    ensures c < |states[w + 1].conns| && M.Enabled(states[w].st.pending, M.DoHeartbeatWrite(c, now))
    ensures states[w + 1].conns[c].phase == BeatReplying(R.Reports(states[w].st, M.DoHeartbeatWrite(c, now)))
  {
    assert StepOf(capacity, events, states, w);
    assert c in states[w].st.pending && states[w].st.pending[c] == states[w].conns[c].phase.p by {
      RunInv(capacity, events, states, w);
    }
  }

  /**
   A heartbeat refreshes the entry of the peer's address with the requested port, if that has the same
   service when the index is read and when the lists are written, and then the reply is that it was
   found. Otherwise it changes nothing, and the reply is that it was not.
   */
  lemma HeartbeatTakesEffect(capacity: nat, events: seq<Event>, states: seq<Sys>, c: nat, port: int, now: Time, r: nat, w: nat)
    requires Run(capacity, events, states) && HeartbeatOf(events, c, port, now, r, w)
    ensures WellFormed(states[r].st.store) && WellFormed(states[w].st.store) && WellFormed(states[w + 1].st.store)
    ensures c < |states[r].conns| && c < |states[w + 1].conns|
    ensures var k := Key(states[r].conns[c].peer, port);
            var atRead, atWrite, after := Contents(states[r].st.store), Contents(states[w].st.store), Contents(states[w + 1].st.store);
            var found := k in atRead && k in atWrite && atRead[k].service == atWrite[k].service;
            && after == (if found then atWrite[k := Entry(atWrite[k].service, now)] else atWrite)
            && states[w + 1].conns[c].phase == BeatReplying(found)
            && Visible(states[w + 1].st.store) == Visible(states[w].st.store)
  {
    SplitBy(capacity, events, states, c, port, now, r, w);
    EntriesAre(capacity, events, states, r);
    EntriesAre(capacity, events, states, w);
    EntriesAre(capacity, events, states, w + 1);
    HeartbeatReply(capacity, events, states, c, now, w);
    assert StoreEvents(capacity, events, states)[w] == M.DoHeartbeatWrite(c, now);
    R.HeartbeatOutcome(StoreEvents(capacity, events, states), StoreStates(states), c, r, w);
  }

  /** The one map behind a state of the run. */
  lemma EntriesAre(capacity: nat, events: seq<Event>, states: seq<Sys>, i: nat)
    requires Run(capacity, events, states) && i < |states|
    ensures WellFormed(states[i].st.store)
    ensures EntriesRun(capacity, events, states)[i].entries == Contents(states[i].st.store)
  {
    RunInv(capacity, events, states, i);
  }

  /** A step of a cleanup removes the next key that the connection registered, and notes whether that was visible. */
  lemma CleanupTakesEffect(capacity: nat, events: seq<Event>, states: seq<Sys>, i: nat, c: nat)
    requires Run(capacity, events, states) && i < |events| && events[i] == At(c, DoDeregister)
    ensures WellFormed(states[i].st.store) && WellFormed(states[i + 1].st.store)
    ensures c < |states[i].conns| && c < |states[i + 1].conns|
    ensures var p := states[i].conns[c].phase;
            && p.Cleaning? && p.rest != [] && p.rest[0] in states[i].conns[c].registered
            && Contents(states[i + 1].st.store) == Contents(states[i].st.store) - {p.rest[0]}
            && states[i + 1].conns[c].phase
               == Cleaning(p.rest[1..], p.changed || Visible(states[i + 1].st.store) != Visible(states[i].st.store))
  {
    WellFormedStep(capacity, events, states, i);
    var p := states[i].conns[c].phase;
    RunInv(capacity, events, states, i);
    assert ConnOk(states[i], states[i].conns[c]);
    assert p.rest[0] in p.rest;
    DeregisterRefines(states[i].st.store, p.rest[0]);
  }

  /**
   A sweep keeps an entry exactly if its last heartbeat is less than the timeout before the sweep's look
   at it, and the sweeper goes on to publish exactly if the visible list has changed.
   */
  lemma SweepTakesEffect(capacity: nat, events: seq<Event>, states: seq<Sys>, i: nat, timeout: nat, at: Key -> Time, k: Key)
    requires Run(capacity, events, states) && i < |events| && events[i] == SweepStart(timeout, at)
    ensures WellFormed(states[i].st.store) && WellFormed(states[i + 1].st.store)
    ensures var m, m' := Contents(states[i].st.store), Contents(states[i + 1].st.store);
            && (k in m' <==> k in m && 0 < timeout && at(k) < m[k].lastHeartbeat + timeout)
            && (k in m' ==> m'[k] == m[k])
    ensures states[i + 1].sweeper.SweepBuilding? <==> Visible(states[i + 1].st.store) != Visible(states[i].st.store)
  {
    SweepStep(capacity, events, states, i, timeout, at);
    SweptEntry(states[i].st.store, timeout, at, k);
    SweepIsVisible(states[i].st.store, timeout, at);
  }

  lemma SweepStep(capacity: nat, events: seq<Event>, states: seq<Sys>, i: nat, timeout: nat, at: Key -> Time)
    requires Run(capacity, events, states) && i < |events| && events[i] == SweepStart(timeout, at)
    ensures WellFormed(states[i].st.store) && states[i + 1].st.store == Sweep(states[i].st.store, timeout, at)
    ensures states[i + 1].sweeper.SweepBuilding? <==> Expired(states[i].st.store, timeout, at) != {}
  {
    WellFormedStep(capacity, events, states, i);
  }

  /** Nothing else touches the store. */
  lemma NothingElseDoes(capacity: nat, events: seq<Event>, states: seq<Sys>, i: nat)
    requires Run(capacity, events, states) && i < |events| && !events[i].SweepStart?
    requires events[i].At? ==> !events[i].a.DoRegister? && !events[i].a.DoHeartbeatLists? && !events[i].a.DoDeregister?
    ensures states[i + 1].st.store == states[i].st.store
  {
    assert StepOf(capacity, events, states, i);
  }

  // ----- a server that sends its heartbeats stays listed

  /** The step is a registration of `k` by some connection, or deregisters `k` in a cleanup. */
  ghost predicate Reassigns(s: Sys, e: Event, k: Key) {
    && e.At? && e.c < |s.conns|
    && var conn := s.conns[e.c];
       || (e.a.DoRegister? && Key(conn.peer, e.a.port) == k)
       || (e.a.DoDeregister? && conn.phase.Cleaning? && conn.phase.rest != [] && conn.phase.rest[0] == k)
  }

  lemma OtherwiseNotInStore(capacity: nat, s: Sys, e: Event, k: Key)
    requires Enabled(capacity, s, e) && !Reassigns(s, e, k)
    ensures var ev := StoreEvent(capacity, s, e);
            ev != M.DoDeregister(k) && !(ev.DoRegister? && ev.k == k)
  {}

  /** Some heartbeat for `port` by connection `c`, since step `j` and before step `i`, was at most `timeout` before `t`. */
  ghost predicate BeatBefore(events: seq<Event>, c: nat, port: int, j: nat, i: nat, timeout: nat, t: Time) {
    exists r: nat, w: nat, now: Time :: j < r < w < i && HeartbeatOf(events, c, port, now, r, w) && t < now + timeout
  }

  /** If step `i` is a sweep, then a heartbeat, or else the registration in step `j`, was in time for it. */
  ghost predicate BeatInTime(events: seq<Event>, c: nat, port: int, k: Key, j: nat, registered: Time, i: nat)
    requires i < |events|
  {
    events[i].SweepStart? ==>
      || events[i].at(k) < registered + events[i].timeout
      || BeatBefore(events, c, port, j, i, events[i].timeout, events[i].at(k))
  }

  /** The key has this service in the one map. */
  ghost predicate ListedAs(s: Sys, k: Key, service: string) {
    k in s.st.store.index && s.st.store.index[k] == service
  }

  /** A step that does not reassign the key leaves it with its service, if it leaves it. */
  lemma ServiceKept(capacity: nat, events: seq<Event>, states: seq<Sys>, i: nat, k: Key, service: string)
    requires Run(capacity, events, states) && i < |events| && ListedAs(states[i], k, service)
    requires !Reassigns(states[i], events[i], k) && k in states[i + 1].st.store.index
    ensures ListedAs(states[i + 1], k, service)
  {
    WellFormedStep(capacity, events, states, i);
    var ev := StoreEvent(capacity, states[i], events[i]);
    OtherwiseNotInStore(capacity, states[i], events[i], k);
    R.StepRefines(states[i].st, ev);
    assert k in R.Abs(states[i].st).entries && R.Abs(states[i].st).entries[k].service == service;
    assert k in R.Abs(states[i + 1].st).entries;
    assert R.Abs(states[i + 1].st).entries[k].service == service;
  }

  /** A heartbeat for a key that has kept its service refreshes it. */
  lemma BeatRefreshes(capacity: nat, events: seq<Event>, states: seq<Sys>, c: nat, port: int, now: Time, r: nat, w: nat, service: string)
    requires Run(capacity, events, states) && HeartbeatOf(events, c, port, now, r, w)
    requires c < |states[r].conns|
    requires ListedAs(states[r], Key(states[r].conns[c].peer, port), service)
    requires ListedAs(states[w], Key(states[r].conns[c].peer, port), service)
    ensures var evs := StoreEvents(capacity, events, states);
            && M.Refreshes(EntriesRun(capacity, events, states)[w], evs[w], Key(states[r].conns[c].peer, port))
            && evs[w].DoHeartbeatWrite? && evs[w].now == now
  {
    var evs, abs := StoreEvents(capacity, events, states), EntriesRun(capacity, events, states);
    SplitBy(capacity, events, states, c, port, now, r, w);
    M.HeartbeatOutcome(evs, abs, c, r, w);
    WellFormedStep(capacity, events, states, r);
    WellFormedStep(capacity, events, states, w);
  }

  /** The registration in step `j` puts the key into the one map, as of then. */
  lemma RegisteredEntry(capacity: nat, events: seq<Event>, states: seq<Sys>, j: nat, c: nat, port: int, service: string, now: Time)
    requires Run(capacity, events, states) && j < |events| && events[j] == At(c, DoRegister(port, service, now))
    ensures c < |states[j].conns|
    ensures var k, entries := Key(states[j].conns[c].peer, port), EntriesRun(capacity, events, states)[j + 1].entries;
            k in entries && entries[k] == Entry(service, now)
  {
    RegisterTakesEffect(capacity, events, states, j, c, port, service, now);
    EntriesAre(capacity, events, states, j + 1);
  }

  /** A heartbeat in time for a sweep, on the key's own connection, is a recent refresh. */
  lemma BeatIsRecent(capacity: nat, events: seq<Event>, states: seq<Sys>, j: nat, i: nat, c: nat, port: int, service: string, k: Key)
    returns (w: nat)
    requires Run(capacity, events, states) && j < i < |events| && c < |states[j].conns| && k == Key(states[j].conns[c].peer, port)
    requires forall m :: j < m <= i ==> ListedAs(states[m], k, service)
    requires events[i].SweepStart? && BeatBefore(events, c, port, j, i, events[i].timeout, events[i].at(k))
    ensures j < w < i && StoreEvents(capacity, events, states)[i].DoSweep?
    ensures M.Recent(EntriesRun(capacity, events, states)[w], StoreEvents(capacity, events, states)[w],
                     StoreEvents(capacity, events, states)[i], k)
  {
    var r: nat, v: nat, t: Time :| j < r < v < i && HeartbeatOf(events, c, port, t, r, v) && events[i].at(k) < t + events[i].timeout;
    StagesAdvance(capacity, events, states, j, r, c);
    BeatRefreshes(capacity, events, states, c, port, t, r, v, service);
    w := v;
  }

  lemma SweepInTime(capacity: nat, events: seq<Event>, states: seq<Sys>, j: nat, i: nat, c: nat, port: int, service: string, now: Time, k: Key)
    requires Run(capacity, events, states) && j < i < |events| && events[j] == At(c, DoRegister(port, service, now))
    requires c < |states[j].conns| && k == Key(states[j].conns[c].peer, port)
    requires forall m :: j < m <= i ==> ListedAs(states[m], k, service)
    requires BeatInTime(events, c, port, k, j, now, i)
    ensures k in EntriesRun(capacity, events, states)[j + 1].entries
    ensures M.InTime(StoreEvents(capacity, events, states), EntriesRun(capacity, events, states), j + 1, i, k)
  {
    RegisteredEntry(capacity, events, states, j, c, port, service, now);
    if events[i].SweepStart? && BeatBefore(events, c, port, j, i, events[i].timeout, events[i].at(k)) {
      var w := BeatIsRecent(capacity, events, states, j, i, c, port, service, k);
    }
  }

  /** Step `i` neither deregisters the key nor sweeps it away. */
  lemma HarmlessStep(capacity: nat, events: seq<Event>, states: seq<Sys>, j: nat, i: nat, c: nat, port: int, service: string, now: Time, k: Key)
    requires Run(capacity, events, states) && j < i < |events| && events[j] == At(c, DoRegister(port, service, now))
    requires c < |states[j].conns| && k == Key(states[j].conns[c].peer, port)
    requires forall m :: j < m <= i ==> ListedAs(states[m], k, service)
    requires BeatInTime(events, c, port, k, j, now, i) && !Reassigns(states[i], events[i], k)
    ensures k in EntriesRun(capacity, events, states)[j + 1].entries
    ensures M.Harmless(StoreEvents(capacity, events, states), EntriesRun(capacity, events, states), j + 1, i, k)
  {
    SweepInTime(capacity, events, states, j, i, c, port, service, now, k);
    assert StepOf(capacity, events, states, i);
    OtherwiseNotInStore(capacity, states[i], events[i], k);
  }

  /** One more state: the key is still there, and with its service. */
  lemma StillAssigned(capacity: nat, events: seq<Event>, states: seq<Sys>, clock: seq<Time>,
                      j: nat, n: nat, c: nat, port: int, service: string, now: Time, k: Key)
    requires Run(capacity, events, states) && M.Timed(StoreEvents(capacity, events, states), clock) && j + 1 < n < |states|
    requires events[j] == At(c, DoRegister(port, service, now)) && c < |states[j].conns| && k == Key(states[j].conns[c].peer, port)
    requires forall i :: j < i < n ==> !Reassigns(states[i], events[i], k)
    requires forall i :: j < i < n ==> BeatInTime(events, c, port, k, j, now, i)
    requires forall m :: j < m < n ==> ListedAs(states[m], k, service)
    ensures ListedAs(states[n], k, service)
  {
    var evs, abs := StoreEvents(capacity, events, states), EntriesRun(capacity, events, states);
    var first := j + 1;
    assert k in abs[first].entries by { RegisteredEntry(capacity, events, states, j, c, port, service, now); }
    forall i | first <= i < n ensures M.Harmless(evs, abs, first, i, k) {
      HarmlessStep(capacity, events, states, j, i, c, port, service, now, k);
    }
    assert k in states[n].st.store.index by {
      M.KeptWhileRefreshed(evs, abs, clock, first, n, k);
      EntriesAre(capacity, events, states, n);
    }
    ServiceKept(capacity, events, states, n - 1, k, service);
  }

  lemma {:induction false} StaysAssigned(capacity: nat, events: seq<Event>, states: seq<Sys>, clock: seq<Time>,
                                         j: nat, n: nat, c: nat, port: int, service: string, now: Time)
    requires Run(capacity, events, states) && M.Timed(StoreEvents(capacity, events, states), clock) && j < n < |states|
    requires events[j] == At(c, DoRegister(port, service, now)) && c < |states[j].conns|
    requires forall i :: j < i < n ==> !Reassigns(states[i], events[i], Key(states[j].conns[c].peer, port))
    requires forall i :: j < i < n ==> BeatInTime(events, c, port, Key(states[j].conns[c].peer, port), j, now, i)
    ensures forall m :: j < m <= n ==> ListedAs(states[m], Key(states[j].conns[c].peer, port), service)
    decreases n
  {
    if j + 1 < n {
      StaysAssigned(capacity, events, states, clock, j, n - 1, c, port, service, now);
      StillAssigned(capacity, events, states, clock, j, n, c, port, service, now, Key(states[j].conns[c].peer, port));
    } else {
      RegisterTakesEffect(capacity, events, states, j, c, port, service, now);
    }
  }

  /**
   What a server gets for its heartbeats. A connection registers a port for a service in step `j`. As
   long as nobody registers or deregisters that key anew, and every sweep finds the registration or some
   heartbeat for that port on that connection less than the timeout ago, the key stays on the visible
   list of the service.
   */
  lemma HeartbeatsKeepListed(capacity: nat, events: seq<Event>, states: seq<Sys>, clock: seq<Time>,
                             j: nat, n: nat, c: nat, port: int, service: string, now: Time)
    requires Run(capacity, events, states) && M.Timed(StoreEvents(capacity, events, states), clock) && j < n < |states|
    requires events[j] == At(c, DoRegister(port, service, now)) && c < |states[j].conns|
    requires forall i :: j < i < n ==> !Reassigns(states[i], events[i], Key(states[j].conns[c].peer, port))
    requires forall i :: j < i < n ==> BeatInTime(events, c, port, Key(states[j].conns[c].peer, port), j, now, i)
    ensures var visible := Visible(states[n].st.store);
            service in visible && Key(states[j].conns[c].peer, port) in visible[service]
  {
    StaysAssigned(capacity, events, states, clock, j, n, c, port, service, now);
    RunInv(capacity, events, states, n);
    var k := Key(states[j].conns[c].peer, port);
    assert ListedAs(states[n], k, service);
    VisibleIsContents(states[n].st.store, k, service);
  }
}
