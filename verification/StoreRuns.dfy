/**
 Runs of the store itself. Every run of the two maps is, state by state, a run of the one map
 they stand for, so what module `MapRuns` proves of heartbeats and expiry holds of the store.
 */
module StoreRuns {

  import opened Common
  import opened Store
  import M = MapRuns

  type Event = M.Event

  datatype Sys = Sys(store: State, pending: map<nat, M.Pending>)

  const Init: Sys := Sys(Empty, map[])

  ghost function Next(s: Sys, e: Event): Sys
    requires M.Enabled(s.pending, e)
  {
    match e
    case DoRegister(k, service, now) => s.(store := Register(s.store, k, service, now))
    case DoHeartbeatRead(task, k) => s.(pending := s.pending[task := M.Pending(k, HeartbeatRead(s.store, k))])
    case DoHeartbeatWrite(task, now) =>
      var p := s.pending[task];
      Sys(if p.service.Some? then HeartbeatWrite(s.store, p.k, p.service.value, now) else s.store,
          s.pending - {task})
    case DoDeregister(k) => s.(store := Deregister(s.store, k))
    case DoSweep(timeout, at) => s.(store := Sweep(s.store, timeout, at))
    case Idle => s
  }

  /** The value that the operation reports to its caller, as a change or as "found". */
  ghost predicate Reports(s: Sys, e: Event)
    requires M.Enabled(s.pending, e)
  {
    match e
    case DoRegister(k, service, _) => RegisterChanges(s.store, k, service)
    case DoHeartbeatRead(_, _) => false
    case DoHeartbeatWrite(task, _) =>
      var p := s.pending[task];
      p.service.Some? && HeartbeatFinds(s.store, p.k, p.service.value)
    case DoDeregister(k) => k in s.store.index
    case DoSweep(timeout, at) => Expired(s.store, timeout, at) != {}
    case Idle => false
  }

  ghost predicate StepOf(events: seq<Event>, states: seq<Sys>, i: nat)
    requires i < |events| && |states| == |events| + 1
  {
    M.Enabled(states[i].pending, events[i]) && states[i + 1] == Next(states[i], events[i])
  }

  ghost predicate Run(events: seq<Event>, states: seq<Sys>) {
    && |states| == |events| + 1
    && states[0] == Init
    && forall i :: 0 <= i < |events| ==> StepOf(events, states, i)
  }

  ghost function Abs(s: Sys): M.Sys
    requires WellFormed(s.store)
  {
    M.Sys(Contents(s.store), s.pending)
  }

  /**
   One step of the store keeps its maps in agreement and is the same step of the one map;
   a heartbeat returns what the one map says, and every other operation reports exactly the
   changes that subscribers can see.
   */
  lemma StepRefines(s: Sys, e: Event)
    requires WellFormed(s.store) && M.Enabled(s.pending, e)
    ensures WellFormed(Next(s, e).store)
    ensures Abs(Next(s, e)) == M.Next(Abs(s), e)
    ensures e.DoHeartbeatWrite? ==>
              && (Reports(s, e) <==> M.HeartbeatReturns(Abs(s), e.task))
              && Visible(Next(s, e).store) == Visible(s.store)
    ensures !e.DoHeartbeatWrite? ==> (Reports(s, e) <==> Visible(Next(s, e).store) != Visible(s.store))
  {
    match e
    case DoRegister(k, service, now) => RegisterRefines(s.store, k, service, now);
    case DoHeartbeatRead(_, k) => HeartbeatReadRefines(s.store, k);
    case DoHeartbeatWrite(task, now) =>
      var p := s.pending[task];
      if p.service.Some? { HeartbeatWriteRefines(s.store, p.k, p.service.value, now); }
    case DoDeregister(k) => DeregisterRefines(s.store, k);
    case DoSweep(timeout, at) => SweepRefines(s.store, timeout, at);
    case Idle =>
  }

  lemma EmptyRefines()
    ensures WellFormed(Empty) && Contents(Empty) == map[]
  {}

  lemma {:induction false} RunWellFormed(events: seq<Event>, states: seq<Sys>, n: nat)
    requires Run(events, states) && n < |states|
    ensures WellFormed(states[n].store)
  {
    if n == 0 {
      EmptyRefines();
    } else {
      RunWellFormed(events, states, n - 1);
      assert StepOf(events, states, n - 1);
      StepRefines(states[n - 1], events[n - 1]);
    }
  }

  /** The run of the one map that a run of the store stands for. */
  ghost function AbsRun(events: seq<Event>, states: seq<Sys>): (abs: seq<M.Sys>)
    requires Run(events, states)
    ensures |abs| == |states|
    ensures forall i :: 0 <= i < |states| ==> WellFormed(states[i].store) && abs[i] == Abs(states[i])
  {
    assert forall i :: 0 <= i < |states| ==> WellFormed(states[i].store) by {
      forall i | 0 <= i < |states| ensures WellFormed(states[i].store) { RunWellFormed(events, states, i); }
    }
    seq(|states|, i requires 0 <= i < |states| && WellFormed(states[i].store) => Abs(states[i]))
  }

  /** Refinement: every run of the two maps is a run of the one map, with the two maps agreeing throughout. */
  lemma RunRefines(events: seq<Event>, states: seq<Sys>)
    requires Run(events, states)
    ensures M.Run(events, AbsRun(events, states))
  {
    var abs := AbsRun(events, states);
    EmptyRefines();
    forall i | 0 <= i < |events| ensures M.StepOf(events, abs, i) {
      assert StepOf(events, states, i);
      StepRefines(states[i], events[i]);
    }
  }

  /** `MapRuns.HeartbeatOutcome` for the store: the boolean that `heartbeat` returns, and what it changes. */
  lemma HeartbeatOutcome(events: seq<Event>, states: seq<Sys>, task: nat, r: nat, w: nat)
    requires Run(events, states) && M.SplitHeartbeat(events, task, r, w)
    ensures var abs := AbsRun(events, states);
            var k := events[r].k;
            var atRead, atWrite, after := abs[r].entries, abs[w].entries, abs[w + 1].entries;
            var found := k in atRead && k in atWrite && atRead[k].service == atWrite[k].service;
            && M.Enabled(states[w].pending, events[w])
            && (Reports(states[w], events[w]) <==> found)
            && after == (if found then atWrite[k := Entry(atWrite[k].service, events[w].now)] else atWrite)
            && Visible(states[w + 1].store) == Visible(states[w].store)
  {
    RunRefines(events, states);
    M.HeartbeatOutcome(events, AbsRun(events, states), task, r, w);
    assert StepOf(events, states, w);
    StepRefines(states[w], events[w]);
  }

  /** `MapRuns.GoneByTheBound` for the store: the key is in neither map, so no list shows it. */
  lemma GoneByTheBound(events: seq<Event>, states: seq<Sys>, clock: seq<Time>, timeout: nat, gap: nat,
                       j: nat, t: Time, k: Key)
    requires Run(events, states) && M.Timed(events, clock) && M.SweptEvery(events, clock, timeout, gap)
    requires j < |states| && clock[j] <= t && M.UnrefreshedSince(events, AbsRun(events, states), j, k)
    requires t + timeout + gap <= clock[|events|]
    ensures k !in states[|events|].store.index
    ensures forall svc :: svc in Visible(states[|events|].store) ==> k !in Visible(states[|events|].store)[svc]
  {
    RunRefines(events, states);
    M.GoneByTheBound(events, AbsRun(events, states), clock, timeout, gap, j, t, k);
    var s := states[|events|].store;
    forall svc | svc in Visible(s) ensures k !in Visible(s)[svc] {
      VisibleIsContents(s, k, svc);
    }
  }

  /** `MapRuns.KeptWhileRefreshed` for the store: the key stays on the list of some service. */
  lemma KeptWhileRefreshed(events: seq<Event>, states: seq<Sys>, clock: seq<Time>, j: nat, n: nat, k: Key)
    requires Run(events, states) && M.Timed(events, clock) && j <= n < |states|
    requires k in AbsRun(events, states)[j].entries
    requires forall i :: j <= i < n ==> M.Harmless(events, AbsRun(events, states), j, i, k)
    ensures exists svc :: svc in Visible(states[n].store) && k in Visible(states[n].store)[svc]
  {
    var abs := AbsRun(events, states);
    RunRefines(events, states);
    M.KeptWhileRefreshed(events, abs, clock, j, n, k);
    VisibleIsContents(states[n].store, k, abs[n].entries[k].service);
  }

  // ----- the order of the lists

  /** The keys listed for a service, none if there is no list. */
  function ListOf(s: State, svc: string): seq<Key> {
    if svc in s.inner then Keys(s.inner[svc]) else []
  }

  function Sans(ks: seq<Key>, gone: set<Key>): seq<Key> {
    if ks == [] then []
    else Sans(ks[..|ks| - 1], gone) + if ks[|ks| - 1] in gone then [] else [ks[|ks| - 1]]
  }

  lemma {:induction false} KeysWithout(l: seq<Instance>, gone: set<Key>)
    ensures Keys(Without(l, gone)) == Sans(Keys(l), gone)
  {
    if l != [] {
      var n := |l| - 1;
      KeysWithout(l[..n], gone);
      assert Keys(l)[..n] == Keys(l[..n]);
      assert Keys(Without(l[..n], gone) + [l[n]]) == Keys(Without(l[..n], gone)) + [l[n].key];
      assert Without(l[..n], gone) + [] == Without(l[..n], gone);
    }
  }

  lemma {:induction false} SansNothing(ks: seq<Key>, gone: set<Key>)
    requires forall k :: k in ks ==> k !in gone
    ensures Sans(ks, gone) == ks
  {
    if ks != [] {
      assert ks[|ks| - 1] in ks;
      SansNothing(ks[..|ks| - 1], gone);
      assert ks[..|ks| - 1] + [ks[|ks| - 1]] == ks;
    }
  }

  /** What is kept is kept in order. */
  lemma {:induction false} SansOrder(ks: seq<Key>, gone: set<Key>, p: nat, q: nat) returns (p': nat, q': nat)
    requires p < q < |Sans(ks, gone)|
    ensures p' < q' < |ks| && ks[p'] == Sans(ks, gone)[p] && ks[q'] == Sans(ks, gone)[q]
  {
    var n := |ks| - 1;
    var kept := Sans(ks[..n], gone);
    if q < |kept| {
      p', q' := SansOrder(ks[..n], gone, p, q);
    } else {
      q' := n;
      p' := SansAt(ks[..n], gone, p);
    }
  }

  lemma {:induction false} SansAt(ks: seq<Key>, gone: set<Key>, p: nat) returns (p': nat)
    requires p < |Sans(ks, gone)|
    ensures p' < |ks| && ks[p'] == Sans(ks, gone)[p]
  {
    var n := |ks| - 1;
    if p < |Sans(ks[..n], gone)| {
      p' := SansAt(ks[..n], gone, p);
    } else {
      p' := n;
    }
  }

  /** The keys that a step takes off their lists. */
  ghost function TakenOff(s: Sys, e: Event): set<Key> {
    match e
    case DoRegister(k, service, _) => if RegisterChanges(s.store, k, service) then {k} else {}
    case DoDeregister(k) => {k}
    case DoSweep(timeout, at) => Expired(s.store, timeout, at)
    case _ => {}
  }

  /** The key that a step puts at the end of the list of a service. */
  ghost function PutOn(s: Sys, e: Event, svc: string): seq<Key> {
    if e.DoRegister? && e.service == svc && RegisterChanges(s.store, e.k, svc) then [e.k] else []
  }

  lemma NotListed(s: State, svc: string, k: Key)
    requires WellFormed(s) && !(k in s.index && s.index[k] == svc)
    ensures k !in ListOf(s, svc)
  {
    if k in ListOf(s, svc) {
      var i :| 0 <= i < |ListOf(s, svc)| && ListOf(s, svc)[i] == k;
      assert Listed(s, svc, s.inner[svc][i]);
    }
  }

  lemma OneGone(s: State, svc: string, k: Key)
    requires WellFormed(s)
    ensures !(k in s.index && s.index[k] == svc) ==> Sans(ListOf(s, svc), {k}) == ListOf(s, svc)
    ensures svc in s.inner ==> Keys(Without(s.inner[svc], {k})) == Sans(ListOf(s, svc), {k})
  {
    if svc in s.inner { KeysWithout(s.inner[svc], {k}); }
    if !(k in s.index && s.index[k] == svc) {
      NotListed(s, svc, k);
      SansNothing(ListOf(s, svc), {k});
    }
  }

  lemma ListAfterTouch(s: State, k: Key, touched: string, now: Time, svc: string)
    ensures ListOf(HeartbeatWrite(s, k, touched, now), svc) == ListOf(s, svc)
  {
    if svc == touched && svc in s.inner { TouchKeeps(s.inner[svc], k, now); }
  }

  lemma ListAfterRegister(s: State, k: Key, service: string, now: Time, svc: string)
    requires WellFormed(s) && RegisterChanges(s, k, service)
    ensures ListOf(Register(s, k, service, now), svc)
            == Sans(ListOf(s, svc), {k}) + if svc == service then [k] else []
  {
    OneGone(s, svc, k);
    if k in s.index { assert Indexed(s, k); }
    var bare := State(Unassigned(s, k), s.index);
    assert ListOf(bare, svc) == Sans(ListOf(s, svc), {k});
    if svc == service {
      assert ListOf(Register(s, k, service, now), svc) == ListOf(bare, svc) + [k];
    }
  }

  lemma ListAfterDeregister(s: State, k: Key, svc: string)
    requires WellFormed(s)
    ensures ListOf(Deregister(s, k), svc) == Sans(ListOf(s, svc), {k})
  {
    OneGone(s, svc, k);
    if k in s.index { assert Indexed(s, k); }
  }

  lemma ListAfterSweep(s: State, timeout: nat, at: Key -> Time, svc: string)
    ensures ListOf(Sweep(s, timeout, at), svc) == Sans(ListOf(s, svc), Expired(s, timeout, at))
  {
    if svc in s.inner { KeysWithout(s.inner[svc], Expired(s, timeout, at)); }
  }

  /** What one step does to the list of a service: some keys leave, the others stay in order, a new one comes last. */
  lemma ListStep(s: Sys, e: Event, svc: string)
    requires WellFormed(s.store) && M.Enabled(s.pending, e)
    ensures ListOf(Next(s, e).store, svc) == Sans(ListOf(s.store, svc), TakenOff(s, e)) + PutOn(s, e, svc)
  {
    SansNothing(ListOf(s.store, svc), {});
    match e
    case DoRegister(k, service, now) =>
      if RegisterChanges(s.store, k, service) {
        ListAfterRegister(s.store, k, service, now, svc);
      } else {
        ListAfterTouch(s.store, k, service, now, svc);
      }
    case DoHeartbeatWrite(task, now) =>
      var p := s.pending[task];
      if p.service.Some? { ListAfterTouch(s.store, p.k, p.service.value, now, svc); }
    case DoDeregister(k) => ListAfterDeregister(s.store, k, svc);
    case DoSweep(timeout, at) => ListAfterSweep(s.store, timeout, at, svc);
    case _ =>
  }

  predicate Assigned(s: State, k: Key, svc: string) {
    k in s.index && s.index[k] == svc
  }

  /** The key was assigned to the service in step `i`, and has been ever since, up to state `n`. */
  ghost predicate AssignedIn(states: seq<Sys>, k: Key, svc: string, i: nat, n: nat) {
    && i < n < |states| && !Assigned(states[i].store, k, svc)
    && forall m :: i < m <= n ==> Assigned(states[m].store, k, svc)
  }

  lemma ListedIsAssigned(s: State, svc: string, p: nat)
    requires WellFormed(s) && p < |ListOf(s, svc)|
    ensures Assigned(s, ListOf(s, svc)[p], svc)
  {
    assert Listed(s, svc, s.inner[svc][p]);
  }

  lemma {:induction false} AssignmentOf(events: seq<Event>, states: seq<Sys>, n: nat, k: Key, svc: string) returns (i: nat)
    requires Run(events, states) && n < |states| && Assigned(states[n].store, k, svc)
    ensures AssignedIn(states, k, svc, i, n)
    decreases n
  {
    if Assigned(states[n - 1].store, k, svc) {
      i := AssignmentOf(events, states, n - 1, k, svc);
    } else {
      i := n - 1;
    }
  }

  /** Both keys stay, so that their order is the one they had before. */
  lemma KeptInOrder(events: seq<Event>, states: seq<Sys>, n: nat, svc: string, p: nat, q: nat) returns (p': nat, q': nat)
    requires Run(events, states) && 0 < n < |states| && p < q < |ListOf(states[n].store, svc)|
    requires Assigned(states[n - 1].store, ListOf(states[n].store, svc)[q], svc)
    ensures p' < q' < |ListOf(states[n - 1].store, svc)|
    ensures ListOf(states[n - 1].store, svc)[p'] == ListOf(states[n].store, svc)[p]
    ensures ListOf(states[n - 1].store, svc)[q'] == ListOf(states[n].store, svc)[q]
  {
    RunWellFormed(events, states, n - 1);
    assert StepOf(events, states, n - 1);
    ListStep(states[n - 1], events[n - 1], svc);
    p', q' := SansOrder(ListOf(states[n - 1].store, svc), TakenOff(states[n - 1], events[n - 1]), p, q);
  }

  /**
   Lists are in the order of registration. In every state of every run, of two keys on the list of a
   service the one that comes first was assigned to the service before the other was, each in the last
   step that did so. In particular no key is on a list twice.
   */
  lemma {:induction false} OldestFirst(events: seq<Event>, states: seq<Sys>, n: nat, svc: string, p: nat, q: nat)
    returns (i: nat, j: nat)
    requires Run(events, states) && n < |states|
    requires svc in Visible(states[n].store) && p < q < |Visible(states[n].store)[svc]|
    ensures var list := Visible(states[n].store)[svc];
            i < j && AssignedIn(states, list[p], svc, i, n) && AssignedIn(states, list[q], svc, j, n) && list[p] != list[q]
    decreases n
  {
    var s := states[n].store;
    RunWellFormed(events, states, n);
    ListedIsAssigned(s, svc, p);
    ListedIsAssigned(s, svc, q);
    i := AssignmentOf(events, states, n, ListOf(s, svc)[p], svc);
    j := AssignmentOf(events, states, n, ListOf(s, svc)[q], svc);
    if Assigned(states[n - 1].store, ListOf(s, svc)[q], svc) {
      var p', q' := KeptInOrder(events, states, n, svc, p, q);
      assert ListOf(states[n - 1].store, svc) == Visible(states[n - 1].store)[svc];
      var i', j' := OldestFirst(events, states, n - 1, svc, p', q');
      AssignedOnce(states, ListOf(s, svc)[p], svc, i, n, i');
      AssignedOnce(states, ListOf(s, svc)[q], svc, j, n, j');
    } else {
      LastIsNew(events, states, n, svc, p, q);
    }
  }

  lemma AssignedOnce(states: seq<Sys>, k: Key, svc: string, i: nat, n: nat, i': nat)
    requires AssignedIn(states, k, svc, i, n) && AssignedIn(states, k, svc, i', n - 1)
    ensures i == i'
  {}

  /** A key that was not there before is the last one, so the other one was. */
  lemma LastIsNew(events: seq<Event>, states: seq<Sys>, n: nat, svc: string, p: nat, q: nat)
    requires Run(events, states) && 0 < n < |states| && p < q < |ListOf(states[n].store, svc)|
    requires !Assigned(states[n - 1].store, ListOf(states[n].store, svc)[q], svc)
    ensures Assigned(states[n - 1].store, ListOf(states[n].store, svc)[p], svc)
  {
    RunWellFormed(events, states, n - 1);
    assert StepOf(events, states, n - 1);
    ListStep(states[n - 1], events[n - 1], svc);
    var before := ListOf(states[n - 1].store, svc);
    var gone := TakenOff(states[n - 1], events[n - 1]);
    if q < |Sans(before, gone)| {
      var q' := SansAt(before, gone, q);
      ListedIsAssigned(states[n - 1].store, svc, q');
    }
    var p' := SansAt(before, gone, p);
    ListedIsAssigned(states[n - 1].store, svc, p');
  }
}
