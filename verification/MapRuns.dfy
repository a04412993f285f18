/**
 The simple thing the store has to agree with: one map from key to service and last heartbeat.
 Any number of tasks run on it, one critical section per step. A heartbeat is two steps, a read
 of the key's service and a write, with anything in between; a timed run adds a clock.
 The theorems about heartbeats and expiry are proved here, and module `StoreRuns` carries them
 over to the two maps of the store.
 */
module MapRuns {

  import opened Common
  import opened Store

  /** A heartbeat between its two critical sections, with the service that the first one found. */
  datatype Pending = Pending(k: Key, service: Option<string>)

  datatype Sys = Sys(entries: map<Key, Entry>, pending: map<nat, Pending>)

  datatype Event =
    | DoRegister(k: Key, service: string, now: Time)
    | DoHeartbeatRead(task: nat, k: Key)
    | DoHeartbeatWrite(task: nat, now: Time)
    | DoDeregister(k: Key)
    | DoSweep(timeout: nat, at: Key -> Time)
    | Idle   // a step of some task that leaves the store alone

  const Init: Sys := Sys(map[], map[])

  predicate Enabled(pending: map<nat, Pending>, e: Event) {
    match e
    case DoHeartbeatRead(task, _) => task !in pending
    case DoHeartbeatWrite(task, _) => task in pending
    case _ => true
  }

  ghost function ServiceOf(m: map<Key, Entry>, k: Key): Option<string> {
    if k in m then Some(m[k].service) else None
  }

  /** What `heartbeat` returns when its second step runs in `s`. */
  ghost predicate HeartbeatReturns(s: Sys, task: nat)
    requires task in s.pending
  {
    s.pending[task].service.Some? && ServiceOf(s.entries, s.pending[task].k) == s.pending[task].service
  }

  ghost function Next(s: Sys, e: Event): Sys
    requires Enabled(s.pending, e)
  {
    match e
    case DoRegister(k, service, now) => s.(entries := s.entries[k := Entry(service, now)])
    case DoHeartbeatRead(task, k) => s.(pending := s.pending[task := Pending(k, ServiceOf(s.entries, k))])
    case DoHeartbeatWrite(task, now) =>
      var p := s.pending[task];
      Sys(if HeartbeatReturns(s, task) then s.entries[p.k := Entry(p.service.value, now)] else s.entries,
          s.pending - {task})
    case DoDeregister(k) => s.(entries := s.entries - {k})
    case DoSweep(timeout, at) => s.(entries := Survivors(s.entries, timeout, at))
    case Idle => s
  }

  ghost predicate StepOf(events: seq<Event>, states: seq<Sys>, i: nat)
    requires i < |events| && |states| == |events| + 1
  {
    Enabled(states[i].pending, events[i]) && states[i + 1] == Next(states[i], events[i])
  }

  ghost predicate Run(events: seq<Event>, states: seq<Sys>) {
    && |states| == |events| + 1
    && states[0] == Init
    && forall i :: 0 <= i < |events| ==> StepOf(events, states, i)
  }

  // ----- the split heartbeat

  /** The heartbeat that `task` began in step `r` is completed in step `w`. */
  ghost predicate SplitHeartbeat(events: seq<Event>, task: nat, r: nat, w: nat) {
    && r < w < |events|
    && events[r].DoHeartbeatRead? && events[r].task == task
    && events[w].DoHeartbeatWrite? && events[w].task == task
    && forall i :: r < i < w ==> !(events[i].DoHeartbeatWrite? && events[i].task == task)
  }

  lemma {:induction false} PendingKept(events: seq<Event>, states: seq<Sys>, task: nat, r: nat, n: nat)
    requires Run(events, states) && r < n < |states|
    requires events[r].DoHeartbeatRead? && events[r].task == task
    requires forall i :: r < i < n ==> !(events[i].DoHeartbeatWrite? && events[i].task == task)
    ensures task in states[n].pending
    ensures states[n].pending[task] == Pending(events[r].k, ServiceOf(states[r].entries, events[r].k))
  {
    assert StepOf(events, states, n - 1);
    if n > r + 1 {
      PendingKept(events, states, task, r, n - 1);
    }
  }

  /**
   A heartbeat whose read is step `r` and whose write is step `w`, whatever ran in between,
   returns true exactly when the key has the same service at the write as at the read; then
   that entry is refreshed, and otherwise nothing changes.
   */
  lemma HeartbeatOutcome(events: seq<Event>, states: seq<Sys>, task: nat, r: nat, w: nat)
    requires Run(events, states) && SplitHeartbeat(events, task, r, w)
    ensures task in states[w].pending && states[w].pending[task].k == events[r].k
    ensures var k := events[r].k;
            var atRead, atWrite, after := states[r].entries, states[w].entries, states[w + 1].entries;
            var found := k in atRead && k in atWrite && atRead[k].service == atWrite[k].service;
            && (HeartbeatReturns(states[w], task) <==> found)
            && after == if found then atWrite[k := Entry(atWrite[k].service, events[w].now)] else atWrite
  {
    PendingKept(events, states, task, r, w);
    assert StepOf(events, states, w);
  }

  // ----- one step, seen on one key

  /** The step sets the heartbeat of `k`. */
  ghost predicate Refreshes(s: Sys, e: Event, k: Key) {
    || (e.DoRegister? && e.k == k)
    || (e.DoHeartbeatWrite? && e.task in s.pending && s.pending[e.task].k == k && HeartbeatReturns(s, e.task))
  }

  /** A step that does not refresh `k` can only drop it, by deregistration or by a sweep that finds it expired. */
  lemma OtherwiseKept(s: Sys, e: Event, k: Key)
    requires Enabled(s.pending, e) && !Refreshes(s, e, k)
    ensures var m, m' := s.entries, Next(s, e).entries;
            && (k in m' ==> k in m && m'[k] == m[k])
            && (k in m && k !in m' ==>
                  || e == DoDeregister(k)
                  || (e.DoSweep? && !Alive(m[k].lastHeartbeat, e.timeout, e.at(k))))
            && (k in m && e.DoSweep? && !Alive(m[k].lastHeartbeat, e.timeout, e.at(k)) ==> k !in m')
  {}

  // ----- timed runs

  /**
   Step `i` runs between `clock[i]` and `clock[i + 1]`, and every clock reading it makes lies
   in that interval; each instance a sweep looks at is compared with a reading of its own.
   */
  ghost predicate Timed(events: seq<Event>, clock: seq<Time>) {
    && |clock| == |events| + 1
    && (forall i, j :: 0 <= i <= j < |clock| ==> clock[i] <= clock[j])
    && (forall i :: 0 <= i < |events| && (events[i].DoRegister? || events[i].DoHeartbeatWrite?) ==>
                      clock[i] <= events[i].now <= clock[i + 1])
    && (forall i, k :: 0 <= i < |events| && events[i].DoSweep? ==> clock[i] <= events[i].at(k) <= clock[i + 1])
  }

  lemma {:induction false} BeatsArePast(events: seq<Event>, states: seq<Sys>, clock: seq<Time>, n: nat, k: Key)
    requires Run(events, states) && Timed(events, clock) && n < |states|
    requires k in states[n].entries
    ensures states[n].entries[k].lastHeartbeat <= clock[n]
  {
    if n > 0 {
      assert StepOf(events, states, n - 1);
      if !Refreshes(states[n - 1], events[n - 1], k) {
        OtherwiseKept(states[n - 1], events[n - 1], k);
        BeatsArePast(events, states, clock, n - 1, k);
      }
    }
  }

  ghost predicate UnrefreshedSince(events: seq<Event>, states: seq<Sys>, j: nat, k: Key)
    requires |states| == |events| + 1
  {
    forall i :: j <= i < |events| ==> !Refreshes(states[i], events[i], k)
  }

  lemma {:induction false} UnrefreshedEntry(events: seq<Event>, states: seq<Sys>, j: nat, n: nat, k: Key)
    requires Run(events, states) && j <= n < |states| && UnrefreshedSince(events, states, j, k)
    requires k in states[n].entries
    ensures k in states[j].entries && states[n].entries[k] == states[j].entries[k]
  {
    if n > j {
      assert StepOf(events, states, n - 1);
      OtherwiseKept(states[n - 1], events[n - 1], k);
      UnrefreshedEntry(events, states, j, n - 1, k);
    }
  }

  /** After step `j` a whole sweep with this timeout runs inside [x, x + gap]. */
  ghost predicate SweepWithin(events: seq<Event>, clock: seq<Time>, timeout: nat, gap: nat, j: int, x: Time)
    requires Timed(events, clock)
  {
    exists m :: && j <= m && 0 <= m < |events| && events[m].DoSweep? && events[m].timeout == timeout
                && x <= clock[m] && clock[m + 1] <= x + gap
  }

  /** From any moment of the run on, sweeps are at most `gap` apart. */
  ghost predicate SweptEvery(events: seq<Event>, clock: seq<Time>, timeout: nat, gap: nat)
    requires Timed(events, clock)
  {
    forall j, x :: 0 <= j < |clock| && clock[j] <= x && x + gap <= clock[|events|]
                   ==> SweepWithin(events, clock, timeout, gap, j, x)
  }

  lemma GoneAfterSweep(events: seq<Event>, states: seq<Sys>, clock: seq<Time>, j: nat, m: nat, k: Key)
    requires Run(events, states) && Timed(events, clock)
    requires j <= m < |events| && UnrefreshedSince(events, states, j, k)
    requires events[m].DoSweep? && clock[j] + events[m].timeout <= clock[m]
    ensures k !in states[m + 1].entries
  {
    assert StepOf(events, states, m);
    OtherwiseKept(states[m], events[m], k);
    if k in states[m].entries {
      UnrefreshedEntry(events, states, j, m, k);
      BeatsArePast(events, states, clock, j, k);
      assert clock[m] <= events[m].at(k);
    }
  }

  /**
   Expiry bound: an instance not refreshed since a moment no later than `t` is gone once the
   run has reached `t + timeout + gap`.
   */
  lemma GoneByTheBound(events: seq<Event>, states: seq<Sys>, clock: seq<Time>, timeout: nat, gap: nat,
                       j: nat, t: Time, k: Key)
    requires Run(events, states) && Timed(events, clock) && SweptEvery(events, clock, timeout, gap)
    requires j < |states| && clock[j] <= t && UnrefreshedSince(events, states, j, k)
    requires t + timeout + gap <= clock[|events|]
    ensures k !in states[|events|].entries
  {
    assert SweepWithin(events, clock, timeout, gap, j, t + timeout);
    var m :| j <= m && 0 <= m < |events| && events[m].DoSweep? && events[m].timeout == timeout && t + timeout <= clock[m];
    GoneAfterSweep(events, states, clock, j, m, k);
    if k in states[|events|].entries {
      UnrefreshedEntry(events, states, m + 1, |events|, k);
    }
  }

  /** The refresh, made in `s`, is less than the timeout before the check of the sweep `e`. */
  ghost predicate Recent(s: Sys, refresh: Event, e: Event, k: Key)
    requires e.DoSweep?
  {
    Refreshes(s, refresh, k) && e.at(k) < refresh.now + e.timeout
  }

  /**
   If step `i` is a sweep then the entry in state `j` or some refresh in steps `j..i` is younger than
   the timeout when the sweep checks `k`.
   */
  ghost predicate InTime(events: seq<Event>, states: seq<Sys>, j: nat, i: nat, k: Key)
    requires |states| == |events| + 1 && j <= i < |events| && k in states[j].entries
  {
    events[i].DoSweep? ==>
      || events[i].at(k) < states[j].entries[k].lastHeartbeat + events[i].timeout
      || exists r :: j <= r < i && Recent(states[r], events[r], events[i], k)
  }

  /** Nor does the step deregister `k`. */
  ghost predicate Harmless(events: seq<Event>, states: seq<Sys>, j: nat, i: nat, k: Key)
    requires |states| == |events| + 1 && j <= i < |events| && k in states[j].entries
  {
    events[i] != DoDeregister(k) && InTime(events, states, j, i, k)
  }

  /** `k` is present in state `n` with a heartbeat at least as young as in state `j` and as every refresh since. */
  ghost predicate Fresh(events: seq<Event>, states: seq<Sys>, j: nat, n: nat, k: Key)
    requires |states| == |events| + 1 && j <= n < |states|
  {
    && k in states[j].entries && k in states[n].entries
    && states[j].entries[k].lastHeartbeat <= states[n].entries[k].lastHeartbeat
    && forall r :: j <= r < n && Refreshes(states[r], events[r], k) ==>
                     events[r].now <= states[n].entries[k].lastHeartbeat
  }

  /**
   No false expiry: an instance that is never deregistered and has been refreshed less than the
   timeout before every sweep's check of it is never removed.
   */
  lemma {:induction false} KeptWhileRefreshed(events: seq<Event>, states: seq<Sys>, clock: seq<Time>, j: nat, n: nat, k: Key)
    requires Run(events, states) && Timed(events, clock) && j <= n < |states|
    requires k in states[j].entries
    requires forall i :: j <= i < n ==> Harmless(events, states, j, i, k)
    ensures Fresh(events, states, j, n, k)
  {
    if n > j {
      KeptWhileRefreshed(events, states, clock, j, n - 1, k);
      KeptOneMore(events, states, clock, j, n - 1, k);
    }
  }

  lemma KeptOneMore(events: seq<Event>, states: seq<Sys>, clock: seq<Time>, j: nat, p: nat, k: Key)
    requires Run(events, states) && Timed(events, clock) && j <= p < |events|
    requires Fresh(events, states, j, p, k) && Harmless(events, states, j, p, k)
    ensures Fresh(events, states, j, p + 1, k)
  {
    assert StepOf(events, states, p);
    BeatsArePast(events, states, clock, p, k);
    if !Refreshes(states[p], events[p], k) {
      OtherwiseKept(states[p], events[p], k);
      if events[p].DoSweep? {
        assert clock[p] <= events[p].at(k);
        assert events[p].at(k) < states[p].entries[k].lastHeartbeat + events[p].timeout;
      }
    }
  }
}
