/**
 What exactly a subscriber is sent: its snapshot and then, without lag, every list that has been put
 on the channel since the connection was accepted, in order and each once; after a lag one fresh
 list, and then again everything from the oldest list that the channel has kept.
 */
module Delivery {

  import opened Common
  import opened Store
  import opened Registry
  import opened Lifecycle
  import opened Publication

  /** The lists delivered to a connection, and the one it is about to be sent. */
  function Given(conn: Conn): seq<ServiceList> {
    conn.delivered + if conn.phase.Snapshotting? || conn.phase.Notifying? then [conn.phase.list] else []
  }

  function Lists(log: seq<Sent>): seq<ServiceList> {
    seq(|log|, i requires 0 <= i < |log| => log[i].list)
  }

  /** The connection has subscribed, and is not in the middle of a lag. */
  predicate Watching(p: Phase) {
    p.Snapshotting? || p.Subscribed? || p.Notifying?
  }

  /** How often connection `c` has received from the channel in steps `i..n`. */
  function Receives(events: seq<Event>, c: nat, i: nat, n: nat): nat
    requires i <= n <= |events|
  {
    if i == n then 0 else Receives(events, c, i, n - 1) + if events[n - 1] == At(c, DoReceive) then 1 else 0
  }

  ghost predicate NoLag(events: seq<Event>, c: nat, i: nat, n: nat)
    requires i <= n <= |events|
  {
    forall m :: i <= m < n ==> events[m] != At(c, DoLag)
  }

  lemma WatchingStep(capacity: nat, s: Sys, e: Event, c: nat)
    requires Enabled(capacity, s, e) && c < |s.conns| && Watching(s.conns[c].phase)
    requires e != At(c, DoLag) && c < |Next(capacity, s, e).conns| && Watching(Next(capacity, s, e).conns[c].phase)
    ensures var conn, s' := s.conns[c], Next(capacity, s, e);
            && s.log <= s'.log
            && (e == At(c, DoReceive) ==>
                  && conn.pos < |s.log| && s'.conns[c].pos == conn.pos + 1
                  && Given(s'.conns[c]) == Given(conn) + [s'.log[conn.pos].list])
            && (e != At(c, DoReceive) ==> s'.conns[c].pos == conn.pos && Given(s'.conns[c]) == Given(conn))
  {
    var s' := Next(capacity, s, e);
    if e.At? && e.c == c && e.a.DoReply? {
      assert s.conns[c].delivered + [s.conns[c].phase.list] + [] == s.conns[c].delivered + [s.conns[c].phase.list];
    } else if e == At(c, DoReceive) {
      assert s.conns[c].delivered + [] == s.conns[c].delivered;
    }
  }

  /** A subscriber stays one until it is over, and falls behind only by a lag. */
  lemma {:induction false} WatchingBetween(capacity: nat, events: seq<Event>, states: seq<Sys>, i: nat, m: nat, n: nat, c: nat)
    requires Run(capacity, events, states) && i <= m <= n < |states| && NoLag(events, c, i, n)
    requires c < |states[i].conns| && Watching(states[i].conns[c].phase)
    requires c < |states[n].conns| && Watching(states[n].conns[c].phase)
    ensures c < |states[m].conns| && Watching(states[m].conns[c].phase)
    decreases m
  {
    StagesAdvance(capacity, events, states, i, m, c);
    StagesAdvance(capacity, events, states, m, n, c);
    if i < m {
      WatchingBetween(capacity, events, states, i, m - 1, n, c);
      assert StepOf(capacity, events, states, m - 1);
    }
  }

  lemma ListsMore(log: seq<Sent>, log': seq<Sent>, p: nat, q: nat)
    requires p <= q <= |log| && log <= log'
    ensures Lists(log'[p..q]) == Lists(log[p..q])
    ensures q < |log'| ==> Lists(log'[p..q + 1]) == Lists(log[p..q]) + [log'[q].list]
  {
    assert log'[p..q] == log[p..q];
    if q < |log'| { assert log'[p..q + 1] == log[p..q] + [log'[q]]; }
  }

  lemma PosInLog(capacity: nat, events: seq<Event>, states: seq<Sys>, n: nat, c: nat)
    requires Run(capacity, events, states) && n < |states| && c < |states[n].conns|
    ensures states[n].conns[c].pos <= |states[n].log|
  {
    RunInv(capacity, events, states, n);
    assert ConnOk(states[n], states[n].conns[c]);
  }

  /** From state `s` to `s'` the connection has been given the `k` lists on the channel from position `p` on. */
  ghost predicate InOrder(s: Sys, s': Sys, c: nat, p: nat, k: nat)
    requires c < |s.conns| && c < |s'.conns|
  {
    && s'.conns[c].pos == p + k <= |s'.log|
    && Given(s'.conns[c]) == Given(s.conns[c]) + Lists(s'.log[p..p + k])
  }

  lemma InOrderStep(capacity: nat, s0: Sys, s: Sys, e: Event, c: nat, p: nat, k: nat)
    requires Enabled(capacity, s, e) && e != At(c, DoLag) && c < |s0.conns| && c < |s.conns|
    requires Watching(s.conns[c].phase) && c < |Next(capacity, s, e).conns| && Watching(Next(capacity, s, e).conns[c].phase)
    requires InOrder(s0, s, c, p, k)
    ensures InOrder(s0, Next(capacity, s, e), c, p, if e == At(c, DoReceive) then k + 1 else k)
  {
    WatchingStep(capacity, s, e, c);
    ListsMore(s.log, Next(capacity, s, e).log, p, p + k);
  }

  /**
   Without a lag, a subscriber is given every list on the channel from its position on, one for each
   time it receives, in order, and nothing else.
   */
  lemma {:induction false} InOrderSince(capacity: nat, events: seq<Event>, states: seq<Sys>, i: nat, n: nat, c: nat)
    requires Run(capacity, events, states) && i <= n < |states| && NoLag(events, c, i, n)
    requires c < |states[i].conns| && Watching(states[i].conns[c].phase)
    requires c < |states[n].conns| && Watching(states[n].conns[c].phase)
    ensures InOrder(states[i], states[n], c, states[i].conns[c].pos, Receives(events, c, i, n))
    decreases n
  {
    PosInLog(capacity, events, states, n, c);
    var p := states[i].conns[c].pos;
    if i == n {
      assert Lists(states[n].log[p..p]) == [];
    } else {
      WatchingBetween(capacity, events, states, i, n - 1, n, c);
      InOrderSince(capacity, events, states, i, n - 1, c);
      assert StepOf(capacity, events, states, n - 1);
      InOrderStep(capacity, states[i], states[n - 1], events[n - 1], c, p, Receives(events, c, i, n - 1));
    }
  }

  /** Before it subscribes a connection is given nothing, and keeps its place on the channel. */
  lemma {:induction false} NothingBefore(capacity: nat, events: seq<Event>, states: seq<Sys>, a: nat, n: nat, c: nat)
    requires Run(capacity, events, states) && a < n < |states|
    requires events[a].Accept? && c == |states[a].conns|
    requires c < |states[n].conns| && Stage(states[n].conns[c].phase) == 0
    ensures states[n].conns[c].delivered == [] && states[n].conns[c].pos == |states[a].log| && Receives(events, c, a, n) == 0
  {
    assert StepOf(capacity, events, states, n - 1);
    assert StepOf(capacity, events, states, a);
    if a < n - 1 {
      StagesAdvance(capacity, events, states, a + 1, n - 1, c);
      StageStep(capacity, states[n - 1], events[n - 1], c);
      NothingBefore(capacity, events, states, a, n - 1, c);
    }
  }

  /** The step in which a subscriber subscribed. */
  lemma {:induction false} SubscribedIn(capacity: nat, events: seq<Event>, states: seq<Sys>, a: nat, n: nat, c: nat) returns (g: nat)
    requires Run(capacity, events, states) && a < n < |states|
    requires events[a].Accept? && c == |states[a].conns|
    requires c < |states[n].conns| && Stage(states[n].conns[c].phase) == 1
    ensures a < g < n && events[g] == At(c, DoSubscribe)
    ensures c < |states[g].conns| && Stage(states[g].conns[c].phase) == 0
    decreases n
  {
    assert StepOf(capacity, events, states, n - 1);
    assert StepOf(capacity, events, states, a);
    g := n - 1;
    if a < n - 1 {
      StagesAdvance(capacity, events, states, a + 1, n - 1, c);
      StageStep(capacity, states[n - 1], events[n - 1], c);
      if Stage(states[n - 1].conns[c].phase) == 1 {
        g := SubscribedIn(capacity, events, states, a, n - 1, c);
      }
    }
  }

  lemma {:induction false} ReceivesSplit(events: seq<Event>, c: nat, i: nat, m: nat, n: nat)
    requires i <= m <= n <= |events|
    ensures Receives(events, c, i, n) == Receives(events, c, i, m) + Receives(events, c, m, n)
  {
    if m < n { ReceivesSplit(events, c, i, m, n - 1); }
  }

  /**
   The whole delivery of a connection that is accepted in step `a` and has not lagged: the list that
   was visible when it subscribed, followed by every list put on the channel since it was accepted, in
   order, as far as it has received.
   */
  lemma DeliveredInOrder(capacity: nat, events: seq<Event>, states: seq<Sys>, a: nat, n: nat, c: nat) returns (g: nat)
    requires Run(capacity, events, states) && a < n < |states| && NoLag(events, c, a, n)
    requires events[a].Accept? && c == |states[a].conns|
    requires c < |states[n].conns| && Watching(states[n].conns[c].phase)
    ensures a < g < n && events[g] == At(c, DoSubscribe)
    ensures var start, k := |states[a].log|, Receives(events, c, a, n);
            && start + k <= |states[n].log|
            && Given(states[n].conns[c]) == [Visible(states[g].st.store)] + Lists(states[n].log[start..start + k])
  {
    g := SubscribedIn(capacity, events, states, a, n, c);
    NothingBefore(capacity, events, states, a, g, c);
    assert StepOf(capacity, events, states, g);
    assert Given(states[g + 1].conns[c]) == [Visible(states[g].st.store)];
    InOrderSince(capacity, events, states, g + 1, n, c);
    ReceivesSplit(events, c, a, g + 1, n);
    assert Receives(events, c, a, g + 1) == Receives(events, c, a, g);
  }

  /**
   When it may receive and when it must lag: with `u` lists on the channel that it has not received, it
   receives if there are any and the channel has kept them all, and lags if it has not.
   */
  lemma ReceivesOrLags(capacity: nat, events: seq<Event>, states: seq<Sys>, a: nat, n: nat, c: nat)
    requires Run(capacity, events, states) && a < n < |states| && NoLag(events, c, a, n)
    requires events[a].Accept? && c == |states[a].conns|
    requires c < |states[n].conns| && states[n].conns[c].phase.Subscribed?
    ensures var u := |states[n].log| - |states[a].log| - Receives(events, c, a, n);
            && (Enabled(capacity, states[n], At(c, DoReceive)) <==> 0 < u <= capacity)
            && (Enabled(capacity, states[n], At(c, DoLag)) <==> capacity < u)
  {
    var g := SubscribedIn(capacity, events, states, a, n, c);
    NothingBefore(capacity, events, states, a, g, c);
    assert StepOf(capacity, events, states, g);
    InOrderSince(capacity, events, states, g + 1, n, c);
    ReceivesSplit(events, c, a, g + 1, n);
    assert Receives(events, c, a, g + 1) == Receives(events, c, a, g);
  }

  /** Connection `c` takes no step in between. */
  ghost predicate Rests(events: seq<Event>, c: nat, i: nat, n: nat)
    requires i <= n <= |events|
  {
    forall m :: i <= m < n ==> !(events[m].At? && events[m].c == c)
  }

  lemma {:induction false} Resting(capacity: nat, events: seq<Event>, states: seq<Sys>, i: nat, n: nat, c: nat)
    requires Run(capacity, events, states) && i <= n < |states| && Rests(events, c, i, n) && c < |states[i].conns|
    ensures c < |states[n].conns| && states[n].conns[c] == states[i].conns[c]
  {
    if i < n {
      Resting(capacity, events, states, i, n - 1, c);
      assert StepOf(capacity, events, states, n - 1);
    }
  }

  /**
   A lag in step `l`: the connection goes on at the oldest list that the channel has kept, having missed
   at least one; and its next step, `m`, gives it the list that is visible then, and nothing else.
   */
  lemma OneFreshListPerLag(capacity: nat, events: seq<Event>, states: seq<Sys>, l: nat, m: nat, c: nat)
    requires Run(capacity, events, states) && l < m < |events| && events[l] == At(c, DoLag)
    requires events[m].At? && events[m].c == c && Rests(events, c, l + 1, m)
    ensures c < |states[l].conns| && c < |states[m + 1].conns| && events[m].a.DoRelist?
    ensures var conn, conn' := states[l].conns[c], states[m + 1].conns[c];
            && conn'.pos == |states[l].log| - capacity > conn.pos
            && Watching(conn'.phase) && Given(conn') == Given(conn) + [Visible(states[m].st.store)]
  {
    assert StepOf(capacity, events, states, l) && StepOf(capacity, events, states, m);
    Resting(capacity, events, states, l + 1, m, c);
    assert states[l].conns[c].delivered + [] == states[l].conns[c].delivered;
  }
}
