/**
 What subscribers get to see. Every operation that changes the visible list is followed by a
 list built after it; and a subscriber that has read everything, once nobody has a list left to
 build or to send, holds the store's visible list, however far it had fallen behind.
 */
module Publication {

  import opened Common
  import opened Store
  import M = MapRuns
  import R = StoreRuns
  import opened Registry

  // ----- changes still to be published

  /** A connection in this phase goes on to build a list. */
  predicate WillPublish(p: Phase) {
    p == Replying(true) || p.Building? || (p.Cleaning? && p.changed)
  }

  ghost predicate Unpublished(s: Sys) {
    s.sweeper.SweepBuilding? || exists c :: 0 <= c < |s.conns| && WillPublish(s.conns[c].phase)
  }

  /** The list has been built and is on the channel or about to be sent. */
  ghost predicate Held(s: Sys, x: Sent) {
    x in s.log || InHand(s, x)
  }

  ghost predicate InHand(s: Sys, x: Sent) {
    s.sweeper == SweepSending(x) || exists c :: 0 <= c < |s.conns| && s.conns[c].phase.Sending? && s.conns[c].phase.sent == x
  }

  /** Nobody has a list to build or to send. */
  ghost predicate Quiet(s: Sys) {
    && s.sweeper.SweepIdle?
    && forall c :: 0 <= c < |s.conns| ==> !WillPublish(s.conns[c].phase) && !s.conns[c].phase.Sending?
  }

  /** The step is not the failure of a reply to a register request that changed the list. */
  ghost predicate Lossless(s: Sys, e: Event) {
    !(e.At? && e.c < |s.conns| && s.conns[e.c].phase == Replying(true) && e.a == DoReply(false))
  }

  /** Unless a change still awaits its list, the last list built shows the store as it is. */
  ghost predicate Current(s: Sys) {
    || Unpublished(s)
    || if s.builds == 0 then Visible(s.st.store) == map[] else Held(s, Sent(Visible(s.st.store), s.builds - 1))
  }

  lemma VisibleStep(capacity: nat, s: Sys, e: Event)
    requires Inv(s) && Enabled(capacity, s, e)
    ensures Visible(Next(capacity, s, e).st.store) == Visible(s.st.store) || Unpublished(Next(capacity, s, e))
  {
    var s' := Next(capacity, s, e);
    R.StepRefines(s.st, StoreEvent(capacity, s, e));
    if Visible(s'.st.store) != Visible(s.st.store) && e.At? {
      assert WillPublish(s'.conns[e.c].phase);
    }
  }

  /** A connection that was going to build a list still is, or has just built it. */
  lemma UnpublishedStep(capacity: nat, s: Sys, e: Event)
    requires Inv(s) && Enabled(capacity, s, e) && Lossless(s, e) && !Builds(e)
    requires Unpublished(s)
    ensures Unpublished(Next(capacity, s, e))
  {
    var s' := Next(capacity, s, e);
    if !s.sweeper.SweepBuilding? {
      var c :| 0 <= c < |s.conns| && WillPublish(s.conns[c].phase);
      assert WillPublish(s'.conns[c].phase);
    }
  }

  lemma HeldStep(capacity: nat, s: Sys, e: Event, x: Sent)
    requires Enabled(capacity, s, e) && Held(s, x)
    ensures Held(Next(capacity, s, e), x)
  {
    var s' := Next(capacity, s, e);
    if x !in s.log && s.sweeper != SweepSending(x) {
      var c :| 0 <= c < |s.conns| && s.conns[c].phase.Sending? && s.conns[c].phase.sent == x;
      if e != At(c, DoSend) {
        assert s'.conns[c] == s.conns[c];
      }
    }
  }

  lemma BuiltIsHeld(capacity: nat, s: Sys, e: Event)
    requires Enabled(capacity, s, e) && Builds(e)
    ensures Held(Next(capacity, s, e), Sent(Visible(s.st.store), s.builds))
    ensures Visible(Next(capacity, s, e).st.store) == Visible(s.st.store)
    ensures !Quiet(Next(capacity, s, e))
  {
    var s' := Next(capacity, s, e);
    if e.At? {
      assert s'.conns[e.c].phase.sent == Sent(Visible(s.st.store), s.builds);
    }
  }

  lemma CurrentStep(capacity: nat, s: Sys, e: Event)
    requires Inv(s) && Current(s) && Enabled(capacity, s, e) && Lossless(s, e)
    ensures Current(Next(capacity, s, e))
  {
    if Builds(e) {
      BuiltIsHeld(capacity, s, e);
    } else if Unpublished(s) {
      UnpublishedStep(capacity, s, e);
    } else {
      VisibleStep(capacity, s, e);
      if s.builds > 0 {
        HeldStep(capacity, s, e, Sent(Visible(s.st.store), s.builds - 1));
      }
    }
  }

  /**
   No reply to a changing register request has failed since the list that the step before `b` built,
   or, if `b` is 0, since the start.
   */
  ghost predicate LosslessSince(events: seq<Event>, states: seq<Sys>, b: nat, n: nat)
    requires |states| == |events| + 1
  {
    && b <= n < |states|
    && (b == 0 || Builds(events[b - 1]))
    && forall i :: b <= i < n ==> Lossless(states[i], events[i])
  }

  lemma {:induction false} AlwaysCurrent(capacity: nat, events: seq<Event>, states: seq<Sys>, b: nat, n: nat)
    requires Run(capacity, events, states) && LosslessSince(events, states, b, n)
    ensures Current(states[n])
    decreases n
  {
    if n > 0 {
      RunInv(capacity, events, states, n - 1);
      assert StepOf(capacity, events, states, n - 1);
      if b == n {
        BuiltIsHeld(capacity, states[n - 1], events[n - 1]);
      } else {
        AlwaysCurrent(capacity, events, states, b, n - 1);
        CurrentStep(capacity, states[n - 1], events[n - 1]);
      }
    }
  }

  // ----- the order of the channel

  /** Step `i` built this list, as number `x.stamp`. */
  ghost predicate BuiltBy(events: seq<Event>, states: seq<Sys>, i: nat, x: Sent)
    requires |states| == |events| + 1
  {
    i < |events| && Builds(events[i]) && x == Sent(Visible(states[i].st.store), states[i].builds)
  }

  lemma HeldBefore(capacity: nat, s: Sys, e: Event, x: Sent)
    requires Enabled(capacity, s, e) && Held(Next(capacity, s, e), x)
    ensures Held(s, x) || (Builds(e) && x == Sent(Visible(s.st.store), s.builds))
  {
    var s' := Next(capacity, s, e);
    if x in s'.log {
      if x !in s.log { assert InHand(s, x); }
    } else if s'.sweeper != SweepSending(x) {
      var c :| 0 <= c < |s'.conns| && s'.conns[c].phase.Sending? && s'.conns[c].phase.sent == x;
      assert e != At(c, DoBuild) ==> InHand(s, x);
    }
  }

  /** Every list on the channel or about to be sent was built in some step. */
  lemma {:induction false} BuildOf(capacity: nat, events: seq<Event>, states: seq<Sys>, n: nat, x: Sent) returns (i: nat)
    requires Run(capacity, events, states) && n < |states| && Held(states[n], x)
    ensures i < n && BuiltBy(events, states, i, x)
    decreases n
  {
    i := n - 1;
    assert StepOf(capacity, events, states, n - 1);
    HeldBefore(capacity, states[n - 1], events[n - 1], x);
    if Held(states[n - 1], x) {
      i := BuildOf(capacity, events, states, n - 1, x);
    }
  }

  /** Every step that builds a list counts it. */
  lemma {:induction false} BuildsCounted(capacity: nat, events: seq<Event>, states: seq<Sys>, i: nat, n: nat)
    requires Run(capacity, events, states) && i < n < |states|
    ensures states[i].builds <= states[n].builds
    ensures Builds(events[i]) ==> states[i].builds < states[n].builds
  {
    assert StepOf(capacity, events, states, n - 1);
    if i < n - 1 {
      BuildsCounted(capacity, events, states, i, n - 1);
    }
  }

  /** Lists with one number are one list. */
  lemma StampsAreUnique(capacity: nat, events: seq<Event>, states: seq<Sys>, n: nat, x: Sent, y: Sent)
    requires Run(capacity, events, states) && n < |states| && Held(states[n], x) && Held(states[n], y)
    ensures x.stamp == y.stamp ==> x == y
    ensures x.stamp < states[n].builds
  {
    var i := BuildOf(capacity, events, states, n, x);
    var j := BuildOf(capacity, events, states, n, y);
    BuildsCounted(capacity, events, states, i, n);
    if i < j { BuildsCounted(capacity, events, states, i, j); }
    if j < i { BuildsCounted(capacity, events, states, j, i); }
  }

  /** The list built last is on the channel or about to be sent. */
  lemma {:induction false} LastBuiltIsHeld(capacity: nat, events: seq<Event>, states: seq<Sys>, n: nat) returns (x: Sent)
    requires Run(capacity, events, states) && n < |states| && states[n].builds > 0
    ensures Held(states[n], x) && x.stamp == states[n].builds - 1
    decreases n
  {
    assert StepOf(capacity, events, states, n - 1);
    if Builds(events[n - 1]) {
      BuiltIsHeld(capacity, states[n - 1], events[n - 1]);
      x := Sent(Visible(states[n - 1].st.store), states[n - 1].builds);
    } else {
      x := LastBuiltIsHeld(capacity, events, states, n - 1);
      HeldStep(capacity, states[n - 1], events[n - 1], x);
    }
  }

  /** Lists reach the channel in the order in which they were built. */
  ghost predicate InOrder(capacity: nat, s: Sys, e: Event)
    requires Enabled(capacity, s, e)
  {
    Emits(capacity, s, e).Some? ==> forall i :: 0 <= i < |s.log| ==> s.log[i].stamp < Emits(capacity, s, e).value.stamp
  }

  ghost predicate Increasing(log: seq<Sent>) {
    forall i, j :: 0 <= i < j < |log| ==> log[i].stamp < log[j].stamp
  }

  ghost predicate OrderedAt(capacity: nat, events: seq<Event>, states: seq<Sys>, i: nat)
    requires i < |events| && |states| == |events| + 1
  {
    Enabled(capacity, states[i], events[i]) && InOrder(capacity, states[i], events[i])
  }

  lemma {:induction false} AlwaysIncreasing(capacity: nat, events: seq<Event>, states: seq<Sys>, n: nat)
    requires Run(capacity, events, states) && n < |states|
    requires forall i :: 0 <= i < n ==> OrderedAt(capacity, events, states, i)
    ensures Increasing(states[n].log)
  {
    if n > 0 {
      AlwaysIncreasing(capacity, events, states, n - 1);
      assert StepOf(capacity, events, states, n - 1);
      assert OrderedAt(capacity, events, states, n - 1);
    }
  }

  /** The list sent last is the one built last. */
  ghost predicate LastSentIsLastBuilt(s: Sys) {
    s.log != [] ==> s.log[|s.log| - 1].stamp == s.builds - 1
  }

  /** That is so, as soon as nothing is left to send, if lists are sent in the order they were built. */
  lemma OrderKeepsLast(capacity: nat, events: seq<Event>, states: seq<Sys>, n: nat)
    requires Run(capacity, events, states) && n < |states| && Quiet(states[n])
    requires forall i :: 0 <= i < n ==> OrderedAt(capacity, events, states, i)
    ensures LastSentIsLastBuilt(states[n])
  {
    var s := states[n];
    if s.log != [] {
      var last := s.log[|s.log| - 1];
      assert Held(s, last);
      StampsAreUnique(capacity, events, states, n, last, last);
      var x := LastBuiltIsHeld(capacity, events, states, n);
      assert !InHand(s, x);
      var i :| 0 <= i < |s.log| && s.log[i] == x;
      AlwaysIncreasing(capacity, events, states, n);
    }
  }

  // ----- one subscriber

  /** The connection has not subscribed yet. */
  predicate BeforeSubscribe(p: Phase) {
    p.Serving? || p.Replying? || p.Beating? || p.BeatReplying? || p.Snapshotting?
    || (p.Building? && !p.cleanup) || (p.Sending? && !p.cleanup)
  }

  /** The list the subscriber was sent last or is being sent. */
  function Latest(conn: Conn): Option<ServiceList> {
    if conn.phase.Snapshotting? || conn.phase.Notifying? then Some(conn.phase.list)
    else if conn.phase.Subscribed? && conn.delivered != [] then Some(conn.delivered[|conn.delivered| - 1])
    else None
  }

  /** A subscriber that has read the whole channel was last sent the last list on it. */
  ghost predicate Tracking(s: Sys, conn: Conn) {
    && conn.joined <= conn.pos <= |s.log|
    && (BeforeSubscribe(conn.phase) ==> conn.pos == conn.joined)
    && (conn.phase.Subscribed? ==> conn.delivered != [])
    && (conn.phase.Lagging? ==> conn.joined < conn.pos < |s.log|)
    && (Latest(conn).Some? && conn.joined < conn.pos == |s.log| ==> Latest(conn).value == s.log[conn.pos - 1].list)
  }

  lemma TrackingStep(capacity: nat, s: Sys, e: Event, c: nat)
    requires 1 <= capacity
    requires Enabled(capacity, s, e) && c < |s.conns| && Tracking(s, s.conns[c])
    ensures c < |Next(capacity, s, e).conns| && Tracking(Next(capacity, s, e), Next(capacity, s, e).conns[c])
  {
    var s' := Next(capacity, s, e);
    if e.At? && e.c == c {
      assert s'.conns[c] == ConnAfter(capacity, s, s.conns[c], e.a);
      assert |s'.log| != |s.log| ==> e.a.DoSend? && Latest(s'.conns[c]) == None;
    } else {
      assert s'.conns[c] == s.conns[c];
    }
  }

  lemma {:induction false} AlwaysTracking(capacity: nat, events: seq<Event>, states: seq<Sys>, n: nat, c: nat)
    requires 1 <= capacity
    requires Run(capacity, events, states) && n < |states| && c < |states[n].conns|
    ensures Tracking(states[n], states[n].conns[c])
  {
    if n > 0 {
      assert StepOf(capacity, events, states, n - 1);
      if c < |states[n - 1].conns| {
        AlwaysTracking(capacity, events, states, n - 1, c);
        TrackingStep(capacity, states[n - 1], events[n - 1], c);
      }
    }
  }

  /** One for which nothing has been sent yet has the visible list from its snapshot. */
  ghost predicate Following(s: Sys, conn: Conn) {
    Latest(conn).Some? && conn.joined == |s.log| && Quiet(s) ==> Latest(conn).value == Visible(s.st.store)
  }

  lemma QuietStep(capacity: nat, s: Sys, e: Event)
    requires Inv(s) && Enabled(capacity, s, e) && Lossless(s, e)
    requires Quiet(Next(capacity, s, e)) && |Next(capacity, s, e).log| == |s.log|
    ensures Quiet(s) && Visible(Next(capacity, s, e).st.store) == Visible(s.st.store)
  {
    var s' := Next(capacity, s, e);
    assert e.At? ==> s'.conns[e.c] == ConnAfter(capacity, s, s.conns[e.c], e.a);
    assert !Builds(e);
    VisibleStep(capacity, s, e);
    assert Unpublished(s) ==> Unpublished(s') by {
      if Unpublished(s) { UnpublishedStep(capacity, s, e); }
    }
    assert forall c :: 0 <= c < |s.conns| && s.conns[c].phase.Sending? ==> s'.conns[c] == s.conns[c];
  }

  lemma FollowingStep(capacity: nat, s: Sys, e: Event, c: nat)
    requires Inv(s) && Enabled(capacity, s, e) && Lossless(s, e)
    requires c < |s.conns| && Tracking(s, s.conns[c]) && Following(s, s.conns[c])
    ensures Following(Next(capacity, s, e), Next(capacity, s, e).conns[c])
  {
    var s' := Next(capacity, s, e);
    if Quiet(s') && |s'.log| == |s.log| {
      QuietStep(capacity, s, e);
    }
  }

  lemma {:induction false} AlwaysFollowing(capacity: nat, events: seq<Event>, states: seq<Sys>, b: nat, n: nat, c: nat)
    requires 1 <= capacity
    requires Run(capacity, events, states) && LosslessSince(events, states, b, n) && c < |states[n].conns|
    ensures Following(states[n], states[n].conns[c])
    decreases n
  {
    if n > 0 {
      var s, e := states[n - 1], events[n - 1];
      assert StepOf(capacity, events, states, n - 1);
      if b == n {
        BuiltIsHeld(capacity, s, e);
      } else if c < |s.conns| {
        RunInv(capacity, events, states, n - 1);
        AlwaysTracking(capacity, events, states, n - 1, c);
        AlwaysFollowing(capacity, events, states, b, n - 1, c);
        FollowingStep(capacity, s, e, c);
      }
    }
  }

  lemma LastListIsCurrent(capacity: nat, events: seq<Event>, states: seq<Sys>, n: nat)
    requires Run(capacity, events, states) && n < |states|
    requires Current(states[n]) && Quiet(states[n]) && LastSentIsLastBuilt(states[n]) && states[n].log != []
    ensures states[n].log[|states[n].log| - 1].list == Visible(states[n].st.store)
  {
    var s := states[n];
    assert !Unpublished(s);
    var last, x := s.log[|s.log| - 1], Sent(Visible(s.st.store), s.builds - 1);
    assert Held(s, last);
    StampsAreUnique(capacity, events, states, n, last, last);
    StampsAreUnique(capacity, events, states, n, last, x);
  }

  /** A live subscriber that has read everything, with nothing left to build or to send. */
  ghost predicate Settled(s: Sys, c: nat) {
    c < |s.conns| && s.conns[c].phase.Subscribed? && s.conns[c].pos == |s.log| && Quiet(s)
  }

  /** The list delivered last is the store's visible list. */
  ghost predicate Converged(s: Sys, c: nat)
    requires c < |s.conns|
  {
    var seen := s.conns[c].delivered;
    seen != [] && seen[|seen| - 1] == Visible(s.st.store)
  }

  /**
   Convergence. For every channel capacity of at least one and every amount of lag, whenever nobody
   has a list to build or to send: if the list sent last is the one built last and no reply to a
   changing register request has failed since that was built, every live subscriber that has read
   the whole channel was last sent the store's visible list. Earlier replies may have failed and
   earlier lists may have changed places: the next publication repairs both.
   */
  lemma SubscribersConverge(capacity: nat, events: seq<Event>, states: seq<Sys>, b: nat, n: nat, c: nat)
    requires 1 <= capacity
    requires Run(capacity, events, states) && LosslessSince(events, states, b, n)
    requires LastSentIsLastBuilt(states[n])
    requires Settled(states[n], c)
    ensures Converged(states[n], c)
  {
    AlwaysTracking(capacity, events, states, n, c);
    AlwaysFollowing(capacity, events, states, b, n, c);
    if states[n].log != [] {
      AlwaysCurrent(capacity, events, states, b, n);
      LastListIsCurrent(capacity, events, states, n);
    }
  }

  /** The case in which nothing ever went wrong: sends in order, and no failed reply. */
  lemma OrderedRunsConverge(capacity: nat, events: seq<Event>, states: seq<Sys>, n: nat, c: nat)
    requires 1 <= capacity
    requires Run(capacity, events, states) && n < |states|
    requires forall i :: 0 <= i < n ==> Lossless(states[i], events[i])
    requires forall i :: 0 <= i < n ==> OrderedAt(capacity, events, states, i)
    requires Settled(states[n], c)
    ensures Converged(states[n], c)
  {
    OrderKeepsLast(capacity, events, states, n);
    SubscribersConverge(capacity, events, states, 0, n, c);
  }

  // ----- publication without any assumption on the order

  lemma {:induction false} StillUnpublished(capacity: nat, events: seq<Event>, states: seq<Sys>, j: nat, n: nat)
    requires Run(capacity, events, states) && j <= n < |states|
    requires forall i :: j <= i < n ==> Lossless(states[i], events[i]) && !Builds(events[i])
    requires Unpublished(states[j])
    ensures Unpublished(states[n])
  {
    if j < n {
      StillUnpublished(capacity, events, states, j, n - 1);
      RunInv(capacity, events, states, n - 1);
      assert StepOf(capacity, events, states, n - 1);
      UnpublishedStep(capacity, states[n - 1], events[n - 1]);
    }
  }

  /** The last step in `j..n` that builds a list, if there is one. */
  lemma {:induction false} LastBuild(events: seq<Event>, j: nat, n: nat) returns (i: nat)
    requires j <= n <= |events|
    ensures j <= i <= n
    ensures i < n ==> Builds(events[i])
    ensures i < n ==> forall m :: i < m < n ==> !Builds(events[m])
    ensures i == n ==> forall m :: j <= m < n ==> !Builds(events[m])
  {
    if j == n {
      i := n;
    } else if Builds(events[n - 1]) {
      i := n - 1;
    } else {
      i := LastBuild(events, j, n - 1);
      if i == n - 1 { i := n; }
    }
  }

  lemma {:induction false} BuildsKept(capacity: nat, events: seq<Event>, states: seq<Sys>, j: nat, n: nat)
    requires Run(capacity, events, states) && j <= n < |states|
    requires forall i :: j <= i < n ==> !Builds(events[i])
    ensures states[n].builds == states[j].builds
  {
    if j < n {
      BuildsKept(capacity, events, states, j, n - 1);
      assert StepOf(capacity, events, states, n - 1);
    }
  }

  /** After a change, some step builds a list before nobody has one left to build. */
  lemma ChangeIsBuilt(capacity: nat, events: seq<Event>, states: seq<Sys>, n: nat, j: nat) returns (i: nat)
    requires Run(capacity, events, states) && j < n < |states|
    requires forall m :: j < m < n ==> Lossless(states[m], events[m])
    requires !Unpublished(states[n])
    requires Visible(states[j].st.store) != Visible(states[j + 1].st.store)
    ensures j < i < n && Builds(events[i]) && forall m :: i < m < n ==> !Builds(events[m])
  {
    assert Unpublished(states[j + 1]) by {
      RunInv(capacity, events, states, j);
      assert StepOf(capacity, events, states, j);
      VisibleStep(capacity, states[j], events[j]);
    }
    i := LastBuild(events, j + 1, n);
    if i == n {
      StillUnpublished(capacity, events, states, j + 1, n);
    }
  }

  /**
   Nothing goes unpublished. Let step `j` change the visible list, and let no reply to a changing
   register request fail after it. Once nobody has a list to build or to send, some step after `j`
   built the list which is now on the channel and equals the visible list.
   */
  lemma ChangesArePublished(capacity: nat, events: seq<Event>, states: seq<Sys>, n: nat, j: nat)
    returns (i: nat)
    requires Run(capacity, events, states) && j < n < |states|
    requires forall m :: j < m < n ==> Lossless(states[m], events[m])
    requires Quiet(states[n])
    requires Visible(states[j].st.store) != Visible(states[j + 1].st.store)
    ensures j < i < n && Builds(events[i])
    ensures Sent(Visible(states[n].st.store), states[i].builds) in states[n].log
  {
    assert !Unpublished(states[n]);
    i := ChangeIsBuilt(capacity, events, states, n, j);
    assert states[n].builds == states[i].builds + 1 by {
      assert StepOf(capacity, events, states, i);
      BuildsKept(capacity, events, states, i + 1, n);
    }
    AlwaysCurrent(capacity, events, states, i + 1, n);
    assert !InHand(states[n], Sent(Visible(states[n].st.store), states[n].builds - 1));
  }

  // ----- nothing is published without a change

  /** A connection that is going to build a list has changed the visible list, and has built none since. */
  lemma {:induction false} ChangeBehind(capacity: nat, events: seq<Event>, states: seq<Sys>, n: nat, c: nat) returns (j: nat)
    requires Run(capacity, events, states) && n < |states| && c < |states[n].conns| && WillPublish(states[n].conns[c].phase)
    ensures j < n && events[j].At? && events[j].c == c
    ensures Visible(states[j].st.store) != Visible(states[j + 1].st.store)
    ensures forall m :: j < m < n ==> events[m] != At(c, DoBuild)
    decreases n
  {
    assert StepOf(capacity, events, states, n - 1);
    RunInv(capacity, events, states, n - 1);
    WillPublishStep(capacity, states[n - 1], events[n - 1], c);
    j := n - 1;
    if c < |states[n - 1].conns| && WillPublish(states[n - 1].conns[c].phase) {
      j := ChangeBehind(capacity, events, states, n - 1, c);
    }
  }

  lemma WillPublishStep(capacity: nat, s: Sys, e: Event, c: nat)
    requires Inv(s) && Enabled(capacity, s, e)
    requires c < |Next(capacity, s, e).conns| && WillPublish(Next(capacity, s, e).conns[c].phase)
    ensures if c < |s.conns| && WillPublish(s.conns[c].phase) then e != At(c, DoBuild)
            else e.At? && e.c == c && Visible(s.st.store) != Visible(Next(capacity, s, e).st.store)
  {
    assert StoreEvent(capacity, s, e) == M.Idle || Reported(capacity, s, e) by {
      R.StepRefines(s.st, StoreEvent(capacity, s, e));
    }
  }

  /** The store's report of a step, for steps other than heartbeats, is whether the visible list changes. */
  ghost predicate Reported(capacity: nat, s: Sys, e: Event)
    requires Enabled(capacity, s, e)
  {
    var ev := StoreEvent(capacity, s, e);
    !ev.DoHeartbeatWrite? ==>
      (R.Reports(s.st, ev) <==> Visible(Next(capacity, s, e).st.store) != Visible(s.st.store))
  }

  lemma {:induction false} SweepBehind(capacity: nat, events: seq<Event>, states: seq<Sys>, n: nat) returns (j: nat)
    requires Run(capacity, events, states) && n < |states| && states[n].sweeper.SweepBuilding?
    ensures j < n && events[j].SweepStart? && Visible(states[j].st.store) != Visible(states[j + 1].st.store)
    ensures forall m :: j < m < n ==> !events[m].SweepBuild?
    decreases n
  {
    assert StepOf(capacity, events, states, n - 1);
    j := n - 1;
    if states[n - 1].sweeper.SweepBuilding? {
      j := SweepBehind(capacity, events, states, n - 1);
    } else {
      RunInv(capacity, events, states, n - 1);
      R.StepRefines(states[n - 1].st, StoreEvent(capacity, states[n - 1], events[n - 1]));
    }
  }

  /**
   Nothing is published without a change: behind every step that builds a list there is an earlier step
   of the same task that changed the visible list, and that task has built no list in between.
   */
  lemma BuildsFollowChanges(capacity: nat, events: seq<Event>, states: seq<Sys>, i: nat) returns (j: nat)
    requires Run(capacity, events, states) && i < |events| && Builds(events[i])
    ensures j < i && Visible(states[j].st.store) != Visible(states[j + 1].st.store)
    ensures forall m :: j < m < i ==> events[m] != events[i]
    ensures if events[i].At? then events[j].At? && events[j].c == events[i].c else events[j].SweepStart?
  {
    assert StepOf(capacity, events, states, i);
    if events[i].At? {
      j := ChangeBehind(capacity, events, states, i, events[i].c);
    } else {
      j := SweepBehind(capacity, events, states, i);
    }
  }

  // ----- every list is a list of the store

  ghost predicate SeenBy(states: seq<Sys>, n: nat, list: ServiceList) {
    exists j :: 0 <= j <= n && j < |states| && list == Visible(states[j].st.store)
  }

  /** The list is somewhere between the store and a subscriber. */
  ghost predicate Circulates(s: Sys, list: ServiceList) {
    || (exists x :: Held(s, x) && x.list == list)
    || (exists c :: 0 <= c < |s.conns| && Knows(s.conns[c], list))
  }

  predicate Knows(conn: Conn, list: ServiceList) {
    list in conn.delivered || Latest(conn) == Some(list)
  }

  lemma KnowsStep(capacity: nat, s: Sys, conn: Conn, a: Action, list: ServiceList)
    requires CanDo(capacity, |s.log|, conn, a)
    requires Knows(ConnAfter(capacity, s, conn, a), list)
    ensures Knows(conn, list) || list == Visible(s.st.store)
            || (conn.pos < |s.log| && Held(s, s.log[conn.pos]) && s.log[conn.pos].list == list)
  {}

  lemma CirculatesStep(capacity: nat, s: Sys, e: Event, list: ServiceList)
    requires Enabled(capacity, s, e)
    requires Circulates(Next(capacity, s, e), list)
    ensures Circulates(s, list) || list == Visible(s.st.store)
  {
    var s' := Next(capacity, s, e);
    if x :| Held(s', x) && x.list == list {
      HeldBefore(capacity, s, e, x);
    } else {
      var c :| 0 <= c < |s'.conns| && Knows(s'.conns[c], list);
      if e.At? && e.c == c {
        KnowsStep(capacity, s, s.conns[c], e.a, list);
      } else {
        assert c < |s.conns| && Knows(s.conns[c], list);
      }
    }
  }

  /** Every list on the channel, being sent or delivered was the visible list of an earlier state. */
  lemma {:induction false} ListsAreGenuine(capacity: nat, events: seq<Event>, states: seq<Sys>, n: nat, list: ServiceList)
    requires Run(capacity, events, states) && n < |states|
    requires Circulates(states[n], list)
    ensures SeenBy(states, n, list)
  {
    if n > 0 {
      assert StepOf(capacity, events, states, n - 1);
      CirculatesStep(capacity, states[n - 1], events[n - 1], list);
      if Circulates(states[n - 1], list) {
        ListsAreGenuine(capacity, events, states, n - 1, list);
      }
    }
  }

  // ----- when exactly a subscriber converges

  /** A subscriber that has been sent nothing but its snapshot holds the visible list of the step that took it. */
  lemma {:induction false} SnapshotOf(capacity: nat, events: seq<Event>, states: seq<Sys>, n: nat, c: nat) returns (g: nat)
    requires 1 <= capacity
    requires Run(capacity, events, states) && n < |states| && c < |states[n].conns|
    requires states[n].conns[c].pos == states[n].conns[c].joined && Latest(states[n].conns[c]).Some?
    ensures g < n && events[g] == At(c, DoSubscribe) && Latest(states[n].conns[c]).value == Visible(states[g].st.store)
    decreases n
  {
    g := n - 1;
    assert StepOf(capacity, events, states, n - 1);
    if events[n - 1] != At(c, DoSubscribe) {
      AlwaysTracking(capacity, events, states, n - 1, c);
      g := SnapshotOf(capacity, events, states, n - 1, c);
    }
  }

  /** Step `g` made the list that is the last one for connection `c`: the last on the channel, or its snapshot. */
  ghost predicate Source(events: seq<Event>, states: seq<Sys>, n: nat, c: nat, g: nat)
    requires |states| == |events| + 1 && n < |states| && c < |states[n].conns| && g < n
  {
    var s := states[n];
    if s.conns[c].joined < |s.log| then BuiltBy(events, states, g, s.log[|s.log| - 1])
    else events[g] == At(c, DoSubscribe)
  }

  /**
   Without any assumption on order or replies: a live subscriber that has read everything, once nobody
   has a list to build or to send, holds the visible list if and only if that list is the same now as
   in the step that built the last list sent since the connection was accepted, or took its snapshot
   if none was.
   */
  lemma ConvergedIff(capacity: nat, events: seq<Event>, states: seq<Sys>, n: nat, c: nat) returns (g: nat)
    requires 1 <= capacity
    requires Run(capacity, events, states) && n < |states| && Settled(states[n], c)
    ensures g < n && Source(events, states, n, c, g)
    ensures Converged(states[n], c) <==> Visible(states[g].st.store) == Visible(states[n].st.store)
  {
    var s := states[n];
    AlwaysTracking(capacity, events, states, n, c);
    if s.conns[c].joined < |s.log| {
      assert Held(s, s.log[|s.log| - 1]);
      g := BuildOf(capacity, events, states, n, s.log[|s.log| - 1]);
    } else {
      g := SnapshotOf(capacity, events, states, n, c);
    }
  }

  /**
   So a subscriber is left with an outdated list for one of two reasons: the list sent last is not
   the one built last, or the reply to a changing register request failed in some step `i` and no
   list has been built after it.
   */
  lemma OutdatedBecause(capacity: nat, events: seq<Event>, states: seq<Sys>, n: nat, c: nat) returns (i: nat)
    requires 1 <= capacity
    requires Run(capacity, events, states) && n < |states| && Settled(states[n], c) && !Converged(states[n], c)
    ensures || !LastSentIsLastBuilt(states[n])
            || (i < n && !Lossless(states[i], events[i]) && forall m :: i <= m < n ==> !Builds(events[m]))
  {
    var last := LastBuild(events, 0, n);
    var b := if last == n then 0 else last + 1;
    if j :| b <= j < n && !Lossless(states[j], events[j]) {
      i := j;
    } else {
      i := n;
      if LastSentIsLastBuilt(states[n]) { SubscribersConverge(capacity, events, states, b, n, c); }
    }
  }

  // ----- both assumptions are needed, for every capacity

  /** A run that ends in `s`, with no failed reply to a changing register request. */
  ghost predicate LosslessRun(capacity: nat, events: seq<Event>, states: seq<Sys>, s: Sys) {
    && RunTo(capacity, events, states, s)
    && forall i :: 0 <= i < |events| ==> Lossless(states[i], events[i])
  }

  lemma LosslessStep(capacity: nat, events: seq<Event>, states: seq<Sys>, s: Sys, e: Event)
    returns (events': seq<Event>, states': seq<Sys>)
    requires LosslessRun(capacity, events, states, s) && Enabled(capacity, s, e) && Lossless(s, e)
    ensures LosslessRun(capacity, events', states', Next(capacity, s, e))
  {
    events', states' := OneStepMore(capacity, events, states, s, e);
  }

  /** The state once connection `c` has registered a new key at its address and built the list. */
  ghost function Announced(s: Sys, c: nat, service: string): Sys
    requires c < |s.conns|
  {
    var k := Key(s.conns[c].peer, 1);
    var store := Register(s.st.store, k, service, 0);
    var conn := s.conns[c].(registered := s.conns[c].registered + [k], phase := Sending(Sent(Visible(store), s.builds), false));
    s.(st := s.st.(store := store), conns := s.conns[c := conn], builds := s.builds + 1)
  }

  lemma Announce(capacity: nat, events: seq<Event>, states: seq<Sys>, s: Sys, c: nat, service: string)
    returns (events': seq<Event>, states': seq<Sys>)
    requires LosslessRun(capacity, events, states, s) && c < |s.conns| && s.conns[c].phase.Serving?
    requires RegisterChanges(s.st.store, Key(s.conns[c].peer, 1), service)
    ensures LosslessRun(capacity, events', states', Announced(s, c, service))
  {
    var s1 := Next(capacity, s, At(c, DoRegister(1, service, 0)));
    var s2 := Next(capacity, s1, At(c, DoReply(true)));
    var s3 := Next(capacity, s2, At(c, DoBuild));
    events', states' := LosslessStep(capacity, events, states, s, At(c, DoRegister(1, service, 0)));
    events', states' := LosslessStep(capacity, events', states', s1, At(c, DoReply(true)));
    events', states' := LosslessStep(capacity, events', states', s2, At(c, DoBuild));
    assert s3.conns == Announced(s, c, service).conns;
  }

  /** The state once connection `c` has sent its list, and the subscriber `d` has been sent it in turn. */
  ghost function PassedOn(s: Sys, c: nat, d: nat): Sys
    requires c < |s.conns| && d < |s.conns| && s.conns[c].phase.Sending?
  {
    var x := s.conns[c].phase.sent;
    var conn := s.conns[d].(pos := s.conns[d].pos + 1, delivered := s.conns[d].delivered + [x.list]);
    s.(conns := s.conns[c := s.conns[c].(phase := Serving)][d := conn], log := s.log + [x])
  }

  lemma PassOn(capacity: nat, events: seq<Event>, states: seq<Sys>, s: Sys, c: nat, d: nat)
    returns (events': seq<Event>, states': seq<Sys>)
    requires 1 <= capacity && LosslessRun(capacity, events, states, s) && c < |s.conns| && d < |s.conns| && c != d
    requires s.conns[c].phase.Sending? && !s.conns[c].phase.cleanup
    requires s.conns[d].phase.Subscribed? && s.conns[d].pos == |s.log|
    ensures LosslessRun(capacity, events', states', PassedOn(s, c, d))
  {
    var s1 := Next(capacity, s, At(c, DoSend));
    events', states' := LosslessStep(capacity, events, states, s, At(c, DoSend));
    var s2 := Next(capacity, s1, At(d, DoReceive));
    events', states' := LosslessStep(capacity, events', states', s1, At(d, DoReceive));
    var s3 := Next(capacity, s2, At(d, DoReply(true)));
    events', states' := LosslessStep(capacity, events', states', s2, At(d, DoReply(true)));
    assert s3.conns == PassedOn(s, c, d).conns;
  }

  /** Two servers, "a" and "b", and a client have been accepted. */
  lemma ThreeAccepted(capacity: nat) returns (events: seq<Event>, states: seq<Sys>, s: Sys)
    ensures LosslessRun(capacity, events, states, s)
    ensures s == Sys(R.Init, [Fresh("a"), Fresh("b"), Fresh("c")], SweepIdle, [], 0)
  {
    var s1 := Next(capacity, Init, Accept("a"));
    var s2 := Next(capacity, s1, Accept("b"));
    s := Next(capacity, s2, Accept("c"));
    events, states := [], [Init];
    events, states := LosslessStep(capacity, events, states, Init, Accept("a"));
    events, states := LosslessStep(capacity, events, states, s1, Accept("b"));
    events, states := LosslessStep(capacity, events, states, s2, Accept("c"));
  }

  function Fresh(peer: string): Conn {
    Conn(peer, [], 0, 0, [], Serving)
  }

  /** The client has subscribed, and has been sent the empty list. */
  lemma TwoServers(capacity: nat) returns (events: seq<Event>, states: seq<Sys>, s: Sys)
    ensures LosslessRun(capacity, events, states, s)
    ensures s.st == R.Init && s.sweeper.SweepIdle? && s.log == [] && s.builds == 0
    ensures |s.conns| == 3 && s.conns[0] == Fresh("a") && s.conns[1] == Fresh("b")
    ensures var conn := s.conns[2];
            conn.phase.Subscribed? && conn.joined == conn.pos == 0 && |conn.delivered| == 1 && conn.delivered[0] == Visible(Empty)
  {
    var s0;
    events, states, s0 := ThreeAccepted(capacity);
    var s1 := Next(capacity, s0, At(2, DoSubscribe));
    s := Next(capacity, s1, At(2, DoReply(true)));
    events, states := LosslessStep(capacity, events, states, s0, At(2, DoSubscribe));
    events, states := LosslessStep(capacity, events, states, s1, At(2, DoReply(true)));
  }

  /** The first server registers and builds its list, then the second one does. */
  lemma BothAnnounced(capacity: nat) returns (events: seq<Event>, states: seq<Sys>, s: Sys, store: State)
    ensures LosslessRun(capacity, events, states, s)
    ensures |s.conns| == 3 && s.sweeper.SweepIdle? && s.log == [] && s.builds == 2
    ensures s.conns[0].phase == Sending(Sent(Visible(store), 0), false)
    ensures s.conns[1].phase == Sending(Sent(Visible(s.st.store), 1), false)
    ensures s.conns[2].phase.Subscribed? && s.conns[2].pos == 0
    ensures Visible(s.st.store) != Visible(store)
  {
    events, states, s := TwoServers(capacity);
    store := Register(Empty, Key("a", 1), "s", 0);
    assert RegisterChanges(store, Key("b", 1), "s");
    assert Visible(Register(store, Key("b", 1), "s", 0)) != Visible(store) by {
      R.EmptyRefines();
      RegisterRefines(Empty, Key("a", 1), "s", 0);
      RegisterRefines(store, Key("b", 1), "s", 0);
    }
    events, states := Announce(capacity, events, states, s, 0, "s");
    s := Announced(s, 0, "s");
    events, states := Announce(capacity, events, states, s, 1, "s");
    s := Announced(s, 1, "s");
  }

  /**
   Without the order assumption convergence fails: a run in which no reply failed, with a live
   subscriber that has read everything and holds an outdated list, though nothing is left to be sent.
   */
  lemma OrderIsNeeded(capacity: nat) returns (events: seq<Event>, states: seq<Sys>, last: Sys)
    requires 1 <= capacity
    ensures LosslessRun(capacity, events, states, last)
    ensures Settled(last, 2) && !Converged(last, 2) && !LastSentIsLastBuilt(last)
  {
    var s, store;
    events, states, s, store := BothAnnounced(capacity);
    events, states := PassOn(capacity, events, states, s, 1, 2);
    var s1 := PassedOn(s, 1, 2);
    events, states := PassOn(capacity, events, states, s1, 0, 2);
    last := PassedOn(s1, 0, 2);
  }

  /**
   Without the assumption on replies it fails too: a run whose last step is the failure of the reply
   to a changing register request, with a live subscriber that has read everything there is and
   does not hold the change, which is on no list.
   */
  lemma RepliesAreNeeded(capacity: nat) returns (events: seq<Event>, states: seq<Sys>, s: Sys)
    ensures LosslessRun(capacity, events, states, s)
    ensures Enabled(capacity, s, At(0, DoReply(false))) && !Lossless(s, At(0, DoReply(false)))
    ensures var last := Next(capacity, s, At(0, DoReply(false)));
            Settled(last, 2) && !Converged(last, 2) && LastSentIsLastBuilt(last) && last.builds == 0
  {
    events, states, s := FirstRegistered(capacity);
  }

  lemma FirstRegistered(capacity: nat) returns (events: seq<Event>, states: seq<Sys>, s: Sys)
    ensures LosslessRun(capacity, events, states, s)
    ensures s.sweeper.SweepIdle? && s.log == [] && s.builds == 0 && s.st.pending == map[]
    ensures |s.conns| == 3 && s.conns[0].phase == Replying(true) && s.conns[1].phase == Serving
    ensures var conn := s.conns[2];
            conn.phase.Subscribed? && conn.pos == 0 && |conn.delivered| == 1 && conn.delivered[0] != Visible(s.st.store)
  {
    events, states, s := TwoServers(capacity);
    assert Visible(Register(Empty, Key("a", 1), "s", 0)) != Visible(Empty) by {
      R.EmptyRefines();
      RegisterRefines(Empty, Key("a", 1), "s", 0);
    }
    var e := At(0, DoRegister(1, "s", 0));
    events, states := LosslessStep(capacity, events, states, s, e);
    s := Next(capacity, s, e);
  }
}
