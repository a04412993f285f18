/**
 Convergence is always within reach: from every reachable state of the registry, whatever is half done
 can be brought to its end, and then a subscriber can read the channel to its end.
 */
module Settling {

  import opened Common
  import opened Store
  import M = MapRuns
  import opened Registry
  import opened Lifecycle
  import opened Publication

  /** What a connection in the middle of something does next, if its writes succeed. */
  function OwnStep(conn: Conn): Option<Action> {
    match conn.phase
    case Beating(_) => Some(DoHeartbeatLists(0))
    case Lagging => Some(DoRelist)
    case Cleaning(rest, _) => Some(if rest == [] then DoCleaned else DoDeregister)
    case Building(_) => Some(DoBuild)
    case Sending(_, _) => Some(DoSend)
    case Serving => None
    case Subscribed => None
    case Closed => None
    case Aborted => None
    case _ => Some(DoReply(true))
  }

  /** The number of its own steps until a connection waits for a message, or is over. */
  function Work(p: Phase): nat {
    match p
    case Replying(_) => 3
    case Beating(_) => 2
    case BeatReplying(_) => 1
    case Snapshotting(_) => 1
    case Lagging => 2
    case Notifying(_) => 1
    case Cleaning(rest, _) => |rest| + 3
    case Building(_) => 2
    case Sending(_, _) => 1
    case _ => 0
  }

  function ConnsWork(conns: seq<Conn>): nat {
    if conns == [] then 0 else ConnsWork(conns[..|conns| - 1]) + Work(conns[|conns| - 1].phase)
  }

  function SweeperWork(sw: Sweeper): nat {
    match sw case SweepIdle => 0 case SweepBuilding => 2 case SweepSending(_) => 1
  }

  lemma {:induction false} OneLess(conns: seq<Conn>, c: nat, conn: Conn)
    requires c < |conns| && Work(conn.phase) < Work(conns[c].phase)
    ensures ConnsWork(conns[c := conn]) < ConnsWork(conns)
  {
    var n := |conns| - 1;
    if c == n {
      assert conns[c := conn][..n] == conns[..n];
    } else {
      assert conns[c := conn][..n] == conns[..n][c := conn];
      OneLess(conns[..n], c, conn);
    }
  }

  lemma {:induction false} SomeWork(conns: seq<Conn>) returns (c: nat)
    requires ConnsWork(conns) > 0
    ensures c < |conns| && Work(conns[c].phase) > 0
  {
    var n := |conns| - 1;
    if Work(conns[n].phase) > 0 {
      c := n;
    } else {
      c := SomeWork(conns[..n]);
    }
  }

  lemma {:induction false} NoWork(conns: seq<Conn>, c: nat)
    requires ConnsWork(conns) == 0 && c < |conns|
    ensures Work(conns[c].phase) == 0
  {
    if c < |conns| - 1 { NoWork(conns[..|conns| - 1], c); }
  }

  /** A connection with work left can always do it. */
  lemma CanWork(capacity: nat, s: Sys, c: nat)
    requires Inv(s) && c < |s.conns| && Work(s.conns[c].phase) > 0
    ensures OwnStep(s.conns[c]).Some? && Enabled(capacity, s, At(c, OwnStep(s.conns[c]).value))
    ensures var s' := Next(capacity, s, At(c, OwnStep(s.conns[c]).value));
            && s'.conns == s.conns[c := s'.conns[c]] && Work(s'.conns[c].phase) < Work(s.conns[c].phase)
            && s'.sweeper == s.sweeper && (Stage(s.conns[c].phase) == 1 ==> Stage(s'.conns[c].phase) == 1)
  {}

  /** Nobody is in the middle of anything. */
  ghost predicate AtEase(s: Sys) {
    s.sweeper.SweepIdle? && ConnsWork(s.conns) == 0
  }

  lemma EaseIsQuiet(s: Sys)
    requires AtEase(s)
    ensures Quiet(s)
  {
    forall c | 0 <= c < |s.conns| ensures !WillPublish(s.conns[c].phase) && !s.conns[c].phase.Sending? {
      NoWork(s.conns, c);
    }
  }

  ghost predicate Subscriber(s: Sys, d: nat) {
    d < |s.conns| && Stage(s.conns[d].phase) == 1
  }

  /** Everything that is half done can be brought to its end, and subscribers stay subscribers. */
  lemma {:induction false} CanFinish(capacity: nat, events: seq<Event>, states: seq<Sys>, d: nat)
    returns (events': seq<Event>, states': seq<Sys>)
    requires Run(capacity, events, states) && Subscriber(states[|events|], d)
    ensures Run(capacity, events', states') && events <= events' && AtEase(states'[|events'|])
    ensures Subscriber(states'[|events'|], d)
    decreases ConnsWork(states[|events|].conns) + SweeperWork(states[|events|].sweeper)
  {
    var s := states[|events|];
    RunInv(capacity, events, states, |events|);
    if ConnsWork(s.conns) > 0 {
      var c := SomeWork(s.conns);
      CanWork(capacity, s, c);
      var e := At(c, OwnStep(s.conns[c]).value);
      OneLess(s.conns, c, Next(capacity, s, e).conns[c]);
      events', states' := OneStepMore(capacity, events, states, s, e);
      events', states' := CanFinish(capacity, events', states', d);
    } else if !s.sweeper.SweepIdle? {
      var e := if s.sweeper.SweepBuilding? then SweepBuild else SweepSend;
      events', states' := OneStepMore(capacity, events, states, s, e);
      events', states' := CanFinish(capacity, events', states', d);
    } else {
      events', states' := events, states;
    }
  }

  /** The steps in which a subscriber reads on: a list from the channel, or a fresh one after a lag. */
  lemma ReadOn(capacity: nat, events: seq<Event>, states: seq<Sys>, c: nat)
    returns (events': seq<Event>, states': seq<Sys>)
    requires 1 <= capacity && Run(capacity, events, states) && Quiet(states[|events|])
    requires c < |states[|events|].conns| && states[|events|].conns[c].phase.Subscribed?
    requires states[|events|].conns[c].pos < |states[|events|].log|
    ensures Run(capacity, events', states') && events <= events' && Quiet(states'[|events'|])
    ensures var s, s' := states[|events|], states'[|events'|];
            && s'.log == s.log && c < |s'.conns| && s'.conns[c].phase.Subscribed?
            && s.conns[c].pos < s'.conns[c].pos <= |s.log|
  {
    var s := states[|events|];
    var e := if |s.log| <= s.conns[c].pos + capacity then At(c, DoReceive) else At(c, DoLag);
    var s1 := Next(capacity, s, e);
    events', states' := OneStepMore(capacity, events, states, s, e);
    if e.a.DoLag? {
      events', states' := OneStepMore(capacity, events', states', s1, At(c, DoRelist));
      s1 := Next(capacity, s1, At(c, DoRelist));
    }
    events', states' := OneStepMore(capacity, events', states', s1, At(c, DoReply(true)));
  }

  lemma {:induction false} CanCatchUp(capacity: nat, events: seq<Event>, states: seq<Sys>, c: nat)
    returns (events': seq<Event>, states': seq<Sys>)
    requires 1 <= capacity && Run(capacity, events, states) && Quiet(states[|events|])
    requires c < |states[|events|].conns| && states[|events|].conns[c].phase.Subscribed?
    requires states[|events|].conns[c].pos <= |states[|events|].log|
    ensures Run(capacity, events', states') && events <= events' && Settled(states'[|events'|], c)
    decreases |states[|events|].log| - states[|events|].conns[c].pos
  {
    events', states' := events, states;
    if states[|events|].conns[c].pos < |states[|events|].log| {
      events', states' := ReadOn(capacity, events, states, c);
      events', states' := CanCatchUp(capacity, events', states', c);
    }
  }

  /**
   From every reachable state with a subscriber, any number of tasks in the middle of anything and any
   lag, the run can go on so that nothing is left to build or to send and the subscriber has read
   everything: the states that convergence speaks of are always within reach.
   */
  lemma EverySubscriberCanSettle(capacity: nat, events: seq<Event>, states: seq<Sys>, c: nat)
    returns (events': seq<Event>, states': seq<Sys>)
    requires 1 <= capacity && Run(capacity, events, states)
    requires Subscriber(states[|events|], c)
    ensures Run(capacity, events', states') && events <= events' && Settled(states'[|events'|], c)
  {
    events', states' := CanFinish(capacity, events, states, c);
    var s := states'[|events'|];
    EaseIsQuiet(s);
    NoWork(s.conns, c);
    RunInv(capacity, events', states', |events'|);
    assert ConnOk(s, s.conns[c]);
    events', states' := CanCatchUp(capacity, events', states', c);
  }
}
