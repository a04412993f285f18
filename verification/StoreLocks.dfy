/**
 Store operations on the two read-write locks, one lock or data action per step.
 A lock is granted in request order, to the head of its queue, when the holders allow it.
 While a mutation is under way the two maps may hold anything at all.

 Proved over every schedule of any number of tasks: no state has every unfinished task blocked,
 every schedule ends, and what the tasks do is one of the atomic runs of module `StoreRuns`.
 */
module StoreLocks {

  import opened Common
  import opened Store
  import M = MapRuns
  import R = StoreRuns

  datatype Mode = Shared | Exclusive

  datatype Lock = Inner | Index

  /** One call: a mutation holds both locks, a heartbeat one after the other, a listing only `inner`. */
  datatype Op =
    | Mutate(e: M.Event, torn: State)
    | Beat(k: Key, now: Time)
    | List

  datatype Phase =
    | Begin | WaitInner | HasInner | WaitIndex | HasIndex
    | Midway | Written | IndexFreed | Read | Between | Finished

  /** `found` is what a heartbeat has read, `seen` the list built, `result` what the call returns. */
  datatype Task = Task(op: Op, at: Phase, found: Option<string>, seen: Option<ServiceList>, result: Option<bool>)

  /** `goal` is what the task at `Midway`, if there is one, is about to leave in the two maps. */
  datatype Sys = Sys(store: State, goal: Option<State>, tasks: seq<Task>, innerQ: seq<nat>, indexQ: seq<nat>)

  predicate ValidOp(op: Op) {
    op.Mutate? ==> op.e.DoRegister? || op.e.DoDeregister? || op.e.DoSweep?
  }

  /** The phases each kind of call goes through. */
  predicate Legal(t: Task) {
    && ValidOp(t.op)
    && match t.op
       case Mutate(_, _) => t.at !in {Read, Between} && (t.result.Some? <==> t.at in {Midway, Written, IndexFreed, Finished})
       case Beat(_, _) =>
         && t.at !in {Midway, IndexFreed} && (t.at in {WaitInner, HasInner} ==> t.found.Some?)
         && (t.result.Some? <==> t.at in {Written, Finished})
       case List => t.at in {Begin, WaitInner, HasInner, Written, Finished} && (t.seen.Some? <==> t.at in {Written, Finished})
  }

  /** How a task holds a lock. */
  function Holds(t: Task, l: Lock): Option<Mode> {
    match (t.op, l)
    case (Mutate(_, _), Inner) =>
      if t.at in {HasInner, WaitIndex, HasIndex, Midway, Written, IndexFreed} then Some(Exclusive) else None
    case (Mutate(_, _), Index) => if t.at in {HasIndex, Midway, Written} then Some(Exclusive) else None
    case (Beat(_, _), Inner) => if t.at in {HasInner, Written} then Some(Exclusive) else None
    case (Beat(_, _), Index) => if t.at in {HasIndex, Read} then Some(Shared) else None
    case (List, Inner) => if t.at in {HasInner, Written} then Some(Shared) else None
    case (List, Index) => None
  }

  function Wants(t: Task, l: Lock): Mode {
    if t.op.List? || (t.op.Beat? && l == Index) then Shared else Exclusive
  }

  predicate Compatible(m: Mode, held: Option<Mode>) {
    held == None || (m == Shared && held == Some(Shared))
  }

  /** The lock can be granted next to its present holders. */
  predicate Grantable(s: Sys, l: Lock, m: Mode) {
    forall i :: 0 <= i < |s.tasks| ==> Compatible(m, Holds(s.tasks[i], l))
  }

  /** Task `t` can take its next action. */
  predicate Ready(s: Sys, t: nat) {
    && t < |s.tasks|
    && var task := s.tasks[t];
       && task.at != Finished
       && (task.at == WaitInner ==> 0 < |s.innerQ| && s.innerQ[0] == t && Grantable(s, Inner, Wants(task, Inner)))
       && (task.at == WaitIndex ==> 0 < |s.indexQ| && s.indexQ[0] == t && Grantable(s, Index, Wants(task, Index)))
  }

  ghost function Goto(s: Sys, t: nat, at: Phase): Sys
    requires t < |s.tasks|
  {
    s.(tasks := s.tasks[t := s.tasks[t].(at := at)])
  }

  /** The task moves on, with the result that its call is going to return. */
  ghost function Result(s: Sys, t: nat, at: Phase, result: bool): Sys
    requires t < |s.tasks|
  {
    s.(tasks := s.tasks[t := s.tasks[t].(at := at, result := Some(result))])
  }

  ghost function Step(s: Sys, t: nat): Sys
    requires Ready(s, t)
  {
    var task := s.tasks[t];
    if task.at == WaitInner then Goto(s, t, HasInner).(innerQ := s.innerQ[1..])
    else if task.at == WaitIndex then Goto(s, t, HasIndex).(indexQ := s.indexQ[1..])
    else if task.op.Mutate? then StepMutate(s, t)
    else if task.op.Beat? then StepBeat(s, t)
    else StepList(s, t)
  }

  ghost function StepMutate(s: Sys, t: nat): Sys
    requires t < |s.tasks| && s.tasks[t].op.Mutate?
  {
    var task := s.tasks[t];
    match task.at
    case Begin => Goto(s, t, WaitInner).(innerQ := s.innerQ + [t])
    case HasInner => Goto(s, t, WaitIndex).(indexQ := s.indexQ + [t])
    case HasIndex =>
      Result(s, t, Midway, Changes(s.store, task.op.e)).(store := task.op.torn, goal := Some(Effect(s.store, task.op.e)))
    case Midway => Goto(s, t, Written).(store := s.goal.GetOr(s.store), goal := None)
    case Written => Goto(s, t, IndexFreed)
    case _ => Goto(s, t, Finished)
  }

  ghost function StepBeat(s: Sys, t: nat): Sys
    requires t < |s.tasks| && s.tasks[t].op.Beat?
  {
    var task := s.tasks[t];
    match task.at
    case Begin => Goto(s, t, WaitIndex).(indexQ := s.indexQ + [t])
    case HasIndex => s.(tasks := s.tasks[t := task.(at := Read, found := HeartbeatRead(s.store, task.op.k))])
    case Read => Goto(s, t, Between)
    case Between =>
      if task.found.Some? then Goto(s, t, WaitInner).(innerQ := s.innerQ + [t]) else Result(s, t, Finished, false)
    case HasInner =>
      Result(s, t, Written, HeartbeatFinds(s.store, task.op.k, task.found.GetOr(""))).(store := HeartbeatWrite(s.store, task.op.k, task.found.GetOr(""), task.op.now))
    case _ => Goto(s, t, Finished)
  }

  ghost function StepList(s: Sys, t: nat): Sys
    requires t < |s.tasks| && s.tasks[t].op.List?
  {
    var task := s.tasks[t];
    match task.at
    case Begin => Goto(s, t, WaitInner).(innerQ := s.innerQ + [t])
    case HasInner => s.(tasks := s.tasks[t := task.(at := Written, seen := Some(Visible(s.store)))])
    case _ => Goto(s, t, Finished)
  }

  ghost function Effect(store: State, e: M.Event): State {
    match e
    case DoRegister(k, service, now) => Register(store, k, service, now)
    case DoDeregister(k) => Deregister(store, k)
    case DoSweep(timeout, at) => Sweep(store, timeout, at)
    case _ => store
  }

  /** What the call that makes this change returns to its caller. */
  ghost predicate Changes(store: State, e: M.Event) {
    match e
    case DoRegister(k, service, _) => RegisterChanges(store, k, service)
    case DoDeregister(k) => k in store.index
    case DoSweep(timeout, at) => Expired(store, timeout, at) != {}
    case _ => false
  }

  // ----- what every step keeps

  ghost predicate Excluded(s: Sys) {
    forall i, j, l :: 0 <= i < |s.tasks| && 0 <= j < |s.tasks| && i != j && Holds(s.tasks[i], l) == Some(Exclusive)
                      ==> Holds(s.tasks[j], l) == None
  }

  /** The queue of a lock holds the tasks waiting for it, each once. */
  ghost predicate Queue(s: Sys, q: seq<nat>, at: Phase) {
    && (forall t :: t in q <==> 0 <= t < |s.tasks| && s.tasks[t].at == at)
    && (forall i, j :: 0 <= i < j < |q| ==> q[i] != q[j])
  }

  ghost predicate Inv(s: Sys) {
    && (forall i :: 0 <= i < |s.tasks| ==> Legal(s.tasks[i]))
    && Excluded(s)
    && Queue(s, s.innerQ, WaitInner) && Queue(s, s.indexQ, WaitIndex)
    && (s.goal.Some? <==> exists i :: 0 <= i < |s.tasks| && s.tasks[i].at == Midway)
    && WellFormed(Committed(s))
  }

  /** The maps as the next holder of the locks will find them. */
  ghost function Committed(s: Sys): State {
    s.goal.GetOr(s.store)
  }

  lemma ExclusionKept(s: Sys, s': Sys, t: nat)
    requires Excluded(s) && t < |s.tasks| == |s'.tasks|
    requires forall i :: 0 <= i < |s.tasks| && i != t ==> s'.tasks[i] == s.tasks[i]
    requires forall l :: || Holds(s'.tasks[t], l) == None
                         || Holds(s'.tasks[t], l) == Holds(s.tasks[t], l)
                         || Grantable(s, l, Holds(s'.tasks[t], l).value)
    ensures Excluded(s')
  {}

  lemma QueueKept(s: Sys, s': Sys, t: nat, q: seq<nat>, at: Phase)
    requires Queue(s, q, at) && t < |s.tasks| == |s'.tasks|
    requires forall i :: 0 <= i < |s.tasks| && i != t ==> s'.tasks[i] == s.tasks[i]
    ensures s.tasks[t].at != at && s'.tasks[t].at != at ==> Queue(s', q, at)
    ensures s.tasks[t].at != at && s'.tasks[t].at == at ==> Queue(s', q + [t], at)
    ensures s.tasks[t].at == at && s'.tasks[t].at != at && 0 < |q| && q[0] == t ==> Queue(s', q[1..], at)
  {
    if q != [] {
      QueueTail(q);
    }
  }

  lemma QueueTail(q: seq<nat>)
    requires q != [] && forall i, j :: 0 <= i < j < |q| ==> q[i] != q[j]
    ensures forall t :: t in q[1..] <==> t in q && t != q[0]
  {
    forall t ensures t in q[1..] <==> t in q && t != q[0] {
      if t in q && t != q[0] {
        var i :| 0 <= i < |q| && q[i] == t;
        assert q[1..][i - 1] == t;
      }
      if t in q[1..] {
        var i :| 0 <= i < |q| - 1 && q[1..][i] == t;
        assert q[i + 1] == t;
      }
    }
  }

  lemma MidwayExcludes(s: Sys, i: nat, j: nat)
    requires Inv(s) && i < |s.tasks| && j < |s.tasks| && s.tasks[i].at == Midway
    requires Holds(s.tasks[j], Inner).Some? || Holds(s.tasks[j], Index).Some?
    ensures i == j
  {
    assert Legal(s.tasks[i]);
    assert Holds(s.tasks[i], Inner) == Some(Exclusive) && Holds(s.tasks[i], Index) == Some(Exclusive);
  }

  /** No task is half way through a mutation while another one holds a lock. */
  lemma AloneMidway(s: Sys, t: nat)
    requires Inv(s) && t < |s.tasks| && s.tasks[t].at != Midway
    requires Holds(s.tasks[t], Inner).Some? || Holds(s.tasks[t], Index).Some?
    ensures s.goal == None
  {
    if s.goal.Some? {
      var i :| 0 <= i < |s.tasks| && s.tasks[i].at == Midway;
      MidwayExcludes(s, i, t);
    }
  }

  /** One step rewrites the task that takes it and no other. */
  lemma StepFrame(s: Sys, t: nat)
    requires Inv(s) && Ready(s, t)
    ensures var s' := Step(s, t);
            && |s'.tasks| == |s.tasks|
            && (forall i :: 0 <= i < |s.tasks| && i != t ==> s'.tasks[i] == s.tasks[i])
            && s'.tasks[t].op == s.tasks[t].op && Legal(s'.tasks[t])
  {
    assert Legal(s.tasks[t]);
  }

  lemma StepExcludes(s: Sys, t: nat)
    requires Inv(s) && Ready(s, t)
    ensures Excluded(Step(s, t))
  {
    assert Legal(s.tasks[t]);
    StepFrame(s, t);
    ExclusionKept(s, Step(s, t), t);
  }

  /** How a step changes the queues: the task joins the end of one, leaves the front of one, or neither. */
  lemma QueuesAfter(s: Sys, t: nat)
    requires Inv(s) && Ready(s, t)
    ensures var s', at, at' := Step(s, t), s.tasks[t].at, Step(s, t).tasks[t].at;
            && s'.innerQ == (if at == WaitInner then s.innerQ[1..] else if at' == WaitInner then s.innerQ + [t] else s.innerQ)
            && s'.indexQ == (if at == WaitIndex then s.indexQ[1..] else if at' == WaitIndex then s.indexQ + [t] else s.indexQ)
            && at != at'
  {
    assert Legal(s.tasks[t]);
  }

  lemma StepQueues(s: Sys, t: nat)
    requires Inv(s) && Ready(s, t)
    ensures Queue(Step(s, t), Step(s, t).innerQ, WaitInner)
    ensures Queue(Step(s, t), Step(s, t).indexQ, WaitIndex)
  {
    StepFrame(s, t);
    QueuesAfter(s, t);
    QueueKept(s, Step(s, t), t, s.innerQ, WaitInner);
    QueueKept(s, Step(s, t), t, s.indexQ, WaitIndex);
  }

  lemma StepGoal(s: Sys, t: nat)
    requires Inv(s) && Ready(s, t)
    ensures var s' := Step(s, t);
            && (s'.goal.Some? <==> exists i :: 0 <= i < |s'.tasks| && s'.tasks[i].at == Midway)
            && (s.tasks[t].at == Midway ==> s.goal.Some?)
  {
    var s' := Step(s, t);
    var task := s.tasks[t];
    assert Legal(task);
    StepFrame(s, t);
    if task.at == Midway {
      forall i | 0 <= i < |s'.tasks| ensures s'.tasks[i].at != Midway {
        if s.tasks[i].at == Midway {
          MidwayExcludes(s, i, t);
        }
      }
    } else if s'.tasks[t].at == Midway {
    } else {
      assert s'.goal == s.goal;
      if i :| 0 <= i < |s.tasks| && s.tasks[i].at == Midway { assert s'.tasks[i].at == Midway; }
    }
  }

  // ----- the atomic run behind a schedule

  predicate InFlight(t: Task) {
    t.op.Beat? && t.at in {Read, Between, WaitInner, HasInner}
  }

  ghost function Pendings(tasks: seq<Task>): map<nat, M.Pending> {
    map t | 0 <= t < |tasks| && InFlight(tasks[t]) :: M.Pending(tasks[t].op.k, tasks[t].found)
  }

  ghost function Abs(s: Sys): R.Sys {
    R.Sys(Committed(s), Pendings(s.tasks))
  }

  lemma PendingsAfter(tasks: seq<Task>, t: nat, task: Task)
    requires t < |tasks| && task.op == tasks[t].op
    ensures var ts := tasks[t := task];
            && (InFlight(tasks[t]) && InFlight(task) && task.found == tasks[t].found ==> Pendings(ts) == Pendings(tasks))
            && (!InFlight(tasks[t]) && !InFlight(task) ==> Pendings(ts) == Pendings(tasks))
            && (!InFlight(tasks[t]) && InFlight(task) ==> Pendings(ts) == Pendings(tasks)[t := M.Pending(task.op.k, task.found)])
            && (InFlight(tasks[t]) && !InFlight(task) ==> Pendings(ts) == Pendings(tasks) - {t})
  {}

  /** The atomic operation that a step of task `t` amounts to. */
  ghost function Label(s: Sys, t: nat): M.Event
    requires t < |s.tasks|
  {
    var task := s.tasks[t];
    if task.op.Mutate? && task.at == HasIndex then task.op.e
    else if task.op.Beat? && task.at == HasIndex then M.DoHeartbeatRead(t, task.op.k)
    else if task.op.Beat? && (task.at == HasInner || (task.at == Between && task.found == None)) then
      M.DoHeartbeatWrite(t, task.op.now)
    else M.Idle
  }

  ghost predicate Simulated(s: Sys, t: nat, s': Sys)
    requires t < |s.tasks|
  {
    M.Enabled(Abs(s).pending, Label(s, t)) && Abs(s') == R.Next(Abs(s), Label(s, t))
  }

  lemma GrantSimulates(s: Sys, t: nat)
    requires Inv(s) && Ready(s, t) && s.tasks[t].at in {WaitInner, WaitIndex}
    ensures Simulated(s, t, Step(s, t))
  {
    assert Legal(s.tasks[t]);
    PendingsAfter(s.tasks, t, Step(s, t).tasks[t]);
  }

  lemma MutateSimulates(s: Sys, t: nat)
    requires Inv(s) && Ready(s, t) && s.tasks[t].op.Mutate? && s.tasks[t].at !in {WaitInner, WaitIndex}
    ensures Simulated(s, t, Step(s, t))
  {
    assert Legal(s.tasks[t]);
    PendingsAfter(s.tasks, t, Step(s, t).tasks[t]);
    StepGoal(s, t);
    if s.tasks[t].at == HasIndex {
      AloneMidway(s, t);
      assert Committed(Step(s, t)) == R.Next(Abs(s), s.tasks[t].op.e).store;
    }
  }

  lemma BeatSimulates(s: Sys, t: nat)
    requires Inv(s) && Ready(s, t) && s.tasks[t].op.Beat? && s.tasks[t].at !in {WaitInner, WaitIndex}
    ensures Simulated(s, t, Step(s, t))
  {
    assert Legal(s.tasks[t]);
    PendingsAfter(s.tasks, t, Step(s, t).tasks[t]);
    assert s.tasks[t].at in {HasInner, HasIndex} ==> s.goal == None by {
      if s.tasks[t].at in {HasInner, HasIndex} { AloneMidway(s, t); }
    }
    assert InFlight(s.tasks[t]) <==> t in Abs(s).pending;
    assert Step(s, t).goal == s.goal;
  }

  lemma ListSimulates(s: Sys, t: nat)
    requires Inv(s) && Ready(s, t) && s.tasks[t].op.List? && s.tasks[t].at !in {WaitInner, WaitIndex}
    ensures Simulated(s, t, Step(s, t))
    ensures s.tasks[t].at == HasInner ==> Step(s, t).tasks[t].seen == Some(Visible(Committed(s)))
  {
    assert Legal(s.tasks[t]);
    PendingsAfter(s.tasks, t, Step(s, t).tasks[t]);
    if s.tasks[t].at == HasInner {
      AloneMidway(s, t);
    }
  }

  /** Every step is one atomic step of the store, idle ones included; a listing sees the committed maps. */
  lemma StepSimulates(s: Sys, t: nat)
    requires Inv(s) && Ready(s, t)
    ensures Simulated(s, t, Step(s, t))
    ensures Step(s, t).tasks[t].seen in {s.tasks[t].seen, Some(Visible(Committed(s)))}
  {
    var task := s.tasks[t];
    if task.at in {WaitInner, WaitIndex} {
      GrantSimulates(s, t);
    } else {
      match task.op
      case Mutate(_, _) => MutateSimulates(s, t);
      case Beat(_, _) => BeatSimulates(s, t);
      case List => ListSimulates(s, t);
    }
  }

  lemma StepKeeps(s: Sys, t: nat)
    requires Inv(s) && Ready(s, t)
    ensures Inv(Step(s, t))
  {
    StepFrame(s, t);
    StepExcludes(s, t);
    StepQueues(s, t);
    StepGoal(s, t);
    assert WellFormed(Committed(Step(s, t))) by {
      StepSimulates(s, t);
      R.StepRefines(Abs(s), Label(s, t));
    }
  }

  // ----- schedules

  ghost function Start(ops: seq<Op>): Sys {
    Sys(Empty, None, seq(|ops|, i requires 0 <= i < |ops| => Task(ops[i], Begin, None, None, None)), [], [])
  }

  lemma StartInv(ops: seq<Op>)
    requires forall i :: 0 <= i < |ops| ==> ValidOp(ops[i])
    ensures Inv(Start(ops))
  {
    R.EmptyRefines();
  }

  /** The state after the tasks of `sched`, in this order, have each taken one action. */
  ghost function Exec(s: Sys, sched: seq<nat>): Option<Sys> {
    if sched == [] then Some(s)
    else
      var before := Exec(s, sched[..|sched| - 1]);
      if before.Some? && Ready(before.value, sched[|sched| - 1]) then
        Some(Step(before.value, sched[|sched| - 1]))
      else None
  }

  ghost predicate Schedule(s: Sys, sched: seq<nat>) {
    Exec(s, sched).Some?
  }

  ghost function After(s: Sys, sched: seq<nat>): Sys
    requires Schedule(s, sched)
  {
    Exec(s, sched).value
  }

  lemma {:induction false} AlwaysInv(s: Sys, sched: seq<nat>)
    requires Inv(s) && Schedule(s, sched)
    ensures Inv(After(s, sched))
    decreases |sched|
  {
    if sched != [] {
      var before := sched[..|sched| - 1];
      AlwaysInv(s, before);
      StepKeeps(After(s, before), sched[|sched| - 1]);
    }
  }

  // ----- deadlock freedom

  ghost predicate AllFinished(s: Sys) {
    forall i :: 0 <= i < |s.tasks| ==> s.tasks[i].at == Finished
  }

  lemma HeadCanTake(s: Sys, l: Lock)
    requires Inv(s)
    requires forall i :: 0 <= i < |s.tasks| ==> Holds(s.tasks[i], l) == None
    requires (if l == Inner then s.innerQ else s.indexQ) != []
    ensures exists t :: Ready(s, t)
  {
    var t := if l == Inner then s.innerQ[0] else s.indexQ[0];
    assert t in if l == Inner then s.innerQ else s.indexQ;
    assert Ready(s, t);
  }

  /** In a state that the invariant allows, some unfinished task can act. */
  lemma SomeoneCanAct(s: Sys)
    requires Inv(s) && !AllFinished(s)
    ensures exists t :: Ready(s, t)
  {
    if t :| 0 <= t < |s.tasks| && Holds(s.tasks[t], Index).Some? {
      assert Legal(s.tasks[t]);
      assert Ready(s, t);   // it holds index, so it waits for nothing
    } else if s.indexQ != [] {
      HeadCanTake(s, Index);
    } else if t :| 0 <= t < |s.tasks| && Holds(s.tasks[t], Inner).Some? {
      assert s.tasks[t].at == WaitIndex ==> t in s.indexQ;
      assert Ready(s, t);   // it holds inner, and nobody waits for index
    } else if s.innerQ != [] {
      HeadCanTake(s, Inner);
    } else {
      var t :| 0 <= t < |s.tasks| && s.tasks[t].at != Finished;
      assert s.tasks[t].at == WaitIndex ==> t in s.indexQ;
      assert s.tasks[t].at == WaitInner ==> t in s.innerQ;
      assert Ready(s, t);
    }
  }

  /**
   Readers share a lock: a listing at the head of its queue waits for nobody but writers of the lists,
   and a heartbeat's read for nobody but writers of the index, however many readers there are.
   */
  lemma ReadersShare(s: Sys, t: nat)
    requires Inv(s) && t < |s.tasks|
    ensures s.tasks[t].op.List? && s.tasks[t].at == WaitInner && 0 < |s.innerQ| && s.innerQ[0] == t
            && (forall i :: 0 <= i < |s.tasks| && !s.tasks[i].op.List? ==> Holds(s.tasks[i], Inner) == None)
            ==> Ready(s, t)
    ensures s.tasks[t].op.Beat? && s.tasks[t].at == WaitIndex && 0 < |s.indexQ| && s.indexQ[0] == t
            && (forall i :: 0 <= i < |s.tasks| && !s.tasks[i].op.Beat? ==> Holds(s.tasks[i], Index) == None)
            ==> Ready(s, t)
  {}

  /** The number of actions a task has left, at most. */
  function Left(t: Task): nat {
    match t.op
    case Mutate(_, _) =>
      (match t.at
       case Begin => 8 case WaitInner => 7 case HasInner => 6 case WaitIndex => 5 case HasIndex => 4
       case Midway => 3 case Written => 2 case IndexFreed => 1 case _ => 0)
    case Beat(_, _) =>
      (match t.at
       case Begin => 8 case WaitIndex => 7 case HasIndex => 6 case Read => 5 case Between => 4
       case WaitInner => 3 case HasInner => 2 case Written => 1 case _ => 0)
    case List =>
      (match t.at case Begin => 4 case WaitInner => 3 case HasInner => 2 case Written => 1 case _ => 0)
  }

  function TotalLeft(ts: seq<Task>): nat {
    if ts == [] then 0 else Left(ts[0]) + TotalLeft(ts[1..])
  }

  lemma {:induction false} OneLess(ts: seq<Task>, t: nat, task: Task)
    requires t < |ts| && Left(task) < Left(ts[t])
    ensures TotalLeft(ts[t := task]) < TotalLeft(ts)
  {
    if t == 0 {
      assert ts[0 := task][1..] == ts[1..];
    } else {
      assert ts[t := task][1..] == ts[1..][t - 1 := task];
      OneLess(ts[1..], t - 1, task);
    }
  }

  lemma StepProgress(s: Sys, t: nat)
    requires Inv(s) && Ready(s, t)
    ensures TotalLeft(Step(s, t).tasks) < TotalLeft(s.tasks)
  {
    assert Legal(s.tasks[t]);
    StepFrame(s, t);
    assert Step(s, t).tasks == s.tasks[t := Step(s, t).tasks[t]];
    OneLess(s.tasks, t, Step(s, t).tasks[t]);
  }

  lemma {:induction false} ScheduleIsShort(s: Sys, sched: seq<nat>)
    requires Inv(s) && Schedule(s, sched)
    ensures |sched| + TotalLeft(After(s, sched).tasks) <= TotalLeft(s.tasks)
    decreases |sched|
  {
    if sched != [] {
      var before := sched[..|sched| - 1];
      ScheduleIsShort(s, before);
      AlwaysInv(s, before);
      StepProgress(After(s, before), sched[|sched| - 1]);
    }
  }

  /**
   Deadlock freedom, over every schedule of every set of calls: as long as a call is unfinished
   some task can act, and no schedule is longer than the actions the calls consist of. So a
   schedule that cannot be continued has finished every call.
   */
  lemma NoDeadlock(ops: seq<Op>, sched: seq<nat>)
    requires forall i :: 0 <= i < |ops| ==> ValidOp(ops[i])
    requires Schedule(Start(ops), sched)
    ensures !AllFinished(After(Start(ops), sched)) ==> exists t :: Ready(After(Start(ops), sched), t)
    ensures |sched| <= TotalLeft(Start(ops).tasks)
  {
    StartInv(ops);
    AlwaysInv(Start(ops), sched);
    if !AllFinished(After(Start(ops), sched)) {
      SomeoneCanAct(After(Start(ops), sched));
    }
    ScheduleIsShort(Start(ops), sched);
  }

  // ----- atomicity

  /** The atomic operations that the steps of a schedule amount to. */
  ghost function Labels(s: Sys, sched: seq<nat>): (labels: seq<M.Event>)
    requires Schedule(s, sched)
    ensures |labels| == |sched|
  {
    if sched == [] then []
    else
      var before := sched[..|sched| - 1];
      Labels(s, before) + [Label(After(s, before), sched[|sched| - 1])]
  }

  /** The store as its callers can know it, before the first step and after each one. */
  ghost function Trace(s: Sys, sched: seq<nat>): (trace: seq<R.Sys>)
    requires Schedule(s, sched)
    ensures |trace| == |sched| + 1 && trace[|sched|] == Abs(After(s, sched))
  {
    if sched == [] then [Abs(s)] else Trace(s, sched[..|sched| - 1]) + [Abs(After(s, sched))]
  }

  /** The steps of task `t` at the places in `at` act on the store, and no other step of it does. */
  ghost predicate ActsAt(sched: seq<nat>, labels: seq<M.Event>, t: nat, at: set<nat>)
    requires |labels| == |sched|
  {
    && (forall i :: i in at ==> i < |sched| && sched[i] == t)
    && (forall i: nat :: i < |sched| && sched[i] == t ==> (i in at <==> !labels[i].Idle?))
  }

  /** Step `i` reports `result` when it acts on the store. */
  ghost predicate ReportedAt(labels: seq<M.Event>, trace: seq<R.Sys>, i: nat, result: Option<bool>)
    requires |trace| == |labels| + 1
  {
    && i < |labels| && M.Enabled(trace[i].pending, labels[i])
    && result == Some(R.Reports(trace[i], labels[i]))
  }

  ghost predicate MutatedAt(sched: seq<nat>, labels: seq<M.Event>, trace: seq<R.Sys>, t: nat, task: Task, i: nat)
    requires |trace| == |labels| + 1 && |labels| == |sched| && task.op.Mutate?
  {
    ActsAt(sched, labels, t, {i}) && labels[i] == task.op.e && ReportedAt(labels, trace, i, task.result)
  }

  ghost predicate ReadAt(sched: seq<nat>, labels: seq<M.Event>, t: nat, task: Task, r: nat)
    requires |labels| == |sched| && task.op.Beat?
  {
    ActsAt(sched, labels, t, {r}) && labels[r] == M.DoHeartbeatRead(t, task.op.k)
  }

  ghost predicate BeatAt(sched: seq<nat>, labels: seq<M.Event>, trace: seq<R.Sys>, t: nat, task: Task, r: nat, w: nat)
    requires |trace| == |labels| + 1 && |labels| == |sched| && task.op.Beat?
  {
    && r < w && ActsAt(sched, labels, t, {r, w})
    && labels[r] == M.DoHeartbeatRead(t, task.op.k) && labels[w] == M.DoHeartbeatWrite(t, task.op.now)
    && ReportedAt(labels, trace, w, task.result)
  }

  ghost predicate ListedAt(sched: seq<nat>, trace: seq<R.Sys>, t: nat, task: Task, i: nat)
    requires |trace| == |sched| + 1
  {
    i < |sched| && sched[i] == t && task.seen == Some(Visible(trace[i].store))
  }

  /**
   The call of task `t` has had its effect, if it has come that far, in its own steps, once, and
   returns what that step reported: a mutation in one step, a heartbeat in a read and a later write,
   a listing in a step that saw the visible list and changed nothing.
   */
  ghost predicate Explained(sched: seq<nat>, labels: seq<M.Event>, trace: seq<R.Sys>, t: nat, task: Task)
    requires |trace| == |labels| + 1 && |labels| == |sched|
  {
    match task.op
    case Mutate(_, _) =>
      if task.result.Some? then exists i: nat :: MutatedAt(sched, labels, trace, t, task, i)
      else ActsAt(sched, labels, t, {})
    case Beat(_, _) =>
      if task.result.Some? then exists r: nat, w: nat :: BeatAt(sched, labels, trace, t, task, r, w)
      else if InFlight(task) then exists r: nat :: ReadAt(sched, labels, t, task, r)
      else ActsAt(sched, labels, t, {})
    case List =>
      && ActsAt(sched, labels, t, {})
      && (task.seen.Some? ==> exists i: nat :: ListedAt(sched, trace, t, task, i))
  }

  // ----- one more step

  lemma ActsAtMore(sched: seq<nat>, labels: seq<M.Event>, t: nat, at: set<nat>, u: nat, act: M.Event)
    requires |labels| == |sched| && ActsAt(sched, labels, t, at)
    ensures t != u || act.Idle? ==> ActsAt(sched + [u], labels + [act], t, at)
    ensures t == u && !act.Idle? ==> ActsAt(sched + [u], labels + [act], t, at + {|sched|})
  {}

  lemma ExplainedMore(sched: seq<nat>, labels: seq<M.Event>, trace: seq<R.Sys>, t: nat, task: Task,
                      u: nat, act: M.Event, next: R.Sys, task': Task)
    requires |trace| == |labels| + 1 && |labels| == |sched| && Explained(sched, labels, trace, t, task)
    requires t != u || act.Idle?
    requires task'.op == task.op && task'.result == task.result && task'.seen == task.seen && (InFlight(task) <==> InFlight(task'))
    ensures Explained(sched + [u], labels + [act], trace + [next], t, task')
  {
    var sched', labels', trace' := sched + [u], labels + [act], trace + [next];
    match task.op
    case Mutate(_, _) =>
      if task.result.Some? {
        var i: nat :| MutatedAt(sched, labels, trace, t, task, i);
        ActsAtMore(sched, labels, t, {i}, u, act);
        assert MutatedAt(sched', labels', trace', t, task', i);
      } else {
        ActsAtMore(sched, labels, t, {}, u, act);
      }
    case Beat(_, _) =>
      if task.result.Some? {
        var r: nat, w: nat :| BeatAt(sched, labels, trace, t, task, r, w);
        ActsAtMore(sched, labels, t, {r, w}, u, act);
        assert BeatAt(sched', labels', trace', t, task', r, w);
      } else if InFlight(task) {
        var r: nat :| ReadAt(sched, labels, t, task, r);
        ActsAtMore(sched, labels, t, {r}, u, act);
        assert ReadAt(sched', labels', t, task', r);
      } else {
        ActsAtMore(sched, labels, t, {}, u, act);
      }
    case List =>
      ActsAtMore(sched, labels, t, {}, u, act);
      if task.seen.Some? {
        var i: nat :| ListedAt(sched, trace, t, task, i);
        assert ListedAt(sched', trace', t, task', i);
      }
  }

  /** The step in which a mutation takes effect. */
  lemma ExplainedMutation(s: Sys, sched: seq<nat>, labels: seq<M.Event>, trace: seq<R.Sys>, t: nat)
    requires Inv(s) && Ready(s, t)
    requires |trace| == |labels| + 1 && |labels| == |sched| && trace[|sched|] == Abs(s)
    requires Explained(sched, labels, trace, t, s.tasks[t])
    requires s.tasks[t].op.Mutate? && s.tasks[t].at == HasIndex
    ensures var s' := Step(s, t);
            Explained(sched + [t], labels + [Label(s, t)], trace + [Abs(s')], t, s'.tasks[t])
  {
    var n, act, s' := |sched|, Label(s, t), Step(s, t);
    assert Legal(s.tasks[t]);
    AloneMidway(s, t);
    ActsAtMore(sched, labels, t, {}, t, act);
    assert {} + {n} == {n};
    assert MutatedAt(sched + [t], labels + [act], trace + [Abs(s')], t, s'.tasks[t], n);
  }

  /** The step in which a heartbeat reads the index. */
  lemma ExplainedRead(s: Sys, sched: seq<nat>, labels: seq<M.Event>, trace: seq<R.Sys>, t: nat)
    requires Inv(s) && Ready(s, t)
    requires |trace| == |labels| + 1 && |labels| == |sched| && trace[|sched|] == Abs(s)
    requires Explained(sched, labels, trace, t, s.tasks[t])
    requires s.tasks[t].op.Beat? && s.tasks[t].at == HasIndex
    ensures var s' := Step(s, t);
            Explained(sched + [t], labels + [Label(s, t)], trace + [Abs(s')], t, s'.tasks[t])
  {
    var n, act, s' := |sched|, Label(s, t), Step(s, t);
    assert Legal(s.tasks[t]);
    ActsAtMore(sched, labels, t, {}, t, act);
    assert {} + {n} == {n};
    assert ReadAt(sched + [t], labels + [act], t, s'.tasks[t], n);
  }

  /** The step in which a heartbeat writes, or finds that there is nothing to write. */
  lemma ExplainedWrite(s: Sys, sched: seq<nat>, labels: seq<M.Event>, trace: seq<R.Sys>, t: nat)
    requires Inv(s) && Ready(s, t)
    requires |trace| == |labels| + 1 && |labels| == |sched| && trace[|sched|] == Abs(s)
    requires Explained(sched, labels, trace, t, s.tasks[t])
    requires s.tasks[t].op.Beat? && (s.tasks[t].at == HasInner || (s.tasks[t].at == Between && s.tasks[t].found == None))
    ensures var s' := Step(s, t);
            Explained(sched + [t], labels + [Label(s, t)], trace + [Abs(s')], t, s'.tasks[t])
  {
    var n, act, task, s' := |sched|, Label(s, t), s.tasks[t], Step(s, t);
    assert Legal(task);
    var r: nat :| ReadAt(sched, labels, t, task, r);
    ActsAtMore(sched, labels, t, {r}, t, act);
    assert {r} + {n} == {r, n};
    if task.at == HasInner { AloneMidway(s, t); }
    assert Pendings(s.tasks)[t] == M.Pending(task.op.k, task.found);
    assert BeatAt(sched + [t], labels + [act], trace + [Abs(s')], t, s'.tasks[t], r, n);
  }

  /** The step in which a listing is made. */
  lemma ExplainedListing(s: Sys, sched: seq<nat>, labels: seq<M.Event>, trace: seq<R.Sys>, t: nat)
    requires Inv(s) && Ready(s, t)
    requires |trace| == |labels| + 1 && |labels| == |sched| && trace[|sched|] == Abs(s)
    requires Explained(sched, labels, trace, t, s.tasks[t])
    requires s.tasks[t].op.List? && s.tasks[t].at == HasInner
    ensures var s' := Step(s, t);
            Explained(sched + [t], labels + [Label(s, t)], trace + [Abs(s')], t, s'.tasks[t])
  {
    var s' := Step(s, t);
    ListSimulates(s, t);
    ActsAtMore(sched, labels, t, {}, t, Label(s, t));
    assert ListedAt(sched + [t], trace + [Abs(s')], t, s'.tasks[t], |sched|);
  }

  /** A step that neither acts on the store nor makes a listing leaves the task's results as they were. */
  lemma IdleFrame(s: Sys, t: nat)
    requires Inv(s) && Ready(s, t) && Label(s, t).Idle? && !(s.tasks[t].op.List? && s.tasks[t].at == HasInner)
    ensures var task, task' := s.tasks[t], Step(s, t).tasks[t];
            && task'.op == task.op && task'.result == task.result && task'.seen == task.seen
            && (InFlight(task) <==> InFlight(task'))
  {
    assert Legal(s.tasks[t]);
  }

  lemma ExplainedOwn(s: Sys, sched: seq<nat>, labels: seq<M.Event>, trace: seq<R.Sys>, t: nat)
    requires Inv(s) && Ready(s, t)
    requires |trace| == |labels| + 1 && |labels| == |sched| && trace[|sched|] == Abs(s)
    requires Explained(sched, labels, trace, t, s.tasks[t])
    ensures var s' := Step(s, t);
            Explained(sched + [t], labels + [Label(s, t)], trace + [Abs(s')], t, s'.tasks[t])
  {
    var task := s.tasks[t];
    assert Legal(task);
    if task.op.List? && task.at == HasInner {
      ExplainedListing(s, sched, labels, trace, t);
    } else if Label(s, t).Idle? {
      IdleFrame(s, t);
      ExplainedMore(sched, labels, trace, t, task, t, Label(s, t), Abs(Step(s, t)), Step(s, t).tasks[t]);
    } else if task.op.Mutate? {
      ExplainedMutation(s, sched, labels, trace, t);
    } else if task.at == HasIndex {
      ExplainedRead(s, sched, labels, trace, t);
    } else {
      ExplainedWrite(s, sched, labels, trace, t);
    }
  }

  /** Every write of a heartbeat bears the number of the task that takes the step. */
  ghost predicate Owned(sched: seq<nat>, labels: seq<M.Event>)
    requires |labels| == |sched|
  {
    forall i :: 0 <= i < |sched| && labels[i].DoHeartbeatWrite? ==> labels[i].task == sched[i]
  }

  /** The steps so far are this run of atomic operations, which ends in `s`, and every call is explained by it. */
  ghost predicate AtomicSoFar(s: Sys, sched: seq<nat>, labels: seq<M.Event>, trace: seq<R.Sys>) {
    && |labels| == |sched| && |trace| == |sched| + 1 && trace[|sched|] == Abs(s)
    && R.Run(labels, trace) && Owned(sched, labels)
    && forall t :: 0 <= t < |s.tasks| ==> Explained(sched, labels, trace, t, s.tasks[t])
  }

  ghost predicate Atomic(s0: Sys, sched: seq<nat>)
    requires Schedule(s0, sched)
  {
    AtomicSoFar(After(s0, sched), sched, Labels(s0, sched), Trace(s0, sched))
  }

  lemma RunMore(labels: seq<M.Event>, trace: seq<R.Sys>, act: M.Event, next: R.Sys)
    requires R.Run(labels, trace)
    requires M.Enabled(trace[|labels|].pending, act) && next == R.Next(trace[|labels|], act)
    ensures R.Run(labels + [act], trace + [next])
  {
    forall i | 0 <= i < |labels| + 1 ensures R.StepOf(labels + [act], trace + [next], i) {
      if i < |labels| { assert R.StepOf(labels, trace, i); }
    }
  }

  lemma OwnLabel(s: Sys, t: nat)
    requires Inv(s) && t < |s.tasks|
    ensures Label(s, t).DoHeartbeatWrite? ==> Label(s, t).task == t
  {
    assert Legal(s.tasks[t]);
  }

  lemma AtomicMore(s: Sys, sched: seq<nat>, labels: seq<M.Event>, trace: seq<R.Sys>, u: nat)
    requires Inv(s) && Ready(s, u) && AtomicSoFar(s, sched, labels, trace)
    ensures AtomicSoFar(Step(s, u), sched + [u], labels + [Label(s, u)], trace + [Abs(Step(s, u))])
  {
    var s' := Step(s, u);
    StepSimulates(s, u);
    RunMore(labels, trace, Label(s, u), Abs(s'));
    OwnLabel(s, u);
    StepFrame(s, u);
    forall t | 0 <= t < |s'.tasks| ensures Explained(sched + [u], labels + [Label(s, u)], trace + [Abs(s')], t, s'.tasks[t]) {
      assert Explained(sched, labels, trace, t, s.tasks[t]);
      if t == u {
        ExplainedOwn(s, sched, labels, trace, t);
      } else {
        ExplainedMore(sched, labels, trace, t, s.tasks[t], u, Label(s, u), Abs(s'), s'.tasks[t]);
      }
    }
  }

  lemma OneMore(s: Sys, sched: seq<nat>, u: nat)
    requires Schedule(s, sched + [u]) && Schedule(s, sched) && Ready(After(s, sched), u)
    ensures After(s, sched + [u]) == Step(After(s, sched), u)
    ensures Labels(s, sched + [u]) == Labels(s, sched) + [Label(After(s, sched), u)]
    ensures Trace(s, sched + [u]) == Trace(s, sched) + [Abs(Step(After(s, sched), u))]
  {
    assert (sched + [u])[..|sched|] == sched;
  }

  lemma ReachableInv(ops: seq<Op>, sched: seq<nat>)
    requires forall i :: 0 <= i < |ops| ==> ValidOp(ops[i])
    requires Schedule(Start(ops), sched)
    ensures Inv(After(Start(ops), sched))
  {
    StartInv(ops);
    AlwaysInv(Start(ops), sched);
  }

  lemma StartAtomic(ops: seq<Op>)
    ensures Atomic(Start(ops), [])
  {
    assert Abs(Start(ops)) == R.Init;
  }

  lemma LastStep(s: Sys, sched: seq<nat>) returns (before: seq<nat>, u: nat)
    requires Schedule(s, sched) && sched != []
    ensures sched == before + [u] && Schedule(s, before) && Ready(After(s, before), u)
  {
    before, u := sched[..|sched| - 1], sched[|sched| - 1];
  }

  lemma {:induction false} AlwaysAtomic(ops: seq<Op>, sched: seq<nat>)
    requires forall i :: 0 <= i < |ops| ==> ValidOp(ops[i])
    requires Schedule(Start(ops), sched)
    ensures Atomic(Start(ops), sched)
    decreases |sched|
  {
    if sched == [] {
      StartAtomic(ops);
    } else {
      var before, u := LastStep(Start(ops), sched);
      AlwaysAtomic(ops, before);
      ReachableInv(ops, before);
      OneMore(Start(ops), before, u);
      AtomicMore(After(Start(ops), before), before, Labels(Start(ops), before), Trace(Start(ops), before), u);
    }
  }

  lemma {:induction false} OpsStay(ops: seq<Op>, sched: seq<nat>)
    requires forall i :: 0 <= i < |ops| ==> ValidOp(ops[i])
    requires Schedule(Start(ops), sched)
    ensures var s := After(Start(ops), sched);
            |s.tasks| == |ops| && forall t :: 0 <= t < |ops| ==> s.tasks[t].op == ops[t]
    decreases |sched|
  {
    if sched != [] {
      var before := sched[..|sched| - 1];
      OpsStay(ops, before);
      StartInv(ops);
      AlwaysInv(Start(ops), before);
      StepFrame(After(Start(ops), before), sched[|sched| - 1]);
    }
  }

  /**
   Atomicity, over every schedule of every set of calls. The atomic operations that the steps of the
   schedule stand for are a run of the store, in the schedule's own order, that ends in the maps and
   the half-done heartbeats of its last state. Every call that is finished has had its effect in that
   run exactly once, in steps of its own task, and returned what the run says there: so no update is
   lost or done twice, no call takes effect before it began or after it ended, and torn maps are
   never seen.
   */
  lemma SchedulesAreAtomic(ops: seq<Op>, sched: seq<nat>)
    requires forall i :: 0 <= i < |ops| ==> ValidOp(ops[i])
    requires Schedule(Start(ops), sched)
    ensures R.Run(Labels(Start(ops), sched), Trace(Start(ops), sched))
    ensures var s := After(Start(ops), sched);
            && |s.tasks| == |ops|
            && forall t :: 0 <= t < |ops| ==>
                 && s.tasks[t].op == ops[t]
                 && Explained(sched, Labels(Start(ops), sched), Trace(Start(ops), sched), t, s.tasks[t])
                 && (s.tasks[t].at == Finished ==> if ops[t].List? then s.tasks[t].seen.Some? else s.tasks[t].result.Some?)
  {
    AlwaysAtomic(ops, sched);
    OpsStay(ops, sched);
    ReachableInv(ops, sched);
    var s := After(Start(ops), sched);
    forall t | 0 <= t < |ops| ensures s.tasks[t].at == Finished ==> if ops[t].List? then s.tasks[t].seen.Some? else s.tasks[t].result.Some? {
      assert Legal(s.tasks[t]);
    }
  }

  /**
   What a finished heartbeat returned: true exactly when its key had the same service in the store at
   two moments of the call, the read and the write, whatever the other tasks did in between.
   */
  lemma HeartbeatsReturn(ops: seq<Op>, sched: seq<nat>, t: nat) returns (r: nat, w: nat)
    requires forall i :: 0 <= i < |ops| ==> ValidOp(ops[i])
    requires Schedule(Start(ops), sched) && t < |ops| && ops[t].Beat?
    requires t < |After(Start(ops), sched).tasks| && After(Start(ops), sched).tasks[t].at == Finished
    ensures r < w < |sched| && sched[r] == sched[w] == t
    ensures R.Run(Labels(Start(ops), sched), Trace(Start(ops), sched))
    ensures var abs := R.AbsRun(Labels(Start(ops), sched), Trace(Start(ops), sched));
            After(Start(ops), sched).tasks[t].result
            == Some(ops[t].k in abs[r].entries && M.ServiceOf(abs[r].entries, ops[t].k) == M.ServiceOf(abs[w].entries, ops[t].k))
  {
    var labels, trace := Labels(Start(ops), sched), Trace(Start(ops), sched);
    SchedulesAreAtomic(ops, sched);
    AlwaysAtomic(ops, sched);
    var task := After(Start(ops), sched).tasks[t];
    r, w :| BeatAt(sched, labels, trace, t, task, r, w);
    assert M.SplitHeartbeat(labels, t, r, w);
    R.HeartbeatOutcome(labels, trace, t, r, w);
  }
}
