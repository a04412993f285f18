/**
 The server's client of the registry: register, send heartbeats while a reader goroutine watches
 the replies, and after a loss back off and register again.

 `Run` and the heartbeat loop are one goroutine, the reader is another; a stop, a cancellation, what
 the registry sends and the fate of each dial and write come from outside. A read returns when there
 is something to return: a frame, a broken connection or a closed one. One action per step, in any
 interleaving.
 */
module Reconnect {

  import opened Backoff

  datatype Config = Config(maxFail: int, base: int, max: int)

  /** Where the goroutine of `Run` is; `Dialing`, `Requesting` and `Awaiting` are within `Register`. */
  datatype Phase =
    | AtTop | Dialing | Requesting | Awaiting | Beating(failCount: nat) | Joining | Sleeping(delay: int) | Exited

  /** The reader checks whether to stop, then reads, and so on. */
  datatype Reader = NoReader | Checking | Reading | ReaderDone

  /** A response of the registry, or anything else in a frame. */
  datatype Frame = Response(success: bool) | Other

  /**
   `connected` says that the field `conn` is not nil. Of that connection, `inbox` is what has arrived
   and was not read yet, and `broken` says that nothing more will come.
   */
  datatype Sys = Sys(phase: Phase, backoff: int, connected: bool, inbox: seq<Frame>, broken: bool,
                     reader: Reader, stopped: bool, cancelled: bool)

  datatype Event =
    // the goroutine of Run
    | Top
    | Dial(ok: bool)
    | Request(written: bool)
    | Answered(success: bool)
    | AnswerFails
    | Beat(written: bool)
    | BeatUnsent
    | BeatQuit
    | Join
    | Wake
    // the reader
    | Check
    | ReadReply(success: bool)
    | ReadOther
    | ReadFails
    // the outside
    | Arrive(f: Frame)
    | Break
    | StopSignal
    | StopClose
    | Cancel

  function Start(cfg: Config): Sys {
    Sys(AtTop, cfg.base, false, [], false, NoReader, false, false)
  }

  /** The failures that end the heartbeat loop. */
  function Limit(cfg: Config): (n: nat)
    ensures n >= 1 && n >= cfg.maxFail && (n == 1 || n == cfg.maxFail)
  {
    if cfg.maxFail <= 1 then 1 else cfg.maxFail
  }

  predicate Halted(s: Sys) {
    s.stopped || s.cancelled
  }

  /** A frame is there to be read. */
  predicate Ready(s: Sys) {
    s.connected && s.inbox != []
  }

  /** A read returns with an error. */
  predicate ReadError(s: Sys) {
    !s.connected || s.broken
  }

  predicate Enabled(s: Sys, e: Event) {
    match e
    case Top => s.phase.AtTop?
    case Dial(_) => s.phase.Dialing?
    case Request(written) => s.phase.Requesting? && (written ==> s.connected)
    case Answered(success) => s.phase.Awaiting? && Ready(s) && (success <==> s.inbox[0] == Response(true))
    case AnswerFails => s.phase.Awaiting? && ReadError(s)
    case Beat(written) => s.phase.Beating? && (written ==> s.connected)
    case BeatUnsent => s.phase.Beating?
    case BeatQuit => s.phase.Beating? && Halted(s)
    case Join => s.phase.Joining? && s.reader.ReaderDone?
    case Wake => s.phase.Sleeping?
    case Check => s.reader.Checking?
    case ReadReply(success) => s.reader.Reading? && Ready(s) && s.inbox[0] == Response(success)
    case ReadOther => s.reader.Reading? && Ready(s) && s.inbox[0].Other?
    case ReadFails => s.reader.Reading? && ReadError(s)
    case Arrive(_) => s.connected && !s.broken
    case Break => s.connected
    case StopSignal => true
    case StopClose => s.stopped
    case Cancel => true
  }

  /** The registration or the connection is lost: back off, unless there is a reason to leave. */
  function Failed(s: Sys): Sys {
    s.(phase := if Halted(s) then Exited else Sleeping(s.backoff))
  }

  function Closed(s: Sys): Sys {
    s.(connected := false, inbox := [])
  }

  function Next(cfg: Config, s: Sys, e: Event): Sys
    requires Enabled(s, e)
  {
    match e
    case Top => s.(phase := if Halted(s) then Exited else Dialing)
    // a failed dial leaves the field alone, every later failure closes the connection
    case Dial(ok) => if ok then s.(phase := Requesting, connected := true, inbox := [], broken := false) else Failed(s)
    case Request(written) => if written then s.(phase := Awaiting) else Failed(Closed(s))
    case Answered(success) =>
      if success then s.(phase := Beating(0), backoff := cfg.base, inbox := s.inbox[1..], reader := Checking)
      else Failed(Closed(s))
    case AnswerFails => Failed(Closed(s))
    case Beat(written) =>
      if written then s.(phase := Beating(0))
      else if s.phase.failCount + 1 >= cfg.maxFail then s.(phase := Joining)
      else s.(phase := Beating(s.phase.failCount + 1))
    case BeatUnsent => s
    case BeatQuit => s.(phase := Joining)
    case Join => Failed(s)
    case Wake => s.(phase := AtTop, backoff := GoNext(s.backoff, cfg.max))
    // the end of the heartbeat loop cancels the reader's context
    case Check => s.(reader := if Halted(s) || s.phase.Joining? then ReaderDone else Reading)
    case ReadReply(success) =>
      if success then s.(inbox := s.inbox[1..], reader := Checking) else Closed(s).(reader := ReaderDone)
    case ReadOther => s.(inbox := s.inbox[1..], reader := Checking)
    case ReadFails => s.(reader := ReaderDone)
    case Arrive(f) => s.(inbox := s.inbox + [f])
    case Break => s.(broken := true)
    case StopSignal => s.(stopped := true)
    case StopClose => Closed(s)
    case Cancel => s.(cancelled := true)
  }

  ghost predicate StepOf(cfg: Config, events: seq<Event>, states: seq<Sys>, i: nat)
    requires i < |events| && |states| == |events| + 1
  {
    Enabled(states[i], events[i]) && states[i + 1] == Next(cfg, states[i], events[i])
  }

  ghost predicate Run(cfg: Config, events: seq<Event>, states: seq<Sys>) {
    && |states| == |events| + 1
    && states[0] == Start(cfg)
    && forall i :: 0 <= i < |events| ==> StepOf(cfg, events, states, i)
  }

  // ----- the failure count

  /** The length of the run of failed heartbeat writes that the first `n` events end with. */
  function FailedWrites(events: seq<Event>, n: nat): nat
    requires n <= |events|
  {
    if n == 0 then 0
    else if events[n - 1] == Beat(false) then FailedWrites(events, n - 1) + 1
    else if events[n - 1] == Beat(true) || events[n - 1] == Answered(true) then 0
    else FailedWrites(events, n - 1)
  }

  lemma FailCountStep(cfg: Config, s: Sys, e: Event)
    requires Enabled(s, e) && Next(cfg, s, e).phase.Beating?
    ensures var count := Next(cfg, s, e).phase.failCount;
            if e == Answered(true) then count == 0
            else s.phase.Beating? && count == if e == Beat(false) then s.phase.failCount + 1
                                              else if e == Beat(true) then 0 else s.phase.failCount
    ensures e == Beat(false) ==> Next(cfg, s, e).phase.failCount < Limit(cfg)
  {}

  /** While the loop runs, `failCount` is the length of the current run of failed writes, below the limit. */
  lemma {:induction false} FailCountIsRunLength(cfg: Config, events: seq<Event>, states: seq<Sys>, n: nat)
    requires Run(cfg, events, states) && n < |states| && states[n].phase.Beating?
    ensures states[n].phase.failCount == FailedWrites(events, n) < Limit(cfg)
  {
    if n > 0 {
      assert StepOf(cfg, events, states, n - 1);
      FailCountStep(cfg, states[n - 1], events[n - 1]);
      if states[n - 1].phase.Beating? {
        FailCountIsRunLength(cfg, events, states, n - 1);
      }
    }
  }

  /**
   The heartbeat loop on its own, over what happens at its ticks: it returns at the first tick at
   which the run of failed writes reaches the limit, or at the first stop, and not before.
   */
  method HeartbeatLoop(cfg: Config, ticks: seq<Event>) returns (n: nat, returned: bool)
    requires forall i :: 0 <= i < |ticks| ==> ticks[i].Beat? || ticks[i].BeatUnsent? || ticks[i].BeatQuit?
    ensures n <= |ticks| && (!returned ==> n == |ticks|)
    ensures returned ==> n > 0 && (ticks[n - 1].BeatQuit? || FailedWrites(ticks, n) == Limit(cfg))
    ensures forall m :: 0 <= m < n ==> FailedWrites(ticks, m) < Limit(cfg)
    ensures !returned ==> FailedWrites(ticks, n) < Limit(cfg)
    ensures forall m :: 0 <= m < n - 1 ==> !ticks[m].BeatQuit?
  {
    var failCount := 0;
    n := 0;
    while n < |ticks|
      invariant n <= |ticks|
      invariant failCount == FailedWrites(ticks, n) < Limit(cfg)
      invariant forall m :: 0 <= m < n ==> FailedWrites(ticks, m) < Limit(cfg)
      invariant forall m :: 0 <= m < n ==> !ticks[m].BeatQuit?
    {
      n := n + 1;
      match ticks[n - 1]
      case BeatQuit => return n, true;
      case BeatUnsent =>
      case Beat(written) =>
        if written {
          failCount := 0;
        } else {
          failCount := failCount + 1;
          if failCount >= cfg.maxFail {
            return n, true;
          }
        }
    }
    returned := false;
  }

  // ----- after a rejection

  /** The heartbeat loop runs on without a connection, and the reader has left. */
  predicate Rejected(s: Sys) {
    s.phase.Beating? && !s.connected && s.reader.ReaderDone?
  }

  /** The ticks in steps `i..n` at which a heartbeat was ready to be written. */
  function Ticks(events: seq<Event>, i: nat, n: nat): nat
    requires i <= n <= |events|
  {
    if i == n then 0 else Ticks(events, i, n - 1) + if events[n - 1].Beat? then 1 else 0
  }

  /**
   In step `i` the reader reads a rejection while the heartbeat loop runs, with failure count `f`.
   From then on, until the next registration and as long as nobody stops or cancels: the loop is
   running exactly as long as it has seen fewer than `Limit - f` ticks, every one of which counts one
   failure, and it returns with the (Limit - f)-th, no earlier and no later. The reader has left.
   */
  lemma {:induction false} LoopEndsAfter(cfg: Config, events: seq<Event>, states: seq<Sys>, i: nat, n: nat)
    requires Run(cfg, events, states) && i < n < |states|
    requires states[i].phase.Beating? && events[i] == ReadReply(false)
    requires !Halted(states[n])
    requires forall j :: i < j < n ==> events[j] != Answered(true)
    ensures var f := states[i].phase.failCount;
            && f < Limit(cfg)
            && (Ticks(events, i, n) < Limit(cfg) - f <==> states[n].phase.Beating?)
            && (states[n].phase.Beating? ==> Rejected(states[n]) && states[n].phase.failCount == f + Ticks(events, i, n))
            && (!states[n].phase.Beating? ==> Ticks(events, i, n) == Limit(cfg) - f)
            && states[n].reader.ReaderDone?
  {
    FailCountIsRunLength(cfg, events, states, i);
    assert StepOf(cfg, events, states, n - 1);
    if i < n - 1 {
      LoopEndsAfter(cfg, events, states, i, n - 1);
    }
  }

  // ----- from the end of the loop to the next registration

  /** The steps of the goroutine of `Run`. */
  predicate OfRun(e: Event) {
    || e.Top? || e.Dial? || e.Request? || e.Answered? || e.AnswerFails?
    || e.Beat? || e.BeatUnsent? || e.BeatQuit? || e.Join? || e.Wake?
  }

  function RunSteps(events: seq<Event>, i: nat, n: nat): nat
    requires i <= n <= |events|
  {
    if i == n then 0 else RunSteps(events, i, n - 1) + if OfRun(events[n - 1]) then 1 else 0
  }

  /**
   Once the loop has returned and the reader has left, unless stopped or cancelled: the next three
   steps of `Run` are to sleep for the present back-off, to wake up and to try to register again.
   None of them can be blocked.
   */
  lemma {:induction false} RegistersAgain(cfg: Config, events: seq<Event>, states: seq<Sys>, i: nat, n: nat)
    requires Run(cfg, events, states) && i <= n < |states|
    requires states[i].phase.Joining? && states[i].reader.ReaderDone?
    requires !Halted(states[n]) && RunSteps(events, i, n) <= 3
    ensures !Halted(states[i])
    ensures var r := RunSteps(events, i, n);
            && (r == 0 ==> states[n].phase.Joining? && Enabled(states[n], Join))
            && (r == 1 ==> states[n].phase == Sleeping(states[i].backoff) && Enabled(states[n], Wake))
            && (r == 2 ==> states[n].phase.AtTop? && states[n].backoff == GoNext(states[i].backoff, cfg.max))
            && (r == 3 ==> states[n].phase.Dialing?)
            && (r <= 1 ==> states[n].backoff == states[i].backoff)
            && states[n].reader.ReaderDone?
  {
    if i < n {
      assert StepOf(cfg, events, states, n - 1);
      RegistersAgain(cfg, events, states, i, n - 1);
    }
  }

  /** The steps of `Run` in `i..n` that are not steps of its heartbeat loop. */
  function StepsBeside(events: seq<Event>, i: nat, n: nat): nat
    requires i <= n <= |events|
  {
    if i == n then 0
    else
      var e := events[n - 1];
      StepsBeside(events, i, n - 1) + if OfRun(e) && !e.Beat? && !e.BeatUnsent? && !e.BeatQuit? then 1 else 0
  }

  /**
   Self-healing, from the rejection to the next registration. In step `i` the reader reads a rejection
   while the heartbeat loop runs, with failure count `f`. As long as nobody stops or cancels, the loop
   runs for exactly `Limit - f` more ticks; then the steps of `Run` are to take leave of the reader, to
   sleep for the base delay, to wake up and to dial. It can take each of them as soon as it is there.
   */
  lemma {:induction false} SelfHeals(cfg: Config, events: seq<Event>, states: seq<Sys>, i: nat, n: nat)
    requires Run(cfg, events, states) && i < n < |states|
    requires states[i].phase.Beating? && events[i] == ReadReply(false)
    requires !Halted(states[n]) && StepsBeside(events, i, n) <= 3
    ensures var ticks, steps, s := Ticks(events, i, n), StepsBeside(events, i, n), states[n];
            var left := Limit(cfg) - states[i].phase.failCount;
            && 0 < left && ticks <= left && s.reader.ReaderDone?
            && (ticks < left ==> steps == 0 && Rejected(s) && s.phase.failCount == states[i].phase.failCount + ticks
                                 && !Enabled(s, Beat(true)) && Enabled(s, Beat(false)))
            && (ticks == left && steps == 0 ==> s.phase.Joining? && Enabled(s, Join))
            && (ticks == left && steps == 1 ==> s.phase == Sleeping(cfg.base) && Enabled(s, Wake))
            && (ticks == left && steps == 2 ==> s.phase.AtTop? && Enabled(s, Top))
            && (ticks == left && steps == 3 ==> s.phase.Dialing?)
  {
    FailCountIsRunLength(cfg, events, states, i);
    BackoffOverRun(cfg, events, states, n - 1);
    assert StepOf(cfg, events, states, n - 1);
    if i < n - 1 {
      SelfHeals(cfg, events, states, i, n - 1);
    }
  }

  // ----- where the client hangs

  predicate OfReader(e: Event) {
    e.Check? || e.ReadReply? || e.ReadOther? || e.ReadFails?
  }

  /** Neither goroutine of the client can take a step, though `Run` has not returned. */
  ghost predicate Stuck(s: Sys) {
    !s.phase.Exited? && forall e :: OfRun(e) || OfReader(e) ==> !Enabled(s, e)
  }

  /** A read on this connection does not return. */
  predicate Silent(s: Sys) {
    s.connected && !s.broken && s.inbox == []
  }

  /** `Register` waits for the answer to its request. */
  predicate AwaitsAnswer(s: Sys) {
    s.phase.Awaiting? && Silent(s)
  }

  /** `Run` waits for the reader, which waits for the registry. */
  predicate AwaitsReader(s: Sys) {
    s.phase.Joining? && s.reader.Reading? && Silent(s)
  }

  /** The reader is at work during the heartbeat loop and until `Run` has waited for it. */
  predicate ReaderInLoop(s: Sys) {
    && (s.reader.Checking? || s.reader.Reading? ==> s.phase.Beating? || s.phase.Joining?)
    && (s.phase.Beating? || s.phase.Joining? ==> !s.reader.NoReader?)
  }

  lemma {:induction false} AlwaysInLoop(cfg: Config, events: seq<Event>, states: seq<Sys>, n: nat)
    requires Run(cfg, events, states) && n < |states|
    ensures ReaderInLoop(states[n])
  {
    if n > 0 {
      assert StepOf(cfg, events, states, n - 1);
      AlwaysInLoop(cfg, events, states, n - 1);
    }
  }

  /** A step that one of the goroutines can take, if there is one. */
  function OwnStep(s: Sys): Event {
    match s.phase
    case AtTop => Top
    case Dialing => Dial(false)
    case Requesting => Request(false)
    case Awaiting => if Ready(s) then Answered(s.inbox[0] == Response(true)) else AnswerFails
    case Beating(_) => if Halted(s) then BeatQuit else BeatUnsent
    case Joining =>
      if s.reader.Checking? then Check
      else if s.reader.ReaderDone? then Join
      else if !Ready(s) then ReadFails
      else if s.inbox[0].Other? then ReadOther
      else ReadReply(s.inbox[0].success)
    case Sleeping(_) => Wake
    case Exited => Top
  }

  /**
   In every reachable state, the client hangs if and only if a silent connection is read in one of two
   places: by `Register`, for the answer to its request, or by the reader that `Run` waits for.
   */
  lemma StuckIff(cfg: Config, events: seq<Event>, states: seq<Sys>, n: nat)
    requires Run(cfg, events, states) && n < |states|
    ensures Stuck(states[n]) <==> AwaitsAnswer(states[n]) || AwaitsReader(states[n])
  {
    var s := states[n];
    AlwaysInLoop(cfg, events, states, n);
    if !s.phase.Exited? && !AwaitsAnswer(s) && !AwaitsReader(s) {
      assert Enabled(s, OwnStep(s)) && (OfRun(OwnStep(s)) || OfReader(OwnStep(s)));
    }
  }

  /**
   What frees it: a frame, the end of the connection, or the closing half of a stop. Neither a
   cancellation nor the stop signal itself does.
   */
  lemma FreedIff(cfg: Config, events: seq<Event>, states: seq<Sys>, n: nat)
    requires Run(cfg, events, states) && n < |events| && Stuck(states[n])
    ensures !Stuck(states[n + 1]) <==> events[n].Arrive? || events[n].Break? || events[n].StopClose?
  {
    assert StepOf(cfg, events, states, n);
    StuckIff(cfg, events, states, n);
    StuckIff(cfg, events, states, n + 1);
  }

  /** The steps the reader can still take once `Run` waits for it. */
  function ReaderLeft(r: Reader): nat {
    match r case Reading => 2 case Checking => 1 case _ => 0
  }

  function ReaderSteps(events: seq<Event>, i: nat, n: nat): nat
    requires i <= n <= |events|
  {
    if i == n then 0 else ReaderSteps(events, i, n - 1) + if OfReader(events[n - 1]) then 1 else 0
  }

  lemma ReaderStep(cfg: Config, s: Sys, e: Event)
    requires Enabled(s, e) && (s.phase.Joining? || Halted(s)) && e != Answered(true)
    ensures (if OfReader(e) then 1 else 0) + ReaderLeft(Next(cfg, s, e).reader) <= ReaderLeft(s.reader)
    ensures !OfReader(e) ==> Next(cfg, s, e).reader == s.reader
    ensures OfReader(e) ==> Next(cfg, s, e).reader.Checking? || Next(cfg, s, e).reader.ReaderDone?
  {}

  /** While `Run` waits for it, or once halted, the reader returns from one read at most, and leaves after that. */
  lemma {:induction false} ReaderLeaves(cfg: Config, events: seq<Event>, states: seq<Sys>, i: nat, n: nat)
    requires Run(cfg, events, states) && i <= n < |states|
    requires forall j :: i <= j <= n ==> states[j].phase.Joining? || Halted(states[j])
    requires forall j :: i <= j < n ==> events[j] != Answered(true)
    ensures ReaderSteps(events, i, n) + ReaderLeft(states[n].reader) <= ReaderLeft(states[i].reader)
    ensures states[i].reader.Reading? && !states[n].reader.Reading? ==>
              states[n].reader.ReaderDone? || Enabled(states[n], Check)
  {
    if i < n {
      assert StepOf(cfg, events, states, n - 1);
      ReaderLeaves(cfg, events, states, i, n - 1);
      ReaderStep(cfg, states[n - 1], events[n - 1]);
    }
  }

  /** A run goes on with one more step. */
  lemma OneStepMore(cfg: Config, events: seq<Event>, states: seq<Sys>, e: Event)
    returns (events': seq<Event>, states': seq<Sys>)
    requires Run(cfg, events, states) && Enabled(states[|events|], e)
    ensures Run(cfg, events', states') && events' == events + [e]
    ensures states' == states + [Next(cfg, states[|events|], e)]
  {
    events', states' := events + [e], states + [Next(cfg, states[|events|], e)];
    forall i | 0 <= i < |events'| ensures StepOf(cfg, events', states', i) {
      if i < |events| { assert StepOf(cfg, events, states, i); }
    }
  }

  /** A registry that takes the connection and never answers: the client hangs in `Register`. */
  lemma AnswerNeverComes(cfg: Config) returns (events: seq<Event>, states: seq<Sys>)
    ensures Run(cfg, events, states) && events == [Top, Dial(true), Request(true)]
    ensures Stuck(states[3]) && AwaitsAnswer(states[3]) && !Halted(states[3])
  {
    events, states := [], [Start(cfg)];
    events, states := OneStepMore(cfg, events, states, Top);
    events, states := OneStepMore(cfg, events, states, Dial(true));
    events, states := OneStepMore(cfg, events, states, Request(true));
    StuckIff(cfg, events, states, 3);
  }

  /** It can even hang there after a stop, if that came while the client was dialing. */
  lemma StopCanComeTooEarly(cfg: Config) returns (events: seq<Event>, states: seq<Sys>)
    ensures Run(cfg, events, states) && events == [Top, StopSignal, StopClose, Dial(true), Request(true)]
    ensures Stuck(states[5]) && AwaitsAnswer(states[5]) && states[5].stopped
  {
    events, states := [], [Start(cfg)];
    events, states := OneStepMore(cfg, events, states, Top);
    events, states := OneStepMore(cfg, events, states, StopSignal);
    events, states := OneStepMore(cfg, events, states, StopClose);
    events, states := OneStepMore(cfg, events, states, Dial(true));
    events, states := OneStepMore(cfg, events, states, Request(true));
    StuckIff(cfg, events, states, 5);
  }

  /** A run up to the heartbeat loop, with the reader in its first read. */
  lemma Registered(cfg: Config) returns (events: seq<Event>, states: seq<Sys>)
    ensures Run(cfg, events, states) && |events| == 6
    ensures var s := states[6]; s.phase == Beating(0) && s.reader.Reading? && Silent(s) && !Halted(s)
    ensures forall i :: 0 <= i < 6 ==> !events[i].Beat?
  {
    events, states := AnswerNeverComes(cfg);
    events, states := OneStepMore(cfg, events, states, Arrive(Response(true)));
    events, states := OneStepMore(cfg, events, states, Answered(true));
    events, states := OneStepMore(cfg, events, states, Check);
  }

  /** A cancellation ends the heartbeat loop, and the client hangs waiting for its reader. */
  lemma ReaderNeverReturns(cfg: Config) returns (events: seq<Event>, states: seq<Sys>)
    ensures Run(cfg, events, states) && |events| == 8 && WritesFailOnBroken(events, states)
    ensures Stuck(states[8]) && AwaitsReader(states[8]) && states[8].cancelled && !states[8].stopped
  {
    events, states := Registered(cfg);
    events, states := OneStepMore(cfg, events, states, Cancel);
    events, states := OneStepMore(cfg, events, states, BeatQuit);
    StuckIff(cfg, events, states, 8);
  }

  /** A write fails only on a connection that is closed or broken, on which a read does not block either. */
  ghost predicate WritesFailOnBroken(events: seq<Event>, states: seq<Sys>)
    requires |states| == |events| + 1
  {
    forall i :: 0 <= i < |events| && events[i] == Beat(false) ==> ReadError(states[i])
  }

  /** The heartbeat loop was left for a stop or a cancellation, or on a connection that reads no longer block on. */
  lemma {:induction false} LeftForAReason(cfg: Config, events: seq<Event>, states: seq<Sys>, n: nat)
    requires Run(cfg, events, states) && WritesFailOnBroken(events, states) && n < |states|
    ensures states[n].phase.Joining? ==> Halted(states[n]) || ReadError(states[n])
  {
    if n > 0 {
      assert StepOf(cfg, events, states, n - 1);
      LeftForAReason(cfg, events, states, n - 1);
    }
  }

  /**
   On connections whose writes fail only when they are closed or broken, `Run` hangs waiting for its
   reader only after a stop signal or a cancellation. A loop that gave up after failed heartbeats
   never leads there: the reader's read returns as well.
   */
  lemma ReaderHangsOnlyIfHalted(cfg: Config, events: seq<Event>, states: seq<Sys>, n: nat)
    requires Run(cfg, events, states) && WritesFailOnBroken(events, states) && n < |states|
    ensures AwaitsReader(states[n]) ==> Halted(states[n])
    ensures Stuck(states[n]) && !Halted(states[n]) ==> AwaitsAnswer(states[n])
  {
    LeftForAReason(cfg, events, states, n);
    StuckIff(cfg, events, states, n);
  }

  // ----- after a stop or a cancellation

  /** `Run` returns for a stop or a cancellation, and for nothing else. */
  lemma {:induction false} ExitsOnlyIfHalted(cfg: Config, events: seq<Event>, states: seq<Sys>, n: nat)
    requires Run(cfg, events, states) && n < |states|
    ensures states[n].phase.Exited? ==> Halted(states[n])
  {
    if n > 0 {
      assert StepOf(cfg, events, states, n - 1);
      ExitsOnlyIfHalted(cfg, events, states, n - 1);
    }
  }

  /** A failed registration, or the end of a connection, or a new round. */
  predicate Decides(e: Event) {
    || e.Top? || e == Dial(false) || e == Request(false) || e == Answered(false) || e.AnswerFails? || e.Join?
  }

  /**
   Once halted, `Run` returns wherever it looks: before each round, after a failed registration and
   after the heartbeat loop. Otherwise these lead to the next dial or the next sleep. A registration
   that failed after dialing leaves no connection behind.
   */
  lemma HaltDecides(cfg: Config, events: seq<Event>, states: seq<Sys>, i: nat)
    requires Run(cfg, events, states) && i < |events| && Decides(events[i])
    ensures Halted(states[i]) <==> states[i + 1].phase.Exited?
    ensures !Halted(states[i]) ==>
              states[i + 1].phase == if events[i].Top? then Dialing else Sleeping(states[i].backoff)
    ensures events[i] == Request(false) || events[i] == Answered(false) || events[i].AnswerFails? ==> !states[i + 1].connected
  {
    assert StepOf(cfg, events, states, i);
    ExitsOnlyIfHalted(cfg, events, states, i + 1);
  }

  /** A new connection is open, with nothing read from it and nothing left over from an earlier one. */
  lemma NewConnection(cfg: Config, events: seq<Event>, states: seq<Sys>, i: nat)
    requires Run(cfg, events, states) && i < |events| && events[i] == Dial(true)
    ensures Silent(states[i + 1]) && states[i + 1].phase.Requesting?
  {
    assert StepOf(cfg, events, states, i);
  }

  /** The steps, beside those of the heartbeat loop, and the registrations that `Run` has left once halted. */
  function StepsLeft(p: Phase): nat {
    match p
    case Dialing => 4
    case Requesting => 3
    case Awaiting => 2
    case Sleeping(_) => 2
    case AtTop => 1
    case Beating(_) => 1
    case Joining => 1
    case Exited => 0
  }

  function RegistrationsLeft(p: Phase): nat {
    if p.Dialing? || p.Requesting? || p.Awaiting? then 1 else 0
  }

  function Registrations(events: seq<Event>, i: nat, n: nat): nat
    requires i <= n <= |events|
  {
    if i == n then 0 else Registrations(events, i, n - 1) + if events[n - 1] == Answered(true) then 1 else 0
  }

  /**
   From a stop or a cancellation on, `Run` completes at most one registration, the one it was at, and
   takes at most four steps beside those of the heartbeat loop.
   */
  lemma {:induction false} HaltBounds(cfg: Config, events: seq<Event>, states: seq<Sys>, i: nat, n: nat)
    requires Run(cfg, events, states) && i <= n < |states| && Halted(states[i])
    ensures Halted(states[n])
    ensures StepsBeside(events, i, n) + StepsLeft(states[n].phase) <= StepsLeft(states[i].phase) <= 4
    ensures Registrations(events, i, n) + RegistrationsLeft(states[n].phase) <= RegistrationsLeft(states[i].phase) <= 1
  {
    if i < n {
      HaltBounds(cfg, events, states, i, n - 1);
      assert StepOf(cfg, events, states, n - 1);
      HaltStep(cfg, states[n - 1], events[n - 1]);
    }
  }

  lemma HaltStep(cfg: Config, s: Sys, e: Event)
    requires Enabled(s, e) && Halted(s)
    ensures Halted(Next(cfg, s, e))
    ensures (if OfRun(e) && !e.Beat? && !e.BeatUnsent? && !e.BeatQuit? then 1 else 0) + StepsLeft(Next(cfg, s, e).phase)
            <= StepsLeft(s.phase)
    ensures (if e == Answered(true) then 1 else 0) + RegistrationsLeft(Next(cfg, s, e).phase) <= RegistrationsLeft(s.phase)
  {}

  /** It dials only if it was about to, and before anything else. */
  lemma HaltedDials(cfg: Config, events: seq<Event>, states: seq<Sys>, i: nat, n: nat)
    requires Run(cfg, events, states) && i <= n < |events| && Halted(states[i]) && events[n].Dial?
    ensures states[i].phase.Dialing? && StepsBeside(events, i, n) == 0
  {
    assert StepOf(cfg, events, states, n);
    HaltBounds(cfg, events, states, i, n);
  }

  /** The steps to the end if each goroutine does what it can: the reader leaves, then `Run` returns. */
  function ToTheEnd(s: Sys): nat {
    match s.phase
    case Exited => 0
    case AtTop => 1
    case Dialing => 1
    case Requesting => 1
    case Sleeping(_) => 2
    case Joining => 1 + ReaderLeft(s.reader)
    case Beating(_) => 2 + ReaderLeft(s.reader)
    case Awaiting => 4
  }

  lemma OwnStepEnds(cfg: Config, s: Sys)
    requires Halted(s) && ReaderInLoop(s) && !s.phase.Exited? && !AwaitsAnswer(s) && !AwaitsReader(s)
    ensures Enabled(s, OwnStep(s)) && (OfRun(OwnStep(s)) || OfReader(OwnStep(s)))
    ensures var s' := Next(cfg, s, OwnStep(s));
            Halted(s') && ToTheEnd(s') < ToTheEnd(s) <= 4
  {}

  /**
   And it does return: from every reachable state after a stop or a cancellation the client's own steps
   lead, in at most four, to the end of `Run`, or to one of the two places where it hangs.
   */
  lemma {:induction false} HaltedRunEnds(cfg: Config, events: seq<Event>, states: seq<Sys>)
    returns (events': seq<Event>, states': seq<Sys>)
    requires Run(cfg, events, states) && Halted(states[|events|])
    ensures Run(cfg, events', states') && events <= events' && |events'| <= |events| + ToTheEnd(states[|events|])
    ensures forall i :: |events| <= i < |events'| ==> OfRun(events'[i]) || OfReader(events'[i])
    ensures states'[|events'|].phase.Exited? || Stuck(states'[|events'|])
    ensures ToTheEnd(states[|events|]) <= 4
    decreases ToTheEnd(states[|events|])
  {
    var s := states[|events|];
    AlwaysInLoop(cfg, events, states, |events|);
    StuckIff(cfg, events, states, |events|);
    events', states' := events, states;
    if !s.phase.Exited? && !Stuck(s) {
      OwnStepEnds(cfg, s);
      events', states' := OneStepMore(cfg, events, states, OwnStep(s));
      events', states' := HaltedRunEnds(cfg, events', states');
    }
  }

  // ----- the back-off over a run

  /** The failures in a row that the first `n` events end with: waits since the last registration. */
  function Failures(events: seq<Event>, n: nat): nat
    requires n <= |events|
  {
    if n == 0 then 0
    else if events[n - 1] == Answered(true) then 0
    else Failures(events, n - 1) + if events[n - 1].Wake? then 1 else 0
  }

  lemma BackoffStep(cfg: Config, s: Sys, e: Event)
    requires Enabled(s, e)
    ensures var s' := Next(cfg, s, e);
            && s'.backoff == (if e == Answered(true) then cfg.base else if e.Wake? then GoNext(s.backoff, cfg.max) else s.backoff)
            && (s'.phase.Beating? || s'.phase.Joining? ==> e == Answered(true) || (!e.Wake? && (s.phase.Beating? || s.phase.Joining?)))
            && (s'.phase.Sleeping? ==> s'.phase.delay == s'.backoff || (s'.phase == s.phase && s'.backoff == s.backoff))
  {}

  /**
   In every state of every run the back-off is the delay for the failures since the last successful
   registration, whose closed form `Backoff.GoClosedForm` gives; in the heartbeat loop and right
   after it that is the base delay.
   */
  lemma {:induction false} BackoffOverRun(cfg: Config, events: seq<Event>, states: seq<Sys>, n: nat)
    requires Run(cfg, events, states) && n < |states|
    ensures states[n].backoff == GoDelay(cfg.base, cfg.max, Failures(events, n))
    ensures states[n].phase.Beating? || states[n].phase.Joining? ==> Failures(events, n) == 0
    ensures states[n].phase.Sleeping? ==> states[n].phase.delay == states[n].backoff
  {
    if n > 0 {
      assert StepOf(cfg, events, states, n - 1);
      BackoffOverRun(cfg, events, states, n - 1);
      BackoffStep(cfg, states[n - 1], events[n - 1]);
    }
  }

  /**
   The limit itself is the number of further ticks only when no write had failed before the
   rejection: with a limit of two and one failed write before, a single tick ends the loop.
   */
  lemma EarlierFailuresCount() returns (cfg: Config, events: seq<Event>, states: seq<Sys>)
    ensures Run(cfg, events, states) && WritesFailOnBroken(events, states) && Limit(cfg) == 2 && |events| == 11
    ensures states[9].phase == Beating(1) && events[9] == ReadReply(false)
    ensures states[11].phase.Joining? && Ticks(events, 9, 11) == 1
  {
    cfg := Config(2, 1, 30);
    events, states := Registered(cfg);
    events, states := OneStepMore(cfg, events, states, Arrive(Response(false)));
    events, states := OneStepMore(cfg, events, states, Break);
    events, states := OneStepMore(cfg, events, states, Beat(false));
    events, states := OneStepMore(cfg, events, states, ReadReply(false));
    events, states := OneStepMore(cfg, events, states, Beat(false));
    assert Ticks(events, 9, 9) == 0 && Ticks(events, 9, 10) == 0;
  }
}
