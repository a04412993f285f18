/**
 The caller's retry loop, and which failures it retries. The loop itself keeps its promise; but of
 everything that a remote call can throw, nothing is retryable, so in use the loop runs the call
 exactly once.
 */
module Retry {

  import opened Common
  import opened Backoff

  /** Exceptions as far as the retry rule tells them apart. */
  datatype Throwable =
    | IoError
    | SocketError
    | TimeoutError
    | RpcError(code: int, cause: Option<Throwable>)
    | OtherError(kind: string, cause: Option<Throwable>)

  predicate Transient(e: Throwable) {
    e.IoError? || e.SocketError? || e.TimeoutError?
  }

  predicate IsRetryable(e: Throwable) {
    match e
    case RpcError(_, cause) => cause.Some? && IsRetryable(cause.value)
    case OtherError(_, _) => false
    case _ => true
  }

  /** Under exactly `n` wrappers of the RPC kind there is an I/O, socket or timeout error. */
  predicate TransientUnder(e: Throwable, n: nat) {
    if n == 0 then Transient(e)
    else e.RpcError? && e.cause.Some? && TransientUnder(e.cause.value, n - 1)
  }

  lemma {:induction false} UnderIsRetryable(e: Throwable, n: nat)
    requires TransientUnder(e, n)
    ensures IsRetryable(e)
  {
    if n > 0 { UnderIsRetryable(e.cause.value, n - 1); }
  }

  lemma {:induction false} RetryableIsUnder(e: Throwable) returns (n: nat)
    requires IsRetryable(e)
    ensures TransientUnder(e, n)
  {
    if e.RpcError? {
      n := RetryableIsUnder(e.cause.value);
      n := n + 1;
    } else {
      n := 0;
    }
  }

  ghost predicate ReachesTransient(e: Throwable) {
    exists n: nat :: TransientUnder(e, n)
  }

  /** Retryable means: stripping RPC wrappers, and nothing else, reaches a transient error. */
  lemma RetryableIff(e: Throwable)
    ensures IsRetryable(e) <==> ReachesTransient(e)
  {
    if IsRetryable(e) {
      var n := RetryableIsUnder(e);
      assert ReachesTransient(e);
    }
    if ReachesTransient(e) {
      var n: nat :| TransientUnder(e, n);
      UnderIsRetryable(e, n);
    }
  }

  datatype Attempt<T> = Returns(value: T) | Throws(error: Throwable)

  const NEGATIVE_SLEEP: Throwable := OtherError("IllegalArgumentException", None)

  /** The attempt ends the loop: it is the last one, or it succeeded, or its failure is not retryable. */
  predicate Ends<T>(maxRetries: int, n: nat, a: Attempt<T>) {
    n == maxRetries || a.Returns? || !IsRetryable(a.error)
  }

  /** What `execute` promises of an outcome, the number of times the action ran, and the sleeps in between. */
  ghost predicate Executed<T>(maxRetries: int, base: int, max: int, action: nat -> Attempt<T>,
                              r: Attempt<T>, runs: nat, sleeps: seq<int>)
  {
    && runs <= maxRetries + 1
    && runs == |sleeps| + 1
    // every attempt but the last was followed by a retryable failure and a sleep
    && (forall i :: 0 <= i < |sleeps| ==> !Ends(maxRetries, i, action(i)) && sleeps[i] >= 0)
    && sleeps == KotlinDelays(base, max, |sleeps|)
    // the outcome is that of the last attempt, unless the arithmetic of the delay overflowed
    && (if Ends(maxRetries, runs - 1, action(runs - 1)) then r == action(runs - 1)
        else KotlinDelay(base, max, runs - 1) < 0 && r == Throws(NEGATIVE_SLEEP))
  }

  /**
   `execute`, with `action(i)` for what the action does when it is run for the i-th time. Besides the
   outcome it returns how often the action ran and how long the loop slept in between.
   */
  method Execute<T>(maxRetries: int, base: int, max: int, action: nat -> Attempt<T>)
    returns (r: Attempt<T>, runs: nat, sleeps: seq<int>)
    ensures maxRetries < 0 ==> runs == 0 && sleeps == [] && r == Throws(RpcError(-1, None))
    ensures maxRetries >= 0 ==> Executed(maxRetries, base, max, action, r, runs, sleeps)
  {
    var delay := base;
    runs, sleeps := 0, [];
    while runs <= maxRetries
      invariant maxRetries >= 0 ==> runs <= maxRetries
      invariant maxRetries < 0 ==> runs == 0
      invariant delay == KotlinDelay(base, max, runs)
      invariant sleeps == KotlinDelays(base, max, runs)
      invariant forall i :: 0 <= i < runs ==> !Ends(maxRetries, i, action(i)) && sleeps[i] >= 0
      decreases maxRetries - runs
    {
      var attempt := runs;
      r := action(attempt);
      runs := runs + 1;
      if Ends(maxRetries, attempt, r) {
        return;
      }
      if delay < 0 {
        r := Throws(NEGATIVE_SLEEP);
        return;
      }
      sleeps := sleeps + [delay];
      delay := KotlinNext(delay, max);
    }
    r := Throws(RpcError(-1, None));
  }

  /**
   For sensible delays: the outcome is exactly the last attempt's, which succeeded, failed for good
   or used up the retries, and the sleeps are min(base * 2^i, max).
   */
  lemma ExecutedWithSensibleDelays<T>(maxRetries: int, base: int, max: int, action: nat -> Attempt<T>,
                                      r: Attempt<T>, runs: nat, sleeps: seq<int>)
    requires Executed(maxRetries, base, max, action, r, runs, sleeps) && 0 < base <= max < TWO62
    ensures 1 <= runs <= maxRetries + 1 && r == action(runs - 1)
    ensures r.Returns? || !IsRetryable(r.error) || runs == maxRetries + 1
    ensures forall i :: 0 <= i < runs - 1 ==> action(i).Throws? && IsRetryable(action(i).error)
    ensures forall i :: 0 <= i < |sleeps| ==> sleeps[i] == Min(base * Pow2(i), max)
  {
    KotlinDoubles(base, max, runs - 1);
    DoubledGrows(base, runs - 1, runs - 1);
    KotlinDelaysClosed(base, max, |sleeps|);
    assert forall i :: 0 <= i < runs - 1 ==> !Ends(maxRetries, i, action(i));
  }

  // ----- what a remote call can throw

  /** The ways in which the body of a proxied call fails. */
  datatype Fault =
    | NoInstances
    | ConnectFailed(cause: Option<Throwable>)
    | FutureFailed(failure: Throwable)
    | Interrupted
    | SendFailed(kind: string)
    | ServerReplied(code: int)
    | ParseFailed

  /**
   The exception that reaches the retry loop. `get` on a future that was completed exceptionally
   throws an ExecutionException around the cause, and a failed connect is a RuntimeException.
   */
  function Thrown(f: Fault): Throwable {
    match f
    case NoInstances => RpcError(-1, None)
    case ConnectFailed(cause) => OtherError("RuntimeException", Some(OtherError("RuntimeException", cause)))
    case FutureFailed(failure) => RpcError(-1, Some(OtherError("ExecutionException", Some(failure))))
    case Interrupted => RpcError(-1, Some(OtherError("InterruptedException", None)))
    case SendFailed(kind) => RpcError(-1, Some(OtherError(kind, None)))
    case ServerReplied(_) => OtherError("ServerException", None)
    case ParseFailed => OtherError("InvocationTargetException", None)
  }

  datatype CallOutcome<T> = Value(value: T) | Failed(fault: Fault)

  function AsAttempt<T>(o: CallOutcome<T>): Attempt<T> {
    match o
    case Value(v) => Returns(v)
    case Failed(f) => Throws(Thrown(f))
  }

  /**
   A proxied call: whatever the remote side, the network and the timer do, the body runs exactly
   once and its outcome is passed on; timeouts, closed connections and failed connects included.
   */
  method Invoke<T>(maxRetries: int, base: int, max: int, body: nat -> CallOutcome<T>)
    returns (r: Attempt<T>, runs: nat)
    ensures maxRetries >= 0 ==> runs == 1 && r == AsAttempt(body(0))
  {
    var action := (i: nat) => AsAttempt(body(i));
    var sleeps;
    r, runs, sleeps := Execute(maxRetries, base, max, action);
    if body(0).Failed? { NothingIsRetried(body(0).fault); }
    assert Ends(maxRetries, 0, action(0));
  }

  lemma NothingIsRetried(f: Fault)
    ensures !IsRetryable(Thrown(f))
  {
    match f
    case FutureFailed(failure) => assert !IsRetryable(OtherError("ExecutionException", Some(failure)));
    case SendFailed(kind) => assert !IsRetryable(OtherError(kind, None));
    case _ =>
  }

  /** An exception and the causes under it. */
  function Chain(e: Throwable): seq<Throwable> {
    [e] + if (e.RpcError? || e.OtherError?) && e.cause.Some? then Chain(e.cause.value) else []
  }

  /**
   What failed is still to be seen: the exception that a caller gets has the failure of its future two
   causes below, behind the ExecutionException that hides it from the retry rule, and the cause of a
   failed connect at the same depth. If that failure is a timeout, it would be retryable by itself.
   */
  lemma FailuresAreWrapped(f: Fault)
    ensures f.FutureFailed? ==>
              && Thrown(f).RpcError? && |Chain(Thrown(f))| >= 3 && Chain(Thrown(f))[2] == f.failure
              && Chain(Thrown(f))[1].OtherError? && Chain(Thrown(f))[1].kind == "ExecutionException"
    ensures f.ConnectFailed? && f.cause.Some? ==> |Chain(Thrown(f))| >= 3 && Chain(Thrown(f))[2] == f.cause.value
    ensures IsRetryable(TimeoutError) && IsRetryable(RpcError(-1, Some(TimeoutError)))
  {
    if f.FutureFailed? {
      var wrapped := OtherError("ExecutionException", Some(f.failure));
      assert Chain(wrapped) == [wrapped] + Chain(f.failure);
      assert Chain(Thrown(f)) == [Thrown(f)] + Chain(wrapped);
    } else if f.ConnectFailed? && f.cause.Some? {
      var inner := OtherError("RuntimeException", f.cause);
      assert Chain(inner) == [inner] + Chain(f.cause.value);
      assert Chain(Thrown(f)) == [Thrown(f)] + Chain(inner);
    }
  }
}
