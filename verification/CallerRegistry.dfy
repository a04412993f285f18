/**
 The caller's view of the registry on one channel: a cache into which every pushed list is merged
 service by service, cleared when the channel goes down; and the loop that connects at start.
 */
module CallerRegistry {

  import opened Backoff
  import Store

  type Address = Store.Key

  type Services = Store.ServiceList

  /** The merge, in order, of the lists pushed since the channel came up. */
  function Merged(pushes: seq<Services>): Services {
    if pushes == [] then map[] else Merged(pushes[..|pushes| - 1]) + pushes[|pushes| - 1]
  }

  class RegistryCache {
    var serviceCache: Services
    var reconnects: nat   // the reconnect threads started so far
    ghost var pushes: seq<Services>

    ghost predicate Valid()
      reads this
    {
      serviceCache == Merged(pushes)
    }

    constructor ()
      ensures Valid() && pushes == [] && reconnects == 0
    {
      serviceCache, pushes, reconnects := map[], [], 0;
    }

    /** A list arrives: its services are written into the cache one by one. */
    method ChannelRead(list: Services)
      requires Valid()
      modifies this
      ensures Valid() && pushes == old(pushes) + [list]
      ensures serviceCache == old(serviceCache) + list && reconnects == old(reconnects)
    {
      var todo := list.Keys;
      while todo != {}
        invariant todo <= list.Keys
        invariant serviceCache == old(serviceCache) + (map n | n in list && n !in todo :: list[n])
        invariant pushes == old(pushes) && reconnects == old(reconnects)
        decreases todo
      {
        var name :| name in todo;
        serviceCache := serviceCache[name := list[name]];
        todo := todo - {name};
      }
      assert (map n | n in list && n !in todo :: list[n]) == list;
      pushes := pushes + [list];
      assert pushes[..|pushes| - 1] == old(pushes);
    }

    /** The channel goes down: the cache is emptied, every listener told so, and one reconnect thread started. */
    method ChannelInactive() returns (told: set<string>)
      requires Valid()
      modifies this
      ensures Valid() && pushes == [] && serviceCache == map[]
      ensures told == old(serviceCache).Keys && reconnects == old(reconnects) + 1
    {
      told := serviceCache.Keys;
      serviceCache, pushes := map[], [];
      reconnects := reconnects + 1;
    }

    method GetInstances(name: string) returns (instances: seq<Address>)
      requires Valid()
      ensures name in Merged(pushes) ==> instances == Merged(pushes)[name]
      ensures name !in Merged(pushes) ==> instances == []
    {
      instances := if name in serviceCache then serviceCache[name] else [];
    }
  }

  /** Push `i` is the last one that names the service. */
  predicate LastNaming(pushes: seq<Services>, name: string, i: nat) {
    i < |pushes| && name in pushes[i] && forall j :: i < j < |pushes| ==> name !in pushes[j]
  }

  /** Later wins: the cache has, for every service ever pushed, the instances of the last list that named it. */
  lemma {:induction false} LaterWins(pushes: seq<Services>, name: string)
    ensures name in Merged(pushes) <==> exists i: nat :: LastNaming(pushes, name, i)
    ensures forall i: nat :: LastNaming(pushes, name, i) ==> name in Merged(pushes) && Merged(pushes)[name] == pushes[i][name]
  {
    if pushes != [] {
      var n := |pushes| - 1;
      LaterWins(pushes[..n], name);
      if name in pushes[n] {
        assert LastNaming(pushes, name, n);
      } else {
        forall i: nat | LastNaming(pushes, name, i) ensures LastNaming(pushes[..n], name, i) {}
        if i: nat :| LastNaming(pushes[..n], name, i) { assert LastNaming(pushes, name, i); }
      }
    }
  }

  /**
   The cache agrees with the latest list on every service that list names; it equals the latest
   list if and only if every service of every earlier list is still in it.
   */
  lemma EqualsLatestIff(pushes: seq<Services>)
    requires pushes != []
    ensures var latest := pushes[|pushes| - 1];
            && (forall name :: name in latest ==> name in Merged(pushes) && Merged(pushes)[name] == latest[name])
            && (Merged(pushes) == latest
                <==> forall i, name :: 0 <= i < |pushes| && name in pushes[i] ==> name in latest)
  {
    var latest := pushes[|pushes| - 1];
    if Merged(pushes) == latest {
      forall i, name | 0 <= i < |pushes| && name in pushes[i] ensures name in latest {
        NamedIsCached(pushes, name, i);
      }
    } else {
      var name :| name in Merged(pushes) && name !in latest;
      LaterWins(pushes, name);
      var i: nat :| LastNaming(pushes, name, i);
    }
  }

  lemma {:induction false} NamedIsCached(pushes: seq<Services>, name: string, i: nat)
    requires i < |pushes| && name in pushes[i]
    ensures name in Merged(pushes)
  {
    if i < |pushes| - 1 {
      NamedIsCached(pushes[..|pushes| - 1], name, i);
    }
  }

  /**
   A consequence for services that vanish: the registry leaves a service without instances out of
   its lists, so the cache goes on answering with the instances of the last list that had it.
   */
  lemma VanishedServiceStays(pushes: seq<Services>, name: string, i: nat)
    requires LastNaming(pushes, name, i) && i < |pushes| - 1
    ensures name !in pushes[|pushes| - 1]
    ensures name in Merged(pushes) && Merged(pushes)[name] == pushes[i][name]
  {
    LaterWins(pushes, name);
  }

  // ----- connecting at start

  datatype Connected = Success | GaveUp | ShutDown | Interrupted

  /**
   `connect`. `works(i)` says whether attempt `i` succeeds, `stopped(i)` and `stoppedAfter(i)` what
   the shutdown flag reads before attempt `i` and after its failure, and `interrupted(i)` whether the
   sleep after it is cut short by an interrupt, with which `connect` throws.
   */
  method Connect(base: int, max: int, works: nat -> bool, stopped: nat -> bool, stoppedAfter: nat -> bool,
                 interrupted: nat -> bool)
    returns (r: Connected, attempts: nat, sleeps: seq<int>)
    requires 0 < base <= max < TWO62
    ensures attempts <= Doublings(base, max) + 1
    // every attempt but the last failed, with no shutdown seen before or after it and no interrupt
    ensures forall i :: 0 <= i < attempts - 1 ==> !works(i) && !stoppedAfter(i) && !interrupted(i)
    ensures forall i :: 0 <= i < attempts ==> !stopped(i)
    ensures r.Success? ==> attempts > 0 && works(attempts - 1)
    ensures r.ShutDown? ==> stopped(attempts) && attempts <= Doublings(base, max)
    ensures r.ShutDown? && attempts > 0 ==>
              !works(attempts - 1) && !stoppedAfter(attempts - 1) && !interrupted(attempts - 1)
    ensures r.Interrupted? ==>
              && 0 < attempts <= Doublings(base, max) && interrupted(attempts - 1)
              && !works(attempts - 1) && !stoppedAfter(attempts - 1)
    ensures r.GaveUp? ==>
              && attempts > 0 && !works(attempts - 1)
              && (attempts == Doublings(base, max) + 1 || stoppedAfter(attempts - 1))
    // the first success, if it comes in time and nobody shuts down or interrupts, is what counts
    ensures (forall i :: !stopped(i) && !stoppedAfter(i) && !interrupted(i)) ==>
              (r.GaveUp? <==> attempts == Doublings(base, max) + 1 && forall i :: 0 <= i < attempts ==> !works(i))
    // there is one sleep after each attempt but the last, and after that one too if it ends with the sleep
    ensures |sleeps| == if r.ShutDown? || r.Interrupted? then attempts else attempts - 1
    ensures forall i :: 0 <= i < |sleeps| ==> sleeps[i] == Min(base * Pow2(i), max)
  {
    var delay := base;
    attempts, sleeps := 0, [];
    while !stopped(attempts)
      invariant delay == KotlinDelay(base, max, attempts)
      invariant attempts <= Doublings(base, max)
      invariant forall i :: 0 <= i < attempts ==> !works(i) && !stopped(i) && !stoppedAfter(i) && !interrupted(i)
      invariant sleeps == KotlinDelays(base, max, attempts)
      decreases Doublings(base, max) - attempts
    {
      KotlinDelaysClosed(base, max, attempts);
      var attempt := attempts;
      attempts := attempts + 1;
      if works(attempt) {
        return Success, attempts, sleeps;
      }
      DelayReachesMax(base, max, attempt);
      if delay >= max || stoppedAfter(attempt) {
        return GaveUp, attempts, sleeps;
      }
      sleeps := sleeps + [delay];
      if interrupted(attempt) {
        KotlinDelaysClosed(base, max, attempts);
        return Interrupted, attempts, sleeps;
      }
      delay := KotlinNext(delay, max);
    }
    KotlinDelaysClosed(base, max, attempts);
    r := ShutDown;
  }

  lemma DelayReachesMax(base: int, max: int, k: nat)
    requires 0 < base <= max < TWO62 && k <= Doublings(base, max)
    ensures KotlinDelay(base, max, k) >= max <==> k == Doublings(base, max)
  {
    DoublingsIsLeast(base, max);
    KotlinDoubles(base, max, k);
  }

  /**
   An attempt of the reconnect thread with what follows: success; a failure with another attempt to
   come; a failure with the shutdown flag set at once; an interrupt or a shutdown during the sleep.
   */
  datatype Attempt = Works | Fails | FailsAtShutdown | InterruptedSleep | ShutDownAfterSleep

  /** The attempt fails and is followed by its sleep, interrupted or not. */
  predicate Sleeps(a: Attempt) {
    a.Fails? || a.InterruptedSleep? || a.ShutDownAfterSleep?
  }

  /**
   The reconnect thread over the attempts it makes; `stopped` is what the shutdown flag reads before
   the first one, and then there is none. Unlike `connect` it never gives up: it ends with the first
   attempt that succeeds or meets a shutdown or an interrupt, and not before; after every failure but
   one at shutdown it sleeps for the delay of that failure.
   */
  method Reconnect(base: int, max: int, stopped: bool, attempts: seq<Attempt>)
    returns (n: nat, ended: bool, sleeps: seq<int>)
    requires 0 < base <= max < TWO62
    ensures n <= |attempts| && (!ended ==> n == |attempts|)
    ensures stopped ==> ended && n == 0
    ensures n == 0 ==> (ended <==> stopped)
    ensures forall i :: 0 <= i < n - 1 ==> attempts[i].Fails?
    ensures n > 0 ==> (attempts[n - 1].Fails? <==> !ended)
    ensures |sleeps| == if n > 0 && !Sleeps(attempts[n - 1]) then n - 1 else n
    ensures forall i :: 0 <= i < |sleeps| ==> sleeps[i] == Min(base * Pow2(i), max)
  {
    var delay := base;
    n, ended, sleeps := 0, stopped, [];
    while n < |attempts| && !ended
      invariant n <= |attempts|
      invariant forall i :: 0 <= i < n - 1 ==> attempts[i].Fails?
      invariant n > 0 ==> (attempts[n - 1].Fails? <==> !ended)
      invariant stopped ==> n == 0
      invariant n == 0 ==> (ended <==> stopped)
      invariant sleeps == KotlinDelays(base, max, if n > 0 && !Sleeps(attempts[n - 1]) then n - 1 else n)
      invariant !ended ==> delay == KotlinDelay(base, max, n)
    {
      var a := attempts[n];
      n := n + 1;
      match a
      case Works => ended := true;
      case FailsAtShutdown => ended := true;
      case InterruptedSleep => sleeps, ended := sleeps + [delay], true;
      case ShutDownAfterSleep => sleeps, ended := sleeps + [delay], true;
      case Fails =>
        sleeps := sleeps + [delay];
        delay := KotlinNext(delay, max);
    }
    KotlinDelaysClosed(base, max, |sleeps|);
  }

  /** With the constants of the program, one second and thirty, that is six attempts. */
  lemma SixAttempts()
    ensures Doublings(1000, 30000) + 1 == 6
  {
    assert Doublings(32000, 30000) == 0;
    assert Doublings(16000, 30000) == 1;
    assert Doublings(8000, 30000) == 2;
    assert Doublings(4000, 30000) == 3;
    assert Doublings(2000, 30000) == 4;
  }
}
