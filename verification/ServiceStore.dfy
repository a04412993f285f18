/**
 The store as an object: the same two maps changed in place, with the loops the registry runs
 while it holds its locks. Every method is tied to the function of module `Store` that
 the interleaved models use, and to the one map it stands for.
 */
module ServiceStores {

  import opened Common
  import opened Store

  class ServiceStore {
    var inner: map<string, seq<Instance>>
    var index: map<Key, string>

    ghost function View(): State
      reads this
    {
      State(inner, index)
    }

    ghost predicate Valid()
      reads this
    {
      WellFormed(View())
    }

    ghost function Entries(): map<Key, Entry>
      reads this
      requires Valid()
    {
      Contents(View())
    }

    constructor ()
      ensures Valid() && View() == Empty && Entries() == map[]
    {
      inner, index := map[], map[];
    }

    method Register(k: Key, service: string, now: Time) returns (changed: bool)
      requires Valid()
      modifies this
      ensures Valid() && View() == Store.Register(old(View()), k, service, now)
      ensures Entries() == old(Entries())[k := Entry(service, now)]
      ensures changed <==> Visible(View()) != old(Visible(View()))
    {
      RegisterRefines(View(), k, service, now);
      if k in index {
        var previous := index[k];
        assert Indexed(View(), k);
        if previous == service {
          var found, instances := Refresh(inner[service], k, now);
          if found {
            inner := inner[service := instances];
            return false;
          }
        } else {
          var kept := RetainOthers(inner[previous], k);
          inner := inner[previous := kept];
        }
      }
      index := index[k := service];
      inner := inner[service := (if service in inner then inner[service] else []) + [Instance(k, now)]];
      return true;
    }

    /** Both critical sections of a heartbeat with nothing in between. */
    method Heartbeat(k: Key, now: Time) returns (found: bool)
      requires Valid()
      modifies this
      ensures Valid() && found == (k in old(Entries()))
      ensures Entries() == if found then old(Entries())[k := Entry(old(Entries())[k].service, now)] else old(Entries())
      ensures Visible(View()) == old(Visible(View()))
    {
      var service := if k in index then Some(index[k]) else None;
      if service == None {
        return false;
      }
      found := HeartbeatLists(k, service.value, now);
      HeartbeatWriteRefines(old(View()), k, service.value, now);
    }

    /** The second critical section of a heartbeat, for the service that the first one read. */
    method HeartbeatLists(k: Key, service: string, now: Time) returns (found: bool)
      requires Valid()
      modifies this`inner
      ensures Valid() && View() == HeartbeatWrite(old(View()), k, service, now)
      ensures found <==> HeartbeatFinds(old(View()), k, service)
    {
      assert WellFormed(HeartbeatWrite(View(), k, service, now)) by {
        HeartbeatWriteRefines(View(), k, service, now);
      }
      if service in inner {
        var instances;
        found, instances := Refresh(inner[service], k, now);
        inner := inner[service := instances];
        return found;
      }
      return false;
    }

    method Deregister(k: Key) returns (found: bool)
      requires Valid()
      modifies this
      ensures Valid() && View() == Store.Deregister(old(View()), k)
      ensures Entries() == old(Entries()) - {k} && found == (k in old(Entries()))
      ensures found <==> Visible(View()) != old(Visible(View()))
    {
      DeregisterRefines(View(), k);
      if k !in index {
        return false;
      }
      var service := index[k];
      assert Indexed(View(), k);
      index := index - {k};
      var kept := RetainOthers(inner[service], k);
      inner := if kept == [] then inner - {service} else inner[service := kept];
      return true;
    }

    /**
     `at` gives the clock reading with which each instance is compared, so that time may pass
     while the sweep runs and the services may be visited in any order.
     */
    method RemoveExpired(timeout: nat, at: Key -> Time) returns (removed: seq<(string, Key)>)
      requires Valid()
      modifies this
      ensures Valid() && View() == Sweep(old(View()), timeout, at)
      ensures Entries() == Survivors(old(Entries()), timeout, at)
      // exactly the dropped instances, each once, under the service it was listed for
      ensures forall i, j :: 0 <= i < j < |removed| ==> removed[i] != removed[j]
      ensures forall svc, k :: (svc, k) in removed <==>
                                 && k in old(Entries()) && old(Entries())[k].service == svc
                                 && k !in Entries()
      ensures removed == [] <==> Visible(View()) == old(Visible(View()))
    {
      SweepRefines(View(), timeout, at);
      SweptAre(View(), timeout, at);
      inner, index, removed := SweepMaps(inner, index, timeout, at);
    }
  }

  lemma SweptAre(s: State, timeout: nat, at: Key -> Time)
    requires WellFormed(s)
    ensures forall k :: k in Expired(s, timeout, at) <==> k in Contents(s) && k !in Survivors(Contents(s), timeout, at)
  {
    forall k ensures k in Expired(s, timeout, at) <==> k in Contents(s) && k !in Survivors(Contents(s), timeout, at) {
      ExpiredIsContents(s, timeout, at, k);
    }
  }

  /** The loops of the sweep over both maps. */
  method SweepMaps(inner: map<string, seq<Instance>>, index: map<Key, string>, timeout: nat, at: Key -> Time)
    returns (inner': map<string, seq<Instance>>, index': map<Key, string>, removed: seq<(string, Key)>)
    requires WellFormed(State(inner, index))
    ensures State(inner', index') == Sweep(State(inner, index), timeout, at)
    ensures Recorded(State(inner, index), Expired(State(inner, index), timeout, at), {}, removed)
    ensures removed == [] <==> Expired(State(inner, index), timeout, at) == {}
  {
    ghost var s := State(inner, index);
    ghost var gone := Expired(s, timeout, at);
    removed, index' := [], index;
    var kept := map[];
    var todo := inner.Keys;
    while todo != {}
      invariant todo <= inner.Keys
      invariant Swept(s, gone, todo, kept, index')
      invariant Recorded(s, gone, todo, removed)
      decreases todo
    {
      var service :| service in todo;
      GoneInList(s, timeout, at, service);
      var rest, dropped := RetainAlive(inner[service], timeout, at, gone);
      SweptMore(s, gone, todo, kept, index', service, dropped);
      RecordMore(s, gone, todo, removed, service, dropped);
      kept := kept[service := rest];
      index' := index' - (set k | k in dropped);
      removed := removed + Tagged(service, dropped);
      todo := todo - {service};
    }
    inner' := map svc | svc in kept && kept[svc] != [] :: kept[svc];
    SweptAll(s, timeout, at, kept, index');
    AllRecorded(s, timeout, at, removed);
  }

  /** Both maps after the services outside `todo` have been visited. */
  ghost predicate Swept(s: State, gone: set<Key>, todo: set<string>,
                        kept: map<string, seq<Instance>>, index: map<Key, string>)
  {
    && kept == (map svc | svc in s.inner && svc !in todo :: Without(s.inner[svc], gone))
    && index == (map k | k in s.index && !(k in gone && s.index[k] !in todo) :: s.index[k])
  }

  lemma SweptMore(s: State, gone: set<Key>, todo: set<string>, kept: map<string, seq<Instance>>,
                  index: map<Key, string>, service: string, dropped: seq<Key>)
    requires Swept(s, gone, todo, kept, index) && service in todo && service in s.inner
    requires forall k :: k in dropped <==> k in gone && k in s.index && s.index[k] == service
    ensures Swept(s, gone, todo - {service}, kept[service := Without(s.inner[service], gone)],
                  index - (set k | k in dropped))
  {}

  lemma SweptAll(s: State, timeout: nat, at: Key -> Time, kept: map<string, seq<Instance>>, index: map<Key, string>)
    requires Swept(s, Expired(s, timeout, at), {}, kept, index)
    ensures State(map svc | svc in kept && kept[svc] != [] :: kept[svc], index) == Sweep(s, timeout, at)
  {
    assert index == s.index - Expired(s, timeout, at);
  }

  lemma AllRecorded(s: State, timeout: nat, at: Key -> Time, removed: seq<(string, Key)>)
    requires WellFormed(s) && Recorded(s, Expired(s, timeout, at), {}, removed)
    ensures removed == [] <==> Expired(s, timeout, at) == {}
  {
    if k :| k in Expired(s, timeout, at) {
      ExpiredIsContents(s, timeout, at, k);
      assert (s.index[k], k) in removed;
    }
    if removed != [] {
      assert (removed[0].0, removed[0].1) in removed;
    }
  }

  /** The instances dropped so far: each once, under its own service. */
  ghost predicate Recorded(s: State, gone: set<Key>, todo: set<string>, removed: seq<(string, Key)>) {
    && (forall i, j :: 0 <= i < j < |removed| ==> removed[i] != removed[j])
    && (forall svc, k :: (svc, k) in removed <==> k in gone && k in s.index && s.index[k] == svc && svc !in todo)
  }

  function Tagged(service: string, ks: seq<Key>): seq<(string, Key)> {
    seq(|ks|, i requires 0 <= i < |ks| => (service, ks[i]))
  }

  lemma RecordMore(s: State, gone: set<Key>, todo: set<string>, removed: seq<(string, Key)>,
                   service: string, dropped: seq<Key>)
    requires Recorded(s, gone, todo, removed) && service in todo
    requires forall k :: k in dropped <==> k in gone && k in s.index && s.index[k] == service
    requires forall i, j :: 0 <= i < j < |dropped| ==> dropped[i] != dropped[j]
    ensures Recorded(s, gone, todo - {service}, removed + Tagged(service, dropped))
  {
    var more := Tagged(service, dropped);
    assert forall i :: 0 <= i < |more| ==> more[i] == (service, dropped[i]);
    forall svc, k ensures (svc, k) in more <==> svc == service && k in dropped {
      if svc == service && k in dropped {
        var i :| 0 <= i < |dropped| && dropped[i] == k;
        assert more[i] == (svc, k);
      }
    }
    var all := removed + more;
    forall i, j | 0 <= i < j < |all| ensures all[i] != all[j] {
      if i < |removed| <= j {
        assert (removed[i].0, removed[i].1) in removed;
      }
    }
  }

  /** In a well-formed store the list of a service holds exactly the keys indexed under it. */
  lemma GoneInList(s: State, timeout: nat, at: Key -> Time, svc: string)
    requires WellFormed(s) && svc in s.inner
    ensures forall x :: x in s.inner[svc] ==>
                          (x.key in Expired(s, timeout, at) <==> !Alive(x.lastHeartbeat, timeout, at(x.key)))
    ensures forall k :: Has(s.inner[svc], k) <==> k in s.index && s.index[k] == svc
    ensures Expired(s, timeout, at) <= s.index.Keys
  {
    forall x | x in s.inner[svc]
      ensures x.key in Expired(s, timeout, at) <==> !Alive(x.lastHeartbeat, timeout, at(x.key))
    {
      assert Listed(s, svc, x) && x == Instance(x.key, x.lastHeartbeat);
      ContentsIsTheLists(s, x.key, svc, x.lastHeartbeat);
      ExpiredIsContents(s, timeout, at, x.key);
    }
    forall k ensures Has(s.inner[svc], k) <==> k in s.index && s.index[k] == svc {
      if Has(s.inner[svc], k) {
        var i :| 0 <= i < |s.inner[svc]| && s.inner[svc][i].key == k;
        assert Listed(s, svc, s.inner[svc][i]);
      }
      if k in s.index { assert Indexed(s, k); }
    }
    forall k | k in Expired(s, timeout, at) ensures k in s.index {
      ExpiredIsContents(s, timeout, at, k);
    }
  }

  /** The scan that refreshes the instance with key `k`, if it is there. */
  method Refresh(l: seq<Instance>, k: Key, now: Time) returns (found: bool, l': seq<Instance>)
    requires Distinct(l)
    ensures found <==> Has(l, k)
    ensures l' == Touch(l, k, now)
  {
    for i := 0 to |l|
      invariant forall j :: 0 <= j < i ==> l[j].key != k
    {
      if l[i].key == k {
        l' := l[i := Instance(k, now)];
        assert l' == Touch(l, k, now);
        return true, l';
      }
    }
    assert l == Touch(l, k, now);
    return false, l;
  }

  /** `retain` for one key, from left to right. */
  method RetainOthers(l: seq<Instance>, k: Key) returns (kept: seq<Instance>)
    ensures kept == Without(l, {k})
  {
    kept := [];
    for i := 0 to |l|
      invariant kept == Without(l[..i], {k})
    {
      assert l[..i + 1][..i] == l[..i];
      if l[i].key != k {
        kept := kept + [l[i]];
      }
    }
    assert l[..|l|] == l;
  }

  /** `retain` of the instances that are alive, recording the others. */
  method RetainAlive(l: seq<Instance>, timeout: nat, at: Key -> Time, ghost gone: set<Key>)
    returns (kept: seq<Instance>, dropped: seq<Key>)
    requires Distinct(l)
    requires forall x :: x in l ==> (x.key in gone <==> !Alive(x.lastHeartbeat, timeout, at(x.key)))
    ensures kept == Without(l, gone)
    ensures forall k :: k in dropped <==> Has(l, k) && k in gone
    ensures forall i, j :: 0 <= i < j < |dropped| ==> dropped[i] != dropped[j]
  {
    kept, dropped := [], [];
    for n := 0 to |l|
      invariant kept == Without(l[..n], gone)
      invariant forall k :: k in dropped <==> Has(l[..n], k) && k in gone
      invariant forall i, j :: 0 <= i < j < |dropped| ==> dropped[i] != dropped[j]
    {
      assert l[..n + 1][..n] == l[..n];
      assert l[n] in l;
      HasSnoc(l, n);
      if Alive(l[n].lastHeartbeat, timeout, at(l[n].key)) {
        kept := kept + [l[n]];
      } else {
        dropped := dropped + [l[n].key];
      }
    }
    assert l[..|l|] == l;
  }

  lemma HasSnoc(l: seq<Instance>, n: nat)
    requires n < |l|
    ensures forall k :: Has(l[..n + 1], k) <==> Has(l[..n], k) || l[n].key == k
    ensures Distinct(l) ==> !Has(l[..n], l[n].key)
  {
    forall k ensures Has(l[..n + 1], k) <==> Has(l[..n], k) || l[n].key == k {
      if Has(l[..n], k) {
        var i :| 0 <= i < n && l[..n][i].key == k;
        assert l[..n + 1][i].key == k;
      }
      if l[n].key == k { assert l[..n + 1][n].key == k; }
      if Has(l[..n + 1], k) {
        var i :| 0 <= i <= n && l[..n + 1][i].key == k;
        if i < n { assert l[..n][i].key == k; }
      }
    }
  }

  /** The list sent to subscribers, built service by service. */
  method BuildServiceList(store: ServiceStore) returns (services: ServiceList)
    ensures services == Visible(store.View())
  {
    services := map[];
    var todo := store.inner.Keys;
    while todo != {}
      invariant todo <= store.inner.Keys
      invariant services == map svc | svc in store.inner && svc !in todo && store.inner[svc] != [] :: Keys(store.inner[svc])
      decreases todo
    {
      var name :| name in todo;
      todo := todo - {name};
      if store.inner[name] != [] {
        services := services[name := Keys(store.inner[name])];
      }
    }
  }

  lemma LossIsVisible(s: State, s': State, k: Key)
    requires WellFormed(s) && WellFormed(s') && k in Contents(s) && k !in Contents(s')
    ensures Visible(s) != Visible(s')
  {
    if Visible(s) == Visible(s') { AssignmentIsVisible(s, s', k); }
  }

  ghost function KeySet(ks: seq<Key>): set<Key> {
    set k | k in ks
  }

  /**
   The cleanup of a connection whose stream ended, run without interference: every key it
   registered and still present goes, duplicates included, nothing else does, and a list is
   published exactly when subscribers would see a difference.
   */
  method CleanupConnection(store: ServiceStore, registered: seq<Key>) returns (published: Option<ServiceList>)
    requires store.Valid()
    modifies store
    ensures store.Valid() && store.Entries() == old(store.Entries()) - KeySet(registered)
    ensures published.Some? <==> exists k :: k in registered && k in old(store.Entries())
    ensures published.Some? ==> published.value == Visible(store.View())
    ensures published.Some? <==> Visible(store.View()) != old(Visible(store.View()))
  {
    var changed := DeregisterAll(store, registered);
    published := None;
    if changed {
      ghost var k :| k in registered && k in old(store.Entries());
      LossIsVisible(old(store.View()), store.View(), k);
      var services := BuildServiceList(store);
      published := Some(services);
    }
  }

  method DeregisterAll(store: ServiceStore, registered: seq<Key>) returns (changed: bool)
    requires store.Valid()
    modifies store
    ensures store.Valid() && store.Entries() == old(store.Entries()) - KeySet(registered)
    ensures changed <==> exists k :: k in registered && k in old(store.Entries())
    ensures !changed ==> Visible(store.View()) == old(Visible(store.View()))
  {
    changed := false;
    ghost var m, v := store.Entries(), Visible(store.View());
    for i := 0 to |registered|
      invariant store.Valid() && store.Entries() == m - KeySet(registered[..i])
      invariant changed <==> exists k :: k in registered[..i] && k in m
      invariant !changed ==> Visible(store.View()) == v
    {
      CleanedMore(m, registered, i);
      var found := store.Deregister(registered[i]);
      changed := changed || found;
    }
    assert registered[..|registered|] == registered;
  }

  lemma CleanedMore(m: map<Key, Entry>, ks: seq<Key>, i: nat)
    requires i < |ks|
    ensures m - KeySet(ks[..i]) - {ks[i]} == m - KeySet(ks[..i + 1])
    ensures forall k :: k in ks[..i + 1] <==> k in ks[..i] || k == ks[i]
  {
    assert ks[..i + 1] == ks[..i] + [ks[i]];
  }
}
