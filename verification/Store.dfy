/**
 The registry's instance store: two maps, service -> instance list and key -> service,
 that every operation has to keep in agreement.

 `State` is the value of both maps, the functions on it say what one operation does while it
 holds its locks, and `Contents` is the single map that the pair of maps stands for.
 The class `ServiceStore` does the same work in place, with the source's loops.
 */
module Store {

  import opened Common

  /** A reading of the monotonic clock. */
  type Time = nat

  datatype Key = Key(ip: string, port: int)

  datatype Instance = Instance(key: Key, lastHeartbeat: Time)

  datatype State = State(inner: map<string, seq<Instance>>, index: map<Key, string>)

  /** What a subscriber is sent: the addresses of every service that has one. */
  type ServiceList = map<string, seq<Key>>

  /** One entry of the map that the two maps together represent. */
  datatype Entry = Entry(service: string, lastHeartbeat: Time)

  const Empty: State := State(map[], map[])

  // ----- instance lists

  ghost predicate Has(l: seq<Instance>, k: Key) {
    exists i :: 0 <= i < |l| && l[i].key == k
  }

  ghost predicate Distinct(l: seq<Instance>) {
    forall i, j :: 0 <= i < j < |l| ==> l[i].key != l[j].key
  }

  /** The instances whose key is not in `gone`, in order. */
  function Without(l: seq<Instance>, gone: set<Key>): seq<Instance> {
    if l == [] then []
    else
      var last := l[|l| - 1];
      Without(l[..|l| - 1], gone) + if last.key in gone then [] else [last]
  }

  /** The list with the heartbeat of `k` set to `now`. */
  function Touch(l: seq<Instance>, k: Key, now: Time): seq<Instance> {
    seq(|l|, i requires 0 <= i < |l| => if l[i].key == k then Instance(k, now) else l[i])
  }

  function Keys(l: seq<Instance>): seq<Key> {
    seq(|l|, i requires 0 <= i < |l| => l[i].key)
  }

  lemma {:induction false} WithoutKeeps(l: seq<Instance>, gone: set<Key>)
    ensures forall x :: x in Without(l, gone) <==> x in l && x.key !in gone
    ensures Distinct(l) ==> Distinct(Without(l, gone))
  {
    if l != [] {
      var n := |l| - 1;
      WithoutKeeps(l[..n], gone);
      assert l == l[..n] + [l[n]];
      if Distinct(l) && l[n].key !in gone {
        var w := Without(l[..n], gone);
        forall i | 0 <= i < |w| ensures w[i].key != l[n].key {
          assert w[i] in l[..n];
        }
      }
    }
  }

  lemma {:induction false} WithoutNothing(l: seq<Instance>, gone: set<Key>)
    requires forall x :: x in l ==> x.key !in gone
    ensures Without(l, gone) == l
  {
    if l != [] {
      var n := |l| - 1;
      assert l[n] in l;
      WithoutNothing(l[..n], gone);
      assert l == l[..n] + [l[n]];
    }
  }

  // ----- the two maps agree

  ghost predicate Listed(s: State, svc: string, x: Instance) {
    svc in s.inner && x in s.inner[svc]
  }

  /** The key is in the list the index names. */
  ghost predicate Indexed(s: State, k: Key) {
    k in s.index && s.index[k] in s.inner && Has(s.inner[s.index[k]], k)
  }

  ghost predicate WellFormed(s: State) {
    && (forall k :: k in s.index ==> Indexed(s, k))
    && (forall svc, x :: Listed(s, svc, x) ==> x.key in s.index && s.index[x.key] == svc)
    && (forall svc :: svc in s.inner ==> Distinct(s.inner[svc]))
  }

  /** `m` maps every indexed key to the instance listed for it. */
  ghost predicate Represents(s: State, m: map<Key, Entry>) {
    && m.Keys == s.index.Keys
    && forall k :: k in m ==> Listed(s, m[k].service, Instance(k, m[k].lastHeartbeat))
  }

  lemma RepresentedOnce(s: State)
    requires WellFormed(s)
    ensures exists m :: Represents(s, m)
    ensures forall m, m' :: Represents(s, m) && Represents(s, m') ==> m == m'
  {
    var m := map k | k in s.index :: Entry(s.index[k], Beat(s, k));
    forall k | k in m ensures Listed(s, m[k].service, Instance(k, m[k].lastHeartbeat)) {
      BeatListed(s, k);
    }
    assert Represents(s, m);
    forall a: map<Key, Entry>, b: map<Key, Entry> | Represents(s, a) && Represents(s, b) ensures a == b {
      SameEntries(s, a, b);
    }
  }

  lemma SameEntries(s: State, a: map<Key, Entry>, b: map<Key, Entry>)
    requires WellFormed(s) && Represents(s, a) && Represents(s, b)
    ensures a == b
  {
    forall k | k in a ensures a[k] == b[k] {
      var l := s.inner[s.index[k]];
      var i :| 0 <= i < |l| && l[i] == Instance(k, a[k].lastHeartbeat);
      var j :| 0 <= j < |l| && l[j] == Instance(k, b[k].lastHeartbeat);
    }
  }

  /** The heartbeat listed for an indexed key. */
  ghost function Beat(s: State, k: Key): Time
    requires WellFormed(s) && k in s.index
  {
    assert Indexed(s, k);
    var i :| 0 <= i < |s.inner[s.index[k]]| && s.inner[s.index[k]][i].key == k;
    s.inner[s.index[k]][i].lastHeartbeat
  }

  lemma BeatListed(s: State, k: Key)
    requires WellFormed(s) && k in s.index
    ensures Listed(s, s.index[k], Instance(k, Beat(s, k)))
  {
    assert Indexed(s, k);
    var i :| 0 <= i < |s.inner[s.index[k]]| && s.inner[s.index[k]][i].key == k
             && s.inner[s.index[k]][i].lastHeartbeat == Beat(s, k);
  }

  /** The map from key to service and last heartbeat that a well-formed pair of maps stands for. */
  ghost function Contents(s: State): (m: map<Key, Entry>)
    requires WellFormed(s)
    ensures Represents(s, m)
  {
    RepresentedOnce(s);
    var m :| Represents(s, m);
    m
  }

  /**
   The abstraction does not lean on the index: a key maps to (service, heartbeat) exactly when
   that instance is in that service's list, and then it is there once and nowhere else.
   */
  lemma ContentsIsTheLists(s: State, k: Key, svc: string, t: Time)
    requires WellFormed(s)
    ensures (k in Contents(s) && Contents(s)[k] == Entry(svc, t)) <==> Listed(s, svc, Instance(k, t))
    ensures Listed(s, svc, Instance(k, t)) ==>
              && multiset(Keys(s.inner[svc]))[k] == 1
              && forall other :: other in s.inner && other != svc ==> !Has(s.inner[other], k)
  {
    if Listed(s, svc, Instance(k, t)) {
      var l := s.inner[svc];
      var t' := Contents(s)[k].lastHeartbeat;
      var i :| 0 <= i < |l| && l[i] == Instance(k, t);
      var j :| 0 <= j < |l| && l[j] == Instance(k, t');
      OnlyOnce(l, k);
      forall other | other in s.inner && other != svc ensures !Has(s.inner[other], k) {
        if Has(s.inner[other], k) {
          var i :| 0 <= i < |s.inner[other]| && s.inner[other][i].key == k;
          assert Listed(s, other, s.inner[other][i]);
        }
      }
    }
  }

  lemma OnlyOnce(l: seq<Instance>, k: Key)
    requires Distinct(l) && Has(l, k)
    ensures multiset(Keys(l))[k] == 1
  {
    var i :| 0 <= i < |l| && l[i].key == k;
    var ks := Keys(l);
    assert ks == ks[..i] + [k] + ks[i + 1..];
    assert k !in ks[..i] && k !in ks[i + 1..];
    assert multiset(ks) == multiset(ks[..i]) + multiset([k]) + multiset(ks[i + 1..]);
  }

  /** What `build_service_list` returns: services with at least one instance, lists in order. */
  ghost function Visible(s: State): ServiceList {
    map svc | svc in s.inner && s.inner[svc] != [] :: Keys(s.inner[svc])
  }

  lemma VisibleIsContents(s: State, k: Key, svc: string)
    requires WellFormed(s)
    ensures (svc in Visible(s) && k in Visible(s)[svc])
            <==> (k in Contents(s) && Contents(s)[k].service == svc)
    ensures svc in Visible(s) && k in Visible(s)[svc] ==> multiset(Visible(s)[svc])[k] == 1
  {
    if svc in Visible(s) && k in Visible(s)[svc] {
      var l := s.inner[svc];
      var i :| 0 <= i < |Keys(l)| && Keys(l)[i] == k;
      assert Listed(s, svc, l[i]);
      assert l[i].key == k;
      OnlyOnce(l, k);
    }
    if k in Contents(s) && Contents(s)[k].service == svc {
      var l := s.inner[svc];
      var i :| 0 <= i < |l| && l[i].key == k;
      assert Keys(l)[i] == k;
    }
  }

  /** Moving, adding or dropping a key is visible to subscribers. */
  lemma AssignmentIsVisible(s: State, s': State, k: Key)
    requires WellFormed(s) && WellFormed(s')
    requires Visible(s) == Visible(s')
    ensures k in Contents(s) <==> k in Contents(s')
    ensures k in Contents(s) ==> Contents(s)[k].service == Contents(s')[k].service
  {
    if k in Contents(s) {
      VisibleIsContents(s, k, Contents(s)[k].service);
      VisibleIsContents(s', k, Contents(s)[k].service);
    }
    if k in Contents(s') {
      VisibleIsContents(s, k, Contents(s')[k].service);
      VisibleIsContents(s', k, Contents(s')[k].service);
    }
  }

  // ----- register

  predicate RegisterChanges(s: State, k: Key, svc: string) {
    !(k in s.index && s.index[k] == svc)
  }

  /** The lists before the new instance is pushed: an old assignment is dropped, its list stays. */
  function Unassigned(s: State, k: Key): map<string, seq<Instance>> {
    if k in s.index && s.index[k] in s.inner then
      s.inner[s.index[k] := Without(s.inner[s.index[k]], {k})]
    else s.inner
  }

  function Pushed(inner: map<string, seq<Instance>>, svc: string, x: Instance): map<string, seq<Instance>> {
    inner[svc := (if svc in inner then inner[svc] else []) + [x]]
  }

  function Register(s: State, k: Key, svc: string, now: Time): State {
    if RegisterChanges(s, k, svc) then
      State(Pushed(Unassigned(s, k), svc, Instance(k, now)), s.index[k := svc])
    else if svc in s.inner then
      s.(inner := s.inner[svc := Touch(s.inner[svc], k, now)])
    else s
  }

  // ----- heartbeat: two critical sections

  function HeartbeatRead(s: State, k: Key): Option<string> {
    if k in s.index then Some(s.index[k]) else None
  }

  ghost predicate HeartbeatFinds(s: State, k: Key, svc: string) {
    svc in s.inner && Has(s.inner[svc], k)
  }

  function HeartbeatWrite(s: State, k: Key, svc: string, now: Time): State {
    if svc in s.inner then s.(inner := s.inner[svc := Touch(s.inner[svc], k, now)]) else s
  }

  // ----- deregister

  function Deregister(s: State, k: Key): State {
    if k !in s.index then s
    else
      var svc := s.index[k];
      if svc !in s.inner then s.(index := s.index - {k})
      else
        var l := Without(s.inner[svc], {k});
        State(if l == [] then s.inner - {svc} else s.inner[svc := l], s.index - {k})
  }

  // ----- remove_expired

  /** `elapsed() < timeout`, with the clock read at `at` for this instance. */
  predicate Alive(last: Time, timeout: nat, at: Time) {
    (if at >= last then at - last else 0) < timeout
  }

  /** The keys that a sweep finds expired; `at(k)` is the clock when the instance of `k` is checked. */
  ghost function Expired(s: State, timeout: nat, at: Key -> Time): set<Key> {
    set svc, x | svc in s.inner && x in s.inner[svc] && !Alive(x.lastHeartbeat, timeout, at(x.key)) :: x.key
  }

  ghost function Sweep(s: State, timeout: nat, at: Key -> Time): State {
    var gone := Expired(s, timeout, at);
    State(
      map svc | svc in s.inner && Without(s.inner[svc], gone) != [] :: Without(s.inner[svc], gone),
      s.index - gone)
  }

  // ----- every operation keeps the maps in agreement and acts on the one map

  lemma SameContents(s: State, m: map<Key, Entry>)
    requires WellFormed(s)
    requires s.index.Keys == m.Keys
    requires forall k :: k in m ==> Listed(s, m[k].service, Instance(k, m[k].lastHeartbeat))
    ensures Contents(s) == m
  {
    assert Represents(s, m);
    RepresentedOnce(s);
  }

  lemma InstanceOf(s: State, k: Key)
    requires WellFormed(s) && k in s.index
    ensures Listed(s, s.index[k], Instance(k, Contents(s)[k].lastHeartbeat))
  {
    assert k in Contents(s);
  }

  lemma TouchKeeps(l: seq<Instance>, k: Key, now: Time)
    ensures Keys(Touch(l, k, now)) == Keys(l)
    ensures Distinct(l) ==> Distinct(Touch(l, k, now))
    ensures forall x :: x in Touch(l, k, now) ==>
                          if x.key == k then x == Instance(k, now) && Has(l, k) else x in l
    ensures Has(l, k) ==> Instance(k, now) in Touch(l, k, now)
    ensures forall x :: x in l && x.key != k ==> x in Touch(l, k, now)
    ensures forall q :: Has(l, q) <==> Has(Touch(l, k, now), q)
  {
    var r := Touch(l, k, now);
    assert |r| == |l| && forall i :: 0 <= i < |l| ==> r[i].key == l[i].key;
    forall x | x in l && x.key != k ensures x in r {
      var i :| 0 <= i < |l| && l[i] == x;
      assert r[i] == x;
    }
    if Has(l, k) {
      var i :| 0 <= i < |l| && l[i].key == k;
      assert r[i] == Instance(k, now);
    }
    forall q ensures Has(l, q) <==> Has(r, q) {
      if Has(l, q) { var i :| 0 <= i < |l| && l[i].key == q; assert r[i].key == q; }
      if Has(r, q) { var i :| 0 <= i < |r| && r[i].key == q; assert l[i].key == q; }
    }
  }

  /** Enough to be well formed and to stand for `m`. */
  lemma StandsFor(s: State, m: map<Key, Entry>)
    requires s.index.Keys == m.Keys
    requires forall k :: k in m ==> m[k].service == s.index[k] && Listed(s, m[k].service, Instance(k, m[k].lastHeartbeat))
    requires forall svc, x :: Listed(s, svc, x) ==> x.key in s.index && s.index[x.key] == svc
    requires forall svc :: svc in s.inner ==> Distinct(s.inner[svc])
    ensures WellFormed(s) && Contents(s) == m
  {
    forall k | k in s.index ensures Indexed(s, k) {
      HasIsMember(s.inner[s.index[k]], Instance(k, m[k].lastHeartbeat));
    }
    SameContents(s, m);
  }

  lemma HasIsMember(l: seq<Instance>, x: Instance)
    requires x in l
    ensures Has(l, x.key)
  {
    var i :| 0 <= i < |l| && l[i] == x;
    assert l[i].key == x.key;
  }

  lemma TouchVisible(s: State, k: Key, svc: string, now: Time)
    ensures Visible(HeartbeatWrite(s, k, svc, now)) == Visible(s)
  {
    if svc in s.inner {
      TouchKeeps(s.inner[svc], k, now);
    }
  }

  lemma TouchListed(s: State, k: Key, svc: string, now: Time, other: string, x: Instance)
    requires Indexed(s, k) && s.index[k] == svc
    ensures Listed(HeartbeatWrite(s, k, svc, now), other, x)
            <==> if other == svc && x.key == k then x == Instance(k, now) else Listed(s, other, x)
  {
    TouchKeeps(s.inner[svc], k, now);
  }

  /** Refreshing `k` in its own list touches nothing else. */
  lemma TouchRefines(s: State, k: Key, now: Time)
    requires WellFormed(s) && k in s.index
    ensures Indexed(s, k)
    ensures var s' := HeartbeatWrite(s, k, s.index[k], now);
            WellFormed(s') && Contents(s') == Contents(s)[k := Entry(s.index[k], now)]
  {
    assert Indexed(s, k);
    var svc := s.index[k];
    var s' := HeartbeatWrite(s, k, svc, now);
    var m := Contents(s)[k := Entry(svc, now)];
    forall other, x ensures Listed(s', other, x)
                            <==> if other == svc && x.key == k then x == Instance(k, now) else Listed(s, other, x)
    {
      TouchListed(s, k, svc, now, other, x);
    }
    forall q | q in m ensures Listed(s', m[q].service, Instance(q, m[q].lastHeartbeat)) {
      InstanceOf(s, q);
    }
    TouchKeeps(s.inner[svc], k, now);
    StandsFor(s', m);
  }

  lemma UnassignedKeeps(s: State, k: Key)
    requires WellFormed(s)
    ensures var s' := State(Unassigned(s, k), s.index);
            && (forall svc, x :: Listed(s', svc, x) <==> Listed(s, svc, x) && x.key != k)
            && (forall svc :: svc in s'.inner ==> Distinct(s'.inner[svc]))
  {
    var s' := State(Unassigned(s, k), s.index);
    if k in s.index {
      assert Indexed(s, k);
      WithoutKeeps(s.inner[s.index[k]], {k});
    }
    forall svc, x ensures Listed(s', svc, x) <==> Listed(s, svc, x) && x.key != k {}
  }

  lemma PushRefines(s: State, k: Key, svc: string, now: Time)
    requires WellFormed(s)
    ensures var s' := State(Pushed(Unassigned(s, k), svc, Instance(k, now)), s.index[k := svc]);
            WellFormed(s') && Contents(s') == Contents(s)[k := Entry(svc, now)]
  {
    var bare := State(Unassigned(s, k), s.index);
    UnassignedKeeps(s, k);
    var x := Instance(k, now);
    var s' := State(Pushed(bare.inner, svc, x), s.index[k := svc]);
    var m := Contents(s)[k := Entry(svc, now)];
    forall other, y ensures Listed(s', other, y) <==> Listed(bare, other, y) || (other == svc && y == x) {}
    forall q | q in m ensures Listed(s', m[q].service, Instance(q, m[q].lastHeartbeat)) {
      if q != k { InstanceOf(s, q); }
    }
    if svc in bare.inner {
      forall i | 0 <= i < |bare.inner[svc]| ensures bare.inner[svc][i].key != k {
        assert Listed(bare, svc, bare.inner[svc][i]);
      }
    }
    StandsFor(s', m);
  }

  /** `register` is one assignment to the map; it reports exactly the visible changes. */
  lemma RegisterRefines(s: State, k: Key, svc: string, now: Time)
    requires WellFormed(s)
    ensures WellFormed(Register(s, k, svc, now))
    ensures Contents(Register(s, k, svc, now)) == Contents(s)[k := Entry(svc, now)]
    ensures RegisterChanges(s, k, svc) <==> Visible(Register(s, k, svc, now)) != Visible(s)
  {
    if RegisterChanges(s, k, svc) {
      PushRefines(s, k, svc, now);
      if Visible(Register(s, k, svc, now)) == Visible(s) {
        AssignmentIsVisible(s, Register(s, k, svc, now), k);
      }
    } else {
      TouchRefines(s, k, now);
      TouchVisible(s, k, svc, now);
    }
  }

  /** The index read of `heartbeat` finds the service the map has for the key. */
  lemma HeartbeatReadRefines(s: State, k: Key)
    requires WellFormed(s)
    ensures HeartbeatRead(s, k) == if k in Contents(s) then Some(Contents(s)[k].service) else None
  {}

  /**
   The list write of `heartbeat` succeeds exactly when the key is still assigned to the service
   that was read; then it refreshes that entry, and otherwise it leaves the map alone.
   */
  lemma HeartbeatWriteRefines(s: State, k: Key, svc: string, now: Time)
    requires WellFormed(s)
    ensures HeartbeatFinds(s, k, svc) <==> k in Contents(s) && Contents(s)[k].service == svc
    ensures var s' := HeartbeatWrite(s, k, svc, now);
            && WellFormed(s') && Visible(s') == Visible(s)
            && Contents(s') == if HeartbeatFinds(s, k, svc) then Contents(s)[k := Entry(svc, now)] else Contents(s)
  {
    TouchVisible(s, k, svc, now);
    if HeartbeatFinds(s, k, svc) {
      var l := s.inner[svc];
      var i :| 0 <= i < |l| && l[i].key == k;
      assert Listed(s, svc, l[i]);
      TouchRefines(s, k, now);
    } else if svc in s.inner {
      var l := s.inner[svc];
      assert Touch(l, k, now) == l;
      assert s.inner[svc := l] == s.inner;
    }
  }

  lemma DropRefines(s: State, s': State, gone: set<Key>)
    requires WellFormed(s)
    requires s'.index == s.index - gone
    requires forall svc, x :: Listed(s', svc, x) <==> Listed(s, svc, x) && x.key !in gone
    requires forall svc :: svc in s'.inner ==> Distinct(s'.inner[svc])
    ensures WellFormed(s') && Contents(s') == Contents(s) - gone
  {
    var m := Contents(s) - gone;
    forall k | k in m ensures Listed(s', m[k].service, Instance(k, m[k].lastHeartbeat)) {
      InstanceOf(s, k);
    }
    StandsFor(s', m);
  }

  /** `deregister` removes one key; it reports exactly the visible changes. */
  lemma DeregisterRefines(s: State, k: Key)
    requires WellFormed(s)
    ensures WellFormed(Deregister(s, k))
    ensures Contents(Deregister(s, k)) == Contents(s) - {k}
    ensures k in s.index <==> Visible(Deregister(s, k)) != Visible(s)
  {
    var s' := Deregister(s, k);
    if k in s.index {
      assert Indexed(s, k);
      var svc := s.index[k];
      WithoutKeeps(s.inner[svc], {k});
      forall other, x ensures Listed(s', other, x) <==> Listed(s, other, x) && x.key !in {k} {}
      DropRefines(s, s', {k});
      if Visible(s') == Visible(s) {
        AssignmentIsVisible(s, s', k);
      }
    } else {
      assert Contents(s) - {k} == Contents(s);
    }
  }

  lemma ExpiredIsContents(s: State, timeout: nat, at: Key -> Time, k: Key)
    requires WellFormed(s)
    ensures k in Expired(s, timeout, at)
            <==> k in Contents(s) && !Alive(Contents(s)[k].lastHeartbeat, timeout, at(k))
  {
    if k in Expired(s, timeout, at) {
      var svc, x :| svc in s.inner && x in s.inner[svc] && !Alive(x.lastHeartbeat, timeout, at(x.key)) && x.key == k;
      assert x == Instance(k, x.lastHeartbeat) && Listed(s, svc, x);
      ContentsIsTheLists(s, k, svc, x.lastHeartbeat);
    }
    if k in Contents(s) {
      InstanceOf(s, k);
    }
  }

  lemma SweepDrops(s: State, timeout: nat, at: Key -> Time)
    requires WellFormed(s)
    ensures WellFormed(Sweep(s, timeout, at))
    ensures Contents(Sweep(s, timeout, at)) == Contents(s) - Expired(s, timeout, at)
  {
    var gone := Expired(s, timeout, at);
    var s' := Sweep(s, timeout, at);
    forall svc | svc in s.inner
      ensures Distinct(Without(s.inner[svc], gone))
      ensures forall x :: x in Without(s.inner[svc], gone) <==> x in s.inner[svc] && x.key !in gone
    {
      WithoutKeeps(s.inner[svc], gone);
    }
    forall svc, x ensures Listed(s', svc, x) <==> Listed(s, svc, x) && x.key !in gone {}
    DropRefines(s, s', gone);
  }

  lemma SweepOfNothing(s: State, timeout: nat, at: Key -> Time)
    requires Expired(s, timeout, at) == {}
    ensures Visible(Sweep(s, timeout, at)) == Visible(s)
  {
    forall svc | svc in s.inner ensures Without(s.inner[svc], {}) == s.inner[svc] {
      WithoutNothing(s.inner[svc], {});
    }
  }

  lemma SweepIsVisible(s: State, timeout: nat, at: Key -> Time)
    requires WellFormed(s)
    ensures Expired(s, timeout, at) == {} <==> Visible(Sweep(s, timeout, at)) == Visible(s)
  {
    if Expired(s, timeout, at) == {} {
      SweepOfNothing(s, timeout, at);
    } else if Visible(Sweep(s, timeout, at)) == Visible(s) {
      SweepDrops(s, timeout, at);
      var k :| k in Expired(s, timeout, at);
      ExpiredIsContents(s, timeout, at, k);
      AssignmentIsVisible(s, Sweep(s, timeout, at), k);
    }
  }

  /** The entries that are alive when checked. */
  ghost function Survivors(m: map<Key, Entry>, timeout: nat, at: Key -> Time): map<Key, Entry> {
    map k | k in m && Alive(m[k].lastHeartbeat, timeout, at(k)) :: m[k]
  }

  lemma SurvivorsRemain(m: map<Key, Entry>, gone: set<Key>, timeout: nat, at: Key -> Time)
    requires forall k :: k in gone <==> k in m && !Alive(m[k].lastHeartbeat, timeout, at(k))
    ensures m - gone == Survivors(m, timeout, at)
  {}

  /**
   `remove_expired` keeps exactly the entries that are alive when checked; subscribers see a
   difference exactly when some entry was dropped.
   */
  lemma SweepRefines(s: State, timeout: nat, at: Key -> Time)
    requires WellFormed(s)
    ensures WellFormed(Sweep(s, timeout, at))
    ensures Contents(Sweep(s, timeout, at)) == Survivors(Contents(s), timeout, at)
    ensures Expired(s, timeout, at) == {} <==> Visible(Sweep(s, timeout, at)) == Visible(s)
  {
    SweepIsVisible(s, timeout, at);
    SweepDrops(s, timeout, at);
    forall k ensures k in Expired(s, timeout, at)
                     <==> k in Contents(s) && !Alive(Contents(s)[k].lastHeartbeat, timeout, at(k))
    {
      ExpiredIsContents(s, timeout, at, k);
    }
    SurvivorsRemain(Contents(s), Expired(s, timeout, at), timeout, at);
  }

  /** For one entry: it stays exactly if its heartbeat is less than the timeout before the sweep's look at it. */
  lemma SweptEntry(s: State, timeout: nat, at: Key -> Time, k: Key)
    requires WellFormed(s)
    ensures WellFormed(Sweep(s, timeout, at))
    ensures Contents(Sweep(s, timeout, at)) == Survivors(Contents(s), timeout, at)
    ensures var m, m' := Contents(s), Contents(Sweep(s, timeout, at));
            && (k in m' <==> k in m && 0 < timeout && at(k) < m[k].lastHeartbeat + timeout)
            && (k in m' ==> m'[k] == m[k])
  {
    assert Contents(Sweep(s, timeout, at)) == Survivors(Contents(s), timeout, at) by { SweepRefines(s, timeout, at); }
    SurvivorsAt(Contents(s), timeout, at, k);
  }

  lemma SurvivorsAt(m: map<Key, Entry>, timeout: nat, at: Key -> Time, k: Key)
    ensures k in Survivors(m, timeout, at) <==> k in m && 0 < timeout && at(k) < m[k].lastHeartbeat + timeout
    ensures k in Survivors(m, timeout, at) ==> Survivors(m, timeout, at)[k] == m[k]
  {}
}
