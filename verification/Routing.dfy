/**
 The agreement of the two code generators with the router. One generator emits, for every rpc of
 every service, a registration under the service name and the rpc name with its first letter in
 lower case; the other emits a caller's method of that same name, under which the caller's proxy
 sends its requests.
 */
module Routing {

  import opened Common

  /** What both generators read from a proto file. */
  datatype Service = Service(name: string, rpcs: seq<string>)

  /** One rpc; `Handler` stands for the code that calls the implementation of that rpc. */
  datatype Rpc = Rpc(service: string, name: string)

  type Handler = Rpc

  function ToLower(c: char): char {
    if 'A' <= c <= 'Z' then ((c as int) + 32) as char else c
  }

  function LowerFirst(s: string): string {
    if s == "" then s else [ToLower(s[0])] + s[1..]
  }

  function Key(service: string, rpc: string): string {
    service + "." + rpc
  }

  const UPPER := "ABCDEFGHIJKLMNOPQRSTUVWXYZ"
  const LOWER := "abcdefghijklmnopqrstuvwxyz"

  /** The first letter is replaced by its small form if it is a capital, and nothing else is changed. */
  lemma LoweredName(s: string, rest: string)
    ensures forall i :: 0 <= i < 26 ==> LowerFirst([UPPER[i]] + rest) == [LOWER[i]] + rest
    ensures s == "" || s[0] !in UPPER ==> LowerFirst(s) == s
  {
    forall i | 0 <= i < 26 ensures LowerFirst([UPPER[i]] + rest) == [LOWER[i]] + rest {
      assert 'A' <= UPPER[i] <= 'Z' && UPPER[i] as int + 32 == LOWER[i] as int;
      assert ([UPPER[i]] + rest)[1..] == rest;
    }
    if s != "" && s[0] !in UPPER {
      assert [s[0]] + s[1..] == s;
    }
  }

  /** For example; and two rpcs that differ in the case of the first letter collide. */
  lemma LoweredExamples()
    ensures LowerFirst("Login") == "login" && LowerFirst("Get") == LowerFirst("get") == "get"
    ensures Key("UserService", LowerFirst("Login")) == "UserService.login"
    ensures SameRoute(Rpc("S", "Get"), Rpc("S", "get")) && !SameRoute(Rpc("S", "Get"), Rpc("S", "getAll"))
  {
    assert |LowerFirst("getAll")| == 6;
  }

  class Router {
    var handlers: map<string, Handler>

    constructor ()
      ensures handlers == map[]
    {
      handlers := map[];
    }

    method Register(service: string, rpc: string, handler: Handler)
      modifies this
      ensures handlers == old(handlers)[Key(service, rpc) := handler]
    {
      handlers := handlers[Key(service, rpc) := handler];
    }

    method Route(service: string, rpc: string) returns (h: Option<Handler>)
      ensures h == if Key(service, rpc) in handlers then Some(handlers[Key(service, rpc)]) else None
    {
      h := if Key(service, rpc) in handlers then Some(handlers[Key(service, rpc)]) else None;
    }
  }

  // ----- the generated code

  /** The rpcs of all services, in the order in which they are generated. */
  function Rpcs(services: seq<Service>): seq<Rpc> {
    if services == [] then [] else Rpcs(services[..|services| - 1]) + RpcsOf(services[|services| - 1])
  }

  function RpcsOf(svc: Service): seq<Rpc> {
    seq(|svc.rpcs|, i requires 0 <= i < |svc.rpcs| => Rpc(svc.name, svc.rpcs[i]))
  }

  /** The key under which the server's generated code registers an rpc. */
  function RouterKey(r: Rpc): string {
    Key(r.service, LowerFirst(r.name))
  }

  /** The name that the caller's generator gives to the stub of an rpc. */
  function JavaName(name: string): string {
    if |name| == 0 then name else var first, rest := name[..1], name[1..]; AllLower(first) + rest
  }

  function AllLower(s: string): string {
    if s == "" then s else [ToLower(s[0])] + AllLower(s[1..])
  }

  /** The service and the method that the caller's proxy puts into the requests of a stub. */
  function StubRequest(r: Rpc): (string, string) {
    (r.service, JavaName(r.name))
  }

  /** The two generators agree: the router looks a stub's request up under the key of its rpc. */
  lemma GeneratorsAgree(r: Rpc)
    ensures Key(StubRequest(r).0, StubRequest(r).1) == RouterKey(r)
  {
    if r.name != "" {
      assert AllLower(r.name[..1]) == [ToLower(r.name[0])] + AllLower([]);
    }
  }

  /** A map filled by one assignment after the other. */
  function Assigned<K, V>(pairs: seq<(K, V)>): map<K, V> {
    if pairs == [] then map[] else Assigned(pairs[..|pairs| - 1])[pairs[|pairs| - 1].0 := pairs[|pairs| - 1].1]
  }

  function Registrations(rpcs: seq<Rpc>): seq<(string, Handler)> {
    seq(|rpcs|, i requires 0 <= i < |rpcs| => (RouterKey(rpcs[i]), rpcs[i]))
  }

  /** The routing table after the registrations for `rpcs`, a later one replacing an earlier one. */
  function Table(rpcs: seq<Rpc>): map<string, Handler> {
    Assigned(Registrations(rpcs))
  }

  lemma TableSnoc(rpcs: seq<Rpc>, r: Rpc)
    ensures Table(rpcs + [r]) == Table(rpcs)[RouterKey(r) := r]
  {
    var all := Registrations(rpcs + [r]);
    assert all[..|rpcs|] == Registrations(rpcs);
  }

  /** The generated registration function of one service; `before` are the rpcs registered so far. */
  method RegisterService(router: Router, svc: Service, ghost before: seq<Rpc>)
    requires router.handlers == Table(before)
    modifies router
    ensures router.handlers == Table(before + RpcsOf(svc))
  {
    NoneYet(before, RpcsOf(svc));
    for j := 0 to |svc.rpcs|
      invariant router.handlers == Table(before + RpcsOf(svc)[..j])
    {
      OneMore(before, RpcsOf(svc), j);
      router.Register(svc.name, LowerFirst(svc.rpcs[j]), Rpc(svc.name, svc.rpcs[j]));
    }
  }

  lemma NoneYet(before: seq<Rpc>, rpcs: seq<Rpc>)
    ensures before + rpcs[..0] == before && rpcs[..|rpcs|] == rpcs
  {}

  lemma OneMore(before: seq<Rpc>, rpcs: seq<Rpc>, j: nat)
    requires j < |rpcs|
    ensures Table(before + rpcs[..j + 1]) == Table(before + rpcs[..j])[RouterKey(rpcs[j]) := rpcs[j]]
  {
    TableSnoc(before + rpcs[..j], rpcs[j]);
    assert before + rpcs[..j + 1] == before + rpcs[..j] + [rpcs[j]];
  }

  /** All generated registration functions, called on a new router. */
  method RegisterAll(services: seq<Service>) returns (router: Router)
    ensures fresh(router) && router.handlers == Table(Rpcs(services))
  {
    router := new Router();
    for i := 0 to |services|
      invariant fresh(router) && router.handlers == Table(Rpcs(services[..i]))
    {
      assert services[..i + 1][..i] == services[..i];
      RegisterService(router, services[i], Rpcs(services[..i]));
    }
    assert services[..|services|] == services;
  }

  // ----- dotted names

  predicate DotFree(s: string) {
    '.' !in s
  }

  lemma FirstDot(a: string, b: string)
    requires DotFree(a)
    ensures |Key(a, b)| > |a| && Key(a, b)[|a|] == '.'
    ensures forall i :: 0 <= i < |a| ==> Key(a, b)[i] != '.'
    ensures Key(a, b)[..|a|] == a && Key(a, b)[|a| + 1..] == b
  {}

  /** A dotted name has one reading if the part before the dot contains none. */
  lemma KeyInjective(a: string, b: string, c: string, d: string)
    requires DotFree(a) && DotFree(c)
    ensures Key(a, b) == Key(c, d) <==> a == c && b == d
  {
    FirstDot(a, b);
    FirstDot(c, d);
  }

  predicate SameRoute(a: Rpc, b: Rpc) {
    a.service == b.service && LowerFirst(a.name) == LowerFirst(b.name)
  }

  /** No two rpcs have the same service and the same name after lowering the first letter. */
  predicate Unambiguous(rpcs: seq<Rpc>) {
    forall i, j :: 0 <= i < j < |rpcs| ==> !SameRoute(rpcs[i], rpcs[j])
  }

  lemma {:induction false} LastAssignmentCounts<K, V>(pairs: seq<(K, V)>, i: nat)
    requires i < |pairs|
    ensures pairs[i].0 in Assigned(pairs)
    ensures (forall j :: i < j < |pairs| ==> pairs[j].0 != pairs[i].0) ==> Assigned(pairs)[pairs[i].0] == pairs[i].1
  {
    var n := |pairs| - 1;
    if i < n {
      LastAssignmentCounts(pairs[..n], i);
    }
  }

  /** Under the key of `rpcs[i]` the table has the last rpc with that key. */
  lemma TableHas(rpcs: seq<Rpc>, i: nat)
    requires i < |rpcs|
    ensures RouterKey(rpcs[i]) in Table(rpcs)
    ensures (forall j :: i < j < |rpcs| ==> RouterKey(rpcs[j]) != RouterKey(rpcs[i])) ==>
              Table(rpcs)[RouterKey(rpcs[i])] == rpcs[i]
  {
    LastAssignmentCounts(Registrations(rpcs), i);
  }

  /** The handler the server finds for a request of the stub of this rpc. */
  function Routed(services: seq<Service>, r: Rpc): Option<Handler> {
    var t := Table(Rpcs(services));
    var key := Key(StubRequest(r).0, StubRequest(r).1);
    if key in t then Some(t[key]) else None
  }

  predicate DotFreeServices(services: seq<Service>) {
    forall i :: 0 <= i < |services| ==> DotFree(services[i].name)
  }

  lemma {:induction false} RpcsDotFree(services: seq<Service>, i: nat)
    requires DotFreeServices(services) && i < |Rpcs(services)|
    ensures DotFree(Rpcs(services)[i].service)
  {
    if services != [] {
      var n := |services| - 1;
      if i < |Rpcs(services[..n])| { RpcsDotFree(services[..n], i); }
    }
  }

  predicate NoRepeats(rpcs: seq<Rpc>) {
    forall i, j :: 0 <= i < j < |rpcs| ==> rpcs[i] != rpcs[j]
  }

  /**
   For every set of services whose names contain no dot, in which no rpc is declared twice: every
   stub reaches the handler generated for its own rpc if and only if no two rpcs of one service
   have the same name after lowering the first letter.
   */
  lemma StubsReachHandlersIff(services: seq<Service>)
    requires DotFreeServices(services) && NoRepeats(Rpcs(services))
    ensures (forall i :: 0 <= i < |Rpcs(services)| ==> Routed(services, Rpcs(services)[i]) == Some(Rpcs(services)[i]))
            <==> Unambiguous(Rpcs(services))
  {
    var rpcs := Rpcs(services);
    if Unambiguous(rpcs) {
      forall i | 0 <= i < |rpcs| ensures Routed(services, rpcs[i]) == Some(rpcs[i]) {
        GeneratorsAgree(rpcs[i]);
        forall j | i < j < |rpcs| ensures RouterKey(rpcs[j]) != RouterKey(rpcs[i]) {
          SameKeyIff(services, i, j);
        }
        TableHas(rpcs, i);
      }
    } else {
      var i, j :| 0 <= i < j < |rpcs| && SameRoute(rpcs[i], rpcs[j]);
      SameKeyIff(services, i, j);
      GeneratorsAgree(rpcs[i]);
      GeneratorsAgree(rpcs[j]);
      assert Routed(services, rpcs[i]) == Routed(services, rpcs[j]);
    }
  }

  lemma SameKeyIff(services: seq<Service>, i: nat, j: nat)
    requires DotFreeServices(services) && i < |Rpcs(services)| && j < |Rpcs(services)|
    ensures var rpcs := Rpcs(services); RouterKey(rpcs[i]) == RouterKey(rpcs[j]) <==> SameRoute(rpcs[i], rpcs[j])
  {
    var a, b := Rpcs(services)[i], Rpcs(services)[j];
    RpcsDotFree(services, i);
    RpcsDotFree(services, j);
    KeyInjective(a.service, LowerFirst(a.name), b.service, LowerFirst(b.name));
  }

  /** A call through a stub: the router of the running server finds that rpc's own handler. */
  method CallThroughStub(services: seq<Service>, i: nat) returns (h: Option<Handler>)
    requires DotFreeServices(services) && NoRepeats(Rpcs(services)) && Unambiguous(Rpcs(services))
    requires i < |Rpcs(services)|
    ensures h == Some(Rpcs(services)[i])
  {
    var router := RegisterAll(services);
    var r := Rpcs(services)[i];
    h := router.Route(StubRequest(r).0, StubRequest(r).1);
    StubsReachHandlersIff(services);
    assert h == Routed(services, r);
  }
}
