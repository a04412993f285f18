/**
 Service discovery from end to end: from the registry's store over the channel and one subscriber's
 connection into the caller's cache.
 */
module Discovery {

  import opened Store
  import R = Registry
  import P = Publication
  import C = CallerRegistry

  /**
   Under the assumptions of convergence, and once nobody has a list to build or to send, the cache of
   a caller that has merged everything its subscription delivered agrees with the store on every
   service that has instances; and it is the store's visible list exactly when every service it was
   ever told about still has instances.
   */
  lemma CallersConverge(capacity: nat, events: seq<R.Event>, states: seq<R.Sys>, b: nat, n: nat, c: nat)
    requires 1 <= capacity
    requires R.Run(capacity, events, states) && P.LosslessSince(events, states, b, n)
    requires P.LastSentIsLastBuilt(states[n]) && P.Settled(states[n], c)
    ensures var cache := C.Merged(states[n].conns[c].delivered);
            var visible := Visible(states[n].st.store);
            && (forall svc :: svc in visible ==> svc in cache && cache[svc] == visible[svc])
            && (cache == visible <==>
                forall list, svc :: list in states[n].conns[c].delivered && svc in list ==> svc in visible)
  {
    P.SubscribersConverge(capacity, events, states, b, n, c);
    C.EqualsLatestIff(states[n].conns[c].delivered);
  }

  /**
   What a caller may pick for a service that has instances is registered for it right now: the
   addresses in the cache are exactly the keys the store has under that service.
   */
  lemma CachedAddressesAreRegistered(capacity: nat, events: seq<R.Event>, states: seq<R.Sys>, b: nat, n: nat, c: nat,
                                     svc: string, k: Key)
    requires 1 <= capacity
    requires R.Run(capacity, events, states) && P.LosslessSince(events, states, b, n)
    requires P.LastSentIsLastBuilt(states[n]) && P.Settled(states[n], c)
    requires svc in Visible(states[n].st.store)
    ensures WellFormed(states[n].st.store) && svc in C.Merged(states[n].conns[c].delivered)
    ensures k in C.Merged(states[n].conns[c].delivered)[svc]
            <==> k in Contents(states[n].st.store) && Contents(states[n].st.store)[k].service == svc
  {
    CallersConverge(capacity, events, states, b, n, c);
    R.RunInv(capacity, events, states, n);
    VisibleIsContents(states[n].st.store, k, svc);
  }
}
