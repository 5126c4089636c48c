// What the claims say: every claim was made for some request, with its pool, its
// prefix, its owner, and an address inside the network of that pool.
module ClaimContents {
  import opened MachineWords
  import opened Text
  import opened IPv4
  import opened PoolWindows
  import opened Claims
  import opened PreferredAddress

  /** An address of the network. */
  ghost predicate Within(network: Network, address: string)
    requires network.ones <= 32
  {
    exists n: U32 :: address == Render(n) && network.Contains(n)
  }

  /** What a call works on, and what it leased, lies in its pool's network. */
  ghost predicate Aims(a: Allocator, pc: Pc)
    requires a.Valid()
  {
    match pc
    case TryFree(_, free, _) => Within(a.window.network, free)
    case RecheckFree(_, free, _) => Within(a.window.network, free)
    case Done(outcome) => outcome.Leased? ==> Within(a.window.network, outcome.address)
    case _ => Within(a.window.network, a.Wanted())
  }

  lemma AcceptedIsWithin(a: Allocator, ipv6: Ipv6Parser)
    requires a.Valid() && Accepted(a, ipv6)
    ensures Within(a.window.network, a.Wanted())
  {
    TrimShape(a.preferred, GoSpace);
    TrimOfTrimmed(a.Wanted(), GoSpace);
    ValidateExactlyCanonical(a.Wanted(), ipv6);
    hide TrimSpace, Trim, Render, ValidateIPv4Address, ParseIp;
    var n: U32 :| a.Wanted() == Render(n);
    RenderIsParsed(n, ipv6);
    assert a.window.network.Contains(n);
  }

  lemma AttemptAims(a: Allocator, attempt: nat, used: set<string>)
    requires a.Valid() && Sound(a.window)
    ensures Aims(a, NextAttempt(a, attempt, used))
  {
    hide FirstFreeOf, Render, Sound, Free;
    if FirstFreeOf(a.window, used).Found? {
      FoundIsAHost(a.window, used);
    }
  }

  lemma StartAims(a: Allocator, used: set<string>, ipv6: Ipv6Parser)
    requires a.Valid() && Sound(a.window)
    ensures Aims(a, Start(a, used, ipv6))
  {
    AttemptAims(a, 0, used);
    hide NextAttempt, Within, Sound, TrimSpace, ValidateIPv4Address, ContainsIPv4;
    if Accepted(a, ipv6) {
      AcceptedIsWithin(a, ipv6);
    }
  }

  lemma NextAims(a: Allocator, pc: Pc, reply: Reply)
    requires a.Valid() && Sound(a.window) && !pc.Done? && Aims(a, pc)
    ensures Aims(a, Next(a, pc, reply))
  {
    hide FirstFreeOf, NextAttempt, Within, Sound, TrimSpace, IsClaimedBy, AddressObjectName;
    if pc.RecheckFree? {
      AttemptAims(a, pc.attempt + 1, pc.used);
    }
  }

  /** Made for o, from a pool of that kind and name with that network. */
  ghost predicate MadeFrom(o: Owner, kind: string, name: string, network: Network, key: Key, claim: Claim)
    requires network.ones <= 32
  {
    && claim.poolKind == kind && claim.poolName == name && claim.prefixLength == network.ones
    && Within(network, claim.address)
    && claim.ownerUids == {o.uid} && claim.claimRef == Some(Reference(o.kind, o.namespace, o.name))
    && key == Key(o.namespace, AddressObjectName(claim.address))
  }

  /** One request of a call creates nothing, or one such claim. */
  lemma CallMakes(a: Allocator, pc: Pc, store: Store, fault: Fault)
    requires a.Valid() && !pc.Done? && Aims(a, pc)
    ensures var after := Serve(store, Call(a, pc), fault).0;
            && (forall k :: k in store ==> k in after && after[k] == store[k])
            && (forall k :: k in after && k !in store ==> MadeFrom(a.owner, a.poolKind, a.poolName, a.window.network, k, after[k]))
  {
    hide Within, TrimSpace, AddressObjectName;
  }

  // ---------------------------------------------------------------- allocation calls

  ghost predicate MadeForSomeCall(c: Cluster, key: Key, claim: Claim)
    requires c.Valid()
  {
    exists id :: id in c.allocators
                 && var a := c.allocators[id]; MadeFrom(a.owner, a.poolKind, a.poolName, a.window.network, key, claim)
  }

  /** A lease that stands reports the prefix its claim has. */
  ghost predicate PrefixTold(c: Cluster, s: State, id: nat) {
    id in c.allocators && id in s.calls && s.calls[id].Done? && s.calls[id].outcome.Leased? && id !in s.revoked ==>
      var key := c.allocators[id].KeyOf(s.calls[id].outcome.address);
      key in s.store && s.store[key].prefixLength == s.calls[id].outcome.prefixLength
  }

  ghost predicate Contents(c: Cluster, s: State)
    requires c.Valid()
  {
    && (forall k :: k in s.store ==> MadeForSomeCall(c, k, s.store[k]))
    && (forall id :: id in s.calls ==> id in c.allocators && Aims(c.allocators[id], s.calls[id]) && PrefixTold(c, s, id))
  }

  ghost predicate AllSound(c: Cluster)
    requires c.Valid()
  {
    forall id :: id in c.allocators ==> Sound(c.allocators[id].window)
  }

  /** Claims stay as they are, so what a call has reported stays true. */
  lemma PrefixGrows(c: Cluster, s: State, t: State, id: nat)
    requires PrefixTold(c, s, id) && t.revoked == s.revoked && id in s.calls && id in t.calls && t.calls[id] == s.calls[id]
    requires forall k :: k in s.store ==> k in t.store && t.store[k] == s.store[k]
    ensures PrefixTold(c, t, id)
  {
    hide AddressObjectName;
  }

  lemma Remade(c: Cluster, a: Allocator, id: nat, before: Store, after: Store)
    requires c.Valid() && id in c.allocators && a == c.allocators[id]
    requires forall k :: k in before ==> MadeForSomeCall(c, k, before[k]) && k in after && after[k] == before[k]
    requires forall k :: k in after && k !in before ==> MadeFrom(a.owner, a.poolKind, a.poolName, a.window.network, k, after[k])
    ensures forall k :: k in after ==> MadeForSomeCall(c, k, after[k])
  {
    hide MadeFrom;
  }

  /** One call moves on, over a store that grows by claims made for it. */
  lemma CallContents(c: Cluster, s: State, id: nat, pc: Pc, store: Store)
    requires c.Valid() && Contents(c, s) && id in c.allocators && Aims(c.allocators[id], pc)
    requires forall k :: k in s.store ==> k in store && store[k] == s.store[k]
    requires forall k :: k in store ==> MadeForSomeCall(c, k, store[k])
    requires PrefixTold(c, s.(store := store, calls := s.calls[id := pc]), id)
    ensures Contents(c, s.(store := store, calls := s.calls[id := pc]))
  {
    var t := s.(store := store, calls := s.calls[id := pc]);
    hide Aims, MadeForSomeCall, PrefixTold, Sound;
    forall i | i in t.calls ensures i in c.allocators && Aims(c.allocators[i], t.calls[i]) && PrefixTold(c, t, i) {
      if i != id {
        PrefixGrows(c, s, t, i);
      }
    }
  }

  lemma BeginContents(c: Cluster, s: State, id: nat, snapshot: set<string>)
    requires c.Valid() && AllSound(c) && Contents(c, s) && id in c.allocators && id !in s.calls
    ensures Contents(c, s.(calls := s.calls[id := Start(c.allocators[id], snapshot, c.ipv6)]))
  {
    StartAims(c.allocators[id], snapshot, c.ipv6);
    StartInv(c.allocators[id], snapshot, c.ipv6);
    hide Start, Aims, Sound, MadeForSomeCall, PcInv, AddressObjectName;
    var pc := Start(c.allocators[id], snapshot, c.ipv6);
    assert s.(store := s.store, calls := s.calls[id := pc]) == s.(calls := s.calls[id := pc]);
    CallContents(c, s, id, pc, s.store);
  }

  /** What a call reports is what its request found or made. */
  lemma ReportsPrefix(a: Allocator, pc: Pc, store: Store, fault: Fault)
    requires a.Valid() && !pc.Done?
    ensures var (after, reply) := Serve(store, Call(a, pc), fault);
            var next := Next(a, pc, reply);
            next.Done? && next.outcome.Leased? ==>
              var key := a.KeyOf(next.outcome.address);
              key in after && after[key].prefixLength == next.outcome.prefixLength
  {
    hide FirstFreeOf, TrimSpace, AddressObjectName, IsClaimedBy;
  }

  /** The step of a call on its own. */
  lemma CallStep(c: Cluster, s: State, id: nat, store: Store, next: Pc)
    requires c.Valid() && Contents(c, s) && id in c.allocators && id in s.calls && Aims(c.allocators[id], next)
    requires forall k :: k in s.store ==> k in store && store[k] == s.store[k]
    requires var a := c.allocators[id];
             forall k :: k in store && k !in s.store ==> MadeFrom(a.owner, a.poolKind, a.poolName, a.window.network, k, store[k])
    requires next.Done? && next.outcome.Leased? ==>
               var key := c.allocators[id].KeyOf(next.outcome.address);
               key in store && store[key].prefixLength == next.outcome.prefixLength
    ensures Contents(c, s.(store := store, calls := s.calls[id := next]))
  {
    hide Aims, MadeFrom, MadeForSomeCall, AddressObjectName;
    Remade(c, c.allocators[id], id, s.store, store);
    CallContents(c, s, id, next, store);
  }

  lemma AdvanceContents(c: Cluster, s: State, id: nat, fault: Fault)
    requires c.Valid() && AllSound(c) && Contents(c, s) && id in c.allocators && id in s.calls && !s.calls[id].Done?
    ensures Contents(c, Exec(c, s, Advance(id, fault)))
  {
    var a, pc := c.allocators[id], s.calls[id];
    var (store, reply) := Serve(s.store, Call(a, pc), fault);
    CallMakes(a, pc, s.store, fault);
    NextAims(a, pc, reply);
    ReportsPrefix(a, pc, s.store, fault);
    hide Serve, Call, Next, Aims, Sound, MadeFrom, MadeForSomeCall, AddressObjectName, PrefixTold;
    CallStep(c, s, id, store, Next(a, pc, reply));
    hide Contents;
  }

  lemma RemovedPrefix(c: Cluster, s: State, key: Key, id: nat)
    requires PrefixTold(c, s, id)
    ensures PrefixTold(c, s.(store := s.store - {key}, revoked := s.revoked + LeasesOn(c, s, key)), id)
  {
    hide AddressObjectName;
  }

  lemma RemoveContents(c: Cluster, s: State, key: Key)
    requires c.Valid() && Contents(c, s)
    ensures Contents(c, Exec(c, s, Remove(key)))
  {
    var t := s.(store := s.store - {key}, revoked := s.revoked + LeasesOn(c, s, key));
    assert Exec(c, s, Remove(key)) == t;
    hide Aims, MadeForSomeCall, PrefixTold, LeasesOn, Exec;
    forall id | id in t.calls ensures PrefixTold(c, t, id) {
      RemovedPrefix(c, s, key, id);
    }
  }

  predicate NoForeign(actions: seq<Action>) {
    forall i :: 0 <= i < |actions| ==> !actions[i].Foreign?
  }

  /**
   * Over every run of calls on sound windows: each claim names the pool of the call it
   * was made for, carries that pool's prefix, an address of that pool's network, and
   * the caller as its owner; and a lease that stands reports its claim's prefix.
   */
  lemma {:induction false} ClaimsFitTheirPool(c: Cluster, s: State, actions: seq<Action>)
    requires c.Valid() && AllSound(c) && NoForeign(actions) && Contents(c, s)
    ensures Contents(c, Run(c, s, actions))
    decreases |actions|
  {
    hide AllSound, Contents, Exec;
    if actions != [] {
      var front, last := actions[..|actions| - 1], actions[|actions| - 1];
      ClaimsFitTheirPool(c, s, front);
      StepContents(c, Run(c, s, front), last);
    }
  }

  lemma StepContents(c: Cluster, s: State, action: Action)
    requires c.Valid() && AllSound(c) && Contents(c, s) && !action.Foreign?
    ensures Contents(c, Exec(c, s, action))
  {
    match action
    case Begin(id, snapshot) =>
      hide Contents, AllSound, Start;
      if id in c.allocators && id !in s.calls { BeginContents(c, s, id, snapshot); }
    case Advance(id, fault) =>
      hide Contents, AllSound, Serve, Call, Next;
      if id in c.allocators && id in s.calls && !s.calls[id].Done? { AdvanceContents(c, s, id, fault); }
    case Remove(key) =>
      hide Contents, AllSound, LeasesOn;
      RemoveContents(c, s, key);
  }

  lemma NothingYet(c: Cluster)
    requires c.Valid()
    ensures Contents(c, State(map[], map[], {}))
  {
  }
}
