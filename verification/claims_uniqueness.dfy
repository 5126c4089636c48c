// Cluster-wide uniqueness of pool addresses. Claim names are namespace-scoped, so
// HTTP 409 cannot arbitrate between namespaces: there only the snapshot protects.
module ClaimUniqueness {
  import opened MachineWords
  import opened Text
  import opened IPv4
  import opened PoolWindows
  import opened Claims

  predicate SameAddress(x: Claim, y: Claim) {
    x.poolKind == y.poolKind && x.poolName == y.poolName && x.address == y.address
  }

  /** No two live claims, in whatever namespaces, hold one address of one pool. */
  ghost predicate PoolUnique(store: Store) {
    forall k1, k2 :: k1 in store && k2 in store && SameAddress(store[k1], store[k2]) ==> k1 == k2
  }

  /** The call's used set still covers every claim of its pool. */
  ghost predicate Fresh(a: Allocator, pc: Pc, store: Store) {
    match pc
    case AskPreferred(used) => UsedByPool(store, a.poolKind, a.poolName) <= used
    case TakePreferred(used) => UsedByPool(store, a.poolKind, a.poolName) <= used
    case TryFree(_, _, used) => UsedByPool(store, a.poolKind, a.poolName) <= used
    case RecheckFree(_, _, used) => UsedByPool(store, a.poolKind, a.poolName) <= used
    case _ => true
  }

  lemma CanonicalIsUsed(c: Cluster, store: Store, k: Key)
    requires StoreInv(c, store) && k in store
    ensures store[k].address in UsedByPool(store, store[k].poolKind, store[k].poolName)
  {
    var address := store[k].address;
    CanonicalIsRendered(address);
    var n: U32 :| address == Render(n);
    RenderShape(n);
    TrimOfTrimmed(address, GoSpace);
    assert TrimSpace(store[k].address) == address;
  }

  lemma CreateKeepsUnique(c: Cluster, store: Store, a: Allocator, address: string)
    requires StoreInv(c, store) && PoolUnique(store)
    requires address !in UsedByPool(store, a.poolKind, a.poolName)
    requires a.KeyOf(address) !in store
    ensures PoolUnique(store[a.KeyOf(address) := a.NewClaim(address)])
  {
    hide UsedByPool, AddressObjectName;
    forall k | k in store && store[k].poolKind == a.poolKind && store[k].poolName == a.poolName
      ensures store[k].address != address
    {
      CanonicalIsUsed(c, store, k);
    }
  }

  /** A step of a call whose snapshot is fresh keeps the pool unique and the snapshot fresh. */
  lemma AdvanceKeepsUnique(c: Cluster, a: Allocator, pc: Pc, store: Store, fault: Fault)
    requires c.Valid() && a.Valid() && a.owner in c.owners && !pc.Done? && PcInv(a, pc)
    requires StoreInv(c, store) && PoolUnique(store) && Fresh(a, pc, store)
    ensures var (store', reply) := Serve(store, Call(a, pc), fault);
            PoolUnique(store') && Fresh(a, Next(a, pc, reply), store')
  {
    hide FirstFreeOf, Canonical, TrimSpace, AddressObjectName, UsedByPool, PoolUnique, IsClaimedBy;
    if pc.TakePreferred? && a.KeyOf(a.Wanted()) !in store {
      CreateKeepsUnique(c, store, a, a.Wanted());
    } else if pc.TryFree? && a.KeyOf(pc.free) !in store {
      CreateKeepsUnique(c, store, a, pc.free);
    }
  }

  predicate InFlight(s: State, id: nat) {
    id in s.calls && !s.calls[id].Done?
  }

  /**
   * List and create are not interleaved: a call begins, with the list of that
   * moment, only when no other call is under way. Deletions may come at any time.
   */
  ghost predicate SerialStep(c: Cluster, s: State, action: Action) {
    match action
    case Begin(id, snapshot) =>
      (forall j :: !InFlight(s, j))
      && (id in c.allocators ==>
            snapshot == UsedByPool(s.store, c.allocators[id].poolKind, c.allocators[id].poolName))
    case Advance(_, _) => true
    case Remove(_) => true
    case Foreign(client, address) =>
      (forall j :: !InFlight(s, j)) && address !in UsedByPool(s.store, client.poolKind, client.poolName)
  }

  ghost predicate Serial(c: Cluster, s: State, actions: seq<Action>)
    requires c.Valid()
    decreases |actions|
  {
    actions != [] ==>
      var front := actions[..|actions| - 1];
      Serial(c, s, front) && SerialStep(c, Run(c, s, front), actions[|actions| - 1])
  }

  ghost predicate SerialInv(c: Cluster, s: State) {
    && Inv(c, s)
    && PoolUnique(s.store)
    && (forall i :: InFlight(s, i) ==> Fresh(c.allocators[i], s.calls[i], s.store))
    && (forall i, j :: InFlight(s, i) && InFlight(s, j) ==> i == j)
  }

  lemma StartIsFresh(a: Allocator, store: Store, ipv6: Ipv6Parser)
    requires a.Valid()
    ensures Fresh(a, Start(a, UsedByPool(store, a.poolKind, a.poolName), ipv6), store)
  {
    hide FirstFreeOf, Canonical, TrimSpace, UsedByPool, ValidateIPv4Address, ContainsIPv4;
  }

  lemma RemoveKeepsFresh(a: Allocator, pc: Pc, store: Store, key: Key)
    requires Fresh(a, pc, store)
    ensures Fresh(a, pc, store - {key})
  {
    assert UsedByPool(store - {key}, a.poolKind, a.poolName) <= UsedByPool(store, a.poolKind, a.poolName);
  }

  lemma SerialBegin(c: Cluster, s: State, id: nat, snapshot: set<string>)
    requires c.Valid() && SerialInv(c, s) && SerialStep(c, s, Begin(id, snapshot))
    ensures SerialInv(c, Exec(c, s, Begin(id, snapshot)))
  {
    ExecKeepsInv(c, s, Begin(id, snapshot));
    hide Inv, Start, UsedByPool, PoolUnique, Fresh;
    var s' := Exec(c, s, Begin(id, snapshot));
    if s' != s {
      StartIsFresh(c.allocators[id], s.store, c.ipv6);
      forall i | InFlight(s', i) ensures i == id {
        assert i != id ==> !InFlight(s, i);
      }
    }
  }

  lemma SerialAdvance(c: Cluster, s: State, id: nat, fault: Fault)
    requires c.Valid() && SerialInv(c, s)
    ensures SerialInv(c, Exec(c, s, Advance(id, fault)))
  {
    ExecKeepsInv(c, s, Advance(id, fault));
    hide Inv, Next, Serve, Call, UsedByPool, PoolUnique, Fresh;
    var s' := Exec(c, s, Advance(id, fault));
    if id in c.allocators && InFlight(s, id) {
      InvParts(c, s, id);
      AdvanceKeepsUnique(c, c.allocators[id], s.calls[id], s.store, fault);
      forall i | InFlight(s', i) ensures i == id {
        assert i != id ==> InFlight(s, i);
      }
    }
  }

  lemma SerialRemove(c: Cluster, s: State, key: Key)
    requires c.Valid() && SerialInv(c, s)
    ensures SerialInv(c, Exec(c, s, Remove(key)))
  {
    ExecKeepsInv(c, s, Remove(key));
    hide Inv, UsedByPool, PoolUnique, Fresh;
    var s' := Exec(c, s, Remove(key));
    forall i | InFlight(s', i) ensures InFlight(s, i) && Fresh(c.allocators[i], s'.calls[i], s'.store) {
      assert InFlight(s, i);
      RemoveKeepsFresh(c.allocators[i], s.calls[i], s.store, key);
    }
    UniqueAfterRemove(s.store, key);
  }

  lemma SerialForeign(c: Cluster, s: State, client: Allocator, address: string)
    requires c.Valid() && SerialInv(c, s) && SerialStep(c, s, Foreign(client, address))
    ensures SerialInv(c, Exec(c, s, Foreign(client, address)))
  {
    ExecKeepsInv(c, s, Foreign(client, address));
    InvStore(c, s);
    hide Inv, UsedByPool, PoolUnique, Fresh, Canonical, AddressObjectName;
    var s' := Exec(c, s, Foreign(client, address));
    if s' != s {
      CreateKeepsUnique(c, s.store, client, address);
    }
    assert forall i :: InFlight(s', i) ==> InFlight(s, i);
  }

  lemma SerialStepKeeps(c: Cluster, s: State, action: Action)
    requires c.Valid() && SerialInv(c, s) && SerialStep(c, s, action)
    ensures SerialInv(c, Exec(c, s, action))
  {
    hide SerialInv, Exec;
    match action
    case Begin(id, snapshot) => SerialBegin(c, s, id, snapshot);
    case Advance(id, fault) => SerialAdvance(c, s, id, fault);
    case Remove(key) => SerialRemove(c, s, key);
    case Foreign(client, address) => SerialForeign(c, s, client, address);
  }

  lemma UniqueAfterRemove(store: Store, key: Key)
    requires PoolUnique(store)
    ensures PoolUnique(store - {key})
  {
  }

  lemma InvStore(c: Cluster, s: State)
    requires Inv(c, s)
    ensures StoreInv(c, s.store)
  {
  }

  lemma InvParts(c: Cluster, s: State, id: nat)
    requires c.Valid() && Inv(c, s) && InFlight(s, id)
    ensures StoreInv(c, s.store) && id in c.allocators
    ensures c.allocators[id].Valid() && c.allocators[id].owner in c.owners
    ensures PcInv(c.allocators[id], s.calls[id])
  {
  }

  /** Without interleaving, pool addresses stay unique over the whole cluster. */
  lemma {:induction false} SerialRunsKeepPoolUnique(c: Cluster, s: State, actions: seq<Action>)
    requires c.Valid() && SerialInv(c, s) && Serial(c, s, actions)
    ensures SerialInv(c, Run(c, s, actions)) && PoolUnique(Run(c, s, actions).store)
    decreases |actions|
  {
    hide SerialInv, SerialStep, Exec;
    if actions != [] {
      var front := actions[..|actions| - 1];
      SerialRunsKeepPoolUnique(c, s, front);
      SerialStepKeeps(c, Run(c, s, front), actions[|actions| - 1]);
    }
    InvUnique(c, Run(c, s, actions));
  }

  lemma InvUnique(c: Cluster, s: State)
    requires SerialInv(c, s)
    ensures PoolUnique(s.store)
  {
  }

  // ---------------------------------------------------------------- with interleaving

  /** Every snapshot is the true list of the moment it was taken; nobody else writes. */
  ghost predicate Honest(c: Cluster, s: State, actions: seq<Action>)
    requires c.Valid()
    decreases |actions|
  {
    actions != [] ==>
      var front, last := actions[..|actions| - 1], actions[|actions| - 1];
      && Honest(c, s, front)
      && !last.Foreign?
      && (last.Begin? && last.id in c.allocators ==>
            last.snapshot == UsedByPool(Run(c, s, front).store,
                                        c.allocators[last.id].poolKind, c.allocators[last.id].poolName))
  }

  const EMPTY: State := State(map[], map[], {})

  lemma {:induction false} KeysStayInNamespace(c: Cluster, actions: seq<Action>, ns: string)
    requires c.Valid() && Honest(c, EMPTY, actions)
    requires forall id :: id in c.allocators ==> c.allocators[id].owner.namespace == ns
    ensures forall k :: k in Run(c, EMPTY, actions).store ==> k.namespace == ns
    decreases |actions|
  {
    hide FirstFreeOf, Canonical, TrimSpace, AddressObjectName, Start, Next, UsedByPool;
    if actions != [] {
      KeysStayInNamespace(c, actions[..|actions| - 1], ns);
    }
  }

  lemma SameNamespaceUnique(c: Cluster, actions: seq<Action>, ns: string)
    requires c.Valid() && Honest(c, EMPTY, actions)
    requires forall id :: id in c.allocators ==> c.allocators[id].owner.namespace == ns
    ensures PoolUnique(Run(c, EMPTY, actions).store)
  {
    KeysStayInNamespace(c, actions, ns);
    EveryRunIsSafe(c, EMPTY, actions);
    InvStore(c, Run(c, EMPTY, actions));
    hide Run, Honest, AddressObjectName, Canonical;
  }

  /** Two calls for one pool, each with a wanted address or without. */
  ghost predicate TwoCalls(c: Cluster, a: Allocator, b: Allocator) {
    && c.Valid() && c.allocators == map[0 := a, 1 := b]
    && a.window == b.window && a.poolKind == b.poolKind && a.poolName == b.poolName
    && a.Valid()
  }

  /** The address a call goes for when nothing is claimed: the wanted one if it is accepted, or the first free one. */
  function Choice(a: Allocator, ipv6: Ipv6Parser): Option<string>
    requires a.Valid()
  {
    if a.Wanted() == "" then
      match FirstFreeOf(a.window, {})
      case Found(address) => Some(address)
      case _ => None
    else if ValidateIPv4Address(a.Wanted(), ipv6) != None || !ContainsIPv4(a.window.network, a.Wanted(), ipv6) then None
    else Some(a.Wanted())
  }

  predicate Compete(c: Cluster, a: Allocator, b: Allocator)
    requires a.Valid() && b.Valid()
  {
    Choice(a, c.ipv6).Some? && Choice(a, c.ipv6) == Choice(b, c.ipv6)
  }

  // What two calls in different namespaces do that do not go for one address.

  /** A claim another call made does not change what a search finds. */
  lemma SearchIgnoresOther(w: PoolWindow, used: set<string>, other: string)
    requires w.Valid() && used <= {other} && FirstFreeOf(w, {}) != Found(other) && FirstFreeOf(w, used).Found?
    ensures FirstFreeOf(w, {}) == FirstFreeOf(w, used)
  {
    hide Render;
    LeastIgnoresOther(w, used, other, First(w), Last(w));
    if First(w) > 0 {
      LeastIgnoresOther(w, used, other, 0, First(w) - 1);
    }
  }

  lemma LeastIgnoresOther(w: PoolWindow, used: set<string>, other: string, n: nat, last: U32)
    requires used <= {other}
    ensures LeastFree(w, {}, n, last) == None ==> LeastFree(w, used, n, last) == None
    ensures LeastFree(w, {}, n, last).Some? && Render(LeastFree(w, {}, n, last).value) != other
            ==> LeastFree(w, used, n, last) == LeastFree(w, {}, n, last)
  {
    LeastFreeMeaning(w, {}, n, last);
    LeastFreeMeaning(w, used, n, last);
    var p, q := LeastFree(w, {}, n, last), LeastFree(w, used, n, last);
    hide Render, LeastFree;
    if q.Some? {
      assert !Taken(w, {}, q.value);
      assert p.Some? && p.value <= q.value;
    }
    if p.Some? && Render(p.value) != other {
      assert !Taken(w, used, p.value);
      assert q.Some? && q.value <= p.value;
    }
  }

  /** What a call under way is about. */
  predicate GoesFor(a: Allocator, pc: Pc, choice: Option<string>) {
    match pc
    case AskPreferred(_) => choice == Some(a.Wanted())
    case TakePreferred(_) => choice == Some(a.Wanted())
    case TryFree(_, free, _) => choice == Some(free)
    case Done(_) => true
    case _ => false
  }

  /** Until its call is done, a namespace holds no claim; afterwards at most the one address. */
  ghost predicate Apart(a: Allocator, pc: Option<Pc>, store: Store, choice: Option<string>) {
    && (pc.Some? ==> GoesFor(a, pc.value, choice))
    && (forall k :: k in store && k.namespace == a.owner.namespace ==>
          pc.Some? && pc.value.Done? && choice == Some(store[k].address))
  }

  function PcOf(s: State, id: nat): Option<Pc> {
    if id in s.calls then Some(s.calls[id]) else None
  }

  lemma StartGoesFor(a: Allocator, used: set<string>, ipv6: Ipv6Parser, other: Option<string>)
    requires a.Valid() && (if other.Some? then used <= {other.value} else used == {})
    requires Choice(a, ipv6).Some? ==> Choice(a, ipv6) != other
    ensures GoesFor(a, Start(a, used, ipv6), Choice(a, ipv6))
  {
    if a.Wanted() == "" {
      SearchGoesFor(a, used, ipv6, other);
    } else {
      WantedGoesFor(a, used, ipv6);
    }
    hide Start, Choice, GoesFor, TrimSpace;
  }

  lemma WantedGoesFor(a: Allocator, used: set<string>, ipv6: Ipv6Parser)
    requires a.Valid() && a.Wanted() != ""
    ensures GoesFor(a, Start(a, used, ipv6), Choice(a, ipv6))
  {
    hide FirstFreeOf, TrimSpace, ValidateIPv4Address, ContainsIPv4;
  }

  lemma SearchGoesFor(a: Allocator, used: set<string>, ipv6: Ipv6Parser, other: Option<string>)
    requires a.Valid() && (if other.Some? then used <= {other.value} else used == {}) && a.Wanted() == ""
    requires Choice(a, ipv6).Some? ==> Choice(a, ipv6) != other
    ensures GoesFor(a, Start(a, used, ipv6), Choice(a, ipv6))
  {
    hide FirstFreeOf, TrimSpace, ValidateIPv4Address, ContainsIPv4;
    if FirstFreeOf(a.window, used).Found? && other.Some? {
      SearchIgnoresOther(a.window, used, other.value);
    }
  }

  /** One request: with no claim in the namespace a create succeeds and ends the call. */
  lemma AdvanceGoesFor(a: Allocator, pc: Pc, store: Store, fault: Fault, choice: Option<string>)
    requires a.Valid() && !pc.Done? && GoesFor(a, pc, choice) && forall k :: k in store ==> k.namespace != a.owner.namespace
    ensures var (store', reply) := Serve(store, Call(a, pc), fault);
            var pc' := Next(a, pc, reply);
            && GoesFor(a, pc', choice)
            && (store' == store
                || (pc'.Done? && choice.Some? && store' == store[a.KeyOf(choice.value) := a.NewClaim(choice.value)]))
  {
    hide FirstFreeOf, TrimSpace, AddressObjectName, IsClaimedBy;
  }

  /** The list shows at most the other call's address. */
  lemma ListShowsOther(c: Cluster, s: State, a: Allocator, ns: string, other: Option<string>)
    requires forall k :: k in s.store ==> k.namespace == ns && other == Some(s.store[k].address)
    requires StoreInv(c, s.store)
    ensures var used := UsedByPool(s.store, a.poolKind, a.poolName);
            if other.Some? then used <= {other.value} else used == {}
  {
    hide Canonical, AddressObjectName;
    forall k | k in s.store ensures TrimSpace(s.store[k].address) == s.store[k].address {
      CanonicalIsTrimmedAlready(s.store[k].address);
    }
    hide TrimSpace;
  }

  lemma CanonicalIsTrimmedAlready(address: string)
    requires Canonical(address)
    ensures TrimSpace(address) == address
  {
    CanonicalIsRendered(address);
    var n: U32 :| address == Render(n);
    RenderShape(n);
    TrimOfTrimmed(address, GoSpace);
  }

  ghost predicate BothApart(c: Cluster, s: State, a: Allocator, b: Allocator)
    requires TwoCalls(c, a, b)
  {
    && Inv(c, s)
    && Apart(a, PcOf(s, 0), s.store, Choice(a, c.ipv6)) && Apart(b, PcOf(s, 1), s.store, Choice(b, c.ipv6))
    && forall k :: k in s.store ==> k.namespace == a.owner.namespace || k.namespace == b.owner.namespace
  }

  /** x begins while the store holds at most what y has claimed. */
  lemma BeginsApart(c: Cluster, s: State, x: Allocator, y: Allocator, pc: Option<Pc>)
    requires c.Valid() && x.Valid() && y.Valid() && StoreInv(c, s.store) && x.owner.namespace != y.owner.namespace && !Compete(c, x, y)
    requires Apart(x, None, s.store, Choice(x, c.ipv6)) && Apart(y, pc, s.store, Choice(y, c.ipv6))
    requires forall k :: k in s.store ==> k.namespace == x.owner.namespace || k.namespace == y.owner.namespace
    ensures Apart(x, Some(Start(x, UsedByPool(s.store, x.poolKind, x.poolName), c.ipv6)), s.store, Choice(x, c.ipv6))
  {
    hide UsedByPool, Choice, Start, GoesFor, StoreInv;
    ListShowsOther(c, s, x, y.owner.namespace, Choice(y, c.ipv6));
    StartGoesFor(x, UsedByPool(s.store, x.poolKind, x.poolName), c.ipv6, Choice(y, c.ipv6));
  }

  lemma ApartBegin(c: Cluster, s: State, a: Allocator, b: Allocator, id: nat)
    requires TwoCalls(c, a, b) && a.owner.namespace != b.owner.namespace && !Compete(c, a, b) && BothApart(c, s, a, b)
    requires id in c.allocators && id !in s.calls
    ensures BothApart(c, Exec(c, s, Begin(id, UsedByPool(s.store, a.poolKind, a.poolName))), a, b)
  {
    var used := UsedByPool(s.store, a.poolKind, a.poolName);
    ExecKeepsInv(c, s, Begin(id, used));
    InvStore(c, s);
    BeginIs(c, s, id, used);
    assert b.Valid();
    hide Inv, UsedByPool, Choice, Start, GoesFor, Exec, Apart;
    if id == 0 {
      BeginsApart(c, s, a, b, PcOf(s, 1));
    } else {
      BeginsApart(c, s, b, a, PcOf(s, 0));
    }
  }

  lemma BeginIs(c: Cluster, s: State, id: nat, used: set<string>)
    requires c.Valid() && id in c.allocators && id !in s.calls
    ensures Exec(c, s, Begin(id, used)) == s.(calls := s.calls[id := Start(c.allocators[id], used, c.ipv6)])
  {
  }

  lemma AdvanceIs(c: Cluster, s: State, id: nat, fault: Fault)
    requires c.Valid() && id in c.allocators && id in s.calls && !s.calls[id].Done?
    ensures var (store, reply) := Serve(s.store, Call(c.allocators[id], s.calls[id]), fault);
            Exec(c, s, Advance(id, fault)) == s.(store := store, calls := s.calls[id := Next(c.allocators[id], s.calls[id], reply)])
  {
    hide Serve, Call, Next;
  }

  /** x makes a request; y's namespace is not touched. */
  lemma MovesApart(x: Allocator, y: Allocator, pc: Pc, pcY: Option<Pc>, store: Store, fault: Fault, choice: Option<string>, choiceY: Option<string>)
    requires x.Valid() && !pc.Done? && x.owner.namespace != y.owner.namespace
    requires Apart(x, Some(pc), store, choice) && Apart(y, pcY, store, choiceY)
    ensures var (store', reply) := Serve(store, Call(x, pc), fault);
            && Apart(x, Some(Next(x, pc, reply)), store', choice) && Apart(y, pcY, store', choiceY)
            && forall k :: k in store' ==> k in store || k.namespace == x.owner.namespace
  {
    AdvanceGoesFor(x, pc, store, fault, choice);
    hide GoesFor, Serve, Call, Next, AddressObjectName;
  }

  lemma ApartAdvance(c: Cluster, s: State, a: Allocator, b: Allocator, id: nat, fault: Fault)
    requires TwoCalls(c, a, b) && a.owner.namespace != b.owner.namespace && BothApart(c, s, a, b)
    requires id in c.allocators && id in s.calls && !s.calls[id].Done?
    ensures BothApart(c, Exec(c, s, Advance(id, fault)), a, b)
  {
    ExecKeepsInv(c, s, Advance(id, fault));
    AdvanceIs(c, s, id, fault);
    assert b.Valid();
    hide Inv, Choice, GoesFor, Serve, Call, Next, Apart, Exec;
    if id == 0 {
      MovesApart(a, b, s.calls[0], PcOf(s, 1), s.store, fault, Choice(a, c.ipv6), Choice(b, c.ipv6));
    } else {
      MovesApart(b, a, s.calls[1], PcOf(s, 0), s.store, fault, Choice(b, c.ipv6), Choice(a, c.ipv6));
    }
  }

  lemma ApartRemove(c: Cluster, s: State, a: Allocator, b: Allocator, key: Key)
    requires TwoCalls(c, a, b) && BothApart(c, s, a, b)
    ensures BothApart(c, Exec(c, s, Remove(key)), a, b)
  {
    ExecKeepsInv(c, s, Remove(key));
    hide Inv, Choice, GoesFor, LeasesOn, Apart;
    FewerApart(a, PcOf(s, 0), s.store, key, Choice(a, c.ipv6));
    FewerApart(b, PcOf(s, 1), s.store, key, Choice(b, c.ipv6));
  }

  lemma FewerApart(a: Allocator, pc: Option<Pc>, store: Store, key: Key, choice: Option<string>)
    requires Apart(a, pc, store, choice)
    ensures Apart(a, pc, store - {key}, choice)
  {
    hide GoesFor;
  }

  lemma {:induction false} StayApart(c: Cluster, actions: seq<Action>, a: Allocator, b: Allocator)
    requires TwoCalls(c, a, b) && a.owner.namespace != b.owner.namespace && !Compete(c, a, b) && Honest(c, EMPTY, actions)
    ensures BothApart(c, Run(c, EMPTY, actions), a, b)
    decreases |actions|
  {
    if actions != [] {
      var front, last := actions[..|actions| - 1], actions[|actions| - 1];
      StayApart(c, front, a, b);
      hide BothApart, UsedByPool, Compete, Exec;
      ApartStep(c, Run(c, EMPTY, front), a, b, last);
    } else {
      EmptyApart(c, a, b);
      hide BothApart, Compete;
    }
  }

  lemma EmptyApart(c: Cluster, a: Allocator, b: Allocator)
    requires TwoCalls(c, a, b)
    ensures BothApart(c, EMPTY, a, b)
  {
    hide Choice, GoesFor;
  }

  lemma ApartStep(c: Cluster, s: State, a: Allocator, b: Allocator, action: Action)
    requires TwoCalls(c, a, b) && a.owner.namespace != b.owner.namespace && !Compete(c, a, b) && BothApart(c, s, a, b)
    requires !action.Foreign?
    requires action.Begin? && action.id in c.allocators ==> action.snapshot == UsedByPool(s.store, a.poolKind, a.poolName)
    ensures BothApart(c, Exec(c, s, action), a, b)
  {
    hide BothApart, UsedByPool, Compete, Start, Next, Serve, Call;
    match action
    case Begin(id, snapshot) =>
      if id in c.allocators && id !in s.calls {
        ApartBegin(c, s, a, b, id);
      }
    case Advance(id, fault) =>
      if id in c.allocators && id in s.calls && !s.calls[id].Done? {
        ApartAdvance(c, s, a, b, id, fault);
      }
    case Remove(key) => ApartRemove(c, s, a, b, key);
  }

  lemma ApartIsUnique(c: Cluster, s: State, a: Allocator, b: Allocator)
    requires TwoCalls(c, a, b) && a.owner.namespace != b.owner.namespace && !Compete(c, a, b) && BothApart(c, s, a, b)
    ensures PoolUnique(s.store)
  {
    InvStore(c, s);
    hide Inv, Choice, GoesFor, Canonical, AddressObjectName;
  }

  // What two calls do that go for one address.

  ghost function BothList(): seq<Action> {
    [Begin(0, {}), Begin(1, {}), Advance(0, NoFault), Advance(0, NoFault), Advance(1, NoFault), Advance(1, NoFault)]
  }

  lemma RunStep(c: Cluster, all: seq<Action>, n: nat)
    requires c.Valid() && n < |all|
    ensures Run(c, EMPTY, all[..n + 1]) == Exec(c, Run(c, EMPTY, all[..n]), all[n])
    ensures Honest(c, EMPTY, all[..n]) && all[n].Advance? ==> Honest(c, EMPTY, all[..n + 1])
    ensures Honest(c, EMPTY, all[..n]) && all[n].Begin? && Run(c, EMPTY, all[..n]).store == map[] && all[n].snapshot == {}
            ==> Honest(c, EMPTY, all[..n + 1])
  {
    assert all[..n + 1][..n] == all[..n];
    hide Exec;
  }

  ghost function BothStarted(c: Cluster, a: Allocator, b: Allocator): State
    requires a.Valid() && b.Valid()
  {
    State(map[], map[0 := Start(a, {}, c.ipv6), 1 := Start(b, {}, c.ipv6)], {})
  }

  lemma BothBegin(c: Cluster, a: Allocator, b: Allocator)
    requires TwoCalls(c, a, b)
    ensures Run(c, EMPTY, BothList()[..2]) == BothStarted(c, a, b)
    ensures Honest(c, EMPTY, BothList()[..2])
  {
    hide Start;
    var all := BothList();
    assert Run(c, EMPTY, all[..0]) == EMPTY && Honest(c, EMPTY, all[..0]);
    RunStep(c, all, 0);
    RunStep(c, all, 1);
    hide Run, Honest;
    var s2 := Run(c, EMPTY, all[..2]);
    assert s2.calls == BothStarted(c, a, b).calls;
  }

  /** Two answered requests are enough for a call that has just begun to claim its choice. */
  lemma TwoRequests(c: Cluster, s: State, id: nat, address: string)
    requires c.Valid() && id in c.allocators && id in s.calls && s.calls[id] == Start(c.allocators[id], {}, c.ipv6)
    requires Choice(c.allocators[id], c.ipv6) == Some(address) && c.allocators[id].KeyOf(address) !in s.store
    ensures var t := Exec(c, Exec(c, s, Advance(id, NoFault)), Advance(id, NoFault));
            && t.store == s.store[c.allocators[id].KeyOf(address) := c.allocators[id].NewClaim(address)]
            && forall j :: j != id && j in s.calls ==> j in t.calls && t.calls[j] == s.calls[j]
  {
    hide FirstFreeOf, TrimSpace, AddressObjectName, ValidateIPv4Address, ContainsIPv4, IsClaimedBy, LeasesOn;
    var a := c.allocators[id];
    var t1 := Exec(c, s, Advance(id, NoFault));
    if a.Wanted() == "" {
      assert s.calls[id] == TryFree(0, address, {});
      assert t1.calls[id] == Done(Leased(address, a.window.network.ones));
    } else {
      assert s.calls[id] == AskPreferred({});
      assert t1.store == s.store && t1.calls[id] == TakePreferred({});
    }
  }

  lemma CompetingCollide(c: Cluster, a: Allocator, b: Allocator)
    requires TwoCalls(c, a, b) && a.owner.namespace != b.owner.namespace && Compete(c, a, b)
    ensures Honest(c, EMPTY, BothList())
    ensures !PoolUnique(Run(c, EMPTY, BothList()).store)
  {
    hide Choice, Start, Exec, AddressObjectName, Run, Honest;
    var all, address, s := BothList(), Choice(a, c.ipv6).value, BothStarted(c, a, b);
    BothBegin(c, a, b);
    RunStep(c, all, 2);
    RunStep(c, all, 3);
    RunStep(c, all, 4);
    RunStep(c, all, 5);
    assert all[..6] == all;
    TwoRequests(c, s, 0, address);
    var t := Exec(c, Exec(c, s, Advance(0, NoFault)), Advance(0, NoFault));
    assert a.KeyOf(address) != b.KeyOf(address);
    TwoRequests(c, t, 1, address);
    BothClaimed(a, b, address);
  }

  lemma BothClaimed(a: Allocator, b: Allocator, address: string)
    requires a.owner.namespace != b.owner.namespace && a.poolKind == b.poolKind && a.poolName == b.poolName
    ensures !PoolUnique(map[][a.KeyOf(address) := a.NewClaim(address)][b.KeyOf(address) := b.NewClaim(address)])
  {
    hide AddressObjectName;
    var store := map[][a.KeyOf(address) := a.NewClaim(address)][b.KeyOf(address) := b.NewClaim(address)];
    assert SameAddress(store[a.KeyOf(address)], store[b.KeyOf(address)]);
  }

  /**
   * Two interleaved calls for one pool, wanting an address or not, keep its addresses
   * unique on every schedule exactly when they run in the same namespace or do not go
   * for one address.
   */
  lemma InterleavedUniqueExactly(c: Cluster, a: Allocator, b: Allocator)
    requires TwoCalls(c, a, b)
    ensures (forall actions :: Honest(c, EMPTY, actions) ==> PoolUnique(Run(c, EMPTY, actions).store))
       <==> a.owner.namespace == b.owner.namespace || Choice(a, c.ipv6) == None || Choice(a, c.ipv6) != Choice(b, c.ipv6)
  {
    hide Choice, PoolUnique, Honest, Run;
    if a.owner.namespace == b.owner.namespace {
      forall actions | Honest(c, EMPTY, actions) ensures PoolUnique(Run(c, EMPTY, actions).store) {
        SameNamespaceUnique(c, actions, a.owner.namespace);
      }
    } else if !Compete(c, a, b) {
      forall actions | Honest(c, EMPTY, actions) ensures PoolUnique(Run(c, EMPTY, actions).store) {
        StayApart(c, actions, a, b);
        ApartIsUnique(c, Run(c, EMPTY, actions), a, b);
      }
    } else {
      CompetingCollide(c, a, b);
    }
  }
}
