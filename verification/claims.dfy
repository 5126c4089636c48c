// The address claim protocol: snapshot the used addresses, pick one, create a claim
// under a name derived from the address, retry on HTTP 409.
//
// `Next` is the protocol of one call as an automaton over API replies. The module
// runs any number of such calls against one store, interleaved with deletions,
// foreign claims and lost replies. `ClaimAllocator` proves the imperative code
// follows the same automaton.
module Claims {
  import opened Text
  import opened IPv4
  import opened PoolWindows

  const MAX_ATTEMPTS: nat := 64

  // ---------------------------------------------------------------- claims and owners

  /** The parent object of a claim. */
  datatype Owner = Owner(kind: string, namespace: string, name: string, uid: string)

  datatype Reference = Reference(kind: string, namespace: string, name: string)

  datatype Claim = Claim(
    address: string,
    prefixLength: nat,
    poolKind: string,
    poolName: string,
    ownerUids: set<string>,
    claimRef: Option<Reference>)

  datatype Key = Key(namespace: string, name: string)

  /** The API server: IPAddress objects by namespace and name. */
  type Store = map<Key, Claim>

  /** `isClaimedByFloatingIP`, `isClaimedByRouter`: an owner reference, or a matching claimRef. */
  predicate IsClaimedBy(claim: Claim, owner: Owner) {
    || owner.uid in claim.ownerUids
    || (match claim.claimRef
        case None => false
        case Some(ref) =>
          ref.kind == owner.kind && ref.name == owner.name
          && (ref.namespace == "" || ref.namespace == owner.namespace))
  }

  /** One allocation call: who asks, for which pool, with which preference. */
  datatype Allocator = Allocator(
    owner: Owner,
    window: PoolWindow,
    poolKind: string,
    poolName: string,
    preferred: string)
  {
    predicate Valid() {
      window.Valid()
    }

    function Wanted(): string {
      TrimSpace(preferred)
    }

    function KeyOf(address: string): Key {
      Key(owner.namespace, AddressObjectName(address))
    }

    function NewClaim(address: string): Claim {
      Claim(address, window.network.ones, poolKind, poolName, {owner.uid},
            Some(Reference(owner.kind, owner.namespace, owner.name)))
    }
  }

  // ---------------------------------------------------------------- one call

  datatype Outcome =
    | Leased(address: string, prefixLength: nat)
    | InvalidAddress | OutsidePool | AlreadyClaimed
    | PoolExhausted | TooManyConflicts | ApiError
    | NeverReturns

  datatype Pc =
    | AskPreferred(used: set<string>)
    | TakePreferred(used: set<string>)
    | RecheckPreferred
    | TryFree(attempt: nat, free: string, used: set<string>)
    | RecheckFree(attempt: nat, free: string, used: set<string>)
    | Done(outcome: Outcome)

  datatype Request = Get(key: Key) | Create(key: Key, claim: Claim)

  datatype Reply = Hit(claim: Claim) | NotFound | Created | AlreadyExists | Failed

  function NextAttempt(a: Allocator, attempt: nat, used: set<string>): Pc
    requires a.Valid()
  {
    if attempt >= MAX_ATTEMPTS then Done(TooManyConflicts)
    else
      match FirstFreeOf(a.window, used)
      case Found(free) => TryFree(attempt, free, used)
      case Exhausted => Done(PoolExhausted)
      case Loops => Done(NeverReturns)
  }

  function Start(a: Allocator, used: set<string>, ipv6: Ipv6Parser): Pc
    requires a.Valid()
  {
    if a.Wanted() == "" then NextAttempt(a, 0, used)
    else if ValidateIPv4Address(a.Wanted(), ipv6) != None then Done(InvalidAddress)
    else if !ContainsIPv4(a.window.network, a.Wanted(), ipv6) then Done(OutsidePool)
    else AskPreferred(used)
  }

  /** The API request a call is about to make. */
  function Call(a: Allocator, pc: Pc): Request
    requires !pc.Done?
  {
    match pc
    case AskPreferred(_) => Get(a.KeyOf(a.Wanted()))
    case TakePreferred(_) => Create(a.KeyOf(a.Wanted()), a.NewClaim(a.Wanted()))
    case RecheckPreferred => Get(a.KeyOf(a.Wanted()))
    case TryFree(_, free, _) => Create(a.KeyOf(free), a.NewClaim(free))
    case RecheckFree(_, free, _) => Get(a.KeyOf(free))
  }

  function Next(a: Allocator, pc: Pc, reply: Reply): Pc
    requires a.Valid() && !pc.Done?
  {
    match pc
    case AskPreferred(used) =>
      (match reply
       case Hit(claim) =>
         if IsClaimedBy(claim, a.owner) then Done(Leased(a.Wanted(), claim.prefixLength))
         else Done(AlreadyClaimed)
       case NotFound =>
         if a.Wanted() in used then Done(AlreadyClaimed) else TakePreferred(used)
       case _ => Done(ApiError))
    case TakePreferred(_) =>
      (match reply
       case Created => Done(Leased(a.Wanted(), a.window.network.ones))
       case AlreadyExists => RecheckPreferred
       case _ => Done(ApiError))
    case RecheckPreferred =>
      if reply.Hit? && IsClaimedBy(reply.claim, a.owner)
      then Done(Leased(a.Wanted(), reply.claim.prefixLength))
      else Done(AlreadyClaimed)
    case TryFree(attempt, free, used) =>
      (match reply
       case Created => Done(Leased(free, a.window.network.ones))
       case AlreadyExists => RecheckFree(attempt, free, used + {free})
       case _ => Done(ApiError))
    case RecheckFree(attempt, free, used) =>
      if reply.Hit? && IsClaimedBy(reply.claim, a.owner)
      then Done(Leased(free, reply.claim.prefixLength))
      else NextAttempt(a, attempt + 1, used)
  }

  // ---------------------------------------------------------------- the API server

  /** A request may be lost on the way in, or its reply on the way out. */
  datatype Fault = NoFault | RequestLost | ReplyLost

  function Served(store: Store, request: Request): (Store, Reply) {
    match request
    case Get(key) => (store, if key in store then Hit(store[key]) else NotFound)
    case Create(key, claim) =>
      if key in store then (store, AlreadyExists) else (store[key := claim], Created)
  }

  function Serve(store: Store, request: Request, fault: Fault): (Store, Reply) {
    match fault
    case NoFault => Served(store, request)
    case RequestLost => (store, Failed)
    case ReplyLost => (Served(store, request).0, Failed)
  }

  /** Addresses already claimed from a pool, over all namespaces. */
  function UsedByPool(store: Store, poolKind: string, poolName: string): set<string> {
    set k | k in store && store[k].poolKind == poolKind && store[k].poolName == poolName
            && TrimSpace(store[k].address) != "" :: TrimSpace(store[k].address)
  }

  // ---------------------------------------------------------------- many calls

  /** Different parents: nothing they are recognised by coincides. */
  predicate Distinct(o: Owner, p: Owner) {
    o.uid != p.uid && !(o.kind == p.kind && o.namespace == p.namespace && o.name == p.name)
  }

  /** `owners` are the live parent objects; each call is made for one of them. */
  datatype Cluster = Cluster(owners: set<Owner>, allocators: map<nat, Allocator>, ipv6: Ipv6Parser)
  {
    ghost predicate Valid() {
      && (forall id :: id in allocators ==> allocators[id].Valid() && allocators[id].owner in owners)
      && (forall o, p :: o in owners && p in owners && o != p ==> Distinct(o, p))
    }
  }

  /** `revoked`: the calls whose lease was standing when its claim was deleted. */
  datatype State = State(store: Store, calls: map<nat, Pc>, revoked: set<nat>)

  /** The calls that hold a lease on a claim name. */
  function LeasesOn(c: Cluster, s: State, key: Key): set<nat> {
    set id | id in s.calls && id in c.allocators && LeaseOn(c.allocators[id], s.calls[id], key)
  }

  predicate LeaseOn(a: Allocator, pc: Pc, key: Key) {
    pc.Done? && pc.outcome.Leased? && a.KeyOf(pc.outcome.address) == key
  }

  /** One atomic step of somebody. A snapshot may be arbitrarily stale. */
  datatype Action =
    | Begin(id: nat, snapshot: set<string>)
    | Advance(id: nat, fault: Fault)
    | Remove(key: Key)
    | Foreign(client: Allocator, address: string)

  ghost function Exec(c: Cluster, s: State, action: Action): State
    requires c.Valid()
  {
    match action
    case Begin(id, snapshot) =>
      if id in c.allocators && id !in s.calls
      then s.(calls := s.calls[id := Start(c.allocators[id], snapshot, c.ipv6)])
      else s
    case Advance(id, fault) =>
      if id in c.allocators && id in s.calls && !s.calls[id].Done? then
        var (store, reply) := Serve(s.store, Call(c.allocators[id], s.calls[id]), fault);
        s.(store := store, calls := s.calls[id := Next(c.allocators[id], s.calls[id], reply)])
      else s
    case Remove(key) =>
      s.(store := s.store - {key}, revoked := s.revoked + LeasesOn(c, s, key))
    case Foreign(client, address) =>
      if client.owner in c.owners && Canonical(address) && client.KeyOf(address) !in s.store
      then s.(store := s.store[client.KeyOf(address) := client.NewClaim(address)])
      else s
  }

  ghost function Run(c: Cluster, s: State, actions: seq<Action>): State
    requires c.Valid()
    decreases |actions|
  {
    if actions == [] then s
    else Exec(c, Run(c, s, actions[..|actions| - 1]), actions[|actions| - 1])
  }

  // ---------------------------------------------------------------- safety

  /** A claim as some call creates it, under the name of its address. */
  ghost predicate WellNamed(c: Cluster, key: Key, claim: Claim) {
    && Canonical(claim.address)
    && exists o: Owner :: o in c.owners
         && key == Key(o.namespace, AddressObjectName(claim.address))
         && claim.ownerUids == {o.uid}
         && claim.claimRef == Some(Reference(o.kind, o.namespace, o.name))
  }

  ghost predicate StoreInv(c: Cluster, store: Store) {
    forall k :: k in store ==> WellNamed(c, k, store[k])
  }

  /** What the address a call is working on looks like. */
  ghost predicate PcInv(a: Allocator, pc: Pc) {
    match pc
    case AskPreferred(_) => Canonical(a.Wanted())
    case TakePreferred(used) => Canonical(a.Wanted()) && a.Wanted() !in used
    case RecheckPreferred => Canonical(a.Wanted())
    case TryFree(_, free, used) => Canonical(free) && free !in used
    case RecheckFree(_, free, _) => Canonical(free)
    case Done(_) => true
  }

  /** A lease is backed by a live claim of its own, unless that claim was deleted under it. */
  ghost predicate LeaseInv(a: Allocator, id: nat, pc: Pc, s: State) {
    pc.Done? && pc.outcome.Leased? ==>
      var key := a.KeyOf(pc.outcome.address);
      && Canonical(pc.outcome.address)
      && (id in s.revoked
          || (key in s.store && IsClaimedBy(s.store[key], a.owner)
              && AddressObjectName(s.store[key].address) == key.name))
  }

  ghost predicate Inv(c: Cluster, s: State) {
    && StoreInv(c, s.store)
    && (forall id :: id in s.calls ==> id in c.allocators)
    && (forall id :: id in s.calls ==>
          PcInv(c.allocators[id], s.calls[id]) && LeaseInv(c.allocators[id], id, s.calls[id], s))
  }

  lemma FoundIsCanonical(w: PoolWindow, used: set<string>)
    requires w.Valid()
    ensures match FirstFreeOf(w, used)
            case Found(address) => Canonical(address) && address !in used && address !in w.exclude
            case _ => true
  {
    hide Render, First, Last, Canonical;
    LeastFreeMeaning(w, used, First(w), Last(w));
    if First(w) > 0 {
      LeastFreeMeaning(w, used, 0, First(w) - 1);
    }
    if FirstFreeOf(w, used).Found? {
      CanonicalIsRendered(FirstFreeOf(w, used).address);
    }
  }

  lemma StartInv(a: Allocator, used: set<string>, ipv6: Ipv6Parser)
    requires a.Valid()
    ensures PcInv(a, Start(a, used, ipv6))
    ensures !(Start(a, used, ipv6).Done? && Start(a, used, ipv6).outcome.Leased?)
  {
    FoundIsCanonical(a.window, used);
    if a.Wanted() != "" && ValidateIPv4Address(a.Wanted(), ipv6) == None {
      TrimShape(a.preferred, GoSpace);
      TrimOfTrimmed(a.Wanted(), GoSpace);
      ValidatedAddress(a.preferred, ipv6);
    }
  }

  lemma NextInv(a: Allocator, pc: Pc, reply: Reply)
    requires a.Valid() && !pc.Done? && PcInv(a, pc)
    ensures PcInv(a, Next(a, pc, reply))
  {
    hide FirstFreeOf, Canonical, TrimSpace;
    if pc.RecheckFree? {
      FoundIsCanonical(a.window, pc.used);
    }
  }

  lemma CreatedIsWellNamed(c: Cluster, a: Allocator, address: string)
    requires Canonical(address) && a.owner in c.owners
    ensures WellNamed(c, a.KeyOf(address), a.NewClaim(address))
    ensures IsClaimedBy(a.NewClaim(address), a.owner)
  {
  }

  /** What one step of a call does to the store, and why a lease it reports is real. */
  lemma AdvanceEffect(c: Cluster, a: Allocator, pc: Pc, store: Store, fault: Fault)
    requires a.Valid() && a.owner in c.owners && !pc.Done? && PcInv(a, pc) && StoreInv(c, store)
    ensures var (store', reply) := Serve(store, Call(a, pc), fault);
            && StoreInv(c, store')
            && (forall k :: k in store ==> k in store' && store'[k] == store[k])
            && (Next(a, pc, reply).Done? && Next(a, pc, reply).outcome.Leased? ==>
                  var address := Next(a, pc, reply).outcome.address;
                  && Canonical(address)
                  && a.KeyOf(address) in store' && IsClaimedBy(store'[a.KeyOf(address)], a.owner))
  {
    hide FirstFreeOf, Canonical, TrimSpace, AddressObjectName;
    if pc.TakePreferred? {
      CreatedIsWellNamed(c, a, a.Wanted());
    } else if pc.TryFree? {
      CreatedIsWellNamed(c, a, pc.free);
    }
  }

  /** A claim stays where it is, so a lease it backs stays backed. */
  lemma LeaseInvGrows(a: Allocator, id: nat, pc: Pc, s: State, t: State)
    requires LeaseInv(a, id, pc, s) && t.revoked == s.revoked
    requires forall k :: k in s.store ==> k in t.store && t.store[k] == s.store[k]
    ensures LeaseInv(a, id, pc, t)
  {
    hide Canonical, IsClaimedBy, AddressObjectName;
  }

  /** A new lease, found or created under the name of its address. */
  lemma LeaseInvNew(c: Cluster, a: Allocator, id: nat, pc: Pc, s: State)
    requires StoreInv(c, s.store)
    requires pc.Done? && pc.outcome.Leased? ==>
               var key := a.KeyOf(pc.outcome.address);
               Canonical(pc.outcome.address) && key in s.store && IsClaimedBy(s.store[key], a.owner)
    ensures LeaseInv(a, id, pc, s)
  {
    hide Canonical, IsClaimedBy, AddressObjectName;
  }

  /** One call moves on over a store that only grows. */
  lemma CallKeepsInv(c: Cluster, s: State, id: nat, pc: Pc, store: Store)
    requires Inv(c, s) && id in c.allocators && StoreInv(c, store) && PcInv(c.allocators[id], pc)
    requires forall k :: k in s.store ==> k in store && store[k] == s.store[k]
    requires pc.Done? && pc.outcome.Leased? ==>
               var key := c.allocators[id].KeyOf(pc.outcome.address);
               Canonical(pc.outcome.address) && key in store && IsClaimedBy(store[key], c.allocators[id].owner)
    ensures Inv(c, s.(store := store, calls := s.calls[id := pc]))
  {
    hide Canonical, IsClaimedBy, AddressObjectName, PcInv, LeaseInv, StoreInv;
    var t := s.(store := store, calls := s.calls[id := pc]);
    LeaseInvNew(c, c.allocators[id], id, pc, t);
    forall i | i in t.calls ensures i in c.allocators && PcInv(c.allocators[i], t.calls[i]) && LeaseInv(c.allocators[i], i, t.calls[i], t) {
      if i != id {
        LeaseInvGrows(c.allocators[i], i, s.calls[i], s, t);
      }
    }
  }

  lemma BeginKeepsInv(c: Cluster, s: State, id: nat, snapshot: set<string>)
    requires c.Valid() && Inv(c, s)
    ensures Inv(c, Exec(c, s, Begin(id, snapshot)))
  {
    if id in c.allocators && id !in s.calls {
      StartInv(c.allocators[id], snapshot, c.ipv6);
      hide Start, PcInv, LeaseInv, StoreInv;
      CallKeepsInv(c, s, id, Start(c.allocators[id], snapshot, c.ipv6), s.store);
    }
  }

  lemma AdvanceKeepsInv(c: Cluster, s: State, id: nat, fault: Fault)
    requires c.Valid() && Inv(c, s)
    ensures Inv(c, Exec(c, s, Advance(id, fault)))
  {
    if id in c.allocators && id in s.calls && !s.calls[id].Done? {
      var (store, reply) := Serve(s.store, Call(c.allocators[id], s.calls[id]), fault);
      AdvanceEffect(c, c.allocators[id], s.calls[id], s.store, fault);
      NextInv(c.allocators[id], s.calls[id], reply);
      hide Canonical, AddressObjectName, Next, Serve, Call, IsClaimedBy, StoreInv, PcInv, LeaseInv;
      CallKeepsInv(c, s, id, Next(c.allocators[id], s.calls[id], reply), store);
    }
  }

  lemma RemoveKeepsInv(c: Cluster, s: State, key: Key)
    requires c.Valid() && Inv(c, s)
    ensures Inv(c, Exec(c, s, Remove(key)))
  {
    hide Canonical, TrimSpace, AddressObjectName, IsClaimedBy, PcInv, WellNamed;
  }

  lemma ForeignKeepsInv(c: Cluster, s: State, client: Allocator, address: string)
    requires c.Valid() && Inv(c, s)
    ensures Inv(c, Exec(c, s, Foreign(client, address)))
  {
    hide Canonical, TrimSpace, AddressObjectName, IsClaimedBy, PcInv, WellNamed;
    if client.owner in c.owners && Canonical(address) {
      CreatedIsWellNamed(c, client, address);
    }
  }

  lemma ExecKeepsInv(c: Cluster, s: State, action: Action)
    requires c.Valid() && Inv(c, s)
    ensures Inv(c, Exec(c, s, action))
  {
    hide Inv, Exec;
    match action
    case Begin(id, snapshot) => BeginKeepsInv(c, s, id, snapshot);
    case Advance(id, fault) => AdvanceKeepsInv(c, s, id, fault);
    case Remove(key) => RemoveKeepsInv(c, s, key);
    case Foreign(client, address) => ForeignKeepsInv(c, s, client, address);
  }

  /** Safety over every interleaving, of any length, from any well-formed start. */
  lemma {:induction false} EveryRunIsSafe(c: Cluster, s: State, actions: seq<Action>)
    requires c.Valid() && Inv(c, s)
    ensures Inv(c, Run(c, s, actions))
    decreases |actions|
  {
    if actions != [] {
      var front := actions[..|actions| - 1];
      EveryRunIsSafe(c, s, front);
      ExecKeepsInv(c, Run(c, s, front), actions[|actions| - 1]);
    }
  }

  /** In one namespace an address has at most one live claim: HTTP 409 arbitrates. */
  lemma OneClaimPerAddress(c: Cluster, s: State, actions: seq<Action>, k1: Key, k2: Key)
    requires c.Valid() && Inv(c, s)
    requires k1 in Run(c, s, actions).store && k2 in Run(c, s, actions).store
    requires k1.namespace == k2.namespace
    ensures k1 == k2 <==> Run(c, s, actions).store[k1].address == Run(c, s, actions).store[k2].address
  {
    EveryRunIsSafe(c, s, actions);
  }

  /**
   * Two parents in one namespace never both hold a standing lease of one address,
   * whatever the interleaving and however often the address was released before:
   * the claim of one of the two was deleted while it held its lease.
   */
  lemma NoDoubleLease(c: Cluster, s: State, actions: seq<Action>, i: nat, j: nat)
    requires c.Valid() && Inv(c, s)
    requires var t := Run(c, s, actions);
             && i in t.calls && j in t.calls
             && t.calls[i].Done? && t.calls[i].outcome.Leased?
             && t.calls[j].Done? && t.calls[j].outcome.Leased?
             && t.calls[i].outcome.address == t.calls[j].outcome.address
             && i in c.allocators && j in c.allocators
             && c.allocators[i].owner.namespace == c.allocators[j].owner.namespace
             && Distinct(c.allocators[i].owner, c.allocators[j].owner)
    ensures i in Run(c, s, actions).revoked || j in Run(c, s, actions).revoked
  {
    EveryRunIsSafe(c, s, actions);
    var t := Run(c, s, actions);
    var a, b := c.allocators[i], c.allocators[j];
    var address := t.calls[i].outcome.address;
    hide Canonical, AddressObjectName, Run;
    assert LeaseInv(a, i, t.calls[i], t) && LeaseInv(b, j, t.calls[j], t);
    var key := a.KeyOf(address);
    assert key == b.KeyOf(address);
    if i !in t.revoked && j !in t.revoked {
      SoleOwner(c, key, t.store[key], a.owner, b.owner);
    }
  }

  lemma SoleOwner(c: Cluster, key: Key, claim: Claim, o: Owner, p: Owner)
    requires c.Valid() && o in c.owners && p in c.owners
    requires WellNamed(c, key, claim)
    requires IsClaimedBy(claim, o) && IsClaimedBy(claim, p)
    requires key.namespace == o.namespace == p.namespace
    ensures !Distinct(o, p)
  {
    // A claim has one owner reference and one claimRef, both of its creator q.
    hide Canonical, AddressObjectName;
    var q: Owner :| q in c.owners
      && key == Key(q.namespace, AddressObjectName(claim.address))
      && claim.ownerUids == {q.uid}
      && claim.claimRef == Some(Reference(q.kind, q.namespace, q.name));
  }
}
