// The imperative allocation call, proved to follow the protocol automaton of
// `Claims`, and the progress its retry loop makes.
module ClaimAllocator {
  import opened MachineWords
  import opened Text
  import opened IPv4
  import opened PoolWindows
  import opened Claims

  /** A request with the reply it got. */
  datatype Exchange = Exchange(request: Request, reply: Reply)

  /** What the other clients have made of the store by the time a request arrives. */
  datatype Weather = Calm | Rewritten(store: Store) | Faulty(fault: Fault)

  /** The API server as one call sees it: anything may happen between its requests. */
  class ApiServer {
    var store: Store
    var weather: seq<Weather>
    ghost var log: seq<Exchange>

    method Do(request: Request) returns (reply: Reply)
      modifies this
      ensures log == old(log) + [Exchange(request, reply)]
    {
      var fault := NoFault;
      if weather != [] {
        match weather[0] {
          case Calm =>
          case Rewritten(others) => store := others;
          case Faulty(f) => fault := f;
        }
        weather := weather[1..];
      }
      var served := Serve(store, request, fault);
      store, reply := served.0, served.1;
      log := log + [Exchange(request, reply)];
    }
  }

  // ---------------------------------------------------------------- conversations

  function Replies(log: seq<Exchange>): (r: seq<Reply>)
    ensures |r| == |log| && forall i :: 0 <= i < |log| ==> r[i] == log[i].reply
  {
    seq(|log|, i requires 0 <= i < |log| => log[i].reply)
  }

  /** The automaton after a sequence of replies; it stays where it is once done. */
  function Follow(a: Allocator, start: Pc, replies: seq<Reply>): Pc
    requires a.Valid()
    decreases |replies|
  {
    if replies == [] then start
    else
      var pc := Follow(a, start, replies[..|replies| - 1]);
      if pc.Done? then pc else Next(a, pc, replies[|replies| - 1])
  }

  /** Every request of the log is the one the automaton would make there. */
  ghost predicate Asks(a: Allocator, start: Pc, log: seq<Exchange>)
    requires a.Valid()
    decreases |log|
  {
    log != [] ==>
      var front := log[..|log| - 1];
      var pc := Follow(a, start, Replies(front));
      Asks(a, start, front) && !pc.Done? && log[|log| - 1].request == Call(a, pc)
  }

  lemma Said(a: Allocator, start: Pc, log: seq<Exchange>, request: Request, reply: Reply)
    requires a.Valid() && Asks(a, start, log)
    requires !Follow(a, start, Replies(log)).Done?
    requires request == Call(a, Follow(a, start, Replies(log)))
    ensures var longer := log + [Exchange(request, reply)];
            && Asks(a, start, longer)
            && Follow(a, start, Replies(longer)) == Next(a, Follow(a, start, Replies(log)), reply)
  {
    hide Next, Call;
    var longer := log + [Exchange(request, reply)];
    assert longer[..|longer| - 1] == log;
    assert Replies(longer)[..|longer| - 1] == Replies(log);
  }

  // ---------------------------------------------------------------- listing

  /** Addresses of the claims that reference the pool, from a list of all claims. */
  method ListUsedAddressesByPool(items: seq<Claim>, poolKind: string, poolName: string, ghost store: Store)
    returns (used: set<string>)
    requires forall claim :: claim in items <==> claim in store.Values
    ensures used == UsedByPool(store, poolKind, poolName)
    ensures forall u :: u in used <==>
              u != ""
              && exists claim :: claim in items && claim.poolKind == poolKind && claim.poolName == poolName && TrimSpace(claim.address) == u
  {
    used := {};
    for i := 0 to |items|
      invariant forall u :: u in used <==> exists j :: 0 <= j < i && Counts(items[j], poolKind, poolName, u)
    {
      var ip := items[i];
      var addr := TrimSpace(ip.address);
      if ip.poolKind == poolKind && ip.poolName == poolName && addr != "" {
        used := used + {addr};
        assert Counts(items[i], poolKind, poolName, addr);
      }
    }
    forall u ensures u in used <==> u in UsedByPool(store, poolKind, poolName) {
      if u in used {
        var j :| 0 <= j < |items| && Counts(items[j], poolKind, poolName, u);
        assert items[j] in store.Values;
        var k :| k in store && store[k] == items[j];
        assert u in UsedByPool(store, poolKind, poolName);
      }
      if u in UsedByPool(store, poolKind, poolName) {
        var k :| k in store && Counts(store[k], poolKind, poolName, u);
        assert store[k] in store.Values;
        var j :| 0 <= j < |items| && items[j] == store[k];
        assert Counts(items[j], poolKind, poolName, u);
      }
    }
  }

  predicate Counts(claim: Claim, poolKind: string, poolName: string, u: string) {
    claim.poolKind == poolKind && claim.poolName == poolName && u != "" && TrimSpace(claim.address) == u
  }

  predicate SamePool(claim: Claim, a: Allocator) {
    claim.poolKind == a.poolKind && claim.poolName == a.poolName
  }

  /**
   * Claims of other pools change nothing: when two stores hold the same claims of a
   * call's pool, the call takes the same addresses for used and starts alike.
   */
  lemma OtherPoolsIgnored(a: Allocator, store: Store, other: Store, ipv6: Ipv6Parser)
    requires a.Valid()
    requires forall k :: k in store && SamePool(store[k], a) ==> k in other && other[k] == store[k]
    requires forall k :: k in other && SamePool(other[k], a) ==> k in store && store[k] == other[k]
    ensures UsedByPool(other, a.poolKind, a.poolName) == UsedByPool(store, a.poolKind, a.poolName)
    ensures Start(a, UsedByPool(other, a.poolKind, a.poolName), ipv6) == Start(a, UsedByPool(store, a.poolKind, a.poolName), ipv6)
  {
    hide Start, TrimSpace;
  }

  // ---------------------------------------------------------------- the call

  /**
   * One allocation. Whatever the other clients do in between, its requests and its
   * outcome are the automaton's, so everything proved of `Next` holds of it.
   */
  method AllocateIPAddressFromWindow(api: ApiServer, a: Allocator, snapshot: set<string>, ipv6: Ipv6Parser)
    returns (outcome: Outcome, ghost said: seq<Exchange>)
    requires a.Valid()
    modifies api
    ensures api.log == old(api.log) + said
    ensures Asks(a, Start(a, snapshot, ipv6), said)
    ensures Follow(a, Start(a, snapshot, ipv6), Replies(said)) == Done(outcome)
  {
    hide TrimSpace, ValidateIPv4Address, ContainsIPv4, FirstFreeOf, AddressObjectName, Asks, IsClaimedBy;
    ghost var start := Start(a, snapshot, ipv6);
    said := [];
    ghost var before := api.log;
    AsksNothing(a, start);
    assert api.log == before + said;
    var used := snapshot;
    var preferred := TrimSpace(a.preferred);
    if preferred != "" {
      if ValidateIPv4Address(preferred, ipv6) != None {
        return InvalidAddress, said;
      }
      if !ContainsIPv4(a.window.network, preferred, ipv6) {
        return OutsidePool, said;
      }
      outcome, said := TakePreferredAddress(api, a, preferred, used, start);
      return;
    }
    for i := 0 to MAX_ATTEMPTS
      invariant api.log == before + said
      invariant Asks(a, start, said)
      invariant Follow(a, start, Replies(said)) == NextAttempt(a, i, used)
    {
      var pick := FirstFree(a.window, used);
      if pick.Loops? {
        return NeverReturns, said;
      }
      if pick.Exhausted? {
        return PoolExhausted, said;
      }
      var free := pick.address;
      ghost var was := said;
      var created := api.Do(Create(a.KeyOf(free), a.NewClaim(free)));
      said := was + [Exchange(Create(a.KeyOf(free), a.NewClaim(free)), created)];
      Said(a, start, was, Create(a.KeyOf(free), a.NewClaim(free)), created);
      if created.AlreadyExists? {
        used := used + {free};
        was := said;
        var existing := api.Do(Get(a.KeyOf(free)));
        said := was + [Exchange(Get(a.KeyOf(free)), existing)];
        Said(a, start, was, Get(a.KeyOf(free)), existing);
        if existing.Hit? && IsClaimedBy(existing.claim, a.owner) {
          return Leased(free, existing.claim.prefixLength), said;
        }
      } else if created.Created? {
        return Leased(free, a.window.network.ones), said;
      } else {
        return ApiError, said;
      }
    }
    return TooManyConflicts, said;
  }

  lemma AsksNothing(a: Allocator, start: Pc)
    requires a.Valid()
    ensures Asks(a, start, []) && Follow(a, start, Replies([])) == start
  {
  }

  /** The branch for an explicitly wanted address. It checks the CIDR, not the exclusions. */
  method TakePreferredAddress(api: ApiServer, a: Allocator, preferred: string, used: set<string>, ghost start: Pc)
    returns (outcome: Outcome, ghost said: seq<Exchange>)
    requires a.Valid() && preferred == a.Wanted() && start == AskPreferred(used)
    modifies api
    ensures api.log == old(api.log) + said
    ensures Asks(a, start, said) && Follow(a, start, Replies(said)) == Done(outcome)
  {
    hide TrimSpace, FirstFreeOf, AddressObjectName, Asks, IsClaimedBy;
    AsksNothing(a, start);
    var key := a.KeyOf(preferred);
    var existing := api.Do(Get(key));
    said := [Exchange(Get(key), existing)];
    assert [] + said == said;
    Said(a, start, [], Get(key), existing);
    if existing.Hit? {
      if IsClaimedBy(existing.claim, a.owner) {
        return Leased(preferred, existing.claim.prefixLength), said;
      }
      return AlreadyClaimed, said;
    } else if !existing.NotFound? {
      return ApiError, said;
    }
    if preferred in used {
      return AlreadyClaimed, said;
    }
    ghost var was := said;
    var created := api.Do(Create(key, a.NewClaim(preferred)));
    said := was + [Exchange(Create(key, a.NewClaim(preferred)), created)];
    Said(a, start, was, Create(key, a.NewClaim(preferred)), created);
    if created.AlreadyExists? {
      was := said;
      existing := api.Do(Get(key));
      said := was + [Exchange(Get(key), existing)];
      Said(a, start, was, Get(key), existing);
      if existing.Hit? && IsClaimedBy(existing.claim, a.owner) {
        return Leased(preferred, existing.claim.prefixLength), said;
      }
      return AlreadyClaimed, said;
    } else if !created.Created? {
      return ApiError, said;
    }
    return Leased(preferred, a.window.network.ones), said;
  }

  // ---------------------------------------------------------------- progress

  /** Addresses lost to a 409 so far, in the order they were tried. */
  function Lost(a: Allocator, start: Pc, replies: seq<Reply>): seq<string>
    requires a.Valid()
    decreases |replies|
  {
    if replies == [] then []
    else
      var front := replies[..|replies| - 1];
      var pc := Follow(a, start, front);
      Lost(a, start, front)
      + (if pc.TryFree? && replies[|replies| - 1].AlreadyExists? then [pc.free] else [])
  }

  function Number(address: string): U32 {
    match ParseDottedQuad(address) case Some(n) => n case None => 0
  }

  function Elements(s: seq<string>): set<string> {
    set x | x in s
  }

  ghost predicate Ascending(lost: seq<string>) {
    && (forall i :: 0 <= i < |lost| ==> Canonical(lost[i]))
    && (forall i, j :: 0 <= i < j < |lost| ==> Number(lost[i]) < Number(lost[j]))
  }

  /** Where the retry loop stands after losing `lost`. */
  ghost predicate LoopState(a: Allocator, snapshot: set<string>, pc: Pc, lost: seq<string>, steps: nat)
    requires a.Valid()
  {
    && Ascending(lost)
    && |lost| <= 64
    && match pc
       case TryFree(attempt, free, used) =>
         && attempt == |lost| < 64 && steps == 2 * attempt
         && used == snapshot + Elements(lost)
         && FirstFreeOf(a.window, used) == Found(free)
         && Canonical(free) && (forall i :: 0 <= i < |lost| ==> Number(lost[i]) < Number(free))
       case RecheckFree(attempt, free, used) =>
         && attempt + 1 == |lost| && steps == 2 * attempt + 1
         && lost[attempt] == free
         && FirstFreeOf(a.window, snapshot + Elements(lost[..attempt])) == Found(free)
         && used == snapshot + Elements(lost)
       case Done(outcome) =>
         && (outcome == PoolExhausted ==> forall n: U32 :: !Free(a.window, snapshot + Elements(lost), n))
         && (outcome == TooManyConflicts ==> |lost| == 64)
         && outcome != NeverReturns
       case _ => false
  }

  lemma FoundNumber(w: PoolWindow, used: set<string>)
    requires w.Valid() && FirstFreeOf(w, used).Found?
    ensures Canonical(FirstFreeOf(w, used).address)
    ensures FirstFreeOf(w, used) == Found(Render(Number(FirstFreeOf(w, used).address)))
  {
    FoundIsCanonical(w, used);
    hide FirstFreeOf;
    var address := FirstFreeOf(w, used).address;
    ParseExactlyRendered(address, Number(address));
  }

  /** The next attempt either tries a higher address, or reports why there is none. */
  lemma AttemptState(a: Allocator, snapshot: set<string>, lost: seq<string>, steps: nat)
    requires a.Valid() && Sound(a.window) && Ascending(lost) && |lost| <= 64
    requires steps == 2 * |lost|
    requires lost != [] ==>
               FirstFreeOf(a.window, snapshot + Elements(lost[..|lost| - 1])) == Found(lost[|lost| - 1])
    ensures LoopState(a, snapshot, NextAttempt(a, |lost|, snapshot + Elements(lost)), lost, steps)
  {
    hide FirstFreeOf, Free, Sound, Canonical, Number, Render, Elements;
    var used := snapshot + Elements(lost);
    NothingFree(a.window, used);
    if FirstFreeOf(a.window, used).Found? {
      var free := FirstFreeOf(a.window, used).address;
      FoundNumber(a.window, used);
      if lost != [] {
        HigherThanLast(a, snapshot, lost, free);
        AscendingBelow(lost, free);
      }
    }
  }

  lemma NothingFree(w: PoolWindow, used: set<string>)
    requires w.Valid() && Sound(w)
    ensures !FirstFreeOf(w, used).Found? ==> FirstFreeOf(w, used) == Exhausted
    ensures FirstFreeOf(w, used).Exhausted? ==> forall n: U32 :: !Free(w, used, n)
  {
    FirstFreeKeepsPromise(w, used);
  }

  lemma AscendingBelow(lost: seq<string>, free: string)
    requires Ascending(lost) && lost != [] && Number(lost[|lost| - 1]) < Number(free)
    ensures forall i :: 0 <= i < |lost| ==> Number(lost[i]) < Number(free)
  {
    hide Number, Canonical;
  }

  lemma HigherThanLast(a: Allocator, snapshot: set<string>, lost: seq<string>, free: string)
    requires a.Valid() && Sound(a.window) && lost != []
    requires FirstFreeOf(a.window, snapshot + Elements(lost)) == Found(free)
    requires FirstFreeOf(a.window, snapshot + Elements(lost[..|lost| - 1])) == Found(lost[|lost| - 1])
    ensures Number(lost[|lost| - 1]) < Number(free)
  {
    var front, last := lost[..|lost| - 1], lost[|lost| - 1];
    var before := snapshot + Elements(front);
    assert lost == front + [last];
    assert snapshot + Elements(lost) == before + {last};
    FoundNumber(a.window, before);
    FoundNumber(a.window, before + {last});
    hide FirstFreeOf, Free, Sound, Canonical, Number, Render, Elements;
    NextFreeIsHigher(a.window, before, Number(last));
  }

  /**
   * Progress of the retry loop under every sequence of replies: the addresses
   * lost to 409 ascend strictly; the used set is the snapshot plus exactly those;
   * "exhausted" means every free address of the window was in the snapshot or lost;
   * the conflict error comes after 64 distinct losses; and 128 replies suffice.
   */
  lemma {:induction false} RetryProgress(a: Allocator, snapshot: set<string>, replies: seq<Reply>)
    requires a.Valid() && Sound(a.window)
    ensures var start := NextAttempt(a, 0, snapshot);
            var pc := Follow(a, start, replies);
            && LoopState(a, snapshot, pc, Lost(a, start, replies), |replies|)
            && (|replies| >= 128 ==> pc.Done?)
    decreases |replies|
  {
    hide NextAttempt, Next;
    var start := NextAttempt(a, 0, snapshot);
    if replies == [] {
      assert snapshot + Elements([]) == snapshot;
      AttemptState(a, snapshot, [], 0);
    } else {
      var front, reply := replies[..|replies| - 1], replies[|replies| - 1];
      RetryProgress(a, snapshot, front);
      var pc, lost := Follow(a, start, front), Lost(a, start, front);
      if pc.Done? {
        assert Lost(a, start, replies) == lost;
      } else {
        StepState(a, snapshot, pc, lost, |front|, reply);
      }
    }
  }

  lemma StepState(a: Allocator, snapshot: set<string>, pc: Pc, lost: seq<string>, steps: nat, reply: Reply)
    requires a.Valid() && Sound(a.window) && !pc.Done?
    requires LoopState(a, snapshot, pc, lost, steps)
    ensures var lost' := lost + (if pc.TryFree? && reply.AlreadyExists? then [pc.free] else []);
            LoopState(a, snapshot, Next(a, pc, reply), lost', steps + 1)
  {
    hide FirstFreeOf, Free, Sound, Canonical, Number, Render, IsClaimedBy;
    if pc.TryFree? {
      assert (lost + [pc.free])[..|lost|] == lost;
      assert Elements(lost + [pc.free]) == Elements(lost) + {pc.free};
    } else {
      assert lost + [] == lost;
      hide NextAttempt;
      AttemptState(a, snapshot, lost, steps + 1);
    }
  }
}
