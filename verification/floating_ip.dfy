// Floating IPs: how a reconcile keeps, finds or allocates the public address, and how
// deletion releases it.
//
// `EnsureNext` is one `ensureIPAddressClaim` as an automaton over API replies; the
// imperative code is proved to follow it. `FloatingIPRuns` interleaves the reconciles
// of any number of floating IPs with each other and with everybody else.
module FloatingIPs {
  import opened Text
  import opened IPv4
  import opened PoolWindows
  import opened Claims
  import opened ClaimAllocator

  datatype FipSpec = FipSpec(poolKind: string, poolName: string, vpc: string, address: string, privateAddress: string)

  datatype Status = Status(address: string, prefixLength: nat)

  /** The object as a reconcile read it. */
  datatype View = View(spec: FipSpec, status: Status)
  {
    function Recorded(): string {
      TrimSpace(status.address)
    }
  }

  /** The pool object and the list of used addresses, as a reconcile reads them. */
  datatype Env = Env(pool: Option<PoolWindow>, used: set<string>, ipv6: Ipv6Parser)
  {
    predicate Valid() {
      pool.Some? ==> pool.value.Valid()
    }
  }

  function KeyOf(o: Owner, address: string): Key {
    Key(o.namespace, AddressObjectName(address))
  }

  predicate ValidSpec(spec: FipSpec, ipv6: Ipv6Parser) {
    && TrimSpace(spec.poolKind) != "" && TrimSpace(spec.poolName) != "" && TrimSpace(spec.vpc) != ""
    && (TrimSpace(spec.address) != "" ==> ValidateIPv4Address(TrimSpace(spec.address), ipv6) == None)
    && (TrimSpace(spec.privateAddress) != "" ==> ValidateIPv4Address(TrimSpace(spec.privateAddress), ipv6) == None)
  }

  // ---------------------------------------------------------------- one call

  datatype Ensure =
    | AskRecorded
    | AskOwned(used: set<string>)
    | Allocating(pc: Pc)
    | NoPool
    | Settled(outcome: Outcome)

  function AllocatorOf(o: Owner, view: View, window: PoolWindow): Allocator {
    Allocator(o, window, TrimSpace(view.spec.poolKind), TrimSpace(view.spec.poolName), TrimSpace(view.spec.address))
  }

  function Settle(pc: Pc): Ensure {
    if pc.Done? then Settled(pc.outcome) else Allocating(pc)
  }

  /** What follows when the recorded address gave no answer. */
  function Choose(o: Owner, view: View, env: Env): Ensure
    requires env.Valid()
  {
    if TrimSpace(view.spec.poolKind) != "IPPool" || env.pool == None then NoPool
    else if TrimSpace(view.spec.address) == "" && view.Recorded() != "" then AskOwned(env.used)
    else Settle(Start(AllocatorOf(o, view, env.pool.value), env.used, env.ipv6))
  }

  function EnsureStart(o: Owner, view: View, env: Env): Ensure
    requires env.Valid()
  {
    if view.Recorded() != "" then AskRecorded else Choose(o, view, env)
  }

  predicate Waiting(e: Ensure) {
    e.AskRecorded? || e.AskOwned? || (e.Allocating? && !e.pc.Done?)
  }

  function EnsureCall(o: Owner, view: View, env: Env, e: Ensure): Request
    requires Waiting(e) && (e.Allocating? ==> env.pool.Some?)
  {
    match e
    case Allocating(pc) => Call(AllocatorOf(o, view, env.pool.value), pc)
    case _ => Get(KeyOf(o, view.Recorded()))
  }

  /** The recorded address is kept when its claim exists; whose claim it is is not asked. */
  function EnsureNext(o: Owner, view: View, env: Env, e: Ensure, reply: Reply): Ensure
    requires env.Valid() && Waiting(e) && (e.Allocating? || e.AskOwned? ==> env.pool.Some?)
  {
    match e
    case AskRecorded =>
      if reply.Hit?
      then Settled(Leased(view.Recorded(),
                          if view.status.prefixLength != 0 then view.status.prefixLength else reply.claim.prefixLength))
      else Choose(o, view, env)
    case AskOwned(used) =>
      if reply.Hit? && IsClaimedBy(reply.claim, o) then Settled(Leased(view.Recorded(), reply.claim.prefixLength))
      else Settle(Start(AllocatorOf(o, view, env.pool.value), used, env.ipv6))
    case Allocating(pc) => Settle(Next(AllocatorOf(o, view, env.pool.value), pc, reply))
  }

  // ---------------------------------------------------------------- the code

  /** The automaton after a conversation, None when some request was not the one it makes. */
  function Talk(o: Owner, view: View, env: Env, said: seq<Exchange>): Option<Ensure>
    requires env.Valid()
    decreases |said|
  {
    if said == [] then Some(EnsureStart(o, view, env))
    else
      var before, last := Talk(o, view, env, said[..|said| - 1]), said[|said| - 1];
      if before == None || !Waiting(before.value) then None
      else if before.value.AskRecorded? || env.pool.Some? then
        if last.request == EnsureCall(o, view, env, before.value) then Some(EnsureNext(o, view, env, before.value, last.reply)) else None
      else None
  }

  lemma TalkMore(o: Owner, view: View, env: Env, said: seq<Exchange>, last: Exchange)
    requires env.Valid() && Talk(o, view, env, said).Some?
    ensures var e := Talk(o, view, env, said).value;
            Waiting(e) && (e.AskRecorded? || env.pool.Some?) && last.request == EnsureCall(o, view, env, e)
            ==> Talk(o, view, env, said + [last]) == Some(EnsureNext(o, view, env, e, last.reply))
  {
    hide EnsureNext, EnsureStart, EnsureCall;
    assert (said + [last])[..|said|] == said;
  }

  /** In the allocation phase the automaton is that of the allocation call. */
  lemma AllocatingIsClaims(o: Owner, view: View, env: Env, pc: Pc, reply: Reply)
    requires env.Valid() && env.pool.Some? && !pc.Done?
    ensures var a := AllocatorOf(o, view, env.pool.value);
            && Waiting(Settle(pc)) && Settle(pc).Allocating?
            && EnsureCall(o, view, env, Settle(pc)) == Call(a, pc)
            && EnsureNext(o, view, env, Settle(pc), reply) == Settle(Next(a, pc, reply))
  {
  }

  lemma FrontAndLast<T>(said: seq<T>, tail: seq<T>)
    requires tail != []
    ensures var front, last := tail[..|tail| - 1], tail[|tail| - 1];
            tail == front + [last] && said + tail == said + front + [last]
  {
    hide *;
  }

  lemma TalkStep(o: Owner, view: View, env: Env, said: seq<Exchange>, pc: Pc, last: Exchange)
    requires env.Valid() && env.pool.Some? && !pc.Done?
    requires Talk(o, view, env, said) == Some(Settle(pc))
    requires last.request == Call(AllocatorOf(o, view, env.pool.value), pc)
    ensures Talk(o, view, env, said + [last]) == Some(Settle(Next(AllocatorOf(o, view, env.pool.value), pc, last.reply)))
  {
    AllocatingIsClaims(o, view, env, pc, last.reply);
    TalkMore(o, view, env, said, last);
    hide *;
  }

  /** The last exchange of an allocation, as the allocation call makes it. */
  lemma LastAsked(a: Allocator, start: Pc, front: seq<Exchange>, last: Exchange)
    requires a.Valid() && Asks(a, start, front + [last])
    ensures var pc := Follow(a, start, Replies(front));
            && Asks(a, start, front) && !pc.Done? && last.request == Call(a, pc)
            && Follow(a, start, Replies(front + [last])) == Next(a, pc, last.reply)
  {
    hide Next, Call;
    assert (front + [last])[..|front|] == front;
    assert Replies(front + [last])[..|front|] == Replies(front);
  }

  /** A conversation of the allocation call continues the talk. */
  lemma {:induction false} TalkAllocates(o: Owner, view: View, env: Env, said: seq<Exchange>, start: Pc, tail: seq<Exchange>)
    requires env.Valid() && env.pool.Some?
    requires Talk(o, view, env, said) == Some(Settle(start))
    requires Asks(AllocatorOf(o, view, env.pool.value), start, tail)
    ensures Talk(o, view, env, said + tail) == Some(Settle(Follow(AllocatorOf(o, view, env.pool.value), start, Replies(tail))))
    decreases |tail|
  {
    var a := AllocatorOf(o, view, env.pool.value);
    if tail == [] {
      assert said + tail == said;
      assert Replies(tail) == [];
    } else {
      assert a.Valid();
      var front, last := tail[..|tail| - 1], tail[|tail| - 1];
      FrontAndLast(said, tail);
      LastAsked(a, start, front, last);
      hide *;
      TalkAllocates(o, view, env, said, start, front);
      TalkStep(o, view, env, said + front, Follow(a, start, Replies(front)), last);
    }
  }

  /** One request, with the conversation so far kept beside the log. */
  method Ask(api: ApiServer, request: Request, ghost before: seq<Exchange>, ghost said: seq<Exchange>)
    returns (reply: Reply, ghost more: seq<Exchange>)
    requires api.log == before + said
    modifies api
    ensures more == said + [Exchange(request, reply)] && api.log == before + more
  {
    reply := api.Do(request);
    more := said + [Exchange(request, reply)];
  }

  lemma Appended<T>(a: seq<T>, b: seq<T>, c: seq<T>)
    ensures a + b + c == a + (b + c)
  {
    hide *;
  }

  /** The part of the call that looks for an address in the pool. */
  method ChooseAddress(api: ApiServer, o: Owner, view: View, env: Env, ghost before: seq<Exchange>, ghost soFar: seq<Exchange>)
    returns (result: Ensure, ghost said: seq<Exchange>)
    requires env.Valid() && api.log == before + soFar && Talk(o, view, env, soFar) == Some(Choose(o, view, env))
    modifies api
    ensures api.log == before + said
    ensures result.NoPool? || result.Settled?
    ensures Talk(o, view, env, said) == Some(result)
  {
    hide TrimSpace, Start, FirstFreeOf, AddressObjectName, IsClaimedBy, Asks, Follow, Talk;
    said := soFar;
    if TrimSpace(view.spec.poolKind) != "IPPool" || env.pool == None {
      return NoPool, said;
    }
    var a := AllocatorOf(o, view, env.pool.value);
    var preferred := TrimSpace(view.spec.address);
    if preferred == "" && view.Recorded() != "" {
      var key := KeyOf(o, view.Recorded());
      var existing;
      existing, said := Ask(api, Get(key), before, said);
      TalkMore(o, view, env, soFar, Exchange(Get(key), existing));
      if existing.Hit? && IsClaimedBy(existing.claim, o) {
        return Settled(Leased(view.Recorded(), existing.claim.prefixLength)), said;
      }
    }
    var outcome, tail := AllocateIPAddressFromWindow(api, a, env.used, env.ipv6);
    TalkAllocates(o, view, env, said, Start(a, env.used, env.ipv6), tail);
    Appended(before, said, tail);
    return Settled(outcome), said + tail;
  }

  /**
   * Whatever the other clients do in between, the requests and the result of one call
   * are the automaton's.
   */
  method EnsureIPAddressClaim(api: ApiServer, o: Owner, view: View, env: Env) returns (result: Ensure, ghost said: seq<Exchange>)
    requires env.Valid()
    modifies api
    ensures api.log == old(api.log) + said
    ensures result.NoPool? || result.Settled?
    ensures Talk(o, view, env, said) == Some(result)
  {
    ghost var before := api.log;
    said := [];
    assert Talk(o, view, env, []) == Some(EnsureStart(o, view, env));
    assert before + said == before;
    hide TrimSpace, AddressObjectName, Choose, Talk;
    var statusAddr := view.Recorded();
    if statusAddr != "" {
      var key := KeyOf(o, statusAddr);
      var existing;
      existing, said := Ask(api, Get(key), before, said);
      TalkMore(o, view, env, [], Exchange(Get(key), existing));
      if existing.Hit? {
        var prefix := existing.claim.prefixLength;
        if view.status.prefixLength != 0 {
          prefix := view.status.prefixLength;
        }
        return Settled(Leased(statusAddr, prefix)), said;
      }
    }
    result, said := ChooseAddress(api, o, view, env, before, said);
  }
}
