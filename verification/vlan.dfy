// VLAN allocation for VPCs and the pool inventory.
module Vlan {
  import opened Text

  datatype VlanPool = VlanPool(name: string, start: int, end: int, exclude: seq<int>)
  {
    /** `validateVLANPoolSpec`: an 802.1Q range with excludes inside it; object names have no blanks. */
    predicate Valid() {
      && TrimSpace(name) == name
      && 1 <= start <= end <= 4094 && forall i :: 0 <= i < |exclude| ==> start <= exclude[i] <= end
    }

    function Excluded(): set<int> {
      set i | 0 <= i < |exclude| :: exclude[i]
    }

    function Range(): set<int> {
      Between(start, end)
    }
  }

  function Between(start: int, end: int): (r: set<int>)
    ensures forall v :: v in r <==> start <= v <= end
    decreases end - start
  {
    if start > end then {} else {start} + Between(start + 1, end)
  }

  datatype VpcKey = VpcKey(namespace: string, name: string)

  /** `pool` is the reference as written; vlan is zero until one is assigned. */
  datatype Vpc = Vpc(key: VpcKey, pool: string, vlan: int)

  // ---------------------------------------------------------------- allocation

  /** The lowest number of the range that is not used. */
  function LowestFree(start: int, end: int, used: set<int>): (r: Option<int>)
    decreases end - start
  {
    if start > end then None else if start in used then LowestFree(start + 1, end, used) else Some(start)
  }

  method FirstFreeVlan(start: int, end: int, used: set<int>) returns (r: Option<int>)
    ensures r == LowestFree(start, end, used)
  {
    var v := start;
    while v <= end
      invariant LowestFree(start, end, used) == LowestFree(v, end, used)
      decreases end - v
    {
      if v !in used {
        return Some(v);
      }
      v := v + 1;
    }
    return None;
  }

  lemma {:induction false} LowestFreeMeaning(start: int, end: int, used: set<int>)
    ensures match LowestFree(start, end, used)
            case Some(v) => start <= v <= end && v !in used && forall k :: start <= k < v ==> k in used
            case None => forall k :: start <= k <= end ==> k in used
    decreases end - start
  {
    if start <= end && start in used {
      LowestFreeMeaning(start + 1, end, used);
    }
  }

  /** VLANs the pool's VPCs hold, one VPC left aside. */
  function Held(vpcs: seq<Vpc>, pool: string, except: Option<VpcKey>): set<int> {
    set i | 0 <= i < |vpcs| && Some(vpcs[i].key) != except && vpcs[i].pool == pool && vpcs[i].vlan != 0 :: vpcs[i].vlan
  }

  function AllocationFor(pool: VlanPool, vpcs: seq<Vpc>, key: VpcKey): Option<int> {
    LowestFree(pool.start, pool.end, pool.Excluded() + Held(vpcs, pool.name, Some(key)))
  }

  /** `allocateVLAN`: over the excludes and the listed VPCs of the pool. */
  method AllocateVlan(pool: VlanPool, vpcs: seq<Vpc>, key: VpcKey) returns (r: Option<int>)
    ensures r == AllocationFor(pool, vpcs, key)
  {
    var used: set<int> := {};
    for i := 0 to |pool.exclude|
      invariant used == set j | 0 <= j < i :: pool.exclude[j]
    {
      used := used + {pool.exclude[i]};
    }
    for i := 0 to |vpcs|
      invariant used == pool.Excluded() + Held(vpcs[..i], pool.name, Some(key))
    {
      var v := vpcs[i];
      HeldStep(vpcs, i, pool.name, Some(key));
      if v.key == key || v.pool != pool.name {
        continue;
      }
      if v.vlan != 0 {
        used := used + {v.vlan};
      }
    }
    assert vpcs[..|vpcs|] == vpcs;
    r := FirstFreeVlan(pool.start, pool.end, used);
  }

  lemma HeldStep(vpcs: seq<Vpc>, i: nat, pool: string, except: Option<VpcKey>)
    requires i < |vpcs|
    ensures Held(vpcs[..i + 1], pool, except)
         == Held(vpcs[..i], pool, except)
            + (if Some(vpcs[i].key) != except && vpcs[i].pool == pool && vpcs[i].vlan != 0 then {vpcs[i].vlan} else {})
  {
    var a, b := Held(vpcs[..i + 1], pool, except), Held(vpcs[..i], pool, except);
    assert vpcs[..i + 1][i] == vpcs[i];
    assert forall j :: 0 <= j < i ==> vpcs[..i + 1][j] == vpcs[..i][j];
    forall x | x in b ensures x in a {
      var j :| 0 <= j < i && Some(vpcs[..i][j].key) != except && vpcs[..i][j].pool == pool
               && vpcs[..i][j].vlan != 0 && vpcs[..i][j].vlan == x;
      assert vpcs[..i + 1][j].vlan == x;
    }
  }

  // ---------------------------------------------------------------- inventory

  /** How many VPCs of the pool hold a VLAN. */
  function AllocatedCount(vpcs: seq<Vpc>, pool: string): nat {
    if vpcs == [] then 0
    else
      var last := vpcs[|vpcs| - 1];
      AllocatedCount(vpcs[..|vpcs| - 1], pool) + (if last.pool == pool && last.vlan != 0 then 1 else 0)
  }

  function FreeVlans(pool: VlanPool, vpcs: seq<Vpc>): set<int> {
    pool.Range() - pool.Excluded() - Held(vpcs, pool.name, None)
  }

  method Inventory(pool: VlanPool, vpcs: seq<Vpc>) returns (claimed: nat, available: nat)
    ensures claimed == AllocatedCount(vpcs, pool.name)
    ensures available == |FreeVlans(pool, vpcs)|
  {
    var used: set<int> := {};
    for i := 0 to |pool.exclude|
      invariant used == set j | 0 <= j < i :: pool.exclude[j]
    {
      used := used + {pool.exclude[i]};
    }
    claimed := 0;
    for i := 0 to |vpcs|
      invariant used == pool.Excluded() + Held(vpcs[..i], pool.name, None)
      invariant claimed == AllocatedCount(vpcs[..i], pool.name)
    {
      HeldStep(vpcs, i, pool.name, None);
      assert vpcs[..i + 1][..i] == vpcs[..i];
      if vpcs[i].pool != pool.name || vpcs[i].vlan == 0 {
        continue;
      }
      used := used + {vpcs[i].vlan};
      claimed := claimed + 1;
    }
    assert vpcs[..|vpcs|] == vpcs;
    available := CountFree(pool.start, pool.end, used);
    assert Between(pool.start, pool.end) - used == FreeVlans(pool, vpcs);
  }

  function FreeFrom(v: int, end: int, used: set<int>): nat
    decreases end - v
  {
    if v > end then 0 else (if v in used then 0 else 1) + FreeFrom(v + 1, end, used)
  }

  lemma {:induction false} FreeFromSize(v: int, end: int, used: set<int>)
    ensures FreeFrom(v, end, used) == |Between(v, end) - used|
    decreases end - v
  {
    if v <= end {
      FreeFromSize(v + 1, end, used);
      var rest := Between(v + 1, end) - used;
      assert v !in rest;
      if v in used {
        assert Between(v, end) - used == rest;
      } else {
        assert Between(v, end) - used == {v} + rest;
      }
      hide Between;
    }
  }

  method CountFree(start: int, end: int, used: set<int>) returns (free: nat)
    ensures free == |Between(start, end) - used|
  {
    free := 0;
    var v := start;
    while v <= end
      invariant free + FreeFrom(v, end, used) == FreeFrom(start, end, used)
      decreases end - v
    {
      if v !in used {
        free := free + 1;
      }
      v := v + 1;
    }
    FreeFromSize(start, end, used);
  }

  // ---------------------------------------------------------------- conservation

  /** The pool a VPC is served from is looked up by the trimmed reference. */
  predicate ServedBy(v: Vpc, pool: VlanPool) {
    TrimSpace(v.pool) == pool.name
  }

  /** The VPCs served from a pool hold distinct VLANs, inside the range and outside the excludes. */
  ghost predicate Sound(pool: VlanPool, vpcs: seq<Vpc>) {
    && (forall i, j :: 0 <= i < j < |vpcs| ==> vpcs[i].key != vpcs[j].key)
    && (forall i :: 0 <= i < |vpcs| && ServedBy(vpcs[i], pool) && vpcs[i].vlan != 0 ==>
          vpcs[i].vlan in pool.Range() && vpcs[i].vlan !in pool.Excluded())
    && (forall i, j :: 0 <= i < j < |vpcs| && ServedBy(vpcs[i], pool) && ServedBy(vpcs[j], pool) && vpcs[i].vlan != 0
          ==> vpcs[i].vlan != vpcs[j].vlan)
  }

  lemma {:induction false} CountIsHeld(pool: VlanPool, vpcs: seq<Vpc>)
    requires Sound(pool, vpcs) && TrimSpace(pool.name) == pool.name
    ensures AllocatedCount(vpcs, pool.name) == |Held(vpcs, pool.name, None)|
  {
    if vpcs == [] {
      assert Held(vpcs, pool.name, None) == {};
    } else {
      var k := |vpcs| - 1;
      assert vpcs[..k + 1] == vpcs;
      SoundFront(pool, vpcs);
      CountIsHeld(pool, vpcs[..k]);
      HeldStep(vpcs, k, pool.name, None);
      NotHeldBefore(pool, vpcs);
      hide Sound, Held, TrimSpace;
    }
  }

  lemma SoundFront(pool: VlanPool, vpcs: seq<Vpc>)
    requires Sound(pool, vpcs) && vpcs != []
    ensures Sound(pool, vpcs[..|vpcs| - 1])
  {
    hide TrimSpace, VlanPool.Range, VlanPool.Excluded;
    var front := vpcs[..|vpcs| - 1];
    assert forall i :: 0 <= i < |front| ==> front[i] == vpcs[i];
  }

  lemma NotHeldBefore(pool: VlanPool, vpcs: seq<Vpc>)
    requires Sound(pool, vpcs) && vpcs != [] && TrimSpace(pool.name) == pool.name
    ensures var k := |vpcs| - 1;
            vpcs[k].pool == pool.name && vpcs[k].vlan != 0 ==> vpcs[k].vlan !in Held(vpcs[..k], pool.name, None)
  {
    var k := |vpcs| - 1;
    assert forall i :: 0 <= i < k ==> vpcs[..k][i] == vpcs[i];
    assert forall i :: 0 <= i <= k && vpcs[i].pool == pool.name ==> ServedBy(vpcs[i], pool);
    hide TrimSpace, VlanPool.Range, VlanPool.Excluded, ServedBy;
  }

  lemma {:induction false} RangeSize(start: int, end: int)
    requires start <= end + 1
    ensures |Between(start, end)| == end - start + 1
    decreases end - start
  {
    if start <= end {
      RangeSize(start + 1, end);
    }
  }

  lemma SplitSize(all: set<int>, a: set<int>, b: set<int>)
    requires a <= all && b <= all && a * b == {}
    ensures |a| + |b| + |all - a - b| == |all|
  {
    assert all == a + b + (all - a - b);
    assert |a + b| == |a| + |b|;
    assert (a + b) * (all - a - b) == {};
  }

  /** Every number of the range is allocated, available or excluded, exactly once. */
  lemma Conservation(pool: VlanPool, vpcs: seq<Vpc>)
    requires pool.Valid() && Sound(pool, vpcs)
    ensures AllocatedCount(vpcs, pool.name) + |FreeVlans(pool, vpcs)| + |pool.Excluded()| == pool.end - pool.start + 1
  {
    CountIsHeld(pool, vpcs);
    RangeSize(pool.start, pool.end);
    SplitSize(pool.Range(), pool.Excluded(), Held(vpcs, pool.name, None));
  }

  /** A VPC without a VLAN is refused exactly when the inventory shows nothing available. */
  lemma RefusedExactlyWhenNoneAvailable(pool: VlanPool, vpcs: seq<Vpc>, i: nat)
    requires pool.Valid() && Sound(pool, vpcs) && i < |vpcs| && vpcs[i].vlan == 0
    ensures AllocationFor(pool, vpcs, vpcs[i].key) == None <==> |FreeVlans(pool, vpcs)| == 0
  {
    HeldWithout(vpcs, pool.name, i);
    var used := pool.Excluded() + Held(vpcs, pool.name, Some(vpcs[i].key));
    LowestFreeMeaning(pool.start, pool.end, used);
    var free := FreeVlans(pool, vpcs);
    if AllocationFor(pool, vpcs, vpcs[i].key) == None {
      assert free == {};
    } else {
      assert LowestFree(pool.start, pool.end, used).value in free;
    }
  }

  lemma HeldWithout(vpcs: seq<Vpc>, pool: string, i: nat)
    requires i < |vpcs| && vpcs[i].vlan == 0
    requires forall k, j :: 0 <= k < j < |vpcs| ==> vpcs[k].key != vpcs[j].key
    ensures Held(vpcs, pool, Some(vpcs[i].key)) == Held(vpcs, pool, None)
  {
    forall x | x in Held(vpcs, pool, None) ensures x in Held(vpcs, pool, Some(vpcs[i].key)) {
      var j :| 0 <= j < |vpcs| && vpcs[j].pool == pool && vpcs[j].vlan != 0 && vpcs[j].vlan == x;
      assert vpcs[j].key != vpcs[i].key;
    }
  }

  // ---------------------------------------------------------------- runs

  /** All states of the VPCs so far, the last one current. */
  type History = h: seq<seq<Vpc>> | h != [] witness [[]]

  function Now(h: History): seq<Vpc> {
    h[|h| - 1]
  }

  /** A reconcile reads its VPC in one state and lists the VPCs in another, each possibly old. */
  datatype Event =
    | CreateVpc(key: VpcKey, pool: string)
    | Reconcile(key: VpcKey, read: nat, listed: nat)
    | DeleteVpc(key: VpcKey)

  function IndexOf(vpcs: seq<Vpc>, key: VpcKey): (r: nat)
    ensures r <= |vpcs|
    ensures r < |vpcs| ==> vpcs[r].key == key
    ensures forall j :: 0 <= j < r ==> vpcs[j].key != key
  {
    if vpcs == [] || vpcs[0].key == key then 0 else 1 + IndexOf(vpcs[1..], key)
  }

  /** The number a reconcile decides on, if it gets that far: the VPC as read has none. */
  function Decision(pools: map<string, VlanPool>, read: seq<Vpc>, listed: seq<Vpc>, key: VpcKey): Option<int> {
    var i := IndexOf(read, key);
    if i == |read| || read[i].vlan != 0 || TrimSpace(read[i].pool) !in pools then None
    else AllocationFor(pools[TrimSpace(read[i].pool)], listed, key)
  }

  /** The status patch goes to the VPC as it is now. */
  function Patched(vpcs: seq<Vpc>, key: VpcKey, vlan: Option<int>): seq<Vpc> {
    var i := IndexOf(vpcs, key);
    if i == |vpcs| || vlan == None then vpcs else vpcs[i := vpcs[i].(vlan := vlan.value)]
  }

  function Step(pools: map<string, VlanPool>, h: History, event: Event): seq<Vpc> {
    var vpcs := Now(h);
    match event
    case CreateVpc(key, pool) => if IndexOf(vpcs, key) < |vpcs| then vpcs else vpcs + [Vpc(key, pool, 0)]
    case DeleteVpc(key) =>
      var i := IndexOf(vpcs, key);
      if i == |vpcs| then vpcs else vpcs[..i] + vpcs[i + 1..]
    case Reconcile(key, read, listed) =>
      if read >= |h| || listed >= |h| then vpcs
      else Patched(vpcs, key, Decision(pools, h[read], h[listed], key))
  }

  function Run(pools: map<string, VlanPool>, h: History, events: seq<Event>): (r: History)
    ensures |r| == |h| + |events|
    decreases |events|
  {
    if events == [] then h
    else
      var before := Run(pools, h, events[..|events| - 1]);
      before + [Step(pools, before, events[|events| - 1])]
  }

  predicate PoolsValid(pools: map<string, VlanPool>) {
    forall p :: p in pools ==> pools[p].Valid() && pools[p].name == p
  }

  /**
   * As far as a pool is concerned, nothing came between list and patch: the VPC is
   * served from the same pool as when it was read, and every number now held by
   * another VPC served from the pool was in the list.
   */
  predicate Undisturbed(pools: map<string, VlanPool>, h: History, event: Event, p: string)
    requires p in pools
  {
    event.Reconcile? && event.read < |h| && event.listed < |h| ==>
      var i, j := IndexOf(h[event.read], event.key), IndexOf(Now(h), event.key);
      i < |h[event.read]| && j < |Now(h)| && TrimSpace(h[event.read][i].pool) in pools ==>
        && (ServedBy(Now(h)[j], pools[p]) <==> ServedBy(h[event.read][i], pools[p]))
        && (ServedBy(Now(h)[j], pools[p]) ==>
              HeldServed(Now(h), pools[p], event.key) <= Held(h[event.listed], pools[p].name, Some(event.key)))
  }

  /** The numbers the other VPCs served from a pool hold. */
  function HeldServed(vpcs: seq<Vpc>, pool: VlanPool, except: VpcKey): set<int> {
    set i | 0 <= i < |vpcs| && vpcs[i].key != except && ServedBy(vpcs[i], pool) && vpcs[i].vlan != 0 :: vpcs[i].vlan
  }

  ghost predicate AllUndisturbed(pools: map<string, VlanPool>, h: History, events: seq<Event>, p: string)
    requires p in pools
    decreases |events|
  {
    events == []
    || (AllUndisturbed(pools, h, events[..|events| - 1], p)
        && Undisturbed(pools, Run(pools, h, events[..|events| - 1]), events[|events| - 1], p))
  }

  lemma PatchKeepsSound(pool: VlanPool, vpcs: seq<Vpc>, i: nat, listed: seq<Vpc>, vlan: int)
    requires pool.Valid() && Sound(pool, vpcs) && i < |vpcs| && ServedBy(vpcs[i], pool)
    requires HeldServed(vpcs, pool, vpcs[i].key) <= Held(listed, pool.name, Some(vpcs[i].key))
    requires AllocationFor(pool, listed, vpcs[i].key) == Some(vlan)
    ensures Sound(pool, vpcs[i := vpcs[i].(vlan := vlan)])
  {
    LowestFreeMeaning(pool.start, pool.end, pool.Excluded() + Held(listed, pool.name, Some(vpcs[i].key)));
    forall j | 0 <= j < |vpcs| && j != i && ServedBy(vpcs[j], pool) && vpcs[j].vlan != 0 ensures vpcs[j].vlan != vlan {
      assert vpcs[j].key != vpcs[i].key;
      assert vpcs[j].vlan in HeldServed(vpcs, pool, vpcs[i].key);
    }
    hide AllocationFor, Held, HeldServed, LowestFree, TrimSpace;
  }

  lemma CreateKeepsSound(pool: VlanPool, vpcs: seq<Vpc>, key: VpcKey, name: string)
    requires Sound(pool, vpcs)
    ensures IndexOf(vpcs, key) == |vpcs| ==> Sound(pool, vpcs + [Vpc(key, name, 0)])
  {
    hide VlanPool.Range, VlanPool.Excluded, TrimSpace;
  }

  lemma DeleteKeepsSound(pool: VlanPool, vpcs: seq<Vpc>, i: nat)
    requires Sound(pool, vpcs) && i < |vpcs|
    ensures Sound(pool, vpcs[..i] + vpcs[i + 1..])
  {
    hide VlanPool.Range, VlanPool.Excluded, ServedBy;
    var rest := vpcs[..i] + vpcs[i + 1..];
    assert forall j :: 0 <= j < |rest| ==> rest[j] == if j < i then vpcs[j] else vpcs[j + 1];
  }

  lemma OtherPoolKeepsSound(pool: VlanPool, vpcs: seq<Vpc>, i: nat, vlan: int)
    requires Sound(pool, vpcs) && i < |vpcs| && !ServedBy(vpcs[i], pool)
    ensures Sound(pool, vpcs[i := vpcs[i].(vlan := vlan)])
  {
    hide VlanPool.Range, VlanPool.Excluded, TrimSpace;
  }

  lemma StepKeepsSound(pools: map<string, VlanPool>, h: History, event: Event, p: string)
    requires PoolsValid(pools) && p in pools && Sound(pools[p], Now(h)) && Undisturbed(pools, h, event, p)
    ensures Sound(pools[p], Step(pools, h, event))
  {
    hide AllocationFor, TrimSpace;
    match event
    case CreateVpc(key, pool) => CreateKeepsSound(pools[p], Now(h), key, pool);
    case DeleteVpc(key) =>
      var i := IndexOf(Now(h), key);
      if i < |Now(h)| {
        DeleteKeepsSound(pools[p], Now(h), i);
      }
    case Reconcile(key, read, listed) =>
      if read < |h| && listed < |h| {
        ReconcileKeepsSound(pools, h, key, read, listed, p);
      }
  }

  lemma ReconcileKeepsSound(pools: map<string, VlanPool>, h: History, key: VpcKey, read: nat, listed: nat, p: string)
    requires PoolsValid(pools) && p in pools && Sound(pools[p], Now(h)) && read < |h| && listed < |h|
    requires Undisturbed(pools, h, Reconcile(key, read, listed), p)
    ensures Sound(pools[p], Patched(Now(h), key, Decision(pools, h[read], h[listed], key)))
  {
    var i, j := IndexOf(h[read], key), IndexOf(Now(h), key);
    var vlan := Decision(pools, h[read], h[listed], key);
    if vlan.Some? && j < |Now(h)| {
      var pool := pools[TrimSpace(h[read][i].pool)];
      assert pool.name == TrimSpace(h[read][i].pool);
      assert ServedBy(h[read][i], pools[p]) <==> pool.name == p;
      hide AllocationFor, TrimSpace, Sound, Held, HeldServed;
      if pool.name == p {
        PatchKeepsSound(pool, Now(h), j, h[listed], vlan.value);
      } else {
        OtherPoolKeepsSound(pools[p], Now(h), j, vlan.value);
      }
    }
  }

  /**
   * Over any run of creations, reconciles and deletions every pool stays sound, when
   * nothing relevant came between the list of a reconcile and its patch.
   */
  lemma {:induction false} RunKeepsSound(pools: map<string, VlanPool>, h: History, events: seq<Event>, p: string)
    requires PoolsValid(pools) && p in pools && Sound(pools[p], Now(h)) && AllUndisturbed(pools, h, events, p)
    ensures Sound(pools[p], Now(Run(pools, h, events)))
    decreases |events|
  {
    hide Sound, Step, Undisturbed;
    if events != [] {
      RunKeepsSound(pools, h, events[..|events| - 1], p);
      StepKeepsSound(pools, Run(pools, h, events[..|events| - 1]), events[|events| - 1], p);
    }
  }

  // ---------------------------------------------------------------- references with blanks

  /** All reads and lists are of the current state. */
  ghost predicate AllFresh(pools: map<string, VlanPool>, h: History, events: seq<Event>)
    decreases |events|
  {
    events == []
    || (var front, last := events[..|events| - 1], events[|events| - 1];
        && AllFresh(pools, h, front)
        && (last.Reconcile? ==> last.read == last.listed == |Run(pools, h, front)| - 1))
  }

  /** Every creation uses one of the given references. */
  predicate Refer(events: seq<Event>, refs: set<string>) {
    forall i :: 0 <= i < |events| && events[i].CreateVpc? ==> events[i].pool in refs
  }

  predicate AllRefer(vpcs: seq<Vpc>, refs: set<string>) {
    forall i :: 0 <= i < |vpcs| ==> vpcs[i].pool in refs
  }

  lemma StepRefers(pools: map<string, VlanPool>, h: History, event: Event, refs: set<string>)
    requires AllRefer(Now(h), refs) && Refer([event], refs)
    ensures AllRefer(Step(pools, h, event), refs)
  {
    assert event == [event][0];
    hide Decision;
  }

  lemma FreshIsUndisturbed(pools: map<string, VlanPool>, h: History, event: Event, refs: set<string>, p: string)
    requires PoolsValid(pools) && p in pools && AllRefer(Now(h), refs)
    requires event.Reconcile? ==> event.read == event.listed == |h| - 1
    requires forall r :: r in refs && TrimSpace(r) == p ==> r == p
    ensures Undisturbed(pools, h, event, p)
  {
    hide TrimSpace;
    if event.Reconcile? {
      var i := IndexOf(Now(h), event.key);
      if i < |Now(h)| && ServedBy(Now(h)[i], pools[p]) {
        var pool := pools[p];
        forall x | x in HeldServed(Now(h), pool, event.key) ensures x in Held(Now(h), pool.name, Some(event.key)) {
          var k :| 0 <= k < |Now(h)| && Now(h)[k].key != event.key && ServedBy(Now(h)[k], pool) && Now(h)[k].vlan != 0 && Now(h)[k].vlan == x;
          assert Now(h)[k].pool in refs;
        }
      }
    }
  }

  lemma {:induction false} FreshRunsSound(pools: map<string, VlanPool>, events: seq<Event>, refs: set<string>, p: string)
    requires PoolsValid(pools) && p in pools && AllFresh(pools, [[]], events) && Refer(events, refs)
    requires forall r :: r in refs && TrimSpace(r) == p ==> r == p
    ensures var h := Run(pools, [[]], events); Sound(pools[p], Now(h)) && AllRefer(Now(h), refs)
    decreases |events|
  {
    hide Step, TrimSpace, Undisturbed, PoolsValid;
    if events != [] {
      var front, last := events[..|events| - 1], events[|events| - 1];
      assert Refer(front, refs) && Refer([last], refs);
      FreshRunsSound(pools, front, refs, p);
      hide Sound, AllRefer, Refer;
      var h := Run(pools, [[]], front);
      FreshIsUndisturbed(pools, h, last, refs, p);
      StepKeepsSound(pools, h, last, p);
      StepRefers(pools, h, last, refs);
    }
  }

  // two creations with one such reference, then two reconciles
  function TwoWith(r: string): seq<Event> {
    [CreateVpc(VpcKey("", "a"), r), CreateVpc(VpcKey("", "b"), r),
     Reconcile(VpcKey("", "a"), 2, 2), Reconcile(VpcKey("", "b"), 3, 3)]
  }

  lemma RunThree(pools: map<string, VlanPool>, h: History, e0: Event, e1: Event, e2: Event)
    ensures var h1 := h + [Step(pools, h, e0)];
            var h2 := h1 + [Step(pools, h1, e1)];
            Run(pools, h, [e0, e1, e2]) == h2 + [Step(pools, h2, e2)]
  {
    hide Step;
    assert [e0, e1, e2][..2] == [e0, e1] && [e0, e1][..1] == [e0] && [e0][..0] == [];
    var h1 := h + [Step(pools, h, e0)];
    assert Run(pools, h, []) == h;
    assert Run(pools, h, [e0]) == h1;
    assert Run(pools, h, [e0, e1]) == h1 + [Step(pools, h1, e1)];
  }

  lemma RunFour(pools: map<string, VlanPool>, h: History, e0: Event, e1: Event, e2: Event, e3: Event)
    ensures var h1 := h + [Step(pools, h, e0)];
            var h2 := h1 + [Step(pools, h1, e1)];
            var h3 := h2 + [Step(pools, h2, e2)];
            Run(pools, h, [e0, e1, e2, e3]) == h3 + [Step(pools, h3, e3)]
  {
    hide Step;
    RunThree(pools, h, e0, e1, e2);
    assert [e0, e1, e2, e3][..3] == [e0, e1, e2];
  }

  /** The run reads what is current, and refers to r only. */
  lemma TwoWithFresh(pools: map<string, VlanPool>, r: string)
    ensures AllFresh(pools, [[]], TwoWith(r)) && Refer(TwoWith(r), {r})
  {
    hide Step;
    var e := TwoWith(r);
    assert e[..4] == e && e[..3][..2] == e[..2] && e[..2][..1] == e[..1] && e[..1][..0] == [];
    assert AllFresh(pools, [[]], e[..1][..0]);
    assert AllFresh(pools, [[]], e[..1]);
    assert AllFresh(pools, [[]], e[..2]);
    assert |Run(pools, [[]], e[..2])| == 3 && |Run(pools, [[]], e[..3])| == 4;
    assert AllFresh(pools, [[]], e[..3]);
  }

  /** One reconcile with current reads, when no other VPC of the pool is in the list. */
  lemma Allocates(pools: map<string, VlanPool>, h: History, key: VpcKey, i: nat, p: string, n: int)
    requires p in pools && pools[p].name == p && i < |Now(h)| && IndexOf(Now(h), key) == i
    requires Now(h)[i].vlan == 0 && ServedBy(Now(h)[i], pools[p]) && Held(Now(h), p, Some(key)) == {}
    requires LowestFree(pools[p].start, pools[p].end, pools[p].Excluded()) == Some(n)
    ensures Step(pools, h, Reconcile(key, |h| - 1, |h| - 1)) == Now(h)[i := Now(h)[i].(vlan := n)]
  {
    assert pools[p].Excluded() + {} == pools[p].Excluded();
    hide LowestFree, Held, TrimSpace;
  }

  lemma CreatesTwo(pools: map<string, VlanPool>, a: VpcKey, b: VpcKey, r: string)
    requires a != b
    ensures Step(pools, [[]], CreateVpc(a, r)) == [Vpc(a, r, 0)]
    ensures Step(pools, [[]] + [[Vpc(a, r, 0)]], CreateVpc(b, r)) == [Vpc(a, r, 0), Vpc(b, r, 0)]
  {
    hide Decision;
    assert IndexOf([Vpc(a, r, 0)], b) == 1;
  }

  /** Served from p, invisible to everybody's list: both get the lowest free number. */
  lemma BlanksCollide(pools: map<string, VlanPool>, p: string, r: string)
    requires PoolsValid(pools) && p in pools && TrimSpace(r) == p && r != p
    requires LowestFree(pools[p].start, pools[p].end, pools[p].Excluded()).Some?
    ensures !Sound(pools[p], Now(Run(pools, [[]], TwoWith(r))))
  {
    var a, b := VpcKey("", "a"), VpcKey("", "b");
    var n := LowestFree(pools[p].start, pools[p].end, pools[p].Excluded()).value;
    LowestFreeMeaning(pools[p].start, pools[p].end, pools[p].Excluded());
    assert n != 0;
    hide TrimSpace, Step, LowestFree, VlanPool.Excluded, PoolsValid;
    BothServed(pools, p, r, n);
    RunFour(pools, [[]], CreateVpc(a, r), CreateVpc(b, r), Reconcile(a, 2, 2), Reconcile(b, 3, 3));
    hide Run, AllFresh, Sound;
  }

  /** Of two VPCs with such a reference, the one at index i gets the lowest free number. */
  lemma OneServed(pools: map<string, VlanPool>, h: History, a: VpcKey, b: VpcKey, r: string, x: int, i: nat, p: string, n: int)
    requires PoolsValid(pools) && p in pools && TrimSpace(r) == p && r != p && a != b && i < 2
    requires Now(h) == [Vpc(a, r, x), Vpc(b, r, 0)] && (i == 0 ==> x == 0)
    requires LowestFree(pools[p].start, pools[p].end, pools[p].Excluded()) == Some(n)
    ensures Step(pools, h, Reconcile(if i == 0 then a else b, |h| - 1, |h| - 1))
         == if i == 0 then [Vpc(a, r, n), Vpc(b, r, 0)] else [Vpc(a, r, x), Vpc(b, r, n)]
  {
    var key := if i == 0 then a else b;
    NoneVisible(Now(h), p, key);
    IndexAB(Now(h), a, b);
    Allocates(pools, h, key, i, p, n);
    hide TrimSpace, LowestFree, Step, Held;
  }

  lemma BothServed(pools: map<string, VlanPool>, p: string, r: string, n: int)
    requires PoolsValid(pools) && p in pools && TrimSpace(r) == p && r != p && n != 0
    requires LowestFree(pools[p].start, pools[p].end, pools[p].Excluded()) == Some(n)
    ensures var a, b := VpcKey("", "a"), VpcKey("", "b");
            var h1 := [[]] + [Step(pools, [[]], CreateVpc(a, r))];
            var h2 := h1 + [Step(pools, h1, CreateVpc(b, r))];
            var h3 := h2 + [Step(pools, h2, Reconcile(a, 2, 2))];
            !Sound(pools[p], Step(pools, h3, Reconcile(b, 3, 3)))
  {
    var a, b := VpcKey("", "a"), VpcKey("", "b");
    NotSound(pools[p], [Vpc(a, r, n), Vpc(b, r, n)]);
    CreatesTwo(pools, a, b, r);
    hide TrimSpace, LowestFree, Step, Held, Sound, PoolsValid, Now;
    var s2, s3 := [Vpc(a, r, 0), Vpc(b, r, 0)], [Vpc(a, r, n), Vpc(b, r, 0)];
    var h1 := [[]] + [[Vpc(a, r, 0)]];
    NowOf(h1, s2);
    OneServed(pools, h1 + [s2], a, b, r, 0, 0, p, n);
    NowOf(h1 + [s2], s3);
    OneServed(pools, h1 + [s2] + [s3], a, b, r, n, 1, p, n);
  }

  lemma NowOf(h: History, vpcs: seq<Vpc>)
    ensures Now(h + [vpcs]) == vpcs && |h + [vpcs]| == |h| + 1
  {
  }

  lemma NotSound(pool: VlanPool, vpcs: seq<Vpc>)
    requires pool.Valid() && |vpcs| == 2 && ServedBy(vpcs[0], pool) && ServedBy(vpcs[1], pool)
    requires vpcs[0].vlan == vpcs[1].vlan != 0
    ensures !Sound(pool, vpcs)
  {
    hide TrimSpace;
  }

  lemma NoneVisible(vpcs: seq<Vpc>, p: string, except: VpcKey)
    requires forall i :: 0 <= i < |vpcs| ==> vpcs[i].pool != p
    ensures Held(vpcs, p, Some(except)) == {}
  {
  }

  lemma IndexAB(vpcs: seq<Vpc>, a: VpcKey, b: VpcKey)
    requires |vpcs| == 2 && vpcs[0].key == a && vpcs[1].key == b && a != b
    ensures IndexOf(vpcs, a) == 0 && IndexOf(vpcs, b) == 1
  {
  }

  /**
   * With every read current, runs from an empty cluster keep a pool sound exactly when
   * each reference that is looked up as the pool is written like its name, or the pool
   * has no number to give.
   */
  lemma ReferencesSoundExactly(pools: map<string, VlanPool>, refs: set<string>, p: string)
    requires PoolsValid(pools) && p in pools
    ensures (forall events :: AllFresh(pools, [[]], events) && Refer(events, refs) ==> Sound(pools[p], Now(Run(pools, [[]], events))))
       <==> (forall r :: r in refs && TrimSpace(r) == p ==> r == p)
            || LowestFree(pools[p].start, pools[p].end, pools[p].Excluded()) == None
  {
    hide TrimSpace, Run, AllFresh, Refer, Sound;
    if forall r :: r in refs && TrimSpace(r) == p ==> r == p {
      forall events | AllFresh(pools, [[]], events) && Refer(events, refs) ensures Sound(pools[p], Now(Run(pools, [[]], events))) {
        FreshRunsSound(pools, events, refs, p);
      }
    } else if LowestFree(pools[p].start, pools[p].end, pools[p].Excluded()) == None {
      forall events | AllFresh(pools, [[]], events) ensures Sound(pools[p], Now(Run(pools, [[]], events))) {
        NothingToGive(pools, events, p);
      }
    } else {
      var r :| r in refs && TrimSpace(r) == p && r != p;
      BlanksCollide(pools, p, r);
      TwoWithFresh(pools, r);
      MoreRefs(TwoWith(r), r, refs);
    }
  }

  /** Keys are distinct, and no VPC served from the pool has a VLAN. */
  predicate Bare(vpcs: seq<Vpc>, pool: VlanPool) {
    && (forall i, j :: 0 <= i < j < |vpcs| ==> vpcs[i].key != vpcs[j].key)
    && (forall i :: 0 <= i < |vpcs| && ServedBy(vpcs[i], pool) ==> vpcs[i].vlan == 0)
  }

  lemma StaysBare(pools: map<string, VlanPool>, h: History, event: Event, p: string)
    requires PoolsValid(pools) && p in pools && Bare(Now(h), pools[p])
    requires event.Reconcile? ==> event.read == event.listed == |h| - 1
    requires LowestFree(pools[p].start, pools[p].end, pools[p].Excluded()) == None
    ensures Bare(Step(pools, h, event), pools[p])
  {
    hide TrimSpace;
    if event.Reconcile? {
      var i := IndexOf(Now(h), event.key);
      if i < |Now(h)| && ServedBy(Now(h)[i], pools[p]) {
        var used := Held(Now(h), p, Some(event.key));
        LowestFreeMeaning(pools[p].start, pools[p].end, pools[p].Excluded());
        LowestFreeMeaning(pools[p].start, pools[p].end, pools[p].Excluded() + used);
        assert AllocationFor(pools[p], Now(h), event.key) == None;
      }
      hide AllocationFor, Held, LowestFree;
    }
  }

  lemma {:induction false} NothingToGive(pools: map<string, VlanPool>, events: seq<Event>, p: string)
    requires PoolsValid(pools) && p in pools && AllFresh(pools, [[]], events)
    requires LowestFree(pools[p].start, pools[p].end, pools[p].Excluded()) == None
    ensures Bare(Now(Run(pools, [[]], events)), pools[p]) && Sound(pools[p], Now(Run(pools, [[]], events)))
    decreases |events|
  {
    hide Step, TrimSpace, LowestFree;
    if events != [] {
      NothingToGive(pools, events[..|events| - 1], p);
      StaysBare(pools, Run(pools, [[]], events[..|events| - 1]), events[|events| - 1], p);
    }
  }

  lemma MoreRefs(events: seq<Event>, r: string, refs: set<string>)
    requires Refer(events, {r}) && r in refs
    ensures Refer(events, refs)
  {
  }

  /** For instance a VPC that writes its reference as " default". */
  lemma BlankBeforeDefault(pools: map<string, VlanPool>)
    requires pools == map["default" := VlanPool("default", 100, 200, [])]
    ensures AllFresh(pools, [[]], TwoWith(" default")) && !Sound(pools["default"], Now(Run(pools, [[]], TwoWith(" default"))))
  {
    hide TrimSpace, Run, AllFresh, Sound;
    BlankIsTrimmed();
    assert pools["default"].Excluded() == {};
    TwoWithFresh(pools, " default");
    BlanksCollide(pools, "default", " default");
  }

  lemma BlankIsTrimmed()
    ensures TrimSpace(" default") == "default" && TrimSpace("default") == "default"
  {
    assert " default"[1..] == "default";
    TrimOfTrimmed("default", GoSpace);
    assert TrimLeft(" default", GoSpace) == TrimLeft("default", GoSpace);
  }

  // ---------------------------------------------------------------- old lists

  predicate OnlyReconciles(events: seq<Event>) {
    forall i :: 0 <= i < |events| ==> events[i].Reconcile?
  }

  /** At most one VPC of the pool has no VLAN yet. */
  predicate AtMostOneWaits(vpcs: seq<Vpc>, pool: VlanPool) {
    forall i, j :: 0 <= i < j < |vpcs| && ServedBy(vpcs[i], pool) && ServedBy(vpcs[j], pool) ==> vpcs[i].vlan != 0 || vpcs[j].vlan != 0
  }

  /** References that are looked up as the pool are written like its name. */
  predicate Plain(vpcs: seq<Vpc>, pool: VlanPool) {
    forall i :: 0 <= i < |vpcs| && ServedBy(vpcs[i], pool) ==> vpcs[i].pool == pool.name
  }

  /** As at the start, except that VPCs of the pool may have got the number they get from the first list. */
  predicate Alike(vpcs: seq<Vpc>, v: seq<Vpc>, pool: VlanPool) {
    && |v| == |vpcs|
    && forall k :: 0 <= k < |v| ==>
         && v[k].key == vpcs[k].key && v[k].pool == vpcs[k].pool
         && (ServedBy(vpcs[k], pool) ==>
               v[k].vlan == vpcs[k].vlan || (vpcs[k].vlan == 0 && AllocationFor(pool, vpcs, vpcs[k].key) == Some(v[k].vlan)))
  }

  /** When nothing can go wrong with an old list: one VPC waits at most, or no number is free. */
  ghost predicate Harmless(vpcs: seq<Vpc>, pool: VlanPool) {
    FreeVlans(pool, vpcs) == {} || AtMostOneWaits(vpcs, pool)
  }

  lemma SameHeld(vpcs: seq<Vpc>, v: seq<Vpc>, pool: VlanPool, i: nat)
    requires pool.Valid() && Sound(pool, vpcs) && Alike(vpcs, v, pool) && Harmless(vpcs, pool)
    requires i < |vpcs| && ServedBy(vpcs[i], pool) && vpcs[i].vlan == 0
    ensures Held(v, pool.name, Some(vpcs[i].key)) == Held(vpcs, pool.name, Some(vpcs[i].key))
  {
    forall k | 0 <= k < |vpcs| && k != i && vpcs[k].pool == pool.name ensures v[k].vlan == vpcs[k].vlan && v[k].key != vpcs[i].key {
      assert ServedBy(vpcs[k], pool);
      if v[k].vlan != vpcs[k].vlan {
        RefusedExactlyWhenNoneAvailable(pool, vpcs, k);
      }
    }
    hide AllocationFor, TrimSpace, FreeVlans;
    var a, b := Held(v, pool.name, Some(vpcs[i].key)), Held(vpcs, pool.name, Some(vpcs[i].key));
    forall x | x in a ensures x in b {
      var k :| 0 <= k < |v| && Some(v[k].key) != Some(vpcs[i].key) && v[k].pool == pool.name && v[k].vlan != 0 && v[k].vlan == x;
      assert vpcs[k].vlan == x;
    }
    forall x | x in b ensures x in a {
      var k :| 0 <= k < |vpcs| && Some(vpcs[k].key) != Some(vpcs[i].key) && vpcs[k].pool == pool.name && vpcs[k].vlan != 0 && vpcs[k].vlan == x;
      assert v[k].vlan == x;
    }
  }

  lemma SameIndex(vpcs: seq<Vpc>, v: seq<Vpc>, key: VpcKey)
    requires |v| == |vpcs| && forall k :: 0 <= k < |v| ==> v[k].key == vpcs[k].key
    ensures IndexOf(v, key) == IndexOf(vpcs, key)
  {
  }

  /** Whatever is read and listed, a VPC of the pool gets the number it gets from the first list. */
  lemma DecisionAlike(pools: map<string, VlanPool>, vpcs: seq<Vpc>, read: seq<Vpc>, listed: seq<Vpc>, i: nat, p: string)
    requires PoolsValid(pools) && p in pools && Sound(pools[p], vpcs) && Harmless(vpcs, pools[p])
    requires Alike(vpcs, read, pools[p]) && Alike(vpcs, listed, pools[p])
    requires i < |vpcs| && IndexOf(vpcs, vpcs[i].key) == i && ServedBy(vpcs[i], pools[p])
    ensures var n := Decision(pools, read, listed, vpcs[i].key);
            n.Some? ==> vpcs[i].vlan == 0 && n == AllocationFor(pools[p], vpcs, vpcs[i].key)
  {
    SameIndex(vpcs, read, vpcs[i].key);
    if read[i].vlan == 0 {
      LowestFreeMeaning(pools[p].start, pools[p].end, pools[p].Excluded() + Held(vpcs, p, Some(vpcs[i].key)));
      assert vpcs[i].vlan == 0;
      SameHeld(vpcs, listed, pools[p], i);
      hide Held, LowestFree;
    }
    hide TrimSpace, Sound, Harmless;
  }

  lemma StaysAlike(pools: map<string, VlanPool>, h: History, vpcs: seq<Vpc>, key: VpcKey, read: nat, listed: nat, p: string)
    requires PoolsValid(pools) && p in pools && Sound(pools[p], vpcs) && Harmless(vpcs, pools[p])
    requires forall k :: 0 <= k < |h| ==> Alike(vpcs, h[k], pools[p])
    ensures Alike(vpcs, Step(pools, h, Reconcile(key, read, listed)), pools[p])
  {
    hide Alike, AllocationFor, TrimSpace, Sound, Harmless, Decision, PoolsValid;
    assert Alike(vpcs, Now(h), pools[p]);
    if read < |h| && listed < |h| {
      var i, n := IndexOf(vpcs, key), Decision(pools, h[read], h[listed], key);
      assert Alike(vpcs, h[read], pools[p]) && Alike(vpcs, h[listed], pools[p]);
      AlikeKeys(vpcs, Now(h), pools[p]);
      SameIndex(vpcs, Now(h), key);
      if i < |vpcs| && n.Some? {
        if ServedBy(vpcs[i], pools[p]) {
          DecisionAlike(pools, vpcs, h[read], h[listed], i, p);
        }
        PatchAlike(vpcs, Now(h), i, n.value, pools[p]);
      }
    }
  }

  lemma AlikeKeys(vpcs: seq<Vpc>, v: seq<Vpc>, pool: VlanPool)
    requires Alike(vpcs, v, pool)
    ensures |v| == |vpcs| && forall k :: 0 <= k < |v| ==> v[k].key == vpcs[k].key
  {
    hide AllocationFor, TrimSpace;
  }

  lemma PatchAlike(vpcs: seq<Vpc>, v: seq<Vpc>, i: nat, n: int, pool: VlanPool)
    requires Alike(vpcs, v, pool) && i < |vpcs|
    requires ServedBy(vpcs[i], pool) ==> vpcs[i].vlan == 0 && AllocationFor(pool, vpcs, vpcs[i].key) == Some(n)
    ensures Alike(vpcs, v[i := v[i].(vlan := n)], pool)
    ensures KeepsSet(v, v[i := v[i].(vlan := n)], pool)
  {
    hide AllocationFor, TrimSpace;
  }

  lemma AlikeIsSound(vpcs: seq<Vpc>, v: seq<Vpc>, pool: VlanPool)
    requires pool.Valid() && Sound(pool, vpcs) && Harmless(vpcs, pool) && Plain(vpcs, pool) && Alike(vpcs, v, pool)
    ensures Sound(pool, v)
  {
    forall k | 0 <= k < |v| && ServedBy(vpcs[k], pool) && v[k].vlan != vpcs[k].vlan
      ensures v[k].vlan in pool.Range() && v[k].vlan !in pool.Excluded() + Held(vpcs, pool.name, Some(vpcs[k].key))
      ensures FreeVlans(pool, vpcs) != {}
    {
      LowestFreeMeaning(pool.start, pool.end, pool.Excluded() + Held(vpcs, pool.name, Some(vpcs[k].key)));
      RefusedExactlyWhenNoneAvailable(pool, vpcs, k);
    }
    hide AllocationFor, TrimSpace, LowestFree, FreeVlans, VlanPool.Range, VlanPool.Excluded;
    forall i, j | 0 <= i < |v| && 0 <= j < |v| && i != j && ServedBy(v[i], pool) && ServedBy(v[j], pool) && v[i].vlan != 0
      ensures v[i].vlan != v[j].vlan
    {
      if v[i].vlan != vpcs[i].vlan {
        assert v[j].vlan == vpcs[j].vlan;
        assert vpcs[j].key != vpcs[i].key;
        if vpcs[j].vlan != 0 { assert vpcs[j].vlan in Held(vpcs, pool.name, Some(vpcs[i].key)); }
      } else if v[j].vlan != vpcs[j].vlan {
        assert vpcs[j].key != vpcs[i].key;
        assert vpcs[i].vlan in Held(vpcs, pool.name, Some(vpcs[j].key));
      }
    }
  }

  lemma {:induction false} StaleRunsAlike(pools: map<string, VlanPool>, vpcs: seq<Vpc>, events: seq<Event>, p: string)
    requires PoolsValid(pools) && p in pools && Sound(pools[p], vpcs) && Harmless(vpcs, pools[p]) && OnlyReconciles(events)
    ensures forall k :: 0 <= k < |Run(pools, [vpcs], events)| ==> Alike(vpcs, Run(pools, [vpcs], events)[k], pools[p])
    decreases |events|
  {
    hide Step, TrimSpace, Sound, Harmless, AllocationFor;
    if events != [] {
      var front, last := events[..|events| - 1], events[|events| - 1];
      StaleRunsAlike(pools, vpcs, front, p);
      StaysAlike(pools, Run(pools, [vpcs], front), vpcs, last.key, last.read, last.listed, p);
    }
  }

  /** A reconcile that reads and lists the first state, whatever has happened since. */
  lemma ReconcileFromFirst(pools: map<string, VlanPool>, h: History, vpcs: seq<Vpc>, i: nat, p: string, n: int)
    requires p in pools && pools[p].name == p && h[0] == vpcs && i < |vpcs| && Distinct(vpcs)
    requires |Now(h)| == |vpcs| && forall k :: 0 <= k < |vpcs| ==> Now(h)[k].key == vpcs[k].key
    requires vpcs[i].vlan == 0 && ServedBy(vpcs[i], pools[p]) && AllocationFor(pools[p], vpcs, vpcs[i].key) == Some(n)
    ensures Step(pools, h, Reconcile(vpcs[i].key, 0, 0)) == Now(h)[i := Now(h)[i].(vlan := n)]
  {
    IndexOfItem(vpcs, i);
    SameIndex(vpcs, Now(h), vpcs[i].key);
    hide AllocationFor, TrimSpace;
  }

  /** Two waiting VPCs, each served from the list before the other got its number. */
  lemma OldListCollides(pools: map<string, VlanPool>, vpcs: seq<Vpc>, p: string, i: nat, j: nat)
    requires PoolsValid(pools) && p in pools && Sound(pools[p], vpcs)
    requires i < |vpcs| && j < |vpcs| && i != j && vpcs[i].vlan == 0 && vpcs[j].vlan == 0
    requires ServedBy(vpcs[i], pools[p]) && ServedBy(vpcs[j], pools[p]) && FreeVlans(pools[p], vpcs) != {}
    ensures var events := [Reconcile(vpcs[i].key, 0, 0), Reconcile(vpcs[j].key, 0, 0)];
            OnlyReconciles(events) && !Sound(pools[p], Now(Run(pools, [vpcs], events)))
  {
    var e0, e1 := Reconcile(vpcs[i].key, 0, 0), Reconcile(vpcs[j].key, 0, 0);
    var n := SharedNumber(pools[p], vpcs, i, j);
    var v := vpcs[i := vpcs[i].(vlan := n)];
    assert Distinct(vpcs) && pools[p].name == p && pools[p].Valid();
    hide Sound, ServedBy, AllocationFor, FreeVlans, Step, VlanPool.Valid, PoolsValid, OnlyReconciles;
    ReconcileFromFirst(pools, [vpcs], vpcs, i, p, n);
    ReconcileFromFirst(pools, [vpcs] + [v], vpcs, j, p, n);
    BothGet(pools[p], vpcs, i, j, n);
    RunTwo(pools, [vpcs], e0, e1);
    OnlyTwo(e0, e1);
  }

  lemma OnlyTwo(e0: Event, e1: Event)
    requires e0.Reconcile? && e1.Reconcile?
    ensures OnlyReconciles([e0, e1])
  {
  }

  lemma SharedNumber(pool: VlanPool, vpcs: seq<Vpc>, i: nat, j: nat) returns (n: int)
    requires pool.Valid() && Sound(pool, vpcs) && FreeVlans(pool, vpcs) != {}
    requires i < |vpcs| && j < |vpcs| && i != j && vpcs[i].vlan == 0 && vpcs[j].vlan == 0
    ensures n != 0 && AllocationFor(pool, vpcs, vpcs[i].key) == Some(n) == AllocationFor(pool, vpcs, vpcs[j].key)
  {
    SharedListCollides(pool, vpcs, i, j);
    RefusedExactlyWhenNoneAvailable(pool, vpcs, i);
    n := AllocationFor(pool, vpcs, vpcs[i].key).value;
    LowestFreeMeaning(pool.start, pool.end, pool.Excluded() + Held(vpcs, pool.name, Some(vpcs[i].key)));
    hide LowestFree, Held, FreeVlans, TrimSpace;
  }

  lemma BothGet(pool: VlanPool, vpcs: seq<Vpc>, i: nat, j: nat, n: int)
    requires i < |vpcs| && j < |vpcs| && i != j && ServedBy(vpcs[i], pool) && ServedBy(vpcs[j], pool) && n != 0
    ensures var v := vpcs[i := vpcs[i].(vlan := n)]; !Sound(pool, v[j := v[j].(vlan := n)])
  {
    hide TrimSpace;
    var v := vpcs[i := vpcs[i].(vlan := n)];
    TwoAlike(pool, v[j := v[j].(vlan := n)], i, j);
  }

  lemma RunTwo(pools: map<string, VlanPool>, h: History, e0: Event, e1: Event)
    ensures var h1 := h + [Step(pools, h, e0)]; Run(pools, h, [e0, e1]) == h1 + [Step(pools, h1, e1)]
  {
    hide Step;
    assert [e0, e1][..1] == [e0] && [e0][..0] == [];
    assert Run(pools, h, []) == h;
    assert Run(pools, h, [e0]) == h + [Step(pools, h, e0)];
  }

  lemma IndexOfItem(vpcs: seq<Vpc>, i: nat)
    requires i < |vpcs| && forall a, b :: 0 <= a < b < |vpcs| ==> vpcs[a].key != vpcs[b].key
    ensures IndexOf(vpcs, vpcs[i].key) == i
  {
  }

  lemma TwoAlike(pool: VlanPool, vpcs: seq<Vpc>, i: nat, j: nat)
    requires i < |vpcs| && j < |vpcs| && i != j && ServedBy(vpcs[i], pool) && ServedBy(vpcs[j], pool)
    requires vpcs[i].vlan == vpcs[j].vlan != 0
    ensures !Sound(pool, vpcs)
  {
  }

  /**
   * With lists and reads of any age, runs of reconciles keep a pool sound exactly when
   * at most one of its VPCs waits for a VLAN, or none is free.
   */
  lemma OldListsSoundExactly(pools: map<string, VlanPool>, vpcs: seq<Vpc>, p: string)
    requires PoolsValid(pools) && p in pools && Sound(pools[p], vpcs) && Plain(vpcs, pools[p])
    ensures (forall events :: OnlyReconciles(events) ==> Sound(pools[p], Now(Run(pools, [vpcs], events))))
       <==> FreeVlans(pools[p], vpcs) == {} || AtMostOneWaits(vpcs, pools[p])
  {
    if Harmless(vpcs, pools[p]) {
      forall events | OnlyReconciles(events) ensures Sound(pools[p], Now(Run(pools, [vpcs], events))) {
        StaleRunsAlike(pools, vpcs, events, p);
        hide Run, Sound, Alike;
        AlikeIsSound(vpcs, Now(Run(pools, [vpcs], events)), pools[p]);
      }
    } else {
      hide Run, Sound, TrimSpace, FreeVlans;
      var i, j :| 0 <= i < j < |vpcs| && ServedBy(vpcs[i], pools[p]) && ServedBy(vpcs[j], pools[p]) && !(vpcs[i].vlan != 0 || vpcs[j].vlan != 0);
      OldListCollides(pools, vpcs, p, i, j);
    }
  }

  // ---------------------------------------------------------------- a VLAN once set

  /** The reads of the VPC itself are current; lists may be old. */
  ghost predicate ReadsOf(pools: map<string, VlanPool>, h: History, events: seq<Event>, key: VpcKey)
    decreases |events|
  {
    events == []
    || (var front, last := events[..|events| - 1], events[|events| - 1];
        && ReadsOf(pools, h, front, key)
        && (last.Reconcile? && last.key == key ==> last.read == |Run(pools, h, front)| - 1))
  }

  /** A VLAN, once set, stays until the VPC is deleted, while its own reads are current. */
  lemma {:induction false} VlanNeverChanges(pools: map<string, VlanPool>, h: History, events: seq<Event>, v: Vpc)
    requires v in Now(h) && v.vlan != 0 && DeleteVpc(v.key) !in events && ReadsOf(pools, h, events, v.key)
    requires Distinct(Now(h))
    ensures v in Now(Run(pools, h, events)) && Distinct(Now(Run(pools, h, events)))
    decreases |events|
  {
    if events != [] {
      var front, last := events[..|events| - 1], events[|events| - 1];
      assert last in events && forall e :: e in front ==> e in events;
      VlanNeverChanges(pools, h, front, v);
      hide AllocationFor, Step, TrimSpace;
      StepKeepsVpc(pools, Run(pools, h, front), last, v);
    }
  }

  predicate Distinct(vpcs: seq<Vpc>) {
    forall i, j :: 0 <= i < j < |vpcs| ==> vpcs[i].key != vpcs[j].key
  }

  lemma DeleteOther(vpcs: seq<Vpc>, i: nat, k: nat)
    requires Distinct(vpcs) && i < |vpcs| && k < |vpcs| && i != k
    ensures vpcs[k] in vpcs[..i] + vpcs[i + 1..] && Distinct(vpcs[..i] + vpcs[i + 1..])
  {
    var after := vpcs[..i] + vpcs[i + 1..];
    assert after[if k < i then k else k - 1] == vpcs[k];
    assert forall j :: 0 <= j < |after| ==> after[j] == if j < i then vpcs[j] else vpcs[j + 1];
  }

  lemma PatchOther(vpcs: seq<Vpc>, key: VpcKey, vlan: Option<int>, k: nat)
    requires Distinct(vpcs) && k < |vpcs| && (vpcs[k].key == key ==> vlan == None)
    ensures vpcs[k] in Patched(vpcs, key, vlan) && Distinct(Patched(vpcs, key, vlan))
  {
    var after := Patched(vpcs, key, vlan);
    assert after[k] == vpcs[k];
  }

  lemma CreateKeepsVpc(pools: map<string, VlanPool>, h: History, key: VpcKey, pool: string, v: Vpc)
    requires v in Now(h) && Distinct(Now(h))
    ensures var after := Step(pools, h, CreateVpc(key, pool)); v in after && Distinct(after)
  {
    var vpcs := Now(h);
    var after := Step(pools, h, CreateVpc(key, pool));
    assert forall j :: 0 <= j < |vpcs| ==> after[j] == vpcs[j];
  }

  lemma DeleteKeepsVpc(pools: map<string, VlanPool>, h: History, key: VpcKey, v: Vpc, k: nat)
    requires k < |Now(h)| && Now(h)[k] == v && key != v.key && Distinct(Now(h))
    ensures var after := Step(pools, h, DeleteVpc(key)); v in after && Distinct(after)
  {
    hide IndexOf, Distinct;
    if IndexOf(Now(h), key) < |Now(h)| {
      DeleteOther(Now(h), IndexOf(Now(h), key), k);
    }
  }

  lemma ReconcileKeepsVpc(pools: map<string, VlanPool>, h: History, key: VpcKey, read: nat, listed: nat, v: Vpc, k: nat)
    requires k < |Now(h)| && Now(h)[k] == v && v.vlan != 0 && Distinct(Now(h)) && (key == v.key ==> read == |h| - 1)
    ensures var after := Step(pools, h, Reconcile(key, read, listed)); v in after && Distinct(after)
  {
    IndexOfItem(Now(h), k);
    hide AllocationFor, TrimSpace, IndexOf, Distinct, Patched;
    if read < |h| && listed < |h| {
      assert key == v.key ==> Decision(pools, h[read], h[listed], key) == None;
      hide Decision;
      PatchOther(Now(h), key, Decision(pools, h[read], h[listed], key), k);
    }
  }

  lemma StepKeepsVpc(pools: map<string, VlanPool>, h: History, event: Event, v: Vpc)
    requires v in Now(h) && v.vlan != 0 && event != DeleteVpc(v.key) && Distinct(Now(h))
    requires event.Reconcile? && event.key == v.key ==> event.read == |h| - 1
    ensures v in Step(pools, h, event) && Distinct(Step(pools, h, event))
  {
    hide Step, Distinct;
    var k :| 0 <= k < |Now(h)| && Now(h)[k] == v;
    match event
    case CreateVpc(key, pool) => CreateKeepsVpc(pools, h, key, pool, v);
    case DeleteVpc(key) => DeleteKeepsVpc(pools, h, key, v, k);
    case Reconcile(key, read, listed) => ReconcileKeepsVpc(pools, h, key, read, listed, v, k);
  }

  // ---------------------------------------------------------------- old reads of the VPC itself

  /** No VPC of the pool that had a VLAN has another afterwards. */
  predicate KeepsSet(before: seq<Vpc>, after: seq<Vpc>, pool: VlanPool) {
    |after| == |before| && forall k :: 0 <= k < |before| && ServedBy(before[k], pool) && before[k].vlan != 0 ==> after[k].vlan == before[k].vlan
  }

  /** The steps of every run of reconciles, with reads and lists of any age, keep what is set. */
  ghost predicate AlwaysKept(pools: map<string, VlanPool>, vpcs: seq<Vpc>, pool: VlanPool) {
    forall events, key, read, listed :: OnlyReconciles(events) ==>
      KeepsSet(Now(Run(pools, [vpcs], events)), Step(pools, Run(pools, [vpcs], events), Reconcile(key, read, listed)), pool)
  }

  predicate AtMostOneFree(pool: VlanPool, vpcs: seq<Vpc>) {
    forall a, b :: a in FreeVlans(pool, vpcs) && b in FreeVlans(pool, vpcs) ==> a == b
  }

  /** As at the start, except that waiting VPCs of the pool may have got a number that was free. */
  predicate Filled(vpcs: seq<Vpc>, v: seq<Vpc>, pool: VlanPool) {
    && |v| == |vpcs|
    && forall k :: 0 <= k < |v| ==>
         && v[k].key == vpcs[k].key && v[k].pool == vpcs[k].pool
         && (ServedBy(vpcs[k], pool) ==> v[k].vlan == vpcs[k].vlan || (vpcs[k].vlan == 0 && v[k].vlan in FreeVlans(pool, vpcs)))
  }

  /** Whatever is read and listed, the number decided on was free at the start. */
  lemma DecisionWasFree(pools: map<string, VlanPool>, vpcs: seq<Vpc>, read: seq<Vpc>, listed: seq<Vpc>, i: nat, p: string)
    requires PoolsValid(pools) && p in pools && Filled(vpcs, read, pools[p]) && Filled(vpcs, listed, pools[p])
    requires Distinct(vpcs) && i < |vpcs| && ServedBy(vpcs[i], pools[p])
    ensures var n := Decision(pools, read, listed, vpcs[i].key);
            n.Some? ==> vpcs[i].vlan == 0 && n.value in FreeVlans(pools[p], vpcs)
  {
    var pool := pools[p];
    IndexOfItem(vpcs, i);
    SameIndex(vpcs, read, vpcs[i].key);
    var n := Decision(pools, read, listed, vpcs[i].key);
    if n.Some? {
      assert read[i].vlan == 0 && n == AllocationFor(pool, listed, vpcs[i].key);
      FreeIsNotZero(pool, vpcs);
      LowestFreeMeaning(pool.start, pool.end, pool.Excluded() + Held(listed, p, Some(vpcs[i].key)));
      hide LowestFree, TrimSpace;
      if n.value in Held(vpcs, p, None) {
        HeldStays(vpcs, listed, pool, i, n.value);
      }
    }
  }

  lemma FreeIsNotZero(pool: VlanPool, vpcs: seq<Vpc>)
    requires pool.Valid()
    ensures 0 !in FreeVlans(pool, vpcs)
  {
  }

  /** A number held at the start is still listed, and not as one of a VPC that waited. */
  lemma HeldStays(vpcs: seq<Vpc>, listed: seq<Vpc>, pool: VlanPool, i: nat, x: int)
    requires pool.Valid() && Filled(vpcs, listed, pool) && Distinct(vpcs) && i < |vpcs| && vpcs[i].vlan == 0 && x in Held(vpcs, pool.name, None)
    ensures x in Held(listed, pool.name, Some(vpcs[i].key))
  {
    var k :| 0 <= k < |vpcs| && vpcs[k].pool == pool.name && vpcs[k].vlan != 0 && vpcs[k].vlan == x;
    assert ServedBy(vpcs[k], pool) && listed[k].vlan == x && k != i;
    hide TrimSpace, FreeVlans;
  }

  lemma StaysFilled(pools: map<string, VlanPool>, h: History, vpcs: seq<Vpc>, key: VpcKey, read: nat, listed: nat, p: string)
    requires PoolsValid(pools) && p in pools && Distinct(vpcs) && forall k :: 0 <= k < |h| ==> Filled(vpcs, h[k], pools[p])
    ensures Filled(vpcs, Step(pools, h, Reconcile(key, read, listed)), pools[p])
    ensures AtMostOneFree(pools[p], vpcs) ==> KeepsSet(Now(h), Step(pools, h, Reconcile(key, read, listed)), pools[p])
  {
    if read < |h| && listed < |h| {
      assert Filled(vpcs, h[read], pools[p]) && Filled(vpcs, h[listed], pools[p]) && Filled(vpcs, Now(h), pools[p]);
      var i, n := IndexOf(vpcs, key), Decision(pools, h[read], h[listed], key);
      FilledKeys(vpcs, Now(h), pools[p]);
      SameIndex(vpcs, Now(h), key);
      hide Filled, FreeVlans, TrimSpace, Decision;
      if i < |vpcs| && n.Some? {
        if ServedBy(vpcs[i], pools[p]) {
          DecisionWasFree(pools, vpcs, h[read], h[listed], i, p);
        }
        PatchFilled(vpcs, Now(h), i, n.value, pools[p]);
      } else {
        SameKept(Now(h), pools[p]);
      }
    } else {
      assert Filled(vpcs, Now(h), pools[p]);
      SameKept(Now(h), pools[p]);
    }
  }

  lemma FilledKeys(vpcs: seq<Vpc>, v: seq<Vpc>, pool: VlanPool)
    requires Filled(vpcs, v, pool)
    ensures |v| == |vpcs| && forall k :: 0 <= k < |v| ==> v[k].key == vpcs[k].key
  {
    hide FreeVlans, TrimSpace;
  }

  lemma SameKept(v: seq<Vpc>, pool: VlanPool)
    ensures KeepsSet(v, v, pool)
  {
  }

  lemma PatchFilled(vpcs: seq<Vpc>, v: seq<Vpc>, i: nat, n: int, pool: VlanPool)
    requires pool.Valid() && Filled(vpcs, v, pool) && i < |vpcs|
    requires ServedBy(vpcs[i], pool) ==> vpcs[i].vlan == 0 && n in FreeVlans(pool, vpcs)
    ensures Filled(vpcs, v[i := v[i].(vlan := n)], pool)
    ensures AtMostOneFree(pool, vpcs) ==> KeepsSet(v, v[i := v[i].(vlan := n)], pool)
  {
    FreeIsNotZero(pool, vpcs);
    hide FreeVlans, TrimSpace;
  }

  lemma {:induction false} RunsFilled(pools: map<string, VlanPool>, vpcs: seq<Vpc>, events: seq<Event>, p: string)
    requires PoolsValid(pools) && p in pools && Distinct(vpcs) && OnlyReconciles(events)
    ensures forall k :: 0 <= k < |Run(pools, [vpcs], events)| ==> Filled(vpcs, Run(pools, [vpcs], events)[k], pools[p])
    decreases |events|
  {
    hide Step, TrimSpace, FreeVlans;
    if events != [] {
      var front, last := events[..|events| - 1], events[|events| - 1];
      RunsFilled(pools, vpcs, front, p);
      StaysFilled(pools, Run(pools, [vpcs], front), vpcs, last.key, last.read, last.listed, p);
    }
  }

  /** With one VPC waiting at most, whatever is decided is what it has got already. */
  lemma AlikeKeepsSet(pools: map<string, VlanPool>, h: History, vpcs: seq<Vpc>, key: VpcKey, read: nat, listed: nat, p: string)
    requires PoolsValid(pools) && p in pools && Sound(pools[p], vpcs) && Harmless(vpcs, pools[p])
    requires forall k :: 0 <= k < |h| ==> Alike(vpcs, h[k], pools[p])
    ensures KeepsSet(Now(h), Step(pools, h, Reconcile(key, read, listed)), pools[p])
  {
    hide Alike, AllocationFor, TrimSpace, Sound, Harmless, Decision, PoolsValid, KeepsSet;
    assert Alike(vpcs, Now(h), pools[p]);
    SameKept(Now(h), pools[p]);
    if read < |h| && listed < |h| {
      var i, n := IndexOf(vpcs, key), Decision(pools, h[read], h[listed], key);
      assert Alike(vpcs, h[read], pools[p]) && Alike(vpcs, h[listed], pools[p]);
      AlikeKeys(vpcs, Now(h), pools[p]);
      SameIndex(vpcs, Now(h), key);
      if i < |vpcs| && n.Some? {
        if ServedBy(vpcs[i], pools[p]) {
          DecisionAlike(pools, vpcs, h[read], h[listed], i, p);
        }
        PatchAlike(vpcs, Now(h), i, n.value, pools[p]);
      }
    }
  }

  /** Both waiting VPCs have got n; the first is read as it was and gets another number. */
  lemma OtherNumber(pool: VlanPool, vpcs: seq<Vpc>, i: nat, j: nat, n: int, x: int) returns (m: int)
    requires pool.Valid() && Distinct(vpcs) && i < |vpcs| && j < |vpcs| && i != j && vpcs[i].vlan == 0 && vpcs[j].vlan == 0
    requires n != 0 && x != n && x in FreeVlans(pool, vpcs) && vpcs[j].pool == pool.name
    ensures var v := vpcs[i := vpcs[i].(vlan := n)];
            m != n && AllocationFor(pool, v[j := v[j].(vlan := n)], vpcs[i].key) == Some(m)
  {
    var v := vpcs[i := vpcs[i].(vlan := n)];
    var v2 := v[j := v[j].(vlan := n)];
    var held := Held(v2, pool.name, Some(vpcs[i].key));
    assert v2[j].vlan == n && v2[j].key != vpcs[i].key && v2[j].pool == pool.name;
    assert n in held;
    forall y | y in held && y != n ensures y in Held(vpcs, pool.name, None) {
      var k :| 0 <= k < |v2| && Some(v2[k].key) != Some(vpcs[i].key) && v2[k].pool == pool.name && v2[k].vlan != 0 && v2[k].vlan == y;
      assert vpcs[k].vlan == y;
    }
    LowestFreeMeaning(pool.start, pool.end, pool.Excluded() + held);
    hide LowestFree, Held;
    assert x !in pool.Excluded() + held;
    m := AllocationFor(pool, v2, vpcs[i].key).value;
  }

  lemma OldReadChanges(pools: map<string, VlanPool>, vpcs: seq<Vpc>, p: string, i: nat, j: nat, x: int, y: int)
    requires PoolsValid(pools) && p in pools && Sound(pools[p], vpcs) && Plain(vpcs, pools[p])
    requires i < |vpcs| && j < |vpcs| && i != j && vpcs[i].vlan == 0 && vpcs[j].vlan == 0
    requires ServedBy(vpcs[i], pools[p]) && ServedBy(vpcs[j], pools[p])
    requires x in FreeVlans(pools[p], vpcs) && y in FreeVlans(pools[p], vpcs) && x != y
    ensures var h := Run(pools, [vpcs], [Reconcile(vpcs[i].key, 0, 0), Reconcile(vpcs[j].key, 0, 0)]);
            !KeepsSet(Now(h), Step(pools, h, Reconcile(vpcs[i].key, 0, 2)), pools[p])
  {
    var pool := pools[p];
    var n := SharedNumber(pool, vpcs, i, j);
    assert Distinct(vpcs) && vpcs[j].pool == pool.name && pool.name == p by { hide TrimSpace, FreeVlans; }
    var m := OtherNumber(pool, vpcs, i, j, n, if x != n then x else y);
    hide Sound, AllocationFor, FreeVlans, TrimSpace, Step, Run, Plain, PoolsValid, ServedBy, KeepsSet;
    OldReadRun(pools, vpcs, p, i, j, n, m);
  }

  lemma OldReadRun(pools: map<string, VlanPool>, vpcs: seq<Vpc>, p: string, i: nat, j: nat, n: int, m: int)
    requires p in pools && pools[p].name == p && pools[p].Valid() && Distinct(vpcs) && PoolsValid(pools)
    requires i < |vpcs| && j < |vpcs| && i != j && vpcs[i].vlan == 0 && vpcs[j].vlan == 0 && n != 0 && m != n
    requires ServedBy(vpcs[i], pools[p]) && ServedBy(vpcs[j], pools[p])
    requires AllocationFor(pools[p], vpcs, vpcs[i].key) == Some(n) == AllocationFor(pools[p], vpcs, vpcs[j].key)
    requires var v := vpcs[i := vpcs[i].(vlan := n)]; AllocationFor(pools[p], v[j := v[j].(vlan := n)], vpcs[i].key) == Some(m)
    ensures var h := Run(pools, [vpcs], [Reconcile(vpcs[i].key, 0, 0), Reconcile(vpcs[j].key, 0, 0)]);
            !KeepsSet(Now(h), Step(pools, h, Reconcile(vpcs[i].key, 0, 2)), pools[p])
  {
    hide AllocationFor, TrimSpace, Step, Run, VlanPool.Valid, PoolsValid, ServedBy, KeepsSet;
    var v := vpcs[i := vpcs[i].(vlan := n)];
    var v2 := v[j := v[j].(vlan := n)];
    ReconcileFromFirst(pools, [vpcs], vpcs, i, p, n);
    ReconcileFromFirst(pools, [vpcs] + [v], vpcs, j, p, n);
    RunTwo(pools, [vpcs], Reconcile(vpcs[i].key, 0, 0), Reconcile(vpcs[j].key, 0, 0));
    ReadsFirst(pools, [vpcs] + [v] + [v2], vpcs, i, p, m);
    SamePool(vpcs[i], v2[i], pools[p]);
    NotKept(v2, i, m, pools[p]);
  }

  lemma NotKept(v: seq<Vpc>, i: nat, m: int, pool: VlanPool)
    requires i < |v| && ServedBy(v[i], pool) && v[i].vlan != 0 && v[i].vlan != m
    ensures !KeepsSet(v, v[i := v[i].(vlan := m)], pool)
  {
    hide TrimSpace;
  }

  lemma SamePool(v: Vpc, w: Vpc, pool: VlanPool)
    requires ServedBy(v, pool) && w.pool == v.pool
    ensures ServedBy(w, pool)
  {
  }

  /** A reconcile that reads the first state and lists the third. */
  lemma ReadsFirst(pools: map<string, VlanPool>, h: History, vpcs: seq<Vpc>, i: nat, p: string, m: int)
    requires PoolsValid(pools) && p in pools && |h| == 3 && h[0] == vpcs && Now(h) == h[2] && i < |vpcs| && Distinct(vpcs)
    requires |h[2]| == |vpcs| && forall k :: 0 <= k < |vpcs| ==> h[2][k].key == vpcs[k].key
    requires vpcs[i].vlan == 0 && ServedBy(vpcs[i], pools[p]) && AllocationFor(pools[p], h[2], vpcs[i].key) == Some(m)
    ensures Step(pools, h, Reconcile(vpcs[i].key, 0, 2)) == h[2][i := h[2][i].(vlan := m)]
  {
    IndexOfItem(vpcs, i);
    SameIndex(vpcs, h[2], vpcs[i].key);
    hide AllocationFor, TrimSpace;
  }

  /**
   * With reads and lists of any age, reconciles never change a VLAN of the pool that
   * is set exactly when at most one of its VPCs waits, or at most one number is free.
   */
  lemma OldReadsKeepExactly(pools: map<string, VlanPool>, vpcs: seq<Vpc>, p: string)
    requires PoolsValid(pools) && p in pools && Sound(pools[p], vpcs) && Plain(vpcs, pools[p])
    ensures AlwaysKept(pools, vpcs, pools[p]) <==> AtMostOneWaits(vpcs, pools[p]) || AtMostOneFree(pools[p], vpcs)
  {
    hide Step, FreeVlans, TrimSpace, KeepsSet, Run;
    if AtMostOneWaits(vpcs, pools[p]) {
      forall events, key, read, listed | OnlyReconciles(events)
        ensures KeepsSet(Now(Run(pools, [vpcs], events)), Step(pools, Run(pools, [vpcs], events), Reconcile(key, read, listed)), pools[p]) {
        StaleRunsAlike(pools, vpcs, events, p);
        AlikeKeepsSet(pools, Run(pools, [vpcs], events), vpcs, key, read, listed, p);
      }
    } else if AtMostOneFree(pools[p], vpcs) {
      forall events, key, read, listed | OnlyReconciles(events)
        ensures KeepsSet(Now(Run(pools, [vpcs], events)), Step(pools, Run(pools, [vpcs], events), Reconcile(key, read, listed)), pools[p]) {
        RunsFilled(pools, vpcs, events, p);
        StaysFilled(pools, Run(pools, [vpcs], events), vpcs, key, read, listed, p);
      }
    } else {
      var i, j :| 0 <= i < j < |vpcs| && ServedBy(vpcs[i], pools[p]) && ServedBy(vpcs[j], pools[p]) && !(vpcs[i].vlan != 0 || vpcs[j].vlan != 0);
      var x, y :| x in FreeVlans(pools[p], vpcs) && y in FreeVlans(pools[p], vpcs) && x != y;
      OldReadChanges(pools, vpcs, p, i, j, x, y);
      OnlyTwo(Reconcile(vpcs[i].key, 0, 0), Reconcile(vpcs[j].key, 0, 0));
    }
  }

  /** Two VPCs served from one list, neither seeing the other, get the same answer. */
  lemma SharedListCollides(pool: VlanPool, vpcs: seq<Vpc>, i: nat, j: nat)
    requires Distinct(vpcs) && i < |vpcs| && j < |vpcs| && i != j && vpcs[i].vlan == 0 && vpcs[j].vlan == 0
    ensures AllocationFor(pool, vpcs, vpcs[i].key) == AllocationFor(pool, vpcs, vpcs[j].key)
  {
    HeldWithout(vpcs, pool.name, i);
    HeldWithout(vpcs, pool.name, j);
  }
}
