// Runs of the floating IP controller: any number of floating IPs reconciled and
// deleted side by side, with other controllers claiming and releasing addresses, with
// claims removed from outside, and with requests and replies lost on the way.
//
// One object is worked on by one worker at a time. What the worker reads of the
// object may be old: any earlier status, any spec, any list of used addresses. The
// invariant takes a set x of claim names that outsiders may remove; with x empty it is
// the plain promise, and `FloatingIPOutside` says for which x the promise still holds.
module FloatingIPRuns {
  import opened MachineWords
  import opened Text
  import opened IPv4
  import opened Claims
  import opened FloatingIPs

  /** Every status written so far, and whether deletion has begun. */
  datatype Fip = Fip(history: seq<Status>, deleting: bool)
  {
    function Seen(age: nat): Status {
      if age >= |history| then Status("", 0) else history[|history| - 1 - age]
    }
  }

  datatype Work =
    | Ensuring(view: View, env: Env, phase: Ensure)
    | Recording(status: Status)
    | Looking(key: Key)
    | Listing
    | Deleting(pending: set<Key>)

  datatype Deletion = Deletion(remover: Owner, key: Key, claim: Claim)

  datatype World = World(store: Store, fips: map<Owner, Fip>, work: map<Owner, Work>, deletions: seq<Deletion>)
  {
    function WorkOf(o: Owner): Option<Work> {
      if o in work then Some(work[o]) else None
    }

    function With(o: Owner, next: Option<Work>): World {
      this.(work := if next.Some? then work[o := next.value] else work - {o})
    }
  }

  datatype Event =
    | Reconcile(o: Owner, spec: FipSpec, age: nat, env: Env)
    | BeginDelete(o: Owner, spec: FipSpec, age: nat)
    | Progress(o: Owner, fault: Fault, pick: Key)
    | Crash(o: Owner)
    | OtherClaims(client: Allocator, address: string)
    | OtherReleases(other: Owner, key: Key)
    | OutsideRemoves(key: Key)

  // ---------------------------------------------------------------- steps

  /** A settled call goes on to the status write, or gives up until the next reconcile. */
  function After(view: View, env: Env, e: Ensure): Option<Work> {
    match e
    case Settled(Leased(address, prefixLength)) => Some(Recording(Status(address, prefixLength)))
    case Settled(_) => None
    case NoPool => None
    case _ => Some(Ensuring(view, env, e))
  }

  predicate Ready(env: Env, e: Ensure) {
    env.Valid() && Waiting(e) && (e.Allocating? || e.AskOwned? ==> env.pool.Some?)
  }

  /** The claims of o, as a list over its namespace finds them. */
  function Mine(store: Store, o: Owner): set<Key> {
    set k | k in store && k.namespace == o.namespace && IsClaimedBy(store[k], o)
  }

  function StepEnsuring(w: World, o: Owner, view: View, env: Env, e: Ensure, fault: Fault): World
    requires Ready(env, e)
  {
    var (store, reply) := Serve(w.store, EnsureCall(o, view, env, e), fault);
    w.(store := store).With(o, After(view, env, EnsureNext(o, view, env, e, reply)))
  }

  function StepRecording(w: World, o: Owner, status: Status, fault: Fault): World
    requires o in w.fips
  {
    if fault == RequestLost then w.With(o, None)
    else w.(fips := w.fips[o := w.fips[o].(history := w.fips[o].history + [status])]).With(o, None)
  }

  function Finished(w: World, o: Owner): World {
    w.(fips := w.fips - {o}).With(o, None)
  }

  function StepLooking(w: World, o: Owner, key: Key, fault: Fault): World {
    if fault != NoFault then w.With(o, None)
    else if key in w.store && IsClaimedBy(w.store[key], o) then w.With(o, Some(Deleting({key})))
    else Finished(w, o)
  }

  function StepDeleting(w: World, o: Owner, pending: set<Key>, fault: Fault, pick: Key): World {
    if pending == {} then (if fault == RequestLost then w.With(o, None) else Finished(w, o))
    else if pick !in pending then w
    else if fault == RequestLost then w.With(o, None)
    else
      var removed :=
        if pick in w.store
        then w.(store := w.store - {pick}, deletions := w.deletions + [Deletion(o, pick, w.store[pick])])
        else w;
      removed.With(o, if fault == ReplyLost then None else Some(Deleting(pending - {pick})))
  }

  function StepOwn(w: World, o: Owner, fault: Fault, pick: Key): World
    requires o in w.work && o in w.fips
  {
    match w.work[o]
    case Ensuring(view, env, e) => if Ready(env, e) then StepEnsuring(w, o, view, env, e, fault) else w
    case Recording(status) => StepRecording(w, o, status, fault)
    case Looking(key) => StepLooking(w, o, key, fault)
    case Listing => w.With(o, if fault == NoFault then Some(Deleting(Mine(w.store, o))) else None)
    case Deleting(pending) => StepDeleting(w, o, pending, fault, pick)
  }

  /** Where `deleteOwnedIPAddress` starts. */
  function DeleteStart(o: Owner, view: View): Work {
    if view.Recorded() != "" then Looking(FloatingIPs.KeyOf(o, view.Recorded()))
    else if TrimSpace(view.spec.address) != "" then Looking(FloatingIPs.KeyOf(o, TrimSpace(view.spec.address)))
    else Listing
  }

  ghost function Step(c: Cluster, w: World, event: Event): World {
    match event
    case Reconcile(o, spec, age, env) =>
      if o in w.fips && o !in w.work && env.Valid() && ValidSpec(spec, env.ipv6) then
        var view := View(spec, w.fips[o].Seen(age));
        w.With(o, After(view, env, EnsureStart(o, view, env)))
      else w
    case BeginDelete(o, spec, age) =>
      if o in w.fips && o !in w.work then
        w.(fips := w.fips[o := w.fips[o].(deleting := true)]).With(o, Some(DeleteStart(o, View(spec, w.fips[o].Seen(age)))))
      else w
    case Progress(o, fault, pick) =>
      if o in w.work && o in w.fips then StepOwn(w, o, fault, pick) else w
    case Crash(o) => w.With(o, None)
    case OtherClaims(client, address) =>
      if client.owner in c.owners && Canonical(address) && client.KeyOf(address) !in w.store
      then w.(store := w.store[client.KeyOf(address) := client.NewClaim(address)])
      else w
    case OtherReleases(other, key) =>
      if other in c.owners && other !in w.fips && Holds(w.store, other, key)
      then w.(store := w.store - {key})
      else w
    case OutsideRemoves(key) => w.(store := w.store - {key})
  }

  ghost function Steps(c: Cluster, w: World, events: seq<Event>): World
    decreases |events|
  {
    if events == [] then w
    else Step(c, Steps(c, w, events[..|events| - 1]), events[|events| - 1])
  }

  lemma {:induction false} RunAppend(c: Cluster, w: World, front: seq<Event>, tail: seq<Event>)
    ensures Steps(c, w, front + tail) == Steps(c, Steps(c, w, front), tail)
    decreases |tail|
  {
    if tail == [] {
      assert front + tail == front;
    } else {
      FrontAndLast(front, tail);
      var init, last := tail[..|tail| - 1], tail[|tail| - 1];
      assert (front + init + [last])[..|front + init|] == front + init;
      hide Step;
      RunAppend(c, w, front, init);
    }
  }

  lemma RunOne(c: Cluster, w: World, event: Event)
    ensures Steps(c, w, [event]) == Step(c, w, event)
  {
    hide Step;
    assert [event][..0] == [];
    assert Steps(c, w, []) == w;
  }

  lemma RunMore(c: Cluster, w: World, event: Event, events: seq<Event>)
    ensures Steps(c, w, [event] + events) == Steps(c, Step(c, w, event), events)
  {
    RunAppend(c, w, [event], events);
    RunOne(c, w, event);
    hide Step, Steps;
  }

  // ---------------------------------------------------------------- the invariant

  /** A live claim of o's, in o's namespace. */
  predicate Holds(store: Store, o: Owner, key: Key) {
    key.namespace == o.namespace && key in store && IsClaimedBy(store[key], o)
  }

  /** The same for a name nobody else removes; `x` are the names somebody may remove. */
  predicate Kept(x: set<Key>, store: Store, o: Owner, key: Key) {
    key.namespace == o.namespace && (key in x || Holds(store, o, key))
  }

  predicate Backed(x: set<Key>, store: Store, o: Owner, address: string) {
    Canonical(address) && Kept(x, store, o, FloatingIPs.KeyOf(o, address))
  }

  /** Until its deletion begins, every address a floating IP has recorded is its own. */
  predicate FipInv(x: set<Key>, store: Store, o: Owner, fip: Fip) {
    !fip.deleting ==> forall i :: 0 <= i < |fip.history| ==> Backed(x, store, o, fip.history[i].address)
  }

  ghost predicate WorkInv(x: set<Key>, store: Store, o: Owner, deleting: bool, work: Work) {
    match work
    case Ensuring(view, env, e) =>
      && Ready(env, e)
      && (e.AskRecorded? || e.AskOwned? ==> view.Recorded() != "")
      && (e.Allocating? ==> PcInv(AllocatorOf(o, view, env.pool.value), e.pc))
      && (!deleting && view.Recorded() != "" ==> Backed(x, store, o, view.Recorded()))
    case Recording(status) => !deleting ==> Backed(x, store, o, status.address)
    case Looking(key) => deleting && key.namespace == o.namespace
    case Listing => deleting
    case Deleting(pending) => deleting && forall k :: k in pending ==> Kept(x, store, o, k)
  }

  ghost predicate OwnerInv(x: set<Key>, store: Store, o: Owner, fip: Fip, work: Option<Work>) {
    FipInv(x, store, o, fip) && (work.Some? ==> WorkInv(x, store, o, fip.deleting, work.value))
  }

  /** A claim a deletion removed belonged to the floating IP being deleted, or its name is in x. */
  ghost predicate Proper(c: Cluster, x: set<Key>, d: Deletion) {
    && d.key.namespace == d.remover.namespace && WellNamed(c, d.key, d.claim)
    && (d.key in x || IsClaimedBy(d.claim, d.remover))
  }

  ghost predicate DeletionsProper(c: Cluster, x: set<Key>, deletions: seq<Deletion>) {
    forall i :: 0 <= i < |deletions| ==> Proper(c, x, deletions[i])
  }

  ghost predicate WorldInv(c: Cluster, x: set<Key>, w: World) {
    && StoreInv(c, w.store)
    && (forall o :: o in w.work ==> o in w.fips)
    && (forall o :: o in w.fips ==> o in c.owners && OwnerInv(x, w.store, o, w.fips[o], w.WorkOf(o)))
    && DeletionsProper(c, x, w.deletions)
  }

  // ---------------------------------------------------------------- what a store change leaves alone

  ghost predicate KeepsFor(x: set<Key>, before: Store, after: Store, o: Owner) {
    forall k :: Kept(x, before, o, k) ==> Kept(x, after, o, k)
  }

  lemma OwnerInvKept(x: set<Key>, before: Store, after: Store, o: Owner, fip: Fip, work: Option<Work>)
    requires OwnerInv(x, before, o, fip, work) && KeepsFor(x, before, after, o)
    ensures OwnerInv(x, after, o, fip, work)
  {
    hide Holds, Ready, PcInv, Canonical;
  }

  lemma GrowthKeeps(x: set<Key>, before: Store, after: Store, o: Owner)
    requires forall k :: k in before ==> k in after && after[k] == before[k]
    ensures KeepsFor(x, before, after, o)
  {
    hide IsClaimedBy;
  }

  /** Nobody but its owner holds a claim, so removing it takes nothing from another. */
  lemma RemovalKeeps(c: Cluster, x: set<Key>, store: Store, remover: Owner, key: Key, o: Owner)
    requires c.Valid() && StoreInv(c, store) && o in c.owners && remover in c.owners && o != remover
    requires Holds(store, remover, key)
    ensures KeepsFor(x, store, store - {key}, o)
  {
    if Holds(store, o, key) {
      SoleOwner(c, key, store[key], o, remover);
      assert false;
    }
    hide IsClaimedBy;
  }

  /** A name in x promises nothing, so removing its claim breaks no promise. */
  lemma ExposedKeeps(x: set<Key>, store: Store, key: Key, o: Owner)
    requires key in x
    ensures KeepsFor(x, store, store - {key}, o)
  {
    hide IsClaimedBy;
  }

  lemma StoreShrinks(c: Cluster, store: Store, key: Key)
    requires StoreInv(c, store)
    ensures StoreInv(c, store - {key})
  {
    hide WellNamed;
  }

  // ---------------------------------------------------------------- steps of one owner

  lemma CanonicalIsTrimmed(address: string)
    requires Canonical(address)
    ensures TrimSpace(address) == address && address != ""
  {
    CanonicalIsRendered(address);
    var n: U32 :| address == Render(n);
    RenderShape(n);
    TrimOfTrimmed(address, GoSpace);
  }

  /** Every phase a call can go to next keeps the invariant. */
  lemma AfterKeeps(x: set<Key>, store: Store, o: Owner, deleting: bool, view: View, env: Env, e: Ensure)
    requires env.Valid()
    requires !deleting && view.Recorded() != "" ==> Backed(x, store, o, view.Recorded())
    requires e.Allocating? ==> !e.pc.Done? && env.pool.Some? && PcInv(AllocatorOf(o, view, env.pool.value), e.pc)
    requires e.AskOwned? ==> env.pool.Some?
    requires e.AskRecorded? || e.AskOwned? ==> view.Recorded() != ""
    requires e.Settled? && e.outcome.Leased? && !deleting ==> Backed(x, store, o, e.outcome.address)
    ensures After(view, env, e).Some? ==> WorkInv(x, store, o, deleting, After(view, env, e).value)
  {
    hide Backed, PcInv;
  }

  lemma ChooseFits(o: Owner, view: View, env: Env)
    requires env.Valid()
    ensures var e := Choose(o, view, env);
            && (e.Allocating? ==> !e.pc.Done? && env.pool.Some? && PcInv(AllocatorOf(o, view, env.pool.value), e.pc))
            && (e.AskOwned? ==> env.pool.Some? && view.Recorded() != "")
            && !e.AskRecorded?
            && !(e.Settled? && e.outcome.Leased?)
  {
    hide TrimSpace, Start, PcInv;
    if env.pool.Some? {
      StartInv(AllocatorOf(o, view, env.pool.value), env.used, env.ipv6);
    }
  }

  lemma AskEffect(x: set<Key>, store: Store, o: Owner, deleting: bool, view: View, env: Env, e: Ensure, reply: Reply)
    requires WorkInv(x, store, o, deleting, Ensuring(view, env, e)) && !e.Allocating?
    ensures var next := After(view, env, EnsureNext(o, view, env, e, reply));
            next.Some? ==> WorkInv(x, store, o, deleting, next.value)
  {
    ChooseFits(o, view, env);
    if e.AskOwned? {
      StartInv(AllocatorOf(o, view, env.pool.value), e.used, env.ipv6);
    }
    hide Choose, Backed, PcInv, IsClaimedBy, Start, TrimSpace;
    AfterKeeps(x, store, o, deleting, view, env, EnsureNext(o, view, env, e, reply));
  }

  lemma AllocatingEffect(c: Cluster, x: set<Key>, store: Store, o: Owner, deleting: bool, view: View, env: Env, e: Ensure, fault: Fault)
    requires o in c.owners && StoreInv(c, store) && e.Allocating?
    requires WorkInv(x, store, o, deleting, Ensuring(view, env, e))
    ensures var (store', reply) := Serve(store, EnsureCall(o, view, env, e), fault);
            var next := After(view, env, EnsureNext(o, view, env, e, reply));
            && StoreInv(c, store')
            && (forall k :: k in store ==> k in store' && store'[k] == store[k])
            && (next.Some? ==> WorkInv(x, store', o, deleting, next.value))
  {
    var a := AllocatorOf(o, view, env.pool.value);
    var (store', reply) := Serve(store, Call(a, e.pc), fault);
    AdvanceEffect(c, a, e.pc, store, fault);
    NextInv(a, e.pc, reply);
    GrowthKeeps(x, store, store', o);
    hide Serve, Call, Next, PcInv, IsClaimedBy, Canonical, StoreInv, TrimSpace, AddressObjectName;
    AfterKeeps(x, store', o, deleting, view, env, EnsureNext(o, view, env, e, reply));
  }

  /** One request of a call: the store only grows, and a lease it reports is backed. */
  lemma EnsureEffect(c: Cluster, x: set<Key>, store: Store, o: Owner, deleting: bool, view: View, env: Env, e: Ensure, fault: Fault)
    requires o in c.owners && StoreInv(c, store)
    requires WorkInv(x, store, o, deleting, Ensuring(view, env, e))
    ensures var (store', reply) := Serve(store, EnsureCall(o, view, env, e), fault);
            var next := After(view, env, EnsureNext(o, view, env, e, reply));
            && StoreInv(c, store')
            && (forall k :: k in store ==> k in store' && store'[k] == store[k])
            && (next.Some? ==> WorkInv(x, store', o, deleting, next.value))
  {
    if e.Allocating? {
      AllocatingEffect(c, x, store, o, deleting, view, env, e, fault);
    } else {
      var (store', reply) := Serve(store, EnsureCall(o, view, env, e), fault);
      assert store' == store;
      AskEffect(x, store, o, deleting, view, env, e, reply);
    }
  }

  // ---------------------------------------------------------------- every step

  /** A step that only changes o's entries keeps the invariant when o's own part holds. */
  lemma OwnStep(c: Cluster, x: set<Key>, w: World, v: World, o: Owner)
    requires WorldInv(c, x, w) && o in w.fips
    requires StoreInv(c, v.store) && DeletionsProper(c, x, v.deletions)
    requires v.fips - {o} == w.fips - {o} && v.work - {o} == w.work - {o}
    requires forall p :: p in w.fips && p != o ==> KeepsFor(x, w.store, v.store, p)
    requires o in v.work ==> o in v.fips
    requires o in v.fips ==> OwnerInv(x, v.store, o, v.fips[o], v.WorkOf(o))
    ensures WorldInv(c, x, v)
  {
    hide StoreInv, OwnerInv, DeletionsProper, KeepsFor;
    forall p | p in v.work ensures p in v.fips {
      if p != o {
        assert p in v.work - {o};
        assert p in w.fips - {o};
      }
    }
    forall p | p in v.fips ensures p in c.owners && OwnerInv(x, v.store, p, v.fips[p], v.WorkOf(p)) {
      if p != o {
        assert p in v.fips - {o};
        assert p in w.fips && v.fips[p] == (v.fips - {o})[p] == w.fips[p];
        assert p in v.work <==> p in v.work - {o};
        assert v.WorkOf(p) == w.WorkOf(p);
        OwnerInvKept(x, w.store, v.store, p, w.fips[p], w.WorkOf(p));
      }
    }
  }

  lemma SameStore(x: set<Key>, store: Store)
    ensures forall p: Owner :: KeepsFor(x, store, store, p)
  {
  }

  /** A reconcile starts in a phase that keeps the invariant. */
  lemma StartFits(x: set<Key>, store: Store, o: Owner, fip: Fip, view: View, env: Env, age: nat)
    requires env.Valid() && FipInv(x, store, o, fip) && view.status == fip.Seen(age)
    ensures var next := After(view, env, EnsureStart(o, view, env));
            next.Some? ==> WorkInv(x, store, o, fip.deleting, next.value)
  {
    if !fip.deleting {
      SeenBacked(x, store, o, fip, age);
    }
    ChooseFits(o, view, env);
    hide Choose, Backed, PcInv, FipInv, TrimSpace, Waiting;
    AfterKeeps(x, store, o, fip.deleting, view, env, EnsureStart(o, view, env));
  }

  lemma ReconcileKeeps(c: Cluster, x: set<Key>, w: World, o: Owner, spec: FipSpec, age: nat, env: Env)
    requires c.Valid() && WorldInv(c, x, w)
    ensures WorldInv(c, x, Step(c, w, Reconcile(o, spec, age, env)))
  {
    if o in w.fips && o !in w.work && env.Valid() && ValidSpec(spec, env.ipv6) {
      var fip := w.fips[o];
      var view := View(spec, fip.Seen(age));
      var next := After(view, env, EnsureStart(o, view, env));
      assert w.With(o, next) == Step(c, w, Reconcile(o, spec, age, env));
      StartFits(x, w.store, o, fip, view, env, age);
      hide ValidSpec, Step, StoreInv, After, EnsureStart, FipInv, WorkInv, DeletionsProper, TrimSpace;
      NewWork(c, x, w, o, next);
    }
  }

  /** Replacing o's work, and nothing else. */
  lemma NewWork(c: Cluster, x: set<Key>, w: World, o: Owner, next: Option<Work>)
    requires WorldInv(c, x, w) && o in w.fips
    requires next.Some? ==> WorkInv(x, w.store, o, w.fips[o].deleting, next.value)
    ensures WorldInv(c, x, w.With(o, next))
  {
    SameStore(x, w.store);
    hide StoreInv, FipInv, WorkInv, DeletionsProper, KeepsFor;
    var v := w.With(o, next);
    assert v.work - {o} == w.work - {o};
    assert OwnerInv(x, w.store, o, w.fips[o], w.WorkOf(o));
    OwnStep(c, x, w, v, o);
  }

  /** What a worker reads of the status is nothing, or an address its owner holds. */
  lemma SeenBacked(x: set<Key>, store: Store, o: Owner, fip: Fip, age: nat)
    requires FipInv(x, store, o, fip) && !fip.deleting
    ensures TrimSpace(fip.Seen(age).address) != "" ==> Backed(x, store, o, TrimSpace(fip.Seen(age).address))
  {
    assert TrimSpace("") == "";
    hide Holds, TrimSpace, Canonical;
    if age < |fip.history| {
      assert Backed(x, store, o, fip.history[|fip.history| - 1 - age].address);
      CanonicalIsTrimmed(fip.history[|fip.history| - 1 - age].address);
    }
  }

  lemma BeginDeleteKeeps(c: Cluster, x: set<Key>, w: World, o: Owner, spec: FipSpec, age: nat)
    requires WorldInv(c, x, w)
    ensures WorldInv(c, x, Step(c, w, BeginDelete(o, spec, age)))
  {
    if o in w.fips && o !in w.work {
      var v := Step(c, w, BeginDelete(o, spec, age));
      SameStore(x, w.store);
      assert OwnerInv(x, v.store, o, v.fips[o], v.WorkOf(o));
      hide StoreInv, OwnerInv, DeletionsProper, KeepsFor, DeleteStart;
      OwnStep(c, x, w, v, o);
    }
  }

  lemma EnsuringKeeps(c: Cluster, x: set<Key>, w: World, o: Owner, view: View, env: Env, e: Ensure, fault: Fault)
    requires WorldInv(c, x, w) && o in w.fips && o in w.work && w.work[o] == Ensuring(view, env, e)
    ensures Ready(env, e) && WorldInv(c, x, StepEnsuring(w, o, view, env, e, fault))
  {
    assert WorkInv(x, w.store, o, w.fips[o].deleting, Ensuring(view, env, e)) by {
      hide WorkInv, FipInv, StoreInv, DeletionsProper;
      assert OwnerInv(x, w.store, o, w.fips[o], w.WorkOf(o));
    }
    EnsureEffect(c, x, w.store, o, w.fips[o].deleting, view, env, e, fault);
    var store := Serve(w.store, EnsureCall(o, view, env, e), fault).0;
    forall p ensures KeepsFor(x, w.store, store, p) {
      GrowthKeeps(x, w.store, store, p);
    }
    var next := After(view, env, EnsureNext(o, view, env, e, Serve(w.store, EnsureCall(o, view, env, e), fault).1));
    assert StepEnsuring(w, o, view, env, e, fault) == w.(store := store).With(o, next);
    hide Serve, EnsureCall, EnsureNext, After, WorkInv, KeepsFor, StoreInv, DeletionsProper, StepEnsuring;
    NewStore(c, x, w, store, o);
    NewWork(c, x, w.(store := store), o, next);
  }

  /** A store that takes nothing from anybody. */
  lemma NewStore(c: Cluster, x: set<Key>, w: World, store: Store, o: Owner)
    requires WorldInv(c, x, w) && StoreInv(c, store) && forall p :: KeepsFor(x, w.store, store, p)
    ensures WorldInv(c, x, w.(store := store))
  {
    hide StoreInv, OwnerInv, DeletionsProper, KeepsFor;
    var v := w.(store := store);
    forall p | p in v.fips ensures OwnerInv(x, store, p, v.fips[p], v.WorkOf(p)) {
      assert v.WorkOf(p) == w.WorkOf(p);
      OwnerInvKept(x, w.store, store, p, w.fips[p], w.WorkOf(p));
    }
  }

  lemma RecordingKeeps(c: Cluster, x: set<Key>, w: World, o: Owner, status: Status, fault: Fault)
    requires WorldInv(c, x, w) && o in w.fips && o in w.work && w.work[o] == Recording(status)
    ensures WorldInv(c, x, StepRecording(w, o, status, fault))
  {
    var v := StepRecording(w, o, status, fault);
    SameStore(x, w.store);
    assert OwnerInv(x, w.store, o, w.fips[o], w.WorkOf(o));
    hide Backed, StoreInv, DeletionsProper, KeepsFor;
    assert OwnerInv(x, v.store, o, v.fips[o], v.WorkOf(o));
    hide OwnerInv;
    OwnStep(c, x, w, v, o);
  }

  /** A floating IP whose deletion is complete leaves the picture. */
  lemma FinishKeeps(c: Cluster, x: set<Key>, w: World, o: Owner)
    requires WorldInv(c, x, w) && o in w.fips
    ensures WorldInv(c, x, Finished(w, o))
  {
    SameStore(x, w.store);
    hide StoreInv, OwnerInv, DeletionsProper, KeepsFor;
    var v := Finished(w, o);
    assert v.fips - {o} == w.fips - {o} && v.work - {o} == w.work - {o};
    OwnStep(c, x, w, v, o);
  }

  lemma DropKeeps(c: Cluster, x: set<Key>, w: World, o: Owner)
    requires WorldInv(c, x, w)
    ensures WorldInv(c, x, w.With(o, None))
  {
    hide StoreInv, WorkInv, FipInv, DeletionsProper;
    if o in w.fips {
      NewWork(c, x, w, o, None);
    } else {
      assert w.With(o, None) == w;
    }
  }

  lemma LookingKeeps(c: Cluster, x: set<Key>, w: World, o: Owner, key: Key, fault: Fault)
    requires WorldInv(c, x, w) && o in w.fips && o in w.work && w.work[o] == Looking(key)
    ensures WorldInv(c, x, StepLooking(w, o, key, fault))
  {
    DropKeeps(c, x, w, o);
    FinishKeeps(c, x, w, o);
    assert OwnerInv(x, w.store, o, w.fips[o], w.WorkOf(o));
    if fault == NoFault && key in w.store && IsClaimedBy(w.store[key], o) {
      hide WorldInv, IsClaimedBy;
      NewWork(c, x, w, o, Some(Deleting({key})));
    }
  }

  lemma ListingKeeps(c: Cluster, x: set<Key>, w: World, o: Owner)
    requires WorldInv(c, x, w) && o in w.fips && o in w.work && w.work[o] == Listing
    ensures WorldInv(c, x, w.With(o, Some(Deleting(Mine(w.store, o)))))
  {
    assert OwnerInv(x, w.store, o, w.fips[o], w.WorkOf(o));
    hide WorldInv, IsClaimedBy;
    NewWork(c, x, w, o, Some(Deleting(Mine(w.store, o))));
  }

  lemma DeletingOwnerInv(x: set<Key>, store: Store, o: Owner, fip: Fip, pending: set<Key>)
    requires fip.deleting && forall k :: k in pending ==> Kept(x, store, o, k)
    ensures OwnerInv(x, store, o, fip, None) && OwnerInv(x, store, o, fip, Some(Deleting(pending)))
  {
    hide Kept, Backed;
  }

  lemma PendingShrinks(x: set<Key>, store: Store, o: Owner, pending: set<Key>, pick: Key)
    requires forall k :: k in pending ==> Kept(x, store, o, k)
    ensures forall k :: k in pending - {pick} ==> Kept(x, store - {pick}, o, k)
  {
    hide IsClaimedBy;
  }

  lemma MoreDeletions(c: Cluster, x: set<Key>, deletions: seq<Deletion>, d: Deletion)
    requires DeletionsProper(c, x, deletions) && Proper(c, x, d)
    ensures DeletionsProper(c, x, deletions + [d])
  {
    hide Proper;
  }

  lemma PendingHeld(c: Cluster, x: set<Key>, w: World, o: Owner, pending: set<Key>)
    requires WorldInv(c, x, w) && o in w.fips && o in w.work && w.work[o] == Deleting(pending)
    ensures w.fips[o].deleting && o in c.owners && forall k :: k in pending ==> Kept(x, w.store, o, k)
  {
    hide StoreInv, FipInv, Kept, DeletionsProper;
    assert OwnerInv(x, w.store, o, w.fips[o], w.WorkOf(o));
  }

  /** Removing a claim o holds, or one whose name is in x, takes nothing from the others. */
  lemma OthersUnharmed(c: Cluster, x: set<Key>, w: World, remover: Owner, key: Key)
    requires c.Valid() && WorldInv(c, x, w) && remover in c.owners && (key in x || Holds(w.store, remover, key))
    ensures StoreInv(c, w.store - {key})
    ensures forall p :: p in w.fips && p != remover ==> KeepsFor(x, w.store, w.store - {key}, p)
  {
    hide StoreInv, Holds, KeepsFor, OwnerInv, DeletionsProper;
    StoreShrinks(c, w.store, key);
    forall p | p in w.fips && p != remover ensures KeepsFor(x, w.store, w.store - {key}, p) {
      if key in x {
        ExposedKeeps(x, w.store, key, p);
      } else {
        RemovalKeeps(c, x, w.store, remover, key, p);
      }
    }
  }

  lemma WithLeavesOthers(w: World, o: Owner, next: Option<Work>)
    ensures w.With(o, next).work - {o} == w.work - {o}
    ensures w.With(o, next).WorkOf(o) == next
  {
  }

  /** One deletion: it takes o's own claim or one whose name is in x, so nobody else loses anything. */
  lemma DeletedKeeps(c: Cluster, x: set<Key>, w: World, o: Owner, pending: set<Key>, pick: Key, next: Option<Work>)
    requires c.Valid() && WorldInv(c, x, w) && o in w.fips && o in w.work && w.work[o] == Deleting(pending)
    requires pick in pending && pick in w.store && next in {None, Some(Deleting(pending - {pick}))}
    ensures WorldInv(c, x, w.(store := w.store - {pick}, deletions := w.deletions + [Deletion(o, pick, w.store[pick])]).With(o, next))
  {
    PendingHeld(c, x, w, o, pending);
    assert Kept(x, w.store, o, pick);
    assert Proper(c, x, Deletion(o, pick, w.store[pick])) by { hide OwnerInv, DeletionsProper, WellNamed, IsClaimedBy; }
    hide StoreInv, Kept, KeepsFor, OwnerInv, IsClaimedBy, Proper;
    OthersUnharmed(c, x, w, o, pick);
    PendingShrinks(x, w.store, o, pending, pick);
    DeletingOwnerInv(x, w.store - {pick}, o, w.fips[o], pending - {pick});
    MoreDeletions(c, x, w.deletions, Deletion(o, pick, w.store[pick]));
    var v := w.(store := w.store - {pick}, deletions := w.deletions + [Deletion(o, pick, w.store[pick])]).With(o, next);
    WithLeavesOthers(w, o, next);
    assert v.WorkOf(o) == next;
    hide DeletionsProper, WorldInv;
    assert v.fips == w.fips && v.work == w.With(o, next).work;
    OwnStep(c, x, w, v, o);
  }

  /** The claim was gone already. */
  lemma MissedKeeps(c: Cluster, x: set<Key>, w: World, o: Owner, pending: set<Key>, pick: Key)
    requires c.Valid() && WorldInv(c, x, w) && o in w.fips && o in w.work && w.work[o] == Deleting(pending)
    ensures WorldInv(c, x, w.With(o, Some(Deleting(pending - {pick}))))
  {
    PendingHeld(c, x, w, o, pending);
    hide WorldInv, Kept;
    NewWork(c, x, w, o, Some(Deleting(pending - {pick})));
  }

  lemma DeletingKeeps(c: Cluster, x: set<Key>, w: World, o: Owner, pending: set<Key>, fault: Fault, pick: Key)
    requires c.Valid() && WorldInv(c, x, w) && o in w.fips && o in w.work && w.work[o] == Deleting(pending)
    ensures WorldInv(c, x, StepDeleting(w, o, pending, fault, pick))
  {
    DropKeeps(c, x, w, o);
    FinishKeeps(c, x, w, o);
    if pick in pending && fault != RequestLost {
      if pick in w.store {
        DeletedKeeps(c, x, w, o, pending, pick, if fault == ReplyLost then None else Some(Deleting(pending - {pick})));
      } else {
        MissedKeeps(c, x, w, o, pending, pick);
      }
    }
    hide WorldInv, Finished, Holds;
  }

  lemma OtherClaimsKeeps(c: Cluster, x: set<Key>, w: World, client: Allocator, address: string)
    requires WorldInv(c, x, w) && client.owner in c.owners && Canonical(address) && client.KeyOf(address) !in w.store
    ensures WorldInv(c, x, w.(store := w.store[client.KeyOf(address) := client.NewClaim(address)]))
  {
    var key, claim := client.KeyOf(address), client.NewClaim(address);
    var store := w.store[key := claim];
    CreatedIsWellNamed(c, client, address);
    hide WellNamed, Canonical, AddressObjectName, OwnerInv, DeletionsProper, KeepsFor;
    assert StoreInv(c, store);
    forall p ensures KeepsFor(x, w.store, store, p) {
      GrowthKeeps(x, w.store, store, p);
    }
    hide StoreInv;
    NewStore(c, x, w, store, client.owner);
  }

  lemma OtherReleasesKeeps(c: Cluster, x: set<Key>, w: World, other: Owner, key: Key)
    requires c.Valid() && WorldInv(c, x, w) && other in c.owners && other !in w.fips && Holds(w.store, other, key)
    ensures WorldInv(c, x, w.(store := w.store - {key}))
  {
    hide StoreInv, Holds, OwnerInv, KeepsFor, DeletionsProper;
    OthersUnharmed(c, x, w, other, key);
    var v := w.(store := w.store - {key});
    forall p | p in v.fips ensures OwnerInv(x, v.store, p, v.fips[p], v.WorkOf(p)) {
      assert v.WorkOf(p) == w.WorkOf(p);
      OwnerInvKept(x, w.store, v.store, p, w.fips[p], w.WorkOf(p));
    }
  }

  lemma RemoveKeeps(c: Cluster, x: set<Key>, w: World, key: Key)
    requires c.Valid() && WorldInv(c, x, w) && key in x
    ensures WorldInv(c, x, w.(store := w.store - {key}))
  {
    hide StoreInv, Holds, OwnerInv, KeepsFor, DeletionsProper;
    StoreShrinks(c, w.store, key);
    var v := w.(store := w.store - {key});
    forall p | p in v.fips ensures OwnerInv(x, v.store, p, v.fips[p], v.WorkOf(p)) {
      assert v.WorkOf(p) == w.WorkOf(p);
      ExposedKeeps(x, w.store, key, p);
      OwnerInvKept(x, w.store, v.store, p, w.fips[p], w.WorkOf(p));
    }
  }

  /** Only names in x are removed by others than the owner of the claim. */
  predicate Within(x: set<Key>, event: Event) {
    event.OutsideRemoves? ==> event.key in x
  }

  lemma OthersKeep(c: Cluster, x: set<Key>, w: World, event: Event)
    requires c.Valid() && WorldInv(c, x, w) && (event.OtherClaims? || event.OtherReleases? || event.OutsideRemoves?) && Within(x, event)
    ensures WorldInv(c, x, Step(c, w, event))
  {
    hide WorldInv, Canonical, AddressObjectName, Holds;
    match event
    case OtherClaims(client, address) =>
      if client.owner in c.owners && Canonical(address) && client.KeyOf(address) !in w.store {
        OtherClaimsKeeps(c, x, w, client, address);
      }
    case OtherReleases(other, key) =>
      if other in c.owners && other !in w.fips && Holds(w.store, other, key) {
        OtherReleasesKeeps(c, x, w, other, key);
      }
    case OutsideRemoves(key) => RemoveKeeps(c, x, w, key);
  }

  lemma StepKeepsInv(c: Cluster, x: set<Key>, w: World, event: Event)
    requires c.Valid() && WorldInv(c, x, w) && Within(x, event)
    ensures WorldInv(c, x, Step(c, w, event))
  {
    hide StoreInv, OwnerInv, DeletionsProper, StepEnsuring, StepRecording, StepLooking, StepDeleting, Finished, Holds, Mine, Ready;
    match event
    case Reconcile(o, spec, age, env) => ReconcileKeeps(c, x, w, o, spec, age, env);
    case BeginDelete(o, spec, age) => BeginDeleteKeeps(c, x, w, o, spec, age);
    case Crash(o) => DropKeeps(c, x, w, o);
    case OtherClaims(_, _) => OthersKeep(c, x, w, event);
    case OtherReleases(_, _) => OthersKeep(c, x, w, event);
    case OutsideRemoves(_) => OthersKeep(c, x, w, event);
    case Progress(o, fault, pick) =>
      if o in w.work && o in w.fips {
        match w.work[o]
        case Ensuring(view, env, e) => EnsuringKeeps(c, x, w, o, view, env, e, fault);
        case Recording(status) => RecordingKeeps(c, x, w, o, status, fault);
        case Looking(key) => LookingKeeps(c, x, w, o, key, fault);
        case Listing =>
          DropKeeps(c, x, w, o);
          ListingKeeps(c, x, w, o);
        case Deleting(pending) => DeletingKeeps(c, x, w, o, pending, fault, pick);
      }
  }

  // ---------------------------------------------------------------- safety over runs

  /** Nobody but the owner of a claim removes it, unless its name is in x. */
  predicate AllWithin(x: set<Key>, events: seq<Event>) {
    forall i :: 0 <= i < |events| ==> Within(x, events[i])
  }

  lemma {:induction false} RunKeepsInv(c: Cluster, x: set<Key>, w: World, events: seq<Event>)
    requires c.Valid() && WorldInv(c, x, w) && AllWithin(x, events)
    ensures WorldInv(c, x, Steps(c, w, events))
    decreases |events|
  {
    hide WorldInv, Step, Within;
    if events != [] {
      RunKeepsInv(c, x, w, events[..|events| - 1]);
      StepKeepsInv(c, x, Steps(c, w, events[..|events| - 1]), events[|events| - 1]);
    }
  }

  /** A world where nothing has been reconciled yet. */
  predicate Fresh(c: Cluster, w: World) {
    && w.store == map[] && w.work == map[] && w.deletions == []
    && forall o :: o in w.fips ==> o in c.owners && w.fips[o] == Fip([], false)
  }

  lemma FreshInv(c: Cluster, x: set<Key>, w: World)
    requires Fresh(c, w)
    ensures WorldInv(c, x, w)
  {
  }

  lemma OneHolder(c: Cluster, store: Store, key: Key, o: Owner, p: Owner)
    requires c.Valid() && StoreInv(c, store) && o in c.owners && p in c.owners
    requires Holds(store, o, key) && Holds(store, p, key)
    ensures o == p
  {
    SoleOwner(c, key, store[key], o, p);
  }

  /**
   * Over every run in which outsiders remove only names in x: an address recorded for
   * a floating IP that is not being deleted is backed by a live claim of its own, and
   * no two floating IPs of one namespace have recorded the same address, unless the
   * name of its claim is in x.
   */
  lemma RecordedIsOwn(c: Cluster, x: set<Key>, w: World, events: seq<Event>, o: Owner, i: nat)
    requires c.Valid() && Fresh(c, w) && AllWithin(x, events)
    requires var v := Steps(c, w, events); o in v.fips && !v.fips[o].deleting && i < |v.fips[o].history|
    ensures var v := Steps(c, w, events); Backed(x, v.store, o, v.fips[o].history[i].address)
    ensures var v := Steps(c, w, events); var address := v.fips[o].history[i].address;
            FloatingIPs.KeyOf(o, address) !in x ==>
              forall p, j :: p in v.fips && p != o && p.namespace == o.namespace && !v.fips[p].deleting && 0 <= j < |v.fips[p].history|
                ==> v.fips[p].history[j].address != address
  {
    FreshInv(c, x, w);
    RunKeepsInv(c, x, w, events);
    hide Fresh, Steps, IsClaimedBy, Canonical, WorkInv, Mine;
    var v := Steps(c, w, events);
    assert OwnerInv(x, v.store, o, v.fips[o], v.WorkOf(o));
    var address := v.fips[o].history[i].address;
    var key := FloatingIPs.KeyOf(o, address);
    if key !in x {
      forall p, j | p in v.fips && p != o && p.namespace == o.namespace && !v.fips[p].deleting && 0 <= j < |v.fips[p].history|
        ensures v.fips[p].history[j].address != address {
        assert OwnerInv(x, v.store, p, v.fips[p], v.WorkOf(p));
        if v.fips[p].history[j].address == address {
          OneHolder(c, v.store, key, o, p);
        }
      }
    }
  }

  /**
   * Over every such run, deletion removes claims of the floating IP being deleted and
   * no other, unless the name is in x.
   */
  lemma DeletionTakesOnlyItsOwn(c: Cluster, x: set<Key>, w: World, events: seq<Event>, i: nat)
    requires c.Valid() && Fresh(c, w) && AllWithin(x, events) && i < |Steps(c, w, events).deletions|
    ensures Proper(c, x, Steps(c, w, events).deletions[i])
  {
    FreshInv(c, x, w);
    RunKeepsInv(c, x, w, events);
    hide Fresh, Steps, StoreInv, OwnerInv, Proper;
  }

  /** No floating IP appears during a run, and only theirs are the deletions. */
  lemma {:induction false} FipsShrink(c: Cluster, w: World, events: seq<Event>)
    requires forall i :: 0 <= i < |w.deletions| ==> w.deletions[i].remover in w.fips
    ensures var v := Steps(c, w, events);
            && v.fips.Keys <= w.fips.Keys
            && forall i :: 0 <= i < |v.deletions| ==> v.deletions[i].remover in w.fips
    decreases |events|
  {
    if events != [] {
      FipsShrink(c, w, events[..|events| - 1]);
      FipsShrinkStep(c, Steps(c, w, events[..|events| - 1]), events[|events| - 1]);
      hide Step;
    }
  }

  lemma FipsShrinkStep(c: Cluster, w: World, event: Event)
    ensures var v := Step(c, w, event);
            && v.fips.Keys <= w.fips.Keys
            && |w.deletions| <= |v.deletions|
            && (forall i :: 0 <= i < |v.deletions| ==> if i < |w.deletions| then v.deletions[i] == w.deletions[i] else v.deletions[i].remover in w.fips)
  {
    hide After, EnsureStart, EnsureNext, EnsureCall, Serve, Ready, Mine, IsClaimedBy, Canonical, AddressObjectName, ValidSpec, DeleteStart;
  }
}
