// What a floating IP leaves behind when its deletion is complete, over whole runs.
module FloatingIPRelease {
  import opened Text
  import opened IPv4
  import opened Claims
  import opened FloatingIPs
  import opened FloatingIPRuns
  import opened FloatingIPMoves
  import opened FloatingIPOutside
  import opened FloatingIPReads
  import opened FloatingIPDelete

  /** The floating IP as a deletion reads it that reads the current status. */
  function Now(w: World, o: Owner, spec: FipSpec): View
    requires o in w.fips
  {
    View(spec, w.fips[o].Seen(0))
  }

  /**
   * From here on the floating IP is only deleted, by deletions that read statuses no
   * older than `age` and, when no address is recorded, this spec; and nobody claims
   * addresses in its name. All else may happen: other floating IPs, other controllers,
   * removals from outside, lost requests and replies, crashes.
   */
  predicate Undisturbed(o: Owner, view: View, age: nat, events: seq<Event>) {
    forall i :: 0 <= i < |events| ==> Undisturbing(o, view, age, events[i])
  }

  predicate Undisturbing(o: Owner, view: View, age: nat, event: Event) {
    match event
    case Reconcile(p, _, _, _) => p != o
    case BeginDelete(p, spec, a) => p == o ==> a <= age && (view.Recorded() != "" || spec == view.spec)
    case OtherClaims(client, _) => client.owner != o
    case _ => true
  }

  ghost predicate NothingLeft(store: Store, o: Owner, view: View) {
    forall k :: Concerned(o, view, k) ==> !Holds(store, o, k)
  }

  // ---------------------------------------------------------------- the invariant

  /** Whatever is concerned and still held is still to be deleted. */
  ghost predicate Releasing(w: World, o: Owner, view: View) {
    if o !in w.fips then NothingLeft(w.store, o, view)
    else
      && w.fips[o].Seen(0) == view.status
      && (o in w.work ==> WorkReleases(w.store, o, view, w.work[o]))
  }

  ghost predicate WorkReleases(store: Store, o: Owner, view: View, work: Work) {
    match work
    case Looking(key) => key.namespace == o.namespace && forall k :: Concerned(o, view, k) <==> k == key
    case Listing => true
    case Deleting(pending) => forall k :: Concerned(o, view, k) && Holds(store, o, k) ==> k in pending
    case _ => false
  }

  /** Nothing new in o's hands. */
  ghost predicate NoGain(before: Store, after: Store, o: Owner) {
    forall k :: Holds(after, o, k) ==> Holds(before, o, k)
  }

  lemma WorkAsBefore(before: Store, after: Store, o: Owner, view: View, work: Work)
    requires WorkReleases(before, o, view, work) && NoGain(before, after, o)
    ensures WorkReleases(after, o, view, work)
  {
    hide Concerned, Holds;
  }

  lemma ShrinkNoGain(before: Store, after: Store, o: Owner)
    requires forall k :: k in after ==> k in before && after[k] == before[k]
    ensures NoGain(before, after, o)
  {
    hide IsClaimedBy;
  }

  /** A claim made for another parent is not o's. */
  lemma OthersClaimNoGain(c: Cluster, store: Store, a: Allocator, address: string, o: Owner)
    requires c.Valid() && o in c.owners && a.owner in c.owners && a.owner != o && Canonical(address)
    ensures NoGain(store, store[a.KeyOf(address) := a.NewClaim(address)], o)
  {
    var after := store[a.KeyOf(address) := a.NewClaim(address)];
    CreatedIsWellNamed(c, a, address);
    forall k | Holds(after, o, k) ensures Holds(store, o, k) {
      if k == a.KeyOf(address) {
        SoleOwner(c, k, after[k], o, a.owner);
        assert false;
      }
      hide IsClaimedBy;
    }
  }

  /** One request of another's call makes no claim of o's. */
  lemma OthersCallNoGain(c: Cluster, w: World, p: Owner, view: View, env: Env, e: Ensure, fault: Fault, o: Owner)
    requires c.Valid() && o in c.owners && p in c.owners && p != o && Ready(env, e)
    requires e.Allocating? ==> PcInv(AllocatorOf(p, view, env.pool.value), e.pc)
    ensures NoGain(w.store, Serve(w.store, EnsureCall(p, view, env, e), fault).0, o)
  {
    if e.Allocating? {
      var a := AllocatorOf(p, view, env.pool.value);
      assert a.owner == p;
      hide Canonical, TrimSpace, AddressObjectName, AllocatorOf;
      match e.pc {
        case TakePreferred(_) => OthersClaimNoGain(c, w.store, a, a.Wanted(), o);
        case TryFree(_, free, _) => OthersClaimNoGain(c, w.store, a, free, o);
        case _ =>
      }
      hide NoGain;
      assert NoGain(w.store, w.store, o) by { ShrinkNoGain(w.store, w.store, o); }
    } else {
      ShrinkNoGain(w.store, w.store, o);
      hide NoGain, AddressObjectName, TrimSpace;
    }
  }

  // ---------------------------------------------------------------- steps

  lemma OthersEnsuring(c: Cluster, x: set<Key>, w: World, p: Owner, view: View, env: Env, e: Ensure, fault: Fault, o: Owner)
    requires c.Valid() && WorldInv(c, x, w) && o in c.owners && p != o && p in w.fips && p in w.work
    requires w.work[p] == Ensuring(view, env, e)
    ensures Ready(env, e) && NoGain(w.store, StepEnsuring(w, p, view, env, e, fault).store, o)
  {
    assert WorkInv(x, w.store, p, w.fips[p].deleting, Ensuring(view, env, e)) && p in c.owners by {
      hide WorkInv, FipInv, StoreInv, DeletionsProper;
      assert OwnerInv(x, w.store, p, w.fips[p], w.WorkOf(p));
    }
    hide WorldInv, PcInv, Backed, NoGain, EnsureCall, EnsureNext, After, Serve, Ready;
    OthersCallNoGain(c, w, p, view, env, e, fault, o);
  }

  lemma OthersOther(w: World, p: Owner, fault: Fault, pick: Key, o: Owner)
    requires p in w.work && p in w.fips && !w.work[p].Ensuring?
    ensures NoGain(w.store, StepOwn(w, p, fault, pick).store, o)
  {
    hide Mine, IsClaimedBy, StepEnsuring, NoGain;
    ShrinkNoGain(w.store, StepOwn(w, p, fault, pick).store, o);
  }

  lemma OthersProgress(c: Cluster, x: set<Key>, w: World, p: Owner, fault: Fault, pick: Key, o: Owner)
    requires c.Valid() && WorldInv(c, x, w) && o in c.owners && p != o && p in w.work && p in w.fips
    ensures NoGain(w.store, StepOwn(w, p, fault, pick).store, o)
  {
    if w.work[p].Ensuring? {
      var view, env, e := w.work[p].view, w.work[p].env, w.work[p].phase;
      hide WorldInv, NoGain, StepEnsuring, Ready;
      OthersEnsuring(c, x, w, p, view, env, e, fault, o);
    } else {
      OthersOther(w, p, fault, pick, o);
    }
  }

  /** The steps of a deletion. */
  lemma OwnProgress(w: World, o: Owner, view: View, fault: Fault, pick: Key)
    requires o in w.fips && o in w.work && Releasing(w, o, view)
    ensures Releasing(StepOwn(w, o, fault, pick), o, view)
  {
    match w.work[o]
    case Looking(key) => hide IsClaimedBy, Concerned, Mine;
    case Listing => hide IsClaimedBy, Concerned;
    case Deleting(pending) => OwnDeletion(w, o, view, pending, fault, pick);
    case _ => assert false;
  }

  lemma OwnDeletion(w: World, o: Owner, view: View, pending: set<Key>, fault: Fault, pick: Key)
    requires o in w.fips && o in w.work && Releasing(w, o, view) && w.work[o] == Deleting(pending)
    ensures Releasing(StepDeleting(w, o, pending, fault, pick), o, view)
  {
    ShrinkNoGain(w.store, w.store - {pick}, o);
    assert !Holds(w.store - {pick}, o, pick);
    hide Holds, Concerned;
    if pick !in w.store {
      assert !Holds(w.store, o, pick) by { FreeIsNotHeld(w.store, o, pick); }
    }
  }

  lemma FreeIsNotHeld(store: Store, o: Owner, k: Key)
    requires k !in store
    ensures !Holds(store, o, k)
  {
  }

  /** A step that leaves o's entries alone and gives it no claim. */
  lemma SameEntries(w: World, v: World, o: Owner, view: View)
    requires Releasing(w, o, view) && NoGain(w.store, v.store, o)
    requires (o in v.fips <==> o in w.fips) && (o in w.fips ==> v.fips[o] == w.fips[o])
    requires v.WorkOf(o) in {w.WorkOf(o), None}
    ensures Releasing(v, o, view)
  {
    hide Concerned, Holds, WorkReleases;
    if o in w.fips && o in v.work {
      WorkAsBefore(w.store, v.store, o, view, w.work[o]);
    }
  }

  lemma BeginReleases(c: Cluster, w: World, o: Owner, view: View, spec: FipSpec)
    requires Releasing(w, o, view) && (view.Recorded() != "" || spec == view.spec)
    ensures Releasing(Step(c, w, BeginDelete(o, spec, 0)), o, view)
  {
    if o in w.fips {
      var read := View(spec, view.status);
      StartIsConcerned(o, read);
      assert forall k :: Concerned(o, read, k) <==> Concerned(o, view, k);
      hide Concerned, Holds, DeleteStart;
      var w1 := Step(c, w, BeginDelete(o, spec, 0));
      assert w1.fips[o].Seen(0) == w.fips[o].Seen(0);
    }
  }

  lemma ProgressReleases(c: Cluster, x: set<Key>, w: World, p: Owner, fault: Fault, pick: Key, o: Owner, view: View)
    requires c.Valid() && WorldInv(c, x, w) && o in c.owners && Releasing(w, o, view)
    ensures Releasing(Step(c, w, Progress(p, fault, pick)), o, view)
  {
    hide WorldInv, StepOwn, Releasing, NoGain;
    if p in w.work && p in w.fips {
      if p == o {
        OwnProgress(w, o, view, fault, pick);
      } else {
        OthersWork(w, p, fault, pick, o);
        OthersProgress(c, x, w, p, fault, pick, o);
        SameEntries(w, StepOwn(w, p, fault, pick), o, view);
      }
    }
  }

  lemma ClaimReleases(c: Cluster, w: World, client: Allocator, address: string, o: Owner, view: View)
    requires c.Valid() && o in c.owners && Releasing(w, o, view) && client.owner != o
    ensures Releasing(Step(c, w, OtherClaims(client, address)), o, view)
  {
    var v := Step(c, w, OtherClaims(client, address));
    ShrinkNoGain(w.store, w.store, o);
    hide Releasing, NoGain, Canonical, AddressObjectName;
    if client.owner in c.owners && Canonical(address) && client.KeyOf(address) !in w.store {
      OthersClaimNoGain(c, w.store, client, address, o);
    }
    SameEntries(w, v, o, view);
  }

  /** Starting on another object, a crash, and removals only take from the store, if anything. */
  lemma RestReleases(c: Cluster, w: World, event: Event, o: Owner, view: View)
    requires Releasing(w, o, view) && !event.Progress? && !event.OtherClaims?
    requires event.Reconcile? || event.BeginDelete? ==> event.o != o
    ensures Releasing(Step(c, w, event), o, view)
  {
    var v := Step(c, w, event);
    ShrinkNoGain(w.store, v.store, o);
    hide Releasing, NoGain, ValidSpec, After, EnsureStart, Holds, DeleteStart;
    SameEntries(w, v, o, view);
  }

  lemma StepReleases(c: Cluster, x: set<Key>, w: World, event: Event, o: Owner, view: View)
    requires c.Valid() && WorldInv(c, x, w) && o in c.owners && Releasing(w, o, view) && Undisturbing(o, view, 0, event)
    ensures Releasing(Step(c, w, event), o, view)
  {
    hide WorldInv, Releasing, Step;
    if event.Progress? {
      ProgressReleases(c, x, w, event.o, event.fault, event.pick, o, view);
    } else if event.OtherClaims? {
      ClaimReleases(c, w, event.client, event.address, o, view);
    } else if event.BeginDelete? && event.o == o {
      BeginReleases(c, w, o, view, event.spec);
    } else {
      RestReleases(c, w, event, o, view);
    }
  }

  lemma {:induction false} RunReleases(c: Cluster, x: set<Key>, w: World, events: seq<Event>, o: Owner, view: View)
    requires c.Valid() && WorldInv(c, x, w) && AllWithin(x, events) && o in c.owners
    requires Releasing(w, o, view) && Undisturbed(o, view, 0, events)
    ensures Releasing(Steps(c, w, events), o, view)
    decreases |events|
  {
    hide WorldInv, Releasing, Undisturbing, Within, Step;
    if events != [] {
      var front := events[..|events| - 1];
      RunReleases(c, x, w, front, o, view);
      RunKeepsInv(c, x, w, front);
      StepReleases(c, x, Steps(c, w, front), events[|events| - 1], o, view);
    }
  }

  // ---------------------------------------------------------------- over runs

  /** Every name some outsider removes. */
  ghost function Removable(events: seq<Event>): (x: set<Key>)
    ensures AllWithin(x, events)
  {
    set i | 0 <= i < |events| && events[i].OutsideRemoves? :: events[i].key
  }

  /** After any run, o is idle; then it is only deleted, and in the end it is gone. */
  ghost predicate Removal(c: Cluster, w: World, front: seq<Event>, tail: seq<Event>, o: Owner, spec: FipSpec, age: nat) {
    var v := Steps(c, w, front);
    && o in v.fips && o !in v.work
    && Undisturbed(o, Now(v, o, spec), age, tail)
    && o !in Steps(c, v, tail).fips
  }

  lemma CurrentReleases(c: Cluster, w: World, front: seq<Event>, tail: seq<Event>, o: Owner, spec: FipSpec)
    requires c.Valid() && Fresh(c, w) && Removal(c, w, front, tail, o, spec, 0)
    ensures NothingLeft(Steps(c, Steps(c, w, front), tail).store, o, Now(Steps(c, w, front), o, spec))
  {
    var x := Removable(front + tail);
    var v := Steps(c, w, front);
    FreshInv(c, x, w);
    SplitWithin(x, front, tail);
    RunKeepsInv(c, x, w, front);
    assert o in c.owners by { hide StoreInv, OwnerInv, DeletionsProper, Steps, Fresh; }
    hide WorldInv, Fresh, Steps, Holds, TrimSpace, AddressObjectName;
    RunReleases(c, x, v, tail, o, Now(v, o, spec));
  }

  /**
   * A floating IP whose deletions read the current status leaves, once it is gone, no
   * claim of its own under its last recorded address; with none recorded none under the
   * wanted address, with neither none in its namespace.
   */
  lemma RemovedLeavesNothing(c: Cluster, w: World, front: seq<Event>, tail: seq<Event>, o: Owner, spec: FipSpec)
    requires c.Valid() && Fresh(c, w) && Removal(c, w, front, tail, o, spec, 0)
    ensures var v, z := Steps(c, w, front), Steps(c, Steps(c, w, front), tail);
            var recorded, wanted := TrimSpace(v.fips[o].Seen(0).address), TrimSpace(spec.address);
            if recorded != "" then !Holds(z.store, o, Key(o.namespace, AddressObjectName(recorded)))
            else if wanted != "" then !Holds(z.store, o, Key(o.namespace, AddressObjectName(wanted)))
            else forall k :: !Holds(z.store, o, k)
  {
    CurrentReleases(c, w, front, tail, o, spec);
    hide Removal, Fresh, Steps, Holds, TrimSpace, AddressObjectName;
  }

  lemma SplitWithin(x: set<Key>, front: seq<Event>, tail: seq<Event>)
    requires AllWithin(x, front + tail)
    ensures AllWithin(x, front) && AllWithin(x, tail)
  {
    hide Within;
    forall i | 0 <= i < |tail| ensures Within(x, tail[i]) {
      assert tail[i] == (front + tail)[|front| + i];
    }
    forall i | 0 <= i < |front| ensures Within(x, front[i]) {
      assert front[i] == (front + tail)[i];
    }
  }

  // ---------------------------------------------------------------- which reads suffice

  /** What is left of the claims the current status and this spec name. */
  ghost predicate Leaves(c: Cluster, w: World, front: seq<Event>, tail: seq<Event>, o: Owner, spec: FipSpec)
  {
    o in Steps(c, w, front).fips && !NothingLeft(Steps(c, Steps(c, w, front), tail).store, o, Now(Steps(c, w, front), o, spec))
  }

  ghost predicate AlwaysReleases(c: Cluster, w: World, age: nat) {
    forall front, tail, o, spec :: Removal(c, w, front, tail, o, spec, age) ==> !Leaves(c, w, front, tail, o, spec)
  }

  /** Deletions leave nothing behind in every run exactly when they read the current status. */
  lemma ReleaseExactly(c: Cluster, w: World, age: nat)
    requires c.Valid() && Fresh(c, w) && w.fips != map[]
    ensures AlwaysReleases(c, w, age) <==> age == 0
  {
    hide Removal, Fresh, NothingLeft, Steps;
    if age == 0 {
      forall front, tail, o, spec | Removal(c, w, front, tail, o, spec, age) ensures !Leaves(c, w, front, tail, o, spec) {
        CurrentReleases(c, w, front, tail, o, spec);
      }
    } else {
      var o :| o in w.fips;
      var front, tail := OldReadLeavesClaim(c, w, o, age);
      assert Removal(c, w, front, tail, o, Wanting(1), age);
    }
  }

  lemma TailUndisturbed(o: Owner, view: View, age: nat)
    requires view.spec == Wanting(1) && age > 0
    ensures Undisturbed(o, view, age, [BeginDelete(o, Wanting(1), 1), Answer(o)])
  {
    hide TrimSpace, Wanting;
  }

  /** Its own claim under its last recorded address. */
  lemma StillHeld(w: World, o: Owner)
    requires o in w.fips
    ensures Holds(Obtained(w, o, 0).store, o, FloatingIPs.KeyOf(o, Render(0)))
  {
    hide Render, AddressObjectName;
  }

  lemma RecordedNow(v: World, o: Owner, spec: FipSpec, address: string)
    requires o in v.fips && LastIs(v.fips[o], address) && TrimSpace(address) == address != ""
    ensures Concerned(o, Now(v, o, spec), FloatingIPs.KeyOf(o, address))
  {
    hide AddressObjectName, TrimSpace;
    assert v.fips[o].Seen(0).address == address;
  }

  /** The deletion of the example. */
  lemma GoneRun(c: Cluster, v: World, o: Owner, spec: FipSpec, address: string)
    requires o in v.fips && o !in v.work && |v.fips[o].history| == 1 && FloatingIPs.KeyOf(o, address) !in v.store
    requires TrimSpace("") == "" && TrimSpace(spec.address) == address != ""
    ensures Steps(c, v, [BeginDelete(o, spec, 1), Answer(o)]) == Finished(v, o)
  {
    var key := FloatingIPs.KeyOf(o, address);
    var v1 := v.(fips := v.fips[o := v.fips[o].(deleting := true)], work := v.work[o := Looking(key)]);
    OldStart(c, v, o, spec, address);
    hide Steps, Step, FloatingIPs.KeyOf, TrimSpace;
    RunTwo(c, v, BeginDelete(o, spec, 1), Answer(o));
    MissedStep(c, v1, o, key);
    assert v1.fips - {o} == v.fips - {o} && v1.work - {o} == v.work - {o};
  }

  lemma OldStart(c: Cluster, v: World, o: Owner, spec: FipSpec, address: string)
    requires o in v.fips && o !in v.work && |v.fips[o].history| == 1
    requires TrimSpace("") == "" && TrimSpace(spec.address) == address != ""
    ensures Step(c, v, BeginDelete(o, spec, 1))
         == v.(fips := v.fips[o := v.fips[o].(deleting := true)], work := v.work[o := Looking(FloatingIPs.KeyOf(o, address))])
  {
    hide AddressObjectName, TrimSpace;
    assert DeleteStart(o, View(spec, v.fips[o].Seen(1))) == Looking(FloatingIPs.KeyOf(o, address));
  }

  lemma MissedStep(c: Cluster, w: World, o: Owner, key: Key)
    requires o in w.fips && o in w.work && w.work[o] == Looking(key) && key !in w.store
    ensures Step(c, w, Answer(o)) == Finished(w, o)
  {
    hide IsClaimedBy;
    assert Step(c, w, Answer(o)) == StepLooking(w, o, key, NoFault);
  }

  /**
   * For instance a floating IP that has just recorded its first address, while its spec
   * has come to name another: a deletion that still reads the empty status looks for
   * the other address, finds no claim and completes; the claim stays with nobody.
   */
  lemma OldReadLeavesClaim(c: Cluster, w: World, o: Owner, age: nat) returns (front: seq<Event>, tail: seq<Event>)
    requires c.Valid() && Fresh(c, w) && o in w.fips && age > 0
    ensures Removal(c, w, front, tail, o, Wanting(1), age) && Leaves(c, w, front, tail, o, Wanting(1))
    ensures front == OneReconcile(o, FREELY, 0, Around(0, c.ipv6), [NoFault, NoFault], ANY)
    ensures tail == [BeginDelete(o, Wanting(1), 1), Answer(o)]
  {
    front := OneReconcile(o, FREELY, 0, Around(0, c.ipv6), [NoFault, NoFault], ANY);
    tail := [BeginDelete(o, Wanting(1), 1), Answer(o)];
    var v := Obtained(w, o, 0);
    ServedState(c, w, o);
    FreeRun(c, w, o, 0);
    WordsAreTrimmed();
    RenderIsAccepted(0, c.ipv6);
    RenderIsAccepted(1, c.ipv6);
    GoneRun(c, v, o, Wanting(1), Render(1));
    StillHeld(w, o);
    RecordedNow(v, o, Wanting(1), Render(0));
    hide Fresh, Steps, OneReconcile, Obtained, Holds, Render, AddressObjectName, Concerned, TrimSpace, Answer, LastIs,
         OnlyPool, ValidateIPv4Address;
    var z := Finished(v, o);
    assert Steps(c, Steps(c, w, front), tail) == z && z.store == v.store && o !in z.fips;
    assert Concerned(o, Now(v, o, Wanting(1)), FloatingIPs.KeyOf(o, Render(0)));
    TailUndisturbed(o, Now(v, o, Wanting(1)), age);
  }
}
