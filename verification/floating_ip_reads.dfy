// Which reads may be old or lost without a public address ever moving: the answer for
// whole classes of runs, before any of them is run.
module FloatingIPReads {
  import opened MachineWords
  import opened Text
  import opened IPv4
  import opened PoolWindows
  import opened Claims
  import opened FloatingIPs
  import opened FloatingIPRuns
  import opened FloatingIPMoves
  import opened FloatingIPOutside

  /**
   * A class of runs: status reads may be old, the first or the second question for a
   * recorded claim may stay unanswered, specs may name a wanted address.
   */
  datatype Reads = Reads(stale: bool, loseFirst: bool, loseSecond: bool, wants: bool)
  {
    predicate Safe() {
      !stale && !(loseFirst && (wants || loseSecond))
    }
  }

  predicate Allowed(w: World, event: Event, r: Reads) {
    match event
    case Reconcile(_, spec, age, _) => (age == 0 || r.stale) && (TrimSpace(spec.address) == "" || r.wants)
    case Progress(o, fault, _) =>
      o in w.work && w.work[o].Ensuring? && fault != NoFault ==>
        (w.work[o].phase.AskRecorded? ==> r.loseFirst) && (w.work[o].phase.AskOwned? ==> r.loseSecond)
    case OutsideRemoves(_) => false
    case _ => true
  }

  ghost predicate AllAllowed(c: Cluster, w: World, events: seq<Event>, r: Reads)
    decreases |events|
  {
    events == []
    || (AllAllowed(c, w, events[..|events| - 1], r) && Allowed(Steps(c, w, events[..|events| - 1]), events[|events| - 1], r))
  }

  lemma {:induction false} AllowedSplit(c: Cluster, w: World, front: seq<Event>, tail: seq<Event>, r: Reads)
    ensures AllAllowed(c, w, front + tail, r) <==> AllAllowed(c, w, front, r) && AllAllowed(c, Steps(c, w, front), tail, r)
    decreases |tail|
  {
    hide Allowed, Step;
    if tail == [] {
      assert front + tail == front;
    } else {
      FrontAndLast(front, tail);
      var init, last := tail[..|tail| - 1], tail[|tail| - 1];
      assert (front + init + [last])[..|front + init|] == front + init;
      AllowedSplit(c, w, front, init, r);
      RunAppend(c, w, front, init);
      hide Steps;
    }
  }

  lemma {:induction false} AllowedWithin(c: Cluster, w: World, events: seq<Event>, r: Reads)
    requires AllAllowed(c, w, events, r)
    ensures AllWithin({}, events)
    decreases |events|
  {
    if events != [] {
      hide Steps;
      var front, last := events[..|events| - 1], events[|events| - 1];
      AllowedWithin(c, w, front, r);
      AllowedEvent(Steps(c, w, front), last, r);
      hide Within, Allowed;
      forall i | 0 <= i < |events| ensures Within({}, events[i]) {
        assert i < |front| ==> events[i] == front[i];
      }
    }
  }

  lemma AllowedEvent(w: World, event: Event, r: Reads)
    requires Allowed(w, event, r)
    ensures Within({}, event)
  {
  }

  // ---------------------------------------------------------------- safe classes

  /** The address is the recorded one, and what is under way can only record it again. */
  predicate Firm(w: World, o: Owner, r: Reads, address: string) {
    o in w.fips && !w.fips[o].deleting ==>
      && LastIs(w.fips[o], address)
      && (o in w.work ==>
            match w.work[o]
            case Ensuring(view, _, e) =>
              view.Recorded() == address && (r.wants || WantsNone(view)) && (e.AskRecorded? || (e.AskOwned? && r.loseFirst))
            case Recording(status) => status.address == address
            case _ => false)
  }

  lemma FirmReconcile(c: Cluster, w: World, o: Owner, spec: FipSpec, env: Env, r: Reads, address: string)
    requires Firm(w, o, r, address) && Canonical(address) && (TrimSpace(spec.address) == "" || r.wants)
    ensures Firm(Step(c, w, Reconcile(o, spec, 0, env)), o, r, address)
  {
    CanonicalIsTrimmed(address);
    hide ValidSpec, Choose, Canonical, TrimSpace;
  }

  /** The answer, or the lack of one, to a question about the recorded claim. */
  lemma FirmQuestion(store: Store, o: Owner, view: View, env: Env, e: Ensure, fault: Fault, r: Reads)
    requires r.Safe() && Ready(env, e) && view.Recorded() != "" && Holds(store, o, FloatingIPs.KeyOf(o, view.Recorded()))
    requires (r.wants || WantsNone(view)) && (e.AskRecorded? || (e.AskOwned? && r.loseFirst))
    requires fault != NoFault ==> (e.AskRecorded? ==> r.loseFirst) && (e.AskOwned? ==> r.loseSecond)
    ensures var (store', reply) := Serve(store, EnsureCall(o, view, env, e), fault);
            var next := After(view, env, EnsureNext(o, view, env, e, reply));
            store' == store &&
            (next.Some? ==>
               || (next.value.Recording? && next.value.status.address == view.Recorded())
               || (next.value.Ensuring? && next.value.view == view && next.value.phase.AskOwned? && r.loseFirst))
  {
    hide TrimSpace, AddressObjectName, IsClaimedBy, Start;
  }

  lemma FirmProgress(c: Cluster, w: World, o: Owner, fault: Fault, pick: Key, r: Reads, address: string)
    requires r.Safe() && Firm(w, o, r, address) && Allowed(w, Progress(o, fault, pick), r) && address != ""
    requires o in w.fips && !w.fips[o].deleting && o in w.work && Holds(w.store, o, FloatingIPs.KeyOf(o, address))
    ensures Firm(Step(c, w, Progress(o, fault, pick)), o, r, address)
  {
    if w.work[o].Ensuring? {
      var view, env, e := w.work[o].view, w.work[o].env, w.work[o].phase;
      if Ready(env, e) {
        FirmQuestion(w.store, o, view, env, e, fault, r);
        assert Step(c, w, Progress(o, fault, pick)) == StepEnsuring(w, o, view, env, e, fault);
      }
      hide EnsureCall, EnsureNext, Serve, After, Ready, Holds, AddressObjectName, TrimSpace;
    } else {
      hide StepEnsuring, StepLooking, StepDeleting, Mine, Ready, Holds, AddressObjectName;
    }
  }

  lemma FirmStep(c: Cluster, w: World, event: Event, o: Owner, r: Reads, address: string)
    requires r.Safe() && Firm(w, o, r, address) && Allowed(w, event, r)
    requires o in w.fips && !w.fips[o].deleting ==> Backed({}, w.store, o, address)
    ensures Firm(Step(c, w, event), o, r, address)
  {
    hide ValidSpec, StepOwn, After, EnsureStart, IsClaimedBy, Canonical, TrimSpace, DeleteStart, AddressObjectName;
    if event.Reconcile? && event.o == o && o in w.fips && !w.fips[o].deleting {
      FirmReconcile(c, w, o, event.spec, event.env, r, address);
    } else if event.Progress? && event.o == o && o in w.fips && o in w.work {
      if w.fips[o].deleting {
        DoomedStaysDoomed(w, o, event.fault, event.pick);
      } else {
        CanonicalIsTrimmed(address);
        FirmProgress(c, w, o, event.fault, event.pick, r, address);
      }
    } else if event.Progress? && event.o in w.work && event.o in w.fips {
      OthersWork(w, event.o, event.fault, event.pick, o);
    }
  }

  lemma {:induction false} FirmRun(c: Cluster, w: World, events: seq<Event>, o: Owner, r: Reads, address: string)
    requires c.Valid() && WorldInv(c, {}, w) && r.Safe() && AllAllowed(c, w, events, r) && Firm(w, o, r, address)
    ensures Firm(Steps(c, w, events), o, r, address)
    decreases |events|
  {
    if events != [] {
      var front := events[..|events| - 1];
      FirmRun(c, w, front, o, r, address);
      AllowedWithin(c, w, front, r);
      RunKeepsInv(c, {}, w, front);
      var v := Steps(c, w, front);
      if o in v.fips && !v.fips[o].deleting {
        LastBacked(c, {}, v, o, address);
      }
      hide WorldInv, Firm, Allowed, Step, Backed;
      FirmStep(c, v, events[|events| - 1], o, r, address);
    }
  }

  /** Every address recorded so far is firm. */
  ghost predicate AllFirm(w: World, r: Reads) {
    forall o, address :: o in w.fips && !w.fips[o].deleting && LastIs(w.fips[o], address) ==> Firm(w, o, r, address)
  }

  /** An address recorded just now is firm: the work is done. */
  lemma FirstRecord(c: Cluster, x: set<Key>, w: World, event: Event, o: Owner, r: Reads, address: string)
    requires WorldInv(c, x, w) && o in w.fips && w.fips[o].history == [] && !w.fips[o].deleting
    requires var v := Step(c, w, event); o in v.fips && !v.fips[o].deleting && LastIs(v.fips[o], address)
    ensures Firm(Step(c, w, event), o, r, address)
  {
    hide WorldInv, Firm, LastIs, Step;
    if event.Progress? && event.o == o && o in w.work {
      LiveWork(c, x, w, o);
      OwnFirstRecord(c, w, o, event.fault, event.pick, r, address);
    } else {
      NotRecorded(c, w, event, o);
      NothingIsLast(address);
    }
  }

  lemma NothingIsLast(address: string)
    ensures forall fip: Fip :: fip.history == [] ==> !LastIs(fip, address)
  {
  }

  lemma OwnFirstRecord(c: Cluster, w: World, o: Owner, fault: Fault, pick: Key, r: Reads, address: string)
    requires o in w.fips && o in w.work && (w.work[o].Recording? || w.work[o].Ensuring?) && w.fips[o].history == []
    requires var v := Step(c, w, Progress(o, fault, pick)); o in v.fips && LastIs(v.fips[o], address)
    ensures Firm(Step(c, w, Progress(o, fault, pick)), o, r, address)
  {
    hide EnsureNext, EnsureCall, Serve, After, Ready, StepLooking, StepDeleting, Mine;
  }

  /** Any other step leaves the record empty. */
  lemma NotRecorded(c: Cluster, w: World, event: Event, o: Owner)
    requires o in w.fips && w.fips[o].history == [] && !(event.Progress? && event.o == o && o in w.work)
    ensures o in Step(c, w, event).fips ==> Step(c, w, event).fips[o].history == []
  {
    if event.Progress? && event.o in w.work && event.o in w.fips {
      OthersWork(w, event.o, event.fault, event.pick, o);
    }
    hide StepOwn, ValidSpec, After, EnsureStart, DeleteStart, Canonical, AddressObjectName, IsClaimedBy;
  }

  /** Who lives after a step lived before. */
  lemma LivedBefore(c: Cluster, w: World, event: Event, o: Owner)
    requires var v := Step(c, w, event); o in v.fips && !v.fips[o].deleting
    ensures o in w.fips && !w.fips[o].deleting
  {
    if event.Progress? && event.o in w.work && event.o in w.fips {
      if event.o != o {
        OthersWork(w, event.o, event.fault, event.pick, o);
      } else if w.fips[o].deleting {
        DoomedStaysDoomed(w, o, event.fault, event.pick);
      }
    }
    hide ValidSpec, After, EnsureStart, DeleteStart, Canonical, AddressObjectName, IsClaimedBy, StepOwn;
  }

  lemma AllFirmStep(c: Cluster, w: World, event: Event, r: Reads)
    requires c.Valid() && WorldInv(c, {}, w) && r.Safe() && AllFirm(w, r) && Allowed(w, event, r)
    ensures AllFirm(Step(c, w, event), r)
  {
    var v := Step(c, w, event);
    forall o, address | o in v.fips && !v.fips[o].deleting && LastIs(v.fips[o], address) ensures Firm(v, o, r, address) {
      LivedBefore(c, w, event, o);
      if w.fips[o].history == [] {
        FirstRecord(c, {}, w, event, o, r, address);
      } else {
        var last := w.fips[o].history[|w.fips[o].history| - 1].address;
        assert LastIs(w.fips[o], last);
        LastBacked(c, {}, w, o, last);
        hide WorldInv, Allowed, Step, Backed;
        FirmStep(c, w, event, o, r, last);
      }
    }
  }

  lemma {:induction false} AllFirmRun(c: Cluster, w: World, events: seq<Event>, r: Reads)
    requires c.Valid() && Fresh(c, w) && r.Safe() && AllAllowed(c, w, events, r)
    ensures WorldInv(c, {}, Steps(c, w, events)) && AllFirm(Steps(c, w, events), r)
    decreases |events|
  {
    AllowedWithin(c, w, events, r);
    FreshInv(c, {}, w);
    RunKeepsInv(c, {}, w, events);
    if events != [] {
      AllFirmRun(c, w, events[..|events| - 1], r);
      hide WorldInv, AllFirm, Allowed, Step, Fresh;
      AllFirmStep(c, Steps(c, w, events[..|events| - 1]), events[|events| - 1], r);
    }
  }

  // ---------------------------------------------------------------- unsafe classes

  /** A floating IP that takes what the pool offers. */
  const FREELY := FipSpec("IPPool", "pool", "vpc", "", "")

  lemma OnlyPoolOffers(n: U32)
    ensures FirstFreeOf(OnlyPool(n), {}) == Found(Render(n))
  {
    var w := OnlyPool(n);
    assert First(w) == n && Last(w) == n;
    assert !Taken(w, {}, n);
    hide Render;
  }

  lemma FreelyIsValid(n: U32, ipv6: Ipv6Parser)
    ensures Around(n, ipv6).Valid() && ValidSpec(FREELY, ipv6) && TrimSpace(FREELY.poolKind) == "IPPool" && TrimSpace(FREELY.address) == ""
  {
    WordsAreTrimmed();
    RenderIsAccepted(n, ipv6);
    hide TrimSpace, ValidateIPv4Address, ContainsIPv4, Render;
  }

  function FreeClient(o: Owner, n: U32): Allocator {
    AllocatorOf(o, View(FREELY, Status("", 0)), OnlyPool(n))
  }

  /** Its claim and its status after one reconcile. */
  function Obtained(w: World, o: Owner, n: U32): World
    requires o in w.fips
  {
    w.(store := w.store[FloatingIPs.KeyOf(o, Render(n)) := FreeClient(o, n).NewClaim(Render(n))],
       fips := w.fips[o := w.fips[o].(history := w.fips[o].history + [Status(Render(n), 32)])])
  }

  lemma Searching(c: Cluster, w: World, o: Owner, n: U32)
    requires o in w.fips && o !in w.work && w.fips[o].history == []
    ensures var view, env := View(FREELY, Status("", 0)), Around(n, c.ipv6);
            && Ready(env, Allocating(TryFree(0, Render(n), {})))
            && Step(c, w, Reconcile(o, FREELY, 0, env)) == w.With(o, Some(Ensuring(view, env, Allocating(TryFree(0, Render(n), {})))))
  {
    FreelyIsValid(n, c.ipv6);
    OnlyPoolOffers(n);
    WordsAreTrimmed();
    hide TrimSpace, Render, ValidSpec, FirstFreeOf, World.With;
    var view, env := View(FREELY, Status("", 0)), Around(n, c.ipv6);
    assert Start(FreeClient(o, n), {}, c.ipv6) == TryFree(0, Render(n), {});
    assert EnsureStart(o, view, env) == Allocating(TryFree(0, Render(n), {}));
  }

  lemma Creating(o: Owner, n: U32, ipv6: Ipv6Parser, store: Store)
    requires FloatingIPs.KeyOf(o, Render(n)) !in store
    ensures var view, env, e := View(FREELY, Status("", 0)), Around(n, ipv6), Allocating(TryFree(0, Render(n), {}));
            var claim := FreeClient(o, n).NewClaim(Render(n));
            && Ready(env, e)
            && Serve(store, EnsureCall(o, view, env, e), NoFault) == (store[FloatingIPs.KeyOf(o, Render(n)) := claim], Created)
            && After(view, env, EnsureNext(o, view, env, e, Created)) == Some(Recording(Status(Render(n), 32)))
  {
    FreelyIsValid(n, ipv6);
    hide TrimSpace, Render, AddressObjectName, FirstFreeOf;
    assert FreeClient(o, n).KeyOf(Render(n)) == FloatingIPs.KeyOf(o, Render(n));
  }

  lemma FreeRun(c: Cluster, w: World, o: Owner, n: U32)
    requires o in w.fips && o !in w.work && w.fips[o].history == [] && FloatingIPs.KeyOf(o, Render(n)) !in w.store
    ensures Steps(c, w, OneReconcile(o, FREELY, 0, Around(n, c.ipv6), [NoFault, NoFault], ANY)) == Obtained(w, o, n)
  {
    var view, env, e := View(FREELY, Status("", 0)), Around(n, c.ipv6), Allocating(TryFree(0, Render(n), {}));
    var store := w.store[FloatingIPs.KeyOf(o, Render(n)) := FreeClient(o, n).NewClaim(Render(n))];
    Searching(c, w, o, n);
    Creating(o, n, c.ipv6, w.store);
    hide Step, Steps, Attempts, Render, TrimSpace, AddressObjectName, EnsureCall, EnsureNext, After, Serve, Ready, FreeClient, World.With;
    EnsuringStep(c, w, o, view, env, e, NoFault, ANY);
    Written(c, w.(store := store), o, Status(Render(n), 32));
    var w0 := w.With(o, Some(Ensuring(view, env, e)));
    var w1 := w.(store := store).With(o, Some(Recording(Status(Render(n), 32))));
    RunMore(c, w, Reconcile(o, FREELY, 0, env), Attempts(o, [NoFault, NoFault], ANY));
    RunAttempts(c, w0, o, [NoFault, NoFault], ANY);
    assert [NoFault, NoFault][1..] == [NoFault] && [NoFault][1..] == [];
    RunAttempts(c, w1, o, [NoFault], ANY);
    RunAttempts(c, Obtained(w, o, n), o, [], ANY);
  }

  /** Allowed whatever the state. */
  predicate AlwaysAllowed(event: Event, r: Reads) {
    match event
    case Reconcile(_, spec, age, _) => (age == 0 || r.stale) && (TrimSpace(spec.address) == "" || r.wants)
    case Progress(_, fault, _) => fault == NoFault || (r.loseFirst && r.loseSecond)
    case OutsideRemoves(_) => false
    case _ => true
  }

  lemma {:induction false} AlwaysIsAllowed(c: Cluster, w: World, events: seq<Event>, r: Reads)
    requires forall e :: e in events ==> AlwaysAllowed(e, r)
    ensures AllAllowed(c, w, events, r)
    decreases |events|
  {
    hide Steps, TrimSpace;
    if events != [] {
      AlwaysIsAllowed(c, w, events[..|events| - 1], r);
      assert AlwaysAllowed(events[|events| - 1], r);
    }
  }

  lemma ReconcileAllowed(c: Cluster, w: World, o: Owner, spec: FipSpec, age: nat, env: Env, faults: seq<Fault>, r: Reads)
    requires (age == 0 || r.stale) && (TrimSpace(spec.address) == "" || r.wants)
    requires (forall f :: f in faults ==> f == NoFault) || (r.loseFirst && r.loseSecond)
    ensures AllAllowed(c, w, OneReconcile(o, spec, age, env, faults, ANY), r)
  {
    hide TrimSpace, Steps, AllAllowed;
    var events := OneReconcile(o, spec, age, env, faults, ANY);
    forall e | e in events ensures AlwaysAllowed(e, r) {
      if e != events[0] {
        var k :| 0 < k < |events| && events[k] == e;
        assert e == Progress(o, faults[k - 1], ANY) && faults[k - 1] in faults;
      }
    }
    AlwaysIsAllowed(c, w, events, r);
  }

  /** The one lost answer is to the first question. */
  lemma FirstLostAllowed(c: Cluster, w: World, o: Owner, spec: FipSpec, env: Env, rest: seq<Fault>, r: Reads)
    requires r.loseFirst && r.wants && (forall f :: f in rest ==> f == NoFault)
    requires o in w.fips && o !in w.work && env.Valid() && ValidSpec(spec, env.ipv6) && View(spec, w.fips[o].Seen(0)).Recorded() != ""
    ensures AllAllowed(c, w, OneReconcile(o, spec, 0, env, [RequestLost] + rest, ANY), r)
  {
    var start, lost := Reconcile(o, spec, 0, env), Progress(o, RequestLost, ANY);
    LostIsAllowed(c, w, o, spec, env, r);
    hide TrimSpace, Step, Steps, ValidSpec, AllAllowed, Attempts, Allowed;
    LostSplit(o, spec, env, rest);
    OneAllowed(c, w, start, r);
    RunOne(c, w, start);
    OneAllowed(c, Step(c, w, start), lost, r);
    AttemptsAllowed(c, Steps(c, Step(c, w, start), [lost]), o, rest, r);
    AllowedSplit(c, Step(c, w, start), [lost], Attempts(o, rest, ANY), r);
    AllowedSplit(c, w, [start], [lost] + Attempts(o, rest, ANY), r);
  }

  lemma LostIsAllowed(c: Cluster, w: World, o: Owner, spec: FipSpec, env: Env, r: Reads)
    requires r.loseFirst && r.wants
    requires o in w.fips && o !in w.work && env.Valid() && ValidSpec(spec, env.ipv6) && View(spec, w.fips[o].Seen(0)).Recorded() != ""
    ensures Allowed(w, Reconcile(o, spec, 0, env), r)
    ensures Allowed(Step(c, w, Reconcile(o, spec, 0, env)), Progress(o, RequestLost, ANY), r)
  {
    AskingRecorded(c, w, o, spec, env);
    hide TrimSpace, ValidSpec, Step;
  }

  lemma LostSplit(o: Owner, spec: FipSpec, env: Env, rest: seq<Fault>)
    ensures OneReconcile(o, spec, 0, env, [RequestLost] + rest, ANY)
         == [Reconcile(o, spec, 0, env)] + ([Progress(o, RequestLost, ANY)] + Attempts(o, rest, ANY))
  {
    AttemptsMore(o, [RequestLost] + rest, ANY);
    assert ([RequestLost] + rest)[1..] == rest;
  }

  lemma AttemptsAllowed(c: Cluster, w: World, o: Owner, faults: seq<Fault>, r: Reads)
    requires forall f :: f in faults ==> f == NoFault
    ensures AllAllowed(c, w, Attempts(o, faults, ANY), r)
  {
    hide TrimSpace, Steps, AllAllowed;
    var events := Attempts(o, faults, ANY);
    forall e | e in events ensures AlwaysAllowed(e, r) {
      var k :| 0 <= k < |events| && events[k] == e;
      assert e == Progress(o, faults[k], ANY) && faults[k] in faults;
    }
    AlwaysIsAllowed(c, w, events, r);
  }

  lemma OneAllowed(c: Cluster, w: World, event: Event, r: Reads)
    requires Allowed(w, event, r)
    ensures AllAllowed(c, w, [event], r)
  {
    hide Allowed, Step;
    assert [event][..0] == [];
    assert AllAllowed(c, w, [], r) && Steps(c, w, []) == w;
  }

  lemma TwoKeys(o: Owner)
    ensures Render(0) != Render(1) && FloatingIPs.KeyOf(o, Render(0)) != FloatingIPs.KeyOf(o, Render(1))
  {
    hide Render, AddressObjectName;
    if AddressObjectName(Render(0)) == AddressObjectName(Render(1)) {
      AddressObjectNameInjective(0, 1);
    }
  }

  /** Served once, then reconciled once more with the reads the class allows. */
  lemma UnsafeRun(c: Cluster, w: World, o: Owner, r: Reads) returns (front: seq<Event>, tail: seq<Event>, next: string)
    requires c.Valid() && Fresh(c, w) && o in w.fips && !r.Safe()
    ensures AllAllowed(c, w, front + tail, r)
    ensures var v := Steps(c, w, front); o in v.fips && LastIs(v.fips[o], Render(0)) && Moved(c, v, tail, o, Render(0), next)
  {
    front := OneReconcile(o, FREELY, 0, Around(0, c.ipv6), [NoFault, NoFault], ANY);
    var v := Obtained(w, o, 0);
    FreeRun(c, w, o, 0);
    FreelyIsValid(0, c.ipv6);
    ServedState(c, w, o);
    ReconcileAllowed(c, w, o, FREELY, 0, Around(0, c.ipv6), [NoFault, NoFault], r);
    AllowedWithin(c, w, front, r);
    FreshInv(c, {}, w);
    RunKeepsInv(c, {}, w, front);
    hide Fresh, Steps, AllAllowed, OneReconcile, WorldInv, Obtained, Moved, TrimSpace, Render, AddressObjectName, Around;
    tail, next := MovingRun(c, v, o, r);
    AllowedSplit(c, w, front, tail, r);
  }

  lemma ServedState(c: Cluster, w: World, o: Owner)
    requires Fresh(c, w) && o in w.fips
    ensures var v := Obtained(w, o, 0);
            && o in v.fips && o !in v.work && !v.fips[o].deleting && LastIs(v.fips[o], Render(0)) && |v.fips[o].history| == 1
            && FloatingIPs.KeyOf(o, Render(1)) !in v.store
            && o !in w.work && w.fips[o].history == [] && FloatingIPs.KeyOf(o, Render(0)) !in w.store
  {
    TwoKeys(o);
    hide Render, AddressObjectName, FreeClient;
  }

  lemma MovingRun(c: Cluster, v: World, o: Owner, r: Reads) returns (tail: seq<Event>, next: string)
    requires c.Valid() && WorldInv(c, {}, v) && o in v.fips && o !in v.work && !v.fips[o].deleting && !r.Safe()
    requires LastIs(v.fips[o], Render(0)) && |v.fips[o].history| == 1 && FloatingIPs.KeyOf(o, Render(1)) !in v.store
    ensures AllAllowed(c, v, tail, r) && Moved(c, v, tail, o, Render(0), next)
  {
    hide Steps, AllAllowed, OneReconcile, WorldInv, Moved, TrimSpace, Render, AddressObjectName, FirstFreeOf, LastIs, OnlyPool, ValidSpec;
    var env := Around(1, c.ipv6);
    next := Render(1);
    FreelyIsValid(1, c.ipv6);
    OnlyPoolOffers(1);
    if r.stale {
      tail := OneReconcile(o, FREELY, 1, env, [NoFault, NoFault], ANY);
      ReconcileAllowed(c, v, o, FREELY, 1, env, [NoFault, NoFault], r);
      StaleReadMovesAddress(c, v, o, FREELY, 1, env, ANY, Render(0), next);
    } else if r.loseSecond {
      tail := OneReconcile(o, FREELY, 0, env, [RequestLost, RequestLost, NoFault, NoFault], ANY);
      ReconcileAllowed(c, v, o, FREELY, 0, env, [RequestLost, RequestLost, NoFault, NoFault], r);
      LostReadsMoveAddress(c, v, o, FREELY, env, ANY, Render(0), next);
    } else {
      tail := WantingMove(c, v, o, r);
    }
  }

  lemma WantingMove(c: Cluster, v: World, o: Owner, r: Reads) returns (tail: seq<Event>)
    requires c.Valid() && WorldInv(c, {}, v) && o in v.fips && o !in v.work && !v.fips[o].deleting && r.loseFirst && r.wants
    requires LastIs(v.fips[o], Render(0)) && FloatingIPs.KeyOf(o, Render(1)) !in v.store
    ensures AllAllowed(c, v, tail, r) && Moved(c, v, tail, o, Render(0), Render(1))
  {
    hide Steps, AllAllowed, OneReconcile, WorldInv, Moved, TrimSpace, Render, AddressObjectName, LastIs, OnlyPool, ValidSpec, Canonical,
         ValidateIPv4Address, ContainsIPv4;
    WantingIsValid(1, c.ipv6);
    LastIsCanonical(c, v, o, Render(0));
    CurrentIsRecorded(v.fips[o], Wanting(1), Render(0));
    tail := OneReconcile(o, Wanting(1), 0, Around(1, c.ipv6), [RequestLost, NoFault, NoFault, NoFault], ANY);
    assert [RequestLost] + [NoFault, NoFault, NoFault] == [RequestLost, NoFault, NoFault, NoFault];
    FirstLostAllowed(c, v, o, Wanting(1), Around(1, c.ipv6), [NoFault, NoFault, NoFault], r);
    WantedMovesAddress(c, v, o, Wanting(1), Around(1, c.ipv6), ANY, Render(0));
  }

  // ---------------------------------------------------------------- exactly

  /** What o has recorded after `front`, it has recorded after `tail` as well, if it lives. */
  ghost predicate Keeps(c: Cluster, w: World, front: seq<Event>, tail: seq<Event>, o: Owner, address: string) {
    var v, u := Steps(c, w, front), Steps(c, w, front + tail);
    o in v.fips && LastIs(v.fips[o], address) && o in u.fips && !u.fips[o].deleting ==> LastIs(u.fips[o], address)
  }

  /** Over all runs of the class no recorded address is ever replaced. */
  ghost predicate NeverMoves(c: Cluster, w: World, r: Reads) {
    forall front, tail, o, address :: AllAllowed(c, w, front + tail, r) ==> Keeps(c, w, front, tail, o, address)
  }

  /**
   * From a fresh cluster with a floating IP in it, no recorded address is ever
   * replaced, over all runs of a class, exactly when status reads are current and
   * either the first question for a recorded claim is always answered, or the second
   * one is and no spec names a wanted address.
   */
  lemma ReadsKeepExactly(c: Cluster, w: World, r: Reads)
    requires c.Valid() && Fresh(c, w) && w.fips != map[]
    ensures NeverMoves(c, w, r) <==> !r.stale && (!r.loseFirst || (!r.loseSecond && !r.wants))
  {
    hide AllAllowed, Steps, Fresh, Keeps;
    if r.Safe() {
      forall front, tail, o, address | AllAllowed(c, w, front + tail, r) ensures Keeps(c, w, front, tail, o, address) {
        SafeKeeps(c, w, front, tail, o, r, address);
      }
    } else {
      var o :| o in w.fips;
      var front, tail, next := UnsafeRun(c, w, o, r);
      MovedIsNotKept(c, w, front, tail, o, Render(0), next);
    }
  }

  lemma SafeKeeps(c: Cluster, w: World, front: seq<Event>, tail: seq<Event>, o: Owner, r: Reads, address: string)
    requires c.Valid() && Fresh(c, w) && r.Safe() && AllAllowed(c, w, front + tail, r)
    ensures Keeps(c, w, front, tail, o, address)
  {
    AllowedSplit(c, w, front, tail, r);
    AllFirmRun(c, w, front, r);
    RunAppend(c, w, front, tail);
    var v := Steps(c, w, front);
    hide AllAllowed, Steps, WorldInv, Fresh;
    if o in v.fips && LastIs(v.fips[o], address) {
      assert Firm(v, o, r, address);
      FirmRun(c, v, tail, o, r, address);
    }
  }

  lemma MovedIsNotKept(c: Cluster, w: World, front: seq<Event>, tail: seq<Event>, o: Owner, address: string, next: string)
    requires var v := Steps(c, w, front); o in v.fips && LastIs(v.fips[o], address) && Moved(c, v, tail, o, address, next)
    ensures !Keeps(c, w, front, tail, o, address)
  {
    RunAppend(c, w, front, tail);
    hide Steps, Holds;
  }
}
