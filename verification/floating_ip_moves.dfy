// When a floating IP keeps its public address.
//
// `Settles` says what one reconcile writes, for every age of the status it reads, every
// spec and every pattern of failures; `Strays` names the single request of a run that
// makes an address move.
module FloatingIPMoves {
  import opened Text
  import opened IPv4
  import opened PoolWindows
  import opened Claims
  import opened FloatingIPs
  import opened FloatingIPRuns

  predicate LastIs(fip: Fip, address: string) {
    fip.history != [] && fip.history[|fip.history| - 1].address == address
  }

  // ---------------------------------------------------------------- what one reconcile writes

  /** The status a reconcile goes on to write, and the failures still ahead of it then. */
  datatype Settlement = Nothing | Writes(status: Status, rest: seq<Fault>)

  /** The next request arrives, whether or not its reply does. */
  predicate Lands(faults: seq<Fault>) {
    faults != [] && faults[0] != RequestLost
  }

  predicate Answered(faults: seq<Fault>, k: nat) {
    k < |faults| && faults[k] == NoFault
  }

  /** The object after a reconcile that settles so. */
  function Ends(fip: Fip, s: Settlement): Fip {
    if s.Writes? && Lands(s.rest) then fip.(history := fip.history + [s.status]) else fip
  }

  /** An allocation call whose requests fail as listed, on a store nobody else touches. */
  function Allocated(store: Store, a: Allocator, pc: Pc, faults: seq<Fault>): Settlement
    requires a.Valid()
    decreases |faults|
  {
    if pc.Done? then
      if pc.outcome.Leased? then Writes(Status(pc.outcome.address, pc.outcome.prefixLength), faults) else Nothing
    else if faults == [] then Nothing
    else
      var (after, reply) := Serve(store, Call(a, pc), faults[0]);
      Allocated(after, a, Next(a, pc, reply), faults[1..])
  }

  predicate Poolable(view: View, env: Env) {
    TrimSpace(view.spec.poolKind) == "IPPool" && env.pool.Some?
  }

  predicate WantsNone(view: View) {
    TrimSpace(view.spec.address) == ""
  }

  /** What an allocation from the pool comes to. */
  function FromPool(store: Store, o: Owner, view: View, env: Env, faults: seq<Fault>): Settlement
    requires env.Valid() && env.pool.Some?
  {
    var a := AllocatorOf(o, view, env.pool.value);
    Allocated(store, a, Start(a, env.used, env.ipv6), faults)
  }

  /** What follows when the first question about the recorded claim gave no answer. */
  function Chosen(store: Store, o: Owner, view: View, env: Env, faults: seq<Fault>): Settlement
    requires env.Valid()
  {
    var key := FloatingIPs.KeyOf(o, view.Recorded());
    if !Poolable(view, env) then Nothing
    else if !WantsNone(view) || view.Recorded() == "" then FromPool(store, o, view, env, faults)
    else if faults == [] then Nothing
    else if faults[0] == NoFault && Holds(store, o, key) then Writes(Status(view.Recorded(), store[key].prefixLength), faults[1..])
    else FromPool(store, o, view, env, faults[1..])
  }

  function Settles(store: Store, o: Owner, view: View, env: Env, faults: seq<Fault>): Settlement
    requires env.Valid()
  {
    var key := FloatingIPs.KeyOf(o, view.Recorded());
    if view.Recorded() == "" then Chosen(store, o, view, env, faults)
    else if faults == [] then Nothing
    else if faults[0] == NoFault && key in store then
      Writes(Status(view.Recorded(), if view.status.prefixLength != 0 then view.status.prefixLength else store[key].prefixLength), faults[1..])
    else Chosen(store, o, view, env, faults[1..])
  }

  /** One reconcile and then one request for each listed failure, nobody else moving. */
  function Attempts(o: Owner, faults: seq<Fault>, pick: Key): seq<Event> {
    seq(|faults|, i requires 0 <= i < |faults| => Progress(o, faults[i], pick))
  }

  function OneReconcile(o: Owner, spec: FipSpec, age: nat, env: Env, faults: seq<Fault>, pick: Key): seq<Event> {
    [Reconcile(o, spec, age, env)] + Attempts(o, faults, pick)
  }

  lemma AttemptsMore(o: Owner, faults: seq<Fault>, pick: Key)
    requires faults != []
    ensures Attempts(o, faults, pick) == [Progress(o, faults[0], pick)] + Attempts(o, faults[1..], pick)
  {
  }

  lemma RunAttempts(c: Cluster, w: World, o: Owner, faults: seq<Fault>, pick: Key)
    ensures faults == [] ==> Steps(c, w, Attempts(o, faults, pick)) == w
    ensures faults != [] ==>
              Steps(c, w, Attempts(o, faults, pick)) == Steps(c, Step(c, w, Progress(o, faults[0], pick)), Attempts(o, faults[1..], pick))
  {
    hide Step;
    if faults == [] {
      assert Attempts(o, faults, pick) == [];
    } else {
      AttemptsMore(o, faults, pick);
      RunMore(c, w, Progress(o, faults[0], pick), Attempts(o, faults[1..], pick));
      hide Steps, Attempts;
    }
  }

  lemma WithTwice(w: World, o: Owner, first: Option<Work>, second: Option<Work>)
    ensures w.With(o, first).With(o, second) == w.With(o, second)
  {
    if first.Some? {
      assert w.work[o := first.value] - {o} == w.work - {o};
      if second.Some? {
        assert w.work[o := first.value][o := second.value] == w.work[o := second.value];
      }
    } else if second.Some? {
      assert (w.work - {o})[o := second.value] == w.work[o := second.value];
    }
  }

  /** Without work in progress a request does nothing. */
  lemma {:induction false} IdleRun(c: Cluster, w: World, o: Owner, faults: seq<Fault>, pick: Key)
    requires o !in w.work
    ensures Steps(c, w, Attempts(o, faults, pick)) == w
    decreases |faults|
  {
    RunAttempts(c, w, o, faults, pick);
    if faults != [] {
      assert Step(c, w, Progress(o, faults[0], pick)) == w;
      hide Step, Steps, Attempts;
      IdleRun(c, w, o, faults[1..], pick);
    }
  }

  lemma RecordingRun(c: Cluster, w: World, o: Owner, status: Status, faults: seq<Fault>, pick: Key)
    requires o in w.fips
    ensures var v := Steps(c, w.With(o, Some(Recording(status))), Attempts(o, faults, pick));
            o in v.fips && v.fips[o] == Ends(w.fips[o], Writes(status, faults))
  {
    var w1 := w.With(o, Some(Recording(status)));
    RunAttempts(c, w1, o, faults, pick);
    if faults != [] {
      var w2 := Step(c, w1, Progress(o, faults[0], pick));
      assert o !in w2.work && o in w2.fips && w2.fips[o] == Ends(w.fips[o], Writes(status, faults));
      hide Step, Steps, Attempts;
      IdleRun(c, w2, o, faults[1..], pick);
    }
  }

  /** One request of a call in progress. */
  lemma EnsuringStep(c: Cluster, w: World, o: Owner, view: View, env: Env, e: Ensure, fault: Fault, pick: Key)
    requires o in w.fips && Ready(env, e)
    ensures var (store, reply) := Serve(w.store, EnsureCall(o, view, env, e), fault);
            Step(c, w.With(o, Some(Ensuring(view, env, e))), Progress(o, fault, pick))
            == w.(store := store).With(o, After(view, env, EnsureNext(o, view, env, e, reply)))
  {
    var w1 := w.With(o, Some(Ensuring(view, env, e)));
    var (store, reply) := Serve(w.store, EnsureCall(o, view, env, e), fault);
    hide EnsureNext, EnsureCall, Serve, After, Ready;
    assert Step(c, w1, Progress(o, fault, pick)) == StepEnsuring(w1, o, view, env, e, fault);
    WithTwice(w.(store := store), o, Some(Ensuring(view, env, e)), After(view, env, EnsureNext(o, view, env, e, reply)));
  }

  lemma {:induction false} AllocatingRun(c: Cluster, w: World, o: Owner, view: View, env: Env, pc: Pc, faults: seq<Fault>, pick: Key)
    requires o in w.fips && env.Valid() && env.pool.Some?
    ensures var v := Steps(c, w.With(o, After(view, env, Settle(pc))), Attempts(o, faults, pick));
            o in v.fips && v.fips[o] == Ends(w.fips[o], Allocated(w.store, AllocatorOf(o, view, env.pool.value), pc, faults))
    decreases |faults|
  {
    var a, w1 := AllocatorOf(o, view, env.pool.value), w.With(o, After(view, env, Settle(pc)));
    hide Next, Call, Serve, AllocatorOf;
    if pc.Done? && pc.outcome.Leased? {
      hide Step, Steps, Attempts;
      RecordingRun(c, w, o, Status(pc.outcome.address, pc.outcome.prefixLength), faults, pick);
    } else if pc.Done? {
      hide Step, Steps, Attempts;
      IdleRun(c, w1, o, faults, pick);
    } else {
      RunAttempts(c, w1, o, faults, pick);
      hide Step, Steps, Attempts;
      if faults != [] {
        AllocatingIsClaims(o, view, env, pc, Serve(w.store, Call(a, pc), faults[0]).1);
        EnsuringStep(c, w, o, view, env, Allocating(pc), faults[0], pick);
        var (store, reply) := Serve(w.store, Call(a, pc), faults[0]);
        AllocatingRun(c, w.(store := store), o, view, env, Next(a, pc, reply), faults[1..], pick);
      }
    }
  }

  lemma OwnedRun(c: Cluster, w: World, o: Owner, view: View, env: Env, faults: seq<Fault>, pick: Key)
    requires o in w.fips && env.Valid() && Poolable(view, env) && WantsNone(view) && view.Recorded() != ""
    ensures var v := Steps(c, w.With(o, Some(Ensuring(view, env, AskOwned(env.used)))), Attempts(o, faults, pick));
            o in v.fips && v.fips[o] == Ends(w.fips[o], Chosen(w.store, o, view, env, faults))
  {
    hide TrimSpace, AddressObjectName, Start, Allocated, IsClaimedBy;
    var w1 := w.With(o, Some(Ensuring(view, env, AskOwned(env.used))));
    RunAttempts(c, w1, o, faults, pick);
    hide Step, Steps, Attempts;
    if faults != [] {
      EnsuringStep(c, w, o, view, env, AskOwned(env.used), faults[0], pick);
      var key := FloatingIPs.KeyOf(o, view.Recorded());
      if faults[0] == NoFault && Holds(w.store, o, key) {
        RecordingRun(c, w, o, Status(view.Recorded(), w.store[key].prefixLength), faults[1..], pick);
      } else {
        var a := AllocatorOf(o, view, env.pool.value);
        AllocatingRun(c, w, o, view, env, Start(a, env.used, env.ipv6), faults[1..], pick);
      }
    }
  }

  lemma ChosenRun(c: Cluster, w: World, o: Owner, view: View, env: Env, faults: seq<Fault>, pick: Key)
    requires o in w.fips && env.Valid()
    ensures var v := Steps(c, w.With(o, After(view, env, Choose(o, view, env))), Attempts(o, faults, pick));
            o in v.fips && v.fips[o] == Ends(w.fips[o], Chosen(w.store, o, view, env, faults))
  {
    hide TrimSpace, AddressObjectName, Start, Allocated, IsClaimedBy, Step, Steps, Attempts;
    if !Poolable(view, env) {
      IdleRun(c, w.With(o, None), o, faults, pick);
    } else if WantsNone(view) && view.Recorded() != "" {
      OwnedRun(c, w, o, view, env, faults, pick);
    } else {
      AllocatingRun(c, w, o, view, env, Start(AllocatorOf(o, view, env.pool.value), env.used, env.ipv6), faults, pick);
    }
  }

  lemma StartedRun(c: Cluster, w: World, o: Owner, view: View, env: Env, faults: seq<Fault>, pick: Key)
    requires o in w.fips && env.Valid()
    ensures var v := Steps(c, w.With(o, After(view, env, EnsureStart(o, view, env))), Attempts(o, faults, pick));
            o in v.fips && v.fips[o] == Ends(w.fips[o], Settles(w.store, o, view, env, faults))
  {
    hide TrimSpace, AddressObjectName, Choose, Chosen, IsClaimedBy;
    if view.Recorded() == "" {
      ChosenRun(c, w, o, view, env, faults, pick);
    } else {
      var w1 := w.With(o, Some(Ensuring(view, env, AskRecorded)));
      RunAttempts(c, w1, o, faults, pick);
      hide Step, Steps, Attempts;
      if faults != [] {
        EnsuringStep(c, w, o, view, env, AskRecorded, faults[0], pick);
        if faults[0] == NoFault && FloatingIPs.KeyOf(o, view.Recorded()) in w.store {
          RecordingRun(c, w, o, Settles(w.store, o, view, env, faults).status, faults[1..], pick);
        } else {
          ChosenRun(c, w, o, view, env, faults[1..], pick);
        }
      }
    }
  }

  /**
   * What one reconcile of an idle floating IP records, whatever the age of the status
   * it reads, whatever the spec and the pool, and whichever requests or replies are lost.
   */
  lemma ReconcileRecords(c: Cluster, w: World, o: Owner, spec: FipSpec, age: nat, env: Env, faults: seq<Fault>, pick: Key)
    requires o in w.fips && o !in w.work && env.Valid() && ValidSpec(spec, env.ipv6)
    ensures var v := Steps(c, w, OneReconcile(o, spec, age, env, faults, pick));
            o in v.fips && v.fips[o] == Ends(w.fips[o], Settles(w.store, o, View(spec, w.fips[o].Seen(age)), env, faults))
  {
    var view := View(spec, w.fips[o].Seen(age));
    assert Step(c, w, Reconcile(o, spec, age, env)) == w.With(o, After(view, env, EnsureStart(o, view, env))) by {
      hide ValidSpec, After, EnsureStart;
    }
    RunMore(c, w, Reconcile(o, spec, age, env), Attempts(o, faults, pick));
    hide Step, Steps, Attempts, Settles, Ends, After, EnsureStart, ValidSpec;
    StartedRun(c, w, o, view, env, faults, pick);
  }

  // ---------------------------------------------------------------- when one reconcile keeps the address

  /** How many questions about a recorded claim a reconcile asks before it allocates. */
  function Questions(view: View, env: Env): nat {
    if view.Recorded() == "" then 0 else if Poolable(view, env) && WantsNone(view) then 2 else 1
  }

  /** The first question that is answered, of those asked. */
  function FirstAnswer(view: View, env: Env, faults: seq<Fault>): (k: Option<nat>)
    ensures k.Some? ==> k.value < |faults|
  {
    if 0 < Questions(view, env) && Answered(faults, 0) then Some(0)
    else if 1 < Questions(view, env) && Answered(faults, 1) then Some(1)
    else None
  }

  /** No question answered, an allocation leases another address, and writes it. */
  predicate AllocatesOther(store: Store, o: Owner, view: View, env: Env, faults: seq<Fault>, address: string)
    requires env.Valid()
  {
    Poolable(view, env) && Questions(view, env) <= |faults| &&
    var s := FromPool(store, o, view, env, faults[Questions(view, env)..]);
    s.Writes? && Lands(s.rest) && s.status.address != address
  }

  /** What a live object has recorded is backed, so a question that is answered finds the claim. */
  lemma AnsweredIsSeen(c: Cluster, w: World, o: Owner, spec: FipSpec, age: nat)
    requires WorldInv(c, {}, w) && o in w.fips && !w.fips[o].deleting
    ensures var view := View(spec, w.fips[o].Seen(age));
            view.Recorded() != "" ==> Holds(w.store, o, FloatingIPs.KeyOf(o, view.Recorded()))
  {
    assert OwnerInv({}, w.store, o, w.fips[o], w.WorkOf(o)) by { hide OwnerInv, StoreInv, DeletionsProper; }
    SeenBacked({}, w.store, o, w.fips[o], age);
    hide WorkInv, Holds, TrimSpace, Canonical, FipInv;
  }

  lemma SettlesByAnswer(store: Store, o: Owner, view: View, env: Env, faults: seq<Fault>)
    requires env.Valid() && (view.Recorded() != "" ==> Holds(store, o, FloatingIPs.KeyOf(o, view.Recorded())))
    ensures var s, first := Settles(store, o, view, env, faults), FirstAnswer(view, env, faults);
            match first
            case Some(k) => s.Writes? && s.status.address == view.Recorded() && s.rest == faults[k + 1..]
            case None => s == if Poolable(view, env) && Questions(view, env) <= |faults|
                              then FromPool(store, o, view, env, faults[Questions(view, env)..]) else Nothing
  {
    hide TrimSpace, AddressObjectName, FromPool, IsClaimedBy;
    if |faults| > 1 {
      assert faults[1..][1..] == faults[2..];
    }
    assert faults[0..] == faults;
  }

  /**
   * One reconcile of an idle floating IP keeps its address exactly when a question for
   * the recorded claim is answered and was about that address (or the write of another
   * is lost), or no question is answered and no allocation comes to record another.
   */
  lemma ReconcileKeepsExactly(c: Cluster, w: World, o: Owner, spec: FipSpec, age: nat, env: Env, faults: seq<Fault>, pick: Key, address: string)
    requires WorldInv(c, {}, w) && o in w.fips && o !in w.work && !w.fips[o].deleting && LastIs(w.fips[o], address)
    requires env.Valid() && ValidSpec(spec, env.ipv6)
    ensures var v, view := Steps(c, w, OneReconcile(o, spec, age, env, faults, pick)), View(spec, w.fips[o].Seen(age));
            o in v.fips &&
            (LastIs(v.fips[o], address) <==>
               match FirstAnswer(view, env, faults)
               case Some(k) => view.Recorded() == address || !Lands(faults[k + 1..])
               case None => !AllocatesOther(w.store, o, view, env, faults, address))
  {
    var view := View(spec, w.fips[o].Seen(age));
    ReconcileRecords(c, w, o, spec, age, env, faults, pick);
    AnsweredIsSeen(c, w, o, spec, age);
    SettlesByAnswer(w.store, o, view, env, faults);
    EndsKeeps(w.fips[o], Settles(w.store, o, view, env, faults), address);
    hide FirstAnswer, Questions, Poolable, Ends, LastIs, Lands, WorldInv, Steps, OneReconcile, Settles, FromPool, TrimSpace, AddressObjectName, ValidSpec, Holds;
  }

  lemma EndsKeeps(fip: Fip, s: Settlement, address: string)
    requires LastIs(fip, address)
    ensures LastIs(Ends(fip, s), address) <==> !(s.Writes? && Lands(s.rest) && s.status.address != address)
  {
  }

  /** A reconcile that sees the status as it is and has a question answered keeps the address. */
  lemma CurrentIsRecorded(fip: Fip, spec: FipSpec, address: string)
    requires LastIs(fip, address) && Canonical(address)
    ensures View(spec, fip.Seen(0)).Recorded() == address != ""
  {
    CanonicalIsTrimmed(address);
  }

  // ---------------------------------------------------------------- how an address moves

  /** The search leases the lowest free address when its first create is answered. */
  lemma FreeIsAllocated(store: Store, o: Owner, view: View, env: Env, free: string)
    requires env.Valid() && env.pool.Some? && WantsNone(view)
    requires FirstFreeOf(env.pool.value, env.used) == Found(free) && FloatingIPs.KeyOf(o, free) !in store
    ensures FromPool(store, o, view, env, [NoFault, NoFault]) == Writes(Status(free, env.pool.value.network.ones), [NoFault])
  {
    var a := AllocatorOf(o, view, env.pool.value);
    TrimOfTrimmed("", GoSpace);
    hide TrimSpace, AddressObjectName, FirstFreeOf;
    assert Start(a, env.used, env.ipv6) == TryFree(0, free, env.used);
    assert Serve(store, Call(a, TryFree(0, free, env.used)), NoFault).1 == Created;
    assert [NoFault, NoFault][1..] == [NoFault];
  }

  /** The wanted address is leased when its question and its create are answered. */
  lemma WantedIsAllocated(store: Store, o: Owner, view: View, env: Env, wanted: string)
    requires env.Valid() && env.pool.Some? && wanted == TrimSpace(view.spec.address) != ""
    requires ValidateIPv4Address(wanted, env.ipv6) == None && ContainsIPv4(env.pool.value.network, wanted, env.ipv6)
    requires wanted !in env.used && FloatingIPs.KeyOf(o, wanted) !in store
    ensures FromPool(store, o, view, env, [NoFault, NoFault, NoFault]) == Writes(Status(wanted, env.pool.value.network.ones), [NoFault])
  {
    var a := AllocatorOf(o, view, env.pool.value);
    TrimShape(view.spec.address, GoSpace);
    TrimOfTrimmed(wanted, GoSpace);
    assert a.Wanted() == wanted;
    hide TrimSpace, AddressObjectName, FirstFreeOf, ValidateIPv4Address, ContainsIPv4;
    assert Start(a, env.used, env.ipv6) == Pc.AskPreferred(env.used);
    assert Serve(store, Call(a, Pc.AskPreferred(env.used)), NoFault) == (store, NotFound);
    assert Serve(store, Call(a, TakePreferred(env.used)), NoFault).1 == Created;
    assert [NoFault, NoFault, NoFault][1..] == [NoFault, NoFault] && [NoFault, NoFault][1..] == [NoFault];
  }

  /** A move to an address with no claim yet leaves the old claim behind. */
  lemma MovedFrom(c: Cluster, w: World, o: Owner, spec: FipSpec, age: nat, env: Env, faults: seq<Fault>, pick: Key, address: string, next: string)
    requires c.Valid() && WorldInv(c, {}, w) && o in w.fips && o !in w.work && !w.fips[o].deleting && LastIs(w.fips[o], address)
    requires env.Valid() && ValidSpec(spec, env.ipv6) && FloatingIPs.KeyOf(o, next) !in w.store
    requires var s := Settles(w.store, o, View(spec, w.fips[o].Seen(age)), env, faults);
             s.Writes? && s.status.address == next && Lands(s.rest)
    ensures Moved(c, w, OneReconcile(o, spec, age, env, faults, pick), o, address, next)
  {
    hide Settles, ValidSpec, WorldInv, Steps;
    var events := OneReconcile(o, spec, age, env, faults, pick);
    var v := Steps(c, w, events);
    ReconcileRecords(c, w, o, spec, age, env, faults, pick);
    assert AllWithin({}, events);
    RunKeepsInv(c, {}, w, events);
    hide OneReconcile;
    BothBacked(c, w, v, o, Settles(w.store, o, View(spec, w.fips[o].Seen(age)), env, faults).status, address);
  }

  lemma BothBacked(c: Cluster, w: World, v: World, o: Owner, status: Status, address: string)
    requires WorldInv(c, {}, w) && WorldInv(c, {}, v) && o in w.fips && o in v.fips
    requires !w.fips[o].deleting && LastIs(w.fips[o], address) && FloatingIPs.KeyOf(o, status.address) !in w.store
    requires v.fips[o] == w.fips[o].(history := w.fips[o].history + [status])
    ensures LastIs(v.fips[o], status.address) && status.address != address && !v.fips[o].deleting
    ensures Holds(v.store, o, FloatingIPs.KeyOf(o, status.address)) && Holds(v.store, o, FloatingIPs.KeyOf(o, address))
  {
    hide WorldInv, Holds, FloatingIPs.KeyOf;
    var n := |w.fips[o].history|;
    HistoryBacked(c, w, o, n - 1, address);
    HistoryBacked(c, v, o, n - 1, address);
    HistoryBacked(c, v, o, n, status.address);
  }

  lemma HistoryBacked(c: Cluster, w: World, o: Owner, i: nat, address: string)
    requires WorldInv(c, {}, w) && o in w.fips && !w.fips[o].deleting
    requires i < |w.fips[o].history| && w.fips[o].history[i].address == address
    ensures Holds(w.store, o, FloatingIPs.KeyOf(o, address)) && FloatingIPs.KeyOf(o, address) in w.store
  {
    hide StoreInv, WorkInv, DeletionsProper, Canonical, AddressObjectName, IsClaimedBy;
    assert OwnerInv({}, w.store, o, w.fips[o], w.WorkOf(o));
    assert Backed({}, w.store, o, w.fips[o].history[i].address);
  }

  /** After the run o has recorded another address, and holds a claim on either. */
  ghost predicate Moved(c: Cluster, w: World, events: seq<Event>, o: Owner, address: string, next: string) {
    var v := Steps(c, w, events);
    && o in v.fips && !v.fips[o].deleting && LastIs(v.fips[o], next) && next != address
    && Holds(v.store, o, FloatingIPs.KeyOf(o, next)) && Holds(v.store, o, FloatingIPs.KeyOf(o, address))
  }

  /**
   * One stale read is enough, with every answer arriving: a reconcile that sees the
   * status as it was before the first write moves to the lowest free address.
   */
  lemma StaleReadMovesAddress(c: Cluster, w: World, o: Owner, spec: FipSpec, age: nat, env: Env, pick: Key, address: string, free: string)
    requires c.Valid() && WorldInv(c, {}, w) && o in w.fips && o !in w.work && !w.fips[o].deleting && LastIs(w.fips[o], address)
    requires age >= |w.fips[o].history|
    requires env.Valid() && env.pool.Some? && ValidSpec(spec, env.ipv6)
    requires TrimSpace(spec.poolKind) == "IPPool" && TrimSpace(spec.address) == ""
    requires FirstFreeOf(env.pool.value, env.used) == Found(free) && FloatingIPs.KeyOf(o, free) !in w.store
    ensures Moved(c, w, OneReconcile(o, spec, age, env, [NoFault, NoFault], pick), o, address, free)
  {
    var view := View(spec, w.fips[o].Seen(age));
    TrimOfTrimmed("", GoSpace);
    FreeIsAllocated(w.store, o, view, env, free);
    hide WorldInv, FirstFreeOf, AddressObjectName, ValidSpec, FromPool, TrimSpace, Moved, OneReconcile, LastIs;
    assert Settles(w.store, o, view, env, [NoFault, NoFault]) == FromPool(w.store, o, view, env, [NoFault, NoFault]);
    MovedFrom(c, w, o, spec, age, env, [NoFault, NoFault], pick, address, free);
  }

  /** Without an answer a reconcile allocates from the pool. */
  lemma UnansweredAllocates(store: Store, o: Owner, view: View, env: Env, faults: seq<Fault>)
    requires env.Valid() && Poolable(view, env) && view.Recorded() != "" && faults != [] && faults[0] != NoFault
    ensures !WantsNone(view) ==> Settles(store, o, view, env, faults) == FromPool(store, o, view, env, faults[1..])
    ensures WantsNone(view) && |faults| > 1 && faults[1] != NoFault
            ==> Settles(store, o, view, env, faults) == FromPool(store, o, view, env, faults[1..][1..])
  {
    hide TrimSpace, AddressObjectName, FromPool, Holds;
  }

  /** With a wanted address set, losing the first answer alone moves to that address. */
  lemma WantedMovesAddress(c: Cluster, w: World, o: Owner, spec: FipSpec, env: Env, pick: Key, address: string)
    requires c.Valid() && WorldInv(c, {}, w) && o in w.fips && o !in w.work && !w.fips[o].deleting && LastIs(w.fips[o], address)
    requires env.Valid() && env.pool.Some? && ValidSpec(spec, env.ipv6)
    requires TrimSpace(spec.poolKind) == "IPPool" && TrimSpace(spec.address) != ""
    requires ContainsIPv4(env.pool.value.network, TrimSpace(spec.address), env.ipv6)
    requires TrimSpace(spec.address) !in env.used && FloatingIPs.KeyOf(o, TrimSpace(spec.address)) !in w.store
    ensures Moved(c, w, OneReconcile(o, spec, 0, env, [RequestLost, NoFault, NoFault, NoFault], pick), o, address, TrimSpace(spec.address))
  {
    var view, wanted := View(spec, w.fips[o].Seen(0)), TrimSpace(spec.address);
    LastIsCanonical(c, w, o, address);
    CurrentIsRecorded(w.fips[o], spec, address);
    WantedIsAllocated(w.store, o, view, env, wanted);
    hide WorldInv, FirstFreeOf, AddressObjectName, FromPool, Settles, TrimSpace, Moved, OneReconcile, LastIs, ContainsIPv4, ValidSpec, Canonical, ValidateIPv4Address;
    var faults := [RequestLost, NoFault, NoFault, NoFault];
    assert faults[1..] == [NoFault, NoFault, NoFault];
    UnansweredAllocates(w.store, o, view, env, faults);
    MovedFrom(c, w, o, spec, 0, env, faults, pick, address, wanted);
  }

  /** Without one, both answers have to be lost; then it moves to the lowest free address. */
  lemma LostReadsMoveAddress(c: Cluster, w: World, o: Owner, spec: FipSpec, env: Env, pick: Key, address: string, free: string)
    requires c.Valid() && WorldInv(c, {}, w) && o in w.fips && o !in w.work && !w.fips[o].deleting && LastIs(w.fips[o], address)
    requires env.Valid() && env.pool.Some? && ValidSpec(spec, env.ipv6)
    requires TrimSpace(spec.poolKind) == "IPPool" && TrimSpace(spec.address) == ""
    requires FirstFreeOf(env.pool.value, env.used) == Found(free) && FloatingIPs.KeyOf(o, free) !in w.store
    ensures Moved(c, w, OneReconcile(o, spec, 0, env, [RequestLost, RequestLost, NoFault, NoFault], pick), o, address, free)
  {
    var view := View(spec, w.fips[o].Seen(0));
    LastIsCanonical(c, w, o, address);
    CurrentIsRecorded(w.fips[o], spec, address);
    FreeIsAllocated(w.store, o, view, env, free);
    hide WorldInv, FirstFreeOf, AddressObjectName, FromPool, Settles, TrimSpace, Moved, OneReconcile, LastIs, ValidSpec, Canonical, Holds;
    var faults := [RequestLost, RequestLost, NoFault, NoFault];
    assert faults[1..][1..] == [NoFault, NoFault];
    UnansweredAllocates(w.store, o, view, env, faults);
    MovedFrom(c, w, o, spec, 0, env, faults, pick, address, free);
  }

  lemma LastIsCanonical(c: Cluster, w: World, o: Owner, address: string)
    requires WorldInv(c, {}, w) && o in w.fips && !w.fips[o].deleting && LastIs(w.fips[o], address)
    ensures Canonical(address)
  {
    LastBacked(c, {}, w, o, address);
    hide Canonical, WorldInv;
  }

  // ---------------------------------------------------------------- when a run keeps the address

  /** The address a request of a call is about. */
  function Target(o: Owner, view: View, env: Env, e: Ensure): string
    requires Ready(env, e)
  {
    match e
    case Allocating(TryFree(_, free, _)) => free
    case Allocating(RecheckFree(_, free, _)) => free
    case Allocating(_) => AllocatorOf(o, view, env.pool.value).Wanted()
    case _ => view.Recorded()
  }

  /** The request is answered, and leases its address: a create succeeds, or a claim is found that will do. */
  predicate Granted(store: Store, o: Owner, e: Ensure, request: Request, fault: Fault) {
    fault == NoFault &&
    match request
    case Create(key, _) => key !in store
    case Get(key) => key in store && (e.AskRecorded? || IsClaimedBy(store[key], o))
  }

  /** A request about another address is granted to a reconcile of o. */
  predicate Strays(w: World, event: Event, o: Owner, address: string) {
    && event.Progress? && event.o == o && o in w.fips && !w.fips[o].deleting
    && o in w.work && w.work[o].Ensuring?
    && var (view, env, e) := (w.work[o].view, w.work[o].env, w.work[o].phase);
       Ready(env, e) && Target(o, view, env, e) != address && Granted(w.store, o, e, EnsureCall(o, view, env, e), event.fault)
  }

  /** The address is the recorded one, and no write of another is under way. */
  predicate Holding(w: World, o: Owner, address: string) {
    o in w.fips && !w.fips[o].deleting ==>
      && LastIs(w.fips[o], address)
      && (o in w.work && w.work[o].Recording? ==> w.work[o].status.address == address)
  }

  /** A request leases its address exactly when it is granted. */
  lemma GrantedLeases(store: Store, o: Owner, view: View, env: Env, e: Ensure, fault: Fault)
    requires Ready(env, e)
    ensures var request := EnsureCall(o, view, env, e);
            var next := After(view, env, EnsureNext(o, view, env, e, Serve(store, request, fault).1));
            && (next.Some? && next.value.Recording? <==> Granted(store, o, e, request, fault))
            && (next.Some? && next.value.Recording? ==> next.value.status.address == Target(o, view, env, e))
            && (next.Some? ==> next.value.Recording? || next.value.Ensuring?)
  {
    hide TrimSpace, AddressObjectName, FirstFreeOf, IsClaimedBy, Canonical, ValidateIPv4Address, ContainsIPv4;
    ChooseFits(o, view, env);
    if env.pool.Some? {
      StartInv(AllocatorOf(o, view, env.pool.value), env.used, env.ipv6);
      if e.AskOwned? {
        StartInv(AllocatorOf(o, view, env.pool.value), e.used, env.ipv6);
      }
    }
    hide Choose, Start, PcInv;
  }

  /** Working on p leaves the entries of every other object alone. */
  lemma OthersWork(w: World, p: Owner, fault: Fault, pick: Key, o: Owner)
    requires p in w.work && p in w.fips && o != p
    ensures var v := StepOwn(w, p, fault, pick);
            && (o in v.fips <==> o in w.fips) && (o in w.fips ==> v.fips[o] == w.fips[o])
            && (o in v.work <==> o in w.work) && (o in w.work ==> v.work[o] == w.work[o])
  {
    hide After, EnsureNext, EnsureCall, Serve, Mine, IsClaimedBy, Ready;
  }

  lemma HoldingEnsuring(c: Cluster, w: World, o: Owner, fault: Fault, pick: Key, address: string)
    requires Holding(w, o, address) && o in w.work && o in w.fips && !w.fips[o].deleting && w.work[o].Ensuring?
    requires Ready(w.work[o].env, w.work[o].phase)
    ensures Holding(Step(c, w, Progress(o, fault, pick)), o, address) <==> !Strays(w, Progress(o, fault, pick), o, address)
  {
    var view, env, e := w.work[o].view, w.work[o].env, w.work[o].phase;
    GrantedLeases(w.store, o, view, env, e, fault);
    hide EnsureCall, EnsureNext, Serve, After, Ready, Target, Granted;
    assert Step(c, w, Progress(o, fault, pick)) == StepEnsuring(w, o, view, env, e, fault);
  }

  lemma HoldingRecording(c: Cluster, w: World, o: Owner, fault: Fault, pick: Key, address: string)
    requires Holding(w, o, address) && o in w.work && o in w.fips && !w.fips[o].deleting && w.work[o].Recording?
    ensures Holding(Step(c, w, Progress(o, fault, pick)), o, address)
  {
    hide StepEnsuring, StepLooking, StepDeleting, Mine, Ready;
  }

  /** What a live object is worked on for. */
  lemma LiveWork(c: Cluster, x: set<Key>, w: World, o: Owner)
    requires WorldInv(c, x, w) && o in w.work && o in w.fips && !w.fips[o].deleting
    ensures w.work[o].Recording? || (w.work[o].Ensuring? && Ready(w.work[o].env, w.work[o].phase))
  {
    assert OwnerInv(x, w.store, o, w.fips[o], w.WorkOf(o)) by { hide OwnerInv, StoreInv, DeletionsProper; }
    hide FipInv, WorldInv, Backed, PcInv, Ready;
  }

  /** One step keeps the address and plans no other, unless it strays. */
  lemma HoldingStep(c: Cluster, x: set<Key>, w: World, event: Event, o: Owner, address: string)
    requires WorldInv(c, x, w) && Holding(w, o, address)
    ensures Holding(Step(c, w, event), o, address) <==> !Strays(w, event, o, address)
  {
    if event.Progress? && event.o in w.work && event.o in w.fips {
      HoldingProgress(c, x, w, event.o, event.fault, event.pick, o, address);
    } else if event.Reconcile? {
      HoldingReconcile(c, w, event.o, event.spec, event.age, event.env, o, address);
      hide Step, WorldInv, Holding;
    } else {
      hide WorldInv, DeleteStart, Canonical, AddressObjectName, IsClaimedBy, Ready, Granted, Target, StepOwn;
    }
  }

  lemma HoldingProgress(c: Cluster, x: set<Key>, w: World, p: Owner, fault: Fault, pick: Key, o: Owner, address: string)
    requires WorldInv(c, x, w) && Holding(w, o, address) && p in w.work && p in w.fips
    ensures Holding(Step(c, w, Progress(p, fault, pick)), o, address) <==> !Strays(w, Progress(p, fault, pick), o, address)
  {
    if p != o {
      OthersWork(w, p, fault, pick, o);
      hide WorldInv, StepOwn;
    } else if w.fips[o].deleting {
      DoomedStaysDoomed(w, o, fault, pick);
      hide WorldInv, StepOwn;
    } else {
      LiveWork(c, x, w, o);
      hide WorldInv, Ready, Holding, Strays, Step;
      if w.work[o].Ensuring? {
        HoldingEnsuring(c, w, o, fault, pick, address);
      } else {
        HoldingRecording(c, w, o, fault, pick, address);
        assert !Strays(w, Progress(o, fault, pick), o, address) by { NotEnsuring(w, o, fault, pick, address); }
      }
    }
  }

  lemma NotEnsuring(w: World, o: Owner, fault: Fault, pick: Key, address: string)
    requires o in w.work && w.work[o].Recording?
    ensures !Strays(w, Progress(o, fault, pick), o, address)
  {
  }

  lemma HoldingReconcile(c: Cluster, w: World, p: Owner, spec: FipSpec, age: nat, env: Env, o: Owner, address: string)
    requires Holding(w, o, address)
    ensures Holding(Step(c, w, Reconcile(p, spec, age, env)), o, address)
  {
    hide EnsureStart, After, ValidSpec;
    if p in w.fips && env.Valid() {
      StartNeverRecords(p, View(spec, w.fips[p].Seen(age)), env);
    }
  }

  lemma DoomedStaysDoomed(w: World, o: Owner, fault: Fault, pick: Key)
    requires o in w.work && o in w.fips && w.fips[o].deleting
    ensures var v := StepOwn(w, o, fault, pick); o in v.fips ==> v.fips[o].deleting
  {
    hide After, EnsureNext, EnsureCall, Serve, Mine, IsClaimedBy, Ready;
  }

  lemma StartNeverRecords(o: Owner, view: View, env: Env)
    requires env.Valid()
    ensures var next := After(view, env, EnsureStart(o, view, env)); next.Some? ==> next.value.Ensuring?
  {
    ChooseFits(o, view, env);
    hide Choose, PcInv, TrimSpace;
  }

  ghost predicate HoldsAfter(c: Cluster, w: World, events: seq<Event>, o: Owner, address: string, k: nat)
    requires k <= |events|
  {
    Holding(Steps(c, w, events[..k]), o, address)
  }

  ghost predicate StraysAt(c: Cluster, w: World, events: seq<Event>, o: Owner, address: string, k: nat)
    requires k < |events|
  {
    Strays(Steps(c, w, events[..k]), events[k], o, address)
  }

  lemma PrefixStep(c: Cluster, x: set<Key>, w: World, events: seq<Event>, o: Owner, address: string, k: nat)
    requires c.Valid() && WorldInv(c, x, w) && AllWithin(x, events) && k < |events|
    requires HoldsAfter(c, w, events, o, address, k)
    ensures HoldsAfter(c, w, events, o, address, k + 1) <==> !StraysAt(c, w, events, o, address, k)
  {
    RunKeepsInv(c, x, w, events[..k]);
    assert events[..k + 1] == events[..k] + [events[k]];
    RunAppend(c, w, events[..k], [events[k]]);
    RunOne(c, Steps(c, w, events[..k]), events[k]);
    HoldingStep(c, x, Steps(c, w, events[..k]), events[k], o, address);
    hide WorldInv, Steps, Step, Holding, Strays;
  }

  lemma {:induction false} HoldsUpTo(c: Cluster, x: set<Key>, w: World, events: seq<Event>, o: Owner, address: string, n: nat)
    requires c.Valid() && WorldInv(c, x, w) && AllWithin(x, events) && Holding(w, o, address) && n <= |events|
    requires forall k :: 0 <= k < n ==> !StraysAt(c, w, events, o, address, k)
    ensures HoldsAfter(c, w, events, o, address, n)
  {
    if n == 0 {
      assert Steps(c, w, events[..0]) == w;
    } else {
      hide WorldInv, HoldsAfter, StraysAt, AllWithin, Holding;
      HoldsUpTo(c, x, w, events, o, address, n - 1);
      PrefixStep(c, x, w, events, o, address, n - 1);
    }
  }

  /**
   * Over every run, with anything failing and any claim removed from outside: a
   * recorded address is kept all the way, and no write of another is ever under way,
   * exactly when no request about another address is granted to a reconcile of o.
   */
  lemma NeverMovesExactly(c: Cluster, x: set<Key>, w: World, events: seq<Event>, o: Owner, address: string)
    requires c.Valid() && WorldInv(c, x, w) && AllWithin(x, events) && Holding(w, o, address)
    ensures (forall k :: 0 <= k <= |events| ==> HoldsAfter(c, w, events, o, address, k))
       <==> (forall k :: 0 <= k < |events| ==> !StraysAt(c, w, events, o, address, k))
  {
    hide WorldInv, HoldsAfter, StraysAt, AllWithin, Holding;
    if forall k :: 0 <= k < |events| ==> !StraysAt(c, w, events, o, address, k) {
      forall k | 0 <= k <= |events| ensures HoldsAfter(c, w, events, o, address, k) {
        HoldsUpTo(c, x, w, events, o, address, k);
      }
    }
    if forall k :: 0 <= k <= |events| ==> HoldsAfter(c, w, events, o, address, k) {
      forall k | 0 <= k < |events| ensures !StraysAt(c, w, events, o, address, k) {
        PrefixStep(c, x, w, events, o, address, k);
      }
    }
  }

  // ---------------------------------------------------------------- so long as the reads arrive

  /** The recorded address is the given one, and the work in progress will not change that. */
  predicate Steady(w: World, o: Owner, address: string) {
    o in w.fips && !w.fips[o].deleting ==>
      && LastIs(w.fips[o], address)
      && (o in w.work ==>
            match w.work[o]
            case Ensuring(view, _, e) => e.AskRecorded? && view.Recorded() == address
            case Recording(status) => status.address == address
            case _ => false)
  }

  /**
   * The reads that matter arrive: a reconcile sees the status as it is, and its
   * question for the recorded claim is answered. Everything else may be old or lost.
   */
  predicate Heard(w: World, event: Event, o: Owner) {
    match event
    case Reconcile(p, _, age, _) => p == o ==> age == 0
    case Progress(p, fault, _) =>
      p == o && o in w.work && w.work[o].Ensuring? && w.work[o].phase.AskRecorded? ==> fault == NoFault
    case _ => true
  }

  ghost predicate AllHeard(c: Cluster, w: World, events: seq<Event>, o: Owner)
    decreases |events|
  {
    events == []
    || (AllHeard(c, w, events[..|events| - 1], o) && Heard(Steps(c, w, events[..|events| - 1]), events[|events| - 1], o))
  }

  lemma SteadyReconcile(c: Cluster, w: World, o: Owner, spec: FipSpec, env: Env, address: string)
    requires Steady(w, o, address) && Canonical(address)
    ensures Steady(Step(c, w, Reconcile(o, spec, 0, env)), o, address)
  {
    hide ValidSpec, Choose, Canonical, TrimSpace;
    CanonicalIsTrimmed(address);
  }

  lemma SteadyProgress(c: Cluster, w: World, o: Owner, fault: Fault, pick: Key, address: string)
    requires Steady(w, o, address) && Heard(w, Progress(o, fault, pick), o)
    requires o in w.fips && !w.fips[o].deleting ==> Holds(w.store, o, FloatingIPs.KeyOf(o, address))
    ensures Steady(Step(c, w, Progress(o, fault, pick)), o, address)
  {
    hide Choose, TrimSpace, AddressObjectName, IsClaimedBy, Mine, PcInv;
    if o in w.work && o in w.fips && !w.fips[o].deleting && w.work[o].Ensuring? {
      var view, env := w.work[o].view, w.work[o].env;
      assert EnsureCall(o, view, env, AskRecorded) == Get(FloatingIPs.KeyOf(o, address));
    }
  }

  lemma SteadyStep(c: Cluster, w: World, event: Event, o: Owner, address: string)
    requires Steady(w, o, address) && Heard(w, event, o)
    requires o in w.fips && !w.fips[o].deleting ==> Backed({}, w.store, o, address)
    ensures Steady(Step(c, w, event), o, address)
  {
    hide ValidSpec, StepOwn, After, EnsureStart, IsClaimedBy, Canonical, TrimSpace;
    if event.Reconcile? && event.o == o && o in w.fips && !w.fips[o].deleting {
      SteadyReconcile(c, w, o, event.spec, event.env, address);
    } else if event.Progress? && event.o == o {
      SteadyProgress(c, w, o, event.fault, event.pick, address);
    } else if event.Progress? && event.o in w.work && event.o in w.fips {
      OthersWork(w, event.o, event.fault, event.pick, o);
    }
  }

  lemma {:induction false} SteadyRun(c: Cluster, x: set<Key>, w: World, events: seq<Event>, o: Owner, address: string)
    requires c.Valid() && WorldInv(c, x, w) && AllWithin(x, events) && FloatingIPs.KeyOf(o, address) !in x
    requires AllHeard(c, w, events, o) && Steady(w, o, address)
    ensures WorldInv(c, x, Steps(c, w, events)) && Steady(Steps(c, w, events), o, address)
    decreases |events|
  {
    RunKeepsInv(c, x, w, events);
    if events != [] {
      var front := events[..|events| - 1];
      SteadyRun(c, x, w, front, o, address);
      var v := Steps(c, w, front);
      if o in v.fips && !v.fips[o].deleting {
        LastBacked(c, x, v, o, address);
      }
      hide WorldInv, Steady, Heard, Step, Backed;
      SteadyStep(c, v, events[|events| - 1], o, address);
    }
  }

  lemma LastBacked(c: Cluster, x: set<Key>, w: World, o: Owner, address: string)
    requires WorldInv(c, x, w) && o in w.fips && !w.fips[o].deleting && LastIs(w.fips[o], address)
    ensures Backed(x, w.store, o, address)
    ensures FloatingIPs.KeyOf(o, address) !in x ==> Backed({}, w.store, o, address)
  {
    hide StoreInv, WorkInv, DeletionsProper, Canonical, Holds;
    assert OwnerInv(x, w.store, o, w.fips[o], w.WorkOf(o));
  }

  /**
   * A recorded public address never changes while the floating IP lives: over every
   * run, whatever the spec says by then (another wanted address, another pool,
   * associated or not), whatever fails elsewhere, so long as the reads that matter
   * arrive and nobody else removes its claim. And its claim lives on.
   */
  lemma AddressNeverChanges(c: Cluster, x: set<Key>, w: World, events: seq<Event>, o: Owner, address: string)
    requires c.Valid() && WorldInv(c, x, w) && AllWithin(x, events) && FloatingIPs.KeyOf(o, address) !in x
    requires AllHeard(c, w, events, o) && o in w.fips && o !in w.work && LastIs(w.fips[o], address)
    requires var v := Steps(c, w, events); o in v.fips && !v.fips[o].deleting
    ensures var v := Steps(c, w, events); LastIs(v.fips[o], address) && Backed({}, v.store, o, address)
  {
    SteadyRun(c, x, w, events, o, address);
    LastBacked(c, x, Steps(c, w, events), o, address);
    hide WorldInv, Steps, AllHeard, Backed, LastIs;
  }
}
