// Where the claims of a run come from: each was asked for by some reconcile, as its
// spec says, or made by another controller.
module FloatingIPClaims {
  import opened Text
  import opened IPv4
  import opened PoolWindows
  import opened Claims
  import opened ClaimContents
  import opened FloatingIPs
  import opened FloatingIPRuns

  // ---------------------------------------------------------------- one call

  /** What a call is about to create is the wanted address or a free one, and unused. */
  predicate Avoids(a: Allocator, base: set<string>, pc: Pc) {
    match pc
    case AskPreferred(used) => base <= used && a.Wanted() != ""
    case TakePreferred(used) => base <= used && a.Wanted() != "" && a.Wanted() !in used
    case TryFree(_, free, used) => base <= used && a.Wanted() == "" && free !in used
    case RecheckFree(_, _, used) => base <= used && a.Wanted() == ""
    case _ => true
  }

  lemma AttemptAvoids(a: Allocator, base: set<string>, attempt: nat, used: set<string>)
    requires a.Valid() && base <= used && a.Wanted() == ""
    ensures Avoids(a, base, NextAttempt(a, attempt, used))
  {
    hide FirstFreeOf, Canonical, TrimSpace, AddressObjectName;
    FoundIsCanonical(a.window, used);
  }

  lemma StartAvoids(a: Allocator, used: set<string>, ipv6: Ipv6Parser)
    requires a.Valid()
    ensures Avoids(a, used, Start(a, used, ipv6))
  {
    hide NextAttempt, TrimSpace, ValidateIPv4Address, ContainsIPv4;
    if a.Wanted() == "" {
      AttemptAvoids(a, used, 0, used);
    }
  }

  lemma NextAvoids(a: Allocator, base: set<string>, pc: Pc, reply: Reply)
    requires a.Valid() && !pc.Done? && Avoids(a, base, pc)
    ensures Avoids(a, base, Next(a, pc, reply))
  {
    hide FirstFreeOf, NextAttempt, TrimSpace, IsClaimedBy;
    if pc.RecheckFree? {
      AttemptAvoids(a, base, pc.attempt + 1, pc.used);
    }
  }

  lemma CallAvoids(a: Allocator, base: set<string>, pc: Pc, store: Store, fault: Fault)
    requires a.Valid() && !pc.Done? && Avoids(a, base, pc)
    ensures var after := Serve(store, Call(a, pc), fault).0;
            forall k :: k in after && k !in store ==>
              after[k].address !in base && (a.Wanted() != "" ==> after[k].address == a.Wanted())
  {
    hide TrimSpace, AddressObjectName;
  }

  // ---------------------------------------------------------------- causes

  /** The reconcile asked for this claim. */
  ghost predicate AskedFor(event: Event, k: Key, claim: Claim) {
    && event.Reconcile? && event.env.pool.Some? && event.env.pool.value.network.ones <= 32
    && TrimSpace(event.spec.poolKind) == "IPPool"
    && MadeFrom(event.o, "IPPool", TrimSpace(event.spec.poolName), event.env.pool.value.network, k, claim)
    && claim.address !in event.env.used
    && (TrimSpace(event.spec.address) != "" ==> claim.address == TrimSpace(event.spec.address))
  }

  predicate MadeByOther(event: Event, k: Key, claim: Claim) {
    event.OtherClaims? && k == event.client.KeyOf(event.address) && claim == event.client.NewClaim(event.address)
  }

  ghost predicate Caused(events: seq<Event>, k: Key, claim: Claim) {
    exists i :: 0 <= i < |events| && (AskedFor(events[i], k, claim) || MadeByOther(events[i], k, claim))
  }

  ghost predicate Begun(events: seq<Event>, o: Owner, view: View, env: Env) {
    exists i :: 0 <= i < |events| && events[i].Reconcile? && events[i].o == o && events[i].spec == view.spec && events[i].env == env
  }

  ghost predicate PhaseFits(o: Owner, view: View, env: Env, e: Ensure) {
    && (e.AskOwned? || e.Allocating? ==> TrimSpace(view.spec.poolKind) == "IPPool" && env.pool.Some? && env.pool.value.Valid())
    && (e.AskOwned? ==> e.used == env.used)
    && (e.Allocating? ==> var a := AllocatorOf(o, view, env.pool.value); Aims(a, e.pc) && Avoids(a, env.used, e.pc))
  }

  ghost predicate WorkFits(events: seq<Event>, o: Owner, work: Work) {
    match work
    case Ensuring(view, env, e) => Begun(events, o, view, env) && Ready(env, e) && PhaseFits(o, view, env, e)
    case _ => true
  }

  /** Every claim has its cause among the events, and the work under way keeps to its own. */
  ghost predicate AllCaused(events: seq<Event>, w: World) {
    && (forall k :: k in w.store ==> Caused(events, k, w.store[k]))
    && (forall o :: o in w.work ==> WorkFits(events, o, w.work[o]))
  }

  predicate PoolsSound(events: seq<Event>) {
    forall i :: 0 <= i < |events| ==> SoundPool(events[i])
  }

  predicate SoundPool(event: Event) {
    event.Reconcile? && event.env.pool.Some? && event.env.pool.value.network.ones <= 32 ==> Sound(event.env.pool.value)
  }

  // ---------------------------------------------------------------- one reconcile

  lemma StartedFits(o: Owner, view: View, env: Env)
    requires env.Valid() && env.pool.Some? && Sound(env.pool.value) && TrimSpace(view.spec.poolKind) == "IPPool"
    ensures PhaseFits(o, view, env, Settle(Start(AllocatorOf(o, view, env.pool.value), env.used, env.ipv6)))
  {
    var a := AllocatorOf(o, view, env.pool.value);
    StartAims(a, env.used, env.ipv6);
    StartAvoids(a, env.used, env.ipv6);
    hide Start, Aims, Avoids, TrimSpace;
  }

  lemma ChosenFits(o: Owner, view: View, env: Env)
    requires env.Valid() && (env.pool.Some? ==> Sound(env.pool.value))
    ensures PhaseFits(o, view, env, Choose(o, view, env)) && PhaseFits(o, view, env, EnsureStart(o, view, env))
  {
    hide PhaseFits, Start, AllocatorOf, Sound, TrimSpace, Settle;
    if env.pool.Some? && TrimSpace(view.spec.poolKind) == "IPPool" {
      StartedFits(o, view, env);
    }
    NotAllocating(o, view, env);
  }

  lemma NotAllocating(o: Owner, view: View, env: Env)
    ensures PhaseFits(o, view, env, NoPool) && PhaseFits(o, view, env, AskRecorded)
    ensures forall outcome :: PhaseFits(o, view, env, Settled(outcome))
    ensures env.Valid() && env.pool.Some? && TrimSpace(view.spec.poolKind) == "IPPool" ==> PhaseFits(o, view, env, AskOwned(env.used))
  {
    hide TrimSpace;
  }

  lemma NextFits(o: Owner, view: View, env: Env, e: Ensure, reply: Reply)
    requires Ready(env, e) && PhaseFits(o, view, env, e) && (env.pool.Some? ==> Sound(env.pool.value))
    ensures PhaseFits(o, view, env, EnsureNext(o, view, env, e, reply))
  {
    NotAllocating(o, view, env);
    match e
    case AskRecorded =>
      ChosenFits(o, view, env);
      hide PhaseFits, Choose, Sound, TrimSpace;
    case AskOwned(_) =>
      StartedFits(o, view, env);
      hide PhaseFits, Start, Settle, Sound, TrimSpace, IsClaimedBy;
    case Allocating(pc) =>
      NextAims(AllocatorOf(o, view, env.pool.value), pc, reply);
      NextAvoids(AllocatorOf(o, view, env.pool.value), env.used, pc, reply);
      hide Next, Aims, Avoids, Sound, TrimSpace;
  }

  lemma AfterFits(events: seq<Event>, o: Owner, view: View, env: Env, e: Ensure)
    requires Begun(events, o, view, env) && env.Valid() && PhaseFits(o, view, env, e)
    requires e.Allocating? ==> !e.pc.Done?
    ensures After(view, env, e).Some? ==> WorkFits(events, o, After(view, env, e).value)
  {
    hide Begun;
  }

  lemma NeverDone(o: Owner, view: View, env: Env, e: Ensure, reply: Reply)
    requires env.Valid()
    ensures EnsureStart(o, view, env).Allocating? ==> !EnsureStart(o, view, env).pc.Done?
    ensures Ready(env, e) ==> var next := EnsureNext(o, view, env, e, reply); next.Allocating? ==> !next.pc.Done?
  {
    hide TrimSpace, Start, Next, IsClaimedBy;
  }

  /** One request of a reconcile that began so: what it creates was asked for. */
  lemma RequestCaused(events: seq<Event>, o: Owner, view: View, env: Env, e: Ensure, store: Store, fault: Fault)
    requires WorkFits(events, o, Ensuring(view, env, e))
    ensures var after := Serve(store, EnsureCall(o, view, env, e), fault).0;
            && (forall k :: k in store ==> k in after && after[k] == store[k])
            && (forall k :: k in after && k !in store ==> Caused(events, k, after[k]))
  {
    if e.Allocating? {
      var a := AllocatorOf(o, view, env.pool.value);
      CallMakes(a, e.pc, store, fault);
      CallAvoids(a, env.used, e.pc, store, fault);
      var i :| 0 <= i < |events| && events[i].Reconcile? && events[i].o == o && events[i].spec == view.spec && events[i].env == env;
      OwnRequest(events, i, o, view, env, e, store, fault);
    }
    hide Caused, Aims, Avoids, MadeFrom, Begun, TrimSpace, AddressObjectName;
  }

  lemma OwnRequest(events: seq<Event>, i: nat, o: Owner, view: View, env: Env, e: Ensure, store: Store, fault: Fault)
    requires Ready(env, e) && PhaseFits(o, view, env, e) && e.Allocating?
    requires i < |events| && events[i].Reconcile? && events[i].o == o && events[i].spec == view.spec && events[i].env == env
    ensures var after := Serve(store, EnsureCall(o, view, env, e), fault).0;
            forall k :: k in after && k !in store ==> Caused(events, k, after[k])
  {
    var a := AllocatorOf(o, view, env.pool.value);
    CallMakes(a, e.pc, store, fault);
    CallAvoids(a, env.used, e.pc, store, fault);
    TrimTwice(view.spec.address);
    hide Serve, Call, Aims, Avoids, MadeFrom, TrimSpace;
    forall k | k in Serve(store, EnsureCall(o, view, env, e), fault).0 && k !in store
      ensures Caused(events, k, Serve(store, EnsureCall(o, view, env, e), fault).0[k])
    {
      assert AskedFor(events[i], k, Serve(store, EnsureCall(o, view, env, e), fault).0[k]);
    }
  }

  // ---------------------------------------------------------------- runs

  lemma CausedLater(events: seq<Event>, event: Event, w: World)
    requires AllCaused(events, w)
    ensures AllCaused(events + [event], w)
  {
    hide AskedFor, MadeByOther, PhaseFits, Ready;
    var longer := events + [event];
    assert forall i :: 0 <= i < |events| ==> longer[i] == events[i];
    forall k | k in w.store ensures Caused(longer, k, w.store[k]) {
      var i :| 0 <= i < |events| && (AskedFor(events[i], k, w.store[k]) || MadeByOther(events[i], k, w.store[k]));
      assert longer[i] == events[i];
    }
    forall o | o in w.work ensures WorkFits(longer, o, w.work[o]) {
      assert WorkFits(events, o, w.work[o]);
      if w.work[o].Ensuring? {
        var i :| 0 <= i < |events| && events[i].Reconcile? && events[i].o == o
                 && events[i].spec == w.work[o].view.spec && events[i].env == w.work[o].env;
        assert longer[i] == events[i];
      }
    }
  }

  /** New work for o, over a store whose claims are all caused. */
  lemma WorkCaused(events: seq<Event>, w: World, v: World, o: Owner)
    requires AllCaused(events, w) && forall k :: k in v.store ==> Caused(events, k, v.store[k])
    requires v.work - {o} == w.work - {o} && (o in v.work ==> WorkFits(events, o, v.work[o]))
    ensures AllCaused(events, v)
  {
    hide Caused, WorkFits;
    forall p | p in v.work ensures WorkFits(events, p, v.work[p]) {
      if p != o {
        assert p in v.work - {o};
        assert p in w.work && v.work[p] == (v.work - {o})[p] == w.work[p];
      }
    }
  }

  lemma ReconcileCaused(c: Cluster, events: seq<Event>, w: World, o: Owner, spec: FipSpec, age: nat, env: Env)
    requires AllCaused(events, w) && |events| > 0 && events[|events| - 1] == Reconcile(o, spec, age, env)
    requires env.pool.Some? && env.pool.value.network.ones <= 32 ==> Sound(env.pool.value)
    ensures AllCaused(events, Step(c, w, Reconcile(o, spec, age, env)))
  {
    hide AllCaused, Sound, ValidSpec, EnsureStart, PhaseFits, After, WorkFits;
    if o in w.fips && o !in w.work && env.Valid() && ValidSpec(spec, env.ipv6) {
      var view := View(spec, w.fips[o].Seen(age));
      ChosenFits(o, view, env);
      NeverDone(o, view, env, AskRecorded, NotFound);
      assert Begun(events, o, view, env);
      AfterFits(events, o, view, env, EnsureStart(o, view, env));
      var v := w.With(o, After(view, env, EnsureStart(o, view, env)));
      StoreCaused(events, w);
      assert v.work - {o} == w.work - {o};
      WorkCaused(events, w, v, o);
    }
  }

  lemma StoreCaused(events: seq<Event>, w: World)
    requires AllCaused(events, w)
    ensures forall k :: k in w.store ==> Caused(events, k, w.store[k])
    ensures forall o :: o in w.work ==> WorkFits(events, o, w.work[o])
  {
  }

  lemma BegunSound(events: seq<Event>, o: Owner, view: View, env: Env)
    requires PoolsSound(events) && Begun(events, o, view, env)
    ensures env.pool.Some? && env.pool.value.network.ones <= 32 ==> Sound(env.pool.value)
  {
    hide Sound;
    var i :| 0 <= i < |events| && events[i].Reconcile? && events[i].o == o && events[i].spec == view.spec && events[i].env == env;
    assert SoundPool(events[i]);
  }

  lemma EnsuringFits(events: seq<Event>, o: Owner, view: View, env: Env, e: Ensure, reply: Reply)
    requires PoolsSound(events) && WorkFits(events, o, Ensuring(view, env, e))
    ensures Ready(env, e)
    ensures var next := After(view, env, EnsureNext(o, view, env, e, reply)); next.Some? ==> WorkFits(events, o, next.value)
  {
    hide Sound, Begun, PhaseFits, EnsureNext, After, PoolsSound, Waiting;
    BegunSound(events, o, view, env);
    NextFits(o, view, env, e, reply);
    NeverDone(o, view, env, e, reply);
    AfterFits(events, o, view, env, EnsureNext(o, view, env, e, reply));
  }

  /** Another store and other work for o. */
  lemma MovedCaused(events: seq<Event>, w: World, store: Store, o: Owner, next: Option<Work>)
    requires AllCaused(events, w) && (next.Some? ==> WorkFits(events, o, next.value))
    requires forall k :: k in store ==> Caused(events, k, store[k])
    ensures AllCaused(events, w.(store := store).With(o, next))
  {
    hide AllCaused, Caused, WorkFits;
    var v := w.(store := store).With(o, next);
    assert v.work - {o} == w.work - {o};
    WorkCaused(events, w, v, o);
  }

  lemma EnsuringCaused(events: seq<Event>, w: World, o: Owner, view: View, env: Env, e: Ensure, fault: Fault)
    requires AllCaused(events, w) && PoolsSound(events) && o in w.work && w.work[o] == Ensuring(view, env, e)
    ensures Ready(env, e) && AllCaused(events, StepEnsuring(w, o, view, env, e, fault))
  {
    StoreCaused(events, w);
    hide AllCaused, Caused, EnsureCall, EnsureNext, Serve, After, PoolsSound, WorkFits, Ready, World.With;
    EnsuringFits(events, o, view, env, e, Serve(w.store, EnsureCall(o, view, env, e), fault).1);
    RequestCaused(events, o, view, env, e, w.store, fault);
    var (store, reply) := Serve(w.store, EnsureCall(o, view, env, e), fault);
    forall k | k in store ensures Caused(events, k, store[k]) {
      assert k in w.store ==> Caused(events, k, w.store[k]);
    }
    MovedCaused(events, w, store, o, After(view, env, EnsureNext(o, view, env, e, reply)));
  }

  /** A smaller store, and work for o that asks for nothing. */
  lemma LessCaused(events: seq<Event>, w: World, v: World, o: Owner)
    requires AllCaused(events, w) && v.work - {o} == w.work - {o} && (o in v.work ==> !v.work[o].Ensuring?)
    requires forall k :: k in v.store ==> k in w.store && v.store[k] == w.store[k]
    ensures AllCaused(events, v)
  {
    hide Caused, Begun, Ready, PhaseFits;
    StoreCaused(events, w);
    forall k | k in v.store ensures Caused(events, k, v.store[k]) {
      assert Caused(events, k, w.store[k]);
    }
    WorkCaused(events, w, v, o);
  }

  /** Any other step of a worker makes no claim. */
  lemma OtherWorkCaused(events: seq<Event>, w: World, o: Owner, fault: Fault, pick: Key)
    requires AllCaused(events, w) && o in w.work && o in w.fips && !w.work[o].Ensuring?
    ensures AllCaused(events, StepOwn(w, o, fault, pick))
  {
    hide AllCaused, Mine, IsClaimedBy, StepEnsuring, Ready;
    var v := StepOwn(w, o, fault, pick);
    assert v.work - {o} == w.work - {o};
    if v != w {
      LessCaused(events, w, v, o);
    }
  }

  lemma OthersCaused(events: seq<Event>, w: World, client: Allocator, address: string)
    requires AllCaused(events, w) && |events| > 0 && events[|events| - 1] == OtherClaims(client, address)
    ensures AllCaused(events, w.(store := w.store[client.KeyOf(address) := client.NewClaim(address)]))
  {
    var key, claim := client.KeyOf(address), client.NewClaim(address);
    StoreCaused(events, w);
    assert MadeByOther(events[|events| - 1], key, claim);
    assert Caused(events, key, claim) by { hide AskedFor, MadeByOther; }
    hide Caused, WorkFits, AddressObjectName;
  }

  lemma RestCaused(c: Cluster, events: seq<Event>, w: World, event: Event)
    requires AllCaused(events, w) && |events| > 0 && events[|events| - 1] == event
    requires !event.Reconcile? && !event.Progress?
    ensures AllCaused(events, Step(c, w, event))
  {
    hide AllCaused, Canonical, AddressObjectName, Holds, TrimSpace;
    var v := Step(c, w, event);
    if v != w {
      match event {
        case OtherClaims(client, address) => OthersCaused(events, w, client, address);
        case BeginDelete(o, _, _) => LessCaused(events, w, v, o);
        case Crash(o) => LessCaused(events, w, v, o);
        case OtherReleases(_, _) => FewerCaused(events, w, v);
        case OutsideRemoves(_) => FewerCaused(events, w, v);
      }
    }
  }

  lemma FewerCaused(events: seq<Event>, w: World, v: World)
    requires AllCaused(events, w) && v.work == w.work
    requires forall k :: k in v.store ==> k in w.store && v.store[k] == w.store[k]
    ensures AllCaused(events, v)
  {
    hide Caused, WorkFits;
    forall k | k in v.store ensures Caused(events, k, v.store[k]) {
      assert Caused(events, k, w.store[k]);
    }
  }

  lemma StepCaused(c: Cluster, events: seq<Event>, w: World, event: Event)
    requires AllCaused(events, w) && PoolsSound(events) && |events| > 0 && events[|events| - 1] == event
    ensures AllCaused(events, Step(c, w, event))
  {
    match event
    case Reconcile(o, spec, age, env) =>
      assert SoundPool(events[|events| - 1]);
      hide AllCaused, PoolsSound, Step, Sound;
      ReconcileCaused(c, events, w, o, spec, age, env);
    case Progress(o, fault, pick) =>
      if o in w.work && o in w.fips {
        hide AllCaused, PoolsSound, StepEnsuring, StepRecording, StepLooking, StepDeleting, Mine, Ready;
        if w.work[o].Ensuring? {
          EnsuringCaused(events, w, o, w.work[o].view, w.work[o].env, w.work[o].phase, fault);
        } else {
          OtherWorkCaused(events, w, o, fault, pick);
        }
      }
    case _ =>
      hide AllCaused, PoolsSound, Step;
      RestCaused(c, events, w, event);
  }

  lemma {:induction false} RunCaused(c: Cluster, w: World, events: seq<Event>)
    requires Fresh(c, w) && PoolsSound(events)
    ensures AllCaused(events, Steps(c, w, events))
    decreases |events|
  {
    hide AllCaused, SoundPool, Step;
    if events == [] {
      NothingCaused(c, w);
    } else {
      var front, last := events[..|events| - 1], events[|events| - 1];
      assert events == front + [last];
      RunCaused(c, w, front);
      CausedLater(front, last, Steps(c, w, front));
      StepCaused(c, events, Steps(c, w, front), last);
    }
  }

  lemma NothingCaused(c: Cluster, w: World)
    requires Fresh(c, w)
    ensures AllCaused([], w)
  {
  }

  /**
   * Over every run on sound pools each claim was made by another controller, or asked
   * for by a reconcile: it is owned by that floating IP, names the pool of its spec
   * with that pool's prefix, has an address of the pool's network that was not among
   * the used ones, and it is the wanted address if the spec has one.
   */
  lemma ClaimsHaveACause(c: Cluster, w: World, events: seq<Event>, k: Key)
    requires Fresh(c, w) && PoolsSound(events) && k in Steps(c, w, events).store
    ensures Caused(events, k, Steps(c, w, events).store[k])
  {
    RunCaused(c, w, events);
    hide Fresh, PoolsSound, Steps, Caused, WorkFits;
  }
}
