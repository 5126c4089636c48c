// Claims removed by somebody else. The console deletes every claim whose reference
// names a VM, without comparing the kind, and an administrator may delete any. This
// module says exactly which removals break what `FloatingIPRuns` promises, and shows
// the runs that do.
module FloatingIPOutside {
  import opened MachineWords
  import opened Text
  import opened IPv4
  import opened PoolWindows
  import opened Claims
  import opened PreferredAddress
  import opened FloatingIPs
  import opened FloatingIPRuns
  import opened FloatingIPMoves

  // ---------------------------------------------------------------- what is promised

  /** Every address recorded for a live floating IP has a claim of its own. */
  predicate AllBacked(w: World) {
    forall o, i :: o in w.fips && !w.fips[o].deleting && 0 <= i < |w.fips[o].history|
      ==> Holds(w.store, o, FloatingIPs.KeyOf(o, w.fips[o].history[i].address))
  }

  predicate Neighbours(o: Owner, p: Owner) {
    o != p && o.namespace == p.namespace
  }

  /** No two live floating IPs of a namespace have ever recorded one address. */
  predicate NeverShared(w: World) {
    forall o, p, i, j ::
      o in w.fips && p in w.fips && Neighbours(o, p) && !w.fips[o].deleting && !w.fips[p].deleting
      && 0 <= i < |w.fips[o].history| && 0 <= j < |w.fips[p].history|
      ==> w.fips[o].history[i].address != w.fips[p].history[j].address
  }

  /** No two have recorded one address last. */
  ghost predicate NotSharedNow(w: World) {
    forall o, p, address ::
      o in w.fips && p in w.fips && Neighbours(o, p) && !w.fips[o].deleting && !w.fips[p].deleting && LastIs(w.fips[o], address)
      ==> !LastIs(w.fips[p], address)
  }

  /** Every claim a deletion removed was claimed by the floating IP being deleted. */
  predicate DeletionsOwn(w: World) {
    forall i :: 0 <= i < |w.deletions| ==> IsClaimedBy(w.deletions[i].claim, w.deletions[i].remover)
  }

  /** Somebody else may remove the claim of some address in the namespace of o. */
  ghost predicate Exposed(x: set<Key>, o: Owner) {
    exists n: U32 :: FloatingIPs.KeyOf(o, Render(n)) in x
  }

  lemma NotExposed(x: set<Key>, o: Owner, address: string)
    requires !Exposed(x, o) && Canonical(address)
    ensures FloatingIPs.KeyOf(o, address) !in x
  {
    hide Render, AddressObjectName;
    CanonicalIsRendered(address);
  }

  // ---------------------------------------------------------------- runs

  const ANY := Key("", "")

  function OnlyPool(n: U32): PoolWindow {
    PoolWindow(Network(n, 32), None, None, {}, "")
  }

  function Wanting(n: U32): FipSpec {
    FipSpec("IPPool", "pool", "vpc", Render(n), "")
  }

  function Around(n: U32, ipv6: Ipv6Parser): Env {
    Env(Some(OnlyPool(n)), {}, ipv6)
  }

  function Answer(o: Owner): Event {
    Progress(o, NoFault, ANY)
  }

  /** A reconcile that wants n, and as many answered requests. */
  function Reconciled(o: Owner, n: U32, ipv6: Ipv6Parser, requests: nat): seq<Event> {
    [Reconcile(o, Wanting(n), 0, Around(n, ipv6))] + seq(requests, i => Answer(o))
  }

  function Client(o: Owner, n: U32): Allocator {
    AllocatorOf(o, View(Wanting(n), Status("", 0)), OnlyPool(n))
  }

  /** What a floating IP without an address makes of it: a claim and a status. */
  function Claimed(w: World, o: Owner, n: U32): World
    requires o in w.fips
  {
    w.(store := w.store[FloatingIPs.KeyOf(o, Render(n)) := Client(o, n).NewClaim(Render(n))],
       fips := w.fips[o := w.fips[o].(history := w.fips[o].history + [Status(Render(n), 32)])])
  }

  lemma WordsAreTrimmed()
    ensures TrimSpace("IPPool") == "IPPool" && TrimSpace("pool") == "pool" && TrimSpace("vpc") == "vpc" && TrimSpace("") == ""
  {
    TrimOfTrimmed("IPPool", GoSpace);
    TrimOfTrimmed("pool", GoSpace);
    TrimOfTrimmed("vpc", GoSpace);
    TrimOfTrimmed("", GoSpace);
  }

  lemma RenderIsAccepted(n: U32, ipv6: Ipv6Parser)
    ensures OnlyPool(n).Valid() && TrimSpace(Render(n)) == Render(n) != ""
    ensures ValidateIPv4Address(Render(n), ipv6) == None && ContainsIPv4(OnlyPool(n).network, Render(n), ipv6)
  {
    assert Pow2(0) == 1;
    RenderShape(n);
    TrimOfTrimmed(Render(n), GoSpace);
    hide Render, TrimSpace, ValidateIPv4Address, ContainsIPv4, Pow2;
    var a := Allocator(Owner("", "", "", ""), OnlyPool(n), "", "", Render(n));
    HostIsAccepted(a, n, ipv6);
  }

  lemma WantingIsValid(n: U32, ipv6: Ipv6Parser)
    ensures Around(n, ipv6).Valid() && ValidSpec(Wanting(n), ipv6)
    ensures TrimSpace(Wanting(n).poolKind) == "IPPool" && TrimSpace(Render(n)) == Render(n) != ""
    ensures ValidateIPv4Address(Render(n), ipv6) == None && ContainsIPv4(OnlyPool(n).network, Render(n), ipv6)
  {
    WordsAreTrimmed();
    RenderIsAccepted(n, ipv6);
    hide Render, TrimSpace, ValidateIPv4Address, ContainsIPv4, Pow2;
  }

  /** The first request of a floating IP without an address asks for the wanted one. */
  lemma Asking(c: Cluster, w: World, o: Owner, n: U32)
    requires o in w.fips && o !in w.work && w.fips[o].history == []
    ensures var view, env := View(Wanting(n), Status("", 0)), Around(n, c.ipv6);
            && Ready(env, Allocating(Pc.AskPreferred({})))
            && Step(c, w, Reconcile(o, Wanting(n), 0, env)) == w.With(o, Some(Ensuring(view, env, Allocating(Pc.AskPreferred({})))))
  {
    WantingIsValid(n, c.ipv6);
    TrimOfTrimmed("", GoSpace);
    hide TrimSpace, Render, ValidateIPv4Address, ContainsIPv4, ValidSpec, FirstFreeOf;
    var view, env := View(Wanting(n), Status("", 0)), Around(n, c.ipv6);
    assert Start(Client(o, n), {}, c.ipv6) == Pc.AskPreferred({});
    assert EnsureStart(o, view, env) == Allocating(Pc.AskPreferred({}));
  }

  /** Both its requests are answered: the address is free, then it is taken. */
  lemma Taking(o: Owner, n: U32, ipv6: Ipv6Parser, store: Store)
    requires FloatingIPs.KeyOf(o, Render(n)) !in store
    ensures var view, env := View(Wanting(n), Status("", 0)), Around(n, ipv6);
            var ask, take := Allocating(Pc.AskPreferred({})), Allocating(TakePreferred({}));
            var key, claim := FloatingIPs.KeyOf(o, Render(n)), Client(o, n).NewClaim(Render(n));
            && Ready(env, ask) && Ready(env, take)
            && Serve(store, EnsureCall(o, view, env, ask), NoFault) == (store, NotFound)
            && EnsureNext(o, view, env, ask, NotFound) == take
            && Serve(store, EnsureCall(o, view, env, take), NoFault) == (store[key := claim], Created)
            && EnsureNext(o, view, env, take, Created) == Settled(Leased(Render(n), 32))
            && After(view, env, take) == Some(Ensuring(view, env, take))
            && After(view, env, Settled(Leased(Render(n), 32))) == Some(Recording(Status(Render(n), 32)))
            && IsClaimedBy(claim, o)
  {
    WantingIsValid(n, ipv6);
    hide TrimSpace, Render, AddressObjectName, ValidateIPv4Address, ContainsIPv4;
    assert Client(o, n).Wanted() == Render(n);
    assert Client(o, n).KeyOf(Render(n)) == FloatingIPs.KeyOf(o, Render(n));
  }

  lemma Written(c: Cluster, w: World, o: Owner, status: Status)
    requires o in w.fips && o !in w.work
    ensures Step(c, w.With(o, Some(Recording(status))), Answer(o))
         == w.(fips := w.fips[o := w.fips[o].(history := w.fips[o].history + [status])])
  {
    var w1 := w.With(o, Some(Recording(status)));
    assert w1.work - {o} == w.work;
    assert Step(c, w1, Answer(o)) == StepRecording(w1, o, status, NoFault);
  }

  lemma AnsweredRun(c: Cluster, w: World, o: Owner, n: U32, requests: nat)
    ensures Steps(c, w, Reconciled(o, n, c.ipv6, requests))
         == Answers(c, Step(c, w, Reconcile(o, Wanting(n), 0, Around(n, c.ipv6))), o, requests)
  {
    hide Step;
    RunMore(c, w, Reconcile(o, Wanting(n), 0, Around(n, c.ipv6)), seq(requests, i => Answer(o)));
    AnswersAreSteps(c, Step(c, w, Reconcile(o, Wanting(n), 0, Around(n, c.ipv6))), o, requests);
  }

  ghost function Answers(c: Cluster, w: World, o: Owner, requests: nat): World
    decreases requests
  {
    if requests == 0 then w else Answers(c, Step(c, w, Answer(o)), o, requests - 1)
  }

  lemma {:induction false} AnswersAreSteps(c: Cluster, w: World, o: Owner, requests: nat)
    ensures Steps(c, w, seq(requests, i => Answer(o))) == Answers(c, w, o, requests)
    decreases requests
  {
    hide Step;
    var events := seq(requests, i => Answer(o));
    if requests == 0 {
      assert events == [];
    } else {
      assert events == [Answer(o)] + seq(requests - 1, i => Answer(o));
      RunMore(c, w, Answer(o), seq(requests - 1, i => Answer(o)));
      AnswersAreSteps(c, Step(c, w, Answer(o)), o, requests - 1);
    }
  }

  lemma FewAnswers(c: Cluster, w: World, o: Owner)
    ensures Answers(c, w, o, 2) == Step(c, Step(c, w, Answer(o)), Answer(o))
    ensures Answers(c, w, o, 3) == Step(c, Step(c, Step(c, w, Answer(o)), Answer(o)), Answer(o))
  {
    hide Step;
    assert Answers(c, Step(c, w, Answer(o)), o, 2) == Step(c, Step(c, Step(c, w, Answer(o)), Answer(o)), Answer(o));
  }

  /** The two requests of a claim, step by step. */
  lemma AskStep(c: Cluster, w: World, o: Owner, n: U32)
    requires o in w.fips && FloatingIPs.KeyOf(o, Render(n)) !in w.store
    ensures var view, env := View(Wanting(n), Status("", 0)), Around(n, c.ipv6);
            Step(c, w.With(o, Some(Ensuring(view, env, Allocating(Pc.AskPreferred({}))))), Answer(o))
            == w.With(o, Some(Ensuring(view, env, Allocating(TakePreferred({})))))
  {
    hide Step, Render, TrimSpace, FloatingIPs.KeyOf, EnsureCall, EnsureNext, Serve, Ready, IsClaimedBy, Client, After, Around, Wanting, World.With;
    Taking(o, n, c.ipv6, w.store);
    EnsuringStep(c, w, o, View(Wanting(n), Status("", 0)), Around(n, c.ipv6), Allocating(Pc.AskPreferred({})), NoFault, ANY);
  }

  lemma TakeStep(c: Cluster, w: World, o: Owner, n: U32)
    requires o in w.fips && FloatingIPs.KeyOf(o, Render(n)) !in w.store
    ensures var view, env := View(Wanting(n), Status("", 0)), Around(n, c.ipv6);
            Step(c, w.With(o, Some(Ensuring(view, env, Allocating(TakePreferred({}))))), Answer(o))
            == w.(store := w.store[FloatingIPs.KeyOf(o, Render(n)) := Client(o, n).NewClaim(Render(n))])
                .With(o, Some(Recording(Status(Render(n), 32))))
  {
    hide Step, Render, TrimSpace, FloatingIPs.KeyOf, EnsureCall, EnsureNext, Serve, Ready, IsClaimedBy, Client, After, Around, Wanting, World.With;
    Taking(o, n, c.ipv6, w.store);
    EnsuringStep(c, w, o, View(Wanting(n), Status("", 0)), Around(n, c.ipv6), Allocating(TakePreferred({})), NoFault, ANY);
  }

  lemma ClaimRun(c: Cluster, w: World, o: Owner, n: U32)
    requires o in w.fips && o !in w.work && w.fips[o].history == [] && FloatingIPs.KeyOf(o, Render(n)) !in w.store
    ensures Steps(c, w, Reconciled(o, n, c.ipv6, 3)) == Claimed(w, o, n)
    ensures IsClaimedBy(Client(o, n).NewClaim(Render(n)), o)
  {
    var store := w.store[FloatingIPs.KeyOf(o, Render(n)) := Client(o, n).NewClaim(Render(n))];
    Taking(o, n, c.ipv6, w.store);
    hide Step, Steps, Reconciled, Render, TrimSpace, AddressObjectName, EnsureCall, EnsureNext, Serve, Ready, IsClaimedBy, Client, World.With, Answers;
    Asking(c, w, o, n);
    AskStep(c, w, o, n);
    TakeStep(c, w, o, n);
    AnsweredRun(c, w, o, n, 3);
    FewAnswers(c, Step(c, w, Reconcile(o, Wanting(n), 0, Around(n, c.ipv6))), o);
    Written(c, w.(store := store), o, Status(Render(n), 32));
  }

  /** A reconcile that reads the address asks for its claim; any claim under the name will do. */
  lemma Keeping(c: Cluster, w: World, o: Owner, n: U32) returns (status: Status)
    requires o in w.fips && o !in w.work && LastIs(w.fips[o], Render(n)) && FloatingIPs.KeyOf(o, Render(n)) in w.store
    ensures status.address == Render(n)
    ensures var view, env := View(Wanting(n), w.fips[o].Seen(0)), Around(n, c.ipv6);
            var claim := w.store[FloatingIPs.KeyOf(o, Render(n))];
            && Ready(env, AskRecorded)
            && Step(c, w, Reconcile(o, Wanting(n), 0, env)) == w.With(o, Some(Ensuring(view, env, AskRecorded)))
            && Serve(w.store, EnsureCall(o, view, env, AskRecorded), NoFault) == (w.store, Hit(claim))
            && After(view, env, EnsureNext(o, view, env, AskRecorded, Hit(claim))) == Some(Recording(status))
  {
    var view, env := View(Wanting(n), w.fips[o].Seen(0)), Around(n, c.ipv6);
    WantingIsValid(n, c.ipv6);
    LastIsRead(w, o, n);
    hide Render, TrimSpace, AddressObjectName, ValidSpec, World.With, EnsureStart, EnsureNext, EnsureCall, Serve, LastIs, After, Step, FloatingIPs.KeyOf, Ready;
    status := RecordedIsKept(o, view, env, w.store);
    AskingRecorded(c, w, o, Wanting(n), env);
  }

  lemma LastIsRead(w: World, o: Owner, n: U32)
    requires o in w.fips && LastIs(w.fips[o], Render(n)) && TrimSpace(Render(n)) == Render(n)
    ensures View(Wanting(n), w.fips[o].Seen(0)).Recorded() == Render(n)
  {
    hide Render, TrimSpace;
  }

  lemma AskingRecorded(c: Cluster, w: World, o: Owner, spec: FipSpec, env: Env)
    requires o in w.fips && o !in w.work && env.Valid() && ValidSpec(spec, env.ipv6)
    requires View(spec, w.fips[o].Seen(0)).Recorded() != ""
    ensures Step(c, w, Reconcile(o, spec, 0, env)) == w.With(o, Some(Ensuring(View(spec, w.fips[o].Seen(0)), env, AskRecorded)))
  {
    hide TrimSpace, ValidSpec, World.With, Choose;
  }

  lemma RecordedIsKept(o: Owner, view: View, env: Env, store: Store) returns (status: Status)
    requires env.Valid() && view.Recorded() != "" && FloatingIPs.KeyOf(o, view.Recorded()) in store
    ensures status.address == view.Recorded() && Ready(env, AskRecorded)
    ensures var claim := store[FloatingIPs.KeyOf(o, view.Recorded())];
            && Serve(store, EnsureCall(o, view, env, AskRecorded), NoFault) == (store, Hit(claim))
            && After(view, env, EnsureNext(o, view, env, AskRecorded, Hit(claim))) == Some(Recording(status))
  {
    hide TrimSpace, AddressObjectName, Choose;
    var claim := store[FloatingIPs.KeyOf(o, view.Recorded())];
    status := Status(view.Recorded(), if view.status.prefixLength != 0 then view.status.prefixLength else claim.prefixLength);
  }

  /** A later reconcile finds a claim under the name, whoever's it is, and records the address again. */
  lemma KeepRun(c: Cluster, w: World, o: Owner, n: U32) returns (status: Status)
    requires o in w.fips && o !in w.work && LastIs(w.fips[o], Render(n)) && FloatingIPs.KeyOf(o, Render(n)) in w.store
    ensures status.address == Render(n)
    ensures Steps(c, w, Reconciled(o, n, c.ipv6, 2)) == w.(fips := w.fips[o := w.fips[o].(history := w.fips[o].history + [status])])
  {
    var view, env := View(Wanting(n), w.fips[o].Seen(0)), Around(n, c.ipv6);
    status := Keeping(c, w, o, n);
    hide Step, Steps, Reconciled, Render, TrimSpace, AddressObjectName, EnsureCall, EnsureNext, After, Serve, Ready, World.With, Answers, LastIs;
    EnsuringStep(c, w, o, view, env, AskRecorded, NoFault, ANY);
    AnsweredRun(c, w, o, n, 2);
    FewAnswers(c, Step(c, w, Reconcile(o, Wanting(n), 0, env)), o);
    Written(c, w, o, status);
  }

  // ---------------------------------------------------------------- backing

  /** The address is recorded, and there is no claim. */
  function Bare(w: World, o: Owner, n: U32): World
    requires o in w.fips
  {
    w.(fips := w.fips[o := w.fips[o].(history := w.fips[o].history + [Status(Render(n), 32)])])
  }

  lemma RemovedStep(c: Cluster, w: World, o: Owner, n: U32)
    requires o in w.fips && FloatingIPs.KeyOf(o, Render(n)) !in w.store
    ensures Step(c, Claimed(w, o, n), OutsideRemoves(FloatingIPs.KeyOf(o, Render(n)))) == Bare(w, o, n)
  {
    hide Render, AddressObjectName, Client;
    var key := FloatingIPs.KeyOf(o, Render(n));
    assert w.store[key := Client(o, n).NewClaim(Render(n))] - {key} == w.store;
  }

  lemma BareIsUnbacked(w: World, o: Owner, n: U32)
    requires o in w.fips && !w.fips[o].deleting && w.fips[o].history == [] && FloatingIPs.KeyOf(o, Render(n)) !in w.store
    ensures !AllBacked(Bare(w, o, n))
  {
    hide Render, AddressObjectName, IsClaimedBy;
    var v := Bare(w, o, n);
    assert v.fips[o].history[0].address == Render(n);
  }

  /** A recorded address whose claim is removed from outside is without one. */
  lemma RemovedRun(c: Cluster, w: World, o: Owner, n: U32) returns (events: seq<Event>)
    requires Fresh(c, w) && o in w.fips
    ensures AllWithin({FloatingIPs.KeyOf(o, Render(n))}, events)
    ensures Steps(c, w, events) == Bare(w, o, n) && !AllBacked(Bare(w, o, n))
  {
    var key := FloatingIPs.KeyOf(o, Render(n));
    events := Reconciled(o, n, c.ipv6, 3) + [OutsideRemoves(key)];
    assert AllWithin({key}, events) by { hide Render, AddressObjectName; }
    hide Step, Steps, Render, AddressObjectName, IsClaimedBy, Client, Claimed, Bare, AllBacked, Reconciled, AllWithin;
    ClaimRun(c, w, o, n);
    RunAppend(c, w, Reconciled(o, n, c.ipv6, 3), [OutsideRemoves(key)]);
    RunOne(c, Claimed(w, o, n), OutsideRemoves(key));
    RemovedStep(c, w, o, n);
    BareIsUnbacked(w, o, n);
  }

  /**
   * Recorded addresses keep a claim of their own over every run exactly when nobody
   * else may remove a claim of an address in the namespace of a floating IP.
   */
  lemma BackedExactly(c: Cluster, x: set<Key>, w: World)
    requires c.Valid() && Fresh(c, w)
    ensures (forall events :: AllWithin(x, events) ==> AllBacked(Steps(c, w, events)))
       <==> (forall o :: o in w.fips ==> !Exposed(x, o))
  {
    hide Fresh, Steps, Exposed, AllBacked, AllWithin;
    if forall o :: o in w.fips ==> !Exposed(x, o) {
      forall events | AllWithin(x, events) ensures AllBacked(Steps(c, w, events)) {
        UnexposedBacked(c, x, w, events);
      }
    } else {
      var o :| o in w.fips && Exposed(x, o);
      var events := ExposedUnbacked(c, x, w, o);
    }
  }

  lemma ExposedUnbacked(c: Cluster, x: set<Key>, w: World, o: Owner) returns (events: seq<Event>)
    requires c.Valid() && Fresh(c, w) && o in w.fips && Exposed(x, o)
    ensures AllWithin(x, events) && !AllBacked(Steps(c, w, events))
  {
    hide Fresh, Steps, Render, AddressObjectName, AllBacked, AllWithin;
    var n: U32 :| FloatingIPs.KeyOf(o, Render(n)) in x;
    events := RemovedRun(c, w, o, n);
    Wider({FloatingIPs.KeyOf(o, Render(n))}, x, events);
  }

  lemma Wider(x: set<Key>, y: set<Key>, events: seq<Event>)
    requires x <= y && AllWithin(x, events)
    ensures AllWithin(y, events)
  {
  }

  lemma UnexposedBacked(c: Cluster, x: set<Key>, w: World, events: seq<Event>)
    requires c.Valid() && Fresh(c, w) && AllWithin(x, events) && forall o :: o in w.fips ==> !Exposed(x, o)
    ensures AllBacked(Steps(c, w, events))
  {
    var v := Steps(c, w, events);
    FipsShrink(c, w, events);
    hide Steps, Exposed, AllWithin, Fresh, Holds, Canonical, AddressObjectName;
    forall o, i | o in v.fips && !v.fips[o].deleting && 0 <= i < |v.fips[o].history|
      ensures Holds(v.store, o, FloatingIPs.KeyOf(o, v.fips[o].history[i].address)) {
      RecordedIsOwn(c, x, w, events, o, i);
      assert o in w.fips;
      NotExposed(x, o, v.fips[o].history[i].address);
    }
  }

  // ---------------------------------------------------------------- one address twice

  /**
   * The claim of o is removed, its neighbour p claims the address, and the next
   * reconcile of o finds p's claim and keeps the address: both have it.
   */
  lemma SharedRun(c: Cluster, w: World, o: Owner, p: Owner, n: U32) returns (events: seq<Event>)
    requires c.Valid() && Fresh(c, w) && o in w.fips && p in w.fips && Neighbours(o, p)
    ensures AllWithin({FloatingIPs.KeyOf(o, Render(n))}, events)
    ensures var v := Steps(c, w, events);
            && o in v.fips && p in v.fips && !v.fips[o].deleting && !v.fips[p].deleting && v.work == map[]
            && LastIs(v.fips[o], Render(n)) && LastIs(v.fips[p], Render(n))
            && FloatingIPs.KeyOf(o, Render(n)) in v.store
            && v.store[FloatingIPs.KeyOf(o, Render(n))] == Client(p, n).NewClaim(Render(n))
  {
    hide Fresh, Step, Steps, Render, AddressObjectName, IsClaimedBy, Client, Claimed, Bare, AllBacked, Reconciled, AllWithin, LastIs;
    var x := {FloatingIPs.KeyOf(o, Render(n))};
    var first := RemovedRun(c, w, o, n);
    BothRecorded(c, w, o, p, n);
    var w1, w2 := Bare(w, o, n), Claimed(Bare(w, o, n), p, n);
    var claims, keeps := Reconciled(p, n, c.ipv6, 3), Reconciled(o, n, c.ipv6, 2);
    ClaimRun(c, w1, p, n);
    RunAppend(c, w, first, claims);
    var status := KeepRun(c, w2, o, n);
    RunAppend(c, w, first + claims, keeps);
    events := first + claims + keeps;
    LastRecorded(w2, o, p, status, Render(n));
    ReconciledWithin(x, p, n, c.ipv6, 3);
    ReconciledWithin(x, o, n, c.ipv6, 2);
    WithinAppend(x, first, claims);
    WithinAppend(x, first + claims, keeps);
  }

  lemma WithinAppend(x: set<Key>, front: seq<Event>, tail: seq<Event>)
    requires AllWithin(x, front) && AllWithin(x, tail)
    ensures AllWithin(x, front + tail)
  {
    hide Within;
  }

  lemma ReconciledWithin(x: set<Key>, o: Owner, n: U32, ipv6: Ipv6Parser, requests: nat)
    ensures AllWithin(x, Reconciled(o, n, ipv6, requests))
  {
    hide Render;
  }

  /** After p has claimed what o has recorded. */
  lemma BothRecorded(c: Cluster, w: World, o: Owner, p: Owner, n: U32)
    requires Fresh(c, w) && o in w.fips && p in w.fips && Neighbours(o, p)
    ensures var w1, w2, key := Bare(w, o, n), Claimed(Bare(w, o, n), p, n), FloatingIPs.KeyOf(o, Render(n));
            && p in w1.fips && w1.work == map[] && FloatingIPs.KeyOf(p, Render(n)) !in w1.store && w1.fips[p].history == []
            && FloatingIPs.KeyOf(p, Render(n)) == key
            && o in w2.fips && p in w2.fips && w2.work == map[] && !w2.fips[o].deleting && !w2.fips[p].deleting
            && LastIs(w2.fips[o], Render(n)) && LastIs(w2.fips[p], Render(n))
            && key in w2.store && w2.store[key] == Client(p, n).NewClaim(Render(n))
  {
    hide Render, AddressObjectName, Client;
  }

  lemma LastRecorded(w: World, o: Owner, p: Owner, status: Status, address: string)
    requires o in w.fips && p in w.fips && o != p && LastIs(w.fips[p], address) && status.address == address
    ensures var v := w.(fips := w.fips[o := w.fips[o].(history := w.fips[o].history + [status])]);
            LastIs(v.fips[o], address) && LastIs(v.fips[p], address) && v.fips[o].deleting == w.fips[o].deleting && v.fips[p] == w.fips[p]
  {
  }

  lemma SharedBreaks(v: World, o: Owner, p: Owner, address: string)
    requires o in v.fips && p in v.fips && Neighbours(o, p) && !v.fips[o].deleting && !v.fips[p].deleting
    requires LastIs(v.fips[o], address) && LastIs(v.fips[p], address)
    ensures !NeverShared(v) && !NotSharedNow(v)
  {
    var i, j := |v.fips[o].history| - 1, |v.fips[p].history| - 1;
    assert v.fips[o].history[i].address == v.fips[p].history[j].address;
  }

  /**
   * No two floating IPs of a namespace come to share an address, over every run,
   * exactly when nobody else may remove a claim of an address in a namespace that
   * holds two of them.
   */
  lemma SharedExactly(c: Cluster, x: set<Key>, w: World)
    requires c.Valid() && Fresh(c, w)
    ensures (forall events :: AllWithin(x, events) ==> NeverShared(Steps(c, w, events)))
       <==> (forall o, p :: o in w.fips && p in w.fips && Neighbours(o, p) ==> !Exposed(x, o))
    ensures (forall events :: AllWithin(x, events) ==> NotSharedNow(Steps(c, w, events)))
       <==> (forall o, p :: o in w.fips && p in w.fips && Neighbours(o, p) ==> !Exposed(x, o))
  {
    hide Fresh, Steps, Exposed, Neighbours, NeverShared, NotSharedNow, AllWithin;
    if forall o, p :: o in w.fips && p in w.fips && Neighbours(o, p) ==> !Exposed(x, o) {
      forall events | AllWithin(x, events) ensures NeverShared(Steps(c, w, events)) && NotSharedNow(Steps(c, w, events)) {
        UnexposedNeverShared(c, x, w, events);
        NeverIsNotNow(Steps(c, w, events));
      }
    } else {
      var o, p :| o in w.fips && p in w.fips && Neighbours(o, p) && Exposed(x, o);
      var events := ExposedShared(c, x, w, o, p);
    }
  }

  lemma ExposedShared(c: Cluster, x: set<Key>, w: World, o: Owner, p: Owner) returns (events: seq<Event>)
    requires c.Valid() && Fresh(c, w) && o in w.fips && p in w.fips && Neighbours(o, p) && Exposed(x, o)
    ensures AllWithin(x, events) && !NeverShared(Steps(c, w, events)) && !NotSharedNow(Steps(c, w, events))
  {
    hide Steps, NeverShared, NotSharedNow, Render, AddressObjectName, Fresh, AllWithin, LastIs, Client;
    var n: U32 :| FloatingIPs.KeyOf(o, Render(n)) in x;
    events := SharedRun(c, w, o, p, n);
    Wider({FloatingIPs.KeyOf(o, Render(n))}, x, events);
    SharedBreaks(Steps(c, w, events), o, p, Render(n));
  }

  lemma NeverIsNotNow(w: World)
    requires NeverShared(w)
    ensures NotSharedNow(w)
  {
    forall o, p, address | o in w.fips && p in w.fips && Neighbours(o, p) && !w.fips[o].deleting && !w.fips[p].deleting && LastIs(w.fips[o], address)
      ensures !LastIs(w.fips[p], address) {
      if LastIs(w.fips[p], address) {
        SharedBreaks(w, o, p, address);
        assert false;
      }
    }
  }

  lemma UnexposedNeverShared(c: Cluster, x: set<Key>, w: World, events: seq<Event>)
    requires c.Valid() && Fresh(c, w) && AllWithin(x, events)
    requires forall o, p :: o in w.fips && p in w.fips && Neighbours(o, p) ==> !Exposed(x, o)
    ensures NeverShared(Steps(c, w, events))
  {
    var v := Steps(c, w, events);
    FipsShrink(c, w, events);
    hide Steps, Exposed, AllWithin, Fresh, Holds, Canonical, AddressObjectName;
    forall o, p, i, j | o in v.fips && p in v.fips && Neighbours(o, p) && !v.fips[o].deleting && !v.fips[p].deleting
      && 0 <= i < |v.fips[o].history| && 0 <= j < |v.fips[p].history|
      ensures v.fips[o].history[i].address != v.fips[p].history[j].address {
      RecordedIsOwn(c, x, w, events, o, i);
      assert o in w.fips && p in w.fips;
      NotExposed(x, o, v.fips[o].history[i].address);
    }
  }

  // ---------------------------------------------------------------- deleting another's claim

  /**
   * Between the check of the claim and its deletion the claim is removed and q claims
   * the address: the deletion takes q's claim.
   */
  lemma WindowRun(c: Cluster, w: World, o: Owner, q: Owner, n: U32) returns (events: seq<Event>)
    requires c.Valid() && Fresh(c, w) && o in w.fips && q in c.owners && Neighbours(o, q)
    ensures AllWithin({FloatingIPs.KeyOf(o, Render(n))}, events)
    ensures Steps(c, w, events).deletions == [Deletion(o, FloatingIPs.KeyOf(o, Render(n)), Client(q, n).NewClaim(Render(n)))]
    ensures !IsClaimedBy(Client(q, n).NewClaim(Render(n)), o)
  {
    var key, w1 := FloatingIPs.KeyOf(o, Render(n)), Claimed(w, o, n);
    var head, tail := Reconciled(o, n, c.ipv6, 3), [BeginDelete(o, Wanting(n), 0), Answer(o)];
    var last := TakeOver(o, q, n);
    events := head + tail + last;
    WindowWithin(c, o, q, n);
    NotItsClaim(c, o, q, n);
    hide Step, Steps, Render, AddressObjectName, IsClaimedBy, Client, Reconciled, AllWithin, TakeOver, Claimed, Holds, LastIs;
    ClaimRun(c, w, o, n);
    ClaimHeld(w, o, n);
    CheckedRun(c, w1, o, n);
    RunAppend(c, w, head, tail);
    RunAppend(c, w, head + tail, last);
    assert Steps(c, w, events) == Steps(c, Checked(w1, o, key), last);
    TakenOver(c, Checked(w1, o, key), o, q, n);
  }

  lemma WindowWithin(c: Cluster, o: Owner, q: Owner, n: U32)
    ensures AllWithin({FloatingIPs.KeyOf(o, Render(n))},
                      Reconciled(o, n, c.ipv6, 3) + [BeginDelete(o, Wanting(n), 0), Answer(o)] + TakeOver(o, q, n))
  {
    hide Render, AddressObjectName, Client;
  }

  lemma NotItsClaim(c: Cluster, o: Owner, q: Owner, n: U32)
    requires c.Valid() && o in c.owners && q in c.owners && Neighbours(o, q)
    ensures !IsClaimedBy(Client(q, n).NewClaim(Render(n)), o)
  {
    hide Render;
    assert Distinct(o, q);
  }

  lemma ClaimHeld(w: World, o: Owner, n: U32)
    requires o in w.fips
    requires IsClaimedBy(Client(o, n).NewClaim(Render(n)), o)
    ensures var v := Claimed(w, o, n);
            o in v.fips && LastIs(v.fips[o], Render(n)) && Holds(v.store, o, FloatingIPs.KeyOf(o, Render(n)))
            && v.work == w.work && v.deletions == w.deletions
  {
    hide Render, AddressObjectName, IsClaimedBy, Client;
  }

  /** The worker has seen the claim of o and is about to delete it. */
  function Checked(w: World, o: Owner, key: Key): World
    requires o in w.fips
  {
    w.(fips := w.fips[o := w.fips[o].(deleting := true)], work := w.work[o := Deleting({key})])
  }

  lemma RunTwo(c: Cluster, w: World, e0: Event, e1: Event)
    ensures Steps(c, w, [e0, e1]) == Step(c, Step(c, w, e0), e1)
  {
    hide Step;
    assert [e0, e1] == [e0] + [e1];
    RunMore(c, w, e0, [e1]);
    RunOne(c, Step(c, w, e0), e1);
  }

  lemma DeletionStart(c: Cluster, w: World, o: Owner, n: U32)
    requires o in w.fips && o !in w.work && LastIs(w.fips[o], Render(n))
    ensures Step(c, w, BeginDelete(o, Wanting(n), 0))
         == w.(fips := w.fips[o := w.fips[o].(deleting := true)], work := w.work[o := Looking(FloatingIPs.KeyOf(o, Render(n)))])
  {
    RenderIsAccepted(n, c.ipv6);
    hide Render, TrimSpace, AddressObjectName;
    assert DeleteStart(o, View(Wanting(n), w.fips[o].Seen(0))) == Looking(FloatingIPs.KeyOf(o, Render(n)));
  }

  lemma CheckStep(c: Cluster, w: World, o: Owner, key: Key)
    requires o in w.fips && Holds(w.store, o, key)
    ensures Step(c, w.(work := w.work[o := Looking(key)]), Answer(o)) == w.(work := w.work[o := Deleting({key})])
  {
    hide IsClaimedBy;
    var w1 := w.(work := w.work[o := Looking(key)]);
    assert Step(c, w1, Answer(o)) == StepLooking(w1, o, key, NoFault);
    assert w1.work[o := Deleting({key})] == w.work[o := Deleting({key})];
  }

  lemma CheckedRun(c: Cluster, w: World, o: Owner, n: U32)
    requires o in w.fips && o !in w.work && LastIs(w.fips[o], Render(n)) && Holds(w.store, o, FloatingIPs.KeyOf(o, Render(n)))
    ensures Steps(c, w, [BeginDelete(o, Wanting(n), 0), Answer(o)]) == Checked(w, o, FloatingIPs.KeyOf(o, Render(n)))
  {
    hide Step, Steps, Render, AddressObjectName, IsClaimedBy;
    RunTwo(c, w, BeginDelete(o, Wanting(n), 0), Answer(o));
    DeletionStart(c, w, o, n);
    CheckStep(c, w.(fips := w.fips[o := w.fips[o].(deleting := true)]), o, FloatingIPs.KeyOf(o, Render(n)));
  }

  /** The claim is removed, q takes the address, and the pending deletion goes ahead. */
  function TakeOver(o: Owner, q: Owner, n: U32): seq<Event> {
    var key := FloatingIPs.KeyOf(o, Render(n));
    [OutsideRemoves(key), OtherClaims(Client(q, n), Render(n)), Progress(o, NoFault, key)]
  }

  lemma RenderIsCanonical(n: U32)
    ensures Canonical(Render(n))
  {
    hide Render;
    CanonicalIsRendered(Render(n));
  }

  lemma OtherTakes(c: Cluster, w: World, q: Owner, n: U32)
    requires q in c.owners && FloatingIPs.KeyOf(q, Render(n)) !in w.store
    ensures Step(c, w, OtherClaims(Client(q, n), Render(n)))
         == w.(store := w.store[FloatingIPs.KeyOf(q, Render(n)) := Client(q, n).NewClaim(Render(n))])
  {
    RenderIsCanonical(n);
    hide Render, AddressObjectName, Canonical, Step, TrimSpace;
    assert Client(q, n).KeyOf(Render(n)) == FloatingIPs.KeyOf(q, Render(n));
    ClaimedByOther(c, w, Client(q, n), Render(n));
  }

  lemma ClaimedByOther(c: Cluster, w: World, client: Allocator, address: string)
    requires client.owner in c.owners && Canonical(address) && client.KeyOf(address) !in w.store
    ensures Step(c, w, OtherClaims(client, address)) == w.(store := w.store[client.KeyOf(address) := client.NewClaim(address)])
  {
    hide Canonical, AddressObjectName, StepOwn, DeleteStart, After, EnsureStart, ValidSpec;
  }

  lemma PendingTakes(c: Cluster, w: World, o: Owner, key: Key)
    requires o in w.fips && o in w.work && w.work[o] == Deleting({key}) && key in w.store
    ensures Step(c, w, Progress(o, NoFault, key)).deletions == w.deletions + [Deletion(o, key, w.store[key])]
  {
    assert Step(c, w, Progress(o, NoFault, key)) == StepDeleting(w, o, {key}, NoFault, key);
  }

  lemma TakenOver(c: Cluster, w: World, o: Owner, q: Owner, n: U32)
    requires var key := FloatingIPs.KeyOf(o, Render(n));
             o in w.fips && o in w.work && w.work[o] == Deleting({key}) && w.deletions == []
    requires q in c.owners && q.namespace == o.namespace
    ensures Steps(c, w, TakeOver(o, q, n)).deletions
         == [Deletion(o, FloatingIPs.KeyOf(o, Render(n)), Client(q, n).NewClaim(Render(n)))]
  {
    var key, e, last := FloatingIPs.KeyOf(o, Render(n)), OtherClaims(Client(q, n), Render(n)), Progress(o, NoFault, FloatingIPs.KeyOf(o, Render(n)));
    var w1 := w.(store := w.store - {key});
    hide Steps, Render, AddressObjectName, Client;
    assert TakeOver(o, q, n) == [OutsideRemoves(key)] + [e, last];
    assert Step(c, w, OutsideRemoves(key)) == w1;
    hide Step;
    RunMore(c, w, OutsideRemoves(key), [e, last]);
    RunTwo(c, w1, e, last);
    OtherTakes(c, w1, q, n);
    PendingTakes(c, w1.(store := w1.store[key := Client(q, n).NewClaim(Render(n))]), o, key);
  }

  /**
   * Over every run deletion takes the floating IP's own claims only, exactly when
   * nobody else may remove a claim of an address in a namespace where a floating IP
   * has another owner of claims beside it.
   */
  lemma DeletionsOwnExactly(c: Cluster, x: set<Key>, w: World)
    requires c.Valid() && Fresh(c, w)
    ensures (forall events :: AllWithin(x, events) ==> DeletionsOwn(Steps(c, w, events)))
       <==> (forall o, q :: o in w.fips && q in c.owners && Neighbours(o, q) ==> !Exposed(x, o))
  {
    hide Fresh, Steps, Exposed, Neighbours, DeletionsOwn, AllWithin;
    if forall o, q :: o in w.fips && q in c.owners && Neighbours(o, q) ==> !Exposed(x, o) {
      forall events | AllWithin(x, events) ensures DeletionsOwn(Steps(c, w, events)) {
        UnexposedDeletionsOwn(c, x, w, events);
      }
    } else {
      var o, q :| o in w.fips && q in c.owners && Neighbours(o, q) && Exposed(x, o);
      var events := ExposedDeleted(c, x, w, o, q);
    }
  }

  lemma ExposedDeleted(c: Cluster, x: set<Key>, w: World, o: Owner, q: Owner) returns (events: seq<Event>)
    requires c.Valid() && Fresh(c, w) && o in w.fips && q in c.owners && Neighbours(o, q) && Exposed(x, o)
    ensures AllWithin(x, events) && !DeletionsOwn(Steps(c, w, events))
  {
    hide Steps, Render, AddressObjectName, Fresh, AllWithin, IsClaimedBy, Client;
    var n: U32 :| FloatingIPs.KeyOf(o, Render(n)) in x;
    events := WindowRun(c, w, o, q, n);
    Wider({FloatingIPs.KeyOf(o, Render(n))}, x, events);
    assert !IsClaimedBy(Steps(c, w, events).deletions[0].claim, Steps(c, w, events).deletions[0].remover);
  }

  lemma UnexposedDeletionsOwn(c: Cluster, x: set<Key>, w: World, events: seq<Event>)
    requires c.Valid() && Fresh(c, w) && AllWithin(x, events)
    requires forall o, q :: o in w.fips && q in c.owners && Neighbours(o, q) ==> !Exposed(x, o)
    ensures DeletionsOwn(Steps(c, w, events))
  {
    var v := Steps(c, w, events);
    FipsShrink(c, w, events);
    forall i | 0 <= i < |v.deletions| ensures IsClaimedBy(v.deletions[i].claim, v.deletions[i].remover) {
      DeletionTakesOnlyItsOwn(c, x, w, events, i);
      var d := v.deletions[i];
      hide Steps, IsClaimedBy, AllWithin;
      if d.key in x {
        SoleNeighbour(c, x, d);
      }
    }
  }

  /** In an exposed namespace of the remover it is the only owner, so the claim was its own. */
  lemma SoleNeighbour(c: Cluster, x: set<Key>, d: Deletion)
    requires Proper(c, x, d) && d.key in x
    requires forall q :: q in c.owners && Neighbours(d.remover, q) ==> !Exposed(x, d.remover)
    ensures IsClaimedBy(d.claim, d.remover)
  {
    hide Canonical, AddressObjectName;
    var q: Owner :| q in c.owners
      && d.key == Key(q.namespace, AddressObjectName(d.claim.address))
      && d.claim.ownerUids == {q.uid}
      && d.claim.claimRef == Some(Reference(q.kind, q.namespace, q.name));
    CanonicalIsRendered(d.claim.address);
    var n: U32 :| d.claim.address == Render(n);
    assert FloatingIPs.KeyOf(d.remover, Render(n)) == d.key;
  }
}
