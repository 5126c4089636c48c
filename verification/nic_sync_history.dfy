// Histories of attach, detach and re-attach: which Multus network each live
// interface is on. An existing network entry is never rewritten, so the answer
// depends on whether an interface name always meant the same network.
module NicSyncHistory {
  import opened Text
  import opened NicSync
  import opened NicSyncRuns

  /** The lists after a sequence of syncs. */
  ghost function History(v: Lists2, ds: seq<Desired>): Lists2
    decreases |ds|
  {
    if ds == [] then v else Synced(History(v, ds[..|ds| - 1]), ds[|ds| - 1])
  }

  /** The item named n is attached to the network. */
  predicate OnNetwork(nets: map<string, Object>, n: string, network: string) {
    n in nets && "multus" in nets[n] && nets[n]["multus"] == Multus(network)
  }

  /** Every attached VPC, and the external gateway, has its interface on its own network. */
  predicate RightNetworks(v: Lists2, d: Desired) {
    && (forall i :: 0 <= i < |d.ifaces| ==>
          OnNetwork(NetIndex(v.networks), MultusIfaceName(d.ifaces[i].vpc), d.ifaces[i].vpc))
    && (d.external.Some? ==> OnNetwork(NetIndex(v.networks), EXTERNAL, d.external.value.multusNetwork))
  }

  // ---------------------------------------------------------------- live interfaces

  /** An interface of this name is live and has this MAC. */
  predicate LiveWith(v: Lists2, n: string, mac: string) {
    var index := IfaceIndex(v.interfaces);
    n in index && Live(index[n]) && "macAddress" in index[n] && index[n]["macAddress"] == Str(mac)
  }

  /**
   * The live interfaces depend on the last attachments only: whatever the VM looked
   * like and whatever was attached before, they are the desired names with their MACs.
   */
  lemma LiveDependsOnLast(v: Lists2, ds: seq<Desired>, last: Desired, n: string, mac: string)
    requires ds != [] && last == ds[|ds| - 1]
    requires n in DesiredMacs(last) ==> DesiredMacs(last)[n] != ""
    ensures LiveWith(History(v, ds), n, mac) <==> n in DesiredMacs(last) && DesiredMacs(last)[n] == mac
  {
    var before := History(v, ds[..|ds| - 1]);
    assert History(v, ds) == Synced(before, last);
    hide History, LiveWith, DesiredMacs;
    LiveAfterSync(before, last, n, mac);
  }

  lemma LiveAfterSync(v: Lists2, d: Desired, n: string, mac: string)
    requires n in DesiredMacs(d) ==> DesiredMacs(d)[n] != ""
    ensures LiveWith(Synced(v, d), n, mac) <==> n in DesiredMacs(d) && DesiredMacs(d)[n] == mac
  {
    SyncedAt(v, d, n);
    hide Synced, IfaceIndex, DesiredMacs;
    var after, index, macs := IfaceIndex(Synced(v, d).interfaces), IfaceIndex(v.interfaces), DesiredMacs(d);
    if n in macs {
      EntryIsLive(index, n, macs[n]);
    } else if n in after {
      AbsentIsNotLive(after[n], index[n]);
    }
  }

  lemma EntryIsLive(index: map<string, Object>, n: string, mac: string)
    ensures Live(IfaceEntry(index, n, mac))
    ensures mac != "" ==> "macAddress" in IfaceEntry(index, n, mac) && IfaceEntry(index, n, mac)["macAddress"] == Str(mac)
  {
  }

  /** What a sync makes of one name. */
  lemma SyncedAt(v: Lists2, d: Desired, n: string)
    ensures var after, index, macs := IfaceIndex(Synced(v, d).interfaces), IfaceIndex(v.interfaces), DesiredMacs(d);
            && (n in after <==> n in macs || n in index)
            && (n in macs ==> after[n] == IfaceEntry(index, n, macs[n]))
            && (n in index && n !in macs ==> after[n] == AbsentEntry(index[n]))
  {
    SyncedInterfaces(v, d);
    hide Synced, IfaceIndex, DesiredMacs, UniqueNames, PodIface, IfaceEntry, AbsentEntry;
  }

  // ---------------------------------------------------------------- one step

  /**
   * A sync leaves every desired name on its network exactly when each of those
   * names that already has a network entry is on the right one before.
   */
  lemma StepRightExactly(v: Lists2, d: Desired)
    ensures (forall n :: n in DesiredNets(d) ==> OnNetwork(NetIndex(Synced(v, d).networks), n, DesiredNets(d)[n]))
       <==> (forall n :: n in DesiredNets(d) && n in NetIndex(v.networks) ==> OnNetwork(NetIndex(v.networks), n, DesiredNets(d)[n]))
  {
    SyncedNetworks(v, d);
    hide Synced, NetIndex, DesiredNets;
    var nets, after := NetIndex(v.networks), NetIndex(Synced(v, d).networks);
    forall n | n in DesiredNets(d)
      ensures OnNetwork(after, n, DesiredNets(d)[n]) <==> (n in nets ==> OnNetwork(nets, n, DesiredNets(d)[n]))
    {
      assert after[n] == NetEntry(nets, n, DesiredNets(d)[n]);
    }
  }

  /** A changed external network is never followed: the entry keeps the old one. */
  lemma ExternalNeverFollows(v: Lists2, d: Desired, was: string)
    requires d.external.Some? && d.external.value.multusNetwork != was
    requires OnNetwork(NetIndex(v.networks), EXTERNAL, was)
    ensures OnNetwork(NetIndex(Synced(v, d).networks), EXTERNAL, was)
    ensures !RightNetworks(Synced(v, d), d)
  {
    SyncedNetworks(v, d);
    hide Synced, NetIndex;
  }

  // ---------------------------------------------------------------- the new appliance

  function BuiltName(i: nat): string {
    "vpc" + Decimal(i)
  }

  /** The interface list a new appliance is created with: positional names. */
  function BuiltInterfaces(d: Desired): seq<Item> {
    [Fields(POD_IFACE)]
    + seq(|d.ifaces|, i requires 0 <= i < |d.ifaces| =>
        Fields(map["name" := Str(BuiltName(i)), "bridge" := Tree, "macAddress" := Str(d.ifaces[i].mac)]))
    + (match d.external
       case Some(e) => [Fields(map["name" := Str(EXTERNAL), "bridge" := Tree, "macAddress" := Str(e.mac)])]
       case None => [])
  }

  /** And its network list, each interface on the network of its own attachment. */
  function BuiltNetworks(d: Desired): seq<Item> {
    [Fields(POD_NET)]
    + seq(|d.ifaces|, i requires 0 <= i < |d.ifaces| =>
        Fields(map["name" := Str(BuiltName(i)), "multus" := Multus(d.ifaces[i].vpc)]))
    + (match d.external
       case Some(e) => [Fields(map["name" := Str(EXTERNAL), "multus" := Multus(e.multusNetwork)])]
       case None => [])
  }

  /** The appliance as `buildRouterVM` creates it for some attachments. */
  function Built(d: Desired): Lists2 {
    Lists2(BuiltNetworks(d), BuiltInterfaces(d))
  }

  // ---------------------------------------------------------------- whole runs

  /** Attachments drawn from a universe of VPCs and one of external networks. */
  ghost predicate Within(vpcs: set<string>, externals: set<string>, ds: seq<Desired>) {
    forall k :: 0 <= k < |ds| ==>
      && (forall i :: 0 <= i < |ds[k].ifaces| ==> ds[k].ifaces[i].vpc in vpcs)
      && (ds[k].external.Some? ==> ds[k].external.value.multusNetwork in externals)
  }

  predicate NamesDistinguish(vpcs: set<string>) {
    forall u, w :: u in vpcs && w in vpcs && MultusIfaceName(u) == MultusIfaceName(w) ==> u == w
  }

  /** The positional names of a new appliance; no attachment's name is one of them. */
  predicate Positional(n: string) {
    n != "" && n[0] == 'v'
  }

  /** At most one network, so that the external interface always meant the same. */
  predicate AtMostOne(externals: set<string>) {
    forall a, b :: a in externals && b in externals ==> a == b
  }

  ghost predicate OnSome(nets: map<string, Object>, n: string, networks: set<string>) {
    exists x :: x in networks && OnNetwork(nets, n, x)
  }

  /** Every network entry with a name a sync can ask for is on the network that name stands for. */
  ghost predicate NetsAgree(vpcs: set<string>, externals: set<string>, nets: map<string, Object>) {
    forall n :: n in nets ==>
      || Positional(n)
      || (n == EXTERNAL && OnSome(nets, n, externals))
      || (exists u :: u in vpcs && MultusIfaceName(u) == n && OnNetwork(nets, n, u))
  }

  /** A new appliance agrees. */
  lemma BuiltAgrees(d: Desired, vpcs: set<string>, externals: set<string>)
    requires d.external.Some? ==> d.external.value.multusNetwork in externals
    ensures NetsAgree(vpcs, externals, NetIndex(BuiltNetworks(d)))
  {
    var items := BuiltNetworks(d);
    forall n | n in NetIndex(items) ensures Positional(n) || (n == EXTERNAL && OnSome(NetIndex(items), n, externals)) {
      NetIndexed(items, n);
      BuiltItem(d, NetIndex(items)[n]);
      hide NetIndex, BuiltNetworks;
    }
  }

  /** An item of the list other than the pod has a positional name, or is the external one. */
  lemma BuiltItem(d: Desired, o: Object)
    requires Fields(o) in BuiltNetworks(d) && "pod" !in o
    ensures Positional(NameOf(o))
            || (d.external.Some? && NameOf(o) == EXTERNAL && "multus" in o && o["multus"] == Multus(d.external.value.multusNetwork))
  {
    hide Decimal;
    var items := BuiltNetworks(d);
    var k :| 0 <= k < |items| && items[k] == Fields(o);
    if 1 <= k <= |d.ifaces| {
      assert items[k] == Fields(map["name" := Str(BuiltName(k - 1)), "multus" := Multus(d.ifaces[k - 1].vpc)]);
      assert BuiltName(k - 1)[0] == 'v';
    } else if k > 0 {
      assert items[k] == Fields(map["name" := Str(EXTERNAL), "multus" := Multus(d.external.value.multusNetwork)]);
    }
  }

  lemma {:induction false} NetsOfVpcs(ifaces: seq<Nic>, vpcs: set<string>)
    requires forall i :: 0 <= i < |ifaces| ==> ifaces[i].vpc in vpcs
    ensures forall n :: n in NetsOf(ifaces) ==> NetsOf(ifaces)[n] in vpcs && MultusIfaceName(NetsOf(ifaces)[n]) == n
    ensures forall i :: 0 <= i < |ifaces| ==> MultusIfaceName(ifaces[i].vpc) in NetsOf(ifaces)
  {
    hide MultusIfaceName;
    if ifaces != [] {
      var k := |ifaces| - 1;
      assert forall i :: 0 <= i < k ==> ifaces[..k][i] == ifaces[i];
      NetsOfVpcs(ifaces[..k], vpcs);
    }
  }

  lemma DesiredOfVpcs(d: Desired, vpcs: set<string>, externals: set<string>)
    requires forall i :: 0 <= i < |d.ifaces| ==> d.ifaces[i].vpc in vpcs
    requires d.external.Some? ==> d.external.value.multusNetwork in externals
    ensures forall n :: n in DesiredNets(d) ==>
              (n == EXTERNAL && DesiredNets(d)[n] in externals)
              || (DesiredNets(d)[n] in vpcs && MultusIfaceName(DesiredNets(d)[n]) == n && n != EXTERNAL)
    ensures forall i :: 0 <= i < |d.ifaces| ==> MultusIfaceName(d.ifaces[i].vpc) in DesiredNets(d)
    ensures d.external.Some? ==> EXTERNAL in DesiredNets(d)
  {
    NetsOfVpcs(d.ifaces, vpcs);
    IfaceKeys(d.ifaces);
    hide MultusIfaceName, NetsOf;
  }

  lemma SyncAgrees(v: Lists2, d: Desired, vpcs: set<string>, externals: set<string>)
    requires forall i :: 0 <= i < |d.ifaces| ==> d.ifaces[i].vpc in vpcs
    requires d.external.Some? ==> d.external.value.multusNetwork in externals
    requires NetsAgree(vpcs, externals, NetIndex(v.networks))
    ensures NetsAgree(vpcs, externals, NetIndex(Synced(v, d).networks))
  {
    SyncedNetworks(v, d);
    DesiredOfVpcs(d, vpcs, externals);
    var nets, after, desired := NetIndex(v.networks), NetIndex(Synced(v, d).networks), DesiredNets(d);
    hide Synced, NetIndex, DesiredNets, MultusIfaceName;
    forall n | n in after
      ensures Positional(n) || (n == EXTERNAL && OnSome(after, n, externals))
              || (exists u :: u in vpcs && MultusIfaceName(u) == n && OnNetwork(after, n, u))
    {
      if n in nets {
        assert after[n] == nets[n];
      } else {
        assert after[n] == NetEntry(nets, n, desired[n]);
        assert OnNetwork(after, n, desired[n]);
      }
    }
  }

  lemma {:induction false} HistoryAgrees(v: Lists2, ds: seq<Desired>, vpcs: set<string>, externals: set<string>)
    requires Within(vpcs, externals, ds) && NetsAgree(vpcs, externals, NetIndex(v.networks))
    ensures NetsAgree(vpcs, externals, NetIndex(History(v, ds).networks))
    decreases |ds|
  {
    hide NetsAgree, Synced;
    if ds != [] {
      WithinFront(vpcs, externals, ds, ds[|ds| - 1]);
      hide Within;
      HistoryAgrees(v, ds[..|ds| - 1], vpcs, externals);
      SyncAgrees(History(v, ds[..|ds| - 1]), ds[|ds| - 1], vpcs, externals);
    }
  }

  lemma WithinFront(vpcs: set<string>, externals: set<string>, ds: seq<Desired>, last: Desired)
    requires Within(vpcs, externals, ds) && ds != [] && last == ds[|ds| - 1]
    ensures Within(vpcs, externals, ds[..|ds| - 1])
    ensures forall i :: 0 <= i < |last.ifaces| ==> last.ifaces[i].vpc in vpcs
    ensures last.external.Some? ==> last.external.value.multusNetwork in externals
  {
    assert forall i :: 0 <= i < |ds| - 1 ==> ds[..|ds| - 1][i] == ds[i];
  }

  /** With distinguishing names, agreement means everything desired is on its network. */
  lemma AgreeIsRight(v: Lists2, d: Desired, vpcs: set<string>, externals: set<string>)
    requires NamesDistinguish(vpcs) && AtMostOne(externals)
    requires forall i :: 0 <= i < |d.ifaces| ==> d.ifaces[i].vpc in vpcs
    requires d.external.Some? ==> d.external.value.multusNetwork in externals
    requires NetsAgree(vpcs, externals, NetIndex(v.networks))
    requires forall n :: n in DesiredNets(d) ==> n in NetIndex(v.networks)
    ensures RightNetworks(v, d)
  {
    DesiredOfVpcs(d, vpcs, externals);
    NotExternal(d);
    hide NetIndex, DesiredNets, MultusIfaceName;
  }

  lemma NotExternal(d: Desired)
    ensures forall u :: MultusIfaceName(u) != EXTERNAL && !Positional(MultusIfaceName(u))
    ensures !Positional(EXTERNAL)
  {
    assert EXTERNAL[0] == 'e';
  }

  function One(vpc: string): Desired {
    Desired([Nic(vpc, "02:00:00:00:00:01", "", 0)], None)
  }

  lemma OneNets(u: string)
    ensures DesiredNets(One(u)) == map[MultusIfaceName(u) := u]
  {
    hide MultusIfaceName;
    var ifaces := One(u).ifaces;
    assert |ifaces| == 1 && ifaces[..0] == [] && ifaces[0].vpc == u;
    assert NetsOf([]) == map[];
    assert NetsOf(ifaces) == NetsOf(ifaces[..0])[MultusIfaceName(u) := u];
  }

  /** The first attachment gives the shared name its network, and the second keeps it. */
  lemma CollisionGoesWrong(u: string, w: string)
    requires u != w && MultusIfaceName(u) == MultusIfaceName(w)
    ensures !RightNetworks(History(Built(One(u)), [One(u), One(w)]), One(w))
  {
    var n, v0 := MultusIfaceName(u), Built(One(u));
    var v1 := Synced(v0, One(u));
    BuiltAgrees(One(u), {}, {});
    NameShape(u);
    assert n !in NetIndex(v0.networks);
    hide MultusIfaceName, BuiltNetworks, BuiltInterfaces;
    OneNets(u);
    OneNets(w);
    hide DesiredNets;
    SyncedNetworks(v0, One(u));
    SyncedNetworks(v1, One(w));
    hide Synced;
    TwoSyncs(v0, One(u), One(w));
    var n1, n2 := NetIndex(v1.networks), NetIndex(Synced(v1, One(w)).networks);
    assert n1[n] == NetEntry(NetIndex(v0.networks), n, u);
    assert n2[n] == NetEntry(n1, n, w) == n1[n];
    assert !OnNetwork(n2, n, w);
    assert One(w).ifaces[0].vpc == w;
  }

  lemma TwoSyncs(v: Lists2, d: Desired, e: Desired)
    ensures History(v, [d, e]) == Synced(Synced(v, d), e)
  {
    hide Synced;
    assert [d, e][..1] == [d] && [d][..0] == [];
    assert History(v, [d]) == Synced(v, d);
  }

  function Outside(network: string): Desired {
    Desired([], Some(External(network, "02:00:00:00:00:01", "")))
  }

  /** The external interface is built on its network. */
  lemma BuiltOutside(network: string)
    ensures OnNetwork(NetIndex(Built(Outside(network)).networks), EXTERNAL, network)
  {
    var o := map["name" := Str(EXTERNAL), "multus" := Multus(network)];
    var items := Built(Outside(network)).networks;
    assert items == [Fields(POD_NET), Fields(o)];
    assert items[|items| - 1] == Fields(o) && NameOf(o) == EXTERNAL && "pod" !in o;
  }

  /** A sync with another external network leaves the built interface where it was. */
  lemma ExternalGoesWrong(a: string, b: string)
    requires a != b
    ensures !RightNetworks(History(Built(Outside(a)), [Outside(b)]), Outside(b))
  {
    BuiltOutside(a);
    ExternalNeverFollows(Built(Outside(a)), Outside(b), a);
    hide Synced, RightNetworks, Built;
    assert [Outside(b)][..0] == [];
    assert History(Built(Outside(a)), [Outside(b)]) == Synced(Built(Outside(a)), Outside(b));
  }

  /**
   * From the appliance as it is created for any attachments, every history of
   * attachments within a set of VPCs and a set of external networks ends with all
   * interfaces on the right networks exactly when interface names distinguish the
   * VPCs, which `team-a` and `teama` do not, and there is one external network at most.
   */
  lemma RunsRightExactly(vpcs: set<string>, externals: set<string>)
    ensures (forall first, ds :: ds != [] && Within(vpcs, externals, [first]) && Within(vpcs, externals, ds)
               ==> RightNetworks(History(Built(first), ds), ds[|ds| - 1]))
       <==> NamesDistinguish(vpcs) && AtMostOne(externals)
  {
    hide RightNetworks, MultusIfaceName, History, NamesDistinguish, AtMostOne, Within, Built;
    if NamesDistinguish(vpcs) && AtMostOne(externals) {
      forall first, ds | ds != [] && Within(vpcs, externals, [first]) && Within(vpcs, externals, ds)
        ensures RightNetworks(History(Built(first), ds), ds[|ds| - 1])
      {
        RunIsRight(vpcs, externals, first, ds);
      }
    } else if !NamesDistinguish(vpcs) {
      var first, ds := CollidingRun(vpcs, externals);
    } else {
      var first, ds := MovedRun(vpcs, externals);
    }
  }

  lemma CollidingRun(vpcs: set<string>, externals: set<string>) returns (first: Desired, ds: seq<Desired>)
    requires !NamesDistinguish(vpcs)
    ensures ds != [] && Within(vpcs, externals, [first]) && Within(vpcs, externals, ds)
    ensures !RightNetworks(History(Built(first), ds), ds[|ds| - 1])
  {
    hide RightNetworks, MultusIfaceName, History, Built;
    var u, w :| u in vpcs && w in vpcs && MultusIfaceName(u) == MultusIfaceName(w) && u != w;
    first, ds := One(u), [One(u), One(w)];
    CollisionGoesWrong(u, w);
  }

  lemma MovedRun(vpcs: set<string>, externals: set<string>) returns (first: Desired, ds: seq<Desired>)
    requires !AtMostOne(externals)
    ensures ds != [] && Within(vpcs, externals, [first]) && Within(vpcs, externals, ds)
    ensures !RightNetworks(History(Built(first), ds), ds[|ds| - 1])
  {
    hide RightNetworks, History, Built;
    var a, b :| a in externals && b in externals && a != b;
    first, ds := Outside(a), [Outside(b)];
    ExternalGoesWrong(a, b);
  }

  lemma RunIsRight(vpcs: set<string>, externals: set<string>, first: Desired, ds: seq<Desired>)
    requires NamesDistinguish(vpcs) && AtMostOne(externals)
    requires ds != [] && Within(vpcs, externals, [first]) && Within(vpcs, externals, ds)
    ensures RightNetworks(History(Built(first), ds), ds[|ds| - 1])
  {
    var v, last := Built(first), ds[|ds| - 1];
    assert first == [first][0];
    BuiltAgrees(first, vpcs, externals);
    HistoryAgrees(v, ds, vpcs, externals);
    SyncedNetworks(History(v, ds[..|ds| - 1]), last);
    assert History(v, ds) == Synced(History(v, ds[..|ds| - 1]), last);
    hide NetsAgree, NamesDistinguish, AtMostOne, Synced, NetIndex, DesiredNets, RightNetworks, MultusIfaceName, Built;
    AgreeIsRight(History(v, ds), last, vpcs, externals);
  }

  lemma {:induction false} NoDashesConcat(a: string, b: string)
    ensures NoDashes(a + b) == NoDashes(a) + NoDashes(b)
  {
    if a == "" {
      assert a + b == b;
    } else {
      assert (a + b)[1..] == a[1..] + b;
      NoDashesConcat(a[1..], b);
    }
  }

  /** Any dash between two parts of a name collides with leaving it out. */
  lemma DashesCollide(a: string, b: string)
    requires a != "" && b != "" && !GoSpace(a[0]) && !GoSpace(b[|b| - 1])
    ensures MultusIfaceName(a + "-" + b) == MultusIfaceName(a + b)
  {
    TrimOfTrimmed(a + "-" + b, GoSpace);
    TrimOfTrimmed(a + b, GoSpace);
    assert TrimSpace(a + "-" + b) == a + "-" + b && TrimSpace(a + b) == a + b;
    DashDropped(a, b);
    hide TrimSpace, Trim, GoSpace, ToLower, NoDashes, MultusIfaceName;
    SameName(a + "-" + b, a + b);
  }

  lemma DashDropped(a: string, b: string)
    ensures NoDashes(ToLower(a + "-" + b)) == NoDashes(ToLower(a + b))
  {
    LowerDash(a, b);
    LowerConcat(a, b);
    DashOnly();
    hide ToLower, NoDashes;
    NoDashesConcat(ToLower(a), "-" + ToLower(b));
    NoDashesConcat("-", ToLower(b));
    NoDashesConcat(ToLower(a), ToLower(b));
  }

  lemma SameName(x: string, y: string)
    requires NoDashes(ToLower(TrimSpace(x))) == NoDashes(ToLower(TrimSpace(y)))
    ensures MultusIfaceName(x) == MultusIfaceName(y)
  {
    hide NoDashes, ToLower, TrimSpace;
  }

  lemma LowerDash(a: string, b: string)
    ensures ToLower(a + "-" + b) == ToLower(a) + ("-" + ToLower(b))
  {
    assert ToLower("-") == "-";
    LowerConcat(a + "-", b);
    LowerConcat(a, "-");
    hide ToLower;
  }

  lemma DashOnly()
    ensures NoDashes("-") == ""
  {
    assert "-"[1..] == "";
  }

  // ---------------------------------------------------------------- the first sync

  /**
   * The first sync after creation unplugs every private interface the appliance was
   * built with: built names are positional, synced names are derived from the VPC.
   */
  lemma FirstSyncReplacesBuiltNics(networks: seq<Item>, d: Desired, i: nat)
    requires i < |d.ifaces|
    ensures var after := Synced(Lists2(networks, BuiltInterfaces(d)), d);
            && BuiltName(i) in IfaceIndex(after.interfaces) && !Live(IfaceIndex(after.interfaces)[BuiltName(i)])
            && MultusIfaceName(d.ifaces[i].vpc) in IfaceIndex(after.interfaces)
            && Live(IfaceIndex(after.interfaces)[MultusIfaceName(d.ifaces[i].vpc)])
  {
    var v := Lists2(networks, BuiltInterfaces(d));
    var n, m := BuiltName(i), MultusIfaceName(d.ifaces[i].vpc);
    BuiltIsIndexed(networks, d, i);
    BuiltNotDesired(d, n);
    IfaceKeys(d.ifaces);
    DesiredKeys(d);
    assert m in DesiredMacs(d);
    hide Synced, MultusIfaceName, BuiltName, BuiltInterfaces, IfaceIndex, DesiredMacs;
    SyncedAt(v, d, n);
    SyncedAt(v, d, m);
    EntryIsLive(IfaceIndex(v.interfaces), m, DesiredMacs(d)[m]);
    AbsentIsNotLive(IfaceIndex(Synced(v, d).interfaces)[n], IfaceIndex(v.interfaces)[n]);
  }

  lemma BuiltIsIndexed(networks: seq<Item>, d: Desired, i: nat)
    requires i < |d.ifaces|
    ensures BuiltName(i) in IfaceIndex(BuiltInterfaces(d))
    ensures BuiltName(i)[0] == 'v'
  {
    hide IfaceIndex, Decimal;
    var items := BuiltInterfaces(d);
    var n := BuiltName(i);
    assert n[0] == 'v';
    assert items[1 + i].Fields? && NameOf(items[1 + i].o) == n;
    IfaceIndexed(items, n);
  }

  lemma {:induction false} NetsStartWithM(ifaces: seq<Nic>, n: string)
    requires n in NetsOf(ifaces)
    ensures n != "" && n[0] == 'm'
  {
    IfaceKeys(ifaces);
    var i :| 0 <= i < |ifaces| && n == MultusIfaceName(ifaces[i].vpc);
  }

  lemma BuiltNotDesired(d: Desired, n: string)
    requires n != "" && n[0] == 'v'
    ensures n !in DesiredNets(d) && n !in DesiredMacs(d)
  {
    DesiredKeys(d);
    if n in NetsOf(d.ifaces) {
      NetsStartWithM(d.ifaces, n);
    }
    assert EXTERNAL[0] == 'e';
  }
}
