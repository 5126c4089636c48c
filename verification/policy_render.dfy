// Rendering the policy document from the cluster's IPAddress, FloatingIP and
// PortForward lists, which the API server returns in any order.
module PolicyRender {
  import opened MachineWords
  import opened Text
  import opened IPv4
  import opened SliceSort
  import opened PolicyDocs

  // ---------------------------------------------------------------- the resources

  datatype Binding = Binding(mac: string, hostname: string)
  datatype ClaimRef = ClaimRef(kind: string, name: string)

  datatype IPAddressItem = IPAddressItem(
    poolKind: string, poolName: string, address: string, iface: Option<Binding>, claimRef: Option<ClaimRef>)

  datatype FloatingIPItem = FloatingIPItem(
    vpc: string, routerRef: Option<string>, statusAddress: string, specAddress: string,
    statusPrefix: int, privateAddress: string, targetVm: Option<string>)

  datatype PortForwardItem = PortForwardItem(
    vpc: string, routerRef: Option<string>, publicAddress: string, publicPort: int,
    privateAddress: string, privatePort: int, protocol: string, targetVm: Option<string>)

  datatype ResolvedInterface = ResolvedInterface(
    vpc: string, cidr: string, gateway: string, mac: string, domain: string)

  /** What one render reads. */
  datatype Inputs = Inputs(
    router: string, namespace: string,
    interfaces: seq<ResolvedInterface>, external: Option<PolicyExternal>,
    addresses: seq<IPAddressItem>, floatingIPs: seq<FloatingIPItem>, portForwards: seq<PortForwardItem>)
  {
    function Attached(): set<string> {
      set i | 0 <= i < |interfaces| :: interfaces[i].vpc
    }
  }

  /** The same cluster contents, listed in another order. */
  predicate SameContents(x: Inputs, y: Inputs) {
    && x.router == y.router && x.namespace == y.namespace
    && x.interfaces == y.interfaces && x.external == y.external
    && multiset(x.addresses) == multiset(y.addresses)
    && multiset(x.floatingIPs) == multiset(y.floatingIPs)
    && multiset(x.portForwards) == multiset(y.portForwards)
  }

  // ---------------------------------------------------------------- identifiers

  /** Go `%d`. */
  function SignedDecimal(n: int): string {
    if n < 0 then "-" + Decimal(-n) else Decimal(n)
  }

  function PortForwardId(publicAddr: string, protocol: string, publicPort: int): string {
    TrimSpace(publicAddr) + "-" + ToLower(TrimSpace(protocol)) + "-" + SignedDecimal(publicPort)
  }

  lemma CutAtDash(a1: string, b1: string, a2: string, b2: string)
    requires '-' !in a1 && '-' !in a2
    requires a1 + "-" + b1 == a2 + "-" + b2
    ensures a1 == a2 && b1 == b2
  {
    SplitFirst(a1, b1, '-');
    SplitFirst(a2, b2, '-');
    var t1, t2 := a1 + "-" + b1, a2 + "-" + b2;
    assert a1 == Split(t1, '-')[0] == Split(t2, '-')[0] == a2;
    assert b1 == t1[|a1| + 1..] == t2[|a2| + 1..] == b2;
  }

  lemma SignedDecimalInjective(m: int, n: int)
    requires SignedDecimal(m) == SignedDecimal(n)
    ensures m == n
  {
    SignVisible(m);
    SignVisible(n);
    if m < 0 {
      DecimalRoundTrip(-m);
      DecimalRoundTrip(-n);
      assert Decimal(-m) == SignedDecimal(m)[1..] == SignedDecimal(n)[1..] == Decimal(-n);
    } else {
      DecimalRoundTrip(m);
      DecimalRoundTrip(n);
    }
  }

  lemma SignVisible(n: int)
    ensures SignedDecimal(n) != "" && (SignedDecimal(n)[0] == '-' <==> n < 0)
  {
    if n >= 0 {
      assert Decimal(n)[0] in Decimal(n);
    }
  }

  /** On canonical addresses and TCP or UDP, a forward's id determines its rule. */
  lemma PortForwardIdInjective(m: U32, proto1: string, port1: int, n: U32, proto2: string, port2: int)
    requires ToUpper(TrimSpace(proto1)) in {"TCP", "UDP"} && ToUpper(TrimSpace(proto2)) in {"TCP", "UDP"}
    requires PortForwardId(Render(m), proto1, port1) == PortForwardId(Render(n), proto2, port2)
    ensures m == n && ToUpper(TrimSpace(proto1)) == ToUpper(TrimSpace(proto2)) && port1 == port2
  {
    var p1, p2 := TrimSpace(proto1), TrimSpace(proto2);
    CaseShapes(p1);
    CaseShapes(p2);
    NoDash(m);
    NoDash(n);
    hide Render, TrimSpace, ToLower, ToUpper, SignedDecimal;
    IdParts(Render(m), ToLower(p1), SignedDecimal(port1), Render(n), ToLower(p2), SignedDecimal(port2));
    RenderInjective(m, n);
    SignedDecimalInjective(port1, port2);
  }

  lemma IdParts(a1: string, b1: string, c1: string, a2: string, b2: string, c2: string)
    requires '-' !in a1 && '-' !in a2 && '-' !in b1 && '-' !in b2
    requires a1 + "-" + b1 + "-" + c1 == a2 + "-" + b2 + "-" + c2
    ensures a1 == a2 && b1 == b2 && c1 == c2
  {
    assert a1 + "-" + b1 + "-" + c1 == a1 + "-" + (b1 + "-" + c1);
    assert a2 + "-" + b2 + "-" + c2 == a2 + "-" + (b2 + "-" + c2);
    CutAtDash(a1, b1 + "-" + c1, a2, b2 + "-" + c2);
    CutAtDash(b1, c1, b2, c2);
  }

  lemma NoDash(n: U32)
    ensures '-' !in Render(n) && TrimSpace(Render(n)) == Render(n)
  {
    RenderShape(n);
    TrimOfTrimmed(Render(n), GoSpace);
    hide Render;
  }

  lemma CaseShapes(p: string)
    requires ToUpper(p) in {"TCP", "UDP"}
    ensures '-' !in ToLower(p)
    ensures ToUpper(ToLower(p)) == ToUpper(p)
  {
    forall i | 0 <= i < |p| ensures ToLower(p)[i] != '-' {
      assert ToUpper(p)[i] != '-';
    }
    assert forall i :: 0 <= i < |p| ==> ToUpper(ToLower(p))[i] == ToUpper(p)[i];
  }

  // ---------------------------------------------------------------- projections

  function ProjectLease(ip: IPAddressItem, attached: set<string>): Option<PolicyLease> {
    var vpc := TrimSpace(ip.poolName);
    if ip.poolKind != "VPC" then None
    else if vpc !in attached then None
    else if ip.iface == None || TrimSpace(ip.iface.value.mac) == "" then None
    else if ip.claimRef.Some? && ip.claimRef.value.kind == "Router" then None
    else
      var vm := if ip.claimRef.Some? && ip.claimRef.value.kind == "VirtualMachine" then ip.claimRef.value.name else "";
      var named := TrimSpace(ip.iface.value.hostname);
      var hostname := if named != "" then named else if vm != "" then vm else "host";
      Some(PolicyLease(vpc, ToLower(TrimSpace(ip.iface.value.mac)), TrimSpace(ip.address), hostname, vm))
  }

  /** Whether a resource that may name a router is for this one. */
  predicate ForRouter(routerRef: Option<string>, router: string) {
    routerRef.Some? ==> TrimSpace(routerRef.value) == "" || TrimSpace(routerRef.value) == router
  }

  function Trimmed0(s: Option<string>): string {
    match s case Some(v) => TrimSpace(v) case None => ""
  }

  function ProjectFloatingIP(fip: FloatingIPItem, router: string, attached: set<string>): Option<PolicyFloatingIP> {
    var vpc := TrimSpace(fip.vpc);
    if vpc !in attached || !ForRouter(fip.routerRef, router) then None
    else
      var status := TrimSpace(fip.statusAddress);
      var public := if status != "" then status else TrimSpace(fip.specAddress);
      if public == "" then None
      else
        Some(PolicyFloatingIP(public, public, if fip.statusPrefix == 0 then 32 else fip.statusPrefix,
                              TrimSpace(fip.privateAddress), Trimmed0(fip.targetVm), vpc, ""))
  }

  function ProjectPortForward(pf: PortForwardItem, router: string, attached: set<string>): Option<PolicyPortForward> {
    var vpc := TrimSpace(pf.vpc);
    if vpc !in attached || !ForRouter(pf.routerRef, router) then None
    else
      var public, proto := TrimSpace(pf.publicAddress), ToUpper(TrimSpace(pf.protocol));
      Some(PolicyPortForward(PortForwardId(public, proto, pf.publicPort), public, pf.publicPort,
                             TrimSpace(pf.privateAddress), pf.privatePort, proto, Trimmed0(pf.targetVm), vpc))
  }

  /** The projections of the items that have one, in list order. */
  function Projected<T, U>(items: seq<T>, project: T -> Option<U>): seq<U> {
    if items == [] then []
    else Projected(items[..|items| - 1], project) + One(project(items[|items| - 1]))
  }

  function One<U>(u: Option<U>): seq<U> {
    match u case Some(v) => [v] case None => []
  }

  lemma ProjectedNone<T, U>(project: T -> Option<U>)
    ensures Projected([], project) == []
  {
  }

  lemma ProjectedStep<T, U>(items: seq<T>, i: nat, project: T -> Option<U>)
    requires i < |items|
    ensures Projected(items[..i + 1], project) == Projected(items[..i], project) + One(project(items[i]))
  {
    assert items[..i + 1][..i] == items[..i];
  }

  function LeasesOf(x: Inputs): seq<PolicyLease> {
    Projected(x.addresses, (ip: IPAddressItem) => ProjectLease(ip, x.Attached()))
  }

  function FloatingIPsOf(x: Inputs): seq<PolicyFloatingIP> {
    Projected(x.floatingIPs, (f: FloatingIPItem) => ProjectFloatingIP(f, x.router, x.Attached()))
  }

  function PortForwardsOf(x: Inputs): seq<PolicyPortForward> {
    Projected(x.portForwards, (p: PortForwardItem) => ProjectPortForward(p, x.router, x.Attached()))
  }

  /** Public addresses handed to a target one to one. */
  function AssociatedPublic(fips: seq<PolicyFloatingIP>): set<string> {
    set f | f in fips && TrimSpace(f.private) != "" :: f.public
  }

  /** Port forwards whose public address is not associated: a floating IP wins. */
  function KeptForwards(pfs: seq<PolicyPortForward>, associated: set<string>): seq<PolicyPortForward> {
    Projected(pfs, (p: PolicyPortForward) => if p.public in associated then None else Some(p))
  }

  function ForwardsOf(x: Inputs): seq<PolicyPortForward> {
    KeptForwards(PortForwardsOf(x), AssociatedPublic(FloatingIPsOf(x)))
  }

  // ---------------------------------------------------------------- the render

  const DEFAULT_DHCP := PolicyDhcp(true, "12h", true)

  function InterfaceOf(r: ResolvedInterface): PolicyInterface {
    PolicyInterface(r.vpc, r.cidr, r.gateway, r.mac, r.domain, DEFAULT_DHCP)
  }

  function InterfacesOf(ifaces: seq<ResolvedInterface>): seq<PolicyInterface> {
    seq(|ifaces|, i requires 0 <= i < |ifaces| => InterfaceOf(ifaces[i]))
  }

  /** The rendered document before its lists are sorted. */
  function Unsorted(x: Inputs, prevGen: int): Doc {
    Doc(POLICY_API_VERSION, POLICY_KIND, TrimSpace(x.router), TrimSpace(x.namespace),
        if prevGen > 0 then prevGen else 1,
        InterfacesOf(x.interfaces), x.external, LeasesOf(x), FloatingIPsOf(x), ForwardsOf(x))
  }

  /** `d` is one document the render may produce; ties in the sorts are left open. */
  ghost predicate Renders(x: Inputs, prevGen: int, d: Doc) {
    SortedCopy(Unsorted(x, prevGen), d)
  }

  method CollectLeases(x: Inputs, attached: set<string>) returns (out: seq<PolicyLease>)
    requires attached == x.Attached()
    ensures out == LeasesOf(x)
  {
    hide Projected, ProjectLease;
    ProjectedNone((ip: IPAddressItem) => ProjectLease(ip, attached));
    out := [];
    ghost var project := (ip: IPAddressItem) => ProjectLease(ip, attached);
    for i := 0 to |x.addresses|
      invariant out == Projected(x.addresses[..i], project)
    {
      ProjectedStep(x.addresses, i, project);
      match ProjectLease(x.addresses[i], attached)
      case Some(lease) => out := out + [lease];
      case None =>
    }
    assert x.addresses[..|x.addresses|] == x.addresses;
  }

  method CollectFloatingIPs(x: Inputs, attached: set<string>) returns (out: seq<PolicyFloatingIP>)
    requires attached == x.Attached()
    ensures out == FloatingIPsOf(x)
  {
    hide Projected, ProjectFloatingIP;
    ProjectedNone((f: FloatingIPItem) => ProjectFloatingIP(f, x.router, attached));
    out := [];
    ghost var project := (f: FloatingIPItem) => ProjectFloatingIP(f, x.router, attached);
    for i := 0 to |x.floatingIPs|
      invariant out == Projected(x.floatingIPs[..i], project)
    {
      ProjectedStep(x.floatingIPs, i, project);
      match ProjectFloatingIP(x.floatingIPs[i], x.router, attached)
      case Some(entry) => out := out + [entry];
      case None =>
    }
    assert x.floatingIPs[..|x.floatingIPs|] == x.floatingIPs;
  }

  method CollectPortForwards(x: Inputs, attached: set<string>) returns (out: seq<PolicyPortForward>)
    requires attached == x.Attached()
    ensures out == PortForwardsOf(x)
  {
    hide Projected, ProjectPortForward;
    ProjectedNone((p: PortForwardItem) => ProjectPortForward(p, x.router, attached));
    out := [];
    ghost var project := (p: PortForwardItem) => ProjectPortForward(p, x.router, attached);
    for i := 0 to |x.portForwards|
      invariant out == Projected(x.portForwards[..i], project)
    {
      ProjectedStep(x.portForwards, i, project);
      match ProjectPortForward(x.portForwards[i], x.router, attached)
      case Some(entry) => out := out + [entry];
      case None =>
    }
    assert x.portForwards[..|x.portForwards|] == x.portForwards;
  }

  /** Drops the forwards whose public address is a full association. */
  method FilterForwards(pfs: seq<PolicyPortForward>, fips: seq<PolicyFloatingIP>) returns (kept: seq<PolicyPortForward>)
    ensures kept == KeptForwards(pfs, AssociatedPublic(fips))
  {
    var associated: set<string> := {};
    for i := 0 to |fips|
      invariant associated == AssociatedPublic(fips[..i])
    {
      assert fips[..i + 1] == fips[..i] + [fips[i]];
      if TrimSpace(fips[i].private) != "" {
        associated := associated + {fips[i].public};
      }
    }
    assert fips[..|fips|] == fips;
    kept := [];
    ghost var keep := (p: PolicyPortForward) => if p.public in associated then None else Some(p);
    for i := 0 to |pfs|
      invariant kept == Projected(pfs[..i], keep)
    {
      ProjectedStep(pfs, i, keep);
      if pfs[i].public in associated {
        continue;
      }
      kept := kept + [pfs[i]];
    }
    assert pfs[..|pfs|] == pfs;
  }

  /** `buildPolicyDoc`. */
  method BuildPolicyDoc(x: Inputs, prevGen: int) returns (doc: PolicyDoc)
    ensures fresh(doc) && fresh(doc.Lists())
    ensures doc.leases != null && doc.floatingIPs != null && doc.portForwards != null
    ensures Renders(x, prevGen, doc.View())
  {
    hide IsSortOf, ProjectLease, ProjectFloatingIP, ProjectPortForward, Projected, TrimSpace, KeptForwards, AssociatedPublic;
    var attached: set<string> := {};
    var interfaces: seq<PolicyInterface> := [];
    for i := 0 to |x.interfaces|
      invariant attached == set j | 0 <= j < i :: x.interfaces[j].vpc
      invariant |interfaces| == i && forall j :: 0 <= j < i ==> interfaces[j] == InterfaceOf(x.interfaces[j])
    {
      attached := attached + {x.interfaces[i].vpc};
      interfaces := interfaces + [InterfaceOf(x.interfaces[i])];
    }
    assert interfaces == InterfacesOf(x.interfaces);
    var leases := CollectLeases(x, attached);
    var fips := CollectFloatingIPs(x, attached);
    var pfs := CollectPortForwards(x, attached);
    var kept := FilterForwards(pfs, fips);
    doc := new PolicyDoc(Doc(POLICY_API_VERSION, POLICY_KIND, TrimSpace(x.router), TrimSpace(x.namespace),
                             if prevGen > 0 then prevGen else 1, interfaces, x.external, leases, fips, kept));
    assert doc.View() == Unsorted(x, prevGen);
    SortSlices(doc.leases, doc.floatingIPs, doc.portForwards);
    PartsSorted(Unsorted(x, prevGen), doc.View());
  }

  // ---------------------------------------------------------------- order does not matter

  /** How often u is projected from a multiset of items does not depend on their order. */
  lemma {:induction false} ProjectedPermutation<T(!new), U>(s: seq<T>, t: seq<T>, project: T -> Option<U>)
    requires multiset(s) == multiset(t)
    ensures multiset(Projected(s, project)) == multiset(Projected(t, project))
    decreases |s|
  {
    assert |multiset(s)| == |s| && |multiset(t)| == |t|;
    if s != [] {
      var front, last := s[..|s| - 1], s[|s| - 1];
      assert s == front + [last];
      assert last in multiset(t);
      var k :| 0 <= k < |t| && t[k] == last;
      RemoveFromMultiset(t, k);
      RemoveFromMultiset(s, |s| - 1);
      assert front == s[..|s| - 1] + s[|s|..];
      ProjectedPermutation(front, t[..k] + t[k + 1..], project);
      ProjectedRemove(t, k, project);
      ProjectedRemove(s, |s| - 1, project);
    }
  }

  lemma RemoveFromMultiset<T>(t: seq<T>, k: nat)
    requires k < |t|
    ensures multiset(t[..k] + t[k + 1..]) == multiset(t) - multiset{t[k]}
  {
    assert t == t[..k] + [t[k]] + t[k + 1..];
  }

  lemma {:induction false} ProjectedConcat<T, U>(s: seq<T>, t: seq<T>, project: T -> Option<U>)
    ensures Projected(s + t, project) == Projected(s, project) + Projected(t, project)
    decreases |t|
  {
    if t == [] {
      assert s + t == s;
    } else {
      assert (s + t)[..|s + t| - 1] == s + t[..|t| - 1];
      ProjectedConcat(s, t[..|t| - 1], project);
    }
  }

  lemma ProjectedRemove<T, U>(t: seq<T>, k: nat, project: T -> Option<U>)
    requires k < |t|
    ensures multiset(Projected(t, project))
         == multiset(Projected(t[..k] + t[k + 1..], project)) + multiset(One(project(t[k])))
  {
    hide Projected, One;
    assert t == t[..k] + ([t[k]] + t[k + 1..]);
    ProjectedMiddle(t[..k], t[k], t[k + 1..], project);
  }

  lemma ProjectedMiddle<T, U>(a: seq<T>, x: T, b: seq<T>, project: T -> Option<U>)
    ensures multiset(Projected(a + ([x] + b), project)) == multiset(Projected(a + b, project)) + multiset(One(project(x)))
  {
    ProjectedConcat(a, [x] + b, project);
    ProjectedConcat([x], b, project);
    ProjectedConcat(a, b, project);
    assert Projected([x], project) == One(project(x)) by { assert [x][..0] == []; }
    hide Projected;
  }

  lemma {:induction false} ProjectedMembers<T, U>(items: seq<T>, project: T -> Option<U>, u: U)
    ensures u in Projected(items, project) <==> exists i :: 0 <= i < |items| && project(items[i]) == Some(u)
  {
    if items != [] {
      var n := |items| - 1;
      ProjectedMembers(items[..n], project, u);
      assert forall i :: 0 <= i < n ==> items[..n][i] == items[i];
    }
  }

  /** Another list order changes the unsorted render only by reordering its lists. */
  lemma ReorderedInputs(x: Inputs, y: Inputs, prevGen: int)
    requires SameContents(x, y)
    ensures Reordered(Unsorted(x, prevGen), Unsorted(y, prevGen))
  {
    hide ProjectLease, ProjectFloatingIP, ProjectPortForward, TrimSpace;
    var attached := x.Attached();
    ProjectedPermutation(x.addresses, y.addresses, (ip: IPAddressItem) => ProjectLease(ip, attached));
    ProjectedPermutation(x.floatingIPs, y.floatingIPs, (f: FloatingIPItem) => ProjectFloatingIP(f, x.router, attached));
    ProjectedPermutation(x.portForwards, y.portForwards, (p: PortForwardItem) => ProjectPortForward(p, x.router, attached));
    SameAssociated(FloatingIPsOf(x), FloatingIPsOf(y));
    var associated := AssociatedPublic(FloatingIPsOf(x));
    ProjectedPermutation(PortForwardsOf(x), PortForwardsOf(y),
                         (p: PolicyPortForward) => if p.public in associated then None else Some(p));
  }

  lemma SameAssociated(f: seq<PolicyFloatingIP>, g: seq<PolicyFloatingIP>)
    requires multiset(f) == multiset(g)
    ensures AssociatedPublic(f) == AssociatedPublic(g)
  {
    assert forall p :: p in f <==> p in multiset(f);
    assert forall p :: p in g <==> p in multiset(g);
  }

  /** Whatever order the lists arrive in, the rendered document is the same. */
  lemma RenderIgnoresListOrder(x: Inputs, y: Inputs, prevGen: int, d: Doc, e: Doc)
    requires SameContents(x, y) && KeysDetermine(Unsorted(x, prevGen))
    requires Renders(x, prevGen, d) && Renders(y, prevGen, e)
    ensures d == e
  {
    ReorderedInputs(x, y, prevGen);
    SortedCopiesAgree(Unsorted(x, prevGen), Unsorted(y, prevGen), d, e);
    SortedParts(Unsorted(x, prevGen), d);
    SortedParts(Unsorted(y, prevGen), e);
  }

  lemma SomeSort(u: Doc)
    ensures IsSortOf(LEASE_KEY, u.leases, SortSeq(LEASE_KEY, u.leases))
    ensures IsSortOf(FLOATING_IP_KEY, u.floatingIPs, SortSeq(FLOATING_IP_KEY, u.floatingIPs))
    ensures IsSortOf(PORT_FORWARD_KEY, u.portForwards, SortSeq(PORT_FORWARD_KEY, u.portForwards))
  {
    SortSeqSorts(LEASE_KEY, u.leases);
    SortSeqSorts(FLOATING_IP_KEY, u.floatingIPs);
    SortSeqSorts(PORT_FORWARD_KEY, u.portForwards);
  }

  // ---------------------------------------------------------------- floating IPs win

  /** Every entry is for an attached VPC, and no forward sits on an associated address. */
  lemma RenderedEntries(x: Inputs, prevGen: int, d: Doc)
    requires Renders(x, prevGen, d)
    ensures forall l :: l in d.leases ==> l.vpc in x.Attached()
    ensures forall f :: f in d.floatingIPs ==> f.vpc in x.Attached()
    ensures forall p :: p in d.portForwards ==> p.vpc in x.Attached() && p.public !in AssociatedPublic(d.floatingIPs)
  {
    RenderMembers(x, prevGen, d);
    SameAssociated(FloatingIPsOf(x), d.floatingIPs);
    hide Renders, LeasesOf, FloatingIPsOf, ForwardsOf, AssociatedPublic;
    forall l | l in d.leases ensures l.vpc in x.Attached() {
      LeaseAttached(x, l);
    }
    forall f | f in d.floatingIPs ensures f.vpc in x.Attached() {
      FloatingIPAttached(x, f);
    }
    forall p | p in d.portForwards ensures p.vpc in x.Attached() && p.public !in AssociatedPublic(d.floatingIPs) {
      ForwardAttached(x, p);
    }
  }

  lemma LeaseAttached(x: Inputs, l: PolicyLease)
    requires l in LeasesOf(x)
    ensures l.vpc in x.Attached()
  {
    var attached := x.Attached();
    hide Projected, TrimSpace;
    ProjectedMembers(x.addresses, (ip: IPAddressItem) => ProjectLease(ip, attached), l);
  }

  lemma FloatingIPAttached(x: Inputs, f: PolicyFloatingIP)
    requires f in FloatingIPsOf(x)
    ensures f.vpc in x.Attached()
  {
    var attached := x.Attached();
    hide Projected, TrimSpace;
    ProjectedMembers(x.floatingIPs, (f: FloatingIPItem) => ProjectFloatingIP(f, x.router, attached), f);
  }

  lemma ForwardAttached(x: Inputs, p: PolicyPortForward)
    requires p in ForwardsOf(x)
    ensures p.vpc in x.Attached() && p.public !in AssociatedPublic(FloatingIPsOf(x))
  {
    var attached, associated := x.Attached(), AssociatedPublic(FloatingIPsOf(x));
    hide Projected, TrimSpace, AssociatedPublic, PortForwardId, ToUpper;
    ProjectedMembers(PortForwardsOf(x), (q: PolicyPortForward) => if q.public in associated then None else Some(q), p);
    ProjectedMembers(x.portForwards, (q: PortForwardItem) => ProjectPortForward(q, x.router, attached), p);
  }

  lemma RenderMembers(x: Inputs, prevGen: int, d: Doc)
    requires Renders(x, prevGen, d)
    ensures multiset(d.leases) == multiset(LeasesOf(x))
    ensures multiset(d.floatingIPs) == multiset(FloatingIPsOf(x))
    ensures multiset(d.portForwards) == multiset(ForwardsOf(x))
    ensures forall l :: l in d.leases <==> l in LeasesOf(x)
    ensures forall f :: f in d.floatingIPs <==> f in FloatingIPsOf(x)
    ensures forall p :: p in d.portForwards <==> p in ForwardsOf(x)
  {
    SortedParts(Unsorted(x, prevGen), d);
    hide LeasesOf, FloatingIPsOf, ForwardsOf;
    assert forall l :: l in d.leases <==> l in multiset(d.leases);
    assert forall l :: l in LeasesOf(x) <==> l in multiset(LeasesOf(x));
    assert forall f :: f in d.floatingIPs <==> f in multiset(d.floatingIPs);
    assert forall f :: f in FloatingIPsOf(x) <==> f in multiset(FloatingIPsOf(x));
    assert forall p :: p in d.portForwards <==> p in multiset(d.portForwards);
    assert forall p :: p in ForwardsOf(x) <==> p in multiset(ForwardsOf(x));
  }

  /** No other eligible forward is lost: one on a held or unclaimed address is kept. */
  lemma ForwardKeptExactly(x: Inputs, prevGen: int, d: Doc, p: PolicyPortForward)
    requires Renders(x, prevGen, d)
    ensures p in d.portForwards
       <==> p in PortForwardsOf(x) && !exists f :: f in d.floatingIPs && f.public == p.public && TrimSpace(f.private) != ""
  {
    RenderMembers(x, prevGen, d);
    SameAssociated(FloatingIPsOf(x), d.floatingIPs);
    var associated := AssociatedPublic(FloatingIPsOf(x));
    hide PortForwardsOf, FloatingIPsOf, Renders, Projected, TrimSpace;
    ProjectedMembers(PortForwardsOf(x), (q: PolicyPortForward) => if q.public in associated then None else Some(q), p);
    if p in PortForwardsOf(x) && p.public !in associated {
      var i :| 0 <= i < |PortForwardsOf(x)| && PortForwardsOf(x)[i] == p;
    }
  }
}
