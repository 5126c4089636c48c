// What the entries of a rendered document say, resource by resource and field by
// field, and how often each occurs.
module PolicyEntries {
  import opened Text
  import opened PolicyDocs
  import opened PolicyRender

  // ---------------------------------------------------------------- what each entry says

  predicate AttachedVpc(x: Inputs, vpc: string) {
    exists i :: 0 <= i < |x.interfaces| && x.interfaces[i].vpc == vpc
  }

  /** The resource names no router, or this one. */
  predicate MayServe(routerRef: Option<string>, router: string) {
    match routerRef
    case None => true
    case Some(name) => TrimSpace(name) in {"", router}
  }

  /** A guest's address claim in an attached VPC, and its lease. */
  predicate LeaseSays(x: Inputs, ip: IPAddressItem, l: PolicyLease) {
    && ip.poolKind == "VPC" && l.vpc == TrimSpace(ip.poolName) && AttachedVpc(x, l.vpc)
    && ip.iface.Some? && TrimSpace(ip.iface.value.mac) != ""
    && !(ip.claimRef.Some? && ip.claimRef.value.kind == "Router")
    && l.ip == TrimSpace(ip.address)
    && l.mac == ToLower(TrimSpace(ip.iface.value.mac))
    && (ip.claimRef.Some? && ip.claimRef.value.kind == "VirtualMachine" ==> l.vm == ip.claimRef.value.name)
    && (!(ip.claimRef.Some? && ip.claimRef.value.kind == "VirtualMachine") ==> l.vm == "")
    && (TrimSpace(ip.iface.value.hostname) != "" ==> l.hostname == TrimSpace(ip.iface.value.hostname))
    && (TrimSpace(ip.iface.value.hostname) == "" && l.vm != "" ==> l.hostname == l.vm)
    && (TrimSpace(ip.iface.value.hostname) == "" && l.vm == "" ==> l.hostname == "host")
  }

  /** A floating IP with a public address, and its entry. */
  predicate FloatingIPSays(x: Inputs, fip: FloatingIPItem, e: PolicyFloatingIP) {
    && e.vpc == TrimSpace(fip.vpc) && AttachedVpc(x, e.vpc) && MayServe(fip.routerRef, x.router)
    && e.public != "" && e.id == e.public
    && (TrimSpace(fip.statusAddress) != "" ==> e.public == TrimSpace(fip.statusAddress))
    && (TrimSpace(fip.statusAddress) == "" ==> e.public == TrimSpace(fip.specAddress))
    && (fip.statusPrefix != 0 ==> e.prefix == fip.statusPrefix) && (fip.statusPrefix == 0 ==> e.prefix == 32)
    && e.private == TrimSpace(fip.privateAddress)
    && (fip.targetVm.Some? ==> e.targetVm == TrimSpace(fip.targetVm.value)) && (fip.targetVm.None? ==> e.targetVm == "")
    && e.protocol == ""
  }

  predicate ForwardSays(x: Inputs, pf: PortForwardItem, e: PolicyPortForward) {
    && e.vpc == TrimSpace(pf.vpc) && AttachedVpc(x, e.vpc) && MayServe(pf.routerRef, x.router)
    && e.public == TrimSpace(pf.publicAddress) && e.publicPort == pf.publicPort
    && e.private == TrimSpace(pf.privateAddress) && e.privatePort == pf.privatePort
    && e.protocol == ToUpper(TrimSpace(pf.protocol))
    && e.id == e.public + "-" + ToLower(TrimSpace(pf.protocol)) + "-" + SignedDecimal(pf.publicPort)
    && (pf.targetVm.Some? ==> e.targetVm == TrimSpace(pf.targetVm.value)) && (pf.targetVm.None? ==> e.targetVm == "")
  }

  /** Some rendered floating IP hands this public address to a target. */
  predicate Taken(d: Doc, public: string) {
    exists i :: 0 <= i < |d.floatingIPs| && d.floatingIPs[i].public == public && TrimSpace(d.floatingIPs[i].private) != ""
  }

  // ---------------------------------------------------------------- counting projections

  /** Where in the list such an item is. */
  ghost function Places<T>(items: seq<T>, says: T -> bool): set<int> {
    set i | 0 <= i < |items| && says(items[i])
  }

  lemma PlacesStep<T>(items: seq<T>, says: T -> bool)
    requires items != []
    ensures var n := |items| - 1;
            && Places(items, says) == (if says(items[n]) then Places(items[..n], says) + {n} else Places(items[..n], says))
            && n !in Places(items[..n], says)
  {
    var n := |items| - 1;
    assert forall i :: 0 <= i < n ==> items[..n][i] == items[i];
  }

  lemma MultisetStep<T>(s: seq<T>, t: seq<T>, u: T)
    ensures multiset(s + t)[u] == multiset(s)[u] + multiset(t)[u]
  {
  }

  lemma OneCount<U>(o: Option<U>, u: U)
    ensures multiset(One(o))[u] == if o == Some(u) then 1 else 0
  {
  }

  /** An entry occurs as often as there are items that say it. */
  lemma {:induction false} ProjectedCount<T, U>(items: seq<T>, project: T -> Option<U>, says: T -> bool, u: U)
    requires forall i :: 0 <= i < |items| ==> (project(items[i]) == Some(u) <==> says(items[i]))
    ensures multiset(Projected(items, project))[u] == |Places(items, says)|
  {
    if items == [] {
      assert Places(items, says) == {};
    } else {
      var n := |items| - 1;
      assert forall i :: 0 <= i < n ==> items[..n][i] == items[i];
      ProjectedCount(items[..n], project, says, u);
      PlacesStep(items, says);
      assert Projected(items, project) == Projected(items[..n], project) + One(project(items[n]));
      OneCount(project(items[n]), u);
      MultisetStep(Projected(items[..n], project), One(project(items[n])), u);
      hide Projected, One, Places;
    }
  }

  // ---------------------------------------------------------------- projections say that

  lemma AttachedMeaning(x: Inputs, vpc: string)
    ensures vpc in x.Attached() <==> AttachedVpc(x, vpc)
  {
  }

  lemma LeaseProjection(x: Inputs, ip: IPAddressItem, l: PolicyLease)
    ensures ProjectLease(ip, x.Attached()) == Some(l) <==> LeaseSays(x, ip, l)
  {
    AttachedMeaning(x, TrimSpace(ip.poolName));
    hide TrimSpace, ToLower, Inputs.Attached, AttachedVpc;
  }

  lemma FloatingIPProjection(x: Inputs, fip: FloatingIPItem, e: PolicyFloatingIP)
    ensures ProjectFloatingIP(fip, x.router, x.Attached()) == Some(e) <==> FloatingIPSays(x, fip, e)
  {
    AttachedMeaning(x, TrimSpace(fip.vpc));
    hide TrimSpace, Inputs.Attached, AttachedVpc;
  }

  /** The id writes the protocol in lower case, whatever case it came in. */
  lemma LowerOfUpper(s: string)
    requires Trimmed(s, GoSpace)
    ensures ToLower(TrimSpace(ToUpper(s))) == ToLower(s)
  {
    var u := ToUpper(s);
    assert |u| == |s| && forall i :: 0 <= i < |s| ==> u[i] == UpperChar(s[i]);
    assert Trimmed(u, GoSpace);
    TrimOfTrimmed(u, GoSpace);
    assert forall i :: 0 <= i < |s| ==> ToLower(u)[i] == ToLower(s)[i];
  }

  lemma ForwardProjection(x: Inputs, pf: PortForwardItem, e: PolicyPortForward)
    ensures ProjectPortForward(pf, x.router, x.Attached()) == Some(e) <==> ForwardSays(x, pf, e)
  {
    AttachedMeaning(x, TrimSpace(pf.vpc));
    TrimTwice(pf.publicAddress);
    TrimShape(pf.protocol, GoSpace);
    LowerOfUpper(TrimSpace(pf.protocol));
    hide TrimSpace, ToLower, ToUpper, SignedDecimal, Inputs.Attached, AttachedVpc;
  }

  // ---------------------------------------------------------------- the rendered document

  lemma EligibleLeases(x: Inputs, e: PolicyLease)
    ensures multiset(LeasesOf(x))[e] == |set i | 0 <= i < |x.addresses| && LeaseSays(x, x.addresses[i], e)|
  {
    hide LeaseSays, ProjectLease, Projected;
    var attached := x.Attached();
    var says := (ip: IPAddressItem) => LeaseSays(x, ip, e);
    forall i | 0 <= i < |x.addresses| ensures ProjectLease(x.addresses[i], attached) == Some(e) <==> says(x.addresses[i]) {
      LeaseProjection(x, x.addresses[i], e);
    }
    ProjectedCount(x.addresses, (ip: IPAddressItem) => ProjectLease(ip, attached), says, e);
    assert Places(x.addresses, says) == set i | 0 <= i < |x.addresses| && LeaseSays(x, x.addresses[i], e);
  }

  /** Each lease stands for the address claims that say it, as often as there are such. */
  lemma RenderedLeases(x: Inputs, prevGen: int, d: Doc, e: PolicyLease)
    requires Renders(x, prevGen, d)
    ensures multiset(d.leases)[e] == |set i | 0 <= i < |x.addresses| && LeaseSays(x, x.addresses[i], e)|
    ensures e in d.leases <==> exists i :: 0 <= i < |x.addresses| && LeaseSays(x, x.addresses[i], e)
  {
    RenderMembers(x, prevGen, d);
    EligibleLeases(x, e);
    hide *;
    var eligible := set i | 0 <= i < |x.addresses| && LeaseSays(x, x.addresses[i], e);
    assert e in d.leases <==> e in multiset(d.leases);
    if i :| 0 <= i < |x.addresses| && LeaseSays(x, x.addresses[i], e) {
      assert i in eligible;
    }
    if |eligible| > 0 {
      var i :| i in eligible;
    }
  }

  lemma EligibleFloatingIPs(x: Inputs, e: PolicyFloatingIP)
    ensures multiset(FloatingIPsOf(x))[e] == |set i | 0 <= i < |x.floatingIPs| && FloatingIPSays(x, x.floatingIPs[i], e)|
  {
    hide FloatingIPSays, ProjectFloatingIP, Projected;
    var attached := x.Attached();
    var says := (f: FloatingIPItem) => FloatingIPSays(x, f, e);
    forall i | 0 <= i < |x.floatingIPs|
      ensures ProjectFloatingIP(x.floatingIPs[i], x.router, attached) == Some(e) <==> says(x.floatingIPs[i])
    {
      FloatingIPProjection(x, x.floatingIPs[i], e);
    }
    ProjectedCount(x.floatingIPs, (f: FloatingIPItem) => ProjectFloatingIP(f, x.router, attached), says, e);
    assert Places(x.floatingIPs, says) == set i | 0 <= i < |x.floatingIPs| && FloatingIPSays(x, x.floatingIPs[i], e);
  }

  /** The same for floating IPs. */
  lemma RenderedFloatingIPs(x: Inputs, prevGen: int, d: Doc, e: PolicyFloatingIP)
    requires Renders(x, prevGen, d)
    ensures multiset(d.floatingIPs)[e] == |set i | 0 <= i < |x.floatingIPs| && FloatingIPSays(x, x.floatingIPs[i], e)|
    ensures e in d.floatingIPs <==> exists i :: 0 <= i < |x.floatingIPs| && FloatingIPSays(x, x.floatingIPs[i], e)
  {
    RenderMembers(x, prevGen, d);
    EligibleFloatingIPs(x, e);
    hide *;
    var eligible := set i | 0 <= i < |x.floatingIPs| && FloatingIPSays(x, x.floatingIPs[i], e);
    assert e in d.floatingIPs <==> e in multiset(d.floatingIPs);
    if i :| 0 <= i < |x.floatingIPs| && FloatingIPSays(x, x.floatingIPs[i], e) {
      assert i in eligible;
    }
    if |eligible| > 0 {
      var i :| i in eligible;
    }
  }

  lemma EligibleForwards(x: Inputs, e: PolicyPortForward)
    ensures multiset(PortForwardsOf(x))[e] == |set i | 0 <= i < |x.portForwards| && ForwardSays(x, x.portForwards[i], e)|
  {
    hide ForwardSays, ProjectPortForward, Projected;
    var attached := x.Attached();
    var says := (p: PortForwardItem) => ForwardSays(x, p, e);
    forall i | 0 <= i < |x.portForwards|
      ensures ProjectPortForward(x.portForwards[i], x.router, attached) == Some(e) <==> says(x.portForwards[i])
    {
      ForwardProjection(x, x.portForwards[i], e);
    }
    ProjectedCount(x.portForwards, (p: PortForwardItem) => ProjectPortForward(p, x.router, attached), says, e);
    assert Places(x.portForwards, says) == set i | 0 <= i < |x.portForwards| && ForwardSays(x, x.portForwards[i], e);
  }

  /** And for port forwards, unless a floating IP has their public address. */
  lemma RenderedForwards(x: Inputs, prevGen: int, d: Doc, e: PolicyPortForward)
    requires Renders(x, prevGen, d)
    ensures multiset(d.portForwards)[e]
         == if Taken(d, e.public) then 0 else |set i | 0 <= i < |x.portForwards| && ForwardSays(x, x.portForwards[i], e)|
    ensures e in d.portForwards
       <==> !Taken(d, e.public) && exists i :: 0 <= i < |x.portForwards| && ForwardSays(x, x.portForwards[i], e)
  {
    hide *;
    ForwardCount(x, prevGen, d, e);
    var eligible := set i | 0 <= i < |x.portForwards| && ForwardSays(x, x.portForwards[i], e);
    assert e in d.portForwards <==> e in multiset(d.portForwards);
    if i :| 0 <= i < |x.portForwards| && ForwardSays(x, x.portForwards[i], e) {
      assert i in eligible;
    }
    if |eligible| > 0 {
      var i :| i in eligible;
    }
  }

  lemma ForwardCount(x: Inputs, prevGen: int, d: Doc, e: PolicyPortForward)
    requires Renders(x, prevGen, d)
    ensures multiset(d.portForwards)[e]
         == if Taken(d, e.public) then 0 else |set i | 0 <= i < |x.portForwards| && ForwardSays(x, x.portForwards[i], e)|
  {
    RenderMembers(x, prevGen, d);
    SameAssociated(FloatingIPsOf(x), d.floatingIPs);
    assert multiset(d.portForwards) == multiset(KeptForwards(PortForwardsOf(x), AssociatedPublic(d.floatingIPs)));
    hide Renders, ForwardSays, KeptForwards, Taken, FloatingIPsOf, PortForwardsOf, AssociatedPublic, ForwardsOf;
    EligibleForwards(x, e);
    KeptCount(PortForwardsOf(x), AssociatedPublic(d.floatingIPs), e);
    TakenMeaning(d, e.public);
  }

  lemma TakenMeaning(d: Doc, public: string)
    ensures Taken(d, public) <==> public in AssociatedPublic(d.floatingIPs)
  {
    hide TrimSpace;
    if public in AssociatedPublic(d.floatingIPs) {
      var f :| f in d.floatingIPs && TrimSpace(f.private) != "" && f.public == public;
    }
    if i :| 0 <= i < |d.floatingIPs| && d.floatingIPs[i].public == public && TrimSpace(d.floatingIPs[i].private) != "" {
      assert d.floatingIPs[i] in d.floatingIPs;
    }
  }

  lemma KeptStep(front: seq<PolicyPortForward>, last: PolicyPortForward, associated: set<string>)
    ensures KeptForwards(front + [last], associated)
         == KeptForwards(front, associated) + (if last.public in associated then [] else [last])
  {
    assert (front + [last])[..|front|] == front;
  }

  /** The filter drops all or nothing of an entry. */
  lemma {:induction false} KeptCount(pfs: seq<PolicyPortForward>, associated: set<string>, e: PolicyPortForward)
    ensures multiset(KeptForwards(pfs, associated))[e] == if e.public in associated then 0 else multiset(pfs)[e]
  {
    if pfs != [] {
      hide KeptForwards;
      var front, last := pfs[..|pfs| - 1], pfs[|pfs| - 1];
      assert pfs == front + [last];
      KeptCount(front, associated, e);
      KeptStep(front, last, associated);
      MultisetStep(KeptForwards(front, associated), if last.public in associated then [] else [last], e);
      MultisetStep(front, [last], e);
    }
  }

  /** The head of the document: whose it is, its generation, and the interfaces in their order. */
  lemma RenderedHead(x: Inputs, prevGen: int, d: Doc)
    requires Renders(x, prevGen, d)
    ensures d.name == TrimSpace(x.router) && d.namespace == TrimSpace(x.namespace)
    ensures d.apiVersion == "kmc.ianunruh.com/v1alpha1" && d.kind == "RouterPolicy"
    ensures (prevGen > 0 ==> d.generation == prevGen) && (prevGen <= 0 ==> d.generation == 1)
    ensures d.external == x.external && |d.interfaces| == |x.interfaces|
    ensures forall i :: 0 <= i < |x.interfaces| ==>
              var out, given := d.interfaces[i], x.interfaces[i];
              && out.vpc == given.vpc && out.cidr == given.cidr && out.gateway == given.gateway && out.mac == given.mac
              && out.domain == given.domain
              && out.dhcp.enabled && out.dhcp.authoritative && out.dhcp.leaseTime == "12h"
  {
    SortedParts(Unsorted(x, prevGen), d);
    hide TrimSpace, LeasesOf, FloatingIPsOf, ForwardsOf;
  }
}
