// The router policy document: mutable lists that are normalised and sorted in
// place, the comparison that decides whether the generation moves, and the text.
//
// JSON is an opaque encoding that is injective on normalised documents: equal texts
// mean equal documents, and parsing returns what was written.
module PolicyDocs {
  import opened Text
  import opened SliceSort

  const POLICY_API_VERSION := "kmc.ianunruh.com/v1alpha1"
  const POLICY_KIND := "RouterPolicy"

  datatype PolicyDhcp = PolicyDhcp(enabled: bool, leaseTime: string, authoritative: bool)

  datatype PolicyInterface = PolicyInterface(
    vpc: string, cidr: string, gateway: string, mac: string, domain: string, dhcp: PolicyDhcp)

  datatype PolicyExternal = PolicyExternal(
    multusNetwork: string, primaryCidr: string, gateway: string, mac: string, snat: bool)

  datatype PolicyLease = PolicyLease(vpc: string, mac: string, ip: string, hostname: string, vm: string)

  datatype PolicyFloatingIP = PolicyFloatingIP(
    id: string, public: string, prefix: int, private: string, targetVm: string, vpc: string, protocol: string)

  datatype PolicyPortForward = PolicyPortForward(
    id: string, public: string, publicPort: int, private: string, privatePort: int,
    protocol: string, targetVm: string, vpc: string)

  /** A document as a value, nil lists read as empty. */
  datatype Doc = Doc(
    apiVersion: string, kind: string, name: string, namespace: string, generation: int,
    interfaces: seq<PolicyInterface>, external: Option<PolicyExternal>,
    leases: seq<PolicyLease>, floatingIPs: seq<PolicyFloatingIP>, portForwards: seq<PolicyPortForward>)

  // ---------------------------------------------------------------- the less functions

  predicate LeaseLess(a: PolicyLease, b: PolicyLease) {
    if a.vpc != b.vpc then StrLess(a.vpc, b.vpc)
    else if a.ip != b.ip then StrLess(a.ip, b.ip)
    else StrLess(a.mac, b.mac)
  }

  predicate FloatingIPLess(a: PolicyFloatingIP, b: PolicyFloatingIP) {
    StrLess(a.public, b.public)
  }

  predicate PortForwardLess(a: PolicyPortForward, b: PolicyPortForward) {
    StrLess(a.id, b.id)
  }

  const LEASE_KEY: PolicyLease -> SortKey := (l: PolicyLease) => [l.vpc, l.ip, l.mac]
  const FLOATING_IP_KEY: PolicyFloatingIP -> SortKey := (f: PolicyFloatingIP) => [f.public]
  const PORT_FORWARD_KEY: PolicyPortForward -> SortKey := (f: PolicyPortForward) => [f.id]

  /** The three closures order by these keys, and by nothing else. */
  lemma LessIsKeyLess(a: PolicyLease, b: PolicyLease, f: PolicyFloatingIP, g: PolicyFloatingIP,
                      p: PolicyPortForward, q: PolicyPortForward)
    ensures LeaseLess(a, b) <==> KeyLess(LEASE_KEY(a), LEASE_KEY(b))
    ensures FloatingIPLess(f, g) <==> KeyLess(FLOATING_IP_KEY(f), FLOATING_IP_KEY(g))
    ensures PortForwardLess(p, q) <==> KeyLess(PORT_FORWARD_KEY(p), PORT_FORWARD_KEY(q))
  {
    KeyLessThree(a.vpc, a.ip, a.mac, b.vpc, b.ip, b.mac);
    KeyLessOne(f.public, g.public);
    KeyLessOne(p.id, q.id);
  }

  lemma KeyLessOne(a: string, b: string)
    ensures KeyLess([a], [b]) <==> StrLess(a, b)
  {
    hide StrLess;
    assert [a][1..] == [] && [b][1..] == [];
  }

  lemma KeyLessThree(a0: string, a1: string, a2: string, b0: string, b1: string, b2: string)
    ensures KeyLess([a0, a1, a2], [b0, b1, b2])
       <==> StrLess(a0, b0) || (a0 == b0 && (StrLess(a1, b1) || (a1 == b1 && StrLess(a2, b2))))
    ensures !StrLess(a0, a0) && !StrLess(a1, a1)
  {
    StrLessTotal(a0, a0);
    StrLessTotal(a1, a1);
    hide StrLess;
    assert [a0, a1, a2][1..] == [a1, a2] && [b0, b1, b2][1..] == [b1, b2];
    assert [a1, a2][1..] == [a2] && [b1, b2][1..] == [b2];
    KeyLessOne(a2, b2);
  }

  // ---------------------------------------------------------------- values

  /** Everything the control plane owns: all but the generation, list order aside. */
  datatype DesiredPart = DesiredPart(
    scalars: seq<string>, interfaces: seq<PolicyInterface>, external: Option<PolicyExternal>,
    leases: multiset<PolicyLease>, floatingIPs: multiset<PolicyFloatingIP>,
    portForwards: multiset<PolicyPortForward>)

  function Desired(d: Doc): DesiredPart {
    DesiredPart([d.apiVersion, d.kind, d.name, d.namespace], d.interfaces, d.external,
                multiset(d.leases), multiset(d.floatingIPs), multiset(d.portForwards))
  }

  /** `after` is `before` with its three projected lists sorted, one way or another. */
  ghost predicate SortedCopy(before: Doc, after: Doc) {
    && after == before.(leases := after.leases, floatingIPs := after.floatingIPs, portForwards := after.portForwards)
    && IsSortOf(LEASE_KEY, before.leases, after.leases)
    && IsSortOf(FLOATING_IP_KEY, before.floatingIPs, after.floatingIPs)
    && IsSortOf(PORT_FORWARD_KEY, before.portForwards, after.portForwards)
  }

  /** `after` is `before` with its three projected lists permuted. */
  predicate Reordered(before: Doc, after: Doc) {
    && after == before.(leases := after.leases, floatingIPs := after.floatingIPs, portForwards := after.portForwards)
    && Desired(after) == Desired(before)
  }

  /** No list holds two different entries with one sort key. */
  ghost predicate KeysDetermine(d: Doc) {
    && TiesEqual(LEASE_KEY, d.leases)
    && TiesEqual(FLOATING_IP_KEY, d.floatingIPs)
    && TiesEqual(PORT_FORWARD_KEY, d.portForwards)
  }

  lemma SortedCopyIsReordered(before: Doc, after: Doc)
    requires SortedCopy(before, after)
    ensures Reordered(before, after)
  {
  }

  /** Sorting two documents with the same desired part gives one result, up to the generation. */
  lemma SortedCopiesAgree(x: Doc, y: Doc, x': Doc, y': Doc)
    requires Desired(x) == Desired(y) && KeysDetermine(x)
    requires SortedCopy(x, x') && SortedCopy(y, y')
    ensures x'.(generation := 0) == y'.(generation := 0)
  {
    DesiredFields(x, y);
    hide Sorted, TiesEqual, IsSortOf, Desired;
    SortsAgree(LEASE_KEY, x.leases, y.leases, x'.leases, y'.leases);
    SortsAgree(FLOATING_IP_KEY, x.floatingIPs, y.floatingIPs, x'.floatingIPs, y'.floatingIPs);
    SortsAgree(PORT_FORWARD_KEY, x.portForwards, y.portForwards, x'.portForwards, y'.portForwards);
  }

  lemma DesiredFields(x: Doc, y: Doc)
    requires Desired(x) == Desired(y)
    ensures x.apiVersion == y.apiVersion && x.kind == y.kind && x.name == y.name && x.namespace == y.namespace
    ensures x.interfaces == y.interfaces && x.external == y.external
    ensures multiset(x.leases) == multiset(y.leases) && multiset(x.floatingIPs) == multiset(y.floatingIPs)
    ensures multiset(x.portForwards) == multiset(y.portForwards)
  {
    var sx, sy := Desired(x).scalars, Desired(y).scalars;
    assert sx[0] == sy[0] && sx[1] == sy[1] && sx[2] == sy[2] && sx[3] == sy[3];
  }

  lemma SortsAgree<T(!new)>(key: T -> SortKey, x: seq<T>, y: seq<T>, x': seq<T>, y': seq<T>)
    requires multiset(x) == multiset(y) && TiesEqual(key, x)
    requires IsSortOf(key, x, x') && IsSortOf(key, y, y')
    ensures x' == y'
  {
    SortDeterminedExactly(key, x);
    assert IsSortOf(key, x, y');
  }

  // ---------------------------------------------------------------- the mutable document

  /** The elements of a slice; nil has none. */
  function Items<T>(a: array?<T>): seq<T>
    reads a
  {
    if a == null then [] else a[..]
  }

  /** A document with its lists as slices: null is Go's nil, and lists may be shared. */
  class PolicyDoc {
    var apiVersion: string
    var kind: string
    var name: string
    var namespace: string
    var generation: int
    var interfaces: Option<seq<PolicyInterface>>   // never written through, so held by value
    var external: Option<PolicyExternal>
    var leases: array?<PolicyLease>
    var floatingIPs: array?<PolicyFloatingIP>
    var portForwards: array?<PolicyPortForward>

    ghost function Lists(): set<object?>
      reads this
    {
      {leases as object?, floatingIPs as object?, portForwards as object?}
    }

    function View(): Doc
      reads this, leases, floatingIPs, portForwards
    {
      Doc(apiVersion, kind, name, namespace, generation,
          (match interfaces case Some(list) => list case None => []), external,
           Items(leases), Items(floatingIPs), Items(portForwards))
    }

    constructor (doc: Doc)
      ensures View() == doc
      ensures leases != null && floatingIPs != null && portForwards != null && interfaces.Some?
      ensures fresh(leases) && fresh(floatingIPs) && fresh(portForwards)
    {
      apiVersion, kind, name, namespace := doc.apiVersion, doc.kind, doc.name, doc.namespace;
      generation, external := doc.generation, doc.external;
      interfaces := Some(doc.interfaces);
      leases := new PolicyLease[|doc.leases|](i requires 0 <= i < |doc.leases| => doc.leases[i]);
      floatingIPs := new PolicyFloatingIP[|doc.floatingIPs|](i requires 0 <= i < |doc.floatingIPs| => doc.floatingIPs[i]);
      portForwards := new PolicyPortForward[|doc.portForwards|](i requires 0 <= i < |doc.portForwards| => doc.portForwards[i]);
      new;
      assert leases[..] == doc.leases;
      assert floatingIPs[..] == doc.floatingIPs && portForwards[..] == doc.portForwards;
    }

    /** Go's `*a`: a new struct over the same lists. */
    constructor ShallowCopy(a: PolicyDoc)
      ensures leases == a.leases && floatingIPs == a.floatingIPs && portForwards == a.portForwards
      ensures interfaces == a.interfaces
      ensures View() == a.View()
    {
      apiVersion, kind, name, namespace := a.apiVersion, a.kind, a.name, a.namespace;
      generation, external, interfaces := a.generation, a.external, a.interfaces;
      leases, floatingIPs, portForwards := a.leases, a.floatingIPs, a.portForwards;
    }
  }

  /** `normalizePolicySlices`: nil lists become empty ones; nothing else changes. */
  method NormalizePolicySlices(doc: PolicyDoc)
    modifies doc
    ensures doc.View() == old(doc.View())
    ensures doc.interfaces.Some? && doc.leases != null && doc.floatingIPs != null && doc.portForwards != null
    ensures doc.leases == old(doc.leases) || (old(doc.leases) == null && fresh(doc.leases))
    ensures doc.floatingIPs == old(doc.floatingIPs) || (old(doc.floatingIPs) == null && fresh(doc.floatingIPs))
    ensures doc.portForwards == old(doc.portForwards) || (old(doc.portForwards) == null && fresh(doc.portForwards))
    ensures doc.generation == old(doc.generation)
  {
    if doc.interfaces == None { doc.interfaces := Some([]); }
    if doc.leases == null { doc.leases := new PolicyLease[0]; }
    if doc.floatingIPs == null { doc.floatingIPs := new PolicyFloatingIP[0]; }
    if doc.portForwards == null { doc.portForwards := new PolicyPortForward[0]; }
  }

  /** `sortPolicyLists`: the slices are sorted where they are, for every holder of them. */
  method SortPolicyLists(doc: PolicyDoc)
    modifies doc.leases, doc.floatingIPs, doc.portForwards
    ensures SortedCopy(old(doc.View()), doc.View())
  {
    SortSlices(doc.leases, doc.floatingIPs, doc.portForwards);
  }

  method SortSlices(l: array?<PolicyLease>, f: array?<PolicyFloatingIP>, p: array?<PolicyPortForward>)
    modifies l, f, p
    ensures IsSortOf(LEASE_KEY, old(Items(l)), Items(l))
    ensures IsSortOf(FLOATING_IP_KEY, old(Items(f)), Items(f))
    ensures IsSortOf(PORT_FORWARD_KEY, old(Items(p)), Items(p))
  {
    hide IsSortOf;
    SortList(l, LEASE_KEY);
    SortList(f, FLOATING_IP_KEY);
    SortList(p, PORT_FORWARD_KEY);
  }

  /** Lists of at most one element are left alone. */
  method SortList<T>(a: array?<T>, key: T -> SortKey)
    modifies a
    ensures IsSortOf(key, old(Items(a)), Items(a))
  {
    hide IsSortOf;
    ShortIsSorted(key, Items(a));
    if a != null && a.Length > 1 {
      SortSlice(a, key);
    }
  }

  lemma ShortIsSorted<T>(key: T -> SortKey, s: seq<T>)
    ensures |s| <= 1 ==> IsSortOf(key, s, s)
  {
  }

  /**
   * Whether the control-plane-owned parts agree. The copies share their lists with
   * the callers, so the callers' lists come back sorted, and the answer compares
   * them as sorted. It is "yes" only if the desired parts agree, and always "yes"
   * then when keys determine entries.
   */
  method PolicyEqualDesired(a: PolicyDoc?, b: PolicyDoc?) returns (eq: bool)
    modifies if a == null then {} else a.Lists()
    modifies if b == null then {} else b.Lists()
    ensures a == null || b == null ==> eq == (a == b)
    ensures a == null || b == null ==> (a != null ==> a.View() == old(a.View())) && (b != null ==> b.View() == old(b.View()))
    ensures a != null && b != null ==>
              && Compared(old(a.View()), old(b.View()), a.View(), b.View(), eq)
              && (eq ==> Desired(old(a.View())) == Desired(old(b.View())))
              && (Desired(old(a.View())) == Desired(old(b.View())) && KeysDetermine(old(a.View())) ==> eq)
  {
    if a == null || b == null {
      return a == b;
    }
    eq := EqualDesired(a, b);
  }

  /** The comparison proper, for two documents that exist. */
  method EqualDesired(a: PolicyDoc, b: PolicyDoc) returns (eq: bool)
    modifies a.Lists(), b.Lists()
    ensures SortedCopy(old(a.View()), a.View()) && SortedCopy(old(b.View()), b.View())
    ensures eq <==> a.View().(generation := 0) == b.View().(generation := 0)
    ensures eq ==> Desired(old(a.View())) == Desired(old(b.View()))
    ensures Desired(old(a.View())) == Desired(old(b.View())) && KeysDetermine(old(a.View())) ==> eq
  {
    hide IsSortOf, TiesEqual, SortedCopy, KeysDetermine, Desired, Reordered, Shares;
    ghost var x, y := a.View(), b.View();
    var ac := ComparisonCopy(a);
    var bc := ComparisonCopy(b);
    ghost var x0, y0 := ac.View(), bc.View();
    assert x0 == x.(generation := 0) && y0 == y.(generation := 0);
    SortBoth(ac, bc, a, b);
    assert SortedCopy(x0, ac.View()) && SortedCopy(y0, bc.View());
    eq := ac.View() == bc.View();
    EqualMeansDesired(x, y, ac.View(), bc.View());
    CopiedBack(a, ac, x);
    CopiedBack(b, bc, y);
  }

  /** Copy and original hold the same slices, except where the original has nil. */
  ghost predicate Shares(a: PolicyDoc, ac: PolicyDoc, x: Doc)
    reads a, ac
  {
    && Bare(a) == x.(leases := [], floatingIPs := [], portForwards := [])
    && (if a.leases == null then x.leases == [] else ac.leases == a.leases)
    && (if a.floatingIPs == null then x.floatingIPs == [] else ac.floatingIPs == a.floatingIPs)
    && (if a.portForwards == null then x.portForwards == [] else ac.portForwards == a.portForwards)
  }

  /** The document without its projected lists. */
  function Bare(a: PolicyDoc): Doc
    reads a
  {
    Doc(a.apiVersion, a.kind, a.name, a.namespace, a.generation,
        (match a.interfaces case Some(list) => list case None => []), a.external, [], [], [])
  }

  /** Once the comparison copy is sorted, so is the caller's document: they share lists. */
  lemma CopiedBack(a: PolicyDoc, ac: PolicyDoc, x: Doc)
    requires Shares(a, ac, x)
    requires SortedCopy(x.(generation := 0), ac.View())
    ensures SortedCopy(x, a.View())
    ensures a.View().(generation := 0) == ac.View()
  {
    SortedParts(x.(generation := 0), ac.View());
    hide SortedCopy, IsSortOf;
    assert a.View() == ac.View().(generation := x.generation);
    PartsSorted(x, a.View());
  }

  /** A struct copy, generation cleared and nil lists replaced; live lists stay shared. */
  method ComparisonCopy(a: PolicyDoc) returns (ac: PolicyDoc)
    ensures fresh(ac) && ac.View() == a.View().(generation := 0)
    ensures Shares(a, ac, a.View())
    ensures fresh(ac.Lists() - a.Lists())
  {
    ac := new PolicyDoc.ShallowCopy(a);
    ac.generation := 0;
    NormalizePolicySlices(ac);
  }

  lemma SortedParts(before: Doc, after: Doc)
    requires SortedCopy(before, after)
    ensures after == before.(leases := after.leases, floatingIPs := after.floatingIPs, portForwards := after.portForwards)
    ensures IsSortOf(LEASE_KEY, before.leases, after.leases)
    ensures IsSortOf(FLOATING_IP_KEY, before.floatingIPs, after.floatingIPs)
    ensures IsSortOf(PORT_FORWARD_KEY, before.portForwards, after.portForwards)
    ensures |before.leases| == |after.leases| && |before.floatingIPs| == |after.floatingIPs|
    ensures |before.portForwards| == |after.portForwards|
  {
    SameLength(before.leases, after.leases);
    SameLength(before.floatingIPs, after.floatingIPs);
    SameLength(before.portForwards, after.portForwards);
  }

  lemma SameLength<T>(s: seq<T>, t: seq<T>)
    requires multiset(s) == multiset(t)
    ensures |s| == |t|
  {
    assert |multiset(s)| == |s| && |multiset(t)| == |t|;
  }

  /** Both copies sorted in turn, whether or not they share slices. */
  method SortBoth(ac: PolicyDoc, bc: PolicyDoc, ghost a: PolicyDoc, ghost b: PolicyDoc)
    modifies ac.leases, ac.floatingIPs, ac.portForwards, bc.leases, bc.floatingIPs, bc.portForwards
    ensures SortedCopy(old(ac.View()), ac.View())
    ensures SortedCopy(old(bc.View()), bc.View())
    ensures unchanged(a) && unchanged(b) && unchanged(ac) && unchanged(bc)
  {
    hide IsSortOf, SortedCopy;
    ghost var x, y := ac.View(), bc.View();
    SortSlicesOfBoth(ac.leases, ac.floatingIPs, ac.portForwards, bc.leases, bc.floatingIPs, bc.portForwards);
    PartsSorted(x, ac.View());
    PartsSorted(y, bc.View());
  }

  method SortSlicesOfBoth(l1: array?<PolicyLease>, f1: array?<PolicyFloatingIP>, p1: array?<PolicyPortForward>,
                          l2: array?<PolicyLease>, f2: array?<PolicyFloatingIP>, p2: array?<PolicyPortForward>)
    modifies l1, f1, p1, l2, f2, p2
    ensures IsSortOf(LEASE_KEY, old(Items(l1)), Items(l1)) && IsSortOf(LEASE_KEY, old(Items(l2)), Items(l2))
    ensures IsSortOf(FLOATING_IP_KEY, old(Items(f1)), Items(f1)) && IsSortOf(FLOATING_IP_KEY, old(Items(f2)), Items(f2))
    ensures IsSortOf(PORT_FORWARD_KEY, old(Items(p1)), Items(p1)) && IsSortOf(PORT_FORWARD_KEY, old(Items(p2)), Items(p2))
  {
    hide IsSortOf;
    ghost var x, y := Items(l1), Items(l2);
    ghost var f, g := Items(f1), Items(f2);
    ghost var p, q := Items(p1), Items(p2);
    SortSlices(l1, f1, p1);
    ghost var x1, y1 := Items(l1), Items(l2);
    ghost var f', g' := Items(f1), Items(f2);
    ghost var p', q' := Items(p1), Items(p2);
    SortSlices(l2, f2, p2);
    SortedTwice(LEASE_KEY, x, x1, Items(l1), y, y1, Items(l2), l1 == l2);
    SortedTwice(FLOATING_IP_KEY, f, f', Items(f1), g, g', Items(f2), f1 == f2);
    SortedTwice(PORT_FORWARD_KEY, p, p', Items(p1), q, q', Items(p2), p1 == p2);
  }

  /** One list of each document, sorted in turn; `shared` says they are one slice. */
  lemma SortedTwice<T>(key: T -> SortKey, x: seq<T>, x1: seq<T>, x2: seq<T>, y: seq<T>, y1: seq<T>, y2: seq<T>, shared: bool)
    requires IsSortOf(key, x, x1) && IsSortOf(key, y1, y2)
    requires if shared then x == y && y1 == x1 && x2 == y2 else y1 == y && x2 == x1
    ensures IsSortOf(key, x, x2) && IsSortOf(key, y, y2)
    ensures |x2| == |x| && |y2| == |y|
  {
    assert |multiset(x2)| == |multiset(x)| && |multiset(y2)| == |multiset(y)|;
  }

  lemma PartsSorted(before: Doc, after: Doc)
    requires after == before.(leases := after.leases, floatingIPs := after.floatingIPs, portForwards := after.portForwards)
    requires IsSortOf(LEASE_KEY, before.leases, after.leases)
    requires IsSortOf(FLOATING_IP_KEY, before.floatingIPs, after.floatingIPs)
    requires IsSortOf(PORT_FORWARD_KEY, before.portForwards, after.portForwards)
    ensures SortedCopy(before, after)
  {
  }

  lemma EqualMeansDesired(x: Doc, y: Doc, x': Doc, y': Doc)
    requires SortedCopy(x.(generation := 0), x') && SortedCopy(y.(generation := 0), y')
    ensures x' == y' ==> Desired(x) == Desired(y)
    ensures Desired(x) == Desired(y) && KeysDetermine(x) ==> x' == y'
  {
    hide IsSortOf, TiesEqual;
    if Desired(x) == Desired(y) && KeysDetermine(x) {
      SortedCopiesAgree(x.(generation := 0), y.(generation := 0), x', y');
    }
    if x' == y' {
      SortedCopyIsReordered(x.(generation := 0), x');
      SortedCopyIsReordered(y.(generation := 0), y');
    }
  }

  /** One comparison: both documents come back sorted, and the answer compares them so. */
  ghost predicate Compared(x: Doc, y: Doc, x': Doc, y': Doc, eq: bool) {
    SortedCopy(x, x') && SortedCopy(y, y') && (eq <==> x'.(generation := 0) == y'.(generation := 0))
  }

  lemma ComparedExactly(x: Doc, y: Doc, x': Doc, y': Doc, eq: bool)
    requires Compared(x, y, x', y', eq) && (KeysDetermine(x) || KeysDetermine(y))
    ensures eq <==> Desired(x) == Desired(y)
    ensures Desired(x') == Desired(x) && Desired(y') == Desired(y)
    ensures KeysDetermine(x) ==> KeysDetermine(x')
    ensures KeysDetermine(y) ==> KeysDetermine(y')
  {
    SortedCopyIsReordered(x, x');
    SortedCopyIsReordered(y, y');
    DeterminedTogether(x, x');
    DeterminedTogether(y, y');
    if Desired(x) == Desired(y) {
      DeterminedTogether(x, y);
      DeterminedTogether(y, x);
      SortedCopiesAgree(x, y, x', y');
    }
    assert Desired(x'.(generation := 0)) == Desired(x') && Desired(y'.(generation := 0)) == Desired(y');
    hide SortedCopy, KeysDetermine, Desired;
  }

  lemma DeterminedTogether(x: Doc, y: Doc)
    requires Desired(x) == Desired(y)
    ensures KeysDetermine(x) ==> KeysDetermine(y)
  {
    DesiredFields(x, y);
    hide Desired, TiesEqual;
    if KeysDetermine(x) {
      TiesOfPermutation(LEASE_KEY, x.leases, y.leases);
      TiesOfPermutation(FLOATING_IP_KEY, x.floatingIPs, y.floatingIPs);
      TiesOfPermutation(PORT_FORWARD_KEY, x.portForwards, y.portForwards);
    }
  }

  /**
   * When keys determine entries the comparison is an equivalence, and asking again
   * about the documents it has sorted, in either order, gives the same answer.
   */
  lemma ComparisonIsEquivalence(x: Doc, y: Doc, z: Doc, x1: Doc, y1: Doc, xy: bool, y2: Doc, z2: Doc, yz: bool,
                                x3: Doc, z3: Doc, xz: bool, x4: Doc, x5: Doc, xx: bool, y6: Doc, x6: Doc, again: bool)
    requires KeysDetermine(x) && KeysDetermine(y)
    requires Compared(x, y, x1, y1, xy) && Compared(y, z, y2, z2, yz) && Compared(x, z, x3, z3, xz)
    requires Compared(x, x, x4, x5, xx)
    requires Compared(y1, x1, y6, x6, again) || Compared(x1, y1, x6, y6, again)
    ensures xx && (xy && yz ==> xz) && (again <==> xy)
  {
    hide Compared, KeysDetermine, Desired;
    ComparedExactly(x, y, x1, y1, xy);
    ComparedExactly(y, z, y2, z2, yz);
    ComparedExactly(x, z, x3, z3, xz);
    ComparedExactly(x, x, x4, x5, xx);
    if Compared(x1, y1, x6, y6, again) {
      ComparedExactly(x1, y1, x6, y6, again);
    } else {
      ComparedExactly(y1, x1, y6, x6, again);
    }
  }

  // ---------------------------------------------------------------- the text

  /** What a JSON object may hold: any list may be missing or null. */
  datatype Wire = Wire(
    apiVersion: string, kind: string, name: string, namespace: string, generation: int,
    interfaces: Option<seq<PolicyInterface>>, external: Option<PolicyExternal>,
    leases: Option<seq<PolicyLease>>, floatingIPs: Option<seq<PolicyFloatingIP>>,
    portForwards: Option<seq<PolicyPortForward>>)

  datatype PolicyText = Blank | Malformed | Json(wire: Wire)

  function WireOf(d: Doc): Wire {
    Wire(d.apiVersion, d.kind, d.name, d.namespace, d.generation, Some(d.interfaces), d.external,
         Some(d.leases), Some(d.floatingIPs), Some(d.portForwards))
  }

  function OrEmpty<T>(list: Option<seq<T>>): seq<T> {
    match list case Some(s) => s case None => []
  }

  /** What a stored text means: missing version, kind and lists are filled in. */
  function ParsedDoc(text: PolicyText): Option<Doc> {
    match text
    case Blank => None
    case Malformed => None
    case Json(w) =>
      Some(Doc(if w.apiVersion == "" then POLICY_API_VERSION else w.apiVersion,
               if w.kind == "" then POLICY_KIND else w.kind,
               w.name, w.namespace, w.generation, OrEmpty(w.interfaces), w.external,
               OrEmpty(w.leases), OrEmpty(w.floatingIPs), OrEmpty(w.portForwards)))
  }

  /** Parsing returns what was marshalled. */
  lemma ParseMarshal(d: Doc)
    requires d.apiVersion != "" && d.kind != ""
    ensures ParsedDoc(Json(WireOf(d))) == Some(d)
  {
  }

  /** `MarshalPolicyDoc`: normalises and sorts the caller's document, then writes it out. */
  method MarshalPolicyDoc(doc: PolicyDoc?) returns (text: Option<PolicyText>)
    modifies if doc == null then {} else {doc as object?} + doc.Lists()
    ensures doc == null ==> text == None
    ensures doc != null ==> SortedCopy(old(doc.View()), doc.View()) && text == Some(Json(WireOf(doc.View())))
  {
    if doc == null {
      return None;
    }
    NormalizePolicySlices(doc);
    SortPolicyLists(doc);
    return Some(Json(WireOf(doc.View())));
  }

  /** `ParsePolicyDoc`: nil without an error for blank text. */
  method ParsePolicyDoc(text: PolicyText) returns (doc: PolicyDoc?, ok: bool)
    ensures ok <==> !text.Malformed?
    ensures doc == null <==> ParsedDoc(text) == None
    ensures doc != null ==> fresh(doc) && fresh(doc.Lists()) && Some(doc.View()) == ParsedDoc(text)
  {
    match text
    case Blank => return null, true;
    case Malformed => return null, false;
    case Json(w) =>
      doc := new PolicyDoc(ParsedDoc(text).value);
      ok := true;
  }
}
