// List order under one fixed sort. `sort.Slice` is deterministic: what it does with
// ties is fixed by the keys of its input. So an order that shows must come from the
// lists themselves, which the API server returns in any order.
module PolicyOrder {
  import opened Text
  import opened SliceSort
  import opened PolicyDocs
  import opened PolicyRender

  // ---------------------------------------------------------------- documents under one sort

  /** The document with its three lists sorted by one fixed sort. */
  ghost function SortedBy(rank: Ranking, d: Doc): Doc
    requires IsComparisonSort(rank)
  {
    d.(leases := SortBy(rank, LEASE_KEY, d.leases), floatingIPs := SortBy(rank, FLOATING_IP_KEY, d.floatingIPs),
       portForwards := SortBy(rank, PORT_FORWARD_KEY, d.portForwards))
  }

  lemma SortedByIsCopy(rank: Ranking, d: Doc)
    requires IsComparisonSort(rank)
    ensures SortedCopy(d, SortedBy(rank, d))
  {
    SortByIsSort(rank, LEASE_KEY, d.leases);
    SortByIsSort(rank, FLOATING_IP_KEY, d.floatingIPs);
    SortByIsSort(rank, PORT_FORWARD_KEY, d.portForwards);
    hide IsComparisonSort, IsSortOf;
  }

  /** Documents that differ at most in which of some tied entries stands where. */
  predicate DocTwins(u: Doc, v: Doc) {
    && v == u.(leases := v.leases, floatingIPs := v.floatingIPs, portForwards := v.portForwards)
    && Twins(LEASE_KEY, u.leases, v.leases)
    && Twins(FLOATING_IP_KEY, u.floatingIPs, v.floatingIPs)
    && Twins(PORT_FORWARD_KEY, u.portForwards, v.portForwards)
  }

  /** A fixed sort treats twins alike and keeps them apart. */
  lemma SortedByTwins(rank: Ranking, u: Doc, v: Doc)
    requires IsComparisonSort(rank) && DocTwins(u, v)
    ensures DocTwins(SortedBy(rank, u), SortedBy(rank, v))
    ensures u != v ==> SortedBy(rank, u) != SortedBy(rank, v)
  {
    SortByTwins(rank, LEASE_KEY, u.leases, v.leases);
    SortByTwins(rank, FLOATING_IP_KEY, u.floatingIPs, v.floatingIPs);
    SortByTwins(rank, PORT_FORWARD_KEY, u.portForwards, v.portForwards);
    hide IsComparisonSort, Twins;
  }

  // ---------------------------------------------------------------- exchanging two inputs

  /** The item an entry was projected from. */
  lemma {:induction false} ProjectedSource<T, U>(items: seq<T>, project: T -> Option<U>, i: nat) returns (a: nat)
    requires i < |Projected(items, project)|
    ensures a < |items| && project(items[a]) == Some(Projected(items, project)[i])
    ensures |Projected(items[..a], project)| == i
    decreases |items|
  {
    var n := |items| - 1;
    var front := Projected(items[..n], project);
    if i < |front| {
      a := ProjectedSource(items[..n], project, i);
      assert items[..n][..a] == items[..a] && items[..n][a] == items[a];
    } else {
      a := n;
    }
  }

  lemma SourcesInOrder<T, U>(items: seq<T>, project: T -> Option<U>, a: nat, b: nat)
    requires a < |items| && b < |items|
    requires |Projected(items[..a], project)| < |Projected(items[..b], project)|
    ensures a < b
  {
    if b <= a {
      assert items[..a] == items[..b] + items[b..a];
      ProjectedConcat(items[..b], items[b..a], project);
    }
  }

  lemma ProjectedFive<T, U>(p: seq<T>, x: T, q: seq<T>, y: T, r: seq<T>, project: T -> Option<U>)
    ensures Projected(p + [x] + q + [y] + r, project)
         == Projected(p, project) + One(project(x)) + Projected(q, project) + One(project(y)) + Projected(r, project)
  {
    ProjectedConcat(p + [x] + q + [y], r, project);
    ProjectedConcat(p + [x] + q, [y], project);
    ProjectedConcat(p + [x], q, project);
    ProjectedConcat(p, [x], project);
    assert Projected([x], project) == One(project(x)) by { assert [x][..0] == []; }
    assert Projected([y], project) == One(project(y)) by { assert [y][..0] == []; }
    hide Projected, One;
  }

  lemma SplitAtTwo<T>(s: seq<T>, a: nat, b: nat)
    requires a < b < |s|
    ensures s == s[..a] + [s[a]] + s[a + 1..b] + [s[b]] + s[b + 1..]
    ensures s[a := s[b]][b := s[a]] == s[..a] + [s[b]] + s[a + 1..b] + [s[a]] + s[b + 1..]
  {
  }

  lemma SwapParts<U>(p: seq<U>, x: U, q: seq<U>, y: U, r: seq<U>, i: nat, j: nat)
    requires i == |p| && j == |p| + 1 + |q|
    ensures var s := p + [x] + q + [y] + r;
            s[i] == x && s[j] == y && s[i := y][j := x] == p + [y] + q + [x] + r
  {
  }

  /** Two entries change places when the items they come from do. */
  lemma ProjectedSwap<T, U>(items: seq<T>, project: T -> Option<U>, i: nat, j: nat) returns (swapped: seq<T>)
    requires i < j < |Projected(items, project)|
    ensures multiset(swapped) == multiset(items)
    ensures var s := Projected(items, project); Projected(swapped, project) == s[i := s[j]][j := s[i]]
  {
    var s := Projected(items, project);
    var a := ProjectedSource(items, project, i);
    var b := ProjectedSource(items, project, j);
    SourcesInOrder(items, project, a, b);
    swapped := items[a := items[b]][b := items[a]];
    SwapKeepsMultiset(items, a, b);
    var p, q, r := items[..a], items[a + 1..b], items[b + 1..];
    SplitAtTwo(items, a, b);
    ProjectedFive(p, items[a], q, items[b], r, project);
    ProjectedFive(p, items[b], q, items[a], r, project);
    BetweenSources(items, project, a, b);
    hide Projected;
    SwapParts(Projected(p, project), s[i], Projected(q, project), s[j], Projected(r, project), i, j);
  }

  lemma BetweenSources<T, U>(items: seq<T>, project: T -> Option<U>, a: nat, b: nat)
    requires a < b < |items| && project(items[a]).Some?
    ensures |Projected(items[..b], project)| == |Projected(items[..a], project)| + 1 + |Projected(items[a + 1..b], project)|
  {
    assert items[..b] == items[..a] + [items[a]] + items[a + 1..b];
    ProjectedConcat(items[..a] + [items[a]], items[a + 1..b], project);
    ProjectedConcat(items[..a], [items[a]], project);
    assert [items[a]][..0] == [];
    assert Projected([items[a]], project) == One(project(items[a]));
  }

  /** Projecting twice is projecting once. */
  function Compose<T, U, V>(f: T -> Option<U>, g: U -> Option<V>): T -> Option<V> {
    (t: T) => match f(t) case None => None case Some(u) => g(u)
  }

  lemma {:induction false} ProjectedTwice<T, U, V>(items: seq<T>, f: T -> Option<U>, g: U -> Option<V>)
    ensures Projected(Projected(items, f), g) == Projected(items, Compose(f, g))
    decreases |items|
  {
    if items != [] {
      var front, last := items[..|items| - 1], items[|items| - 1];
      ProjectedTwice(front, f, g);
      ProjectedConcat(Projected(front, f), One(f(last)), g);
      if f(last).Some? {
        assert [f(last).value][..0] == [];
        assert Projected(One(f(last)), g) == One(g(f(last).value));
      }
    }
  }

  // ---------------------------------------------------------------- twin inputs

  lemma TwinLeases(x: Inputs) returns (y: Inputs)
    requires !TiesEqual(LEASE_KEY, LeasesOf(x))
    ensures SameContents(x, y) && y == x.(addresses := y.addresses)
    ensures Twins(LEASE_KEY, LeasesOf(x), LeasesOf(y)) && LeasesOf(x) != LeasesOf(y)
  {
    var i, j := TiedPair(LEASE_KEY, LeasesOf(x));
    SwappedIsTwin(LEASE_KEY, LeasesOf(x), i, j);
    hide ProjectLease, Twins, Projected, TiesEqual;
    var attached := x.Attached();
    var swapped := ProjectedSwap(x.addresses, (ip: IPAddressItem) => ProjectLease(ip, attached), i, j);
    y := x.(addresses := swapped);
    assert y.Attached() == x.Attached();
    assert LeasesOf(y)[i] == LeasesOf(x)[j];
  }

  lemma TwinFloatingIPs(x: Inputs) returns (y: Inputs)
    requires !TiesEqual(FLOATING_IP_KEY, FloatingIPsOf(x))
    ensures SameContents(x, y) && y == x.(floatingIPs := y.floatingIPs)
    ensures Twins(FLOATING_IP_KEY, FloatingIPsOf(x), FloatingIPsOf(y)) && FloatingIPsOf(x) != FloatingIPsOf(y)
    ensures ForwardsOf(x) == ForwardsOf(y)
  {
    var i, j := TiedPair(FLOATING_IP_KEY, FloatingIPsOf(x));
    SwappedIsTwin(FLOATING_IP_KEY, FloatingIPsOf(x), i, j);
    hide ProjectFloatingIP, Twins, Projected, TiesEqual;
    var attached := x.Attached();
    var swapped := ProjectedSwap(x.floatingIPs, (f: FloatingIPItem) => ProjectFloatingIP(f, x.router, attached), i, j);
    y := x.(floatingIPs := swapped);
    assert y.Attached() == x.Attached();
    assert FloatingIPsOf(y)[i] == FloatingIPsOf(x)[j];
    SwapKeepsMultiset(FloatingIPsOf(x), i, j);
    SameAssociated(FloatingIPsOf(x), FloatingIPsOf(y));
  }

  lemma TwinForwards(x: Inputs) returns (y: Inputs)
    requires !TiesEqual(PORT_FORWARD_KEY, ForwardsOf(x))
    ensures SameContents(x, y) && y == x.(portForwards := y.portForwards)
    ensures Twins(PORT_FORWARD_KEY, ForwardsOf(x), ForwardsOf(y)) && ForwardsOf(x) != ForwardsOf(y)
  {
    var i, j := TiedPair(PORT_FORWARD_KEY, ForwardsOf(x));
    SwappedIsTwin(PORT_FORWARD_KEY, ForwardsOf(x), i, j);
    hide ProjectPortForward, ProjectFloatingIP, Twins, Projected, TiesEqual, AssociatedPublic;
    var attached, associated := x.Attached(), AssociatedPublic(FloatingIPsOf(x));
    var f := (p: PortForwardItem) => ProjectPortForward(p, x.router, attached);
    var g := (p: PolicyPortForward) => if p.public in associated then None else Some(p);
    ProjectedTwice(x.portForwards, f, g);
    var swapped := ProjectedSwap(x.portForwards, Compose(f, g), i, j);
    ProjectedTwice(swapped, f, g);
    y := x.(portForwards := swapped);
    assert y.Attached() == x.Attached() && FloatingIPsOf(y) == FloatingIPsOf(x);
    assert ForwardsOf(y)[i] == ForwardsOf(x)[j];
  }

  lemma SameTwins<T>(key: T -> SortKey, s: seq<T>)
    ensures Twins(key, s, s)
  {
  }

  /** When two entries tie and differ, some other list order makes a twin of the projections. */
  lemma TwinLists(x: Inputs) returns (y: Inputs)
    requires !TiesEqual(LEASE_KEY, LeasesOf(x)) || !TiesEqual(FLOATING_IP_KEY, FloatingIPsOf(x)) || !TiesEqual(PORT_FORWARD_KEY, ForwardsOf(x))
    ensures SameContents(x, y)
    ensures Twins(LEASE_KEY, LeasesOf(x), LeasesOf(y)) && Twins(FLOATING_IP_KEY, FloatingIPsOf(x), FloatingIPsOf(y))
    ensures Twins(PORT_FORWARD_KEY, ForwardsOf(x), ForwardsOf(y))
    ensures LeasesOf(x) != LeasesOf(y) || FloatingIPsOf(x) != FloatingIPsOf(y) || ForwardsOf(x) != ForwardsOf(y)
  {
    SameTwins(LEASE_KEY, LeasesOf(x));
    SameTwins(FLOATING_IP_KEY, FloatingIPsOf(x));
    SameTwins(PORT_FORWARD_KEY, ForwardsOf(x));
    hide Twins, TiesEqual, ProjectLease, ProjectFloatingIP, ProjectPortForward, Projected, KeptForwards, AssociatedPublic;
    if !TiesEqual(LEASE_KEY, LeasesOf(x)) {
      y := TwinLeases(x);
    } else if !TiesEqual(FLOATING_IP_KEY, FloatingIPsOf(x)) {
      y := TwinFloatingIPs(x);
    } else {
      y := TwinForwards(x);
    }
    assert y.Attached() == x.Attached();
  }

  /** So of the whole rendering, before it is sorted. */
  lemma TwinInputs(x: Inputs) returns (y: Inputs)
    requires !KeysDetermine(Unsorted(x, 1))
    ensures SameContents(x, y)
    ensures forall g: int :: DocTwins(Unsorted(x, g), Unsorted(y, g)) && Unsorted(x, g) != Unsorted(y, g)
  {
    hide Twins, TiesEqual, LeasesOf, FloatingIPsOf, ForwardsOf;
    y := TwinLists(x);
  }

  /**
   * For every fixed sort: the rendered document is the same for every list order
   * exactly when sort keys determine the projected entries.
   */
  lemma RenderDeterminedExactly(rank: Ranking, x: Inputs, prevGen: int)
    requires IsComparisonSort(rank)
    ensures (forall y :: SameContents(x, y) ==> SortedBy(rank, Unsorted(y, prevGen)) == SortedBy(rank, Unsorted(x, prevGen)))
       <==> KeysDetermine(Unsorted(x, prevGen))
  {
    hide SameContents, IsComparisonSort, SortedCopy;
    if KeysDetermine(Unsorted(x, prevGen)) {
      forall y | SameContents(x, y) ensures SortedBy(rank, Unsorted(y, prevGen)) == SortedBy(rank, Unsorted(x, prevGen)) {
        SortedByIsCopy(rank, Unsorted(x, prevGen));
        SortedByIsCopy(rank, Unsorted(y, prevGen));
        hide SortedBy, Unsorted;
        RenderIgnoresListOrder(x, y, prevGen, SortedBy(rank, Unsorted(x, prevGen)), SortedBy(rank, Unsorted(y, prevGen)));
      }
    } else {
      assert !KeysDetermine(Unsorted(x, 1));
      hide SortedBy, Unsorted, KeysDetermine;
      var y := TwinInputs(x);
      SortedByTwins(rank, Unsorted(x, prevGen), Unsorted(y, prevGen));
    }
  }

  // ---------------------------------------------------------------- a tie

  /** A forward of one public address, protocol and port to some private address. */
  function ForwardTo(private: string): PortForwardItem {
    PortForwardItem("a", None, "192.0.2.1", 80, private, 8080, "TCP", None)
  }

  /** A router attached to VPC "a", with two such forwards. */
  function TiedInputs(interfaces: seq<ResolvedInterface>): Inputs {
    Inputs("r", "n", interfaces, None, [], [], [ForwardTo("10.0.0.2"), ForwardTo("10.0.0.3")])
  }

  lemma OneForward(x: Inputs, private: string)
    requires "a" in x.Attached() && Trimmed(private, GoSpace)
    ensures ProjectPortForward(ForwardTo(private), x.router, x.Attached()).Some?
    ensures var f := ProjectPortForward(ForwardTo(private), x.router, x.Attached()).value;
            f.private == private && f.id == PortForwardId(TrimSpace("192.0.2.1"), ToUpper(TrimSpace("TCP")), 80)
  {
    TrimOfTrimmed("a", GoSpace);
    TrimOfTrimmed(private, GoSpace);
    hide TrimSpace, ToUpper, PortForwardId;
  }

  lemma TwoProjected<T, U>(items: seq<T>, project: T -> Option<U>)
    requires |items| == 2 && project(items[0]).Some? && project(items[1]).Some?
    ensures Projected(items, project) == [project(items[0]).value, project(items[1]).value]
  {
    assert items[..1][..0] == [];
    assert Projected(items[..1][..0], project) == [];
    assert Projected(items[..1], project) == [project(items[0]).value];
  }

  lemma NoFloatingIPs(x: Inputs)
    requires x.floatingIPs == []
    ensures FloatingIPsOf(x) == [] && AssociatedPublic(FloatingIPsOf(x)) == {}
  {
  }

  /** Two port forwards of one address, protocol and port tie. */
  lemma TwoForwardsTie(interfaces: seq<ResolvedInterface>)
    requires exists i :: 0 <= i < |interfaces| && interfaces[i].vpc == "a"
    ensures !KeysDetermine(Unsorted(TiedInputs(interfaces), 1))
  {
    hide ProjectPortForward, ToUpper, TrimSpace, PortForwardId, Projected, FloatingIPsOf, AssociatedPublic, KeptForwards, KeysDetermine, Unsorted, ForwardsOf;
    var x := TiedInputs(interfaces);
    var f0, f1 := TiedEntries(interfaces);
    TiedForwardsOf(x, f0, f1);
    UnsortedForwards(x);
    TiedForwards(Unsorted(x, 1), ForwardsOf(x));
  }

  lemma UnsortedForwards(x: Inputs)
    ensures Unsorted(x, 1).portForwards == ForwardsOf(x)
  {
    hide ForwardsOf, FloatingIPsOf, LeasesOf;
  }

  lemma TiedEntries(interfaces: seq<ResolvedInterface>) returns (f0: PolicyPortForward, f1: PolicyPortForward)
    requires exists i :: 0 <= i < |interfaces| && interfaces[i].vpc == "a"
    ensures var x := TiedInputs(interfaces);
            && ProjectPortForward(x.portForwards[0], x.router, x.Attached()) == Some(f0)
            && ProjectPortForward(x.portForwards[1], x.router, x.Attached()) == Some(f1)
    ensures f0 != f1 && f0.id == f1.id
  {
    hide ProjectPortForward, ToUpper, TrimSpace, PortForwardId;
    var x := TiedInputs(interfaces);
    assert "a" in x.Attached();
    PrivatesDiffer();
    OneForward(x, "10.0.0.2");
    OneForward(x, "10.0.0.3");
    f0 := ProjectPortForward(ForwardTo("10.0.0.2"), x.router, x.Attached()).value;
    f1 := ProjectPortForward(ForwardTo("10.0.0.3"), x.router, x.Attached()).value;
  }

  lemma PrivatesDiffer()
    ensures "10.0.0.2" != "10.0.0.3" && Trimmed("10.0.0.2", GoSpace) && Trimmed("10.0.0.3", GoSpace)
  {
    assert "10.0.0.2"[7] != "10.0.0.3"[7];
  }

  lemma TiedForwardsOf(x: Inputs, f0: PolicyPortForward, f1: PolicyPortForward)
    requires |x.portForwards| == 2 && x.floatingIPs == []
    requires ProjectPortForward(x.portForwards[0], x.router, x.Attached()) == Some(f0)
    requires ProjectPortForward(x.portForwards[1], x.router, x.Attached()) == Some(f1)
    ensures ForwardsOf(x) == [f0, f1]
  {
    NoFloatingIPs(x);
    hide ProjectPortForward, Projected, FloatingIPsOf, AssociatedPublic;
    var attached := x.Attached();
    TwoProjected(x.portForwards, (p: PortForwardItem) => ProjectPortForward(p, x.router, attached));
    NoneAssociated(PortForwardsOf(x));
    hide KeptForwards;
  }

  lemma TiedForwards(d: Doc, fs: seq<PolicyPortForward>)
    requires d.portForwards == fs && |fs| == 2 && fs[0] != fs[1] && fs[0].id == fs[1].id
    ensures !KeysDetermine(d)
  {
    assert PORT_FORWARD_KEY(fs[0]) == PORT_FORWARD_KEY(fs[1]);
  }

  lemma NoneAssociated(s: seq<PolicyPortForward>)
    ensures KeptForwards(s, {}) == s
  {
    if s != [] {
      NoneAssociated(s[..|s| - 1]);
      assert s == s[..|s| - 1] + [s[|s| - 1]];
    }
  }
}
