// Day-2 network attachment of the router appliance: rewriting a VM's network and
// interface lists for hot-plug and hot-unplug.
//
// List items are unstructured objects, so they are modelled as field maps and keep
// every field the sync does not touch. Reading the lists yields copies.
module NicSync {
  import opened Text

  // ---------------------------------------------------------------- unstructured items

  datatype Value = Str(s: string) | Multus(networkName: string) | Tree

  type Object = map<string, Value>

  /** List items that are not objects are skipped by the source. */
  datatype Item = Fields(o: Object) | Scalar

  /** `m["name"].(string)`: empty when missing or not a string. */
  function NameOf(o: Object): string {
    if "name" in o && o["name"].Str? then o["name"].s else ""
  }

  // ---------------------------------------------------------------- desired attachments

  datatype Nic = Nic(vpc: string, mac: string, gateway: string, prefix: nat)
  datatype External = External(multusNetwork: string, mac: string, primaryCidr: string)

  datatype Desired = Desired(ifaces: seq<Nic>, external: Option<External>)

  function NoDashes(s: string): string {
    if s == "" then "" else (if s[0] == '-' then "" else [s[0]]) + NoDashes(s[1..])
  }

  /** `multusIfaceName`: lower case, dashes stripped, cut to 20, prefixed. */
  function MultusIfaceName(vpc: string): (name: string)
    ensures name != "" && name[0] == 'm'
  {
    var s := NoDashes(ToLower(TrimSpace(vpc)));
    var cut := if |s| > 20 then s[..20] else s;
    "m" + (if cut == "" then "vpc" else cut)
  }

  const EXTERNAL := "external"

  /** Interface name to Multus network; a later attachment overwrites an equal name. */
  function NetsOf(ifaces: seq<Nic>): map<string, string> {
    if ifaces == [] then map[]
    else NetsOf(ifaces[..|ifaces| - 1])[MultusIfaceName(ifaces[|ifaces| - 1].vpc) := ifaces[|ifaces| - 1].vpc]
  }

  function MacsOf(ifaces: seq<Nic>): map<string, string> {
    if ifaces == [] then map[]
    else MacsOf(ifaces[..|ifaces| - 1])[MultusIfaceName(ifaces[|ifaces| - 1].vpc) := ifaces[|ifaces| - 1].mac]
  }

  function DesiredNets(d: Desired): map<string, string> {
    match d.external
    case None => NetsOf(d.ifaces)
    case Some(e) => NetsOf(d.ifaces)[EXTERNAL := e.multusNetwork]
  }

  function DesiredMacs(d: Desired): map<string, string> {
    match d.external
    case None => MacsOf(d.ifaces)
    case Some(e) => MacsOf(d.ifaces)[EXTERNAL := e.mac]
  }

  lemma IfaceKeys(ifaces: seq<Nic>)
    ensures NetsOf(ifaces).Keys == MacsOf(ifaces).Keys
    ensures forall n :: n in NetsOf(ifaces) <==> exists i :: 0 <= i < |ifaces| && n == MultusIfaceName(ifaces[i].vpc)
    ensures forall n :: n in NetsOf(ifaces) ==> n != EXTERNAL && n != "pod" && n != ""
  {
    SameKeys(ifaces);
    forall n ensures n in NetsOf(ifaces) <==> exists i :: 0 <= i < |ifaces| && n == MultusIfaceName(ifaces[i].vpc) {
      IfaceKey(ifaces, n);
    }
    forall n | n in NetsOf(ifaces) ensures n != EXTERNAL && n != "pod" && n != "" {
      var i :| 0 <= i < |ifaces| && n == MultusIfaceName(ifaces[i].vpc);
      NameShape(ifaces[i].vpc);
    }
  }

  lemma {:induction false} SameKeys(ifaces: seq<Nic>)
    ensures NetsOf(ifaces).Keys == MacsOf(ifaces).Keys
  {
    hide MultusIfaceName;
    if ifaces != [] {
      SameKeys(ifaces[..|ifaces| - 1]);
    }
  }

  lemma {:induction false} IfaceKey(ifaces: seq<Nic>, n: string)
    ensures n in NetsOf(ifaces) <==> exists i :: 0 <= i < |ifaces| && n == MultusIfaceName(ifaces[i].vpc)
  {
    hide MultusIfaceName;
    if ifaces != [] {
      var k := |ifaces| - 1;
      IfaceKey(ifaces[..k], n);
      assert forall i :: 0 <= i < k ==> ifaces[..k][i] == ifaces[i];
    }
  }

  lemma NameShape(vpc: string)
    ensures MultusIfaceName(vpc) != EXTERNAL && MultusIfaceName(vpc) != "pod" && MultusIfaceName(vpc) != ""
  {
    assert EXTERNAL[0] == 'e' && "pod"[0] == 'p';
    hide NoDashes, ToLower, TrimSpace;
  }

  lemma DesiredKeys(d: Desired)
    ensures DesiredNets(d).Keys == DesiredMacs(d).Keys
    ensures "pod" !in DesiredNets(d)
  {
    IfaceKeys(d.ifaces);
    hide NetsOf, MacsOf;
  }

  // ---------------------------------------------------------------- indexes

  /** Multus networks by name, the pod network aside; the last of equal names wins. */
  function NetIndex(items: seq<Item>): map<string, Object> {
    if items == [] then map[]
    else
      var front, last := NetIndex(items[..|items| - 1]), items[|items| - 1];
      if last.Scalar? || "pod" in last.o then front else front[NameOf(last.o) := last.o]
  }

  function PodNet(items: seq<Item>): Option<Object> {
    if items == [] then None
    else
      var last := items[|items| - 1];
      if last.Fields? && "pod" in last.o then Some(last.o) else PodNet(items[..|items| - 1])
  }

  function IfaceIndex(items: seq<Item>): map<string, Object> {
    if items == [] then map[]
    else
      var front, last := IfaceIndex(items[..|items| - 1]), items[|items| - 1];
      if last.Scalar? || NameOf(last.o) == "pod" then front else front[NameOf(last.o) := last.o]
  }

  function PodIface(items: seq<Item>): Option<Object> {
    if items == [] then None
    else
      var last := items[|items| - 1];
      if last.Fields? && NameOf(last.o) == "pod" then Some(last.o) else PodIface(items[..|items| - 1])
  }

  // ---------------------------------------------------------------- sorted names

  ghost predicate Ascending(s: seq<string>) {
    forall i, j :: 0 <= i < j < |s| ==> StrLess(s[i], s[j])
  }

  ghost predicate Lists(s: seq<string>, keys: set<string>) {
    Ascending(s) && forall k :: k in s <==> k in keys
  }

  lemma {:induction false} ListingUnique(s: seq<string>, t: seq<string>, keys: set<string>)
    requires Lists(s, keys) && Lists(t, keys)
    ensures s == t
    decreases |s|
  {
    if s == [] {
      HeadIn(t);
    } else {
      assert s[0] in t;
      assert t[0] in s;
      var i :| 0 <= i < |t| && t[i] == s[0];
      var j :| 0 <= j < |s| && s[j] == t[0];
      FirstsMeet(s, t, i, j);
      ListingTail(s, keys);
      ListingTail(t, keys);
      ListingUnique(s[1..], t[1..], keys - {s[0]});
      assert s == [s[0]] + s[1..] && t == [t[0]] + t[1..];
    }
  }

  lemma FirstsMeet(s: seq<string>, t: seq<string>, i: nat, j: nat)
    requires s != [] && t != [] && i < |t| && j < |s|
    requires Ascending(s) && Ascending(t) && t[i] == s[0] && s[j] == t[0]
    ensures s[0] == t[0]
  {
    StrLessTotal(s[0], t[0]);
    hide StrLess;
  }

  lemma HeadIn(t: seq<string>)
    ensures t != [] ==> t[0] in t
  {
  }

  lemma ListingTail(s: seq<string>, keys: set<string>)
    requires Lists(s, keys) && s != []
    ensures Lists(s[1..], keys - {s[0]})
  {
    forall k ensures k in s[1..] <==> k in keys - {s[0]} {
      if k in s[1..] {
        var i :| 0 <= i < |s[1..]| && s[1..][i] == k;
        StrLessTotal(k, k);
        assert StrLess(s[0], s[i + 1]);
        assert k in s;
      }
      if k in keys - {s[0]} {
        assert k in s;
        var i :| 0 <= i < |s| && s[i] == k;
        assert s[1..][i - 1] == k;
      }
    }
  }

  function InsertName(k: string, s: seq<string>): seq<string> {
    if s == [] || StrLess(k, s[0]) then [k] + s else [s[0]] + InsertName(k, s[1..])
  }

  lemma {:induction false} InsertLists(k: string, s: seq<string>, keys: set<string>)
    requires Lists(s, keys) && k !in keys
    ensures Lists(InsertName(k, s), keys + {k})
  {
    if s == [] {
    } else if StrLess(k, s[0]) {
      forall j | 0 <= j < |s| ensures StrLess(k, s[j]) {
        if j > 0 { StrLessTransitive(k, s[0], s[j]); }
      }
      hide StrLess;
      assert Ascending([k] + s);
    } else {
      assert s[0] in s;
      StrLessTotal(k, s[0]);
      ListingTail(s, keys);
      InsertLists(k, s[1..], keys - {s[0]});
      hide StrLess, InsertName;
      PrependLeast(s[0], InsertName(k, s[1..]), s, k, keys);
      assert InsertName(k, s) == [s[0]] + InsertName(k, s[1..]) by { InsertLater(k, s); }
    }
  }

  lemma InsertLater(k: string, s: seq<string>)
    requires s != [] && !StrLess(k, s[0])
    ensures InsertName(k, s) == [s[0]] + InsertName(k, s[1..])
  {
  }

  lemma PrependLeast(x: string, r: seq<string>, s: seq<string>, k: string, keys: set<string>)
    requires s != [] && x == s[0] && StrLess(x, k) && Lists(s, keys) && Lists(r, keys - {x} + {k})
    ensures Lists([x] + r, keys + {k})
  {
    hide StrLess;
    forall j | 0 <= j < |r| ensures StrLess(x, r[j]) {
      assert r[j] in r;
      if r[j] != k {
        assert r[j] in s;
        var i :| 0 <= i < |s| && s[i] == r[j];
        assert i > 0;
      }
    }
    assert x in s;
    forall y ensures y in [x] + r <==> y in keys + {k} {
      assert y in [x] + r <==> y == x || y in r;
    }
  }

  /** The keys in ascending order: the map's own order never shows. */
  ghost function SortedNames(keys: set<string>): (s: seq<string>)
    ensures Lists(s, keys)
  {
    if keys == {} then []
    else
      var k :| k in keys;
      InsertLists(k, SortedNames(keys - {k}), keys - {k});
      assert keys - {k} + {k} == keys;
      InsertName(k, SortedNames(keys - {k}))
  }

  method SortNames(keys: set<string>) returns (names: seq<string>)
    ensures names == SortedNames(keys)
  {
    names := [];
    var rest := keys;
    while rest != {}
      invariant rest <= keys && Lists(names, keys - rest)
      decreases rest
    {
      var k :| k in rest;
      InsertLists(k, names, keys - rest);
      assert keys - (rest - {k}) == keys - rest + {k};
      names := InsertName(k, names);
      rest := rest - {k};
    }
    assert keys - rest == keys;
    ListingUnique(names, SortedNames(keys), keys);
  }

  // ---------------------------------------------------------------- the new lists

  const POD_NET: Object := map["name" := Str("pod"), "pod" := Tree]
  const POD_IFACE: Object := map["name" := Str("pod"), "masquerade" := Tree]

  /** An existing network entry is kept as it is, whatever network it names. */
  function NetEntry(nets: map<string, Object>, name: string, multus: string): Object {
    if name in nets then nets[name] else map["name" := Str(name), "multus" := Multus(multus)]
  }

  function IfaceEntry(index: map<string, Object>, name: string, mac: string): Object {
    if name in index then
      (if mac != "" then index[name]["macAddress" := Str(mac)] else index[name]) - {"state"}
    else map["name" := Str(name), "bridge" := Tree, "macAddress" := Str(mac)]
  }

  function AbsentEntry(o: Object): Object {
    o["state" := Str("absent")]
  }

  datatype Lists2 = Lists2(networks: seq<Item>, interfaces: seq<Item>)

  function DesiredNetItems(nets: map<string, Object>, desired: map<string, string>, names: seq<string>): seq<Item>
    requires forall n :: n in names ==> n in desired
  {
    seq(|names|, i requires 0 <= i < |names| => Fields(NetEntry(nets, names[i], desired[names[i]])))
  }

  function DesiredIfaceItems(index: map<string, Object>, macs: map<string, string>, names: seq<string>): seq<Item>
    requires forall n :: n in names ==> n in macs
  {
    seq(|names|, i requires 0 <= i < |names| => Fields(IfaceEntry(index, names[i], macs[names[i]])))
  }

  function AbsentItems(index: map<string, Object>, names: seq<string>): seq<Item>
    requires forall n :: n in names ==> n in index
  {
    seq(|names|, i requires 0 <= i < |names| => Fields(AbsentEntry(index[names[i]])))
  }

  /** Networks of removed interfaces stay, when there is one. */
  function KeptNetItems(nets: map<string, Object>, names: seq<string>): seq<Item> {
    if names == [] then []
    else
      KeptNetItems(nets, names[..|names| - 1])
      + (if names[|names| - 1] in nets then [Fields(nets[names[|names| - 1]])] else [])
  }

  /** The lists after a sync. */
  ghost function Synced(v: Lists2, d: Desired): Lists2 {
    DesiredKeys(d);
    var nets, index := NetIndex(v.networks), IfaceIndex(v.interfaces);
    var desired, macs := DesiredNets(d), DesiredMacs(d);
    var names, removed := SortedNames(desired.Keys), SortedNames(index.Keys - desired.Keys);
    Lists2(
      [Fields(match PodNet(v.networks) case Some(o) => o case None => POD_NET)]
      + DesiredNetItems(nets, desired, names) + KeptNetItems(nets, removed),
      [Fields(match PodIface(v.interfaces) case Some(o) => o case None => POD_IFACE)]
      + DesiredIfaceItems(index, macs, names) + AbsentItems(index, removed))
  }

  // ---------------------------------------------------------------- the VM

  const IPV4_ANNOTATION := "kmc.ianunruh.com/ipv4"

  function Ipv4Parts(d: Desired): seq<string> {
    seq(|d.ifaces|, i requires 0 <= i < |d.ifaces| => d.ifaces[i].gateway + "/" + Decimal(d.ifaces[i].prefix))
    + (match d.external case Some(e) => [e.primaryCidr] case None => [])
  }

  function Annotated(annotations: Option<map<string, string>>, d: Desired): map<string, string> {
    var ann := match annotations case Some(m) => m case None => map[];
    if Ipv4Parts(d) == [] then ann else ann[IPV4_ANNOTATION := Join(Ipv4Parts(d), ',')]
  }

  /** What `vmSpecEqual` compares, as a value; None is a missing annotation map. */
  datatype Snapshot = Snapshot(
    lists: Lists2, annotations: Option<map<string, string>>, templateAnnotations: Option<map<string, string>>)

  ghost function SyncedSnapshot(s: Snapshot, d: Desired): Snapshot {
    Snapshot(Synced(s.lists, d), Some(Annotated(s.annotations, d)), Some(Annotated(s.annotations, d)))
  }

  class RouterVM {
    var lists: Lists2
    var annotations: Option<map<string, string>>
    var templateAnnotations: Option<map<string, string>>
    ghost var patches: nat

    function View(): Snapshot
      reads this
    {
      Snapshot(lists, annotations, templateAnnotations)
    }

    /** `syncRouterVMNetworks`: one patch when something changed, none otherwise. */
    method SyncNetworks(d: Desired)
      modifies this
      ensures View() == SyncedSnapshot(old(View()), d)
      ensures patches == old(patches) + (if View() == old(View()) then 0 else 1)
    {
      hide MultusIfaceName, Annotated, Lists;
      DesiredKeys(d);
      var desired, macs := CollectDesired(d);
      var nets, podNet := IndexNetworks(lists.networks);
      var index, podIface := IndexInterfaces(lists.interfaces);
      var newNetworks := [Fields(match podNet case Some(o) => o case None => POD_NET)];
      var newIfaces := [Fields(match podIface case Some(o) => o case None => POD_IFACE)];
      var names := SortNames(desired.Keys);
      ListedNames(names, desired.Keys);
      var liveNetworks, liveIfaces := KeepDesired(nets, index, desired, macs, names);
      var removed := SortNames(index.Keys - desired.Keys);
      ListedNames(removed, index.Keys - desired.Keys);
      var goneNetworks, goneIfaces := MarkAbsent(nets, index, removed);
      var before := View();
      lists := Lists2(newNetworks + liveNetworks + goneNetworks, newIfaces + liveIfaces + goneIfaces);
      assert lists == Synced(before.lists, d);
      var ann := Annotated(annotations, d);
      annotations, templateAnnotations := Some(ann), Some(ann);
      if View() != before {
        patches := patches + 1;
      }
    }
  }

  lemma ListedNames(s: seq<string>, keys: set<string>)
    requires Lists(s, keys)
    ensures forall k :: k in s <==> k in keys
  {
  }

  method CollectDesired(d: Desired) returns (desired: map<string, string>, macs: map<string, string>)
    ensures desired == DesiredNets(d) && macs == DesiredMacs(d)
  {
    hide MultusIfaceName;
    desired, macs := map[], map[];
    for i := 0 to |d.ifaces|
      invariant desired == NetsOf(d.ifaces[..i]) && macs == MacsOf(d.ifaces[..i])
    {
      assert d.ifaces[..i + 1][..i] == d.ifaces[..i];
      var netName := MultusIfaceName(d.ifaces[i].vpc);
      desired := desired[netName := d.ifaces[i].vpc];
      macs := macs[netName := d.ifaces[i].mac];
    }
    assert d.ifaces[..|d.ifaces|] == d.ifaces;
    if d.external.Some? {
      desired := desired[EXTERNAL := d.external.value.multusNetwork];
      macs := macs[EXTERNAL := d.external.value.mac];
    }
  }

  method IndexNetworks(items: seq<Item>) returns (nets: map<string, Object>, pod: Option<Object>)
    ensures nets == NetIndex(items) && pod == PodNet(items)
  {
    nets, pod := map[], None;
    for i := 0 to |items|
      invariant nets == NetIndex(items[..i]) && pod == PodNet(items[..i])
    {
      assert items[..i + 1][..i] == items[..i];
      match items[i] {
        case Scalar =>
        case Fields(m) =>
          if "pod" in m {
            pod := Some(m);
          } else {
            nets := nets[NameOf(m) := m];
          }
      }
    }
    assert items[..|items|] == items;
  }

  method IndexInterfaces(items: seq<Item>) returns (index: map<string, Object>, pod: Option<Object>)
    ensures index == IfaceIndex(items) && pod == PodIface(items)
  {
    index, pod := map[], None;
    for i := 0 to |items|
      invariant index == IfaceIndex(items[..i]) && pod == PodIface(items[..i])
    {
      assert items[..i + 1][..i] == items[..i];
      match items[i] {
        case Scalar =>
        case Fields(m) =>
          if NameOf(m) == "pod" {
            pod := Some(m);
          } else {
            index := index[NameOf(m) := m];
          }
      }
    }
    assert items[..|items|] == items;
  }

  method KeepDesired(nets: map<string, Object>, index: map<string, Object>,
                     desired: map<string, string>, macs: map<string, string>, names: seq<string>)
    returns (networks: seq<Item>, ifaces: seq<Item>)
    requires forall n :: n in names ==> n in desired && n in macs
    ensures networks == DesiredNetItems(nets, desired, names)
    ensures ifaces == DesiredIfaceItems(index, macs, names)
  {
    networks, ifaces := [], [];
    for i := 0 to |names|
      invariant |networks| == i && forall j :: 0 <= j < i ==> networks[j] == Fields(NetEntry(nets, names[j], desired[names[j]]))
      invariant |ifaces| == i && forall j :: 0 <= j < i ==> ifaces[j] == Fields(IfaceEntry(index, names[j], macs[names[j]]))
    {
      var netName := names[i];
      if netName in nets {
        networks := networks + [Fields(nets[netName])];
      } else {
        networks := networks + [Fields(map["name" := Str(netName), "multus" := Multus(desired[netName])])];
      }
      if netName in index {
        var existing := index[netName];
        if macs[netName] != "" {
          existing := existing["macAddress" := Str(macs[netName])];
        }
        existing := existing - {"state"};
        ifaces := ifaces + [Fields(existing)];
      } else {
        ifaces := ifaces + [Fields(map["name" := Str(netName), "bridge" := Tree, "macAddress" := Str(macs[netName])])];
      }
    }
  }

  method MarkAbsent(nets: map<string, Object>, index: map<string, Object>, removed: seq<string>)
    returns (networks: seq<Item>, ifaces: seq<Item>)
    requires forall n :: n in removed ==> n in index
    ensures networks == KeptNetItems(nets, removed)
    ensures ifaces == AbsentItems(index, removed)
  {
    networks, ifaces := [], [];
    for i := 0 to |removed|
      invariant networks == KeptNetItems(nets, removed[..i])
      invariant |ifaces| == i && forall j :: 0 <= j < i ==> ifaces[j] == Fields(AbsentEntry(index[removed[j]]))
    {
      assert removed[..i + 1][..i] == removed[..i];
      ifaces := ifaces + [Fields(index[removed[i]]["state" := Str("absent")])];
      if removed[i] in nets {
        networks := networks + [Fields(nets[removed[i]])];
      }
    }
    assert removed[..|removed|] == removed;
  }
}
