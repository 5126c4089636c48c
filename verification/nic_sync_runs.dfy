// What the NIC sync achieves: live interfaces, conservation, idempotence, and what
// survives a history of attach, detach and re-attach.
module NicSyncRuns {
  import opened Text
  import opened NicSync

  // ---------------------------------------------------------------- reading a VM

  predicate Live(o: Object) {
    !("state" in o && o["state"] == Str("absent"))
  }

  /** No two interface items (the pod aside) have one name. */
  ghost predicate UniqueNames(items: seq<Item>) {
    forall i, j :: 0 <= i < j < |items| && items[i].Fields? && items[j].Fields?
                   && NameOf(items[i].o) != "pod" && NameOf(items[j].o) != "pod"
                   ==> NameOf(items[i].o) != NameOf(items[j].o)
  }

  /** The index holds exactly the last item of each name. */
  lemma {:induction false} IfaceIndexed(items: seq<Item>, n: string)
    ensures n in IfaceIndex(items)
       <==> n != "pod" && exists i :: 0 <= i < |items| && items[i].Fields? && NameOf(items[i].o) == n
    ensures n in IfaceIndex(items) ==> NameOf(IfaceIndex(items)[n]) == n && Fields(IfaceIndex(items)[n]) in items
  {
    if items != [] {
      var k := |items| - 1;
      IfaceIndexed(items[..k], n);
      assert items == items[..k] + [items[k]];
      assert forall i :: 0 <= i < k ==> items[..k][i] == items[i];
    }
  }

  lemma {:induction false} NetIndexed(items: seq<Item>, n: string)
    ensures n in NetIndex(items)
       <==> exists i :: 0 <= i < |items| && items[i].Fields? && "pod" !in items[i].o && NameOf(items[i].o) == n
    ensures n in NetIndex(items) ==> NameOf(NetIndex(items)[n]) == n && "pod" !in NetIndex(items)[n]
    ensures n in NetIndex(items) ==> Fields(NetIndex(items)[n]) in items
  {
    if items != [] {
      var k := |items| - 1;
      NetIndexed(items[..k], n);
      assert items == items[..k] + [items[k]];
      assert forall i :: 0 <= i < k ==> items[..k][i] == items[i];
    }
  }

  /** With unique names, an item is what its name is indexed to. */
  lemma {:induction false} IfaceOfIndex(items: seq<Item>, i: nat)
    requires UniqueNames(items) && i < |items| && items[i].Fields? && NameOf(items[i].o) != "pod"
    ensures NameOf(items[i].o) in IfaceIndex(items) && IfaceIndex(items)[NameOf(items[i].o)] == items[i].o
  {
    var k := |items| - 1;
    if i < k {
      var front := items[..k];
      assert forall j :: 0 <= j < k ==> front[j] == items[j];
      IfaceOfIndex(front, i);
    }
  }

  // ---------------------------------------------------------------- indexing concatenations

  lemma {:induction false} IfaceIndexConcat(a: seq<Item>, b: seq<Item>)
    ensures IfaceIndex(a + b) == IfaceIndex(a) + IfaceIndex(b)
    ensures PodIface(a + b) == if PodIface(b).Some? then PodIface(b) else PodIface(a)
    decreases |b|
  {
    if b == [] {
      assert a + b == a;
    } else {
      assert (a + b)[..|a + b| - 1] == a + b[..|b| - 1];
      IfaceIndexConcat(a, b[..|b| - 1]);
    }
  }

  lemma {:induction false} NetIndexConcat(a: seq<Item>, b: seq<Item>)
    ensures NetIndex(a + b) == NetIndex(a) + NetIndex(b)
    ensures PodNet(a + b) == if PodNet(b).Some? then PodNet(b) else PodNet(a)
    decreases |b|
  {
    if b == [] {
      assert a + b == a;
    } else {
      assert (a + b)[..|a + b| - 1] == a + b[..|b| - 1];
      NetIndexConcat(a, b[..|b| - 1]);
    }
  }

  /** Items that are named by a list of distinct names index to exactly that list. */
  lemma IndexOfNamed(items: seq<Item>, names: seq<string>)
    requires |items| == |names|
    requires forall i :: 0 <= i < |names| ==> items[i].Fields? && NameOf(items[i].o) == names[i] && names[i] != "pod"
    requires forall i, j :: 0 <= i < j < |names| ==> names[i] != names[j]
    ensures forall n :: n in IfaceIndex(items) <==> n in names
    ensures forall i :: 0 <= i < |names| ==> names[i] in IfaceIndex(items) && IfaceIndex(items)[names[i]] == items[i].o
    ensures PodIface(items) == None
  {
    hide IfaceIndex, PodIface, NameOf;
    assert UniqueNames(items);
    forall n ensures n in IfaceIndex(items) <==> n in names {
      IfaceIndexed(items, n);
      if n in names {
        var i :| 0 <= i < |names| && names[i] == n;
        assert items[i].Fields? && NameOf(items[i].o) == n;
      }
    }
    forall i | 0 <= i < |names| ensures names[i] in IfaceIndex(items) && IfaceIndex(items)[names[i]] == items[i].o {
      IfaceOfIndex(items, i);
    }
    NoPodIface(items);
  }

  lemma {:induction false} NoPodIface(items: seq<Item>)
    requires forall i :: 0 <= i < |items| && items[i].Fields? ==> NameOf(items[i].o) != "pod"
    ensures PodIface(items) == None
  {
    if items != [] {
      NoPodIface(items[..|items| - 1]);
    }
  }

  lemma {:induction false} NoPodNet(items: seq<Item>)
    requires forall i :: 0 <= i < |items| && items[i].Fields? ==> "pod" !in items[i].o
    ensures PodNet(items) == None
  {
    if items != [] {
      NoPodNet(items[..|items| - 1]);
    }
  }

  lemma NetIndexOfNamed(items: seq<Item>, names: seq<string>)
    requires |items| == |names|
    requires forall i :: 0 <= i < |names| ==> items[i].Fields? && NameOf(items[i].o) == names[i] && "pod" !in items[i].o
    requires forall i, j :: 0 <= i < j < |names| ==> names[i] != names[j]
    ensures forall n :: n in NetIndex(items) <==> n in names
    ensures forall i :: 0 <= i < |names| ==> names[i] in NetIndex(items) && NetIndex(items)[names[i]] == items[i].o
    ensures PodNet(items) == None
  {
    hide NetIndex, PodNet, NameOf;
    forall n ensures n in NetIndex(items) <==> n in names {
      NetIndexed(items, n);
      if n in names {
        var i :| 0 <= i < |names| && names[i] == n;
        assert items[i].Fields? && "pod" !in items[i].o && NameOf(items[i].o) == n;
      }
    }
    forall i | 0 <= i < |names| ensures names[i] in NetIndex(items) && NetIndex(items)[names[i]] == items[i].o {
      NetOfIndex(items, names, i);
    }
    NoPodNet(items);
  }

  lemma {:induction false} NetOfIndex(items: seq<Item>, names: seq<string>, i: nat)
    requires |items| == |names| && i < |items|
    requires forall k :: 0 <= k < |names| ==> items[k].Fields? && NameOf(items[k].o) == names[k] && "pod" !in items[k].o
    requires forall k, j :: 0 <= k < j < |names| ==> names[k] != names[j]
    ensures names[i] in NetIndex(items) && NetIndex(items)[names[i]] == items[i].o
  {
    hide NameOf;
    var k := |items| - 1;
    if i < k {
      assert forall j :: 0 <= j < k ==> items[..k][j] == items[j] && names[..k][j] == names[j];
      NetOfIndex(items[..k], names[..k], i);
    }
  }

  lemma AscendingDistinct(s: seq<string>)
    requires Ascending(s)
    ensures forall i, j :: 0 <= i < j < |s| ==> s[i] != s[j]
  {
    forall i, j | 0 <= i < j < |s| ensures s[i] != s[j] {
      StrLessTotal(s[i], s[i]);
      hide StrLess;
      assert StrLess(s[i], s[j]);
    }
  }

  /** The kept networks of removed interfaces index to the existing entries. */
  lemma {:induction false} KeptNetIndex(nets: map<string, Object>, names: seq<string>)
    requires forall n :: n in nets ==> NameOf(nets[n]) == n && "pod" !in nets[n]
    ensures NetIndex(KeptNetItems(nets, names)) == map n | n in nets && n in names :: nets[n]
    ensures PodNet(KeptNetItems(nets, names)) == None
  {
    if names != [] {
      var k := |names| - 1;
      KeptNetIndex(nets, names[..k]);
      hide NetIndex, PodNet, NameOf;
      var front, next := KeptNetItems(nets, names[..k]), names[k];
      InFront(names, k);
      if next in nets {
        NetIndexConcat(front, [Fields(nets[next])]);
        OneNet(nets[next]);
        assert NetIndex(KeptNetItems(nets, names)) == NetIndex(front)[next := nets[next]];
      } else {
        assert front + [] == front;
      }
    }
  }

  lemma InFront(names: seq<string>, k: nat)
    requires k + 1 == |names|
    ensures forall n :: n in names <==> n in names[..k] || n == names[k]
  {
    assert names == names[..k] + [names[k]];
  }

  lemma OneNet(o: Object)
    requires "pod" !in o
    ensures NetIndex([Fields(o)]) == map[NameOf(o) := o] && PodNet([Fields(o)]) == None
  {
    assert [Fields(o)][..0] == [];
  }

  lemma OnePodNet(o: Object)
    requires "pod" in o
    ensures NetIndex([Fields(o)]) == map[] && PodNet([Fields(o)]) == Some(o)
  {
    assert [Fields(o)][..0] == [];
  }

  lemma OnePodIface(o: Object)
    requires NameOf(o) == "pod"
    ensures IfaceIndex([Fields(o)]) == map[] && PodIface([Fields(o)]) == Some(o)
  {
    assert [Fields(o)][..0] == [];
  }

  lemma {:induction false} PodNetHasPod(items: seq<Item>)
    ensures PodNet(items).Some? ==> "pod" in PodNet(items).value
  {
    if items != [] { PodNetHasPod(items[..|items| - 1]); }
  }

  lemma {:induction false} PodIfaceNamed(items: seq<Item>)
    ensures PodIface(items).Some? ==> NameOf(PodIface(items).value) == "pod"
  {
    if items != [] { PodIfaceNamed(items[..|items| - 1]); }
  }

  // ---------------------------------------------------------------- the synced lists, indexed

  function DesiredIface(index: map<string, Object>, d: Desired, n: string): Object
    requires n in DesiredMacs(d)
  {
    IfaceEntry(index, n, DesiredMacs(d)[n])
  }

  function FirstIface(v: Lists2): Object {
    match PodIface(v.interfaces) case Some(o) => o case None => POD_IFACE
  }

  function FirstNet(v: Lists2): Object {
    match PodNet(v.networks) case Some(o) => o case None => POD_NET
  }

  lemma EntryNames(index: map<string, Object>, n: string, mac: string)
    requires n in index ==> NameOf(index[n]) == n
    ensures NameOf(IfaceEntry(index, n, mac)) == n
    ensures n in index ==> NameOf(AbsentEntry(index[n])) == n
  {
  }

  /** After a sync: the pod first, each desired name live, every other prior name absent. */
  lemma SyncedInterfaces(v: Lists2, d: Desired)
    ensures var after, index := Synced(v, d).interfaces, IfaceIndex(v.interfaces);
            && after != [] && after[0] == Fields(FirstIface(v)) && NameOf(FirstIface(v)) == "pod"
            && PodIface(after) == Some(FirstIface(v))
            && UniqueNames(after)
            && IfaceIndex(after).Keys == DesiredMacs(d).Keys + index.Keys
            && (forall n :: n in DesiredMacs(d) ==> IfaceIndex(after)[n] == DesiredIface(index, d, n))
            && (forall n :: n in index && n !in DesiredMacs(d) ==> IfaceIndex(after)[n] == AbsentEntry(index[n]))
  {
    DesiredKeys(d);
    var index := IfaceIndex(v.interfaces);
    var desired, macs := DesiredNets(d), DesiredMacs(d);
    var names, removed := SortedNames(desired.Keys), SortedNames(index.Keys - desired.Keys);
    ListedNames(names, desired.Keys);
    ListedNames(removed, index.Keys - desired.Keys);
    AscendingDistinct(names);
    AscendingDistinct(removed);
    PodIfaceNamed(v.interfaces);
    hide Lists, Ascending, SortedNames, DesiredNets, DesiredMacs, MultusIfaceName, IfaceIndex, NetIndex, PodIface, PodNet;
    forall n ensures n in index ==> NameOf(index[n]) == n && n != "pod" {
      IfaceIndexed(v.interfaces, n);
    }
    var head := [Fields(FirstIface(v))];
    var live, gone := DesiredIfaceItems(index, macs, names), AbsentItems(index, removed);
    assert Synced(v, d).interfaces == head + live + gone;
    SyncedParts(index, macs, names, removed, FirstIface(v), live, gone);
  }

  lemma SyncedParts(index: map<string, Object>, macs: map<string, string>, names: seq<string>, removed: seq<string>,
                    first: Object, live: seq<Item>, gone: seq<Item>)
    requires forall n :: n in names <==> n in macs
    requires forall n :: n in removed <==> n in index && n !in macs
    requires forall i, j :: 0 <= i < j < |names| ==> names[i] != names[j]
    requires forall i, j :: 0 <= i < j < |removed| ==> removed[i] != removed[j]
    requires NameOf(first) == "pod" && "pod" !in macs
    requires forall n :: n in index ==> NameOf(index[n]) == n && n != "pod"
    requires live == DesiredIfaceItems(index, macs, names) && gone == AbsentItems(index, removed)
    ensures var after := [Fields(first)] + live + gone;
            && PodIface(after) == Some(first)
            && UniqueNames(after)
            && IfaceIndex(after).Keys == macs.Keys + index.Keys
            && (forall n :: n in macs ==> IfaceIndex(after)[n] == IfaceEntry(index, n, macs[n]))
            && (forall n :: n in index && n !in macs ==> IfaceIndex(after)[n] == AbsentEntry(index[n]))
  {
    NamedItems(index, macs, names, removed, live, gone);
    OnePodIface(first);
    hide IfaceIndex, PodIface, IfaceEntry, AbsentEntry, UniqueNames, NameOf, DesiredIfaceItems, AbsentItems;
    IndexOfNamed(live, names);
    IndexOfNamed(gone, removed);
    IfaceIndexConcat([Fields(first)], live);
    IfaceIndexConcat([Fields(first)] + live, gone);
    NamesDistinct(first, live, gone, names, removed);
    LiveEntries(index, macs, names, live);
    GoneEntries(index, removed, gone);
    MergedIndex(index, macs, IfaceIndex(live), IfaceIndex(gone), IfaceIndex([Fields(first)] + live + gone), names, removed);
  }

  lemma MergedIndex(index: map<string, Object>, macs: map<string, string>, l: map<string, Object>, g: map<string, Object>,
                    all: map<string, Object>, names: seq<string>, removed: seq<string>)
    requires all == map[] + l + g
    requires forall n :: n in names <==> n in macs
    requires forall n :: n in removed <==> n in index && n !in macs
    requires forall n :: n in l <==> n in names
    requires forall n :: n in g <==> n in removed
    requires forall n :: n in macs ==> l[n] == IfaceEntry(index, n, macs[n])
    requires forall n :: n in removed ==> g[n] == AbsentEntry(index[n])
    ensures all.Keys == macs.Keys + index.Keys
    ensures forall n :: n in macs ==> all[n] == IfaceEntry(index, n, macs[n])
    ensures forall n :: n in index && n !in macs ==> all[n] == AbsentEntry(index[n])
  {
    hide IfaceEntry, AbsentEntry;
  }

  lemma NamedItems(index: map<string, Object>, macs: map<string, string>, names: seq<string>, removed: seq<string>,
                   live: seq<Item>, gone: seq<Item>)
    requires forall n :: n in names <==> n in macs
    requires forall n :: n in removed <==> n in index && n !in macs
    requires "pod" !in macs
    requires forall n :: n in index ==> NameOf(index[n]) == n && n != "pod"
    requires live == DesiredIfaceItems(index, macs, names) && gone == AbsentItems(index, removed)
    ensures |live| == |names| && |gone| == |removed|
    ensures forall i :: 0 <= i < |names| ==> live[i].Fields? && NameOf(live[i].o) == names[i] && names[i] != "pod"
    ensures forall i :: 0 <= i < |removed| ==> gone[i].Fields? && NameOf(gone[i].o) == removed[i] && removed[i] != "pod"
  {
    hide NameOf, IfaceEntry, AbsentEntry;
    forall i | 0 <= i < |names| ensures NameOf(live[i].o) == names[i] && names[i] != "pod" {
      assert names[i] in names;
      EntryNames(index, names[i], macs[names[i]]);
    }
    forall i | 0 <= i < |removed| ensures NameOf(gone[i].o) == removed[i] && removed[i] != "pod" {
      assert removed[i] in removed;
      EntryNames(index, removed[i], "");
    }
  }

  lemma LiveEntries(index: map<string, Object>, macs: map<string, string>, names: seq<string>, live: seq<Item>)
    requires forall n :: n in names <==> n in macs
    requires live == DesiredIfaceItems(index, macs, names)
    requires forall n :: n in IfaceIndex(live) <==> n in names
    requires forall i :: 0 <= i < |names| ==> names[i] in IfaceIndex(live) && IfaceIndex(live)[names[i]] == live[i].o
    ensures forall n :: n in macs ==> n in IfaceIndex(live) && IfaceIndex(live)[n] == IfaceEntry(index, n, macs[n])
  {
    hide IfaceIndex, IfaceEntry;
    forall n | n in macs ensures n in IfaceIndex(live) && IfaceIndex(live)[n] == IfaceEntry(index, n, macs[n]) {
      var i :| 0 <= i < |names| && names[i] == n;
    }
  }

  lemma GoneEntries(index: map<string, Object>, removed: seq<string>, gone: seq<Item>)
    requires forall n :: n in removed ==> n in index
    requires gone == AbsentItems(index, removed)
    requires forall n :: n in IfaceIndex(gone) <==> n in removed
    requires forall i :: 0 <= i < |removed| ==> removed[i] in IfaceIndex(gone) && IfaceIndex(gone)[removed[i]] == gone[i].o
    ensures forall n :: n in removed ==> n in IfaceIndex(gone) && IfaceIndex(gone)[n] == AbsentEntry(index[n])
  {
    hide IfaceIndex, AbsentEntry;
    forall n | n in removed ensures n in IfaceIndex(gone) && IfaceIndex(gone)[n] == AbsentEntry(index[n]) {
      var i :| 0 <= i < |removed| && removed[i] == n;
    }
  }

  lemma NamesDistinct(first: Object, live: seq<Item>, gone: seq<Item>, names: seq<string>, removed: seq<string>)
    requires NameOf(first) == "pod" && |live| == |names| && |gone| == |removed|
    requires forall i :: 0 <= i < |names| ==> live[i].Fields? && NameOf(live[i].o) == names[i]
    requires forall i :: 0 <= i < |removed| ==> gone[i].Fields? && NameOf(gone[i].o) == removed[i]
    requires forall i, j :: 0 <= i < j < |names| ==> names[i] != names[j]
    requires forall i, j :: 0 <= i < j < |removed| ==> removed[i] != removed[j]
    requires forall n :: n in names ==> n !in removed
    ensures UniqueNames([Fields(first)] + live + gone)
  {
    var after := [Fields(first)] + live + gone;
    var all := ["pod"] + names + removed;
    assert forall i :: 0 <= i < |after| ==> NameOf(after[i].o) == all[i];
    forall i, j | 1 <= i < j < |after| ensures all[i] != all[j] {
      if i <= |names| < j {
        assert all[i] in names && all[j] in removed;
      }
    }
  }

  lemma SyncedNetworks(v: Lists2, d: Desired)
    ensures var after, nets, index := Synced(v, d).networks, NetIndex(v.networks), IfaceIndex(v.interfaces);
            && after != [] && after[0] == Fields(FirstNet(v)) && PodNet(after) == Some(FirstNet(v))
            && NetIndex(after).Keys == DesiredNets(d).Keys + (nets.Keys * index.Keys)
            && (forall n :: n in DesiredNets(d) ==> NetIndex(after)[n] == NetEntry(nets, n, DesiredNets(d)[n]))
            && (forall n :: n in nets && n in index && n !in DesiredNets(d) ==> NetIndex(after)[n] == nets[n])
  {
    DesiredKeys(d);
    var nets, index := NetIndex(v.networks), IfaceIndex(v.interfaces);
    var desired := DesiredNets(d);
    var names, removed := SortedNames(desired.Keys), SortedNames(index.Keys - desired.Keys);
    ListedNames(names, desired.Keys);
    ListedNames(removed, index.Keys - desired.Keys);
    AscendingDistinct(names);
    PodNetHasPod(v.networks);
    hide Lists, Ascending, SortedNames, DesiredNets, DesiredMacs, MultusIfaceName, IfaceIndex, NetIndex, PodIface, PodNet;
    forall n ensures n in nets ==> NameOf(nets[n]) == n && "pod" !in nets[n] {
      NetIndexed(v.networks, n);
    }
    assert Synced(v, d).networks
        == [Fields(FirstNet(v))] + DesiredNetItems(nets, desired, names) + KeptNetItems(nets, removed);
    NetParts(nets, desired, names, removed, FirstNet(v));
  }

  lemma NetParts(nets: map<string, Object>, desired: map<string, string>, names: seq<string>, removed: seq<string>, first: Object)
    requires forall n :: n in names <==> n in desired
    requires forall n :: n in removed ==> n !in desired
    requires forall i, j :: 0 <= i < j < |names| ==> names[i] != names[j]
    requires "pod" in first
    requires forall n :: n in nets ==> NameOf(nets[n]) == n && "pod" !in nets[n]
    ensures var after := [Fields(first)] + DesiredNetItems(nets, desired, names) + KeptNetItems(nets, removed);
            && PodNet(after) == Some(first)
            && (forall n :: n in NetIndex(after) <==> n in desired || (n in nets && n in removed))
            && (forall n :: n in desired ==> NetIndex(after)[n] == NetEntry(nets, n, desired[n]))
            && (forall n :: n in nets && n in removed ==> NetIndex(after)[n] == nets[n])
  {
    var live, kept := DesiredNetItems(nets, desired, names), KeptNetItems(nets, removed);
    NamedNets(nets, desired, names, live);
    OnePodNet(first);
    KeptNetIndex(nets, removed);
    hide NetIndex, PodNet, NetEntry, KeptNetItems, NameOf, DesiredNetItems;
    NetIndexOfNamed(live, names);
    NetIndexConcat([Fields(first)], live);
    NetIndexConcat([Fields(first)] + live, kept);
    LiveNets(nets, desired, names, live);
    MergedNets(nets, desired, NetIndex(live), NetIndex(kept), NetIndex([Fields(first)] + live + kept), names, removed);
  }

  lemma MergedNets(nets: map<string, Object>, desired: map<string, string>, l: map<string, Object>, k: map<string, Object>,
                   all: map<string, Object>, names: seq<string>, removed: seq<string>)
    requires all == map[] + l + k
    requires forall n :: n in names <==> n in desired
    requires forall n :: n in removed ==> n !in desired
    requires forall n :: n in l <==> n in names
    requires k == map n | n in nets && n in removed :: nets[n]
    requires forall n :: n in desired ==> l[n] == NetEntry(nets, n, desired[n])
    ensures forall n :: n in all <==> n in desired || (n in nets && n in removed)
    ensures forall n :: n in desired ==> all[n] == NetEntry(nets, n, desired[n])
    ensures forall n :: n in nets && n in removed ==> all[n] == nets[n]
  {
    hide NetEntry;
  }

  lemma NamedNets(nets: map<string, Object>, desired: map<string, string>, names: seq<string>, live: seq<Item>)
    requires forall n :: n in names <==> n in desired
    requires forall n :: n in nets ==> NameOf(nets[n]) == n && "pod" !in nets[n]
    requires live == DesiredNetItems(nets, desired, names)
    ensures |live| == |names|
    ensures forall i :: 0 <= i < |names| ==> live[i].Fields? && NameOf(live[i].o) == names[i] && "pod" !in live[i].o
  {
  }

  lemma LiveNets(nets: map<string, Object>, desired: map<string, string>, names: seq<string>, live: seq<Item>)
    requires forall n :: n in names <==> n in desired
    requires live == DesiredNetItems(nets, desired, names)
    requires forall n :: n in NetIndex(live) <==> n in names
    requires forall i :: 0 <= i < |names| ==> names[i] in NetIndex(live) && NetIndex(live)[names[i]] == live[i].o
    ensures forall n :: n in desired ==> n in NetIndex(live) && NetIndex(live)[n] == NetEntry(nets, n, desired[n])
  {
    hide NetIndex, NetEntry;
    forall n | n in desired ensures n in NetIndex(live) && NetIndex(live)[n] == NetEntry(nets, n, desired[n]) {
      var i :| 0 <= i < |names| && names[i] == n;
    }
  }

  // ---------------------------------------------------------------- what a sync achieves

  /** An item is a live interface other than the pod's. */
  predicate LiveNic(item: Item) {
    item.Fields? && NameOf(item.o) != "pod" && Live(item.o)
  }

  /**
   * The live interfaces are exactly the desired names, each once and with its MAC;
   * every other interface there was survives as absent with its other fields; the
   * pod interface comes first.
   */
  lemma LiveExactlyDesired(v: Lists2, d: Desired)
    ensures var after := Synced(v, d).interfaces;
            && UniqueNames(after) && after != [] && after[0].Fields? && NameOf(after[0].o) == "pod"
            && (forall n :: n in DesiredMacs(d) <==> exists i :: 0 <= i < |after| && LiveNic(after[i]) && NameOf(after[i].o) == n)
            && (forall i :: 0 <= i < |after| && LiveNic(after[i]) && NameOf(after[i].o) in DesiredMacs(d)
                  && DesiredMacs(d)[NameOf(after[i].o)] != ""
                  ==> "macAddress" in after[i].o && after[i].o["macAddress"] == Str(DesiredMacs(d)[NameOf(after[i].o)]))
            && (forall n :: n in IfaceIndex(v.interfaces) && n !in DesiredMacs(d) ==>
                  exists i :: 0 <= i < |after| && after[i] == Fields(AbsentEntry(IfaceIndex(v.interfaces)[n]))
                              && !LiveNic(after[i]) && NameOf(after[i].o) == n)
  {
    SyncedInterfaces(v, d);
    var after, index, macs := Synced(v, d).interfaces, IfaceIndex(v.interfaces), DesiredMacs(d);
    hide Synced, IfaceIndex, DesiredMacs, PodIface, Live, NameOf, AbsentEntry, UniqueNames;
    forall n | n in macs ensures exists i :: 0 <= i < |after| && LiveNic(after[i]) && NameOf(after[i].o) == n {
      DesiredIsLive(after, index, d, n);
    }
    forall i | 0 <= i < |after| && LiveNic(after[i])
      ensures NameOf(after[i].o) in macs
      ensures macs[NameOf(after[i].o)] != "" ==>
                "macAddress" in after[i].o && after[i].o["macAddress"] == Str(macs[NameOf(after[i].o)])
    {
      LiveIsDesired(after, index, d, i);
    }
    forall n | n in index && n !in macs
      ensures exists i :: 0 <= i < |after| && after[i] == Fields(AbsentEntry(index[n])) && !LiveNic(after[i]) && NameOf(after[i].o) == n
    {
      OthersAreAbsent(after, index, d, n);
    }
  }

  lemma DesiredIsLive(after: seq<Item>, index: map<string, Object>, d: Desired, n: string)
    requires n in DesiredMacs(d) && n in IfaceIndex(after) && IfaceIndex(after)[n] == DesiredIface(index, d, n)
    ensures exists i :: 0 <= i < |after| && LiveNic(after[i]) && NameOf(after[i].o) == n
  {
    IfaceIndexed(after, n);
    hide IfaceIndex, DesiredMacs, NameOf;
    var item := Fields(IfaceIndex(after)[n]);
    assert item in after && LiveNic(item);
  }

  lemma LiveIsDesired(after: seq<Item>, index: map<string, Object>, d: Desired, i: nat)
    requires UniqueNames(after) && i < |after| && LiveNic(after[i])
    requires IfaceIndex(after).Keys == DesiredMacs(d).Keys + index.Keys
    requires forall n :: n in DesiredMacs(d) ==> IfaceIndex(after)[n] == DesiredIface(index, d, n)
    requires forall n :: n in index && n !in DesiredMacs(d) ==> IfaceIndex(after)[n] == AbsentEntry(index[n])
    ensures var n := NameOf(after[i].o);
            n in DesiredMacs(d)
            && (DesiredMacs(d)[n] != "" ==> "macAddress" in after[i].o && after[i].o["macAddress"] == Str(DesiredMacs(d)[n]))
  {
    IfaceOfIndex(after, i);
    hide IfaceIndex, DesiredMacs, NameOf, UniqueNames;
    var n := NameOf(after[i].o);
    AbsentIsNotLive(after[i].o, if n in index then index[n] else map[]);
  }

  lemma OthersAreAbsent(after: seq<Item>, index: map<string, Object>, d: Desired, n: string)
    requires n in index && n !in DesiredMacs(d)
    requires n in IfaceIndex(after) && IfaceIndex(after)[n] == AbsentEntry(index[n])
    ensures exists i :: 0 <= i < |after| && after[i] == Fields(AbsentEntry(index[n])) && !LiveNic(after[i]) && NameOf(after[i].o) == n
  {
    IfaceIndexed(after, n);
    hide IfaceIndex, DesiredMacs, NameOf;
    AbsentIsNotLive(IfaceIndex(after)[n], index[n]);
  }

  lemma AbsentIsNotLive(o: Object, was: Object)
    ensures o == AbsentEntry(was) ==> !Live(o)
  {
  }

  // ---------------------------------------------------------------- idempotence

  /** The items a sync produces depend only on the entries it looks up. */
  lemma ItemsAgree(nets: map<string, Object>, nets': map<string, Object>, index: map<string, Object>, index': map<string, Object>,
                   desired: map<string, string>, macs: map<string, string>, names: seq<string>, removed: seq<string>)
    requires forall n :: n in names ==> n in desired && n in macs
    requires forall n :: n in removed ==> n in index && n in index'
    requires forall n :: n in names ==> NetEntry(nets, n, desired[n]) == NetEntry(nets', n, desired[n])
    requires forall n :: n in names ==> IfaceEntry(index, n, macs[n]) == IfaceEntry(index', n, macs[n])
    requires forall n :: n in removed ==> AbsentEntry(index[n]) == AbsentEntry(index'[n])
    requires forall n :: n in removed ==> (n in nets <==> n in nets') && (n in nets ==> nets[n] == nets'[n])
    ensures DesiredNetItems(nets, desired, names) == DesiredNetItems(nets', desired, names)
    ensures DesiredIfaceItems(index, macs, names) == DesiredIfaceItems(index', macs, names)
    ensures AbsentItems(index, removed) == AbsentItems(index', removed)
    ensures KeptNetItems(nets, removed) == KeptNetItems(nets', removed)
  {
    KeptCongruence(nets, nets', removed);
    hide NetEntry, IfaceEntry, AbsentEntry, KeptNetItems;
  }

  lemma {:induction false} KeptCongruence(x: map<string, Object>, y: map<string, Object>, names: seq<string>)
    requires forall n :: n in names ==> (n in x <==> n in y) && (n in x ==> x[n] == y[n])
    ensures KeptNetItems(x, names) == KeptNetItems(y, names)
  {
    if names != [] {
      KeptCongruence(x, y, names[..|names| - 1]);
      assert names[|names| - 1] in names;
    }
  }

  /** A second sync of the same attachments changes neither list. */
  lemma SyncTwice(v: Lists2, d: Desired)
    ensures Synced(Synced(v, d), d) == Synced(v, d)
  {
    SyncedInterfaces(v, d);
    SyncedNetworks(v, d);
    DesiredKeys(d);
    var w := Synced(v, d);
    var desired, macs := DesiredNets(d), DesiredMacs(d);
    var nets, index, nets', index' := NetIndex(v.networks), IfaceIndex(v.interfaces), NetIndex(w.networks), IfaceIndex(w.interfaces);
    var names, removed := SortedNames(desired.Keys), SortedNames(index.Keys - desired.Keys);
    ListedNames(names, desired.Keys);
    ListedNames(removed, index.Keys - desired.Keys);
    assert index'.Keys - desired.Keys == index.Keys - desired.Keys;
    EntriesStable(v, w, d, names, removed);
    ItemsAgree(nets, nets', index, index', desired, macs, names, removed);
    hide IfaceIndex, NetIndex, DesiredNets, DesiredMacs, PodIface, PodNet, SortedNames, Lists,
         DesiredNetItems, DesiredIfaceItems, AbsentItems, KeptNetItems;
  }

  lemma EntriesStable(v: Lists2, w: Lists2, d: Desired, names: seq<string>, removed: seq<string>)
    requires w == Synced(v, d)
    requires forall n :: n in names <==> n in DesiredNets(d)
    requires forall n :: n in removed <==> n in IfaceIndex(v.interfaces) && n !in DesiredNets(d)
    ensures forall n :: n in names ==> n in DesiredMacs(d)
    ensures forall n :: n in removed ==> n in IfaceIndex(w.interfaces)
    ensures forall n :: n in names ==>
              NetEntry(NetIndex(v.networks), n, DesiredNets(d)[n]) == NetEntry(NetIndex(w.networks), n, DesiredNets(d)[n])
    ensures forall n :: n in names ==>
              IfaceEntry(IfaceIndex(v.interfaces), n, DesiredMacs(d)[n]) == IfaceEntry(IfaceIndex(w.interfaces), n, DesiredMacs(d)[n])
    ensures forall n :: n in removed ==> AbsentEntry(IfaceIndex(v.interfaces)[n]) == AbsentEntry(IfaceIndex(w.interfaces)[n])
    ensures forall n :: n in removed ==>
              && (n in NetIndex(v.networks) <==> n in NetIndex(w.networks))
              && (n in NetIndex(v.networks) ==> NetIndex(v.networks)[n] == NetIndex(w.networks)[n])
  {
    SyncedInterfaces(v, d);
    SyncedNetworks(v, d);
    DesiredKeys(d);
    hide Synced, IfaceIndex, NetIndex, DesiredNets, DesiredMacs, PodIface, PodNet, UniqueNames, NameOf, NetEntry, IfaceEntry, AbsentEntry;
    var nets, index, nets', index' := NetIndex(v.networks), IfaceIndex(v.interfaces), NetIndex(w.networks), IfaceIndex(w.interfaces);
    var desired, macs := DesiredNets(d), DesiredMacs(d);
    forall n | n in names
      ensures NetEntry(nets, n, desired[n]) == NetEntry(nets', n, desired[n])
      ensures IfaceEntry(index, n, macs[n]) == IfaceEntry(index', n, macs[n])
    {
      assert nets'[n] == NetEntry(nets, n, desired[n]);
      assert index'[n] == DesiredIface(index, d, n);
      EntryTwice(nets, nets', index, index', n, desired[n], macs[n]);
    }
    forall n | n in removed ensures AbsentEntry(index[n]) == AbsentEntry(index'[n]) {
      AbsentTwice(index[n], index'[n]);
    }
  }

  lemma EntryTwice(nets: map<string, Object>, nets': map<string, Object>, index: map<string, Object>, index': map<string, Object>,
                   n: string, multus: string, mac: string)
    requires n in nets' && nets'[n] == NetEntry(nets, n, multus)
    requires n in index' && index'[n] == IfaceEntry(index, n, mac)
    ensures NetEntry(nets', n, multus) == NetEntry(nets, n, multus)
    ensures IfaceEntry(index', n, mac) == IfaceEntry(index, n, mac)
  {
  }

  lemma AbsentTwice(o: Object, o': Object)
    requires o' == AbsentEntry(o)
    ensures AbsentEntry(o') == AbsentEntry(o)
  {
  }

  /** So it makes no patch: the annotations are stable too. */
  lemma SecondSyncMakesNoPatch(s: Snapshot, d: Desired)
    ensures SyncedSnapshot(SyncedSnapshot(s, d), d) == SyncedSnapshot(s, d)
  {
    SyncTwice(s.lists, d);
    hide Synced, Ipv4Parts, Join;
    var ann := Annotated(s.annotations, d);
    assert Annotated(Some(ann), d) == ann;
  }
}
