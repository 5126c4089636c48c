// What a sync writes, entry by entry and field by field, and the address annotation.
module NicSyncFields {
  import opened Text
  import opened NicSync
  import opened NicSyncRuns

  // ---------------------------------------------------------------- what is asked for

  /**
   * The attachment behind an interface name: the external network under "external",
   * otherwise the last VPC whose name comes out as n.
   */
  ghost predicate Wants(d: Desired, n: string, mac: string, network: string) {
    || (n == "external" && d.external.Some? && mac == d.external.value.mac && network == d.external.value.multusNetwork)
    || exists i :: 0 <= i < |d.ifaces| && LastOf(d.ifaces, n, i) && mac == d.ifaces[i].mac && network == d.ifaces[i].vpc
  }

  predicate LastOf(ifaces: seq<Nic>, n: string, i: nat)
    requires i < |ifaces|
  {
    && MultusIfaceName(ifaces[i].vpc) == n
    && forall j :: i < j < |ifaces| ==> MultusIfaceName(ifaces[j].vpc) != n
  }

  ghost predicate Wanted(d: Desired, n: string) {
    exists mac, network :: Wants(d, n, mac, network)
  }

  lemma {:induction false} LastAttachment(ifaces: seq<Nic>, n: string)
    ensures n in NetsOf(ifaces) <==> exists i :: 0 <= i < |ifaces| && LastOf(ifaces, n, i)
    ensures forall i :: 0 <= i < |ifaces| && LastOf(ifaces, n, i) ==>
              n in NetsOf(ifaces) && NetsOf(ifaces)[n] == ifaces[i].vpc && n in MacsOf(ifaces) && MacsOf(ifaces)[n] == ifaces[i].mac
  {
    hide MultusIfaceName;
    if ifaces != [] {
      var k := |ifaces| - 1;
      var front := ifaces[..k];
      LastAttachment(front, n);
      if MultusIfaceName(ifaces[k].vpc) == n {
        assert LastOf(ifaces, n, k);
      } else {
        forall i | 0 <= i < k ensures LastOf(ifaces, n, i) <==> LastOf(front, n, i) {
          assert forall j :: i <= j < k ==> front[j] == ifaces[j];
        }
      }
    }
  }

  lemma WantsExactly(d: Desired, n: string)
    ensures n in DesiredNets(d) <==> Wanted(d, n)
    ensures forall mac, network :: Wants(d, n, mac, network) ==>
              n in DesiredNets(d) && DesiredNets(d)[n] == network && n in DesiredMacs(d) && DesiredMacs(d)[n] == mac
  {
    LastAttachment(d.ifaces, n);
    IfaceKeys(d.ifaces);
    hide NetsOf, MacsOf, LastOf;
    if n in DesiredNets(d) {
      if n == "external" {
        assert Wants(d, n, d.external.value.mac, d.external.value.multusNetwork);
      } else {
        var i :| 0 <= i < |d.ifaces| && LastOf(d.ifaces, n, i);
        assert Wants(d, n, d.ifaces[i].mac, d.ifaces[i].vpc);
      }
    }
    forall i | 0 <= i < |d.ifaces| && LastOf(d.ifaces, n, i) ensures n != "external" {
      assert n in NetsOf(d.ifaces);
    }
  }

  // ---------------------------------------------------------------- what there was

  /** The last interface of that name; earlier ones are dropped by every sync. */
  ghost predicate LastIface(items: seq<Item>, n: string, o: Object) {
    exists i :: 0 <= i < |items| && items[i] == Fields(o) && NameOf(o) == n
                && forall j :: i < j < |items| && items[j].Fields? ==> NameOf(items[j].o) != n
  }

  predicate NamesNet(item: Item, n: string) {
    item.Fields? && "pod" !in item.o && NameOf(item.o) == n
  }

  /** The last network of that name that is not a pod network. */
  ghost predicate LastNet(items: seq<Item>, n: string, o: Object) {
    exists i :: 0 <= i < |items| && items[i] == Fields(o) && NamesNet(items[i], n)
                && forall j :: i < j < |items| ==> !NamesNet(items[j], n)
  }

  ghost predicate LastPodNet(items: seq<Item>, o: Object) {
    exists i :: 0 <= i < |items| && items[i] == Fields(o) && "pod" in o
                && forall j :: i < j < |items| && items[j].Fields? ==> "pod" !in items[j].o
  }

  lemma {:induction false} IndexIsLast(items: seq<Item>, n: string, o: Object)
    requires n != "pod"
    ensures (n in IfaceIndex(items) && IfaceIndex(items)[n] == o) <==> LastIface(items, n, o)
  {
    if items != [] {
      var k := |items| - 1;
      var front := items[..k];
      IndexIsLast(front, n, o);
      assert forall j :: 0 <= j < k ==> front[j] == items[j];
      if items[k].Fields? && NameOf(items[k].o) == n {
        LastIsAlone(items, n, o);
      } else {
        LastIsEarlier(items, n, o);
      }
    }
  }

  lemma LastIsAlone(items: seq<Item>, n: string, o: Object)
    requires items != [] && items[|items| - 1].Fields? && NameOf(items[|items| - 1].o) == n
    ensures LastIface(items, n, o) <==> items[|items| - 1].o == o
  {
    hide NameOf;
    assert 0 <= |items| - 1 < |items|;
  }

  lemma LastIsEarlier(items: seq<Item>, n: string, o: Object)
    requires items != [] && !(items[|items| - 1].Fields? && NameOf(items[|items| - 1].o) == n)
    ensures LastIface(items, n, o) <==> LastIface(items[..|items| - 1], n, o)
  {
    hide NameOf;
    var front := items[..|items| - 1];
    assert forall j :: 0 <= j < |front| ==> front[j] == items[j];
    if LastIface(items, n, o) {
      var i :| 0 <= i < |items| && items[i] == Fields(o) && NameOf(o) == n
               && forall j :: i < j < |items| && items[j].Fields? ==> NameOf(items[j].o) != n;
      assert front[i] == Fields(o);
    }
    if LastIface(front, n, o) {
      var i :| 0 <= i < |front| && front[i] == Fields(o) && NameOf(o) == n
               && forall j :: i < j < |front| && front[j].Fields? ==> NameOf(front[j].o) != n;
      assert items[i] == Fields(o);
    }
  }

  lemma PodIsLast(items: seq<Item>, o: Object)
    ensures PodIface(items) == Some(o) <==> LastIface(items, "pod", o)
  {
    PodIsLastOf(items, o);
  }

  lemma {:induction false} PodIsLastOf(items: seq<Item>, o: Object)
    ensures PodIface(items) == Some(o) <==> LastIface(items, "pod", o)
  {
    if items != [] {
      PodIsLastOf(items[..|items| - 1], o);
      if items[|items| - 1].Fields? && NameOf(items[|items| - 1].o) == "pod" {
        LastIsAlone(items, "pod", o);
      } else {
        LastIsEarlier(items, "pod", o);
      }
      hide LastIface;
    }
  }

  lemma {:induction false} NetIsLast(items: seq<Item>, n: string, o: Object)
    ensures (n in NetIndex(items) && NetIndex(items)[n] == o) <==> LastNet(items, n, o)
  {
    hide NameOf;
    if items != [] {
      var k := |items| - 1;
      NetIsLast(items[..k], n, o);
      LastNetOne(items, n, o);
      hide LastNet;
    }
  }

  /** Looking at the last item. */
  lemma LastNetOne(items: seq<Item>, n: string, o: Object)
    requires items != []
    ensures var k := |items| - 1;
            LastNet(items, n, o) <==> if NamesNet(items[k], n) then items[k] == Fields(o) else LastNet(items[..k], n, o)
  {
    var k := |items| - 1;
    var front := items[..k];
    hide NamesNet;
    assert forall j :: 0 <= j < k ==> front[j] == items[j];
    if NamesNet(items[k], n) {
      if LastNet(items, n, o) {
        var i :| 0 <= i < |items| && items[i] == Fields(o) && NamesNet(items[i], n)
                 && forall j :: i < j < |items| ==> !NamesNet(items[j], n);
        assert i == k;
      }
    } else {
      if LastNet(items, n, o) {
        var i :| 0 <= i < |items| && items[i] == Fields(o) && NamesNet(items[i], n)
                 && forall j :: i < j < |items| ==> !NamesNet(items[j], n);
        assert front[i] == Fields(o);
      }
      if LastNet(front, n, o) {
        var i :| 0 <= i < |front| && front[i] == Fields(o) && NamesNet(front[i], n)
                 && forall j :: i < j < |front| ==> !NamesNet(front[j], n);
        assert items[i] == Fields(o);
      }
    }
  }

  lemma {:induction false} PodNetIsLast(items: seq<Item>, o: Object)
    ensures PodNet(items) == Some(o) <==> LastPodNet(items, o)
  {
    if items != [] {
      var k := |items| - 1;
      var front := items[..k];
      PodNetIsLast(front, o);
      assert forall j :: 0 <= j < k ==> front[j] == items[j];
      if items[k].Fields? && "pod" in items[k].o {
        assert LastPodNet(items, items[k].o);
      } else {
        LastPodNetEarlier(items, o);
      }
    }
  }

  lemma LastPodNetEarlier(items: seq<Item>, o: Object)
    requires items != [] && !(items[|items| - 1].Fields? && "pod" in items[|items| - 1].o)
    ensures LastPodNet(items, o) <==> LastPodNet(items[..|items| - 1], o)
  {
    var front := items[..|items| - 1];
    assert forall j :: 0 <= j < |front| ==> front[j] == items[j];
    if LastPodNet(items, o) {
      var i :| 0 <= i < |items| && items[i] == Fields(o) && "pod" in o
               && forall j :: i < j < |items| && items[j].Fields? ==> "pod" !in items[j].o;
      assert front[i] == Fields(o);
    }
    if LastPodNet(front, o) {
      var i :| 0 <= i < |front| && front[i] == Fields(o) && "pod" in o
               && forall j :: i < j < |front| && front[j].Fields? ==> "pod" !in front[j].o;
      assert items[i] == Fields(o);
    }
  }

  // ---------------------------------------------------------------- what there is afterwards

  /** Every field stays but the state, which goes, and the MAC, set when one is given. */
  predicate Kept(was: Object, now: Object, mac: string) {
    && "state" !in now
    && (forall k :: k in was && k != "state" && k != "macAddress" ==> k in now && now[k] == was[k])
    && (forall k :: k in now && k != "macAddress" ==> k in was)
    && (mac != "" ==> "macAddress" in now && now["macAddress"] == Str(mac))
    && (mac == "" ==> ("macAddress" in now <==> "macAddress" in was))
    && (mac == "" && "macAddress" in was ==> now["macAddress"] == was["macAddress"])
  }

  /** A wanted interface: what there was, kept; otherwise exactly name, bridge and MAC. */
  ghost predicate LiveItem(before: seq<Item>, d: Desired, n: string, item: Item) {
    && item.Fields? && NameOf(item.o) == n
    && (forall mac, network :: Wants(d, n, mac, network) ==>
          && (forall was :: LastIface(before, n, was) ==> Kept(was, item.o, mac))
          && ((forall was :: !LastIface(before, n, was)) ==>
                item.o == map["name" := Str(n), "bridge" := Tree, "macAddress" := Str(mac)]))
  }

  /** An interface no longer wanted keeps every other field and turns absent. */
  ghost predicate AbsentItem(before: seq<Item>, n: string, item: Item) {
    && item.Fields? && NameOf(item.o) == n
    && "state" in item.o && item.o["state"] == Str("absent")
    && exists was :: LastIface(before, n, was)
         && (forall k :: k in was && k != "state" ==> k in item.o && item.o[k] == was[k])
         && (forall k :: k in item.o && k != "state" ==> k in was)
  }

  /** A wanted network: the entry there was, otherwise exactly name and Multus network. */
  ghost predicate NetItem(before: seq<Item>, d: Desired, n: string, item: Item) {
    && item.Fields?
    && (forall was :: LastNet(before, n, was) ==> item.o == was)
    && (forall mac, network :: Wants(d, n, mac, network) && (forall was :: !LastNet(before, n, was)) ==>
          item.o == map["name" := Str(n), "multus" := Multus(network)])
  }

  lemma EntryMeans(index: map<string, Object>, n: string, mac: string)
    ensures n in index ==> Kept(index[n], IfaceEntry(index, n, mac), mac)
    ensures n !in index ==> IfaceEntry(index, n, mac) == map["name" := Str(n), "bridge" := Tree, "macAddress" := Str(mac)]
  {
  }

  lemma LiveItems(v: Lists2, d: Desired, n: string, mac: string)
    requires n in DesiredMacs(d) && mac == DesiredMacs(d)[n]
    ensures LiveItem(v.interfaces, d, n, Fields(IfaceEntry(IfaceIndex(v.interfaces), n, mac)))
  {
    var index := IfaceIndex(v.interfaces);
    DesiredKeys(d);
    WantsExactly(d, n);
    IfaceIndexed(v.interfaces, n);
    EntryNames(index, n, mac);
    hide Wants, NameOf, DesiredNets, DesiredMacs, IfaceIndex;
    forall was ensures (n in index && index[n] == was) <==> LastIface(v.interfaces, n, was) {
      IndexIsLast(v.interfaces, n, was);
    }
    EntryMeans(index, n, mac);
    hide LastIface, Kept, IfaceEntry;
    if n in index {
      assert LastIface(v.interfaces, n, index[n]);
    }
  }

  lemma AbsentItemsMean(v: Lists2, n: string)
    requires n in IfaceIndex(v.interfaces)
    ensures AbsentItem(v.interfaces, n, Fields(AbsentEntry(IfaceIndex(v.interfaces)[n])))
  {
    var index := IfaceIndex(v.interfaces);
    IfaceIndexed(v.interfaces, n);
    IndexIsLast(v.interfaces, n, index[n]);
    EntryNames(index, n, "");
    hide IfaceIndex, LastIface, NameOf;
  }

  lemma NetItems(v: Lists2, d: Desired, n: string)
    requires n in DesiredNets(d)
    ensures NetItem(v.networks, d, n, Fields(NetEntry(NetIndex(v.networks), n, DesiredNets(d)[n])))
  {
    var nets := NetIndex(v.networks);
    WantsExactly(d, n);
    hide Wants, NameOf, DesiredNets, DesiredMacs, NetIndex;
    forall was ensures (n in nets && nets[n] == was) <==> LastNet(v.networks, n, was) {
      NetIsLast(v.networks, n, was);
    }
    hide LastNet;
    if n in nets {
      assert LastNet(v.networks, n, nets[n]);
    }
  }

  ghost predicate PodFirst(before: Lists2, iface: Item, net: Item) {
    && iface.Fields? && net.Fields?
    && (forall was :: LastIface(before.interfaces, "pod", was) ==> iface.o == was)
    && ((forall was :: !LastIface(before.interfaces, "pod", was)) ==> iface.o == map["name" := Str("pod"), "masquerade" := Tree])
    && (forall was :: LastPodNet(before.networks, was) ==> net.o == was)
    && ((forall was :: !LastPodNet(before.networks, was)) ==> net.o == map["name" := Str("pod"), "pod" := Tree])
  }

  lemma PodsFirst(v: Lists2)
    ensures PodFirst(v, Fields(FirstIface(v)), Fields(FirstNet(v)))
  {
    forall was ensures PodIface(v.interfaces) == Some(was) <==> LastIface(v.interfaces, "pod", was) {
      PodIsLast(v.interfaces, was);
    }
    forall was ensures PodNet(v.networks) == Some(was) <==> LastPodNet(v.networks, was) {
      PodNetIsLast(v.networks, was);
    }
    hide LastIface, LastPodNet, PodIface, PodNet;
    if PodIface(v.interfaces).Some? {
      assert LastIface(v.interfaces, "pod", PodIface(v.interfaces).value);
    }
    if PodNet(v.networks).Some? {
      assert LastPodNet(v.networks, PodNet(v.networks).value);
    }
  }

  ghost function KeptNames(nets: map<string, Object>, names: seq<string>): seq<string> {
    if names == [] then []
    else KeptNames(nets, names[..|names| - 1]) + (if names[|names| - 1] in nets then [names[|names| - 1]] else [])
  }

  lemma {:induction false} KeptNamed(nets: map<string, Object>, names: seq<string>)
    requires Ascending(names)
    ensures var kept := KeptNames(nets, names);
            && Ascending(kept) && |KeptNetItems(nets, names)| == |kept|
            && (forall n :: n in kept <==> n in names && n in nets)
            && (forall i :: 0 <= i < |kept| ==> kept[i] in nets && KeptNetItems(nets, names)[i] == Fields(nets[kept[i]]))
  {
    hide StrLess;
    if names != [] {
      var front, last := names[..|names| - 1], names[|names| - 1];
      KeptNamed(nets, front);
      assert names == front + [last];
      forall i | 0 <= i < |KeptNames(nets, front)| ensures StrLess(KeptNames(nets, front)[i], last) {
        assert KeptNames(nets, front)[i] in front;
      }
    }
  }

  ghost predicate HasIface(items: seq<Item>, n: string) {
    n != "pod" && exists was :: LastIface(items, n, was)
  }

  ghost predicate HasNet(items: seq<Item>, n: string) {
    exists was :: LastNet(items, n, was)
  }

  lemma IndexedHas(v: Lists2, n: string)
    ensures n in IfaceIndex(v.interfaces) <==> HasIface(v.interfaces, n)
    ensures n in NetIndex(v.networks) <==> HasNet(v.networks, n)
  {
    IfaceIndexed(v.interfaces, n);
    hide LastIface, LastNet, IfaceIndex, NetIndex, NameOf;
    if n != "pod" {
      forall was ensures (n in IfaceIndex(v.interfaces) && IfaceIndex(v.interfaces)[n] == was) <==> LastIface(v.interfaces, n, was) {
        IndexIsLast(v.interfaces, n, was);
      }
      if n in IfaceIndex(v.interfaces) {
        assert LastIface(v.interfaces, n, IfaceIndex(v.interfaces)[n]);
      }
    }
    forall was ensures (n in NetIndex(v.networks) && NetIndex(v.networks)[n] == was) <==> LastNet(v.networks, n, was) {
      NetIsLast(v.networks, n, was);
    }
    if n in NetIndex(v.networks) {
      assert LastNet(v.networks, n, NetIndex(v.networks)[n]);
    }
  }

  lemma NamesMean(v: Lists2, d: Desired, live: seq<string>, gone: seq<string>, kept: seq<string>)
    requires forall n :: n in live <==> n in DesiredNets(d)
    requires forall n :: n in gone <==> n in IfaceIndex(v.interfaces).Keys - DesiredNets(d).Keys
    requires forall n :: n in kept <==> n in gone && n in NetIndex(v.networks)
    ensures forall n :: n in live <==> Wanted(d, n)
    ensures forall n :: n in gone <==> HasIface(v.interfaces, n) && !Wanted(d, n)
    ensures forall n :: n in kept <==> n in gone && HasNet(v.networks, n)
  {
    hide DesiredNets, IfaceIndex, NetIndex, Wanted, HasIface, HasNet;
    forall n
      ensures n in DesiredNets(d) <==> Wanted(d, n)
      ensures n in IfaceIndex(v.interfaces) <==> HasIface(v.interfaces, n)
      ensures n in NetIndex(v.networks) <==> HasNet(v.networks, n)
    {
      WantsExactly(d, n);
      IndexedHas(v, n);
    }
  }

  /** The interface list: wanted entries in the order of `live`, then absent ones in that of `gone`. */
  ghost predicate IfacesMean(v: Lists2, d: Desired, live: seq<string>, gone: seq<string>, ifaces: seq<Item>) {
    && |ifaces| == 1 + |live| + |gone|
    && (forall i :: 0 <= i < |live| ==> LiveItem(v.interfaces, d, live[i], ifaces[1 + i]))
    && (forall i :: 0 <= i < |gone| ==> AbsentItem(v.interfaces, gone[i], ifaces[1 + |live| + i]))
  }

  /** The network list: wanted entries, then those of `kept` as they were. */
  ghost predicate NetsMean(v: Lists2, d: Desired, live: seq<string>, kept: seq<string>, nets: seq<Item>) {
    && |nets| == 1 + |live| + |kept|
    && (forall i :: 0 <= i < |live| ==> NetItem(v.networks, d, live[i], nets[1 + i]))
    && (forall i :: 0 <= i < |kept| ==> KeptNet(v, kept[i], nets[1 + |live| + i]))
  }

  ghost predicate KeptNet(v: Lists2, n: string, item: Item) {
    item.Fields? && LastNet(v.networks, n, item.o)
  }

  lemma IfacesHold(v: Lists2, d: Desired, live: seq<string>, gone: seq<string>, first: Item, after: seq<Item>)
    requires forall n :: n in live ==> n in DesiredMacs(d)
    requires forall n :: n in gone ==> n in IfaceIndex(v.interfaces)
    requires after == [first] + DesiredIfaceItems(IfaceIndex(v.interfaces), DesiredMacs(d), live)
                      + AbsentItems(IfaceIndex(v.interfaces), gone)
    ensures IfacesMean(v, d, live, gone, after)
  {
    hide DesiredMacs, IfaceIndex, LiveItem, AbsentItem, IfaceEntry, AbsentEntry;
    forall i | 0 <= i < |live| ensures LiveItem(v.interfaces, d, live[i], after[1 + i]) {
      assert live[i] in live;
      LiveItems(v, d, live[i], DesiredMacs(d)[live[i]]);
    }
    forall i | 0 <= i < |gone| ensures AbsentItem(v.interfaces, gone[i], after[1 + |live| + i]) {
      assert gone[i] in gone;
      AbsentItemsMean(v, gone[i]);
    }
  }

  lemma NetsHold(v: Lists2, d: Desired, live: seq<string>, kept: seq<string>, keptItems: seq<Item>, first: Item, after: seq<Item>)
    requires forall n :: n in live ==> n in DesiredNets(d)
    requires |keptItems| == |kept|
    requires forall i :: 0 <= i < |kept| ==> kept[i] in NetIndex(v.networks) && keptItems[i] == Fields(NetIndex(v.networks)[kept[i]])
    requires after == [first] + DesiredNetItems(NetIndex(v.networks), DesiredNets(d), live) + keptItems
    ensures NetsMean(v, d, live, kept, after)
  {
    hide DesiredNets, NetIndex, NetItem, NetEntry, LastNet;
    forall i | 0 <= i < |live| ensures NetItem(v.networks, d, live[i], after[1 + i]) {
      assert live[i] in live;
      NetItems(v, d, live[i]);
    }
    forall i | 0 <= i < |kept| ensures KeptNet(v, kept[i], after[1 + |live| + i]) {
      NetIsLast(v.networks, kept[i], NetIndex(v.networks)[kept[i]]);
    }
  }

  /**
   * Both lists afterwards, position by position: the pod first, then the wanted names
   * in ascending order, then in ascending order the interfaces no longer wanted, with
   * those of their networks that are there, unchanged.
   */
  lemma EntriesExactly(v: Lists2, d: Desired) returns (live: seq<string>, gone: seq<string>, kept: seq<string>)
    ensures Ascending(live) && Ascending(gone) && Ascending(kept)
    ensures forall n :: n in live <==> Wanted(d, n)
    ensures forall n :: n in gone <==> HasIface(v.interfaces, n) && !Wanted(d, n)
    ensures forall n :: n in kept <==> n in gone && HasNet(v.networks, n)
    ensures IfacesMean(v, d, live, gone, Synced(v, d).interfaces)
    ensures NetsMean(v, d, live, kept, Synced(v, d).networks)
    ensures PodFirst(v, Synced(v, d).interfaces[0], Synced(v, d).networks[0])
  {
    DesiredKeys(d);
    var nets, index := NetIndex(v.networks), IfaceIndex(v.interfaces);
    var desired, macs := DesiredNets(d), DesiredMacs(d);
    live, gone := SortedNames(desired.Keys), SortedNames(index.Keys - desired.Keys);
    ListedNames(live, desired.Keys);
    ListedNames(gone, index.Keys - desired.Keys);
    kept := KeptNames(nets, gone);
    KeptNamed(nets, gone);
    PodsFirst(v);
    hide Ascending, SortedNames, DesiredNets, DesiredMacs, IfaceIndex, NetIndex, PodIface, PodNet, KeptNames, KeptNetItems,
         DesiredIfaceItems, DesiredNetItems, AbsentItems, PodFirst, Wanted, HasIface, HasNet, IfacesMean, NetsMean;
    NamesMean(v, d, live, gone, kept);
    IfacesHold(v, d, live, gone, Fields(FirstIface(v)), Synced(v, d).interfaces);
    NetsHold(v, d, live, kept, KeptNetItems(nets, gone), Fields(FirstNet(v)), Synced(v, d).networks);
  }

  // ---------------------------------------------------------------- names and annotations

  predicate Plain(s: string) {
    s != "" && |s| <= 20 && forall c :: c in s ==> 'a' <= c <= 'z' || '0' <= c <= '9'
  }

  /** Plain VPC names keep their own interface names, so two of them never meet. */
  lemma PlainNames(vpc: string)
    requires Plain(vpc)
    ensures MultusIfaceName(vpc) == "m" + vpc
  {
    forall c | c in vpc ensures !GoSpace(c) && LowerChar(c) == c && c != '-' {
    }
    assert vpc[0] in vpc && vpc[|vpc| - 1] in vpc;
    TrimOfTrimmed(vpc, GoSpace);
    assert ToLower(vpc) == vpc by {
      forall i | 0 <= i < |vpc| ensures ToLower(vpc)[i] == vpc[i] {
        assert vpc[i] in vpc;
      }
    }
    NoDashesLeft(vpc);
    hide NoDashes, ToLower, Trim;
  }

  lemma {:induction false} NoDashesLeft(s: string)
    requires '-' !in s
    ensures NoDashes(s) == s
  {
    if s != "" {
      NoDashesLeft(s[1..]);
      assert s == [s[0]] + s[1..];
    }
  }

  /**
   * The address annotation lists gateway and prefix of each attachment in order, then
   * the external address, between commas. It is untouched when there is none of them;
   * every other annotation always is. The template's annotations are the same.
   */
  lemma AnnotationExactly(s: Snapshot, d: Desired) returns (parts: seq<string>)
    ensures |parts| == |d.ifaces| + (if d.external.Some? then 1 else 0)
    ensures forall i :: 0 <= i < |d.ifaces| ==> parts[i] == d.ifaces[i].gateway + "/" + Decimal(d.ifaces[i].prefix)
    ensures d.external.Some? ==> parts[|d.ifaces|] == d.external.value.primaryCidr
    ensures var before := if s.annotations.Some? then s.annotations.value else map[];
            var after := SyncedSnapshot(s, d).annotations;
            && after.Some? && SyncedSnapshot(s, d).templateAnnotations == after
            && (parts == [] ==> after.value == before)
            && (parts != [] ==> "kmc.ianunruh.com/ipv4" in after.value
                                && after.value["kmc.ianunruh.com/ipv4"] == Join(parts, ','))
            && (parts != [] && (forall p :: p in parts ==> ',' !in p) ==>
                  Split(after.value["kmc.ianunruh.com/ipv4"], ',') == parts)
            && (forall k :: k != "kmc.ianunruh.com/ipv4" ==>
                  (k in after.value <==> k in before) && (k in before ==> after.value[k] == before[k]))
  {
    parts := Ipv4Parts(d);
    if parts != [] && forall p :: p in parts ==> ',' !in p {
      SplitJoin(parts, ',');
    }
    hide Synced, Join, Split, Decimal;
  }
}
