// `deleteOwnedIPAddress` as written, while others change the store between its
// requests as they like. What it asks depends on what it was shown; what that does to
// the store is said for the case that nobody else touches it, and `FloatingIPOutside`
// shows the run in which somebody does.
module FloatingIPDelete {
  import opened Text
  import opened IPv4
  import opened Claims
  import opened ClaimAllocator
  import opened FloatingIPs
  import opened FloatingIPRuns

  /** A request with what it was told; a list shows the claims of one namespace. */
  datatype Talk = Looked(key: Key, reply: Reply) | Listed(items: Option<Store>) | Removed(key: Key, ok: bool)

  /** Requests may fail, but nobody else writes. */
  predicate Still(weather: seq<Weather>) {
    forall i :: 0 <= i < |weather| ==> !weather[i].Rewritten?
  }

  class ClaimApi {
    var store: Store
    var weather: seq<Weather>
    ghost var log: seq<Talk>

    method Turn() returns (fault: Fault)
      modifies this`store, this`weather
      ensures Still(old(weather)) ==> Still(weather) && store == old(store)
    {
      fault := NoFault;
      if weather != [] {
        match weather[0] {
          case Calm =>
          case Rewritten(others) => store := others;
          case Faulty(f) => fault := f;
        }
        weather := weather[1..];
      }
    }

    method Fetch(key: Key) returns (reply: Reply)
      modifies this
      ensures log == old(log) + [Looked(key, reply)] && (reply.Hit? || reply.NotFound? || reply.Failed?)
      ensures Still(old(weather)) ==> Still(weather) && store == old(store)
      ensures Still(old(weather)) && !reply.Failed? ==> reply == Served(store, Get(key)).1
    {
      var fault := Turn();
      reply := Serve(store, Get(key), fault).1;
      log := log + [Looked(key, reply)];
    }

    /** The claims of a namespace, in an order of the server's choosing. */
    method ListNamespace(namespace: string) returns (ok: bool, keys: seq<Key>, items: Store)
      modifies this
      ensures log == old(log) + [Listed(if ok then Some(items) else None)]
      ensures (forall k :: k in items ==> k.namespace == namespace) && Lists(keys, items)
      ensures Still(old(weather)) ==> Still(weather) && store == old(store)
      ensures Still(old(weather)) && ok ==> items == map k | k in store && k.namespace == namespace :: store[k]
    {
      var fault := Turn();
      ok, keys := fault == NoFault, [];
      items := map k | k in store && k.namespace == namespace :: store[k];
      var rest := items.Keys;
      while rest != {}
        invariant rest <= items.Keys
        invariant forall k :: k in keys <==> k in items && k !in rest
        invariant forall i, j :: 0 <= i < j < |keys| ==> keys[i] != keys[j]
        decreases rest
      {
        var k :| k in rest;
        rest := rest - {k};
        keys := keys + [k];
      }
      log := log + [Listed(if ok then Some(items) else None)];
    }

    /** A missing object is not an error here: the caller ignores it. */
    method Delete(key: Key) returns (ok: bool)
      modifies this
      ensures log == old(log) + [Removed(key, ok)]
      ensures Still(old(weather)) ==> Still(weather) && (store == old(store) || store == old(store) - {key})
      ensures Still(old(weather)) && ok ==> store == old(store) - {key}
    {
      var fault := Turn();
      if fault != RequestLost {
        store := store - {key};
      }
      ok := fault == NoFault;
      log := log + [Removed(key, ok)];
    }
  }

  /** Every key once. */
  ghost predicate Lists(keys: seq<Key>, items: Store) {
    (forall k :: k in keys <==> k in items) && forall i, j :: 0 <= i < j < |keys| ==> keys[i] != keys[j]
  }

  /**
   * The claims a release is about: that of the recorded address, with none recorded
   * that of the wanted one, with neither every claim.
   */
  predicate Concerned(o: Owner, view: View, k: Key) {
    if TrimSpace(view.status.address) != "" then k == Key(o.namespace, AddressObjectName(TrimSpace(view.status.address)))
    else TrimSpace(view.spec.address) != "" ==> k == Key(o.namespace, AddressObjectName(TrimSpace(view.spec.address)))
  }

  /** What is left once o's address is released: everything but o's own claims it is about. */
  function Released(store: Store, o: Owner, view: View): Store {
    map k | k in store && !(Concerned(o, view, k) && Holds(store, o, k)) :: store[k]
  }

  lemma StartIsConcerned(o: Owner, view: View)
    ensures match DeleteStart(o, view)
            case Looking(key) => key.namespace == o.namespace && forall k :: Concerned(o, view, k) <==> k == key
            case Listing => forall k :: Concerned(o, view, k)
            case _ => false
  {
    hide TrimSpace, AddressObjectName;
  }

  /** Only o's own claims are missing. */
  ghost predicate OnlyOwnGone(before: Store, after: Store, o: Owner) {
    && (forall k :: k in after ==> k in before && after[k] == before[k])
    && (forall k :: k in before && k !in after ==> Holds(before, o, k))
  }

  /** One look at the claim, and its deletion when it was o's; success unless a request fails. */
  predicate LooksAndDeletes(o: Owner, key: Key, said: seq<Talk>, ok: bool) {
    && said != [] && said[0].Looked? && said[0].key == key
    && var reply := said[0].reply;
       if reply.Hit? && IsClaimedBy(reply.claim, o) then said == [Looked(key, reply), Removed(key, ok)]
       else said == [Looked(key, reply)] && (ok <==> !reply.Failed?)
  }

  /** Each listed claim of o is deleted once, until a deletion fails. */
  predicate Sweeps(o: Owner, items: Store, said: seq<Talk>, ok: bool) {
    && (forall i :: 0 <= i < |said| ==> said[i].Removed? && said[i].key in Mine(items, o))
    && (forall i, j :: 0 <= i < j < |said| ==> said[i].key != said[j].key && said[i].ok)
    && if ok then (forall k :: k in Mine(items, o) ==> Removed(k, true) in said) && (said != [] ==> said[|said| - 1].ok)
       else said != [] && !said[|said| - 1].ok
  }

  predicate ListsAndDeletes(o: Owner, said: seq<Talk>, ok: bool) {
    && said != [] && said[0].Listed?
    && match said[0].items
       case None => |said| == 1 && !ok
       case Some(items) => Sweeps(o, items, said[1..], ok)
  }

  /** The requests a release makes, given what it is told, and whether it succeeds. */
  predicate Releases(o: Owner, view: View, said: seq<Talk>, ok: bool) {
    match DeleteStart(o, view)
    case Looking(key) => LooksAndDeletes(o, key, said, ok)
    case _ => ListsAndDeletes(o, said, ok)
  }

  /** A deletion is only ever asked for of a claim that was shown to be o's. */
  lemma ReleasesShownOnly(o: Owner, view: View, said: seq<Talk>, ok: bool, i: nat)
    requires Releases(o, view, said, ok) && i < |said| && said[i].Removed?
    ensures 0 < i
    ensures match said[0]
            case Looked(key, reply) => said[i].key == key && reply.Hit? && IsClaimedBy(reply.claim, o)
            case Listed(items) => items.Some? && said[i].key in Mine(items.value, o)
            case _ => false
    ensures Concerned(o, view, said[i].key)
  {
    StartIsConcerned(o, view);
    hide IsClaimedBy, DeleteStart, Concerned;
    if said[0].Listed? {
      assert said[i] == said[1..][i - 1];
    }
  }

  method DeleteOwnedIPAddress(api: ClaimApi, o: Owner, view: View) returns (ok: bool, ghost said: seq<Talk>)
    modifies api
    ensures api.log == old(api.log) + said && Releases(o, view, said, ok)
    ensures Still(old(api.weather)) ==> OnlyOwnGone(old(api.store), api.store, o)
    ensures Still(old(api.weather)) && ok ==> api.store == Released(old(api.store), o, view)
  {
    StartIsConcerned(o, view);
    hide TrimSpace, IsClaimedBy, Still, AddressObjectName, Concerned;
    var addr := view.Recorded();
    if addr == "" {
      addr := TrimSpace(view.spec.address);
    }
    if addr == "" {
      ok, said := DeleteClaimed(api, o);
      return;
    }
    var key := FloatingIPs.KeyOf(o, addr);
    var reply := api.Fetch(key);
    said := [Looked(key, reply)];
    if !reply.Hit? {
      ok := reply.NotFound?;
      return;
    }
    if !IsClaimedBy(reply.claim, o) {
      ok := true;
      return;
    }
    ok := api.Delete(key);
    said := said + [Removed(key, ok)];
  }

  /** The sweep so far: the first i keys are done, each deletion has succeeded. */
  ghost predicate SweptTo(o: Owner, items: Store, keys: seq<Key>, i: nat, removals: seq<Talk>)
    requires i <= |keys|
  {
    && (forall j :: 0 <= j < |removals| ==> removals[j].Removed? && removals[j].ok && removals[j].key in Mine(items, o))
    && (forall j, k :: 0 <= j < k < |removals| ==> removals[j].key != removals[k].key)
    && (forall j :: 0 <= j < |removals| ==> removals[j].key in keys[..i])
    && (forall j :: 0 <= j < i && keys[j] in Mine(items, o) ==> Removed(keys[j], true) in removals)
  }

  lemma SweptMore(o: Owner, items: Store, keys: seq<Key>, i: nat, removals: seq<Talk>)
    requires Lists(keys, items) && i < |keys| && SweptTo(o, items, keys, i, removals)
    ensures keys[i] !in Mine(items, o) ==> SweptTo(o, items, keys, i + 1, removals)
    ensures keys[i] in Mine(items, o) ==> SweptTo(o, items, keys, i + 1, removals + [Removed(keys[i], true)])
    ensures keys[i] in Mine(items, o) ==> Sweeps(o, items, removals + [Removed(keys[i], false)], false)
  {
    hide Mine;
    assert keys[..i + 1] == keys[..i] + [keys[i]];
  }

  lemma SweptAll(o: Owner, items: Store, keys: seq<Key>, removals: seq<Talk>)
    requires Lists(keys, items) && SweptTo(o, items, keys, |keys|, removals)
    ensures Sweeps(o, items, removals, true)
  {
    hide IsClaimedBy;
    forall k | k in Mine(items, o) ensures Removed(k, true) in removals {
      var j: int :| 0 <= j < |keys| && keys[j] == k;
    }
  }

  /** With nobody else writing, the first i keys hold no claim of o any more. */
  ghost predicate GoneTo(before: Store, after: Store, o: Owner, keys: seq<Key>, i: nat)
    requires i <= |keys|
  {
    OnlyOwnGone(before, after, o) && forall j :: 0 <= j < i ==> keys[j] !in after || !Holds(before, o, keys[j])
  }

  lemma GoneMore(before: Store, after: Store, o: Owner, keys: seq<Key>, i: nat)
    requires i < |keys| && GoneTo(before, after, o, keys, i)
    ensures Holds(before, o, keys[i]) ==>
              GoneTo(before, after - {keys[i]}, o, keys, i + 1) && OnlyOwnGone(before, after - {keys[i]}, o)
    ensures !Holds(before, o, keys[i]) ==> GoneTo(before, after, o, keys, i + 1)
  {
    hide Holds;
  }

  lemma AllGone(before: Store, after: Store, o: Owner, keys: seq<Key>)
    requires GoneTo(before, after, o, keys, |keys|) && forall k :: k in before && k.namespace == o.namespace ==> k in keys
    ensures after == map k | k in before && !Holds(before, o, k) :: before[k]
  {
    hide IsClaimedBy;
    forall k | k in before && Holds(before, o, k) ensures k !in after {
      assert k in keys;
    }
  }

  /** The fallback when no address is known: every claim of o in its namespace. */
  method DeleteClaimed(api: ClaimApi, o: Owner) returns (ok: bool, ghost said: seq<Talk>)
    modifies api
    ensures api.log == old(api.log) + said && ListsAndDeletes(o, said, ok)
    ensures Still(old(api.weather)) ==> OnlyOwnGone(old(api.store), api.store, o)
    ensures Still(old(api.weather)) && ok ==>
              api.store == map k | k in old(api.store) && !Holds(old(api.store), o, k) :: old(api.store)[k]
  {
    hide IsClaimedBy, Still, Sweeps, SweptTo;
    ghost var before, log, still := api.store, api.log, Still(api.weather);
    var keys, items;
    ok, keys, items := api.ListNamespace(o.namespace);
    ghost var removals: seq<Talk> := [];
    ghost var shown := [Listed(if ok then Some(items) else None)];
    said := shown;
    if !ok { return; }
    assert SweptTo(o, items, keys, 0, []) by { NothingSwept(o, items, keys); }
    hide GoneTo, OnlyOwnGone, Mine;
    assert still ==> GoneTo(before, api.store, o, keys, 0) by { NothingGone(before, o, keys); }
    for i := 0 to |keys|
      invariant ok && api.log == log + shown + removals && SweptTo(o, items, keys, i, removals)
      invariant still ==> Still(api.weather) && GoneTo(before, api.store, o, keys, i)
    {
      SweptMore(o, items, keys, i, removals);
      if still {
        GoneMore(before, api.store, o, keys, i);
        GoneIsOwn(before, api.store, o, keys, i);
      }
      IsMine(items, o, keys[i]);
      if IsClaimedBy(items[keys[i]], o) {
        ok := api.Delete(keys[i]);
        removals := removals + [Removed(keys[i], ok)];
        said := shown + removals;
        if !ok {
          assert said[1..] == removals;
          return;
        }
      }
    }
    said := shown + removals;
    assert said[1..] == removals;
    SweptAll(o, items, keys, removals);
    if still {
      GoneIsOwn(before, api.store, o, keys, |keys|);
      AllGone(before, api.store, o, keys);
    }
  }

  lemma NothingSwept(o: Owner, items: Store, keys: seq<Key>)
    ensures SweptTo(o, items, keys, 0, [])
  {
  }

  lemma NothingGone(before: Store, o: Owner, keys: seq<Key>)
    ensures GoneTo(before, before, o, keys, 0)
  {
  }

  lemma GoneIsOwn(before: Store, after: Store, o: Owner, keys: seq<Key>, i: nat)
    requires i <= |keys| && GoneTo(before, after, o, keys, i)
    ensures OnlyOwnGone(before, after, o)
  {
    hide OnlyOwnGone;
  }

  lemma IsMine(items: Store, o: Owner, key: Key)
    requires key in items && key.namespace == o.namespace
    ensures key in Mine(items, o) <==> IsClaimedBy(items[key], o)
    ensures Holds(items, o, key) <==> IsClaimedBy(items[key], o)
  {
    hide IsClaimedBy;
  }

  /**
   * Releasing takes nothing from another parent, and leaves o no claim it is about: none
   * under the recorded address, with none recorded none under the wanted one, with
   * neither none at all.
   */
  lemma ReleasedSparesOthers(c: Cluster, store: Store, o: Owner, view: View, p: Owner)
    requires c.Valid() && StoreInv(c, store) && o in c.owners && p in c.owners && p != o
    ensures forall k :: Holds(store, p, k) ==> Holds(Released(store, o, view), p, k)
    ensures TrimSpace(view.status.address) != "" ==>
              !Holds(Released(store, o, view), o, Key(o.namespace, AddressObjectName(TrimSpace(view.status.address))))
    ensures TrimSpace(view.status.address) == "" && TrimSpace(view.spec.address) != "" ==>
              !Holds(Released(store, o, view), o, Key(o.namespace, AddressObjectName(TrimSpace(view.spec.address))))
    ensures TrimSpace(view.status.address) == "" && TrimSpace(view.spec.address) == "" ==>
              forall k :: !Holds(Released(store, o, view), o, k)
    ensures forall k :: Holds(store, o, k) && !Concerned(o, view, k) ==> Holds(Released(store, o, view), o, k)
  {
    hide IsClaimedBy, StoreInv, TrimSpace, AddressObjectName;
    forall k | Holds(store, p, k) ensures Holds(Released(store, o, view), p, k) {
      if Holds(store, o, k) {
        OneHolder(c, store, k, o, p);
      }
    }
  }
}
