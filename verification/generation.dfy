// The policy generation over whole runs. A reconciler renders the policy and writes
// it to a ConfigMap; the in-guest agent writes annotations to the same object. Every
// write bumps the resource version, reads may be stale, and stale writes conflict.
//
// The intent: list order and heartbeats can never race the generation upward.
module Generation {
  import opened Text
  import opened SliceSort
  import opened PolicyDocs
  import opened PolicyRender
  import opened PolicyOrder

  // ---------------------------------------------------------------- next generation

  const MAX_INT64: int := 0x7fff_ffff_ffff_ffff

  /** Go `int64` addition of one. */
  function PlusOneInt64(g: int): int {
    if g == MAX_INT64 then -MAX_INT64 - 1 else g + 1
  }

  function NextGenerationOf(prev: Option<Doc>, nextGen: int, equal: bool): (g: int)
    ensures g >= 1
  {
    match prev
    case None => if nextGen > 0 then nextGen else 1
    case Some(p) =>
      if equal then (if p.generation < 1 then 1 else p.generation)
      else (if PlusOneInt64(p.generation) < 1 then 1 else PlusOneInt64(p.generation))
  }

  /** The comparison's answer for given sorted copies of both documents. */
  predicate Agree(p: Doc, d: Doc) {
    p.(generation := 0) == d.(generation := 0)
  }

  /** The generation a render starts from: the stored one, else the one in status. */
  function StartGeneration(prev: Option<Doc>, statusGen: int): int {
    if prev.Some? && prev.value.generation > 0 then prev.value.generation else statusGen
  }

  /**
   * `text` is what one reconcile may store: render the inputs `x`, compare with the
   * stored document, pick the generation, sort and marshal.
   */
  ghost predicate Stores(x: Inputs, stored: PolicyText, statusGen: int, text: PolicyText) {
    exists d, p, n, e :: StoresVia(x, ParsedDoc(stored), statusGen, text, d, p, n, e)
  }

  /** d rendered; p and n the stored and rendered documents as compared; e as written. */
  ghost predicate StoresVia(x: Inputs, prev: Option<Doc>, statusGen: int, text: PolicyText,
                            d: Doc, p: Doc, n: Doc, e: Doc) {
    && Renders(x, StartGeneration(prev, statusGen), d)
    && (if prev.Some? then SortedCopy(prev.value, p) && SortedCopy(d, n) else n == d)
    && SortedCopy(n.(generation := NextGenerationOf(prev, n.generation, prev.Some? && Agree(p, n))), e)
    && text == Json(WireOf(e))
  }

  /** The generation a rendered document is given when its own is not positive. */
  function Positive(g: int): int {
    if g <= 0 then 1 else g
  }

  /** With one fixed sort, what a reconcile stores is a function of what it read. */
  ghost function StoresBy(rank: Ranking, x: Inputs, stored: PolicyText, statusGen: int): PolicyText
    requires IsComparisonSort(rank)
  {
    Json(WireOf(WrittenBy(rank, x, ParsedDoc(stored), statusGen)))
  }

  ghost function WrittenBy(rank: Ranking, x: Inputs, prev: Option<Doc>, statusGen: int): Doc
    requires IsComparisonSort(rank)
  {
    var d := SortedBy(rank, Unsorted(x, StartGeneration(prev, statusGen)));
    match prev
    case None => SortedBy(rank, d.(generation := NextGenerationOf(None, d.generation, false)))
    case Some(p) =>
      var n := SortedBy(rank, d);
      SortedBy(rank, n.(generation := NextGenerationOf(prev, n.generation, Agree(SortedBy(rank, p), n))))
  }

  lemma StoresByStores(rank: Ranking, x: Inputs, stored: PolicyText, statusGen: int)
    requires IsComparisonSort(rank)
    ensures Stores(x, stored, statusGen, StoresBy(rank, x, stored, statusGen))
  {
    var prev := ParsedDoc(stored);
    var u := Unsorted(x, StartGeneration(prev, statusGen));
    hide SortedBy, IsComparisonSort, Unsorted, SortedCopy, WireOf, Agree;
    var d := SortedBy(rank, u);
    SortedByIsCopy(rank, u);
    SortedByIsCopy(rank, d);
    var n := if prev.Some? then SortedBy(rank, d) else d;
    var p := if prev.Some? then SortedBy(rank, prev.value) else d;
    if prev.Some? {
      SortedByIsCopy(rank, prev.value);
    }
    var m := n.(generation := NextGenerationOf(prev, n.generation, prev.Some? && Agree(p, n)));
    SortedByIsCopy(rank, m);
    assert StoresVia(x, prev, statusGen, StoresBy(rank, x, stored, statusGen), d, p, n, SortedBy(rank, m));
  }

  /** `nextPolicyGeneration`. The comparison leaves both documents' lists sorted. */
  method NextPolicyGeneration(prev: PolicyDoc?, next: PolicyDoc?) returns (g: int, ghost equal: bool)
    modifies if prev == null then {} else prev.Lists(), if next == null then {} else next.Lists() + {next as object?}
    ensures g == NextGenerationOf(if prev == null then None else Some(old(prev.View())),
                                  if next == null then 0 else Positive(old(next.generation)), equal)
    ensures next == null && prev != null ==> prev.View() == old(prev.View()) && !equal
    ensures next != null && prev == null ==> next.View() == old(next.View()).(generation := Positive(old(next.generation)))
    ensures next != null ==> next.leases == old(next.leases) && next.floatingIPs == old(next.floatingIPs) && next.portForwards == old(next.portForwards)
    ensures next != null && prev != null ==>
              && SortedCopy(if prev == next then old(prev.View()).(generation := Positive(old(prev.generation))) else old(prev.View()), prev.View())
              && SortedCopy(old(next.View()).(generation := Positive(old(next.generation))), next.View())
              && equal == Agree(prev.View(), next.View())
  {
    hide SortedCopy, IsSortOf, KeysDetermine, Desired;
    if next != null && next.generation <= 0 {
      next.generation := 1;
    }
    if prev == null {
      return if next != null && next.generation > 0 then next.generation else 1, false;
    }
    var same := PolicyEqualDesired(prev, next);
    equal := same;
    if same {
      g := prev.generation;
      if g < 1 {
        g := 1;
      }
      return;
    }
    g := PlusOneInt64(prev.generation);
    if g < 1 {
      g := 1;
    }
  }

  /** The policy part of one reconcile: what it will try to store, from what it read. */
  method RenderPolicy(x: Inputs, stored: PolicyText, statusGen: int) returns (text: PolicyText)
    ensures Stores(x, stored, statusGen, text)
  {
    hide SortedCopy, IsSortOf, KeysDetermine, Desired, Renders;
    var prevGen := statusGen;
    var prevDoc, ok := ParsePolicyDoc(stored);
    if prevDoc != null && prevDoc.generation > 0 {
      prevGen := prevDoc.generation;
    }
    ghost var prev := ParsedDoc(stored);
    assert prevGen == StartGeneration(prev, statusGen);
    var doc := BuildPolicyDoc(x, prevGen);
    ghost var d := doc.View();
    RenderedGeneration(x, prevGen, d);
    var g, equal := NextPolicyGeneration(prevDoc, doc);
    ghost var n := doc.View();
    ghost var p := if prevDoc == null then d else prevDoc.View();
    doc.generation := g;
    var out := MarshalPolicyDoc(doc);
    ghost var e := doc.View();
    assert g == NextGenerationOf(prev, n.generation, prev.Some? && Agree(p, n)) by {
      assert n.generation == d.generation by {
        if prevDoc != null { SortedParts(d, n); }
      }
    }
    text := out.value;
    assert StoresVia(x, prev, statusGen, text, d, p, n, e);
  }

  lemma RenderedGeneration(x: Inputs, prevGen: int, d: Doc)
    requires Renders(x, prevGen, d)
    ensures d.generation == (if prevGen > 0 then prevGen else 1)
  {
    SortedParts(Unsorted(x, prevGen), d);
  }

  // ---------------------------------------------------------------- what is stored is determined

  /** The one document a reconcile stores when keys determine entries. */
  ghost function Target(x: Inputs, stored: PolicyText, statusGen: int): Doc {
    TargetFrom(x, ParsedDoc(stored), statusGen)
  }

  ghost function TargetFrom(x: Inputs, prev: Option<Doc>, statusGen: int): Doc {
    var u := Unsorted(x, StartGeneration(prev, statusGen));
    var s := u.(leases := SortSeq(LEASE_KEY, u.leases), floatingIPs := SortSeq(FLOATING_IP_KEY, u.floatingIPs),
                portForwards := SortSeq(PORT_FORWARD_KEY, u.portForwards));
    s.(generation := NextGenerationOf(prev, u.generation, prev.Some? && Desired(prev.value) == Desired(u)))
  }

  lemma UnsortedSorts(u: Doc, d: Doc)
    requires SortedCopy(u, d) && KeysDetermine(u)
    ensures d == u.(leases := SortSeq(LEASE_KEY, u.leases), floatingIPs := SortSeq(FLOATING_IP_KEY, u.floatingIPs),
                    portForwards := SortSeq(PORT_FORWARD_KEY, u.portForwards))
  {
    SomeSort(u);
    var s := u.(leases := SortSeq(LEASE_KEY, u.leases), floatingIPs := SortSeq(FLOATING_IP_KEY, u.floatingIPs),
                portForwards := SortSeq(PORT_FORWARD_KEY, u.portForwards));
    PartsSorted(u, s);
    SortedCopiesAgree(u, u, d, s);
    SortedParts(u, d);
  }

  lemma SortedCopyTrans(a: Doc, b: Doc, c: Doc)
    requires SortedCopy(a, b) && SortedCopy(b, c)
    ensures SortedCopy(a, c)
  {
    SortedParts(a, b);
    SortedParts(b, c);
    hide Sorted;
  }

  /** Under determined keys the comparison is exactly equality of the desired parts. */
  lemma AgreeIsDesired(x: Doc, y: Doc, x': Doc, y': Doc)
    requires SortedCopy(x, x') && SortedCopy(y, y') && KeysDetermine(y)
    ensures Agree(x', y') <==> Desired(x) == Desired(y)
  {
    SortedCopyIsReordered(x, x');
    SortedCopyIsReordered(y, y');
    if Desired(x) == Desired(y) {
      SortedCopiesAgree(y, x, y', x');
    }
    if Agree(x', y') {
      IgnoreGeneration(x', y');
    }
  }

  lemma IgnoreGeneration(x: Doc, y: Doc)
    requires Agree(x, y)
    ensures Desired(x) == Desired(y)
  {
    assert Desired(x) == Desired(x.(generation := 0)) == Desired(y.(generation := 0)) == Desired(y);
  }

  lemma StoredIsTarget(x: Inputs, stored: PolicyText, statusGen: int, text: PolicyText)
    requires KeysDetermine(Unsorted(x, 1)) && Stores(x, stored, statusGen, text)
    ensures text == Json(WireOf(Target(x, stored, statusGen)))
  {
    var prev := ParsedDoc(stored);
    var start := StartGeneration(prev, statusGen);
    KeysAnyGeneration(x, start);
    var d, p, n, e :| StoresVia(x, prev, statusGen, text, d, p, n, e);
    TargetVia(x, prev, statusGen, text, d, p, n, e);
  }

  lemma TargetVia(x: Inputs, prev: Option<Doc>, statusGen: int, text: PolicyText, d: Doc, p: Doc, n: Doc, e: Doc)
    requires StoresVia(x, prev, statusGen, text, d, p, n, e)
    requires KeysDetermine(Unsorted(x, StartGeneration(prev, statusGen)))
    ensures text == Json(WireOf(TargetFrom(x, prev, statusGen)))
  {
    var u := Unsorted(x, StartGeneration(prev, statusGen));
    hide Unsorted, SortedCopy, KeysDetermine, IsSortOf, Desired, Sorted, NextGenerationOf, Agree, WireOf;
    assert SortedCopy(u, n) by {
      if prev.Some? { SortedCopyTrans(u, d, n); }
    }
    assert prev.Some? ==> (Agree(p, n) <==> Desired(prev.value) == Desired(u)) by {
      if prev.Some? { AgreeIsDesired(prev.value, u, p, n); }
    }
    var g := NextGenerationOf(prev, u.generation, prev.Some? && Desired(prev.value) == Desired(u));
    SortedParts(u, n);
    RegenerationSorts(u, n, g, e);
    UnsortedSorts(u.(generation := g), e);
  }

  lemma RegenerationSorts(u: Doc, n: Doc, g: int, e: Doc)
    requires SortedCopy(u, n) && SortedCopy(n.(generation := g), e) && KeysDetermine(u)
    ensures SortedCopy(u.(generation := g), e) && KeysDetermine(u.(generation := g))
  {
    SortedParts(u, n);
    hide IsSortOf;
    PartsSorted(u.(generation := g), n.(generation := g));
    SortedCopyTrans(u.(generation := g), n.(generation := g), e);
  }

  lemma KeysAnyGeneration(x: Inputs, g: int)
    requires KeysDetermine(Unsorted(x, 1))
    ensures KeysDetermine(Unsorted(x, g))
  {
  }

  /** Rendering again from what was stored stores the same text: the fixpoint. */
  lemma TargetIsFixpoint(x: Inputs, stored: PolicyText, statusGen: int, laterStatus: int)
    requires KeysDetermine(Unsorted(x, 1))
    ensures var t := Target(x, stored, statusGen);
            ParsedDoc(Json(WireOf(t))) == Some(t) && Target(x, Json(WireOf(t)), laterStatus) == t && t.generation >= 1
  {
    var t := Target(x, stored, statusGen);
    ParseMarshal(t);
    var u, v := Unsorted(x, StartGeneration(ParsedDoc(stored), statusGen)), Unsorted(x, t.generation);
    SomeSort(u);
    hide SortSeq, TiesEqual, LeasesOf, FloatingIPsOf, ForwardsOf;
    assert Desired(t) == Desired(v);
  }

  /** With nothing readable stored, numbering goes on from the status, or starts at 1. */
  lemma LostDocumentGeneration(x: Inputs, stored: PolicyText, statusGen: int, text: PolicyText)
    requires !stored.Json? && Stores(x, stored, statusGen, text)
    ensures text.Json? && text.wire.generation == (if statusGen > 0 then statusGen else 1)
  {
    var d, p, n, e :| StoresVia(x, None, statusGen, text, d, p, n, e);
    hide Sorted;
  }

  /** With nothing readable stored, the target depends on the status generation alone. */
  lemma TargetFromStatus(x: Inputs, statusGen: int)
    ensures var t := Target(x, Blank, statusGen);
            && Target(x, Malformed, statusGen) == t
            && Target(x, Blank, t.generation) == t
            && Target(x, Malformed, t.generation) == t
  {
  }

  /** The same contents in another order have the same target. */
  lemma TargetIgnoresOrder(x: Inputs, y: Inputs, stored: PolicyText, statusGen: int)
    requires SameContents(x, y) && KeysDetermine(Unsorted(x, 1))
    ensures KeysDetermine(Unsorted(y, 1))
    ensures Target(y, stored, statusGen) == Target(x, stored, statusGen)
  {
    var start := StartGeneration(ParsedDoc(stored), statusGen);
    KeysAnyGeneration(x, start);
    ReorderedInputs(x, y, start);
    ReorderedInputs(x, y, 1);
    var u, v := Unsorted(x, start), Unsorted(y, start);
    hide Unsorted, SortSeq;
    KeysOfReordered(u, v);
    KeysOfReordered(Unsorted(x, 1), Unsorted(y, 1));
    SomeSort(u);
    SomeSort(v);
    SortsAgree(LEASE_KEY, u.leases, v.leases, SortSeq(LEASE_KEY, u.leases), SortSeq(LEASE_KEY, v.leases));
    SortsAgree(FLOATING_IP_KEY, u.floatingIPs, v.floatingIPs, SortSeq(FLOATING_IP_KEY, u.floatingIPs), SortSeq(FLOATING_IP_KEY, v.floatingIPs));
    SortsAgree(PORT_FORWARD_KEY, u.portForwards, v.portForwards, SortSeq(PORT_FORWARD_KEY, u.portForwards), SortSeq(PORT_FORWARD_KEY, v.portForwards));
  }

  lemma KeysOfReordered(u: Doc, v: Doc)
    requires Reordered(u, v) && KeysDetermine(u)
    ensures KeysDetermine(v)
  {
    DesiredFields(v, u);
    TiesOfPermutation(LEASE_KEY, u.leases, v.leases);
    TiesOfPermutation(FLOATING_IP_KEY, u.floatingIPs, v.floatingIPs);
    TiesOfPermutation(PORT_FORWARD_KEY, u.portForwards, v.portForwards);
  }
}
