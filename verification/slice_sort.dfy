// `sort.Slice`: an in-place sort that is not stable. Callers may rely on a sorted
// permutation and on nothing else, so what ties come out as is left open here.
module SliceSort {
  import opened Text

  /** Keys are compared field by field, each as a string. */
  type SortKey = seq<string>

  predicate KeyLess(a: SortKey, b: SortKey) {
    b != [] && (a == [] || StrLess(a[0], b[0]) || (a[0] == b[0] && KeyLess(a[1..], b[1..])))
  }

  lemma {:induction false} KeyLessTotal(a: SortKey, b: SortKey)
    ensures KeyLess(a, b) || KeyLess(b, a) || a == b
    ensures !(KeyLess(a, b) && KeyLess(b, a))
    ensures !KeyLess(a, a)
  {
    if a != [] {
      StrLessTotal(a[0], a[0]);
      KeyLessTotal(a[1..], a[1..]);
      if b != [] {
        StrLessTotal(a[0], b[0]);
        KeyLessTotal(a[1..], b[1..]);
        if a[0] == b[0] && a[1..] == b[1..] {
          assert a == [a[0]] + a[1..] == b;
        }
      }
    }
  }

  lemma {:induction false} KeyLessTransitive(a: SortKey, b: SortKey, c: SortKey)
    requires KeyLess(a, b) && KeyLess(b, c)
    ensures KeyLess(a, c)
  {
    if a != [] {
      StrLessTotal(b[0], b[0]);
      if a[0] == b[0] == c[0] {
        KeyLessTransitive(a[1..], b[1..], c[1..]);
      } else if StrLess(a[0], b[0]) && StrLess(b[0], c[0]) {
        StrLessTransitive(a[0], b[0], c[0]);
      }
    }
  }

  predicate KeyAtMost(a: SortKey, b: SortKey) {
    !KeyLess(b, a)
  }

  lemma KeyAtMostTransitive(a: SortKey, b: SortKey, c: SortKey)
    requires KeyAtMost(a, b) && KeyAtMost(b, c)
    ensures KeyAtMost(a, c)
  {
    KeyLessTotal(a, b);
    KeyLessTotal(b, c);
    KeyLessTotal(a, c);
    if KeyLess(a, b) && KeyLess(b, c) {
      KeyLessTransitive(a, b, c);
    }
  }

  ghost predicate Sorted<T>(key: T -> SortKey, s: seq<T>) {
    forall i, j :: 0 <= i < j < |s| ==> KeyAtMost(key(s[i]), key(s[j]))
  }

  /** One possible outcome of sorting `before`. */
  ghost predicate IsSortOf<T>(key: T -> SortKey, before: seq<T>, after: seq<T>) {
    multiset(after) == multiset(before) && Sorted(key, after)
  }

  // ---------------------------------------------------------------- an implementation

  function Insert<T>(key: T -> SortKey, x: T, s: seq<T>): (r: seq<T>)
    ensures |r| == |s| + 1
  {
    if s == [] || KeyAtMost(key(x), key(s[0])) then [x] + s
    else [s[0]] + Insert(key, x, s[1..])
  }

  function SortSeq<T>(key: T -> SortKey, s: seq<T>): (r: seq<T>)
    ensures |r| == |s|
  {
    if s == [] then [] else Insert(key, s[0], SortSeq(key, s[1..]))
  }

  lemma {:induction false} InsertKeepsElements<T>(key: T -> SortKey, x: T, s: seq<T>)
    ensures multiset(Insert(key, x, s)) == multiset([x] + s)
  {
    hide KeyAtMost;
    if s != [] && !KeyAtMost(key(x), key(s[0])) {
      InsertKeepsElements(key, x, s[1..]);
      assert s == [s[0]] + s[1..];
    }
  }

  lemma {:induction false} InsertSorts<T>(key: T -> SortKey, x: T, s: seq<T>)
    requires Sorted(key, s)
    ensures IsSortOf(key, [x] + s, Insert(key, x, s))
  {
    hide KeyAtMost;
    InsertKeepsElements(key, x, s);
    if s == [] {
    } else if KeyAtMost(key(x), key(s[0])) {
      PrependSorted(key, x, s);
    } else {
      InsertSorts(key, x, s[1..]);
      var rest := Insert(key, x, s[1..]);
      KeyAtMostTotal(key(x), key(s[0]));
      InsertKeepsElements(key, x, s[1..]);
      forall j | 0 <= j < |rest| ensures KeyAtMost(key(s[0]), key(rest[j])) {
        assert rest[j] in multiset(rest);
        assert rest[j] in multiset([x] + s[1..]);
        assert rest[j] == x || rest[j] in s[1..];
      }
    }
  }

  lemma PrependSorted<T>(key: T -> SortKey, x: T, s: seq<T>)
    requires Sorted(key, s) && s != [] && KeyAtMost(key(x), key(s[0]))
    ensures Sorted(key, [x] + s)
  {
    hide KeyAtMost;
    forall j | 0 <= j < |s| ensures KeyAtMost(key(x), key(s[j])) {
      if j > 0 {
        KeyAtMostTransitive(key(x), key(s[0]), key(s[j]));
      }
    }
  }

  lemma KeyAtMostTotal(a: SortKey, b: SortKey)
    ensures KeyAtMost(a, b) || KeyAtMost(b, a)
    ensures KeyAtMost(a, b) && KeyAtMost(b, a) ==> a == b
    ensures KeyAtMost(a, a)
  {
    KeyLessTotal(a, b);
  }

  lemma {:induction false} SortSeqSorts<T>(key: T -> SortKey, s: seq<T>)
    ensures IsSortOf(key, s, SortSeq(key, s))
  {
    if s != [] {
      SortSeqSorts(key, s[1..]);
      InsertSorts(key, s[0], SortSeq(key, s[1..]));
      assert s == [s[0]] + s[1..];
    }
  }

  /** Sorts the slice in place. Callers see only the contract. */
  method SortSlice<T>(a: array<T>, key: T -> SortKey)
    modifies a
    ensures IsSortOf(key, old(a[..]), a[..])
  {
    var sorted := SortSeq(key, a[..]);
    SortSeqSorts(key, a[..]);
    for i := 0 to a.Length
      invariant a[..i] == sorted[..i]
    {
      a[i] := sorted[i];
    }
    assert a[..] == sorted;
  }

  // ---------------------------------------------------------------- ties

  /** Elements that tie are equal: the order of ties cannot be seen. */
  ghost predicate TiesEqual<T>(key: T -> SortKey, s: seq<T>) {
    forall i, j :: 0 <= i < |s| && 0 <= j < |s| && key(s[i]) == key(s[j]) ==> s[i] == s[j]
  }

  lemma HeadsEqual<T>(key: T -> SortKey, p: seq<T>, q: seq<T>)
    requires multiset(p) == multiset(q) && p != [] && q != []
    requires Sorted(key, p) && Sorted(key, q) && TiesEqual(key, p)
    ensures p[0] == q[0]
  {
    hide KeyAtMost;
    assert p[0] in multiset(q) && q[0] in multiset(p);
    var i :| 0 <= i < |q| && q[i] == p[0];
    var j :| 0 <= j < |p| && p[j] == q[0];
    KeyAtMostTotal(key(p[0]), key(q[0]));
    assert i > 0 ==> KeyAtMost(key(q[0]), key(q[i]));
    assert j > 0 ==> KeyAtMost(key(p[0]), key(p[j]));
    assert key(p[0]) == key(p[j]);
  }

  lemma {:induction false} SortUnique<T>(key: T -> SortKey, p: seq<T>, q: seq<T>)
    requires multiset(p) == multiset(q)
    requires Sorted(key, p) && Sorted(key, q) && TiesEqual(key, p)
    ensures p == q
  {
    hide KeyAtMost;
    assert |p| == |multiset(p)| == |multiset(q)| == |q|;
    if p != [] {
      HeadsEqual(key, p, q);
      TailMultiset(p);
      TailMultiset(q);
      TailSorted(key, p);
      TailSorted(key, q);
      assert TiesEqual(key, p[1..]);
      SortUnique(key, p[1..], q[1..]);
      assert p == [p[0]] + p[1..] && q == [q[0]] + q[1..];
    }
  }

  lemma TailMultiset<T>(p: seq<T>)
    requires p != []
    ensures multiset(p[1..]) == multiset(p) - multiset{p[0]}
  {
    assert p == [p[0]] + p[1..];
  }

  lemma TailSorted<T>(key: T -> SortKey, p: seq<T>)
    requires p != [] && Sorted(key, p)
    ensures Sorted(key, p[1..])
  {
    hide KeyAtMost;
  }

  lemma TiesOfPermutation<T>(key: T -> SortKey, s: seq<T>, p: seq<T>)
    requires multiset(p) == multiset(s) && TiesEqual(key, s)
    ensures TiesEqual(key, p)
  {
    forall i, j | 0 <= i < |p| && 0 <= j < |p| && key(p[i]) == key(p[j]) ensures p[i] == p[j] {
      assert p[i] in multiset(s) && p[j] in multiset(s);
      var k :| 0 <= k < |s| && s[k] == p[i];
      var l :| 0 <= l < |s| && s[l] == p[j];
    }
  }

  lemma SwapKeepsMultiset<T>(p: seq<T>, i: nat, j: nat)
    requires i < j < |p|
    ensures multiset(p[i := p[j]][j := p[i]]) == multiset(p)
  {
    var q := p[i := p[j]];
    assert multiset(q) == multiset(p) - multiset{p[i]} + multiset{p[j]};
    assert multiset(q[j := p[i]]) == multiset(q) - multiset{q[j]} + multiset{p[i]};
  }

  lemma {:induction false} SwapTie<T>(key: T -> SortKey, p: seq<T>, i: nat, j: nat)
    requires i < j < |p| && key(p[i]) == key(p[j]) && Sorted(key, p)
    ensures IsSortOf(key, p, p[i := p[j]][j := p[i]])
  {
    SwapKeepsMultiset(p, i, j);
    var q := p[i := p[j]][j := p[i]];
    assert forall k :: 0 <= k < |p| ==> key(q[k]) == key(p[k]);
  }

  /** The result of sorting is determined exactly when elements that tie are equal. */
  lemma SortDeterminedExactly<T(!new)>(key: T -> SortKey, s: seq<T>)
    ensures (forall p, q :: IsSortOf(key, s, p) && IsSortOf(key, s, q) ==> p == q) <==> TiesEqual(key, s)
  {
    hide KeyAtMost;
    if TiesEqual(key, s) {
      forall p, q | IsSortOf(key, s, p) && IsSortOf(key, s, q) ensures p == q {
        TiesOfPermutation(key, s, p);
        SortUnique(key, p, q);
      }
    } else {
      var i, j :| 0 <= i < |s| && 0 <= j < |s| && key(s[i]) == key(s[j]) && s[i] != s[j];
      var p, q := TwoSorts(key, s, i, j);
      assert IsSortOf(key, s, p) && IsSortOf(key, s, q);
    }
  }

  lemma TwoSorts<T>(key: T -> SortKey, s: seq<T>, i: nat, j: nat) returns (p: seq<T>, q: seq<T>)
    requires i < |s| && j < |s| && key(s[i]) == key(s[j]) && s[i] != s[j]
    ensures IsSortOf(key, s, p) && IsSortOf(key, s, q) && p != q
  {
    p := SortSeq(key, s);
    SortSeqSorts(key, s);
    hide KeyAtMost;
    assert s[i] in multiset(p) && s[j] in multiset(p);
    var k :| 0 <= k < |p| && p[k] == s[i];
    var l :| 0 <= l < |p| && p[l] == s[j];
    var lo, hi := if k < l then k else l, if k < l then l else k;
    SwapTie(key, p, lo, hi);
    q := p[lo := p[hi]][hi := p[lo]];
    assert q[lo] != p[lo];
  }

  // ---------------------------------------------------------------- one fixed sort

  /**
   * What a comparison sort does depends on the keys alone: for each sequence of keys
   * it settles which element goes where. `sort.Slice` is one such choice, fixed by
   * its algorithm.
   */
  type Ranking = seq<SortKey> -> seq<nat>

  /** The places form a permutation under which the keys come out sorted. */
  ghost predicate Places(keys: seq<SortKey>, order: seq<nat>) {
    && Permutation(order, |keys|)
    && (forall i, j :: 0 <= i < j < |order| ==> KeyAtMost(keys[order[i]], keys[order[j]]))
  }

  ghost predicate IsComparisonSort(rank: Ranking) {
    forall keys :: Places(keys, rank(keys))
  }

  function KeysOf<T>(key: T -> SortKey, s: seq<T>): (keys: seq<SortKey>)
    ensures |keys| == |s| && forall i :: 0 <= i < |s| ==> keys[i] == key(s[i])
  {
    seq(|s|, i requires 0 <= i < |s| => key(s[i]))
  }

  /** The elements in the order the sort gives them. */
  ghost function SortBy<T>(rank: Ranking, key: T -> SortKey, s: seq<T>): (r: seq<T>)
    requires IsComparisonSort(rank)
    ensures |r| == |s| && forall i :: 0 <= i < |s| ==> rank(KeysOf(key, s))[i] < |s| && r[i] == s[rank(KeysOf(key, s))[i]]
  {
    var keys := KeysOf(key, s);
    assert Places(keys, rank(keys));
    seq(|s|, i requires 0 <= i < |s| => s[rank(keys)[i]])
  }

  /** Distinct numbers below n, all of them. */
  ghost predicate Permutation(order: seq<nat>, n: nat) {
    && |order| == n
    && (forall i :: 0 <= i < |order| ==> order[i] < n)
    && (forall i, j :: 0 <= i < j < |order| ==> order[i] != order[j])
    && (forall k :: 0 <= k < n ==> k in order)
  }

  function Without<T>(s: seq<T>, k: nat): (r: seq<T>)
    requires k < |s|
    ensures |r| == |s| - 1 && forall i :: 0 <= i < |r| ==> r[i] == s[if i < k then i else i + 1]
  {
    s[..k] + s[k + 1..]
  }

  lemma PermutationWithout(order: seq<nat>, n: nat, k: nat)
    requires n > 0 && Permutation(order, n) && k < |order| && order[k] == n - 1
    ensures Permutation(Without(order, k), n - 1)
  {
    var rest := Without(order, k);
    forall m | 0 <= m < n - 1 ensures m in rest {
      assert m in order;
      var i :| 0 <= i < |order| && order[i] == m;
      assert rest[if i < k then i else i - 1] == m;
    }
  }

  lemma PutBack<T>(s: seq<T>, r: seq<T>, k: nat)
    requires s != [] && k < |r| && r[k] == s[|s| - 1] && multiset(Without(r, k)) == multiset(s[..|s| - 1])
    ensures multiset(r) == multiset(s)
  {
    assert r == r[..k] + [r[k]] + r[k + 1..] && s == s[..|s| - 1] + [s[|s| - 1]];
  }

  lemma ArrangedWithout<T>(s: seq<T>, order: seq<nat>, r: seq<T>, k: nat)
    requires s != [] && |r| == |s| && Permutation(order, |s|) && forall i :: 0 <= i < |order| ==> r[i] == s[order[i]]
    requires k < |order| && order[k] == |s| - 1
    ensures forall i :: 0 <= i < |s| - 1 ==> Without(order, k)[i] < |s| - 1 && Without(r, k)[i] == s[..|s| - 1][Without(order, k)[i]]
  {
    PermutationWithout(order, |s|, k);
  }

  lemma {:induction false} PermutedMultiset<T>(s: seq<T>, order: seq<nat>, r: seq<T>)
    requires |r| == |s| && Permutation(order, |s|) && forall i :: 0 <= i < |order| ==> r[i] == s[order[i]]
    ensures multiset(r) == multiset(s)
    decreases |s|
  {
    if s != [] {
      var n := |s| - 1;
      assert n in order;
      var k :| 0 <= k < |order| && order[k] == n;
      PermutationWithout(order, |s|, k);
      ArrangedWithout(s, order, r, k);
      hide Permutation, Without;
      PermutedMultiset(s[..n], Without(order, k), Without(r, k));
      PutBack(s, r, k);
    }
  }

  /** It is a sort. */
  lemma SortByIsSort<T>(rank: Ranking, key: T -> SortKey, s: seq<T>)
    requires IsComparisonSort(rank)
    ensures IsSortOf(key, s, SortBy(rank, key, s))
  {
    var keys, r := KeysOf(key, s), SortBy(rank, key, s);
    assert Places(keys, rank(keys));
    PermutedMultiset(s, rank(keys), r);
    hide KeyAtMost;
  }

  /** The same keys in the same places, but not the same elements. */
  predicate Twins<T(==)>(key: T -> SortKey, s: seq<T>, t: seq<T>) {
    |s| == |t| && KeysOf(key, s) == KeysOf(key, t)
  }

  /** Twins are sorted alike, so a difference between them stays. */
  lemma SortByTwins<T>(rank: Ranking, key: T -> SortKey, s: seq<T>, t: seq<T>)
    requires IsComparisonSort(rank) && Twins(key, s, t)
    ensures Twins(key, SortBy(rank, key, s), SortBy(rank, key, t))
    ensures SortBy(rank, key, s) == SortBy(rank, key, t) ==> s == t
  {
    var keys := KeysOf(key, s);
    assert Places(keys, rank(keys));
    var u, v := SortBy(rank, key, s), SortBy(rank, key, t);
    forall i | 0 <= i < |u| ensures KeysOf(key, u)[i] == KeysOf(key, v)[i] {
      assert keys[rank(keys)[i]] == KeysOf(key, t)[rank(keys)[i]];
    }
    if u == v {
      forall k | 0 <= k < |s| ensures s[k] == t[k] {
        assert k in rank(keys);
        var i :| 0 <= i < |rank(keys)| && rank(keys)[i] == k;
        assert u[i] == v[i];
      }
    }
  }

  /** Exchanging two elements that tie makes a twin. */
  lemma SwappedIsTwin<T>(key: T -> SortKey, s: seq<T>, i: nat, j: nat)
    requires i < j < |s| && key(s[i]) == key(s[j])
    ensures Twins(key, s, s[i := s[j]][j := s[i]])
  {
    var t := s[i := s[j]][j := s[i]];
    assert forall k :: 0 <= k < |s| ==> key(t[k]) == key(s[k]);
    assert KeysOf(key, s) == KeysOf(key, t);
  }

  /** For one fixed sort, list order cannot be seen exactly when elements that tie are equal. */
  lemma SortByDeterminedExactly<T(!new)>(rank: Ranking, key: T -> SortKey, s: seq<T>)
    requires IsComparisonSort(rank)
    ensures (forall t :: multiset(t) == multiset(s) ==> SortBy(rank, key, t) == SortBy(rank, key, s)) <==> TiesEqual(key, s)
  {
    hide IsComparisonSort, KeyAtMost;
    if TiesEqual(key, s) {
      forall t | multiset(t) == multiset(s) ensures SortBy(rank, key, t) == SortBy(rank, key, s) {
        SortByIsSort(rank, key, s);
        SortByIsSort(rank, key, t);
        SortDeterminedExactly(key, s);
        assert IsSortOf(key, s, SortBy(rank, key, t));
      }
    } else {
      var i, j := TiedPair(key, s);
      SwapKeepsMultiset(s, i, j);
      SwappedIsTwin(key, s, i, j);
      SortByTwins(rank, key, s, s[i := s[j]][j := s[i]]);
      assert s[i := s[j]][j := s[i]][i] == s[j];
    }
  }

  lemma TiedPair<T>(key: T -> SortKey, s: seq<T>) returns (i: nat, j: nat)
    requires !TiesEqual(key, s)
    ensures i < j < |s| && key(s[i]) == key(s[j]) && s[i] != s[j]
  {
    var a, b :| 0 <= a < |s| && 0 <= b < |s| && key(s[a]) == key(s[b]) && s[a] != s[b];
    i, j := if a < b then a else b, if a < b then b else a;
  }

  function Upto(n: nat): (r: seq<nat>)
    ensures |r| == n && forall i :: 0 <= i < n ==> r[i] == i
  {
    seq(n, i requires 0 <= i < n => i)
  }

  /** Such sorts exist: insertion sort is one. */
  lemma ComparisonSortsExist() returns (rank: Ranking)
    ensures IsComparisonSort(rank)
  {
    rank := (keys: seq<SortKey>) => InsertionPlaces(keys);
    forall keys ensures Places(keys, rank(keys)) {
      InsertionPlaced(keys);
    }
  }

  function KeyAt(keys: seq<SortKey>): nat -> SortKey {
    (i: nat) => if i < |keys| then keys[i] else []
  }

  function InsertionPlaces(keys: seq<SortKey>): seq<nat> {
    SortSeq(KeyAt(keys), Upto(|keys|))
  }

  lemma InsertionPlaced(keys: seq<SortKey>)
    ensures Places(keys, InsertionPlaces(keys))
  {
    var n, order := |keys|, InsertionPlaces(keys);
    SortSeqSorts(KeyAt(keys), Upto(n));
    hide SortSeq, KeyAtMost, Sorted;
    PermutedUpto(n, order);
    hide Permutation;
    forall i, j | 0 <= i < j < |order| ensures order[i] < n && order[j] < n && KeyAtMost(keys[order[i]], keys[order[j]]) {
      InRange(n, order);
      SortedPlaces(keys, order, i, j);
    }
  }

  lemma InRange(n: nat, order: seq<nat>)
    requires Permutation(order, n)
    ensures |order| == n && forall i :: 0 <= i < n ==> order[i] < n
  {
  }

  lemma SortedPlaces(keys: seq<SortKey>, order: seq<nat>, i: nat, j: nat)
    requires Sorted(KeyAt(keys), order) && i < j < |order| && order[i] < |keys| && order[j] < |keys|
    ensures KeyAtMost(keys[order[i]], keys[order[j]])
  {
    assert KeyAt(keys)(order[i]) == keys[order[i]] && KeyAt(keys)(order[j]) == keys[order[j]];
    hide KeyAtMost;
  }

  lemma PermutedUpto(n: nat, order: seq<nat>)
    requires multiset(order) == multiset(Upto(n))
    ensures Permutation(order, n)
  {
    assert |order| == |multiset(order)| == n;
    forall k ensures k in order <==> 0 <= k < n {
      assert k in order <==> k in multiset(order);
      assert k in Upto(n) <==> k in multiset(Upto(n));
      if 0 <= k < n { assert Upto(n)[k] == k; }
    }
    forall i, j | 0 <= i < j < |order| ensures order[i] != order[j] {
      if order[i] == order[j] {
        TwiceCounted(order, i, j);
        OnceCounted(n, order[i]);
      }
    }
    forall i | 0 <= i < |order| ensures order[i] < n {
      assert order[i] in order;
    }
  }

  lemma TwiceCounted<T>(s: seq<T>, i: nat, j: nat)
    requires i < j < |s| && s[i] == s[j]
    ensures multiset(s)[s[i]] >= 2
  {
    assert s == s[..j] + s[j..];
    assert s[i] == s[..j][i] && s[j] == s[j..][0];
    assert s[i] in multiset(s[..j]) && s[i] in multiset(s[j..]);
  }

  lemma {:induction false} OnceCounted(n: nat, x: nat)
    ensures multiset(Upto(n))[x] <= 1
  {
    if n > 0 {
      OnceCounted(n - 1, x);
      assert Upto(n) == Upto(n - 1) + [n - 1];
      if x == n - 1 {
        assert x !in Upto(n - 1);
      }
    }
  }
}
