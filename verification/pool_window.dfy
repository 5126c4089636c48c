// The IPv4 allocation window: lowest free address inside a CIDR, with the source's
// wrapping `uint32` arithmetic and its string-keyed exclusion sets.
module PoolWindows {
  import opened MachineWords
  import opened Text
  import opened IPv4

  /** A parsed IPv4 CIDR: network address and prefix length. */
  datatype Network = Network(base: U32, ones: nat)
  {
    predicate Valid() {
      ones <= 32 && base % Pow2(32 - ones) == 0
    }

    /** Number of addresses. */
    function Size(): nat
      requires ones <= 32
    {
      Pow2(32 - ones)
    }

    /** `IPNet.Contains`: equal after masking. */
    predicate Contains(n: U32)
      requires ones <= 32
    {
      n - n % Size() == base
    }
  }

  /**
   * `start` and `end` bound the hosts when set. `exclude` holds dotted quads,
   * the gateway among them.
   */
  datatype PoolWindow = PoolWindow(
    network: Network,
    start: Option<U32>,
    end: Option<U32>,
    exclude: set<string>,
    gateway: string)
  {
    predicate Valid() {
      && network.Valid()
      && (gateway != "" ==> Canonical(gateway) && gateway in exclude)
    }
  }

  function ContainsIPv4(network: Network, address: string, ipv6: Ipv6Parser): bool
    requires network.ones <= 32
  {
    match ParseIp(TrimSpace(address), ipv6)
    case None => false
    case Some(ip) =>
      match ip.To4()
      case None => false
      case Some(n) => network.Contains(n)
  }

  // ---------------------------------------------------------------- parsing a window

  datatype WindowError = BadCidr | BadGateway | BadExclude(index: nat) | BadStart | BadEnd

  datatype WindowResult = Parsed(window: PoolWindow) | Rejected(error: WindowError)

  /** A blank field, or a canonical address inside the network. */
  predicate BlankOrInside(network: Network, s: string, ipv6: Ipv6Parser)
    requires network.ones <= 32
  {
    TrimSpace(s) == ""
    || (ValidateIPv4Address(TrimSpace(s), ipv6) == None && ContainsIPv4(network, TrimSpace(s), ipv6))
  }

  predicate BlankOrAddress(s: string, ipv6: Ipv6Parser) {
    TrimSpace(s) == "" || ValidateIPv4Address(TrimSpace(s), ipv6) == None
  }

  function NonBlank(exclude: seq<string>): set<string> {
    set i | 0 <= i < |exclude| && TrimSpace(exclude[i]) != "" :: TrimSpace(exclude[i])
  }

  function AddressOf(s: string): Option<U32> {
    if TrimSpace(s) == "" then None else ParseDottedQuad(TrimSpace(s))
  }

  /**
   * A window is built exactly when every field is blank or acceptable; it then
   * excludes the listed addresses and the gateway and nothing else.
   */
  method ParsePoolWindow(cidr: Option<Network>, gateway: string, start: string, end: string,
                         exclude: seq<string>, ipv6: Ipv6Parser)
    returns (r: WindowResult)
    requires cidr.Some? ==> cidr.value.Valid()
    ensures r.Parsed? <==>
            && cidr.Some?
            && BlankOrInside(cidr.value, gateway, ipv6)
            && (forall i :: 0 <= i < |exclude| ==> BlankOrAddress(exclude[i], ipv6))
            && BlankOrInside(cidr.value, start, ipv6)
            && BlankOrInside(cidr.value, end, ipv6)
    ensures r.Parsed? ==>
              && r.window.Valid()
              && r.window.network == cidr.value
              && r.window.gateway == TrimSpace(gateway)
              && r.window.start == AddressOf(start) && r.window.end == AddressOf(end)
              && r.window.exclude == NonBlank(exclude)
                                     + (if TrimSpace(gateway) == "" then {} else {TrimSpace(gateway)})
  {
    hide TrimSpace, ValidateIPv4Address, ContainsIPv4, NonBlank, ParseIp, ParseDottedQuad, Canonical;
    if cidr.None? {
      return Rejected(BadCidr);
    }
    var network := cidr.value;
    var w := PoolWindow(network, None, None, {}, "");
    var gw := TrimSpace(gateway);
    if gw != "" {
      if ValidateIPv4Address(gw, ipv6) != None || !ContainsIPv4(network, gw, ipv6) {
        return Rejected(BadGateway);
      }
      w := w.(gateway := gw, exclude := {gw});
      ValidatedAddress(gateway, ipv6);
    }
    NonBlankOfNone(exclude);
    for i := 0 to |exclude|
      invariant w.exclude == NonBlank(exclude[..i]) + (if gw == "" then {} else {gw})
      invariant w == PoolWindow(network, None, None, w.exclude, gw)
      invariant forall k :: 0 <= k < i ==> BlankOrAddress(exclude[k], ipv6)
    {
      var ex := TrimSpace(exclude[i]);
      assert exclude[..i + 1] == exclude[..i] + [exclude[i]];
      NonBlankStep(exclude[..i], exclude[i]);
      if ex == "" {
        continue;
      }
      if ValidateIPv4Address(ex, ipv6) != None {
        return Rejected(BadExclude(i));
      }
      w := w.(exclude := w.exclude + {ex});
    }
    assert exclude[..|exclude|] == exclude;
    if TrimSpace(start) != "" {
      var s := TrimSpace(start);
      if ValidateIPv4Address(s, ipv6) != None || !ContainsIPv4(network, s, ipv6) {
        return Rejected(BadStart);
      }
      ValidatedAddress(start, ipv6);
      w := w.(start := ParseIp(s, ipv6).value.To4());
    }
    if TrimSpace(end) != "" {
      var e := TrimSpace(end);
      if ValidateIPv4Address(e, ipv6) != None || !ContainsIPv4(network, e, ipv6) {
        return Rejected(BadEnd);
      }
      ValidatedAddress(end, ipv6);
      w := w.(end := ParseIp(e, ipv6).value.To4());
    }
    return Parsed(w);
  }

  lemma NonBlankOfNone(exclude: seq<string>)
    ensures NonBlank(exclude[..0]) == {}
  {
  }

  lemma NonBlankStep(done: seq<string>, next: string)
    ensures NonBlank(done + [next])
         == NonBlank(done) + (if TrimSpace(next) == "" then {} else {TrimSpace(next)})
  {
    var all := done + [next];
    assert all[|done|] == next;
    assert forall i :: 0 <= i < |done| ==> all[i] == done[i];
    forall s | s in NonBlank(done) ensures s in NonBlank(all) {
      var i :| 0 <= i < |done| && TrimSpace(done[i]) != "" && TrimSpace(done[i]) == s;
      assert TrimSpace(all[i]) == s;
    }
    if TrimSpace(next) != "" {
      assert TrimSpace(all[|done|]) in NonBlank(all);
    }
  }

  lemma ValidatedAddress(s: string, ipv6: Ipv6Parser)
    requires ValidateIPv4Address(TrimSpace(s), ipv6) == None
    ensures Canonical(TrimSpace(s))
    ensures ParseIp(TrimSpace(s), ipv6).Some?
    ensures ParseIp(TrimSpace(s), ipv6).value.To4() == ParseDottedQuad(TrimSpace(s))
  {
    TrimShape(s, GoSpace);
    TrimOfTrimmed(TrimSpace(s), GoSpace);
    ValidateExactlyCanonical(TrimSpace(s), ipv6);
    var n: U32 :| TrimSpace(s) == Render(n);
    RenderIsParsed(n, ipv6);
    ParseExactlyRendered(TrimSpace(s), n);
  }

  // ---------------------------------------------------------------- bounds

  /** The source's `size`: a shift by 32 is replaced by the largest word. */
  function WordSize(ones: nat): U32
    requires ones <= 32
  {
    if ones == 0 then MAX_U32 else
    SizeBelow(ones);
    Pow2(32 - ones)
  }

  lemma SizeBelow(ones: nat)
    requires 1 <= ones <= 32
    ensures Pow2(32 - ones) <= 0x8000_0000
  {
    Pow2Monotone(32 - ones, 31);
    Pow2At31();
  }

  lemma Pow2At31()
    ensures Pow2(31) == 0x8000_0000 && Pow2(32) == TWO_32
  {
    WordPowers();
    assert Pow2(28) == 0x1000_0000 by { assert Pow2(26) == 0x400_0000; }
    assert Pow2(31) == 0x8000_0000 by { assert Pow2(30) == 0x4000_0000; }
  }

  lemma {:induction false} Pow2Monotone(a: nat, b: nat)
    requires a <= b
    ensures Pow2(a) <= Pow2(b)
    decreases b
  {
    if a < b {
      Pow2Monotone(a, b - 1);
    }
  }

  /** First and last candidate before `start` and `end`, in wrapping arithmetic. */
  function NominalFirst(net: Network): U32 {
    if net.ones <= 30 then ToUint32(net.base + 1) else net.base
  }

  function NominalLast(net: Network): U32
    requires net.ones <= 32
  {
    if net.ones <= 30 then ToUint32(net.base + WordSize(net.ones) - 2)
    else if net.ones == 31 then ToUint32(net.base + 1)
    else net.base
  }

  function First(w: PoolWindow): U32 {
    var first := NominalFirst(w.network);
    if w.start.Some? && w.start.value > first then w.start.value else first
  }

  function Last(w: PoolWindow): U32
    requires w.network.ones <= 32
  {
    var last := NominalLast(w.network);
    if w.end.Some? && w.end.value < last then w.end.value else last
  }

  /**
   * The usable hosts on mathematical integers: all but the network and broadcast
   * address up to /30, both addresses of a /31 (RFC 3021, section 2.1), the one
   * address of a /32.
   */
  predicate Usable(net: Network, n: U32)
    requires net.ones <= 32
  {
    if net.ones <= 30 then net.base < n < net.base + net.Size() - 1
    else net.base <= n < net.base + net.Size()
  }

  predicate InWindow(w: PoolWindow, n: U32)
    requires w.network.ones <= 32
  {
    && Usable(w.network, n)
    && (w.start.Some? ==> w.start.value <= n)
    && (w.end.Some? ==> n <= w.end.value)
  }

  predicate Taken(w: PoolWindow, used: set<string>, n: U32) {
    Render(n) in w.exclude || Render(n) in used
  }

  lemma NetworkFits(net: Network)
    requires net.Valid()
    ensures net.base + net.Size() <= TWO_32
  {
    Pow2Sum(32 - net.ones, net.ones);
    Pow2At31();
    MultipleFits(net.base, net.Size(), Pow2(net.ones));
  }

  lemma MultipleFits(base: nat, s: nat, c: nat)
    requires s > 0 && base % s == 0 && base < s * c
    ensures base + s <= s * c
  {
    DivisionEquation(base, s);
    var q := base / s;
    MulDistributes(s, c, q);
    MulDistributes(s, c - q, 1);
    if q >= c {
      ProductNonNegative(s, q - c);
    } else {
      ProductNonNegative(s, c - q - 1);
    }
  }

  lemma ProductNonNegative(a: nat, b: nat)
    ensures a * b >= 0
  {
  }

  lemma SizeAtLeast(net: Network)
    requires net.ones <= 32
    ensures net.ones <= 30 ==> net.Size() >= 4
    ensures net.ones == 31 ==> net.Size() == 2
    ensures net.ones == 32 ==> net.Size() == 1
  {
    if net.ones <= 30 {
      Pow2Monotone(2, 32 - net.ones);
    }
  }

  /** From /1 on the wrapping arithmetic does not wrap; for /0 the size is one short. */
  lemma NominalBounds(net: Network)
    requires net.Valid()
    ensures net.ones == 0 ==> NominalFirst(net) == 1 && NominalLast(net) == 0xffff_fffd
    ensures net.ones == 0 ==> net.base == 0 && net.Size() == TWO_32
    ensures 1 <= net.ones <= 30 ==>
              && NominalFirst(net) == net.base + 1 && NominalLast(net) == net.base + net.Size() - 2
              && NominalLast(net) < MAX_U32
    ensures net.ones >= 31 ==>
              && NominalFirst(net) == net.base && NominalLast(net) == net.base + net.Size() - 1
  {
    hide Pow2;
    NetworkFits(net);
    SizeAtLeast(net);
    Pow2At31();
    if net.ones == 0 {
      assert net.Size() == TWO_32;
    } else {
      SizeBelow(net.ones);
    }
  }

  /** From /1 on, the wrapping bounds are the mathematical window; /0 loses its last host. */
  lemma BoundsAreTheWindow(w: PoolWindow, n: U32)
    requires w.network.Valid()
    ensures w.network.ones >= 1 ==> (First(w) <= n <= Last(w) <==> InWindow(w, n))
    ensures w.network.ones == 0 ==>
              (First(w) <= n <= Last(w) <==> InWindow(w, n) && n != 0xffff_fffe)
    ensures 1 <= w.network.ones <= 30 ==> Last(w) < MAX_U32
  {
    NominalBounds(w.network);
    hide NominalFirst;
    hide NominalLast;
    hide Network.Size;
  }

  // ---------------------------------------------------------------- first free

  datatype FreeResult =
    | Found(address: string)
    | Exhausted
    | Loops    // the source's loop never ends

  /** The least number in [n, last] that is not taken. */
  function LeastFree(w: PoolWindow, used: set<string>, n: nat, last: U32): (r: Option<U32>)
    decreases last - n
  {
    if n > last then None
    else if Taken(w, used, n) then LeastFree(w, used, n + 1, last)
    else Some(n)
  }

  lemma {:induction false} LeastFreeMeaning(w: PoolWindow, used: set<string>, n: nat, last: U32)
    ensures match LeastFree(w, used, n, last)
            case Some(m) => n <= m <= last && !Taken(w, used, m) && forall k: U32 :: n <= k < m ==> Taken(w, used, k)
            case None => forall k: U32 :: n <= k <= last ==> Taken(w, used, k)
    decreases last - n
  {
    hide Taken;
    if n <= last && Taken(w, used, n) {
      LeastFreeMeaning(w, used, n + 1, last);
    }
  }

  /** What the loop does, including the wrap-around when the last address is 255.255.255.255. */
  function FirstFreeOf(w: PoolWindow, used: set<string>): FreeResult
    requires w.network.ones <= 32
  {
    if First(w) > Last(w) then Exhausted
    else
      match LeastFree(w, used, First(w), Last(w))
      case Some(n) => Found(Render(n))
      case None =>
        if Last(w) < MAX_U32 then Exhausted
        else if First(w) == 0 then Loops
        else
          match LeastFree(w, used, 0, First(w) - 1)
          case Some(n) => Found(Render(n))
          case None => Loops
  }

  /**
   * The scan. `n` is a wrapping word; once it has come round to where it started,
   * nothing has changed and the source goes round again: `Loops`.
   */
  method FirstFree(w: PoolWindow, used: set<string>) returns (r: FreeResult)
    requires w.network.ones <= 32
    ensures r == FirstFreeOf(w, used)
  {
    hide Render, First, Last;
    var first, last := First(w), Last(w);
    if first > last {
      return Exhausted;
    }
    var n: U32 := first;
    var wrapped := false;
    while n <= last
      invariant !wrapped ==> first <= n && LeastFree(w, used, first, last) == LeastFree(w, used, n, last)
      invariant wrapped ==>
                  && last == MAX_U32 && n < first && LeastFree(w, used, first, last) == None
                  && LeastFree(w, used, 0, first - 1) == LeastFree(w, used, n, first - 1)
      decreases if wrapped then 0 else 1, TWO_32 - n
    {
      var addr := Render(n);
      if addr !in w.exclude && addr !in used {
        return Found(addr);
      }
      if n == MAX_U32 {
        n, wrapped := 0, true;
      } else {
        n := n + 1;
        if !wrapped && n > last {
          break;
        }
      }
      if wrapped && n == first {
        return Loops;
      }
    }
    return Exhausted;
  }

  // ---------------------------------------------------------------- what it promises

  predicate Free(w: PoolWindow, used: set<string>, n: U32)
    requires w.network.ones <= 32
  {
    InWindow(w, n) && !Taken(w, used, n)
  }

  /** The promise: the lowest free address of the window, or "exhausted" when there is none. */
  ghost predicate LowestFree(w: PoolWindow, used: set<string>, r: FreeResult)
    requires w.network.ones <= 32
  {
    match r
    case Found(address) =>
      exists n: U32 :: address == Render(n) && Free(w, used, n)
                       && forall k: U32 :: k < n ==> !Free(w, used, k)
    case Exhausted => forall k: U32 :: !Free(w, used, k)
    case Loops => false
  }

  /**
   * When the scan keeps its promise. A window that reaches 255.255.255.255 runs
   * over the end of the word. A /0 loses 255.255.255.254.
   */
  predicate Sound(w: PoolWindow)
    requires w.network.ones <= 32
  {
    if w.network.ones == 0 then
      !InWindow(w, 0xffff_fffe) || Render(0xffff_fffe) in w.exclude
    else
      First(w) > Last(w) || Last(w) < MAX_U32
  }

  lemma FirstFreeKeepsPromise(w: PoolWindow, used: set<string>)
    requires w.network.Valid() && Sound(w)
    ensures LowestFree(w, used, FirstFreeOf(w, used))
  {
    forall n: U32 ensures First(w) <= n <= Last(w) && !Taken(w, used, n) <==> Free(w, used, n) {
      BoundsAreTheWindow(w, n);
    }
    LeastFreeMeaning(w, used, First(w), Last(w));
    if First(w) <= Last(w) {
      if w.network.ones == 0 {
        SlashZeroStopsEarly(w);
      }
      assert Last(w) < MAX_U32;
      var m := LeastFree(w, used, First(w), Last(w));
      if m.Some? {
        assert Free(w, used, m.value);
        assert forall k: U32 :: k < m.value ==> !Free(w, used, k);
      }
    }
  }

  lemma SlashZeroStopsEarly(w: PoolWindow)
    requires w.network.Valid() && w.network.ones == 0
    ensures Last(w) < MAX_U32
  {
    Pow2At31();
  }

  /** It keeps the promise for every used set exactly when the window is sound. */
  lemma FirstFreeSoundExactly(w: PoolWindow)
    requires w.network.Valid()
    ensures (forall used: set<string> :: LowestFree(w, used, FirstFreeOf(w, used))) <==> Sound(w)
  {
    if Sound(w) {
      forall used: set<string> ensures LowestFree(w, used, FirstFreeOf(w, used)) {
        FirstFreeKeepsPromise(w, used);
      }
    } else {
      var used := set n: int | First(w) <= n <= Last(w) :: Render(n);
      UnsoundWhenFull(w, used);
      assert !LowestFree(w, used, FirstFreeOf(w, used));
    }
  }

  lemma UnsoundWhenFull(w: PoolWindow, used: set<string>)
    requires w.network.Valid() && !Sound(w)
    requires used == set n: int | First(w) <= n <= Last(w) :: Render(n)
    ensures !LowestFree(w, used, FirstFreeOf(w, used))
  {
    forall n: U32 | First(w) <= n <= Last(w) ensures Taken(w, used, n) {
    }
    LeastFreeMeaning(w, used, First(w), Last(w));
    if w.network.ones == 0 {
      BoundsAreTheWindow(w, 0xffff_fffe);
      if Render(0xffff_fffe) in used {
        var n: int :| First(w) <= n <= Last(w) && Render(n) == Render(0xffff_fffe);
        RenderInjective(n, 0xffff_fffe);
      }
      assert Free(w, used, 0xffff_fffe);
      SlashZeroStopsEarly(w);
      assert FirstFreeOf(w, used) == Exhausted;
    } else {
      var r := FirstFreeOf(w, used);
      if r.Found? && LowestFree(w, used, r) {
        var n: U32 :| r.address == Render(n) && Free(w, used, n);
        BoundsAreTheWindow(w, n);
      }
    }
  }

  /**
   * A concrete miss: with both addresses of 255.255.255.254/31 used, the scan
   * returns 0.0.0.0, which is not in the pool.
   */
  lemma TopOfSpaceEscapes()
    ensures var w := PoolWindow(Network(0xffff_fffe, 31), None, None, {}, "");
            && w.Valid()
            && FirstFreeOf(w, {Render(0xffff_fffe), Render(0xffff_ffff)}) == Found(Render(0))
            && !w.network.Contains(0)
  {
    var w := PoolWindow(Network(0xffff_fffe, 31), None, None, {}, "");
    var used := {Render(0xffff_fffe), Render(0xffff_ffff)};
    assert Pow2(1) == 2;
    assert LeastFree(w, used, 0x1_0000_0000, 0xffff_ffff) == None;
    assert LeastFree(w, used, 0xffff_ffff, 0xffff_ffff) == None;
    assert LeastFree(w, used, 0xffff_fffe, 0xffff_ffff) == None;
    if Taken(w, used, 0) {
      if Render(0) == Render(0xffff_fffe) {
        RenderInjective(0, 0xffff_fffe);
      } else {
        RenderInjective(0, 0xffff_ffff);
      }
    }
  }

  /** The address found is a host: never network or broadcast up to /30, never the gateway. */
  lemma FoundIsAHost(w: PoolWindow, used: set<string>)
    requires w.Valid() && Sound(w) && FirstFreeOf(w, used).Found?
    ensures exists n: U32 ::
              && FirstFreeOf(w, used).address == Render(n) && Free(w, used, n)
              && w.network.Contains(n)
              && (w.network.ones <= 30 ==> n != w.network.base && n != w.network.base + w.network.Size() - 1)
              && Render(n) != w.gateway && Render(n) !in w.exclude && Render(n) !in used
  {
    FirstFreeKeepsPromise(w, used);
    hide FirstFreeOf, Render, Sound, First, Last, Pow2, Canonical;
    var n: U32 :| FirstFreeOf(w, used).address == Render(n) && Free(w, used, n);
    UsableIsInside(w.network, n);
    hide Usable, LowestFree;
  }

  lemma UsableIsInside(net: Network, n: U32)
    requires net.Valid() && Usable(net, n)
    ensures net.Contains(n)
    ensures net.ones <= 30 ==> n != net.base && n != net.base + net.Size() - 1
  {
    hide Pow2;
    SizeAtLeast(net);
    var s := net.Size();
    DivisionEquation(net.base, s);
    RemainderUnique(n, s, net.base / s, n - net.base);
  }

  /**
   * One lost race: after the found address is added to the used set, the next one
   * is strictly higher, and exactly one address has left the free set.
   */
  lemma NextFreeIsHigher(w: PoolWindow, used: set<string>, n: U32)
    requires w.network.Valid() && Sound(w)
    requires FirstFreeOf(w, used) == Found(Render(n))
    ensures Free(w, used, n)
    ensures forall k: U32 :: Free(w, used + {Render(n)}, k) <==> Free(w, used, k) && k != n
    ensures forall m: U32 :: FirstFreeOf(w, used + {Render(n)}) == Found(Render(m)) ==> m > n
  {
    FirstFreeKeepsPromise(w, used);
    var n': U32 :| Render(n) == Render(n') && Free(w, used, n') && forall k: U32 :: k < n' ==> !Free(w, used, k);
    RenderInjective(n, n');
    var next := used + {Render(n)};
    forall k: U32 ensures Free(w, next, k) <==> Free(w, used, k) && k != n {
      if Render(k) == Render(n) {
        RenderInjective(k, n);
      }
    }
    FirstFreeKeepsPromise(w, next);
    forall m: U32 | FirstFreeOf(w, next) == Found(Render(m)) ensures m > n {
      var m': U32 :| Render(m) == Render(m') && Free(w, next, m');
      RenderInjective(m, m');
    }
  }
}
