// IPv4 addresses as dotted-quad strings: the canonical form every allocator
// compares by, and the object names derived from it.
//
// Go's `net.ParseIP` is library code. Its dotted-quad branch is modelled by the
// IPv4address grammar of RFC 3986, section 3.2.2; what it makes of a string with
// a colon in it is an arbitrary parameter.
module IPv4 {
  import opened MachineWords
  import opened Text

  /** What `net.ParseIP` returns: an IPv4 address, or an IPv6 one that may map to IPv4. */
  datatype IpAddr = V4(n: U32) | V6(mapped: Option<U32>)
  {
    function To4(): Option<U32> {
      match this
      case V4(n) => Some(n)
      case V6(mapped) => mapped
    }
  }

  type Ipv6Parser = string -> Option<IpAddr>

  // ---------------------------------------------------------------- words and bytes

  /** Go `uint32(b) << k` for a byte and a shift that keeps it inside the word. */
  function ShlByte(b: Byte, k: nat): nat
    requires k in {0, 8, 16, 24}
  {
    b * Pow2(k)
  }

  function IpToUint32(b0: Byte, b1: Byte, b2: Byte, b3: Byte): nat {
    BitOr(BitOr(BitOr(ShlByte(b0, 24), ShlByte(b1, 16)), ShlByte(b2, 8)), b3)
  }

  /** Go `byte(n >> k)`. */
  function ByteAt(n: U32, k: nat): Byte
    requires k in {0, 8, 16, 24}
  {
    (n / Pow2(k)) % 256
  }

  lemma IpToUint32Sum(b0: Byte, b1: Byte, b2: Byte, b3: Byte)
    ensures IpToUint32(b0, b1, b2, b3) == b0 * 0x100_0000 + b1 * 0x1_0000 + b2 * 0x100 + b3
    ensures IpToUint32(b0, b1, b2, b3) < TWO_32
  {
    WordPowers();
    hide Pow2, BitOr;
    var h, m := b0 * 0x100_0000, b0 * 0x100_0000 + b1 * 0x1_0000;
    ModOfMultiple(0x100_0000, b0);
    assert b1 * 0x1_0000 < 0x100_0000;
    BitOrDisjoint(h, b1 * 0x1_0000, 24);
    assert m == 0x1_0000 * (b0 * 0x100 + b1);
    ModOfMultiple(0x1_0000, b0 * 0x100 + b1);
    BitOrDisjoint(m, b2 * 0x100, 16);
    var l := m + b2 * 0x100;
    assert l == 0x100 * (b0 * 0x1_0000 + b1 * 0x100 + b2);
    ModOfMultiple(0x100, b0 * 0x1_0000 + b1 * 0x100 + b2);
    BitOrDisjoint(l, b3, 8);
  }

  lemma WordPowers()
    ensures Pow2(0) == 1 && Pow2(8) == 0x100 && Pow2(16) == 0x1_0000 && Pow2(24) == 0x100_0000
  {
    assert Pow2(8) == 0x100;
    assert Pow2(12) == 0x1000 by { assert Pow2(10) == 0x400; }
    assert Pow2(16) == 0x1_0000 by { assert Pow2(14) == 0x4000; }
    assert Pow2(20) == 0x10_0000 by { assert Pow2(18) == 0x4_0000; }
    assert Pow2(24) == 0x100_0000 by { assert Pow2(22) == 0x40_0000; }
  }

  lemma BytesOfSum(b0: Byte, b1: Byte, b2: Byte, b3: Byte, n: U32)
    requires n == b0 * 0x100_0000 + b1 * 0x1_0000 + b2 * 0x100 + b3
    ensures ByteAt(n, 24) == b0 && ByteAt(n, 16) == b1 && ByteAt(n, 8) == b2 && ByteAt(n, 0) == b3
  {
    WordPowers();
    RemainderUnique(n, 0x100_0000, b0, b1 * 0x1_0000 + b2 * 0x100 + b3);
    RemainderUnique(n, 0x1_0000, b0 * 0x100 + b1, b2 * 0x100 + b3);
    RemainderUnique(n, 0x100, b0 * 0x1_0000 + b1 * 0x100 + b2, b3);
    RemainderUnique(b0 * 0x100 + b1, 256, b0, b1);
    RemainderUnique(b0 * 0x1_0000 + b1 * 0x100 + b2, 256, b0 * 0x100 + b1, b2);
  }

  /** Packing four bytes and taking them apart again are inverse, both ways. */
  lemma WordBytesInverse(b0: Byte, b1: Byte, b2: Byte, b3: Byte, n: U32)
    ensures IpToUint32(b0, b1, b2, b3) == n
       <==> ByteAt(n, 24) == b0 && ByteAt(n, 16) == b1 && ByteAt(n, 8) == b2 && ByteAt(n, 0) == b3
  {
    IpToUint32Sum(b0, b1, b2, b3);
    BytesOfSum(b0, b1, b2, b3, IpToUint32(b0, b1, b2, b3));
    WordOfBytes(n);
  }

  lemma WordOfBytes(n: U32)
    ensures n == ByteAt(n, 24) * 0x100_0000 + ByteAt(n, 16) * 0x1_0000 + ByteAt(n, 8) * 0x100 + ByteAt(n, 0)
  {
    WordPowers();
    var q1 := n / 0x100;
    var q2 := q1 / 0x100;
    var q3 := q2 / 0x100;
    RemainderUnique(n, 0x1_0000, q2, (q1 % 0x100) * 0x100 + n % 0x100);
    RemainderUnique(n, 0x100_0000, q3, (q2 % 0x100) * 0x1_0000 + (q1 % 0x100) * 0x100 + n % 0x100);
  }

  // ---------------------------------------------------------------- rendering

  /** `uint32ToIP(n).String()`. */
  function Render(n: U32): string {
    Join(Octets(n), '.')
  }

  function Octets(n: U32): (parts: seq<string>)
    ensures |parts| == 4
  {
    [Decimal(ByteAt(n, 24)), Decimal(ByteAt(n, 16)), Decimal(ByteAt(n, 8)), Decimal(ByteAt(n, 0))]
  }

  /** Rendered addresses hold digits and dots only, with a digit at both ends. */
  lemma RenderShape(n: U32)
    ensures forall c :: c in Render(n) ==> IsDigit(c) || c == '.'
    ensures Render(n) != "" && Trimmed(Render(n), GoSpace)
    ensures Split(Render(n), '.') == Octets(n)
  {
    var p := Octets(n);
    assert forall i :: 0 <= i < 4 ==> DigitsOnly(p[i]);
    SplitJoin(p, '.');
    JoinFour(p);
  }

  predicate DigitsOnly(s: string) {
    s != "" && forall c :: c in s ==> IsDigit(c)
  }

  lemma JoinFour(p: seq<string>)
    requires |p| == 4
    requires forall i :: 0 <= i < 4 ==> DigitsOnly(p[i])
    ensures forall c :: c in Join(p, '.') ==> IsDigit(c) || c == '.'
    ensures Join(p, '.') != "" && Trimmed(Join(p, '.'), GoSpace)
  {
    JoinDigits(p);
  }

  lemma JoinDigits(p: seq<string>)
    requires p != [] && forall i :: 0 <= i < |p| ==> DigitsOnly(p[i])
    ensures var j := Join(p, '.');
            j != "" && IsDigit(j[0]) && IsDigit(j[|j| - 1]) && forall c :: c in j ==> IsDigit(c) || c == '.'
  {
    assert p[0][0] in p[0] && p[0][|p[0]| - 1] in p[0];
    if |p| > 1 {
      JoinDigits(p[1..]);
    }
  }

  /** The rendering determines the address. */
  lemma RenderInjective(m: U32, n: U32)
    requires Render(m) == Render(n)
    ensures m == n
  {
    RenderShape(m);
    RenderShape(n);
    forall k | k in {24, 16, 8, 0} ensures ByteAt(m, k) == ByteAt(n, k) {
      DecimalRoundTrip(ByteAt(m, k));
      DecimalRoundTrip(ByteAt(n, k));
      assert Decimal(ByteAt(m, k)) == Octets(m)[(24 - k) / 8];
      assert Decimal(ByteAt(n, k)) == Octets(n)[(24 - k) / 8];
    }
    WordOfBytes(m);
    WordOfBytes(n);
  }

  // ---------------------------------------------------------------- parsing

  /** dec-octet: 0..255 without leading zeros. */
  predicate IsOctet(s: string) {
    s != "" && (forall c :: c in s ==> IsDigit(c))
    && (|s| > 1 ==> s[0] != '0')
    && DecimalValue(s) < 256
  }

  predicate IsDottedQuad(parts: seq<string>) {
    |parts| == 4 && IsOctet(parts[0]) && IsOctet(parts[1]) && IsOctet(parts[2]) && IsOctet(parts[3])
  }

  function ParseDottedQuad(s: string): Option<U32> {
    var p := Split(s, '.');
    if IsDottedQuad(p) then
      var b0, b1, b2, b3 := DecimalValue(p[0]), DecimalValue(p[1]), DecimalValue(p[2]), DecimalValue(p[3]);
      IpToUint32Sum(b0, b1, b2, b3);
      Some(IpToUint32(b0, b1, b2, b3))
    else None
  }

  /** The first dot or colon decides the family; without either there is no address. */
  function ParseIp(s: string, ipv6: Ipv6Parser): Option<IpAddr> {
    ParseIpFrom(s, 0, ipv6)
  }

  function ParseIpFrom(s: string, i: nat, ipv6: Ipv6Parser): Option<IpAddr>
    requires i <= |s|
    decreases |s| - i
  {
    if i == |s| then None
    else if s[i] == '.' then
      (match ParseDottedQuad(s) case Some(n) => Some(V4(n)) case None => None)
    else if s[i] == ':' then ipv6(s)
    else if s[i] == '%' then None
    else ParseIpFrom(s, i + 1, ipv6)
  }

  lemma OctetOfByte(b: Byte)
    ensures IsOctet(Decimal(b)) && DecimalValue(Decimal(b)) == b
  {
    DecimalRoundTrip(b);
    if b >= 10 {
      LeadingDigit(b);
    }
  }

  lemma {:induction false} LeadingDigit(n: nat)
    requires n >= 1
    ensures Decimal(n)[0] != '0'
  {
    if n >= 10 {
      LeadingDigit(n / 10);
    }
  }

  /** Parsing accepts exactly the renderings, and returns the rendered address. */
  lemma ParseExactlyRendered(s: string, n: U32)
    ensures ParseDottedQuad(s) == Some(n) <==> s == Render(n)
  {
    if s == Render(n) {
      RenderShape(n);
      OctetOfByte(ByteAt(n, 24));
      OctetOfByte(ByteAt(n, 16));
      OctetOfByte(ByteAt(n, 8));
      OctetOfByte(ByteAt(n, 0));
      WordBytesInverse(ByteAt(n, 24), ByteAt(n, 16), ByteAt(n, 8), ByteAt(n, 0), n);
    }
    if ParseDottedQuad(s) == Some(n) {
      var p := Split(s, '.');
      DecimalOfValue(p[0]);
      DecimalOfValue(p[1]);
      DecimalOfValue(p[2]);
      DecimalOfValue(p[3]);
      WordBytesInverse(DecimalValue(p[0]), DecimalValue(p[1]), DecimalValue(p[2]), DecimalValue(p[3]), n);
      assert p == Octets(n);
      JoinSplit(s, '.');
    }
  }

  lemma {:induction false} ParseIpOfQuad(s: string, i: nat, ipv6: Ipv6Parser)
    requires i <= |s|
    requires forall c :: c in s ==> IsDigit(c) || c == '.'
    requires exists k :: i <= k < |s| && s[k] == '.'
    ensures ParseIpFrom(s, i, ipv6)
         == (match ParseDottedQuad(s) case Some(n) => Some(V4(n)) case None => None)
    decreases |s| - i
  {
    assert s[i] in s;
    if s[i] != '.' {
      ParseIpOfQuad(s, i + 1, ipv6);
    }
  }

  // ---------------------------------------------------------------- validation

  datatype AddressError = Required | HasPrefix | InvalidIp | NotIPv4 | NotCanonical(canonical: string)

  /** `ValidateIPv4Address`: None when the address is accepted. */
  function ValidateIPv4Address(address: string, ipv6: Ipv6Parser): Option<AddressError> {
    var s := TrimSpace(address);
    if s == "" then Some(Required)
    else if '/' in s then Some(HasPrefix)
    else
      match ParseIp(s, ipv6)
      case None => Some(InvalidIp)
      case Some(ip) =>
        match ip.To4()
        case None => Some(NotIPv4)
        case Some(v4) => if Render(v4) != s then Some(NotCanonical(Render(v4))) else None
  }

  predicate Canonical(s: string) {
    ParseDottedQuad(s).Some?
  }

  /**
   * Validation accepts, after trimming, exactly the rendered addresses, whatever
   * the IPv6 parser makes of strings that are not dotted quads.
   */
  lemma ValidateExactlyCanonical(address: string, ipv6: Ipv6Parser)
    ensures ValidateIPv4Address(address, ipv6) == None
       <==> exists n: U32 :: TrimSpace(address) == Render(n)
  {
    var s := TrimSpace(address);
    if ValidateIPv4Address(address, ipv6) == None {
      var n := ParseIp(s, ipv6).value.To4().value;
      assert s == Render(n);
    }
    if n: U32 :| s == Render(n) {
      RenderIsParsed(n, ipv6);
    }
  }

  lemma RenderIsParsed(n: U32, ipv6: Ipv6Parser)
    ensures ParseIp(Render(n), ipv6) == Some(V4(n))
    ensures '/' !in Render(n)
  {
    RenderShape(n);
    var p := Octets(n);
    assert Render(n) == p[0] + ['.'] + Join(p[1..], '.');
    assert Render(n)[|p[0]|] == '.';
    ParseIpOfQuad(Render(n), 0, ipv6);
    ParseExactlyRendered(Render(n), n);
  }

  lemma CanonicalIsRendered(s: string)
    ensures Canonical(s) <==> exists n: U32 :: s == Render(n)
  {
    if Canonical(s) {
      ParseExactlyRendered(s, ParseDottedQuad(s).value);
    }
    if n: U32 :| s == Render(n) {
      ParseExactlyRendered(s, n);
    }
  }

  // ---------------------------------------------------------------- object names

  function DotToDash(c: char): char {
    if c == '.' then '-' else c
  }

  /** The name an IPAddress object is created under. */
  function AddressObjectName(address: string): string {
    MapChars(TrimSpace(address), DotToDash)
  }

  /** Distinct addresses get distinct object names: HTTP 409 really means "same address". */
  lemma AddressObjectNameInjective(m: U32, n: U32)
    requires AddressObjectName(Render(m)) == AddressObjectName(Render(n))
    ensures m == n
  {
    RenderShape(m);
    RenderShape(n);
    TrimOfTrimmed(Render(m), GoSpace);
    TrimOfTrimmed(Render(n), GoSpace);
    var a, b := Render(m), Render(n);
    forall i | 0 <= i < |a| ensures a[i] == b[i] {
      assert a[i] in a && b[i] in b;
      assert AddressObjectName(a)[i] == DotToDash(a[i]);
      assert AddressObjectName(b)[i] == DotToDash(b[i]);
    }
    RenderInjective(m, n);
  }

  /** On validated addresses, excluding by string is excluding by number. */
  lemma StringSetIsNumberSet(used: set<string>, n: U32)
    ensures Render(n) in used <==> n in (set s | s in used && Canonical(s) :: ParseDottedQuad(s).value)
  {
    ParseExactlyRendered(Render(n), n);
    var numbers := set s | s in used && Canonical(s) :: ParseDottedQuad(s).value;
    if n in numbers {
      var s :| s in used && Canonical(s) && ParseDottedQuad(s).value == n;
      ParseExactlyRendered(s, n);
    }
  }
}
