// The Dex storage name of an OAuth2 client: unpadded lower-case base32
// (RFC 4648, sections 3.2 and 6) of the client id followed by eight fixed bytes.
//
// `DexIdToName` is the console's shift-register loop, with the truncation of its
// never-masked 32-bit register written out. `Base32` is the standard's definition
// on bit strings, and `Base32Decode` inverts it.
module DexName {
  import opened MachineWords

  const BASE32_ALPHABET: string := "abcdefghijklmnopqrstuvwxyz234567"

  /** The FNV-64 offset basis, cbf29ce484222325, big-endian. */
  const FNV64_EMPTY: seq<Byte> := [0xcb, 0xf2, 0x9c, 0xe4, 0x84, 0x22, 0x23, 0x25]

  // ---------------------------------------------------------------- bit strings

  /** The big-endian value of a bit string. */
  function Num(bits: seq<bool>): nat {
    if bits == [] then 0
    else 2 * Num(bits[..|bits| - 1]) + (if bits[|bits| - 1] then 1 else 0)
  }

  /** The k low bits of v, most significant first. */
  function BitsOf(v: nat, k: nat): (bits: seq<bool>)
    ensures |bits| == k
  {
    if k == 0 then [] else BitsOf(v / 2, k - 1) + [v % 2 == 1]
  }

  lemma {:induction false} NumBound(bits: seq<bool>)
    ensures Num(bits) < Pow2(|bits|)
  {
    if bits != [] {
      NumBound(bits[..|bits| - 1]);
    }
  }

  lemma {:induction false} NumOfBits(v: nat, k: nat)
    requires v < Pow2(k)
    ensures Num(BitsOf(v, k)) == v
  {
    if k > 0 {
      NumOfBits(v / 2, k - 1);
      var bits := BitsOf(v, k);
      assert bits[..k - 1] == BitsOf(v / 2, k - 1);
    }
  }

  lemma {:induction false} BitsOfNum(bits: seq<bool>)
    ensures BitsOf(Num(bits), |bits|) == bits
  {
    if bits != [] {
      var init, last := bits[..|bits| - 1], bits[|bits| - 1];
      BitsOfNum(init);
      assert Num(bits) / 2 == Num(init) && (Num(bits) % 2 == 1) == last;
      assert bits == init + [last];
    }
  }

  lemma {:induction false} NumAppend(a: seq<bool>, b: seq<bool>)
    ensures Num(a + b) == Num(a) * Pow2(|b|) + Num(b)
    decreases |b|
  {
    if b == [] {
      assert a + b == a;
    } else {
      var init := b[..|b| - 1];
      assert (a + b)[..|a + b| - 1] == a + init;
      NumAppend(a, init);
      DoubledProduct(Num(a), Pow2(|init|));
      assert Pow2(|b|) == 2 * Pow2(|init|);
      assert Num(a + b) == 2 * Num(a + init) + (if b[|b| - 1] then 1 else 0);
      hide Num, Pow2;
    }
  }

  lemma DoubledProduct(x: nat, y: nat)
    ensures x * (2 * y) == 2 * (x * y)
  {
  }

  /** All bits of a byte string, in order. */
  function Stream(bytes: seq<Byte>): (bits: seq<bool>)
    ensures |bits| == 8 * |bytes|
  {
    if bytes == [] then [] else BitsOf(bytes[0], 8) + Stream(bytes[1..])
  }

  // ---------------------------------------------------------------- the standard

  function Zeros(k: nat): (bits: seq<bool>) {
    seq(k, _ => false)
  }

  function Digit(bits: seq<bool>): char
    requires |bits| == 5
  {
    NumBound(bits);
    BASE32_ALPHABET[Num(bits)]
  }

  /** Five-bit groups from the left; a short last group is filled with zero bits. */
  function Groups(bits: seq<bool>): string {
    if bits == [] then ""
    else if |bits| < 5 then [Digit(bits + Zeros(5 - |bits|))]
    else [Digit(bits[..5])] + Groups(bits[5..])
  }

  /** RFC 4648 base32 in lower case, without padding. */
  function Base32(bytes: seq<Byte>): string {
    Groups(Stream(bytes))
  }

  // ---------------------------------------------------------------- the decoder

  function DigitValue(c: char): nat {
    if 'a' <= c <= 'z' then c as nat - 'a' as nat
    else if '2' <= c <= '7' then c as nat - '2' as nat + 26
    else 0
  }

  function Ungroup(text: string): seq<bool> {
    if text == "" then [] else BitsOf(DigitValue(text[0]), 5) + Ungroup(text[1..])
  }

  /** Whole bytes from the left; fewer than eight remaining bits are dropped. */
  function Bytes(bits: seq<bool>): seq<Byte> {
    if |bits| < 8 then []
    else
      NumBound(bits[..8]);
      [Num(bits[..8])] + Bytes(bits[8..])
  }

  function Base32Decode(text: string): seq<Byte> {
    Bytes(Ungroup(text))
  }

  lemma DigitRoundTrip(bits: seq<bool>)
    requires |bits| == 5
    ensures BitsOf(DigitValue(Digit(bits)), 5) == bits
  {
    NumBound(bits);
    assert DigitValue(BASE32_ALPHABET[Num(bits)]) == Num(bits);
    BitsOfNum(bits);
  }

  /** Reading the digits back gives the bits, followed by at most four zeros. */
  lemma {:induction false} UngroupGroups(bits: seq<bool>)
    ensures bits <= Ungroup(Groups(bits))
    ensures |Ungroup(Groups(bits))| < |bits| + 5
  {
    if bits == [] {
    } else if |bits| < 5 {
      var padded := bits + Zeros(5 - |bits|);
      DigitRoundTrip(padded);
      assert Groups(bits)[1..] == "";
    } else {
      var rest := Groups(bits[5..]);
      DigitRoundTrip(bits[..5]);
      UngroupGroups(bits[5..]);
      assert Groups(bits)[1..] == rest;
      assert Ungroup(Groups(bits)) == bits[..5] + Ungroup(rest);
    }
  }

  lemma {:induction false} BytesOfStream(bytes: seq<Byte>, tail: seq<bool>)
    requires |tail| < 8
    ensures Bytes(Stream(bytes) + tail) == bytes
  {
    if bytes != [] {
      var bits := Stream(bytes) + tail;
      assert bits[..8] == BitsOf(bytes[0], 8);
      assert bits[8..] == Stream(bytes[1..]) + tail;
      NumOfBits(bytes[0], 8);
      BytesOfStream(bytes[1..], tail);
    }
  }

  /** Decoding inverts encoding, for every byte string. */
  lemma Base32RoundTrip(bytes: seq<Byte>)
    ensures Base32Decode(Base32(bytes)) == bytes
  {
    var bits := Stream(bytes);
    UngroupGroups(bits);
    var back := Ungroup(Groups(bits));
    var tail := back[|bits|..];
    assert back == bits + tail;
    BytesOfStream(bytes, tail);
  }

  // ---------------------------------------------------------------- the register

  /** What the register holds: its low `|tail|` bits are the pending bits. */
  ghost predicate Holds(value: int, tail: seq<bool>) {
    ToUint32(value) % Pow2(|tail|) == Num(tail)
  }

  function ShiftIn(value: int, byte: Byte): int {
    JsOr(JsShl(value, 8), byte)
  }

  function TakeDigit(value: int, bits: nat): int
    requires bits >= 5
  {
    JsAnd(JsUshr(value, bits - 5), 31)
  }

  function LastDigit(value: int, bits: nat): int
    requires bits <= 5
  {
    JsAnd(JsShl(value, 5 - bits), 31)
  }

  lemma Powers()
    ensures Pow2(1) == 2 && Pow2(2) == 4 && Pow2(3) == 8 && Pow2(4) == 16 && Pow2(5) == 32
    ensures Pow2(6) == 64 && Pow2(7) == 128 && Pow2(8) == 256 && Pow2(9) == 512
    ensures Pow2(10) == 1024 && Pow2(11) == 2048 && Pow2(12) == 4096
  {
    assert Pow2(5) == 32;
    assert Pow2(8) == 256;
  }

  lemma ToInt32KeepsWord(x: int)
    ensures ToUint32(ToInt32(x)) == ToUint32(x)
  {
  }

  lemma SmallWord(x: nat)
    requires x < 0x8000_0000
    ensures ToInt32(x) == ToUint32(x) == x
  {
  }

  /** Shifting a byte in never disturbs the pending bits, truncation included. */
  lemma ShiftInHolds(value: int, byte: Byte, tail: seq<bool>)
    requires |tail| <= 4 && Holds(value, tail)
    ensures Holds(ShiftIn(value, byte), tail + BitsOf(byte, 8))
  {
    ShiftInValue(value, byte);
    NumAppend(tail, BitsOf(byte, 8));
    NumOfBits(byte, 8);
    Powers();
    ShiftedRemainder(ToUint32(value), byte, |tail|);
    hide Num, BitsOf, ShiftIn;
  }

  lemma ShiftInValue(value: int, byte: Byte)
    ensures ToUint32(ShiftIn(value, byte)) == ToUint32(ToUint32(value) * 256) + byte
  {
    Powers();
    var wide := ToUint32(value) * 256;
    var shifted: nat := ToUint32(wide);
    ToInt32KeepsWord(wide);
    RemainderOfRemainder(wide, 256, 0x100_0000);
    ModOfMultiple(256, ToUint32(value));
    BitOrDisjoint(shifted, byte, 8);
    OrWord(JsShl(value, 8), byte);
    assert shifted + byte < TWO_32;
  }

  lemma OrWord(x: int, byte: Byte)
    requires BitOr(ToUint32(x), byte) < TWO_32
    ensures ToUint32(JsOr(x, byte)) == BitOr(ToUint32(x), byte)
  {
    ToInt32KeepsWord(BitOr(ToUint32(x), ToUint32(byte)));
  }

  lemma ShiftedRemainder(u: U32, byte: Byte, bits: nat)
    requires bits <= 4
    ensures (ToUint32(u * 256) + byte) % Pow2(bits + 8) == u % Pow2(bits) * 256 + byte
  {
    var p := Pow2(bits);
    Pow2Sum(bits, 8);
    Powers();
    var d := 256 * p;
    var c: nat := if bits == 0 then 0x100_0000 else if bits == 1 then 0x80_0000
                  else if bits == 2 then 0x40_0000 else if bits == 3 then 0x20_0000 else 0x10_0000;
    assert d * c == TWO_32;
    RemainderOfRemainder(u * 256, d, c);
    ScaledRemainder(u, p, 256);
    AddedBelow(ToUint32(u * 256), p, u % p, byte);
  }

  lemma AddedBelow(m: nat, p: nat, t: nat, byte: Byte)
    requires 0 < p && t < p && m % (256 * p) == t * 256
    ensures (m + byte) % (256 * p) == t * 256 + byte
  {
    var d := 256 * p;
    assert m == d * (m / d) + t * 256;
    RemainderUnique(m + byte, d, m / d, t * 256 + byte);
  }

  /** The digit read off the top is the first pending group, and the rest stays. */
  lemma TakeDigitHolds(value: int, tail: seq<bool>)
    requires 5 <= |tail| <= 12 && Holds(value, tail)
    ensures TakeDigit(value, |tail|) == Num(tail[..5])
    ensures Holds(value, tail[5..])
  {
    var u := ToUint32(value);
    var low := |tail| - 5;
    var p := Pow2(low);
    var high, rest := tail[..5], tail[5..];
    assert tail == high + rest;
    NumAppend(high, rest);
    NumBound(high);
    NumBound(rest);
    Pow2Sum(low, 5);
    assert Pow2(5) == 32;
    assert low + 5 == |tail| && Pow2(|tail|) == p * 32;
    MaskedQuotient(value, low);
    hide Num, TakeDigit, ToUint32, Pow2;
    SameRemainder(u, Pow2(|tail|), p, Num(tail), Num(high), Num(rest));
    SplitRemainder(u, p, 32, Num(high), Num(rest));
  }

  lemma SameRemainder(u: nat, m: nat, p: nat, n: nat, high: nat, low: nat)
    requires m > 0 && u % m == n && m == p * 32 && n == high * p + low
    ensures p * 32 > 0 && u % (p * 32) == p * high + low
  {
    assert high * p == p * high;
  }

  /** Shifting right by `low` and masking reads the five bits above the `low` lowest. */
  lemma MaskedQuotient(value: int, low: nat)
    requires low <= 7
    ensures Pow2(low) > 0 && TakeDigit(value, low + 5) == ToUint32(value) / Pow2(low) % 32
  {
    var u, p := ToUint32(value), Pow2(low);
    assert Pow2(5) == 32;
    ShrinksBelow(u, p);
    BitAndMask(u / p, 5);
    SmallMask(u / p);
  }

  lemma SmallMask(w: U32)
    ensures JsAnd(w, 31) == BitAnd(w, 31)
  {
    assert Pow2(5) == 32;
    BitAndMask(w, 5);
    SmallWord(BitAnd(w, 31));
  }

  lemma ShrinksBelow(u: nat, p: nat)
    requires p > 0
    ensures 0 <= u / p <= u
  {
    DivNonNegative(u, p);
    var q := u / p;
    if q > u {
      ProductAwayFromZero(q, p);
    }
  }

  lemma NumPadded(tail: seq<bool>, k: nat)
    ensures Num(tail + Zeros(k)) == Num(tail) * Pow2(k)
  {
    NumAppend(tail, Zeros(k));
    NumZeros(k);
  }

  lemma {:induction false} NumZeros(k: nat)
    ensures Num(Zeros(k)) == 0
  {
    if k > 0 {
      assert Zeros(k)[..k - 1] == Zeros(k - 1);
      NumZeros(k - 1);
    }
  }

  lemma LastDigitHolds(value: int, tail: seq<bool>)
    requires 1 <= |tail| <= 4 && Holds(value, tail)
    ensures LastDigit(value, |tail|) == Num(tail + Zeros(5 - |tail|))
  {
    var u := ToUint32(value);
    var k := 5 - |tail|;
    var p, s := Pow2(|tail|), Pow2(k);
    assert Pow2(5) == 32;
    Pow2Sum(k, |tail|);
    var shifted: nat := ToUint32(u * s);
    ToInt32KeepsWord(u * s);
    RemainderOfRemainder(u * s, 32, 0x800_0000);
    ScaledRemainder(u, p, s);
    BitAndMask(shifted, 5);
    SmallMask(shifted);
    MaskedWord(JsShl(value, k));
    NumPadded(tail, k);
  }

  lemma MaskedWord(x: int)
    ensures JsAnd(x, 31) == JsAnd(ToUint32(x), 31)
  {
    var u := ToUint32(x);
    assert ToUint32(u) == u;
    hide ToUint32, BitAnd, ToInt32;
  }

  // ---------------------------------------------------------------- the loop

  lemma NextByte(payload: seq<Byte>, i: nat, tail: seq<bool>)
    requires i < |payload|
    ensures tail + Stream(payload[i..]) == (tail + BitsOf(payload[i], 8)) + Stream(payload[i + 1..])
  {
    assert payload[i..][1..] == payload[i + 1..];
  }

  lemma NextDigit(value: int, bits: nat, out: string, tail: seq<bool>, rest: seq<bool>)
    requires 5 <= |tail| == bits <= 12 && Holds(value, tail)
    ensures 0 <= TakeDigit(value, bits) < 32
    ensures Holds(value, tail[5..])
    ensures out + Groups(tail + rest)
         == (out + [BASE32_ALPHABET[TakeDigit(value, bits)]]) + Groups(tail[5..] + rest)
  {
    TakeDigitHolds(value, tail);
    NumBound(tail[..5]);
    assert (tail + rest)[..5] == tail[..5];
    assert (tail + rest)[5..] == tail[5..] + rest;
  }

  lemma FinalDigit(value: int, bits: nat, out: string, tail: seq<bool>)
    requires 1 <= |tail| == bits <= 4 && Holds(value, tail)
    ensures 0 <= LastDigit(value, bits) < 32
    ensures out + Groups(tail) == out + [BASE32_ALPHABET[LastDigit(value, bits)]]
  {
    LastDigitHolds(value, tail);
    NumBound(tail + Zeros(5 - bits));
  }

  /**
   * The console's encoder. The register `value` is never masked; it is a 32-bit
   * value only because `<<` and `|` truncate.
   */
  method DexIdToName(id: seq<Byte>) returns (out: string)
    ensures out == Base32(id + FNV64_EMPTY)
  {
    var payload := id + FNV64_EMPTY;
    var bits: nat := 0;
    var value := 0;
    out := "";
    ghost var tail: seq<bool> := [];
    assert Stream(payload) == tail + Stream(payload[0..]) by {
      assert payload[0..] == payload;
    }
    for i := 0 to |payload|
      invariant |tail| == bits <= 4
      invariant Holds(value, tail)
      invariant Base32(payload) == out + Groups(tail + Stream(payload[i..]))
    {
      ghost var rest := Stream(payload[i + 1..]);
      NextByte(payload, i, tail);
      ShiftInHolds(value, payload[i], tail);
      value := ShiftIn(value, payload[i]);
      bits := bits + 8;
      tail := tail + BitsOf(payload[i], 8);
      while bits >= 5
        invariant |tail| == bits <= 12
        invariant Holds(value, tail)
        invariant Base32(payload) == out + Groups(tail + rest)
      {
        NextDigit(value, bits, out, tail, rest);
        out := out + [BASE32_ALPHABET[TakeDigit(value, bits)]];
        bits := bits - 5;
        tail := tail[5..];
      }
    }
    assert tail + Stream(payload[|payload|..]) == tail;
    if bits > 0 {
      FinalDigit(value, bits, out, tail);
      out := out + [BASE32_ALPHABET[LastDigit(value, bits)]];
    }
  }

  /** No two client ids share a storage name. */
  lemma NameInjective(id1: seq<Byte>, id2: seq<Byte>)
    requires Base32(id1 + FNV64_EMPTY) == Base32(id2 + FNV64_EMPTY)
    ensures id1 == id2
  {
    Base32RoundTrip(id1 + FNV64_EMPTY);
    Base32RoundTrip(id2 + FNV64_EMPTY);
    var n := |id1|;
    assert |id1| == |id2|;
    assert id1 == (id1 + FNV64_EMPTY)[..n] == (id2 + FNV64_EMPTY)[..n] == id2;
  }

  // ---------------------------------------------------------------- client ids

  /** `kmc-devbox.<namespace>.<vm>`, in code units. */
  function DexDevBoxClientId(namespace: string, vmName: string): string {
    "kmc-devbox." + namespace + "." + vmName
  }

  /** Namespaces are DNS labels: without a dot in them the pair can be read back. */
  lemma ClientIdInjective(ns1: string, vm1: string, ns2: string, vm2: string)
    requires '.' !in ns1 && '.' !in ns2
    requires DexDevBoxClientId(ns1, vm1) == DexDevBoxClientId(ns2, vm2)
    ensures ns1 == ns2 && vm1 == vm2
  {
    var prefix := "kmc-devbox.";
    var t1, t2 := ns1 + "." + vm1, ns2 + "." + vm2;
    assert DexDevBoxClientId(ns1, vm1) == prefix + t1;
    assert DexDevBoxClientId(ns2, vm2) == prefix + t2;
    assert t1 == (prefix + t1)[|prefix|..] == (prefix + t2)[|prefix|..] == t2;
    SameCut(ns1, vm1, ns2, vm2);
  }

  lemma SameCut(a1: string, b1: string, a2: string, b2: string)
    requires '.' !in a1 && '.' !in a2
    requires a1 + "." + b1 == a2 + "." + b2
    ensures a1 == a2 && b1 == b2
  {
    var t1, t2 := a1 + "." + b1, a2 + "." + b2;
    assert t1[|a1|] == '.' && t2[|a2|] == '.';
    assert forall k :: 0 <= k < |a1| ==> t1[k] == a1[k];
    assert forall k :: 0 <= k < |a2| ==> t2[k] == a2[k];
    assert |a1| == |a2|;
    assert a1 == t1[..|a1|] == t2[..|a2|] == a2;
    assert b1 == t1[|a1| + 1..] == t2[|a2| + 1..] == b2;
  }
}
