/**
 * `NetworkV4` / `NetworkV6`: an address with a mask, built from a prefix
 * length or from a mask address, parsed from `addr/prefix` or `addr/mask`,
 * and tested for containment as `(base & mask) == (addr & mask)`.
 *
 * Both families share one model: a network of family `f` holds
 * `Width(f)` address octets and `Width(f)` mask octets. Bit `i` of an octet
 * string counts from the most significant bit of the first octet, the order
 * of `u32::from(Ipv4Addr)` and `u128::from(Ipv6Addr)`. The source compares
 * native-endian integers, but AND and equality act octet by octet, so the
 * byte order does not change the outcome.
 */
module Netmask {
  import opened Wrappers
  import opened Bytes
  import opened Text
  import opened Ip

  datatype Family = IPv4 | IPv6

  /** Octets in an address of the family. */
  function Width(f: Family): nat { if f == IPv4 then 4 else 16 }

  /** Bits in an address of the family: 32 or 128. */
  function BitWidth(f: Family): nat { 8 * Width(f) }

  datatype Network = Network(address: seq<byte>, mask: seq<byte>)

  predicate ValidFor(n: Network, f: Family) {
    |n.address| == Width(f) && |n.mask| == Width(f)
  }

  datatype NetworkParseErr = MaskUnspecified | InvalidAddress | InvalidMask | MaskTooLarge

  // ---- bits --------------------------------------------------------------

  function Pow2(n: nat): (p: nat)
    ensures p >= 1
  {
    if n == 0 then 1 else 2 * Pow2(n - 1)
  }

  /** Bit `i` of `b`, counting from the least significant bit. */
  function LowBit(b: nat, i: nat): bool
    decreases i
  {
    if i == 0 then b % 2 == 1 else LowBit(b / 2, i - 1)
  }

  /** The low `n` bits of `a & b`. */
  function AndBits(a: nat, b: nat, n: nat): (r: nat)
    ensures r < Pow2(n)
  {
    if n == 0 then 0 else 2 * AndBits(a / 2, b / 2, n - 1) + (if a % 2 == 1 && b % 2 == 1 then 1 else 0)
  }

  /** `&` on octets. */
  function And(a: byte, b: byte): byte {
    assert Pow2(8) == 256;
    AndBits(a as nat, b as nat, 8) as byte
  }

  /** Bit `j` of an octet, counting from the least significant bit. */
  predicate OctetBit(b: byte, j: nat) {
    LowBit(b as nat, j)
  }

  /** Bit `i` of an octet string, most significant bit of the first octet first. */
  predicate Bit(s: seq<byte>, i: nat)
    requires i < 8 * |s|
  {
    OctetBit(s[i / 8], 7 - i % 8)
  }

  /** The value of `w` bits whose top `n` bits are set and the rest clear. */
  function TopOnes(n: nat, w: nat): (r: nat)
    requires n <= w
    ensures r < Pow2(w)
  {
    if w == 0 then 0
    else if n == w then 2 * TopOnes(n - 1, w - 1) + 1
    else 2 * TopOnes(n, w - 1)
  }

  function Clamp(x: int): (c: nat)
    ensures c <= 8
  {
    if x < 0 then 0 else if x > 8 then 8 else x
  }

  /** The `w`-octet mask whose top `p` bits are set (`!0 >> bits << bits`). */
  function PrefixMask(w: nat, p: nat): (m: seq<byte>)
    requires p <= 8 * w
    ensures |m| == w
  {
    assert Pow2(8) == 256;
    seq(w, k requires 0 <= k < w => TopOnes(Clamp(p - 8 * k), 8) as byte)
  }

  /** The octets of `s & m`. */
  function Masked(s: seq<byte>, m: seq<byte>): (r: seq<byte>)
    requires |s| == |m|
    ensures |r| == |s|
  {
    seq(|s|, k requires 0 <= k < |s| => And(s[k], m[k]))
  }

  lemma {:induction false} AndBit(a: nat, b: nat, n: nat, i: nat)
    requires i < n
    ensures LowBit(AndBits(a, b, n), i) == (LowBit(a, i) && LowBit(b, i))
  {
    if i > 0 {
      AndBit(a / 2, b / 2, n - 1, i - 1);
    }
  }

  /** Two numbers below `2^n` with the same `n` low bits are equal. */
  lemma {:induction false} BitsDetermine(a: nat, b: nat, n: nat)
    requires a < Pow2(n) && b < Pow2(n)
    requires forall i :: 0 <= i < n ==> LowBit(a, i) == LowBit(b, i)
    ensures a == b
  {
    if n > 0 {
      assert LowBit(a, 0) == LowBit(b, 0);
      forall i | 0 <= i < n - 1
        ensures LowBit(a / 2, i) == LowBit(b / 2, i)
      {
        assert LowBit(a, i + 1) == LowBit(b, i + 1);
      }
      BitsDetermine(a / 2, b / 2, n - 1);
    }
  }

  lemma {:induction false} TopOnesBits(n: nat, w: nat, j: nat)
    requires n <= w && j < w
    ensures LowBit(TopOnes(n, w), j) <==> j >= w - n
  {
    if j > 0 {
      if n == w {
        TopOnesBits(n - 1, w - 1, j - 1);
      } else {
        TopOnesBits(n, w - 1, j - 1);
      }
    }
  }

  /** Octets with the same eight bits are equal. */
  lemma OctetBitsDetermine(a: byte, b: byte)
    requires forall j :: 0 <= j < 8 ==> OctetBit(a, j) == OctetBit(b, j)
    ensures a == b
  {
    var an, bn := a as nat, b as nat;
    forall j | 0 <= j < 8
      ensures LowBit(an, j) == LowBit(bn, j)
    {
      assert OctetBit(a, j) == OctetBit(b, j);
    }
    assert Pow2(8) == 256;
    BitsDetermine(an, bn, 8);
  }

  /** Octet strings of equal length with the same bits are equal. */
  lemma OctetsDetermine(a: seq<byte>, b: seq<byte>)
    requires |a| == |b|
    requires forall i :: 0 <= i < 8 * |a| ==> Bit(a, i) == Bit(b, i)
    ensures a == b
  {
    forall k | 0 <= k < |a|
      ensures a[k] == b[k]
    {
      forall j | 0 <= j < 8
        ensures OctetBit(a[k], j) == OctetBit(b[k], j)
      {
        var i := 8 * k + 7 - j;
        assert i / 8 == k && 7 - i % 8 == j;
        assert Bit(a, i) == Bit(b, i);
      }
      OctetBitsDetermine(a[k], b[k]);
    }
  }

  /** Exactly the top `p` bits of `PrefixMask(w, p)` are set. */
  lemma PrefixMaskBits(w: nat, p: nat)
    requires p <= 8 * w
    ensures forall i :: 0 <= i < 8 * w ==> (Bit(PrefixMask(w, p), i) <==> i < p)
  {
    forall i | 0 <= i < 8 * w
      ensures Bit(PrefixMask(w, p), i) <==> i < p
    {
      PrefixMaskBit(w, p, i);
    }
  }

  /** Bit `i` of `PrefixMask(w, p)` is set iff `i < p`. */
  lemma PrefixMaskBit(w: nat, p: nat, i: nat)
    requires p <= 8 * w && i < 8 * w
    ensures Bit(PrefixMask(w, p), i) <==> i < p
  {
    var m := PrefixMask(w, p);
    var k, r := i / 8, i % 8;
    assert i == 8 * k + r && 0 <= r < 8;
    var c := Clamp(p - 8 * k);
    assert m[k] as nat == TopOnes(c, 8);
    TopOnesBits(c, 8, 7 - r);
    assert 7 - r >= 8 - c <==> r < c;
  }

  /** Masking two octets by `m` gives equal results iff they agree on the bits set in `m`. */
  lemma OctetMaskedEq(a: byte, x: byte, m: byte)
    ensures And(a, m) == And(x, m) <==> forall j :: 0 <= j < 8 ==> (OctetBit(m, j) ==> OctetBit(a, j) == OctetBit(x, j))
  {
    forall j | 0 <= j < 8
      ensures OctetBit(And(a, m), j) == (OctetBit(a, j) && OctetBit(m, j))
      ensures OctetBit(And(x, m), j) == (OctetBit(x, j) && OctetBit(m, j))
    {
      AndBit(a as nat, m as nat, 8, j);
      AndBit(x as nat, m as nat, 8, j);
    }
    if forall j :: 0 <= j < 8 ==> (OctetBit(m, j) ==> OctetBit(a, j) == OctetBit(x, j)) {
      OctetBitsDetermine(And(a, m), And(x, m));
    }
  }

  /** Masked octet strings are equal iff the strings agree on every bit set in the mask. */
  lemma MaskedEqBits(a: seq<byte>, x: seq<byte>, m: seq<byte>)
    requires |a| == |m| && |x| == |m|
    ensures Masked(a, m) == Masked(x, m) <==> forall i :: 0 <= i < 8 * |m| ==> (Bit(m, i) ==> Bit(a, i) == Bit(x, i))
  {
    if Masked(a, m) == Masked(x, m) {
      forall i | 0 <= i < 8 * |m| && Bit(m, i)
        ensures Bit(a, i) == Bit(x, i)
      {
        var k := i / 8;
        assert Masked(a, m)[k] == Masked(x, m)[k];
        OctetMaskedEq(a[k], x[k], m[k]);
      }
    }
    if forall i :: 0 <= i < 8 * |m| ==> (Bit(m, i) ==> Bit(a, i) == Bit(x, i)) {
      forall k | 0 <= k < |m|
        ensures Masked(a, m)[k] == Masked(x, m)[k]
      {
        forall j | 0 <= j < 8 && OctetBit(m[k], j)
          ensures OctetBit(a[k], j) == OctetBit(x[k], j)
        {
          var i := 8 * k + 7 - j;
          assert i / 8 == k && 7 - i % 8 == j;
          assert Bit(m, i);
        }
        OctetMaskedEq(a[k], x[k], m[k]);
      }
    }
  }

  // ---- networks ----------------------------------------------------------

  /**
   * `from_prefix`: the shift count `32 - prefix` (`128 - prefix`) is
   * computed on `u8`, so a prefix above the width wraps to a count of at
   * least the width, which yields the zero mask.
   */
  function FromPrefix(f: Family, addr: seq<byte>, prefix: byte): (n: Network)
    requires |addr| == Width(f)
    ensures n.address == addr && ValidFor(n, f)
  {
    Network(addr, PrefixMask(Width(f), MaskOnes(BitWidth(f), prefix)))
  }

  /** The number of leading ones `from_prefix` keeps: `width - (width - prefix)`, the count wrapping on `u8`. */
  function MaskOnes(width: nat, prefix: byte): (p: nat)
    ensures p <= width
  {
    var bits := (width - prefix as int) % 256;
    if bits < width then width - bits else 0
  }

  /** Within a width that fits a `u8`, the count of ones is the prefix itself. */
  lemma MaskOnesWithin(width: nat, prefix: byte)
    requires prefix as nat <= width < 256
    ensures MaskOnes(width, prefix) == prefix as nat
  {
    assert (width - prefix as int) % 256 == width - prefix as int;
  }

  /**
   * The mask of `FromPrefix` has exactly the top `prefix` bits set; a
   * prefix above the width leaves it all zeros.
   */
  lemma FromPrefixMask(f: Family, addr: seq<byte>, prefix: byte)
    requires |addr| == Width(f)
    ensures prefix as nat <= BitWidth(f) ==> forall i :: 0 <= i < BitWidth(f) ==> (Bit(FromPrefix(f, addr, prefix).mask, i) <==> i < prefix as nat)
    ensures prefix as nat > BitWidth(f) ==> forall i :: 0 <= i < BitWidth(f) ==> !Bit(FromPrefix(f, addr, prefix).mask, i)
  {
    if prefix as nat <= BitWidth(f) {
      FromPrefixIsPrefixMask(f, addr, prefix);
      PrefixMaskBits(Width(f), prefix as nat);
    } else {
      FromPrefixWraps(f, addr, prefix);
      PrefixMaskBits(Width(f), 0);
    }
  }

  /** A prefix above the width wraps the `u8` shift count to the zero mask. */
  lemma FromPrefixWraps(f: Family, addr: seq<byte>, prefix: byte)
    requires |addr| == Width(f) && prefix as nat > BitWidth(f)
    ensures FromPrefix(f, addr, prefix).mask == PrefixMask(Width(f), 0)
  {
  }

  /** `in_range`: `(base & mask) == (addr & mask)`. */
  function InRange(n: Network, addr: seq<byte>): (r: bool)
    requires |n.address| == |n.mask| == |addr|
    ensures addr == n.address ==> r
  {
    Masked(n.address, n.mask) == Masked(addr, n.mask)
  }

  /** Containment means agreeing with the base address on every bit set in the mask. */
  lemma InRangeBits(n: Network, addr: seq<byte>)
    requires |n.address| == |n.mask| == |addr|
    ensures InRange(n, addr) <==> forall i :: 0 <= i < 8 * |addr| ==> (Bit(n.mask, i) ==> Bit(n.address, i) == Bit(addr, i))
  {
    MaskedEqBits(n.address, addr, n.mask);
  }

  /** A prefix network contains exactly the addresses that share its top `prefix` bits. */
  lemma PrefixRange(f: Family, base: seq<byte>, prefix: byte, addr: seq<byte>)
    requires |base| == Width(f) && |addr| == Width(f) && prefix as nat <= BitWidth(f)
    ensures InRange(FromPrefix(f, base, prefix), addr) <==> forall i :: 0 <= i < prefix as nat ==> Bit(base, i) == Bit(addr, i)
  {
    var n := FromPrefix(f, base, prefix);
    FromPrefixMask(f, base, prefix);
    InRangeBits(n, addr);
    if InRange(n, addr) {
      forall i | 0 <= i < prefix as nat
        ensures Bit(base, i) == Bit(addr, i)
      {
        assert Bit(n.mask, i);
      }
    }
  }

  /** A prefix-0 network, or one whose `u8` prefix wrapped, contains every address of its family. */
  lemma ZeroPrefixContainsAll(f: Family, base: seq<byte>, prefix: byte, addr: seq<byte>)
    requires |base| == Width(f) && |addr| == Width(f)
    requires prefix == 0 || prefix as nat > BitWidth(f)
    ensures InRange(FromPrefix(f, base, prefix), addr)
  {
    FromPrefixMask(f, base, prefix);
    InRangeBits(FromPrefix(f, base, prefix), addr);
  }

  /** A full-width prefix network contains its base address and nothing else. */
  lemma FullPrefixOnlyBase(f: Family, base: seq<byte>, addr: seq<byte>)
    requires |base| == Width(f) && |addr| == Width(f)
    ensures InRange(FromPrefix(f, base, BitWidth(f) as byte), addr) <==> addr == base
  {
    if InRange(FromPrefix(f, base, BitWidth(f) as byte), addr) {
      PrefixRange(f, base, BitWidth(f) as byte, addr);
      OctetsDetermine(base, addr);
    }
  }

  /** Masking by octets that are all zeros or all ones keeps or clears whole octets. */
  lemma WholeOctetMasks(a: byte)
    ensures And(a, 0) == 0 && And(a, 255) == a
  {
    assert Pow2(8) == 256;
    forall j | 0 <= j < 8
      ensures !OctetBit(And(a, 0), j) && OctetBit(And(a, 255), j) == OctetBit(a, j)
    {
      AndBit(a as nat, 0, 8, j);
      AndBit(a as nat, 255, 8, j);
      TopOnesBits(0, 8, j);
      TopOnesBits(8, 8, j);
      assert TopOnes(0, 8) == 0 && TopOnes(8, 8) == 255;
    }
    OctetBitsDetermine(And(a, 0), 0);
    OctetBitsDetermine(And(a, 255), a);
  }

  /** With a mask of whole octets, containment compares the octets whose mask octet is 255. */
  lemma WholeOctetRange(n: Network, addr: seq<byte>)
    requires |n.address| == |n.mask| == |addr|
    requires forall k :: 0 <= k < |n.mask| ==> n.mask[k] == 0 || n.mask[k] == 255
    ensures InRange(n, addr) <==> forall k :: 0 <= k < |addr| && n.mask[k] == 255 ==> n.address[k] == addr[k]
  {
    forall k | 0 <= k < |addr|
      ensures Masked(n.address, n.mask)[k] == (if n.mask[k] == 255 then n.address[k] else 0)
      ensures Masked(addr, n.mask)[k] == (if n.mask[k] == 255 then addr[k] else 0)
    {
      WholeOctetMasks(n.address[k]);
      WholeOctetMasks(addr[k]);
    }
    if forall k :: 0 <= k < |addr| && n.mask[k] == 255 ==> n.address[k] == addr[k] {
      assert Masked(n.address, n.mask) == Masked(addr, n.mask);
    }
  }

  lemma TopOnesWhole()
    ensures TopOnes(8, 8) == 255 && TopOnes(0, 8) == 0
  {
  }

  /** A prefix mask of `q` whole octets has 255 in the first `q` octets and 0 in the rest. */
  lemma PrefixMaskOctets(w: nat, q: nat)
    requires q <= w
    ensures forall k :: 0 <= k < w ==> PrefixMask(w, 8 * q)[k] == if k < q then 255 else 0
  {
    TopOnesWhole();
    forall k | 0 <= k < w
      ensures PrefixMask(w, 8 * q)[k] == if k < q then 255 else 0
    {
      assert Clamp(8 * q - 8 * k) == if k < q then 8 else 0;
    }
  }

  /** A prefix of `q` whole octets sets the first `q` mask octets to 255 and clears the rest. */
  lemma OctetPrefixMask(f: Family, base: seq<byte>, q: nat)
    requires |base| == Width(f) && q <= Width(f)
    ensures var m := FromPrefix(f, base, (8 * q) as byte).mask;
      forall k :: 0 <= k < |m| ==> m[k] == if k < q then 255 else 0
  {
    FromPrefixIsPrefixMask(f, base, (8 * q) as byte);
    PrefixMaskOctets(Width(f), q);
  }

  /** A prefix that is a multiple of 8 masks whole octets: the first `q` octets must agree. */
  lemma OctetPrefixRange(f: Family, base: seq<byte>, q: nat, addr: seq<byte>)
    requires |base| == Width(f) && |addr| == Width(f) && q <= Width(f)
    ensures InRange(FromPrefix(f, base, (8 * q) as byte), addr) <==> base[..q] == addr[..q]
  {
    var n := FromPrefix(f, base, (8 * q) as byte);
    OctetPrefixMask(f, base, q);
    WholeOctetRange(n, addr);
    if InRange(n, addr) {
      assert forall k :: 0 <= k < q ==> base[..q][k] == addr[..q][k];
    }
    if base[..q] == addr[..q] {
      assert forall k :: 0 <= k < q ==> base[k] == base[..q][k] == addr[..q][k] == addr[k];
    }
  }

  /** The /24 cases of the unit tests on 198.51.100.2 that lie inside the network. */
  lemma NetworkV4Prefix24Examples()
    ensures InRange(FromPrefix(IPv4, [198, 51, 100, 2], 24), [198, 51, 100, 0])
    ensures InRange(FromPrefix(IPv4, [198, 51, 100, 2], 24), [198, 51, 100, 255])
  {
    var base: seq<byte> := [198, 51, 100, 2];
    assert (8 * 3) as byte == 24;
    OctetPrefixRange(IPv4, base, 3, [198, 51, 100, 0]);
    OctetPrefixRange(IPv4, base, 3, [198, 51, 100, 255]);
  }

  /** The /24 cases of the unit tests on 198.51.100.2 that lie outside the network. */
  lemma NetworkV4Prefix24Outside()
    ensures !InRange(FromPrefix(IPv4, [198, 51, 100, 2], 24), [198, 51, 101, 0])
    ensures !InRange(FromPrefix(IPv4, [198, 51, 100, 2], 24), [198, 52, 101, 132])
  {
    var base: seq<byte> := [198, 51, 100, 2];
    var x3: seq<byte> := [198, 51, 101, 0];
    var x4: seq<byte> := [198, 52, 101, 132];
    assert (8 * 3) as byte == 24;
    OctetPrefixRange(IPv4, base, 3, x3);
    assert base[..3][2] != x3[..3][2];
    OctetPrefixRange(IPv4, base, 3, x4);
    assert base[..3][1] != x4[..3][1];
  }

  /** The /8 and /0 cases of the unit tests on 198.51.100.2. */
  lemma NetworkV4Prefix8Examples()
    ensures InRange(FromPrefix(IPv4, [198, 51, 100, 2], 8), [198, 255, 100, 1])
    ensures !InRange(FromPrefix(IPv4, [198, 51, 100, 2], 8), [199, 0, 100, 0])
    ensures InRange(FromPrefix(IPv4, [198, 51, 100, 2], 0), [255, 255, 255, 0])
  {
    var base: seq<byte> := [198, 51, 100, 2];
    var x2: seq<byte> := [199, 0, 100, 0];
    assert (8 * 1) as byte == 8;
    OctetPrefixRange(IPv4, base, 1, [198, 255, 100, 1]);
    OctetPrefixRange(IPv4, base, 1, x2);
    assert base[..1][0] != x2[..1][0];
    ZeroPrefixContainsAll(IPv4, base, 0, [255, 255, 255, 0]);
  }

  /** The mask cases of the unit tests: 198.51.100.2 with mask 0.0.255.255. */
  lemma NetworkV4MaskExamples()
    ensures InRange(Network([198, 51, 100, 2], [0, 0, 255, 255]), [255, 51, 100, 2])
    ensures !InRange(Network([198, 51, 100, 2], [0, 0, 255, 255]), [198, 0, 98, 0])
    ensures !InRange(Network([198, 51, 100, 2], [0, 0, 255, 255]), [255, 51, 100, 1])
  {
    var nm := Network([198, 51, 100, 2], [0, 0, 255, 255]);
    WholeOctetRange(nm, [255, 51, 100, 2]);
    WholeOctetRange(nm, [198, 0, 98, 0]);
    assert nm.mask[2] == 255 && nm.address[2] == 100;
    WholeOctetRange(nm, [255, 51, 100, 1]);
    assert nm.mask[3] == 255 && nm.address[3] == 2;
  }

  /** The /64 case of the IPv6 unit tests on fe80::1234:cafe:babe:5678: fe80::1 is inside. */
  lemma NetworkV6PrefixInside(base: seq<byte>, inside: seq<byte>)
    requires base == [0xfe, 0x80, 0, 0, 0, 0, 0, 0, 0x12, 0x34, 0xca, 0xfe, 0xba, 0xbe, 0x56, 0x78]
    requires inside == [0xfe, 0x80, 0, 0, 0, 0, 0, 0, 0, 0, 0, 0, 0, 0, 0, 1]
    ensures InRange(FromPrefix(IPv6, base, 64), inside)
  {
    OctetPrefixRange(IPv6, base, 8, inside);
    assert base[..8] == inside[..8];
  }

  /** The /64 case of the IPv6 unit tests on fe80::1234:cafe:babe:5678: fe81::1 is outside. */
  lemma NetworkV6PrefixOutside(base: seq<byte>, outside: seq<byte>)
    requires base == [0xfe, 0x80, 0, 0, 0, 0, 0, 0, 0x12, 0x34, 0xca, 0xfe, 0xba, 0xbe, 0x56, 0x78]
    requires outside == [0xfe, 0x81, 0, 0, 0, 0, 0, 0, 0, 0, 0, 0, 0, 0, 0, 1]
    ensures !InRange(FromPrefix(IPv6, base, 64), outside)
  {
    OctetPrefixRange(IPv6, base, 8, outside);
    assert base[..8][1] != outside[..8][1];
  }

  /**
   * The mask cases of the IPv6 unit tests on fe80::1234:cafe:babe:5678 with
   * mask ::ffff:ffff:ffff:ffff: 2001:db8::1234:cafe:babe:5678 is inside,
   * fe80::2234:cafe:babe:5678 is not.
   */
  lemma NetworkV6MaskExamples(base: seq<byte>, mask: seq<byte>, inside: seq<byte>, outside: seq<byte>)
    requires base == [0xfe, 0x80, 0, 0, 0, 0, 0, 0, 0x12, 0x34, 0xca, 0xfe, 0xba, 0xbe, 0x56, 0x78]
    requires mask == [0, 0, 0, 0, 0, 0, 0, 0, 255, 255, 255, 255, 255, 255, 255, 255]
    requires inside == [0x20, 0x01, 0x0d, 0xb8, 0, 0, 0, 0, 0x12, 0x34, 0xca, 0xfe, 0xba, 0xbe, 0x56, 0x78]
    requires outside == [0xfe, 0x80, 0, 0, 0, 0, 0, 0, 0x22, 0x34, 0xca, 0xfe, 0xba, 0xbe, 0x56, 0x78]
    ensures InRange(Network(base, mask), inside)
    ensures !InRange(Network(base, mask), outside)
  {
    WholeOctetRange(Network(base, mask), inside);
    WholeOctetRange(Network(base, mask), outside);
    assert mask[8] == 255 && base[8] != outside[8];
  }

  // ---- text forms --------------------------------------------------------

  /** `Ipv4Addr::from_str` or `Ipv6Addr::from_str`, by family. */
  function ParseAddr(f: Family, s: string, t6: Ipv6Text): (r: Option<seq<byte>>)
    ensures r.Some? ==> |r.value| == Width(f)
  {
    if f == IPv4 then
      (match ParseV4(s) case Some(a) => Some(a) case None => None)
    else
      (match t6.parse(s) case Some(a) => Some(a) case None => None)
  }

  /** The `Display` of an address of the family. */
  function ShowAddr(f: Family, a: seq<byte>, t6: Ipv6Text): string
    requires |a| == Width(f)
  {
    if f == IPv4 then ShowV4(a) else t6.show(a)
  }

  /**
   * The two sides of `addr/mask`: the left side must be an address; the
   * right side is a prefix if it reads as a `u8` (too large for the family is
   * an error of its own), and otherwise a mask address.
   */
  function ParseSides(f: Family, left: string, right: string, t6: Ipv6Text): (r: Result<Network, NetworkParseErr>)
    ensures r.Ok? ==> ValidFor(r.value, f)
    ensures r != Err(MaskUnspecified)
    ensures r == Err(InvalidAddress) <==> ParseAddr(f, left, t6).None?
    ensures r.Ok? ==> Some(r.value.address) == ParseAddr(f, left, t6)
    ensures ParseAddr(f, left, t6).Some? && ParseU8(right).Some? ==>
      (r == Err(MaskTooLarge) <==> ParseU8(right).value > BitWidth(f)) &&
      (r.Ok? <==> ParseU8(right).value <= BitWidth(f)) &&
      (r.Ok? ==> r.value.mask == PrefixMask(Width(f), ParseU8(right).value))
    ensures ParseAddr(f, left, t6).Some? && ParseU8(right).None? ==>
      (r == Err(InvalidMask) <==> ParseAddr(f, right, t6).None?) &&
      (r.Ok? ==> Some(r.value.mask) == ParseAddr(f, right, t6))
  {
    match ParseAddr(f, left, t6)
    case None => Err(InvalidAddress)
    case Some(a) =>
      match ParseU8(right)
      case Some(p) =>
        if p <= BitWidth(f) then
          FromPrefixIsPrefixMask(f, a, p as byte);
          Ok(FromPrefix(f, a, p as byte))
        else Err(MaskTooLarge)
      case None =>
        match ParseAddr(f, right, t6)
        case Some(m) => Ok(Network(a, m))
        case None => Err(InvalidMask)
  }

  /** `NetworkV4::from_str` / `NetworkV6::from_str`: split at the first '/'. */
  function ParseNetwork(f: Family, s: string, t6: Ipv6Text): (r: Result<Network, NetworkParseErr>)
    ensures r.Ok? ==> ValidFor(r.value, f)
    ensures r == Err(MaskUnspecified) <==> !Contains(s, "/")
    ensures Contains(s, "/") ==>
      var left := s[..Find(s, "/").value];
      (r == Err(InvalidAddress) <==> ParseAddr(f, left, t6).None?) &&
      (r.Ok? ==> Some(r.value.address) == ParseAddr(f, left, t6))
  {
    match Find(s, "/")
    case None => Err(MaskUnspecified)
    case Some(i) => ParseSides(f, s[..i], s[i + 1..], t6)
  }

  /** Text with a '/' after a left side free of '/' parses as its two sides. */
  lemma ParseJoined(f: Family, left: string, right: string, t6: Ipv6Text)
    requires '/' !in left
    ensures ParseNetwork(f, left + "/" + right, t6) == ParseSides(f, left, right, t6)
  {
    var s := left + "/" + right;
    FindAfter(left, '/', right);
    assert s[..|left|] == left && s[|left| + 1..] == right;
  }

  /** The number of set bits from bit `i` on before the first clear one. */
  function Leading(m: seq<byte>, i: nat): (r: nat)
    requires i <= 8 * |m|
    ensures i + r <= 8 * |m|
    ensures forall j :: i <= j < i + r ==> Bit(m, j)
    ensures i + r < 8 * |m| ==> !Bit(m, i + r)
    decreases 8 * |m| - i
  {
    if i < 8 * |m| && Bit(m, i) then 1 + Leading(m, i + 1) else 0
  }

  /** The number of clear bits below bit `n` before the first set one. */
  function Trailing(m: seq<byte>, n: nat): (r: nat)
    requires n <= 8 * |m|
    ensures r <= n
    ensures forall j :: n - r <= j < n ==> !Bit(m, j)
    ensures r < n ==> Bit(m, n - r - 1)
  {
    if n > 0 && !Bit(m, n - 1) then 1 + Trailing(m, n - 1) else 0
  }

  /** `leading_ones` of the mask as an integer. */
  function LeadingOnes(m: seq<byte>): nat { Leading(m, 0) }

  /** `trailing_zeros` of the mask as an integer. */
  function TrailingZeros(m: seq<byte>): nat { Trailing(m, 8 * |m|) }

  /** The test `Debug` makes: the mask is a run of ones followed by a run of zeros. */
  predicate Contiguous(m: seq<byte>) {
    LeadingOnes(m) + TrailingZeros(m) == 8 * |m|
  }

  /** `Debug`: `addr/len` for a contiguous mask, else `addr/mask`. */
  function ShowNetwork(f: Family, n: Network, t6: Ipv6Text): string
    requires ValidFor(n, f)
  {
    ShowAddr(f, n.address, t6) + "/" +
      if Contiguous(n.mask) then Decimal(LeadingOnes(n.mask)) else ShowAddr(f, n.mask, t6)
  }

  /** The mask `FromPrefix` builds for a prefix within the width. */
  lemma FromPrefixIsPrefixMask(f: Family, addr: seq<byte>, prefix: byte)
    requires |addr| == Width(f) && prefix as nat <= BitWidth(f)
    ensures FromPrefix(f, addr, prefix).mask == PrefixMask(Width(f), prefix as nat)
  {
    MaskOnesWithin(BitWidth(f), prefix);
  }

  /** A prefix mask has `p` leading ones and the rest trailing zeros. */
  lemma PrefixCounts(w: nat, p: nat)
    requires p <= 8 * w
    ensures LeadingOnes(PrefixMask(w, p)) == p
    ensures TrailingZeros(PrefixMask(w, p)) == 8 * w - p
  {
    PrefixMaskBits(w, p);
    LeadingOfPrefix(PrefixMask(w, p), p, 0);
    TrailingOfPrefix(PrefixMask(w, p), p, 8 * w);
  }

  lemma {:induction false} LeadingOfPrefix(m: seq<byte>, p: nat, i: nat)
    requires i <= p <= 8 * |m|
    requires forall j :: 0 <= j < 8 * |m| ==> (Bit(m, j) <==> j < p)
    ensures Leading(m, i) == p - i
    decreases p - i
  {
    if i < p {
      LeadingOfPrefix(m, p, i + 1);
    }
  }

  lemma {:induction false} TrailingOfPrefix(m: seq<byte>, p: nat, n: nat)
    requires p <= n <= 8 * |m|
    requires forall j :: 0 <= j < 8 * |m| ==> (Bit(m, j) <==> j < p)
    ensures Trailing(m, n) == n - p
  {
    if p < n {
      TrailingOfPrefix(m, p, n - 1);
    }
  }

  /** A mask passes the contiguity test exactly when it is the prefix mask of its leading ones. */
  lemma ContiguousIsPrefix(m: seq<byte>)
    requires 8 * |m| < 256
    ensures Contiguous(m) <==> m == PrefixMask(|m|, LeadingOnes(m))
  {
    var l := LeadingOnes(m);
    if Contiguous(m) {
      PrefixMaskBits(|m|, l);
      forall i | 0 <= i < 8 * |m|
        ensures Bit(m, i) == Bit(PrefixMask(|m|, l), i)
      {
      }
      OctetsDetermine(m, PrefixMask(|m|, l));
    }
    if m == PrefixMask(|m|, l) {
      PrefixCounts(|m|, l);
    }
  }

  lemma ShowAddrChars(f: Family, a: seq<byte>, t6: Ipv6Text)
    requires |a| == Width(f) && WellBehaved(t6)
    ensures '/' !in ShowAddr(f, a, t6)
    ensures ParseAddr(f, ShowAddr(f, a, t6), t6) == Some(a)
    ensures ParseU8(ShowAddr(f, a, t6)) == None
  {
    var s := ShowAddr(f, a, t6);
    if f == IPv4 {
      ParseShowV4(a);
      var g0 := Decimal(a[0] as nat);
      assert s[|g0|] == '.';
      NotNumber(s, '.', 0x100);
    } else {
      NotNumber(s, ':', 0x100);
    }
  }

  /** `Debug` prints a prefix network as its address, '/', and the prefix length. */
  lemma ShowPrefixNetwork(f: Family, a: seq<byte>, prefix: byte, t6: Ipv6Text)
    requires |a| == Width(f) && prefix as nat <= BitWidth(f)
    ensures ShowNetwork(f, FromPrefix(f, a, prefix), t6) == ShowAddr(f, a, t6) + "/" + Decimal(prefix as nat)
  {
    PrefixCounts(Width(f), prefix as nat);
    FromPrefixIsPrefixMask(f, a, prefix);
  }

  /**
   * Parsing `addr/n` for a decimal `n`: a prefix within the width builds the
   * prefix network, a larger `u8` is `MaskTooLarge`, and a number beyond
   * `u8` (such as 300) is neither a prefix nor a mask address.
   */
  lemma ParsePrefixText(f: Family, a: seq<byte>, n: nat, t6: Ipv6Text)
    requires |a| == Width(f) && WellBehaved(t6)
    ensures ParseNetwork(f, ShowAddr(f, a, t6) + "/" + Decimal(n), t6) ==
      if n <= BitWidth(f) then Ok(FromPrefix(f, a, n as byte))
      else if n < 0x100 then Err(MaskTooLarge)
      else Err(InvalidMask)
  {
    ShowAddrChars(f, a, t6);
    ParseJoined(f, ShowAddr(f, a, t6), Decimal(n), t6);
    ParseDecimal(n, 0x100);
    if n >= 0x100 {
      DecimalNotAddress(f, n, t6);
    }
  }

  /** A decimal number is not an address of either family. */
  lemma DecimalNotAddress(f: Family, n: nat, t6: Ipv6Text)
    requires WellBehaved(t6)
    ensures ParseAddr(f, Decimal(n), t6).None?
  {
    var right := Decimal(n);
    DecimalDigits(n);
    assert '.' !in right && ':' !in right;
    if f == IPv4 {
      FindAbsent(right, '.');
      assert ParseV4(right).None?;
    }
  }

  /** The right side `Debug` prints for a contiguous mask parses back as the prefix network. */
  lemma ParseShowContiguous(f: Family, n: Network, t6: Ipv6Text)
    requires ValidFor(n, f) && WellBehaved(t6) && Contiguous(n.mask)
    ensures ParseSides(f, ShowAddr(f, n.address, t6), Decimal(LeadingOnes(n.mask)), t6) == Ok(n)
  {
    ShowAddrChars(f, n.address, t6);
    ContiguousIsPrefix(n.mask);
    ParseDecimal(LeadingOnes(n.mask), 0x100);
    FromPrefixIsPrefixMask(f, n.address, LeadingOnes(n.mask) as byte);
  }

  /** The right side `Debug` prints for any other mask parses back as the mask. */
  lemma ParseShowMask(f: Family, n: Network, t6: Ipv6Text)
    requires ValidFor(n, f) && WellBehaved(t6)
    ensures ParseSides(f, ShowAddr(f, n.address, t6), ShowAddr(f, n.mask, t6), t6) == Ok(n)
  {
    ShowAddrChars(f, n.address, t6);
    ShowAddrChars(f, n.mask, t6);
  }

  /** Parsing what `Debug` prints gives the network back. */
  lemma ParseShowNetwork(f: Family, n: Network, t6: Ipv6Text)
    requires ValidFor(n, f) && WellBehaved(t6)
    ensures ParseNetwork(f, ShowNetwork(f, n, t6), t6) == Ok(n)
  {
    var left := ShowAddr(f, n.address, t6);
    ShowAddrChars(f, n.address, t6);
    if Contiguous(n.mask) {
      ParseJoined(f, left, Decimal(LeadingOnes(n.mask)), t6);
      ParseShowContiguous(f, n, t6);
    } else {
      ParseJoined(f, left, ShowAddr(f, n.mask, t6), t6);
      ParseShowMask(f, n, t6);
    }
  }
}
