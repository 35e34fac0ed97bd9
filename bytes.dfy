/**
 * Bytes and the fixed-width integer encodings the program uses:
 * `to_le_bytes` / `from_le_bytes` and the big-endian order of
 * `u32::from(Ipv4Addr)` / `Ipv4Addr::from(u32)` (likewise u128 / Ipv6Addr).
 */
module Bytes {

  newtype byte = x: int | 0 <= x < 0x100

  type uint32 = x: nat | x < 0x1_0000_0000
  type uint64 = x: nat | x < 0x1_0000_0000_0000_0000

  /** 256 to the power `width`: the number of values a `width`-byte integer has. */
  function Pow256(width: nat): (p: nat)
    ensures p >= 1
  {
    if width == 0 then 1 else 256 * Pow256(width - 1)
  }

  /** `n` shifted right by `k` bytes. */
  function Shift(n: nat, k: nat): nat {
    if k == 0 then n else Shift(n / 256, k - 1)
  }

  /** Little-endian value of a byte string (`uN::from_le_bytes`). */
  function FromLE(b: seq<byte>): (n: nat)
    ensures n < Pow256(|b|)
  {
    if b == [] then 0 else b[0] as nat + 256 * FromLE(b[1..])
  }

  /** The `width` low bytes of `n`, least significant first (`uN::to_le_bytes`). */
  function ToLE(n: nat, width: nat): (b: seq<byte>)
    ensures |b| == width
  {
    seq(width, i requires 0 <= i < width => (Shift(n, i) % 256) as byte)
  }

  /** Big-endian value of a byte string (`u32::from(Ipv4Addr)`, `u128::from(Ipv6Addr)`). */
  function FromBE(b: seq<byte>): (n: nat)
    ensures n < Pow256(|b|)
  {
    if b == [] then 0 else FromBE(b[..|b| - 1]) * 256 + b[|b| - 1] as nat
  }

  /** The `width` low bytes of `n`, most significant first (`Ipv4Addr::from(u32)`). */
  function ToBE(n: nat, width: nat): (b: seq<byte>)
    ensures |b| == width
  {
    seq(width, i requires 0 <= i < width => (Shift(n, width - 1 - i) % 256) as byte)
  }

  /** Dropping the lowest byte of `ToLE(n, width)` leaves `ToLE(n / 256, width - 1)`. */
  lemma ToLETail(n: nat, width: nat)
    requires 0 < width
    ensures ToLE(n, width)[1..] == ToLE(n / 256, width - 1)
  {
    var b, c := ToLE(n, width), ToLE(n / 256, width - 1);
    forall i | 0 <= i < width - 1
      ensures b[i + 1] == c[i]
    {
      assert Shift(n, i + 1) == Shift(n / 256, i);
    }
    assert b[1..] == c;
  }

  /** Dropping the lowest byte of `ToBE(n, width)` leaves `ToBE(n / 256, width - 1)`. */
  lemma ToBEFront(n: nat, width: nat)
    requires 0 < width
    ensures ToBE(n, width)[..width - 1] == ToBE(n / 256, width - 1)
  {
    var b, c := ToBE(n, width), ToBE(n / 256, width - 1);
    forall i | 0 <= i < width - 1
      ensures b[i] == c[i]
    {
      assert Shift(n, width - 1 - i) == Shift(n / 256, width - 2 - i);
    }
    assert b[..width - 1] == c;
  }

  lemma {:induction false} FromToLE(n: nat, width: nat)
    requires n < Pow256(width)
    ensures FromLE(ToLE(n, width)) == n
  {
    if width > 0 {
      var b := ToLE(n, width);
      ToLETail(n, width);
      FromToLE(n / 256, width - 1);
      assert b[0] as nat == Shift(n, 0) % 256 == n % 256;
    }
  }

  lemma {:induction false} ToFromBE(b: seq<byte>)
    ensures ToBE(FromBE(b), |b|) == b
  {
    if b != [] {
      var front := b[..|b| - 1];
      var n := FromBE(b);
      assert n / 256 == FromBE(front) && n % 256 == b[|b| - 1] as nat;
      ToFromBE(front);
      ToBEFront(n, |b|);
      var r := ToBE(n, |b|);
      assert r[|b| - 1] as nat == Shift(n, 0) % 256 == b[|b| - 1] as nat;
      assert r == r[..|b| - 1] + [r[|b| - 1]];
    }
  }

  lemma {:induction false} FromToBE(n: nat, width: nat)
    requires n < Pow256(width)
    ensures FromBE(ToBE(n, width)) == n
  {
    if width > 0 {
      var b := ToBE(n, width);
      ToBEFront(n, width);
      FromToBE(n / 256, width - 1);
      assert b[width - 1] as nat == Shift(n, 0) % 256 == n % 256;
    }
  }
}
