/**
 * UTF-8 as Rust's `str::as_bytes` produces it and `String::from_utf8`
 * accepts it: the shortest form of every Unicode scalar value, nothing else.
 */
module Utf8 {
  import opened Wrappers

  import opened Bytes

  predicate IsContinuation(b: byte) { 0x80 <= b <= 0xBF }

  /** The bytes of one character. */
  function EncodeChar(c: char): (bytes: seq<byte>)
    ensures 1 <= |bytes| <= 4
  {
    var cp := c as int;
    if cp < 0x80 then [cp as byte]
    else if cp < 0x800 then [(0xC0 + cp / 64) as byte, (0x80 + cp % 64) as byte]
    else if cp < 0x1_0000 then
      [(0xE0 + cp / 4096) as byte, (0x80 + cp / 64 % 64) as byte, (0x80 + cp % 64) as byte]
    else
      [(0xF0 + cp / 262144) as byte, (0x80 + cp / 4096 % 64) as byte,
       (0x80 + cp / 64 % 64) as byte, (0x80 + cp % 64) as byte]
  }

  /** `str::as_bytes`. */
  function Encode(s: string): (bytes: seq<byte>)
    ensures |bytes| >= |s|
    ensures s != [] ==> bytes != []
  {
    if s == [] then [] else EncodeChar(s[0]) + Encode(s[1..])
  }

  /** The character starting at offset `i` and its length in bytes, if well formed. */
  function DecodeCharAt(bytes: seq<byte>, i: nat): (r: Option<(char, nat)>)
    requires i < |bytes|
    ensures r.Some? ==> 1 <= r.value.1 <= |bytes| - i
  {
    var b0 := bytes[i] as int;
    if b0 < 0x80 then Some((b0 as char, 1))
    else if 0xC2 <= b0 <= 0xDF then
      if |bytes| >= i + 2 && IsContinuation(bytes[i + 1]) then
        Some((((b0 - 0xC0) * 64 + (bytes[i + 1] as int - 0x80)) as char, 2))
      else None
    else if 0xE0 <= b0 <= 0xEF then
      var lo := if b0 == 0xE0 then 0xA0 else 0x80;
      var hi := if b0 == 0xED then 0x9F else 0xBF;
      if |bytes| >= i + 3 && lo <= bytes[i + 1] as int <= hi && IsContinuation(bytes[i + 2]) then
        var cp := (b0 - 0xE0) * 4096 + (bytes[i + 1] as int - 0x80) * 64 + (bytes[i + 2] as int - 0x80);
        Some((cp as char, 3))
      else None
    else if 0xF0 <= b0 <= 0xF4 then
      var lo := if b0 == 0xF0 then 0x90 else 0x80;
      var hi := if b0 == 0xF4 then 0x8F else 0xBF;
      if |bytes| >= i + 4 && lo <= bytes[i + 1] as int <= hi && IsContinuation(bytes[i + 2]) && IsContinuation(bytes[i + 3]) then
        var cp := (b0 - 0xF0) * 262144 + (bytes[i + 1] as int - 0x80) * 4096
                  + (bytes[i + 2] as int - 0x80) * 64 + (bytes[i + 3] as int - 0x80);
        Some((cp as char, 4))
      else None
    else None
  }

  /** The characters from offset `i` to the end, if every one is well formed. */
  function DecodeFrom(bytes: seq<byte>, i: nat): Option<string>
    requires i <= |bytes|
    decreases |bytes| - i
  {
    if i == |bytes| then Some([])
    else match DecodeCharAt(bytes, i)
      case None => None
      case Some((c, n)) =>
        match DecodeFrom(bytes, i + n)
        case None => None
        case Some(rest) => Some([c] + rest)
  }

  /** `String::from_utf8`: `None` for an ill-formed sequence. */
  function Decode(bytes: seq<byte>): Option<string> {
    DecodeFrom(bytes, 0)
  }

  /** An encoded character, wherever it sits, decodes to itself. */
  lemma DecodeEncodedChar(pre: seq<byte>, c: char, rest: seq<byte>)
    ensures DecodeCharAt(pre + EncodeChar(c) + rest, |pre|) == Some((c, |EncodeChar(c)|))
  {
    var cp := c as int;
    var bytes := pre + EncodeChar(c) + rest;
    assert forall k :: 0 <= k < |EncodeChar(c)| ==> bytes[|pre| + k] == EncodeChar(c)[k];
    if cp < 0x80 {
    } else if cp < 0x800 {
      DecodeTwo(bytes, |pre|, c);
    } else if cp < 0x1_0000 {
      DecodeThree(bytes, |pre|, c);
    } else {
      DecodeFour(bytes, |pre|, c);
    }
  }

  lemma DecodeTwo(bytes: seq<byte>, i: nat, c: char)
    requires 0x80 <= c as int < 0x800
    requires i + 2 <= |bytes| && bytes[i..i + 2] == EncodeChar(c)
    ensures DecodeCharAt(bytes, i) == Some((c, 2))
  {
    var cp := c as int;
    var hi, lo := cp / 64, cp % 64;
    assert cp == hi * 64 + lo;
    assert 2 <= hi <= 31;
    assert bytes[i] == bytes[i..i + 2][0] && bytes[i + 1] == bytes[i..i + 2][1];
    assert bytes[i] as int == 0xC0 + hi && bytes[i + 1] as int == 0x80 + lo;
  }

  lemma DecodeThree(bytes: seq<byte>, i: nat, c: char)
    requires 0x800 <= c as int < 0x1_0000
    requires i + 3 <= |bytes| && bytes[i..i + 3] == EncodeChar(c)
    ensures DecodeCharAt(bytes, i) == Some((c, 3))
  {
    var cp := c as int;
    var a, b, d := cp / 4096, cp / 64 % 64, cp % 64;
    assert cp / 64 == a * 64 + b;
    assert cp == a * 4096 + b * 64 + d;
    assert a == 0 ==> b >= 32;
    assert a == 13 ==> b < 32;
    var e := bytes[i..i + 3];
    assert bytes[i] == e[0] && bytes[i + 1] == e[1] && bytes[i + 2] == e[2];
    assert bytes[i] as int == 0xE0 + a && bytes[i + 1] as int == 0x80 + b && bytes[i + 2] as int == 0x80 + d;
  }

  lemma DecodeFour(bytes: seq<byte>, i: nat, c: char)
    requires 0x1_0000 <= c as int
    requires i + 4 <= |bytes| && bytes[i..i + 4] == EncodeChar(c)
    ensures DecodeCharAt(bytes, i) == Some((c, 4))
  {
    var cp := c as int;
    var a, b, d, f := cp / 262144, cp / 4096 % 64, cp / 64 % 64, cp % 64;
    assert cp / 4096 == a * 64 + b;
    assert cp / 64 == (a * 64 + b) * 64 + d;
    assert cp == a * 262144 + b * 4096 + d * 64 + f;
    assert a == 0 ==> b >= 16;
    assert a == 4 ==> b < 16;
    var e := bytes[i..i + 4];
    assert bytes[i] == e[0] && bytes[i + 1] == e[1] && bytes[i + 2] == e[2] && bytes[i + 3] == e[3];
    assert bytes[i] as int == 0xF0 + a && bytes[i + 1] as int == 0x80 + b;
    assert bytes[i + 2] as int == 0x80 + d && bytes[i + 3] as int == 0x80 + f;
  }

  /** Encoded text after any prefix decodes back to the text. */
  lemma {:induction false} DecodeFromEncode(pre: seq<byte>, s: string)
    ensures DecodeFrom(pre + Encode(s), |pre|) == Some(s)
    decreases |s|
  {
    if s == [] {
      assert pre + Encode(s) == pre;
    } else {
      var head := EncodeChar(s[0]);
      var tail := Encode(s[1..]);
      assert pre + Encode(s) == pre + head + tail;
      DecodeEncodedChar(pre, s[0], tail);
      DecodeFromEncode(pre + head, s[1..]);
      assert pre + head + tail == (pre + head) + tail;
      assert [s[0]] + s[1..] == s;
    }
  }

  /** Every string survives the trip through its bytes. */
  lemma DecodeEncode(s: string)
    ensures Decode(Encode(s)) == Some(s)
  {
    DecodeFromEncode([], s);
    assert [] + Encode(s) == Encode(s);
  }

  /** Encoding is injective, so equal byte strings name equal strings. */
  lemma EncodeInjective(s: string, t: string)
    requires Encode(s) == Encode(t)
    ensures s == t
  {
    DecodeEncode(s);
    DecodeEncode(t);
  }
}
