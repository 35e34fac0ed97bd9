/**
 * The home-router provider (`services::router_1`). It publishes no DNS
 * record: it logs in to the router's web interface, deletes the IPv6
 * firewall rule it finds for the previously opened address and adds a rule
 * opening the configured port for the current IPv6 address. Every form it
 * posts is written by `generate_form`, which percent-encodes the values and
 * appends a 16-bit checksum of the form text that the router verifies.
 */
module Router1 {
  import opened Wrappers
  import opened Bytes
  import opened Text
  import Utf8
  import opened Ip
  import opened Http
  import opened Ddns

  type uint16 = x: nat | x < 0x1_0000

  datatype Protocol = Tcp | Udp | Icmpv6

  datatype Direction = Outgoing | Incoming

  datatype Config = Config(
    username: string,
    password: string,
    gateway: string,
    protocol: Protocol,
    direction: Direction,
    destPort: uint16,
    allowed: bool)

  /**
   * The service: its configuration, the login form written once at start-up
   * and the address of the rule opened earlier (`old_address`, which no
   * operation of the program ever sets).
   */
  datatype Service = Service(config: Config, loginForm: string, oldAddress: Option<Octets16>)

  // ---- form encoding ------------------------------------------------------

  /** `%` and the upper-case hexadecimal digits of `b`, without zero padding. */
  function Escape(b: byte): string {
    "%" + ToRadix(b as nat, 16, true)
  }

  /** Every byte escaped in turn. */
  function EscapeBytes(bytes: seq<byte>): string
    decreases |bytes|
  {
    if bytes == [] then [] else Escape(bytes[0]) + EscapeBytes(bytes[1..])
  }

  /** The characters an encoded value is made of. */
  predicate FormSafe(c: char) {
    IsAsciiAlphanumeric(c) || c in "*-._+%"
  }

  lemma HexIsSafe(s: string)
    requires AllDigits(s, 16)
    ensures forall i :: 0 <= i < |s| ==> FormSafe(s[i])
  {
    forall i | 0 <= i < |s|
      ensures FormSafe(s[i])
    {
      assert DigitValue(s[i], 16).Some?;
    }
  }

  lemma EscapeBytesSafe(bytes: seq<byte>)
    ensures forall i :: 0 <= i < |EscapeBytes(bytes)| ==> FormSafe(EscapeBytes(bytes)[i])
    decreases |bytes|
  {
    if bytes != [] {
      HexIsSafe(ToRadix(bytes[0] as nat, 16, true));
      EscapeBytesSafe(bytes[1..]);
    }
  }

  /**
   * How `generate_form` writes one character of a value: ASCII letters and
   * digits and `*-._` as themselves, a space as `+`, other printable ASCII
   * as one escape and anything else as an escape per UTF-8 byte.
   */
  function EncodeChar(c: char): string {
    if IsAsciiAlphanumeric(c) then [c]
    else if c == ' ' then "+"
    else if c in "*-._" then [c]
    else if IsAsciiGraphic(c) then Escape(c as int as byte)
    else EscapeBytes(Utf8.EncodeChar(c))
  }

  /** The strings `f` gives for the first `k` items, concatenated in order. */
  function Concat<T>(items: seq<T>, f: T -> string, k: nat): string
    requires k <= |items|
    decreases k
  {
    if k == 0 then [] else Concat(items, f, k - 1) + f(items[k - 1])
  }

  /** An encoded value. */
  function EncodeValue(value: string): string {
    Concat(value, EncodeChar, |value|)
  }

  /** Read from the front, the concatenation starts with the first item's string. */
  lemma {:induction false} ConcatFront<T>(items: seq<T>, f: T -> string, k: nat)
    requires 1 <= k <= |items|
    ensures Concat(items, f, k) == f(items[0]) + Concat(items[1..], f, k - 1)
    decreases k
  {
    if k > 1 {
      ConcatFront(items, f, k - 1);
      assert items[1..][k - 2] == items[k - 1];
    }
  }

  lemma EncodeCharSafe(c: char)
    ensures forall i :: 0 <= i < |EncodeChar(c)| ==> FormSafe(EncodeChar(c)[i])
  {
    if IsAsciiAlphanumeric(c) || c == ' ' || c in "*-._" {
    } else if IsAsciiGraphic(c) {
      HexIsSafe(ToRadix(c as nat, 16, true));
    } else {
      EscapeBytesSafe(Utf8.EncodeChar(c));
    }
  }

  /**
   * An encoded value is made of letters, digits and `*-._+%` only: no `&`
   * or `=` can appear, so a value never breaks the form apart.
   */
  lemma EncodedSafe(value: string)
    ensures forall i :: 0 <= i < |EncodeValue(value)| ==> FormSafe(EncodeValue(value)[i])
    ensures '&' !in EncodeValue(value) && '=' !in EncodeValue(value)
  {
    PrefixSafe(value, |value|);
  }

  lemma {:induction false} PrefixSafe(value: string, k: nat)
    requires k <= |value|
    ensures forall i :: 0 <= i < |Concat(value, EncodeChar, k)| ==> FormSafe(Concat(value, EncodeChar, k)[i])
    decreases k
  {
    if k > 0 {
      EncodeCharSafe(value[k - 1]);
      PrefixSafe(value, k - 1);
    }
  }

  /** The fields `key=value&` of the first `k` pairs in order. */
  function Fields(pairs: seq<(string, string)>, k: nat): string
    requires k <= |pairs|
    decreases k
  {
    if k == 0 then [] else Fields(pairs, k - 1) + pairs[k - 1].0 + "=" + EncodeValue(pairs[k - 1].1) + "&"
  }

  /** The form's text before the checksum. */
  function FormText(pairs: seq<(string, string)>): string {
    Fields(pairs, |pairs|)
  }

  /** The form as posted: its text followed by the checksum field. */
  function Signed(text: string): string {
    text + "postSecurityFlag=" + Decimal(Checksum(Utf8.Encode(text)))
  }

  // ---- reading a value back -----------------------------------------------

  /**
   * How a receiver reads a form value back, after the
   * application/x-www-form-urlencoded parser of the WHATWG URL Standard
   * (section 5.1): `+` is a space, `%` and two hexadecimal digits one byte,
   * and any other character (a lone `%` included) its own UTF-8 bytes.
   */
  function PercentDecode(s: string): seq<byte>
    decreases |s|
  {
    if s == [] then []
    else if s[0] == '+' then [0x20] + PercentDecode(s[1..])
    else if s[0] == '%' && |s| >= 3 && DigitValue(s[1], 16).Some? && DigitValue(s[2], 16).Some? then
      [(DigitValue(s[1], 16).value * 16 + DigitValue(s[2], 16).value) as byte] + PercentDecode(s[3..])
    else Utf8.EncodeChar(s[0]) + PercentDecode(s[1..])
  }

  /** A byte from 0x10 up is written with exactly two hexadecimal digits. */
  lemma TwoHexDigits(b: byte)
    requires b >= 0x10
    ensures ToRadix(b as nat, 16, true) == [DigitChar(b as nat / 16, true), DigitChar(b as nat % 16, true)]
  {
    var n := b as nat;
    assert ToRadix(n / 16, 16, true) == [DigitChar(n / 16, true)];
  }

  lemma EscapeDecodes(b: byte, rest: string)
    requires b >= 0x10
    ensures PercentDecode(Escape(b) + rest) == [b] + PercentDecode(rest)
  {
    TwoHexDigits(b);
    var n := b as nat;
    var hi, lo := DigitChar(n / 16, true), DigitChar(n % 16, true);
    var s := Escape(b) + rest;
    assert s == ['%', hi, lo] + rest;
    assert DigitValue(hi, 16) == Some(n / 16);
    assert DigitValue(lo, 16) == Some(n % 16);
    assert s[3..] == rest;
  }

  lemma EscapeBytesDecode(bytes: seq<byte>, rest: string)
    requires forall i :: 0 <= i < |bytes| ==> bytes[i] >= 0x10
    ensures PercentDecode(EscapeBytes(bytes) + rest) == bytes + PercentDecode(rest)
    decreases |bytes|
  {
    if bytes != [] {
      var tail := EscapeBytes(bytes[1..]) + rest;
      EscapeFirst(bytes, rest);
      EscapeDecodes(bytes[0], tail);
      EscapeBytesDecode(bytes[1..], rest);
      ByteFirst(bytes, PercentDecode(rest));
    } else {
      assert EscapeBytes(bytes) + rest == rest;
    }
  }

  /** The escape of a byte string, then more text: the first byte's escape, then the rest. */
  lemma EscapeFirst(bytes: seq<byte>, rest: string)
    requires bytes != []
    ensures EscapeBytes(bytes) + rest == Escape(bytes[0]) + (EscapeBytes(bytes[1..]) + rest)
  {
  }

  /** The first byte in front of the others and more bytes is the byte string and those bytes. */
  lemma ByteFirst(bytes: seq<byte>, more: seq<byte>)
    requires bytes != []
    ensures [bytes[0]] + (bytes[1..] + more) == bytes + more
  {
    assert [bytes[0]] + bytes[1..] == bytes;
  }

  lemma PlainDecodes(c: char, rest: string)
    requires c != '+' && c != '%'
    ensures PercentDecode([c] + rest) == Utf8.EncodeChar(c) + PercentDecode(rest)
  {
    assert ([c] + rest)[1..] == rest;
  }

  /** The UTF-8 bytes of a character from U+0080 up are all at least 0x80. */
  lemma HighBytes(c: char)
    requires c as int >= 0x80
    ensures forall i :: 0 <= i < |Utf8.EncodeChar(c)| ==> Utf8.EncodeChar(c)[i] >= 0x80
  {
  }

  /** A character from U+0010 up reads back as its UTF-8 bytes. */
  lemma EncodeCharDecodes(c: char, rest: string)
    requires c as int >= 0x10
    ensures PercentDecode(EncodeChar(c) + rest) == Utf8.EncodeChar(c) + PercentDecode(rest)
  {
    if IsAsciiAlphanumeric(c) || c in "*-._" {
      PlainDecodes(c, rest);
    } else if c == ' ' {
      assert ("+" + rest)[1..] == rest;
    } else if IsAsciiGraphic(c) {
      EscapeDecodes(c as int as byte, rest);
    } else {
      if c as int >= 0x80 {
        HighBytes(c);
      }
      EscapeBytesDecode(Utf8.EncodeChar(c), rest);
    }
  }

  /**
   * A value none of whose characters is below U+0010 reads back as its UTF-8
   * bytes, and so as itself.
   */
  lemma {:induction false} ValueReadsBack(value: string)
    requires forall i :: 0 <= i < |value| ==> value[i] as int >= 0x10
    ensures PercentDecode(EncodeValue(value)) == Utf8.Encode(value)
    decreases |value|
  {
    if value != [] {
      var head, tail := value[0], value[1..];
      ConcatFront(value, EncodeChar, |value|);
      assert EncodeValue(value) == EncodeChar(head) + EncodeValue(tail);
      EncodeCharDecodes(head, EncodeValue(tail));
      assert forall i :: 0 <= i < |tail| ==> tail[i] == value[i + 1];
      ValueReadsBack(tail);
    }
  }

  lemma ValueRoundTrip(value: string)
    requires forall i :: 0 <= i < |value| ==> value[i] as int >= 0x10
    ensures Utf8.Decode(PercentDecode(EncodeValue(value))) == Some(value)
  {
    ValueReadsBack(value);
    Utf8.DecodeEncode(value);
  }

  /**
   * Below U+0010 the escape has one digit, so two different values can be
   * written alike: U+0001 followed by `A`, and U+001A, are both `%1A`.
   */
  lemma ShortEscapesCollide()
    ensures EncodeValue(['\U{1}', 'A']) == EncodeValue(['\U{1A}']) == "%1A"
  {
    assert ToRadix(1, 16, true) == "1";
    assert ToRadix(26 / 16, 16, true) == "1";
    assert ToRadix(26, 16, true) == "1A";
    assert EncodeValue(['A']) == "A";
  }

  // ---- the checksum -------------------------------------------------------

  const WRAP := 0x1_0000_0000

  /** `Wrapping<u32>` addition. */
  function AddWrapping(sum: uint32, x: nat): uint32 {
    (sum + x) % WRAP
  }

  /** An unbounded sum reduced to 32 bits. */
  function Wrapped(total: nat): uint32 {
    total % WRAP
  }

  /** The weight of the byte at offset `i`: each group of four is read big-endian. */
  function Weight(i: nat): nat {
    if i % 4 == 0 then 0x100_0000 else if i % 4 == 1 then 0x1_0000 else if i % 4 == 2 then 0x100 else 1
  }

  /** The byte at offset `i` shifted by its weight. */
  function Term(bytes: seq<byte>, i: nat): nat
    requires i < |bytes|
  {
    bytes[i] as nat * Weight(i)
  }

  /** The unbounded sum of the first `k` bytes, each shifted by its weight. */
  function WeightedSum(bytes: seq<byte>, k: nat): nat
    requires k <= |bytes|
    decreases k
  {
    if k == 0 then 0 else WeightedSum(bytes, k - 1) + Term(bytes, k - 1)
  }

  /**
   * The 16-bit checksum: the 32-bit wrapping sum folded once into 16 bits
   * (`& 0xFFFF` is `% 0x1_0000`, `>> 16` is `/ 0x1_0000`) and inverted
   * (`!x & 0xFFFF` is `0xFFFF - x` below 0x1_0000).
   */
  function Checksum(bytes: seq<byte>): (c: nat)
    ensures c < 0x1_0000
  {
    Fold(Wrapped(WeightedSum(bytes, |bytes|)))
  }

  function Fold(sum: uint32): (c: nat)
    ensures c < 0x1_0000
  {
    0xFFFF - (sum % 0x1_0000 + sum / 0x1_0000) % 0x1_0000
  }

  /** The bytes zero-padded to a whole number of 4-byte words. */
  function Padded(bytes: seq<byte>): (p: seq<byte>)
    ensures |p| % 4 == 0 && |bytes| <= |p| < |bytes| + 4 && p[..|bytes|] == bytes
  {
    bytes + seq((4 - |bytes| % 4) % 4, _ => 0 as byte)
  }

  /** The sum of the first `m` big-endian 32-bit words. */
  function WordSum(words: seq<byte>, m: nat): nat
    requires 4 * m <= |words|
    decreases m
  {
    if m == 0 then 0 else WordSum(words, m - 1) + FromBE(words[4 * (m - 1)..4 * m])
  }

  lemma FourBytesBE(w: seq<byte>)
    requires |w| == 4
    ensures FromBE(w) == w[0] as nat * 0x100_0000 + w[1] as nat * 0x1_0000 + w[2] as nat * 0x100 + w[3] as nat
  {
    var a, b, c := w[..1], w[..2], w[..3];
    assert FromBE(a) == w[0] as nat by {
      assert a[..0] == [];
    }
    assert FromBE(b) == FromBE(a) * 0x100 + w[1] as nat by {
      assert b[..1] == a;
    }
    assert FromBE(c) == FromBE(b) * 0x100 + w[2] as nat by {
      assert c[..2] == b;
    }
    assert FromBE(w) == FromBE(c) * 0x100 + w[3] as nat by {
      assert w[..3] == c;
    }
  }

  lemma {:induction false} WeightedWords(words: seq<byte>, m: nat)
    requires 4 * m <= |words|
    ensures WeightedSum(words, 4 * m) == WordSum(words, m)
    decreases m
  {
    if m > 0 {
      WeightedWords(words, m - 1);
      var k := 4 * (m - 1);
      var w := words[k..k + 4];
      FourBytesBE(w);
      assert w[0] == words[k] && w[1] == words[k + 1] && w[2] == words[k + 2] && w[3] == words[k + 3];
      assert Term(words, k) == words[k] as nat * 0x100_0000;
      assert Term(words, k + 1) == words[k + 1] as nat * 0x1_0000;
      assert Term(words, k + 2) == words[k + 2] as nat * 0x100;
      assert Term(words, k + 3) == words[k + 3] as nat;
      assert WeightedSum(words, k + 4) == WeightedSum(words, k + 3) + Term(words, k + 3);
      assert WeightedSum(words, k + 3) == WeightedSum(words, k + 2) + Term(words, k + 2);
      assert WeightedSum(words, k + 2) == WeightedSum(words, k + 1) + Term(words, k + 1);
      assert WeightedSum(words, k + 1) == WeightedSum(words, k) + Term(words, k);
    }
  }

  lemma {:induction false} PrefixSum(a: seq<byte>, b: seq<byte>, k: nat)
    requires k <= |a| && k <= |b| && a[..k] == b[..k]
    ensures WeightedSum(a, k) == WeightedSum(b, k)
    decreases k
  {
    if k > 0 {
      assert a[k - 1] == a[..k][k - 1];
      assert a[..k - 1] == a[..k][..k - 1];
      assert b[..k - 1] == b[..k][..k - 1];
      PrefixSum(a, b, k - 1);
    }
  }

  lemma {:induction false} ZerosAddNothing(bytes: seq<byte>, k: nat)
    requires |bytes| <= k <= |Padded(bytes)|
    ensures WeightedSum(Padded(bytes), k) == WeightedSum(bytes, |bytes|)
    decreases k
  {
    if k > |bytes| {
      ZerosAddNothing(bytes, k - 1);
    } else {
      PrefixSum(Padded(bytes), bytes, k);
    }
  }

  /**
   * The sum the checksum folds is the sum of the text's big-endian 32-bit
   * words, the last one padded with zero bytes.
   */
  lemma SumOfWords(bytes: seq<byte>)
    ensures WeightedSum(bytes, |bytes|) == WordSum(Padded(bytes), |Padded(bytes)| / 4)
  {
    var p := Padded(bytes);
    ZerosAddNothing(bytes, |p|);
    WeightedWords(p, |p| / 4);
  }

  /** Adding to the wrapped sum is wrapping the sum of the two. */
  lemma AddWrapped(total: nat, x: nat)
    ensures AddWrapping(Wrapped(total), x) == Wrapped(total + x)
  {
    var q := total / WRAP;
    assert total == q * WRAP + total % WRAP;
  }

  /** The wrapped sum after one more byte. */
  lemma Step(bytes: seq<byte>, k: nat, x: nat)
    requires k < |bytes| && x == Term(bytes, k)
    ensures AddWrapping(Wrapped(WeightedSum(bytes, k)), x) == Wrapped(WeightedSum(bytes, k + 1))
  {
    AddWrapped(WeightedSum(bytes, k), x);
  }

  /** One group of four bytes added to the wrapped sum. */
  lemma ChunkSteps(bytes: seq<byte>, k: nat)
    requires k % 4 == 0 && k + 4 <= |bytes|
    ensures var s0 := Wrapped(WeightedSum(bytes, k));
      var s1 := AddWrapping(s0, bytes[k] as nat * 0x100_0000);
      var s2 := AddWrapping(s1, bytes[k + 1] as nat * 0x1_0000);
      var s3 := AddWrapping(s2, bytes[k + 2] as nat * 0x100);
      AddWrapping(s3, bytes[k + 3] as nat) == Wrapped(WeightedSum(bytes, k + 4))
  {
    assert Weight(k) == 0x100_0000 && Weight(k + 1) == 0x1_0000 && Weight(k + 2) == 0x100 && Weight(k + 3) == 1;
    Step(bytes, k, Term(bytes, k));
    Step(bytes, k + 1, Term(bytes, k + 1));
    Step(bytes, k + 2, Term(bytes, k + 2));
    Step(bytes, k + 3, Term(bytes, k + 3));
  }

  /** In the remainder, the shift `i << 3` of `generate_form` is the byte's weight. */
  lemma RemainderWeight(k: nat, chunked: nat, shift: nat)
    requires chunked % 4 == 0 && chunked <= k && shift == 3 - (k - chunked) && 1 <= shift
    ensures Pow256(shift) == Weight(k)
  {
    assert Pow256(1) == 0x100;
    assert Pow256(2) == 0x1_0000;
    assert Pow256(3) == 0x100_0000;
  }

  /** `generate_form`'s checksum loops: four bytes at a time, then the remainder. */
  method ChecksumOf(bytes: seq<byte>) returns (c: nat)
    ensures c == Checksum(bytes)
  {
    var sum, chunked := WordsSum(bytes);
    sum := RemainderSum(bytes, chunked, sum);
    var folded := (sum % 0x1_0000 + sum / 0x1_0000) % 0x1_0000;
    c := 0xFFFF - folded;
  }

  /** The first loop: whole 4-byte words, each byte shifted by its place in the word, summed with wrapping. */
  method WordsSum(bytes: seq<byte>) returns (sum: uint32, k: nat)
    ensures k % 4 == 0 && k <= |bytes| < k + 4
    ensures sum == Wrapped(WeightedSum(bytes, k))
  {
    sum, k := 0, 0;
    while k + 4 <= |bytes|
      invariant k % 4 == 0 && k <= |bytes|
      invariant sum == Wrapped(WeightedSum(bytes, k))
    {
      ChunkSteps(bytes, k);
      sum := AddWrapping(sum, bytes[k] as nat * 0x100_0000);
      sum := AddWrapping(sum, bytes[k + 1] as nat * 0x1_0000);
      sum := AddWrapping(sum, bytes[k + 2] as nat * 0x100);
      sum := AddWrapping(sum, bytes[k + 3] as nat);
      k := k + 4;
    }
  }

  /** The second loop: the last one to three bytes, shifted as in a word, added with wrapping. */
  method RemainderSum(bytes: seq<byte>, chunked: nat, start: uint32) returns (sum: uint32)
    requires chunked % 4 == 0 && chunked <= |bytes| < chunked + 4
    requires start == Wrapped(WeightedSum(bytes, chunked))
    ensures sum == Wrapped(WeightedSum(bytes, |bytes|))
  {
    sum := start;
    var k := chunked;
    var shift: nat := 3;
    while k < |bytes|
      invariant chunked <= k <= |bytes|
      invariant shift == 3 - (k - chunked)
      invariant sum == Wrapped(WeightedSum(bytes, k))
    {
      RemainderWeight(k, chunked, shift);
      Step(bytes, k, bytes[k] as nat * Pow256(shift));
      sum := AddWrapping(sum, bytes[k] as nat * Pow256(shift));
      shift := shift - 1;
      k := k + 1;
    }
  }

  /**
   * `generate_form`: each pair as `key=value&` with the value encoded
   * character by character, then `postSecurityFlag=` and the checksum of
   * the UTF-8 bytes written so far.
   */
  method GenerateForm(pairs: seq<(string, string)>) returns (form: string)
    ensures form == Signed(FormText(pairs))
  {
    var result := WriteFields(pairs);
    var checksum := ChecksumOf(Utf8.Encode(result));
    form := result + "postSecurityFlag=" + Decimal(checksum);
  }

  /** The pair loop of `generate_form`. */
  method WriteFields(pairs: seq<(string, string)>) returns (result: string)
    ensures result == FormText(pairs)
  {
    result := "";
    for i := 0 to |pairs|
      invariant result == Fields(pairs, i)
    {
      var (key, value) := pairs[i];
      result := result + key + "=";
      result := WriteValue(result, value);
      result := result + "&";
    }
  }

  /** The character loop of `generate_form`, appending the encoded `value` to `prefix`. */
  method WriteValue(prefix: string, value: string) returns (result: string)
    ensures result == prefix + EncodeValue(value)
  {
    result := AppendEach(prefix, value, EncodeChar);
  }

  /** Appends what `f` gives for each item in turn. */
  method AppendEach<T>(prefix: string, items: seq<T>, f: T -> string) returns (result: string)
    ensures result == prefix + Concat(items, f, |items|)
  {
    result := prefix;
    for j := 0 to |items|
      invariant result == prefix + Concat(items, f, j)
    {
      result := result + f(items[j]);
    }
  }

  /** The checksum field of a posted form reads back as a 16-bit number. */
  lemma ChecksumReadsBack(text: string)
    ensures var head := text + "postSecurityFlag=";
      |head| <= |Signed(text)| && Signed(text)[..|head|] == head &&
      ParseUnsigned(Signed(text)[|head|..], 10, 0x1_0000) == Some(Checksum(Utf8.Encode(text)))
  {
    var head := text + "postSecurityFlag=";
    var digits := Decimal(Checksum(Utf8.Encode(text)));
    assert Signed(text) == head + digits;
    assert (head + digits)[..|head|] == head;
    assert (head + digits)[|head|..] == digits;
    ParseDecimal(Checksum(Utf8.Encode(text)), 0x1_0000);
  }


  /** Text whose every character `generate_form` writes as itself. */
  predicate Plain(value: string) {
    forall i :: 0 <= i < |value| ==> IsAsciiAlphanumeric(value[i]) || value[i] in "*-._"
  }

  lemma PlainValue(value: string)
    requires Plain(value)
    ensures EncodeValue(value) == value
  {
    PlainPrefix(value, |value|);
  }

  lemma {:induction false} PlainPrefix(value: string, k: nat)
    requires Plain(value) && k <= |value|
    ensures Concat(value, EncodeChar, k) == value[..k]
    decreases k
  {
    if k > 0 {
      PlainPrefix(value, k - 1);
      assert value[..k] == value[..k - 1] + [value[k - 1]];
    }
  }

  /** Encoding a value piece by piece. */
  lemma ValueAppend(a: string, b: string)
    ensures EncodeValue(a + b) == EncodeValue(a) + EncodeValue(b)
  {
    ConcatAppend(a, b, EncodeChar, |b|);
  }

  lemma {:induction false} ConcatAppend<T>(a: seq<T>, b: seq<T>, f: T -> string, k: nat)
    requires k <= |b|
    ensures Concat(a + b, f, |a| + k) == Concat(a, f, |a|) + Concat(b, f, k)
    decreases k
  {
    if k == 0 {
      PrefixConcat(a + b, a, f, |a|);
    } else {
      ConcatAppend(a, b, f, k - 1);
      assert (a + b)[|a| + k - 1] == b[k - 1];
    }
  }

  lemma {:induction false} PrefixConcat<T>(a: seq<T>, b: seq<T>, f: T -> string, k: nat)
    requires k <= |a| && k <= |b| && a[..k] == b[..k]
    ensures Concat(a, f, k) == Concat(b, f, k)
    decreases k
  {
    if k > 0 {
      assert a[k - 1] == a[..k][k - 1];
      assert a[..k - 1] == a[..k][..k - 1];
      assert b[..k - 1] == b[..k][..k - 1];
      PrefixConcat(a, b, f, k - 1);
    }
  }

  /** The two escapes the example needs. */
  lemma ExampleEscapes()
    ensures EncodeChar('/') == "%2F" && EncodeChar('=') == "%3D"
  {
    assert ToRadix(2, 16, true) == "2";
    assert ToRadix(0x2F, 16, true) == "2F";
    assert ToRadix(3, 16, true) == "3";
    assert ToRadix(0x3D, 16, true) == "3D";
  }

  /** The example's submit URL as `generate_form` writes it: its slashes escaped. */
  lemma ExampleUrlValue()
    ensures EncodeValue("/admin/login.asp") == "%2Fadmin%2Flogin.asp"
  {
    ExampleUrlParts();
    assert "/admin/login.asp" == "/" + "admin" + "/" + "login.asp";
    assert "%2Fadmin%2Flogin.asp" == "%2F" + "admin" + "%2F" + "login.asp";
  }

  /** The example's page path, piece by piece: its slashes escaped, the rest kept. */
  lemma ExampleUrlParts()
    ensures EncodeValue("/" + "admin" + "/" + "login.asp") == "%2F" + "admin" + "%2F" + "login.asp"
  {
    ExampleEscapes();
    assert Plain("admin") && Plain("login.asp");
    PlainValue("admin");
    PlainValue("login.asp");
    assert EncodeValue("/") == "%2F";
    ValueAppend("/", "admin");
    ValueAppend("/" + "admin", "/");
    ValueAppend("/" + "admin" + "/", "login.asp");
  }

  /** The example's encoded password as `generate_form` writes it: its padding escaped. */
  lemma ExamplePasswordValue()
    ensures EncodeValue("YWRtaW4=") == "YWRtaW4%3D"
  {
    ExampleEscapes();
    assert Plain("YWRtaW4");
    PlainValue("YWRtaW4");
    assert EncodeValue("=") == "%3D";
    assert "YWRtaW4=" == "YWRtaW4" + "=";
    ValueAppend("YWRtaW4", "=");
  }

  /** The example's plain values, written as they are. */
  lemma ExamplePlainValues()
    ensures EncodeValue("admin") == "admin" && EncodeValue("Login") == "Login"
  {
    assert Plain("admin");
    PlainValue("admin");
    assert Plain("Login");
    PlainValue("Login");
  }

  /** The text of the example's login form: every pair in order, each value encoded. */
  lemma ExampleFormText(config: Config, base64: seq<byte> -> string)
    requires config.username == "admin" && config.password == "admin"
    requires base64(Utf8.Encode("admin")) == "YWRtaW4="
    ensures FormText(LoginPairs(config, base64)) ==
      "username" + "=" + "admin" + "&" + "save" + "=" + "Login" + "&" +
      "submit-url" + "=" + "%2Fadmin%2Flogin.asp" + "&" + "encodePassword" + "=" + "YWRtaW4%3D" + "&"
  {
    var p := LoginPairs(config, base64);
    ExamplePlainValues();
    ExampleUrlValue();
    ExamplePasswordValue();
    FourFields(p);
    assert [] + "username" == "username";
  }

  /** The text of four pairs: each pair's `key=value&` in order. */
  lemma FourFields(p: seq<(string, string)>)
    requires |p| == 4
    ensures FormText(p) == [] + p[0].0 + "=" + EncodeValue(p[0].1) + "&" + p[1].0 + "=" + EncodeValue(p[1].1) + "&" +
      p[2].0 + "=" + EncodeValue(p[2].1) + "&" + p[3].0 + "=" + EncodeValue(p[3].1) + "&"
  {
    assert Fields(p, 1) == [] + p[0].0 + "=" + EncodeValue(p[0].1) + "&";
    assert Fields(p, 2) == Fields(p, 1) + p[1].0 + "=" + EncodeValue(p[1].1) + "&";
    assert Fields(p, 3) == Fields(p, 2) + p[2].0 + "=" + EncodeValue(p[2].1) + "&";
  }

  /**
   * The login form of the source's own example, user "admin" with password
   * "admin": the encoded pairs, then the checksum field over their bytes.
   */
  lemma LoginFormExample(config: Config, base64: seq<byte> -> string)
    requires config.username == "admin" && config.password == "admin"
    requires base64(Utf8.Encode("admin")) == "YWRtaW4="
    ensures var text := "username" + "=" + "admin" + "&" + "save" + "=" + "Login" + "&" +
      "submit-url" + "=" + "%2Fadmin%2Flogin.asp" + "&" + "encodePassword" + "=" + "YWRtaW4%3D" + "&";
      Signed(FormText(LoginPairs(config, base64))) == text + "postSecurityFlag=" + Decimal(Checksum(Utf8.Encode(text)))
  {
    ExampleFormText(config, base64);
  }

  // ---- the forms ----------------------------------------------------------

  const FILTER_PAGE := "/fw-ipportfilter-v6.asp"

  function DirectionCode(d: Direction): string {
    match d
    case Outgoing => "0"
    case Incoming => "1"
  }

  function ProtocolCode(p: Protocol): string {
    match p
    case Tcp => "1"
    case Udp => "2"
    case Icmpv6 => "3"
  }

  function FilterMode(allowed: bool): string {
    if allowed then "Allow" else "Deny"
  }

  /** The login form's pairs; `base64` stands for the Base64 encoder. */
  function LoginPairs(config: Config, base64: seq<byte> -> string): seq<(string, string)> {
    [("username", config.username),
     ("save", "Login"),
     ("submit-url", "/admin/login.asp"),
     ("encodePassword", base64(Utf8.Encode(config.password)))]
  }

  /** The pairs that delete the rule in row `select{index}`. */
  function DeletePairs(index: nat): seq<(string, string)> {
    [("select" + Decimal(index), "ON"),
     ("deleteSelFilterIpPort", "Delete Selected"),
     ("submit-url", FILTER_PAGE)]
  }

  /** The pairs that add the rule for `ip`. */
  function RulePairs(config: Config, ip: Octets16, t6: Ipv6Text): seq<(string, string)> {
    [("dir", DirectionCode(config.direction)),
     ("protocol", ProtocolCode(config.protocol)),
     ("filterMode", FilterMode(config.allowed)),
     ("sip6Start", ""),
     ("sip6End", ""),
     ("sip6PrefixLen", ""),
     ("dip6Start", t6.show(ip)),
     ("dip6End", ""),
     ("dip6PrefixLen", ""),
     ("sfromPort", ""),
     ("stoPort", ""),
     ("dfromPort", Decimal(config.destPort)),
     ("dtoPort", ""),
     ("wanif", "65536"),
     ("schedList", ""),
     ("addFilterIpPort", "Add Rule"),
     ("select_id", ""),
     ("submit-url", FILTER_PAGE)]
  }

  /** `Service::from`: the login form is written once, and no rule is known yet. */
  method FromConfig(config: Config, base64: seq<byte> -> string) returns (service: Service)
    ensures service.config == config && service.oldAddress == None
    ensures service.loginForm == Signed(FormText(LoginPairs(config, base64)))
  {
    var form := GenerateForm(LoginPairs(config, base64));
    service := Service(config, form, None);
  }

  // ---- requests -----------------------------------------------------------

  const FORM_TYPE := "application/x-www-form-urlencoded"

  function LoginRequest(service: Service): Request {
    var gateway := service.config.gateway;
    Set(Set(NewRequest(Post, gateway + "/boaform/admin/formLogin"), "Referer", gateway), "Content-Type", FORM_TYPE)
      .(body := Form(service.loginForm))
  }

  function FilterPageRequest(config: Config): Request {
    NewRequest(Get, config.gateway + FILTER_PAGE)
  }

  /** A form posted to the IPv6 filter handler. */
  function FilterPost(config: Config, form: string): Request {
    var gateway := config.gateway;
    Set(Set(Set(NewRequest(Post, gateway + "/boaform/formFilterV6"), "Origin", gateway),
            "Referer", gateway + FILTER_PAGE), "Content-Type", FORM_TYPE)
      .(body := Form(form))
  }

  function DeleteRequest(config: Config, index: nat): Request {
    FilterPost(config, Signed(FormText(DeletePairs(index))))
  }

  function RuleRequest(config: Config, ip: Octets16, t6: Ipv6Text): Request {
    FilterPost(config, Signed(FormText(RulePairs(config, ip, t6))))
  }

  /** The error a failed request becomes: the status and the body's text, or the transport error. */
  function Failure(outcome: Outcome): (e: DdnsUpdateError)
    requires !outcome.Success?
    ensures outcome.Status? ==> e.Router1? && e.status == outcome.code
    ensures outcome.Transport? ==> e == TransportError(outcome.message)
  {
    match outcome
    case Status(code, response) =>
      Router1(code, match response.text case Ok(text) => text case Err(message) => message)
    case Transport(message) => TransportError(message)
  }

  // ---- finding the old rule -----------------------------------------------

  const TABLE_MARKER := "<form action=/boaform/formFilterV6 method=POST name=\"formFilterDel\">"
  const ROW_START := "<tr><td>"
  const CHECKBOX := "<input type=\"checkbox\" name=\""
  const CELL_END := "</td>"

  function ProtocolNamed(name: string): Option<Protocol> {
    if name == "tcp" then Some(Tcp)
    else if name == "udp" then Some(Udp)
    else if name == "icmpv6" then Some(Icmpv6)
    else None
  }

  /** The text of cell `k` up to its `</td>`, if there is such a cell and it is closed. */
  function Cell(tds: seq<string>, k: nat): Option<string> {
    if k < |tds| then
      match SplitOnce(tds[k], CELL_END)
      case None => None
      case Some((text, _)) => Some(text)
    else None
  }

  /**
   * The rule index in a table row when the row is the configured rule for
   * the old address, `Ok(None)` for any other row, `Err` for a row that does
   * not have the expected shape. The cells after the leading `<tr>` are the
   * check box, the direction, the protocol, two source cells, the
   * destination address and the destination port.
   */
  function ParseRow(tr: string, config: Config, oldAddress: Option<Octets16>, t6: Ipv6Text): (r: Result<Option<nat>, ()>)
    ensures r.Ok? && r.value.Some? ==> oldAddress.Some? && r.value.value < 0x1_0000_0000_0000_0000
  {
    var row := Split(tr, "</tr>")[0];
    var tds := Split(row, "<td>");
    if |tds| < 2 then Err(())
    else
      var boxed := Split(tds[1], CHECKBOX);
      if |boxed| < 2 then Err(())
      else
        match SplitOnce(boxed[1], "\"")
        case None => Err(())
        case Some((name, _)) =>
          match Cell(tds, 3)
          case None => Err(())
          case Some(protocol) =>
            match Cell(tds, 6)
            case None => Err(())
            case Some(destination) =>
              if '-' in destination then Ok(None)
              else
                var address := if '/' in destination then Split(destination, "/")[0] else destination;
                match Cell(tds, 7)
                case None => Err(())
                case Some(port) =>
                  if '-' in port then Ok(None)
                  else if address == [] then Ok(None)
                  else
                    match t6.parse(address)
                    case None => Err(())
                    case Some(ip) =>
                      match ProtocolNamed(ToAsciiLowercase(protocol))
                      case None => Err(())
                      case Some(p) =>
                        if p == config.protocol && Some(ip) == oldAddress then
                          match ParseUnsigned(port, 10, 0x1_0000)
                          case None => Err(())
                          case Some(n) =>
                            if n == config.destPort then
                              match StripPrefix(name, "select")
                              case None => Err(())
                              case Some(digits) =>
                                match ParseUnsigned(digits, 10, 0x1_0000_0000_0000_0000)
                                case None => Err(())
                                case Some(index) => Ok(Some(index))
                            else Ok(None)
                        else Ok(None)
  }

  const ROW_ERROR := "Unable to parse v6 filter returned by router"

  /** The rows of `remaining` in order, up to the first that matches or fails to parse. */
  function FindRow(remaining: string, config: Config, oldAddress: Option<Octets16>, t6: Ipv6Text): (r: Result<Option<nat>, DdnsUpdateError>)
    ensures r.Err? ==> r.error == Router1(0, ROW_ERROR)
    decreases |remaining|
  {
    match Find(remaining, ROW_START)
    case None => Ok(None)
    case Some(i) =>
      var rest := remaining[i..];
      match ParseRow(rest, config, oldAddress, t6)
      case Err(_) => Err(Router1(0, ROW_ERROR))
      case Ok(Some(index)) => Ok(Some(index))
      case Ok(None) => FindRow(rest[|ROW_START|..], config, oldAddress, t6)
  }

  /** The rows of the rule table, which starts at its delete form; no table, no rule. */
  function TableIndex(content: string, service: Service, t6: Ipv6Text): Result<Option<nat>, DdnsUpdateError> {
    match Find(content, TABLE_MARKER)
    case None => Ok(None)
    case Some(start) => FindRow(content[start..], service.config, service.oldAddress, t6)
  }

  /** `find_old_ip_index` given the outcome of fetching the rule page. */
  function OldIpIndex(service: Service, outcome: Outcome, t6: Ipv6Text): (r: Result<Option<nat>, DdnsUpdateError>)
    ensures !outcome.Success? ==> r == Err(Failure(outcome))
    ensures outcome.Success? && outcome.response.text.Err? ==> r == Err(Router1(0, outcome.response.text.error))
  {
    match outcome
    case Success(response) =>
      (match response.text
       case Err(message) => Err(Router1(0, message))
       case Ok(content) => TableIndex(content, service, t6))
    case _ => Err(Failure(outcome))
  }

  /** While no rule address is known, no row is ever taken for the old rule. */
  lemma {:induction false} NoRowWithoutAddress(remaining: string, config: Config, t6: Ipv6Text)
    ensures !(FindRow(remaining, config, None, t6).Ok? && FindRow(remaining, config, None, t6).value.Some?)
    decreases |remaining|
  {
    match Find(remaining, ROW_START)
    case None =>
    case Some(i) =>
      var rest := remaining[i..];
      if ParseRow(rest, config, None, t6) == Ok(None) {
        NoRowWithoutAddress(rest[|ROW_START|..], config, t6);
      }
  }

  lemma NothingToDelete(service: Service, outcome: Outcome, t6: Ipv6Text)
    requires service.oldAddress.None?
    ensures !(OldIpIndex(service, outcome, t6).Ok? && OldIpIndex(service, outcome, t6).value.Some?)
  {
    if outcome.Success? && outcome.response.text.Ok? {
      var content := outcome.response.text.value;
      match Find(content, TABLE_MARKER)
      case None =>
      case Some(start) => NoRowWithoutAddress(content[start..], service.config, t6);
    }
  }

  /** `find_old_ip_index`: fetch the rule page and walk its rows. */
  method FindOldIpIndex(service: Service, send: Send, t6: Ipv6Text) returns (r: Result<Option<nat>, DdnsUpdateError>)
    ensures r == OldIpIndex(service, send(FilterPageRequest(service.config)), t6)
  {
    var outcome := send(FilterPageRequest(service.config));
    if !outcome.Success? {
      return Err(Failure(outcome));
    }
    if outcome.response.text.Err? {
      return Err(Router1(0, outcome.response.text.error));
    }
    var content := outcome.response.text.value;
    var start := Find(content, TABLE_MARKER);
    if start.None? {
      return Ok(None);
    }
    var remaining := content[start.value..];
    while true
      invariant FindRow(remaining, service.config, service.oldAddress, t6) == OldIpIndex(service, outcome, t6)
      decreases |remaining|
    {
      var i := Find(remaining, ROW_START);
      if i.None? {
        return Ok(None);
      }
      remaining := remaining[i.value..];
      var row := ParseRow(remaining, service.config, service.oldAddress, t6);
      if row.Err? {
        return Err(Router1(0, ROW_ERROR));
      }
      if row.value.Some? {
        return Ok(Some(row.value.value));
      }
      remaining := remaining[|ROW_START|..];
    }
  }

  // ---- update_record --------------------------------------------------------

  /** The row `find_old_ip_index` finds, on the page `send` answers. */
  function Found(service: Service, send: Send, t6: Ipv6Text): Result<Option<nat>, DdnsUpdateError> {
    OldIpIndex(service, send(FilterPageRequest(service.config)), t6)
  }

  /**
   * What the IPv6 part of `update_record` sends and how it ends: the rule
   * table is read, the rule found for the old address is deleted, if there
   * is one, and the rule for `ip` is added; the first failing request ends
   * it with that request's error.
   */
  function RuleExchange(service: Service, ip: Octets16, send: Send, t6: Ipv6Text): (Option<DdnsUpdateError>, seq<Request>) {
    var page := FilterPageRequest(service.config);
    match Found(service, send, t6)
    case Err(e) => (Some(e), [page])
    case Ok(None) => AddRule(service, ip, send, t6, [page])
    case Ok(Some(index)) =>
      var delete := DeleteRequest(service.config, index);
      if send(delete).Success? then AddRule(service, ip, send, t6, [page, delete])
      else (Some(Failure(send(delete))), [page, delete])
  }

  /** The rule for `ip` is posted after the requests `before`; its answer ends the exchange. */
  function AddRule(service: Service, ip: Octets16, send: Send, t6: Ipv6Text, before: seq<Request>): (Option<DdnsUpdateError>, seq<Request>) {
    var rule := RuleRequest(service.config, ip, t6);
    (if send(rule).Success? then None else Some(Failure(send(rule))), before + [rule])
  }

  /** What `update_record` sends and returns. */
  function Exchange(service: Service, ips: seq<IpAddr>, send: Send, t6: Ipv6Text): (UpdateResult, seq<Request>) {
    var login := LoginRequest(service);
    if !send(login).Success? then (Err(Failure(send(login))), [login])
    else if FirstV6(ips).None? then (Ok([]), [login])
    else
      var (failure, sent) := RuleExchange(service, FirstV6(ips).value.v6, send, t6);
      (if failure.Some? then Err(failure.value) else Ok([FirstV6(ips).value]), [login] + sent)
  }

  /** The request that deletes the rule in row `index`, its form written by `generate_form`. */
  method DeletePost(config: Config, index: nat) returns (request: Request)
    ensures request == DeleteRequest(config, index)
  {
    var form := GenerateForm(DeletePairs(index));
    request := FilterPost(config, form);
  }

  /** The request that adds the rule for `ip`, its form written by `generate_form`. */
  method RulePost(config: Config, ip: Octets16, t6: Ipv6Text) returns (request: Request)
    ensures request == RuleRequest(config, ip, t6)
  {
    var form := GenerateForm(RulePairs(config, ip, t6));
    request := FilterPost(config, form);
  }

  /** The IPv6 part of `update_record`. */
  method ReplaceRule(service: Service, ip: Octets16, send: Send, t6: Ipv6Text)
    returns (failure: Option<DdnsUpdateError>, sent: seq<Request>)
    ensures (failure, sent) == RuleExchange(service, ip, send, t6)
  {
    var page := FilterPageRequest(service.config);
    var found := FindOldIpIndex(service, send, t6);
    assert found == Found(service, send, t6);
    match found
    case Err(e) =>
      failure, sent := Some(e), [page];
    case Ok(None) =>
      failure, sent := PostRule(service, ip, send, t6, [page]);
    case Ok(Some(index)) =>
      var delete := DeletePost(service.config, index);
      var deleted := send(delete);
      if deleted.Success? {
        failure, sent := PostRule(service, ip, send, t6, [page, delete]);
      } else {
        failure, sent := Some(Failure(deleted)), [page, delete];
      }
  }

  /** The last step of `update_record`: the rule for `ip` is posted after `before`. */
  method PostRule(service: Service, ip: Octets16, send: Send, t6: Ipv6Text, before: seq<Request>)
    returns (failure: Option<DdnsUpdateError>, sent: seq<Request>)
    ensures (failure, sent) == AddRule(service, ip, send, t6, before)
  {
    var rule := RulePost(service.config, ip, t6);
    sent := before + [rule];
    var added := send(rule);
    failure := if added.Success? then None else Some(Failure(added));
  }

  /**
   * `update_record`: log in, then, when `ips` holds an IPv6 address, replace
   * the rule for the first one.
   */
  method UpdateRecord(service: Service, ips: seq<IpAddr>, send: Send, t6: Ipv6Text) returns (r: UpdateResult, sent: seq<Request>)
    ensures (r, sent) == Exchange(service, ips, send, t6)
  {
    var ipv6 := FirstV6(ips);
    var login := LoginRequest(service);
    sent := [login];
    var answer := send(login);
    if !answer.Success? {
      return Err(Failure(answer)), sent;
    }
    if ipv6.None? {
      return Ok([]), sent;
    }
    var failure, replaced := ReplaceRule(service, ipv6.value.v6, send, t6);
    sent := sent + replaced;
    if failure.Some? {
      return Err(failure.value), sent;
    }
    r := Ok([ipv6.value]);
  }

  /** The login comes first, and a failed login ends the update with its error. */
  lemma LoginFirst(service: Service, ips: seq<IpAddr>, send: Send, t6: Ipv6Text)
    ensures var (r, sent) := Exchange(service, ips, send, t6);
      1 <= |sent| <= 4 && sent[0] == LoginRequest(service) &&
      (!send(LoginRequest(service)).Success? ==> r == Err(Failure(send(LoginRequest(service)))) && |sent| == 1)
  {
  }

  /**
   * IPv4 addresses play no part: without an IPv6 address only the login is
   * sent, and success reports exactly the first IPv6 address.
   */
  lemma OnlyFirstV6(service: Service, ips: seq<IpAddr>, send: Send, t6: Ipv6Text)
    ensures var (r, sent) := Exchange(service, ips, send, t6);
      (send(LoginRequest(service)).Success? && FirstV6(ips).None? ==> r == Ok([]) && |sent| == 1) &&
      (r.Ok? ==> r.value == if FirstV6(ips).Some? then [FirstV6(ips).value] else [])
  {
  }

  /**
   * The rule table is read first, a failure to read it ends the exchange with
   * that error, and the exchange succeeds exactly when the rule for `ip` is
   * accepted as the last request.
   */
  lemma RuleAddedLast(service: Service, ip: Octets16, send: Send, t6: Ipv6Text)
    ensures var (failure, sent) := RuleExchange(service, ip, send, t6);
      1 <= |sent| <= 3 && sent[0] == FilterPageRequest(service.config) &&
      (Found(service, send, t6).Err? ==> failure == Some(Found(service, send, t6).error) && |sent| == 1) &&
      (failure.None? <==> Found(service, send, t6).Ok? && sent[|sent| - 1] == RuleRequest(service.config, ip, t6) &&
                          send(sent[|sent| - 1]).Success?)
  {
    match Found(service, send, t6)
    case Err(_) =>
      ExchangeStopsAtPage(service, ip, send, t6);
    case Ok(None) =>
      ExchangeAddsRule(service, ip, send, t6);
    case Ok(Some(index)) =>
      ExchangeDeletesFirst(service, ip, send, t6, index);
      if send(DeleteRequest(service.config, index)).Success? {
        assert RuleExchange(service, ip, send, t6).1[2] == RuleRequest(service.config, ip, t6);
      }
  }

  /**
   * A rule is deleted only when the table holds one for the old address,
   * and the new rule follows only an accepted deletion; while no old
   * address is known, nothing is deleted.
   */
  lemma DeletesOnlyOldRule(service: Service, ip: Octets16, send: Send, t6: Ipv6Text)
    ensures var (failure, sent) := RuleExchange(service, ip, send, t6);
      (Found(service, send, t6).Ok? && Found(service, send, t6).value.Some? ==>
        |sent| >= 2 && sent[1] == DeleteRequest(service.config, Found(service, send, t6).value.value) &&
        (|sent| == 3 <==> send(sent[1]).Success?)) &&
      (Found(service, send, t6).Ok? && Found(service, send, t6).value.None? ==>
        |sent| == 2 && sent[1] == RuleRequest(service.config, ip, t6)) &&
      (service.oldAddress.None? ==> |sent| <= 2)
  {
    match Found(service, send, t6)
    case Err(_) =>
      ExchangeStopsAtPage(service, ip, send, t6);
    case Ok(None) =>
      ExchangeAddsRule(service, ip, send, t6);
    case Ok(Some(index)) =>
      ExchangeDeletesFirst(service, ip, send, t6, index);
      if service.oldAddress.None? {
        NothingToDeleteIfUnknown(service, send(FilterPageRequest(service.config)), t6);
      }
  }

  /** An unreadable rule table ends the exchange after the page request, with its error. */
  lemma ExchangeStopsAtPage(service: Service, ip: Octets16, send: Send, t6: Ipv6Text)
    requires Found(service, send, t6).Err?
    ensures RuleExchange(service, ip, send, t6) == (Some(Found(service, send, t6).error), [FilterPageRequest(service.config)])
  {
  }

  /** With no rule for the old address, the page request is followed by the new rule only. */
  lemma ExchangeAddsRule(service: Service, ip: Octets16, send: Send, t6: Ipv6Text)
    requires Found(service, send, t6) == Ok(None)
    ensures RuleExchange(service, ip, send, t6) == AddRule(service, ip, send, t6, [FilterPageRequest(service.config)])
    ensures RuleExchange(service, ip, send, t6).1 == [FilterPageRequest(service.config), RuleRequest(service.config, ip, t6)]
  {
  }

  /** With a rule found in row `index`, it is deleted second, and the new rule follows only an accepted deletion. */
  lemma ExchangeDeletesFirst(service: Service, ip: Octets16, send: Send, t6: Ipv6Text, index: nat)
    requires Found(service, send, t6) == Ok(Some(index))
    ensures var page, delete := FilterPageRequest(service.config), DeleteRequest(service.config, index);
      RuleExchange(service, ip, send, t6) ==
        if send(delete).Success? then AddRule(service, ip, send, t6, [page, delete])
        else (Some(Failure(send(delete))), [page, delete])
    ensures var sent := RuleExchange(service, ip, send, t6).1;
      |sent| >= 2 && sent[1] == DeleteRequest(service.config, index) &&
      (|sent| == 3 <==> send(sent[1]).Success?)
  {
  }

  lemma NothingToDeleteIfUnknown(service: Service, outcome: Outcome, t6: Ipv6Text)
    requires OldIpIndex(service, outcome, t6).Ok? && OldIpIndex(service, outcome, t6).value.Some?
    ensures service.oldAddress.Some?
  {
    if service.oldAddress.None? {
      NothingToDelete(service, outcome, t6);
    }
  }
}
