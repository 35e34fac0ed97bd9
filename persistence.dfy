/**
 * The persistent state file: what survives a restart so that providers are
 * not asked again for addresses they already hold.
 *
 * Layout: the 8-byte magic "dynners\0", then the version (u32), the update
 * timestamp (u64) and the configuration hash (u64), all little-endian, then
 * entries of: name length (u32), the UTF-8 name, an address type byte
 * (0 for IPv4, 1 for IPv6) and the address as a little-endian u32 or u128.
 */
module Persistence {
  import opened Wrappers
  import opened Bytes
  import opened Ip
  import Utf8

  /** The newest file version this program reads (and the one it writes). */
  const StateVersion: uint32 := 1

  /** "dynners\0". */
  const Magic: seq<byte> := [0x64, 0x79, 0x6e, 0x6e, 0x65, 0x72, 0x73, 0x00]

  const TwoTo32: nat := 0x1_0000_0000

  /** `crc32fast::hash`, supplied from outside. */
  type Crc32 = seq<byte> -> uint32

  // ---- configuration hash ----------------------------------------------

  /** The rolling half of the hash: `h := h * 65539 + b` in 32-bit wrapping arithmetic. */
  function Rolling(seed: uint32, s: seq<byte>): (h: uint32)
    decreases |s|
  {
    if s == [] then seed
    else (Rolling(seed, s[..|s| - 1]) * 65539 + s[|s| - 1] as nat) % TwoTo32
  }

  /** `hash_bytes`: the CRC-32 in the high 32 bits, the rolling hash seeded with it in the low 32. */
  function ConfigHash(s: seq<byte>, crc: Crc32): (h: uint64)
    ensures h / TwoTo32 == crc(s) && h % TwoTo32 == Rolling(crc(s), s)
  {
    crc(s) * TwoTo32 + Rolling(crc(s), s)
  }

  /** `hash_bytes` as the source computes it: one pass over the bytes. */
  method HashBytes(s: seq<byte>, crc: Crc32) returns (h: uint64)
    ensures h == ConfigHash(s, crc)
  {
    var hash1 := crc(s);
    var hash2: uint32 := hash1;
    for i := 0 to |s|
      invariant hash2 == Rolling(hash1, s[..i])
    {
      assert s[..i + 1][..i] == s[..i];
      hash2 := (hash2 * 65539 + s[i] as nat) % TwoTo32;
    }
    assert s[..|s|] == s;
    h := hash1 * TwoTo32 + hash2;
  }

  /** The hash of a configuration text. */
  function TextHash(config: string, crc: Crc32): uint64 {
    ConfigHash(Utf8.Encode(config), crc)
  }

  // ---- the stored value ---------------------------------------------------

  datatype StateData = StateData(version: uint32, updateTimestamp: uint64, configHash: uint64, ipAddresses: map<string, IpAddr>)

  /** The field being read when the file ended; the error message names it. */
  datatype Field = InMagic | InVersion | InUpdateTimestamp | InConfigHash | InIpType | InIpv4Address | InIpv6Address

  /** The errors `from_reader` raises. */
  datatype ReadError =
    | UnexpectedEof(field: Field)
    | InvalidMagic
    | TooNew
    | NonUtf8Name
    | UnexpectedIpType

  /** The `io::ErrorKind` of each error. */
  datatype ErrorKind = UnexpectedEofKind | InvalidInputKind | UnsupportedKind

  function Kind(e: ReadError): ErrorKind {
    match e
    case UnexpectedEof(_) => UnexpectedEofKind
    case InvalidMagic | NonUtf8Name | UnexpectedIpType => InvalidInputKind
    case TooNew => UnsupportedKind
  }

  /** The name an end-of-file message gives the field. */
  function FieldName(f: Field): string {
    match f
    case InMagic => "magic"
    case InVersion => "version"
    case InUpdateTimestamp => "update timestamp"
    case InConfigHash => "config hash"
    case InIpType => "IP type"
    case InIpv4Address => "IPv4 address"
    case InIpv6Address => "IPv6 address"
  }

  /** The message each error carries. */
  function Message(e: ReadError): string {
    match e
    case UnexpectedEof(f) => "EOF while reading persistent state file for " + FieldName(f)
    case InvalidMagic => "unexpected file format: invalid magic"
    case TooNew => "the persistent state file is too new"
    case NonUtf8Name => "unexpected non-UTF8 IP address name"
    case UnexpectedIpType => "unexpected IP type"
  }

  /** An enumeration of the keys of `m`, each exactly once, as a `HashMap` iterates them. */
  predicate IsKeyOrder<V>(order: seq<string>, m: map<string, V>) {
    (forall k :: k in m ==> k in order) &&
    (forall i :: 0 <= i < |order| ==> order[i] in m) &&
    (forall i, j :: 0 <= i < j < |order| ==> order[i] != order[j])
  }

  // ---- write_to ---------------------------------------------------------

  /** The type byte and the address as a little-endian integer. */
  function EncodeAddr(ip: IpAddr): (b: seq<byte>)
    ensures |b| == if ip.V4? then 5 else 17
  {
    match ip
    case V4(a) => [0] + ToLE(FromBE(a), 4)
    case V6(a) => [1] + ToLE(FromBE(a), 16)
  }

  /** One entry; the name length is truncated to 32 bits as `as u32` does. */
  function EncodeEntry(name: string, ip: IpAddr): seq<byte> {
    var nb := Utf8.Encode(name);
    ToLE(|nb| % TwoTo32, 4) + nb + EncodeAddr(ip)
  }

  function EncodeList(entries: seq<(string, IpAddr)>): seq<byte>
    decreases |entries|
  {
    if entries == [] then [] else EncodeEntry(entries[0].0, entries[0].1) + EncodeList(entries[1..])
  }

  /** The entries of `m` in the given key order. */
  function Entries(m: map<string, IpAddr>, order: seq<string>): (es: seq<(string, IpAddr)>)
    requires forall i :: 0 <= i < |order| ==> order[i] in m
    ensures |es| == |order|
  {
    seq(|order|, i requires 0 <= i < |order| => (order[i], m[order[i]]))
  }

  function Header(d: StateData): (b: seq<byte>)
    ensures |b| == 28
  {
    Magic + ToLE(d.version, 4) + ToLE(d.updateTimestamp, 8) + ToLE(d.configHash, 8)
  }

  /** The bytes `write_to` produces when the map iterates in `order`. */
  function Encode(d: StateData, order: seq<string>): seq<byte>
    requires IsKeyOrder(order, d.ipAddresses)
  {
    Header(d) + EncodeList(Entries(d.ipAddresses, order))
  }

  /** Appending in two steps is appending the concatenation. */
  lemma Appended3(a: seq<byte>, b: seq<byte>, c: seq<byte>, d: seq<byte>)
    requires d == a + b + c
    ensures d == a + (b + c)
  {
  }

  /** Four parts appended one after another. */
  lemma Appended4(a: seq<byte>, b: seq<byte>, c: seq<byte>, d: seq<byte>, x: seq<byte>)
    requires x == ((a + b) + c) + d
    ensures x == a + ((b + c) + d)
  {
  }

  /** Encoding a list with one more entry at the end appends that entry's bytes. */
  lemma {:induction false} EncodeListAppend(es: seq<(string, IpAddr)>, e: (string, IpAddr))
    ensures EncodeList(es + [e]) == EncodeList(es) + EncodeEntry(e.0, e.1)
    decreases |es|
  {
    var longer := es + [e];
    if es == [] {
      assert longer[1..] == [];
    } else {
      assert longer[0] == es[0] && longer[1..] == es[1..] + [e];
      EncodeListAppend(es[1..], e);
    }
  }

  /** Encoding one more entry of `es` appends its bytes. */
  lemma EncodeListSnoc(es: seq<(string, IpAddr)>, i: nat)
    requires i < |es|
    ensures EncodeList(es[..i + 1]) == EncodeList(es[..i]) + EncodeEntry(es[i].0, es[i].1)
  {
    assert es[..i + 1] == es[..i] + [es[i]];
    EncodeListAppend(es[..i], es[i]);
  }

  // ---- from_reader --------------------------------------------------------

  /** The map after inserting the entries in order; a later entry replaces an earlier one of the same name. */
  function Insert(acc: map<string, IpAddr>, entries: seq<(string, IpAddr)>): map<string, IpAddr>
    decreases |entries|
  {
    if entries == [] then acc else Insert(acc[entries[0].0 := entries[0].1], entries[1..])
  }

  /** What one pass of the entry loop finds. */
  datatype EntryRead =
    | EntryError(error: ReadError)
    | ListEnd
    | EntryFound(name: string, ip: IpAddr, next: nat)

  /** What reading a name length and a name finds. */
  datatype NameRead =
    | NameError(error: ReadError)
    | NoName
    | NameFound(name: string, at: nat)

  /** What reading a type byte and an address finds. */
  datatype AddressRead =
    | AddressError(error: ReadError)
    | AddressFound(ip: IpAddr, next: nat)

  /**
   * One pass of the entry loop at offset `pos`: the end of the list when
   * fewer than four bytes are left for a name length or the length is zero,
   * else the name, the address and the offset after them. Running out of
   * bytes inside a name, type or address is an error. (The source labels the
   * end-of-file error inside a name "version".)
   */
  function ReadEntry(bytes: seq<byte>, pos: nat): (r: EntryRead)
    requires pos <= |bytes|
    ensures r.EntryFound? ==> pos < r.next <= |bytes|
  {
    match ReadName(bytes, pos)
    case NameError(e) => EntryError(e)
    case NoName => ListEnd
    case NameFound(name, at) =>
      match ReadAddress(bytes, at)
      case AddressError(e) => EntryError(e)
      case AddressFound(ip, next) => EntryFound(name, ip, next)
  }

  /** The name length and the name at offset `pos`, and the offset after them. */
  function ReadName(bytes: seq<byte>, pos: nat): (r: NameRead)
    requires pos <= |bytes|
    ensures r.NameFound? ==> pos < r.at <= |bytes|
  {
    if |bytes| < pos + 4 then NoName
    else
      var len := FromLE(bytes[pos..pos + 4]);
      if len == 0 then NoName
      else if |bytes| < pos + 4 + len then NameError(UnexpectedEof(InVersion))
      else
        match Utf8.Decode(bytes[pos + 4..pos + 4 + len])
        case None => NameError(NonUtf8Name)
        case Some(name) => NameFound(name, pos + 4 + len)
  }

  /** The type byte and the address at offset `at`, and the offset after them. */
  function ReadAddress(bytes: seq<byte>, at: nat): (r: AddressRead)
    requires at <= |bytes|
    ensures r.AddressFound? ==> at < r.next <= |bytes|
  {
    if |bytes| < at + 1 then AddressError(UnexpectedEof(InIpType))
    else if bytes[at] == 0 then
      if |bytes| < at + 5 then AddressError(UnexpectedEof(InIpv4Address))
      else AddressFound(V4(ToBE(FromLE(bytes[at + 1..at + 5]), 4)), at + 5)
    else if bytes[at] == 1 then
      if |bytes| < at + 17 then AddressError(UnexpectedEof(InIpv6Address))
      else AddressFound(V6(ToBE(FromLE(bytes[at + 1..at + 17]), 16)), at + 17)
    else AddressError(UnexpectedIpType)
  }

  /** The entry loop from offset `pos`, inserting into `acc`. */
  function DecodeEntries(bytes: seq<byte>, pos: nat, acc: map<string, IpAddr>): (r: Result<map<string, IpAddr>, ReadError>)
    requires pos <= |bytes|
    ensures r.Ok? ==> acc.Keys <= r.value.Keys
    decreases |bytes| - pos
  {
    match ReadEntry(bytes, pos)
    case EntryError(e) => Err(e)
    case ListEnd => Ok(acc)
    case EntryFound(name, ip, next) => DecodeEntries(bytes, next, acc[name := ip])
  }

  /** `from_reader` over the whole content of the file. */
  function Decode(bytes: seq<byte>): (r: Result<StateData, ReadError>)
    ensures |bytes| < 8 ==> r == Err(UnexpectedEof(InMagic))
    ensures r.Ok? ==> |bytes| >= 28 && bytes[..8] == Magic && r.value.version <= StateVersion
    ensures |bytes| >= 8 && bytes[..8] != Magic ==> r.Err? && r.error == InvalidMagic
    ensures |bytes| >= 12 && bytes[..8] == Magic && FromLE(bytes[8..12]) > StateVersion ==> r.Err? && r.error == TooNew
  {
    if |bytes| < 8 then Err(UnexpectedEof(InMagic))
    else if bytes[..8] != Magic then Err(InvalidMagic)
    else if |bytes| < 12 then Err(UnexpectedEof(InVersion))
    else if FromLE(bytes[8..12]) > StateVersion then Err(TooNew)
    else if |bytes| < 20 then Err(UnexpectedEof(InUpdateTimestamp))
    else if |bytes| < 28 then Err(UnexpectedEof(InConfigHash))
    else
      match DecodeEntries(bytes, 28, map[])
      case Err(e) => Err(e)
      case Ok(m) => Ok(StateData(FromLE(bytes[8..12]), FromLE(bytes[12..20]), FromLE(bytes[20..28]), m))
  }

  // ---- properties --------------------------------------------------------

  /** Names that survive the trip: non-empty (a zero length ends the list) and shorter than 2^32 bytes. */
  predicate StorableName(name: string) {
    name != [] && |Utf8.Encode(name)| < TwoTo32
  }

  /** A length field and the bytes of a name read back as the name. */
  lemma NameReadsBack(bytes: seq<byte>, pos: nat, nb: seq<byte>, name: string)
    requires 0 < |nb| < TwoTo32 && Utf8.Decode(nb) == Some(name)
    requires pos + 4 + |nb| <= |bytes|
    requires bytes[pos..pos + 4] == ToLE(|nb| % TwoTo32, 4)
    requires bytes[pos + 4..pos + 4 + |nb|] == nb
    ensures ReadName(bytes, pos) == NameFound(name, pos + 4 + |nb|)
  {
    assert Pow256(4) == TwoTo32 && |nb| % TwoTo32 == |nb|;
    FromToLE(|nb|, 4);
  }

  /** The type byte and address of an encoded entry read back as the address. */
  lemma AddressReadsBack(bytes: seq<byte>, at: nat, ip: IpAddr, next: nat)
    requires next == at + |EncodeAddr(ip)| <= |bytes|
    requires bytes[at..next] == EncodeAddr(ip)
    ensures ReadAddress(bytes, at) == AddressFound(ip, next)
  {
    var field := bytes[at..next];
    assert bytes[at] == field[0];
    match ip
    case V4(a) =>
      assert bytes[at + 1..at + 5] == field[1..] == ToLE(FromBE(a), 4);
      FromToLE(FromBE(a), 4);
      ToFromBE(a);
    case V6(a) =>
      assert bytes[at + 1..at + 17] == field[1..] == ToLE(FromBE(a), 16);
      FromToLE(FromBE(a), 16);
      ToFromBE(a);
  }

  /** A length field, the bytes of a name and an encoded address at `pos` read back as one entry. */
  lemma EntryReadsBack(bytes: seq<byte>, pos: nat, nb: seq<byte>, name: string, ip: IpAddr, next: nat)
    requires 0 < |nb| < TwoTo32 && Utf8.Decode(nb) == Some(name)
    requires next == pos + 4 + |nb| + |EncodeAddr(ip)| <= |bytes|
    requires bytes[pos..pos + 4] == ToLE(|nb| % TwoTo32, 4)
    requires bytes[pos + 4..pos + 4 + |nb|] == nb
    requires bytes[pos + 4 + |nb|..next] == EncodeAddr(ip)
    ensures ReadEntry(bytes, pos) == EntryFound(name, ip, next)
  {
    var at := pos + 4 + |nb|;
    NameReadsBack(bytes, pos, nb, name);
    AddressReadsBack(bytes, at, ip, next);
    EntryOfParts(bytes, pos, name, at, ip, next);
  }

  /** A name found at `pos` and an address found after it make one entry. */
  lemma EntryOfParts(bytes: seq<byte>, pos: nat, name: string, at: nat, ip: IpAddr, next: nat)
    requires pos <= at <= |bytes| && ReadName(bytes, pos) == NameFound(name, at)
    requires ReadAddress(bytes, at) == AddressFound(ip, next)
    ensures ReadEntry(bytes, pos) == EntryFound(name, ip, next)
  { }

  /** A slice holding a concatenation holds each part in turn. */
  lemma SliceSplit(bytes: seq<byte>, pos: nat, a: seq<byte>, b: seq<byte>)
    requires pos + |a| + |b| <= |bytes| && bytes[pos..pos + |a| + |b|] == a + b
    ensures bytes[pos..pos + |a|] == a && bytes[pos + |a|..pos + |a| + |b|] == b
  {
    var whole := bytes[pos..pos + |a| + |b|];
    assert bytes[pos..pos + |a|] == whole[..|a|];
    assert bytes[pos + |a|..pos + |a| + |b|] == whole[|a|..];
  }

  /** The three fields of an encoded entry found at `pos`. */
  lemma EntryFields(bytes: seq<byte>, pos: nat, name: string, ip: IpAddr)
    requires pos + |EncodeEntry(name, ip)| <= |bytes|
    requires bytes[pos..pos + |EncodeEntry(name, ip)|] == EncodeEntry(name, ip)
    ensures var nb := Utf8.Encode(name);
      && bytes[pos..pos + 4] == ToLE(|nb| % TwoTo32, 4)
      && bytes[pos + 4..pos + 4 + |nb|] == nb
      && bytes[pos + 4 + |nb|..pos + |EncodeEntry(name, ip)|] == EncodeAddr(ip)
  {
    var nb, addr := Utf8.Encode(name), EncodeAddr(ip);
    var lb := ToLE(|nb| % TwoTo32, 4);
    assert EncodeEntry(name, ip) == (lb + nb) + addr;
    SliceSplit(bytes, pos, lb + nb, addr);
    SliceSplit(bytes, pos, lb, nb);
  }

  /** A suffix from `k` on spans the rest of the bytes. */
  lemma SliceTail(bytes: seq<byte>, k: nat, tail: seq<byte>)
    requires k <= |bytes| && bytes[k..] == tail
    ensures |bytes| == k + |tail| && bytes[k..k + |tail|] == tail && EndsAt(bytes, k + |tail|)
  {
    assert bytes[k..k + |tail|] == bytes[k..];
  }

  /** An encoded entry found at `pos` reads back as its name and address. */
  lemma EntryAt(bytes: seq<byte>, pos: nat, name: string, ip: IpAddr)
    requires StorableName(name)
    requires pos + |EncodeEntry(name, ip)| <= |bytes|
    requires bytes[pos..pos + |EncodeEntry(name, ip)|] == EncodeEntry(name, ip)
    ensures ReadEntry(bytes, pos) == EntryFound(name, ip, pos + |EncodeEntry(name, ip)|)
  {
    EntryFields(bytes, pos, name, ip);
    Utf8.DecodeEncode(name);
    EntryReadsBack(bytes, pos, Utf8.Encode(name), name, ip, pos + |EncodeEntry(name, ip)|);
  }

  /** What ends the entry list at `pos`: fewer than four bytes left, or a zero name length. */
  predicate EndsAt(bytes: seq<byte>, pos: nat)
    requires pos <= |bytes|
  {
    |bytes| < pos + 4 || FromLE(bytes[pos..pos + 4]) == 0
  }

  /**
   * Encoded entries at `pos` followed by an end of the list decode to the
   * map with the entries inserted in order.
   */
  lemma {:induction false} DecodeEncodeList(bytes: seq<byte>, pos: nat, entries: seq<(string, IpAddr)>, acc: map<string, IpAddr>)
    requires EncodedAt(bytes, pos, entries)
    ensures DecodeEntries(bytes, pos, acc) == Ok(Insert(acc, entries))
    decreases |entries|
  {
    if entries != [] {
      var next := ListStep(bytes, pos, entries, acc);
      DecodeEncodeList(bytes, next, entries[1..], acc[entries[0].0 := entries[0].1]);
    }
  }

  /** Every name in the list is storable. */
  predicate AllStorable(entries: seq<(string, IpAddr)>)
    decreases |entries|
  {
    entries == [] || (StorableName(entries[0].0) && AllStorable(entries[1..]))
  }

  /** The quantified form of `AllStorable`. */
  lemma {:induction false} AllStorableOf(entries: seq<(string, IpAddr)>)
    requires forall i :: 0 <= i < |entries| ==> StorableName(entries[i].0)
    ensures AllStorable(entries)
    decreases |entries|
  {
    if entries != [] {
      var tail := entries[1..];
      assert forall i :: 0 <= i < |tail| ==> tail[i] == entries[i + 1];
      AllStorableOf(tail);
    }
  }

  /** The entries, all with storable names, are encoded at `pos` and followed by an end of the list. */
  predicate EncodedAt(bytes: seq<byte>, pos: nat, entries: seq<(string, IpAddr)>) {
    && AllStorable(entries)
    && pos + |EncodeList(entries)| <= |bytes|
    && bytes[pos..pos + |EncodeList(entries)|] == EncodeList(entries)
    && EndsAt(bytes, pos + |EncodeList(entries)|)
  }

  /**
   * The first entry of an encoded list: the loop reads it and continues at
   * `next`, where the rest of the list is encoded.
   */
  lemma ListStep(bytes: seq<byte>, pos: nat, entries: seq<(string, IpAddr)>, acc: map<string, IpAddr>) returns (next: nat)
    requires entries != [] && EncodedAt(bytes, pos, entries)
    ensures next <= |bytes| && EncodedAt(bytes, next, entries[1..])
    ensures DecodeEntries(bytes, pos, acc) == DecodeEntries(bytes, next, acc[entries[0].0 := entries[0].1])
    ensures Insert(acc, entries) == Insert(acc[entries[0].0 := entries[0].1], entries[1..])
  {
    var name, ip := entries[0].0, entries[0].1;
    next := pos + |EncodeEntry(name, ip)|;
    EncodedTail(bytes, pos, entries, next);
    DecodeStep(bytes, pos, name, ip, acc, next);
  }

  /** The rest of an encoded list starts right after its first entry. */
  lemma EncodedTail(bytes: seq<byte>, pos: nat, entries: seq<(string, IpAddr)>, next: nat)
    requires entries != [] && EncodedAt(bytes, pos, entries)
    requires next == pos + |EncodeEntry(entries[0].0, entries[0].1)|
    ensures next <= |bytes| && EncodedAt(bytes, next, entries[1..])
    ensures StorableName(entries[0].0) && bytes[pos..next] == EncodeEntry(entries[0].0, entries[0].1)
  {
    var entry, rest := EncodeEntry(entries[0].0, entries[0].1), EncodeList(entries[1..]);
    var whole := EncodeList(entries);
    EncodeListCons(entries);
    PartsAt(bytes, pos, whole, pos + |whole|, entry, rest, next);
  }

  /**
   * Two parts found together between `pos` and `end` and followed by the end
   * of the list: the first ends at `mid`, where the second begins.
   */
  lemma PartsAt(bytes: seq<byte>, pos: nat, whole: seq<byte>, end: nat, entry: seq<byte>, rest: seq<byte>, mid: nat)
    requires whole == entry + rest && end == pos + |whole| <= |bytes| && bytes[pos..end] == whole
    requires EndsAt(bytes, end) && mid == pos + |entry|
    ensures mid <= end && end == mid + |rest|
    ensures bytes[pos..mid] == entry && bytes[mid..end] == rest && EndsAt(bytes, mid + |rest|)
  {
    SliceSplit(bytes, pos, entry, rest);
  }

  /** A non-empty list encodes as its first entry followed by the rest. */
  lemma EncodeListCons(entries: seq<(string, IpAddr)>)
    requires entries != []
    ensures EncodeList(entries) == EncodeEntry(entries[0].0, entries[0].1) + EncodeList(entries[1..])
  {
  }

  /** An entry read at `pos` is inserted and the loop goes on after it. */
  lemma DecodeFound(bytes: seq<byte>, pos: nat, acc: map<string, IpAddr>, name: string, ip: IpAddr, next: nat)
    requires pos <= |bytes| && ReadEntry(bytes, pos) == EntryFound(name, ip, next)
    ensures next <= |bytes| && DecodeEntries(bytes, pos, acc) == DecodeEntries(bytes, next, acc[name := ip])
  { }

  /** One pass of the entry loop over an encoded entry inserts it and moves past it. */
  lemma DecodeStep(bytes: seq<byte>, pos: nat, name: string, ip: IpAddr, acc: map<string, IpAddr>, next: nat)
    requires StorableName(name)
    requires next == pos + |EncodeEntry(name, ip)| <= |bytes|
    requires bytes[pos..next] == EncodeEntry(name, ip)
    ensures DecodeEntries(bytes, pos, acc) == DecodeEntries(bytes, next, acc[name := ip])
  {
    EntryAt(bytes, pos, name, ip);
    DecodeFound(bytes, pos, acc, name, ip, next);
  }

  /** Inserting the entries of `m` in any order covering its keys adds exactly `m`. */
  lemma {:induction false} InsertEntries(acc: map<string, IpAddr>, m: map<string, IpAddr>, order: seq<string>)
    requires forall i :: 0 <= i < |order| ==> order[i] in m
    ensures Insert(acc, Entries(m, order)) == acc + map k | k in m && k in order :: m[k]
    decreases |order|
  {
    if order != [] {
      var k0 := order[0];
      assert Entries(m, order)[1..] == Entries(m, order[1..]);
      InsertEntries(acc[k0 := m[k0]], m, order[1..]);
      var lhs := acc[k0 := m[k0]] + map k | k in m && k in order[1..] :: m[k];
      var rhs := acc + map k | k in m && k in order :: m[k];
      assert forall k :: k in order <==> k == k0 || k in order[1..];
      assert lhs.Keys == rhs.Keys;
      assert forall k :: k in lhs ==> lhs[k] == rhs[k];
    }
  }

  /** Inserting the entries of `m` in a key order into the empty map rebuilds `m`. */
  lemma InsertAll(m: map<string, IpAddr>, order: seq<string>)
    requires IsKeyOrder(order, m)
    ensures Insert(map[], Entries(m, order)) == m
  {
    InsertEntries(map[], m, order);
    assert (map[] + map k | k in m && k in order :: m[k]) == m;
  }

  /** A header followed by entries that decode to `d`'s map decodes to `d`. */
  lemma HeaderReadsBack(bytes: seq<byte>, d: StateData)
    requires d.version <= StateVersion
    requires 28 <= |bytes| && bytes[..28] == Header(d)
    requires DecodeEntries(bytes, 28, map[]) == Ok(d.ipAddresses)
    ensures Decode(bytes) == Ok(d)
  {
    var v, t, h := ToLE(d.version, 4), ToLE(d.updateTimestamp, 8), ToLE(d.configHash, 8);
    assert Header(d) == ((Magic + v) + t) + h;
    SliceSplit(bytes, 0, (Magic + v) + t, h);
    SliceSplit(bytes, 0, Magic + v, t);
    SliceSplit(bytes, 0, Magic, v);
    assert Pow256(4) == TwoTo32 && Pow256(8) == 0x1_0000_0000_0000_0000;
    FromToLE(d.version, 4);
    FromToLE(d.updateTimestamp, 8);
    FromToLE(d.configHash, 8);
  }

  /** Encoded entries filling the file after the header decode to the entries inserted in order. */
  lemma ListAfterHeader(bytes: seq<byte>, es: seq<(string, IpAddr)>)
    requires forall i :: 0 <= i < |es| ==> StorableName(es[i].0)
    requires 28 <= |bytes| && bytes[28..] == EncodeList(es)
    ensures DecodeEntries(bytes, 28, map[]) == Ok(Insert(map[], es))
  {
    SliceTail(bytes, 28, EncodeList(es));
    AllStorableOf(es);
    DecodeEncodeList(bytes, 28, es, map[]);
  }

  /** A header followed by encoded entries decodes to the header's fields and the entries inserted in order. */
  lemma HeaderAndListReadBack(bytes: seq<byte>, d: StateData, es: seq<(string, IpAddr)>)
    requires d.version <= StateVersion
    requires forall i :: 0 <= i < |es| ==> StorableName(es[i].0)
    requires 28 <= |bytes| && bytes[..28] == Header(d) && bytes[28..] == EncodeList(es)
    ensures Decode(bytes) == Ok(d.(ipAddresses := Insert(map[], es)))
  {
    ListAfterHeader(bytes, es);
    HeaderReadsBack(bytes, d.(ipAddresses := Insert(map[], es)));
  }

  /**
   * `from_reader` reads back what `write_to` wrote: version, timestamp, hash
   * and the whole map, for any iteration order, provided the version is one
   * this program reads and every name is non-empty and shorter than 2^32 bytes.
   */
  lemma DecodeEncode(d: StateData, order: seq<string>)
    requires IsKeyOrder(order, d.ipAddresses)
    requires d.version <= StateVersion
    requires forall name :: name in d.ipAddresses ==> StorableName(name)
    ensures Decode(Encode(d, order)) == Ok(d)
  {
    var bytes := Encode(d, order);
    var es := Entries(d.ipAddresses, order);
    assert bytes[..28] == Header(d) && bytes[28..] == EncodeList(es);
    HeaderAndListReadBack(bytes, d, es);
    InsertAll(d.ipAddresses, order);
  }

  /** A list of encoded entries on its own decodes to the entries inserted in order. */
  lemma ListReadsBack(es: seq<(string, IpAddr)>, acc: map<string, IpAddr>)
    requires forall i :: 0 <= i < |es| ==> StorableName(es[i].0)
    ensures DecodeEntries(EncodeList(es), 0, acc) == Ok(Insert(acc, es))
  {
    var bytes := EncodeList(es);
    assert bytes[0..|bytes|] == bytes;
    AllStorableOf(es);
    DecodeEncodeList(bytes, 0, es, acc);
  }

  /** A name stored twice keeps the address stored last. */
  lemma DuplicateOverwrites(name: string, first: IpAddr, second: IpAddr, acc: map<string, IpAddr>)
    requires StorableName(name)
    ensures DecodeEntries(EncodeEntry(name, first) + EncodeEntry(name, second), 0, acc) == Ok(acc[name := second])
  {
    var es := [(name, first), (name, second)];
    TwoEntries(name, first, second, acc);
    assert forall i :: 0 <= i < |es| ==> es[i].0 == name;
    ListReadsBack(es, acc);
    assert DecodeEntries(EncodeList(es), 0, acc) == Ok(acc[name := first][name := second]);
    UpdateTwice(acc, name, first, second);
  }

  /** A list of two entries under one name: its encoding and its insertion. */
  lemma TwoEntries(name: string, first: IpAddr, second: IpAddr, acc: map<string, IpAddr>)
    ensures EncodeList([(name, first), (name, second)]) == EncodeEntry(name, first) + EncodeEntry(name, second)
    ensures Insert(acc, [(name, first), (name, second)]) == acc[name := first][name := second]
  {
    var es := [(name, first), (name, second)];
    var tail := es[1..];
    assert tail == [(name, second)] && tail[1..] == [];
    EncodeListCons(es);
    EncodeListCons(tail);
    assert EncodeList(tail[1..]) == [];
    InsertTwo(acc, es);
  }

  /** Inserting a two-entry list inserts the first entry, then the second. */
  lemma InsertTwo(acc: map<string, IpAddr>, es: seq<(string, IpAddr)>)
    requires |es| == 2
    ensures Insert(acc, es) == acc[es[0].0 := es[0].1][es[1].0 := es[1].1]
  {
    var tail := es[1..];
    assert tail[0] == es[1] && tail[1..] == [];
    assert Insert(acc, es) == Insert(acc[es[0].0 := es[0].1], tail);
  }

  /** A key updated twice holds the second value. */
  lemma UpdateTwice(m: map<string, IpAddr>, k: string, a: IpAddr, b: IpAddr)
    ensures m[k := a][k := b] == m[k := b]
  {
    assert m[k := a][k := b].Keys == m[k := b].Keys;
  }

  /** An entry the loop cannot read stops the loop with that entry's error. */
  lemma EntryErrorStops(bytes: seq<byte>, pos: nat, acc: map<string, IpAddr>)
    requires pos <= |bytes| && ReadEntry(bytes, pos).EntryError?
    ensures DecodeEntries(bytes, pos, acc) == Err(ReadEntry(bytes, pos).error)
  {
  }

  /** A name length with fewer name bytes after it than it announces is an end-of-file error. */
  lemma CutName(bytes: seq<byte>, len: nat)
    requires 0 < len < TwoTo32 && 4 <= |bytes| < 4 + len
    requires bytes[0..4] == ToLE(len % TwoTo32, 4)
    ensures ReadName(bytes, 0) == NameError(UnexpectedEof(InVersion))
  {
    assert Pow256(4) == TwoTo32 && len % TwoTo32 == len;
    FromToLE(len, 4);
  }

  /** An encoded address cut off before its end is an end-of-file error. */
  lemma CutAddress(bytes: seq<byte>, at: nat, ip: IpAddr)
    requires at <= |bytes| < at + |EncodeAddr(ip)|
    requires at < |bytes| ==> bytes[at] == EncodeAddr(ip)[0]
    ensures ReadAddress(bytes, at).AddressError?
    ensures ReadAddress(bytes, at).error.UnexpectedEof?
  {
  }

  /** An entry whose name is cut off is an end-of-file error. */
  lemma CutInName(bytes: seq<byte>, len: nat)
    requires 0 < len < TwoTo32 && 4 <= |bytes| < 4 + len
    requires bytes[0..4] == ToLE(len % TwoTo32, 4)
    ensures ReadEntry(bytes, 0) == EntryError(UnexpectedEof(InVersion))
  {
    CutName(bytes, len);
  }

  /** An entry whose name is whole but whose address is cut off is an end-of-file error. */
  lemma CutInAddress(bytes: seq<byte>, nb: seq<byte>, name: string, ip: IpAddr)
    requires 0 < |nb| < TwoTo32 && Utf8.Decode(nb) == Some(name)
    requires 4 + |nb| <= |bytes| < 4 + |nb| + |EncodeAddr(ip)|
    requires bytes[0..4] == ToLE(|nb| % TwoTo32, 4)
    requires bytes[4..4 + |nb|] == nb
    requires 4 + |nb| < |bytes| ==> bytes[4 + |nb|] == EncodeAddr(ip)[0]
    ensures ReadEntry(bytes, 0).EntryError?
    ensures ReadEntry(bytes, 0).error.UnexpectedEof?
  {
    var at := 4 + |nb|;
    NameReadsBack(bytes, 0, nb, name);
    CutAddress(bytes, at, ip);
    EntryOfCut(bytes, 0, name, at);
  }

  /** A name found at `pos` and an address that cannot be read after it: the entry cannot be read. */
  lemma EntryOfCut(bytes: seq<byte>, pos: nat, name: string, at: nat)
    requires pos <= at <= |bytes| && ReadName(bytes, pos) == NameFound(name, at)
    requires ReadAddress(bytes, at).AddressError?
    ensures ReadEntry(bytes, pos) == EntryError(ReadAddress(bytes, at).error)
  { }

  /** The fields of one encoded entry, at their offsets. */
  lemma EntryLayout(name: string, ip: IpAddr)
    ensures var nb, e := Utf8.Encode(name), EncodeEntry(name, ip);
      && |e| == 4 + |nb| + |EncodeAddr(ip)|
      && e[0..4] == ToLE(|nb| % TwoTo32, 4)
      && e[4..4 + |nb|] == nb
      && e[4 + |nb|] == EncodeAddr(ip)[0]
  {
    var nb, addr := Utf8.Encode(name), EncodeAddr(ip);
    var lb := ToLE(|nb| % TwoTo32, 4);
    var e := EncodeEntry(name, ip);
    assert e == (lb + nb) + addr;
    assert e[0..4] == lb;
    assert e[4..4 + |nb|] == nb;
    assert e[4 + |nb|] == addr[0];
  }

  /** A slice of a prefix is the same slice of the whole. */
  lemma PrefixSlice(e: seq<byte>, k: nat, i: nat, j: nat)
    requires i <= j <= k <= |e|
    ensures e[..k][i..j] == e[i..j]
  {
  }

  /** An entry cut off after its name length and before its end cannot be read: the file ends inside it. */
  lemma TruncatedRead(name: string, ip: IpAddr, k: nat)
    requires StorableName(name)
    requires 4 <= k < |EncodeEntry(name, ip)|
    ensures ReadEntry(EncodeEntry(name, ip)[..k], 0).EntryError?
    ensures ReadEntry(EncodeEntry(name, ip)[..k], 0).error.UnexpectedEof?
  {
    var nb := Utf8.Encode(name);
    var e := EncodeEntry(name, ip);
    var bytes := e[..k];
    EntryLayout(name, ip);
    PrefixSlice(e, k, 0, 4);
    if k < 4 + |nb| {
      CutInName(bytes, |nb|);
    } else {
      PrefixSlice(e, k, 4, 4 + |nb|);
      Utf8.DecodeEncode(name);
      CutInAddress(bytes, nb, name, ip);
    }
  }

  /** Decoding stops at such an entry with an end-of-file error. */
  lemma TruncatedEntry(name: string, ip: IpAddr, k: nat, acc: map<string, IpAddr>)
    requires StorableName(name)
    requires 4 <= k < |EncodeEntry(name, ip)|
    ensures DecodeEntries(EncodeEntry(name, ip)[..k], 0, acc).Err?
    ensures DecodeEntries(EncodeEntry(name, ip)[..k], 0, acc).error.UnexpectedEof?
  {
    TruncatedRead(name, ip, k);
    EntryErrorStops(EncodeEntry(name, ip)[..k], 0, acc);
  }

  /** A file with a good magic and a supported version that ends inside the fixed header is an end-of-file error. */
  lemma ShortHeader(bytes: seq<byte>)
    requires 8 <= |bytes| < 28 && bytes[..8] == Magic
    requires |bytes| >= 12 ==> FromLE(bytes[8..12]) <= StateVersion
    ensures Decode(bytes).Err? && Kind(Decode(bytes).error) == UnexpectedEofKind
    ensures Decode(bytes).error ==
      UnexpectedEof(if |bytes| < 12 then InVersion else if |bytes| < 20 then InUpdateTimestamp else InConfigHash)
  {
  }

  /** A name whose bytes are whole but not UTF-8 stops the loop as invalid input. */
  lemma NonUtf8NameStops(bytes: seq<byte>, pos: nat, acc: map<string, IpAddr>)
    requires pos + 4 <= |bytes|
    requires 0 < FromLE(bytes[pos..pos + 4]) && pos + 4 + FromLE(bytes[pos..pos + 4]) <= |bytes|
    requires Utf8.Decode(bytes[pos + 4..pos + 4 + FromLE(bytes[pos..pos + 4])]).None?
    ensures DecodeEntries(bytes, pos, acc) == Err(NonUtf8Name)
    ensures Kind(NonUtf8Name) == InvalidInputKind
  {
    assert ReadName(bytes, pos) == NameError(NonUtf8Name);
    EntryErrorStops(bytes, pos, acc);
  }

  /** A type byte other than 0 (IPv4) and 1 (IPv6) after a whole name stops the loop as invalid input. */
  lemma BadIpTypeStops(bytes: seq<byte>, pos: nat, acc: map<string, IpAddr>)
    requires pos <= |bytes| && ReadName(bytes, pos).NameFound?
    requires ReadName(bytes, pos).at < |bytes| && bytes[ReadName(bytes, pos).at] !in {0, 1}
    ensures DecodeEntries(bytes, pos, acc) == Err(UnexpectedIpType)
    ensures Kind(UnexpectedIpType) == InvalidInputKind
  {
    assert ReadAddress(bytes, ReadName(bytes, pos).at) == AddressError(UnexpectedIpType);
    EntryErrorStops(bytes, pos, acc);
  }

  /** With a whole header, an error in the first entry is the error of the whole file. */
  lemma FirstEntryError(bytes: seq<byte>)
    requires |bytes| >= 28 && bytes[..8] == Magic && FromLE(bytes[8..12]) <= StateVersion
    requires ReadEntry(bytes, 28).EntryError?
    ensures Decode(bytes) == Err(ReadEntry(bytes, 28).error)
  {
    EntryErrorStops(bytes, 28, map[]);
  }

  /** The source's own bad-magic example, "dynoers\0", is rejected as invalid input. */
  lemma BadMagicExample()
    ensures Decode([100, 121, 110, 111, 101, 114, 115, 0]).Err?
    ensures Decode([100, 121, 110, 111, 101, 114, 115, 0]).error == InvalidMagic
  {
    var b: seq<byte> := [100, 121, 110, 111, 101, 114, 115, 0];
    assert b[..8][3] != Magic[3];
  }

  // ---- the object -------------------------------------------------------

  class PersistentState {
    var version: uint32
    var updateTimestamp: uint64
    var configHash: uint64
    var ipAddresses: map<string, IpAddr>

    function Data(): StateData
      reads this
    {
      StateData(version, updateTimestamp, configHash, ipAddresses)
    }

    /** `new_with_config_hash`; the clock reading is the parameter `now`. */
    constructor NewWithConfigHash(hash: uint64, now: uint64)
      ensures Data() == StateData(StateVersion, now, hash, map[])
    {
      version := StateVersion;
      updateTimestamp := now;
      configHash := hash;
      ipAddresses := map[];
    }

    constructor FromData(d: StateData)
      ensures Data() == d
    {
      version := d.version;
      updateTimestamp := d.updateTimestamp;
      configHash := d.configHash;
      ipAddresses := d.ipAddresses;
    }

    /** `is_same_config_file`. */
    predicate IsSameConfigFile(config: string, crc: Crc32)
      reads this
    {
      configHash == TextHash(config, crc)
    }

    /**
     * `validate_against`: a matching hash keeps everything; otherwise the
     * addresses are dropped and the new hash and time are stored.
     */
    method ValidateAgainst(config: string, crc: Crc32, now: uint64) returns (same: bool)
      modifies this
      ensures same == old(IsSameConfigFile(config, crc))
      ensures same ==> Data() == old(Data())
      ensures !same ==> Data() == old(Data()).(configHash := TextHash(config, crc), updateTimestamp := now, ipAddresses := map[])
      ensures IsSameConfigFile(config, crc)
    {
      if !IsSameConfigFile(config, crc) {
        ipAddresses := map[];
        configHash := HashBytes(Utf8.Encode(config), crc);
        updateTimestamp := now;
        same := false;
      } else {
        same := true;
      }
    }

    /** The writes of one entry: its name length, its name, its type byte and its address. */
    static method WriteEntry(written: seq<byte>, name: string, ip: IpAddr) returns (bytes: seq<byte>)
      ensures bytes == written + EncodeEntry(name, ip)
    {
      var nb := Utf8.Encode(name);
      var lb := ToLE(|nb| % TwoTo32, 4);
      bytes := written + lb;
      bytes := bytes + nb;
      ghost var named := bytes;
      match ip {
        case V4(a) =>
          bytes := bytes + [0];
          bytes := bytes + ToLE(FromBE(a), 4);
          Appended3(named, [0], ToLE(FromBE(a), 4), bytes);
        case V6(a) =>
          bytes := bytes + [1];
          bytes := bytes + ToLE(FromBE(a), 16);
          Appended3(named, [1], ToLE(FromBE(a), 16), bytes);
      }
      Appended4(written, lb, nb, EncodeAddr(ip), bytes);
    }

    /** `write_to`: the header, then one entry per name in the map's iteration order. */
    method WriteTo(order: seq<string>) returns (bytes: seq<byte>)
      requires IsKeyOrder(order, ipAddresses)
      ensures bytes == Encode(Data(), order)
    {
      bytes := Magic;
      bytes := bytes + ToLE(version, 4);
      bytes := bytes + ToLE(updateTimestamp, 8);
      bytes := bytes + ToLE(configHash, 8);
      ghost var es := Entries(ipAddresses, order);
      for i := 0 to |order|
        invariant bytes == Header(Data()) + EncodeList(es[..i])
      {
        var name := order[i];
        bytes := WriteEntry(bytes, name, ipAddresses[name]);
        EncodeListSnoc(es, i);
        Appended3(Header(Data()), EncodeList(es[..i]), EncodeEntry(name, ipAddresses[name]), bytes);
      }
      assert es[..|order|] == es;
    }

    /** One pass of the entry loop of `from_reader`, reading at offset `pos`. */
    static method ReadEntryAt(bytes: seq<byte>, pos: nat) returns (step: EntryRead)
      requires pos <= |bytes|
      ensures step == ReadEntry(bytes, pos)
    {
      var name := ReadNameAt(bytes, pos);
      match name {
        case NameError(e) => step := EntryError(e);
        case NoName => step := ListEnd;
        case NameFound(n, at) =>
          var address := ReadAddressAt(bytes, at);
          match address {
            case AddressError(e) => step := EntryError(e);
            case AddressFound(ip, next) => step := EntryFound(n, ip, next);
          }
      }
    }

    /** The name length and the name at `pos`: the first half of a pass of the entry loop. */
    static method ReadNameAt(bytes: seq<byte>, pos: nat) returns (r: NameRead)
      requires pos <= |bytes|
      ensures r == ReadName(bytes, pos)
    {
      if |bytes| < pos + 4 {
        return NoName;
      }
      var nameLen := FromLE(bytes[pos..pos + 4]);
      if nameLen == 0 {
        return NoName;
      }
      if |bytes| < pos + 4 + nameLen {
        return NameError(UnexpectedEof(InVersion));
      }
      var name := Utf8.Decode(bytes[pos + 4..pos + 4 + nameLen]);
      if name.None? {
        return NameError(NonUtf8Name);
      }
      r := NameFound(name.value, pos + 4 + nameLen);
    }

    /** The type byte and the address at `at`: the second half of a pass of the entry loop. */
    static method ReadAddressAt(bytes: seq<byte>, at: nat) returns (r: AddressRead)
      requires at <= |bytes|
      ensures r == ReadAddress(bytes, at)
    {
      if |bytes| < at + 1 {
        return AddressError(UnexpectedEof(InIpType));
      }
      var ipType := bytes[at];
      if ipType == 0 {
        if |bytes| < at + 5 {
          return AddressError(UnexpectedEof(InIpv4Address));
        }
        r := AddressFound(V4(ToBE(FromLE(bytes[at + 1..at + 5]), 4)), at + 5);
      } else if ipType == 1 {
        if |bytes| < at + 17 {
          return AddressError(UnexpectedEof(InIpv6Address));
        }
        r := AddressFound(V6(ToBE(FromLE(bytes[at + 1..at + 17]), 16)), at + 17);
      } else {
        r := AddressError(UnexpectedIpType);
      }
    }

    /** `from_reader` over the file content: the header checks, then the entry loop. */
    static method FromReader(bytes: seq<byte>) returns (r: Result<PersistentState, ReadError>)
      ensures r.Ok? <==> Decode(bytes).Ok?
      ensures r.Ok? ==> fresh(r.value) && r.value.Data() == Decode(bytes).value
      ensures r.Err? ==> r.error == Decode(bytes).error
    {
      if |bytes| < 8 { return Err(UnexpectedEof(InMagic)); }
      if bytes[..8] != Magic { return Err(InvalidMagic); }
      if |bytes| < 12 { return Err(UnexpectedEof(InVersion)); }
      var version := FromLE(bytes[8..12]);
      if version > StateVersion { return Err(TooNew); }
      if |bytes| < 20 { return Err(UnexpectedEof(InUpdateTimestamp)); }
      var updateTimestamp := FromLE(bytes[12..20]);
      if |bytes| < 28 { return Err(UnexpectedEof(InConfigHash)); }
      var configHash := FromLE(bytes[20..28]);
      assert Pow256(8) == 0x1_0000_0000_0000_0000;

      var ipAddresses: map<string, IpAddr> := map[];
      var pos := 28;
      while true
        invariant 28 <= pos <= |bytes|
        invariant DecodeEntries(bytes, pos, ipAddresses) == DecodeEntries(bytes, 28, map[])
        decreases |bytes| - pos
      {
        var step := ReadEntryAt(bytes, pos);
        match step {
          case EntryError(e) =>
            return Err(e);
          case ListEnd =>
            break;
          case EntryFound(name, ip, next) =>
            ipAddresses := ipAddresses[name := ip];
            pos := next;
        }
      }
      var state := new PersistentState.FromData(StateData(version, updateTimestamp, configHash, ipAddresses));
      r := Ok(state);
    }
  }
}
