/**
 * `std::net::IpAddr` as the program uses it: four or sixteen octets,
 * the dotted-decimal text form of IPv4 addresses, and the family tests.
 * The IPv6 text form (section 2.2 of RFC 4291) is supplied from outside as
 * a pair of functions, `Ipv6Text`.
 */
module Ip {
  import opened Wrappers
  import opened Bytes
  import opened Text

  type Octets4 = s: seq<byte> | |s| == 4 witness [0, 0, 0, 0]
  type Octets16 = s: seq<byte> | |s| == 16 witness [0, 0, 0, 0, 0, 0, 0, 0, 0, 0, 0, 0, 0, 0, 0, 0]

  datatype IpAddr = V4(v4: Octets4) | V6(v6: Octets16)
  {
    function Octets(): (o: seq<byte>)
      ensures |o| == if V4? then 4 else 16
    {
      match this
      case V4(a) => a
      case V6(a) => a
    }
  }

  /** The standard library's IPv6 `FromStr` and `Display`. */
  datatype Ipv6Text = Ipv6Text(parse: string -> Option<Octets16>, show: Octets16 -> string)

  /**
   * What the program relies on from the IPv6 text form: printed text parses
   * back and contains ':' and neither '/' nor ',', and only text with a ':'
   * parses.
   */
  ghost predicate WellBehaved(t6: Ipv6Text) {
    (forall a: Octets16 :: t6.parse(t6.show(a)) == Some(a) && ':' in t6.show(a) && '/' !in t6.show(a) && ',' !in t6.show(a)) &&
    (forall s: string :: t6.parse(s).Some? ==> ':' in s)
  }

  /** One dotted-decimal group: 1 to 3 digits, no leading zero, at most 255. */
  predicate IsV4Group(g: string) {
    1 <= |g| <= 3 && AllDigits(g, 10) && (|g| > 1 ==> g[0] != '0') && Value(g, 10) < 0x100
  }

  /** `Ipv4Addr::from_str`: exactly four groups separated by '.'. */
  function ParseV4(s: string): (r: Option<Octets4>)
    ensures r.Some? <==> |Split(s, ".")| == 4 && forall i :: 0 <= i < 4 ==> IsV4Group(Split(s, ".")[i])
    ensures r.Some? ==> forall i :: 0 <= i < 4 ==> r.value[i] as nat == Value(Split(s, ".")[i], 10)
  {
    var groups := Split(s, ".");
    if |groups| == 4 && forall i :: 0 <= i < 4 ==> IsV4Group(groups[i]) then
      Some(seq(4, i requires 0 <= i < 4 => Value(groups[i], 10) as byte))
    else
      None
  }

  /** The four octets in decimal. */
  function V4Groups(a: Octets4): (groups: seq<string>)
    ensures |groups| == 4
  {
    [Decimal(a[0] as nat), Decimal(a[1] as nat), Decimal(a[2] as nat), Decimal(a[3] as nat)]
  }

  /** Each printed octet is a valid group without a '.', whose value is the octet. */
  lemma V4GroupsValid(a: Octets4)
    ensures forall i :: 0 <= i < 4 ==> '.' !in V4Groups(a)[i] && IsV4Group(V4Groups(a)[i]) && Value(V4Groups(a)[i], 10) == a[i] as nat
  {
    forall i | 0 <= i < 4
      ensures '.' !in V4Groups(a)[i] && IsV4Group(V4Groups(a)[i]) && Value(V4Groups(a)[i], 10) == a[i] as nat
    {
      var g := V4Groups(a)[i];
      assert g == Decimal(a[i] as nat);
      DecimalDigits(a[i] as nat);
      DecimalLength(a[i] as nat);
    }
  }

  /** `Ipv4Addr`'s `Display`: the four octets in decimal, joined by '.'. */
  function ShowV4(a: Octets4): (s: string)
    ensures forall i :: 0 <= i < |s| ==> IsAsciiDigit(s[i]) || s[i] == '.'
  {
    var groups := V4Groups(a);
    forall c | c in Join(groups, ".")
      ensures IsAsciiDigit(c) || c == '.'
    {
      JoinChars(groups, ".", c);
      if c != '.' {
        var i :| 0 <= i < 4 && c in groups[i];
        DecimalDigits(a[i] as nat);
      }
    }
    Join(groups, ".")
  }

  /** Printing an IPv4 address and parsing the text gives the address back. */
  lemma ParseShowV4(a: Octets4)
    ensures ParseV4(ShowV4(a)) == Some(a)
  {
    var groups := V4Groups(a);
    V4GroupsValid(a);
    SplitJoin(groups, '.');
    assert ParseV4(ShowV4(a)).value == a;
  }

  /** `IpAddr::from_str`: an IPv4 address if the text is one, else an IPv6 address. */
  function ParseIp(s: string, t6: Ipv6Text): (r: Option<IpAddr>)
    ensures ParseV4(s).Some? ==> r == Some(V4(ParseV4(s).value))
    ensures r.Some? && r.value.V6? ==> ParseV4(s).None? && t6.parse(s) == Some(r.value.v6)
    ensures r.None? <==> ParseV4(s).None? && t6.parse(s).None?
  {
    match ParseV4(s)
    case Some(a) => Some(V4(a))
    case None =>
      match t6.parse(s)
      case Some(a) => Some(V6(a))
      case None => None
  }

  /** `IpAddr`'s `Display`. */
  function Show(ip: IpAddr, t6: Ipv6Text): string {
    match ip
    case V4(a) => ShowV4(a)
    case V6(a) => t6.show(a)
  }

  /** Text accepted as an IPv4 address consists of digits and dots only. */
  lemma ParsedV4Chars(s: string)
    requires ParseV4(s).Some?
    ensures forall i :: 0 <= i < |s| ==> IsAsciiDigit(s[i]) || s[i] == '.'
  {
    var groups := Split(s, ".");
    forall i | 0 <= i < |s|
      ensures IsAsciiDigit(s[i]) || s[i] == '.'
    {
      assert s[i] in Join(groups, ".");
      JoinChars(groups, ".", s[i]);
      if s[i] != '.' {
        var k :| 0 <= k < |groups| && s[i] in groups[k];
        var j :| 0 <= j < |groups[k]| && groups[k][j] == s[i];
        assert DigitValue(groups[k][j], 10).Some?;
      }
    }
  }

  /** Printing any address and parsing it back gives the same address. */
  lemma ParseShow(ip: IpAddr, t6: Ipv6Text)
    requires WellBehaved(t6)
    ensures ParseIp(Show(ip, t6), t6) == Some(ip)
  {
    match ip
    case V4(a) => ParseShowV4(a);
    case V6(a) =>
      var s := t6.show(a);
      assert ':' in s;
      if ParseV4(s).Some? {
        ParsedV4Chars(s);
        assert false;
      }
  }

  /** `Iterator::find(IpAddr::is_ipv4)` (or `is_ipv6`): the first address of the family. */
  function First(ips: seq<IpAddr>, v4: bool): (r: Option<IpAddr>)
    ensures r.Some? ==> r.value in ips && r.value.V4? == v4
    ensures r.None? <==> forall i :: 0 <= i < |ips| ==> ips[i].V4? != v4
    ensures r.Some? ==> exists i :: 0 <= i < |ips| && ips[i] == r.value && forall k :: 0 <= k < i ==> ips[k].V4? != v4
  {
    if ips == [] then None
    else if ips[0].V4? == v4 then Some(ips[0])
    else
      var r := First(ips[1..], v4);
      if r.None? then r
      else
        var i :| 0 <= i < |ips| - 1 && ips[1..][i] == r.value && forall k :: 0 <= k < i ==> ips[1..][k].V4? != v4;
        assert ips[i + 1] == r.value && forall k :: 0 <= k < i + 1 ==> ips[k].V4? != v4;
        r
  }

  function FirstV4(ips: seq<IpAddr>): Option<IpAddr> { First(ips, true) }

  function FirstV6(ips: seq<IpAddr>): Option<IpAddr> { First(ips, false) }
}
