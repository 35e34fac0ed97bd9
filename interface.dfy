/**
 * Choosing an interface address (`os::get_interface_v4_addresses` and
 * `os::get_interface_v6_addresses`). The addresses the operating system
 * enumerates for the interface, in enumeration order, and the text of
 * `/proc/net/if_inet6` are inputs; the scans over them are modelled as the
 * source writes them: a loop that overwrites `result`, so the last address
 * that qualifies wins.
 */
module Interface {
  import opened Wrappers
  import opened Bytes
  import opened Text
  import opened Ip
  import opened Netmask

  /** The filter a scan applies to each enumerated address. */
  datatype Selector =
    | ForV4(mask: Network)
    | ForV6(mask: Network, deprecated: seq<Octets16>)

  predicate ValidSelector(s: Selector) {
    match s
    case ForV4(mask) => ValidFor(mask, IPv4)
    case ForV6(mask, _) => ValidFor(mask, IPv6)
  }

  /**
   * The IPv4 scan keeps IPv4 addresses inside the mask; the IPv6 scan keeps
   * IPv6 addresses inside the mask that are not listed as deprecated.
   */
  predicate Selects(s: Selector, ip: IpAddr)
    requires ValidSelector(s)
  {
    match s
    case ForV4(mask) => ip.V4? && InRange(mask, ip.v4)
    case ForV6(mask, deprecated) => ip.V6? && InRange(mask, ip.v6) && ip.v6 !in deprecated
  }

  /** The last address of `addrs` the selector keeps. */
  function LastSelected(s: Selector, addrs: seq<IpAddr>): (r: Option<IpAddr>)
    requires ValidSelector(s)
    ensures r.Some? ==> r.value in addrs && Selects(s, r.value)
    decreases |addrs|
  {
    if addrs == [] then None
    else if Selects(s, addrs[|addrs| - 1]) then Some(addrs[|addrs| - 1])
    else LastSelected(s, addrs[..|addrs| - 1])
  }

  /** The scan finds nothing exactly when no address qualifies. */
  lemma {:induction false} LastSelectedNone(s: Selector, addrs: seq<IpAddr>)
    requires ValidSelector(s)
    ensures LastSelected(s, addrs).None? <==> forall i :: 0 <= i < |addrs| ==> !Selects(s, addrs[i])
    decreases |addrs|
  {
    if addrs != [] {
      var n := |addrs| - 1;
      if !Selects(s, addrs[n]) {
        LastSelectedNone(s, addrs[..n]);
        assert forall i :: 0 <= i < n ==> addrs[..n][i] == addrs[i];
      }
    }
  }

  /** The scan finds the address at `i` when it qualifies and no later one does. */
  lemma {:induction false} LastSelectedAt(s: Selector, addrs: seq<IpAddr>, i: nat)
    requires ValidSelector(s) && i < |addrs| && Selects(s, addrs[i])
    requires forall j :: i < j < |addrs| ==> !Selects(s, addrs[j])
    ensures LastSelected(s, addrs) == Some(addrs[i])
    decreases |addrs|
  {
    var n := |addrs| - 1;
    if i < n {
      var front := addrs[..n];
      assert forall j :: i <= j < n ==> front[j] == addrs[j];
      LastSelectedAt(s, front, i);
    }
  }

  /** The addresses of one family, in order. */
  function OfFamily(addrs: seq<IpAddr>, v4: bool): (r: seq<IpAddr>)
    ensures forall i :: 0 <= i < |r| ==> r[i].V4? == v4
    decreases |addrs|
  {
    if addrs == [] then []
    else if addrs[|addrs| - 1].V4? == v4 then OfFamily(addrs[..|addrs| - 1], v4) + [addrs[|addrs| - 1]]
    else OfFamily(addrs[..|addrs| - 1], v4)
  }

  /** The family a selector keeps. */
  function SelectsV4(s: Selector): bool { s.ForV4? }

  /** Addresses of the other family make no difference to a scan. */
  lemma {:induction false} OtherFamilyIgnored(s: Selector, addrs: seq<IpAddr>)
    requires ValidSelector(s)
    ensures LastSelected(s, addrs) == LastSelected(s, OfFamily(addrs, SelectsV4(s)))
    decreases |addrs|
  {
    if addrs != [] {
      var n := |addrs| - 1;
      var rest := OfFamily(addrs[..n], SelectsV4(s));
      OtherFamilyIgnored(s, addrs[..n]);
      if addrs[n].V4? == SelectsV4(s) {
        assert (rest + [addrs[n]])[..|rest|] == rest;
      }
    }
  }

  /** `get_interface_v4_addresses` over the enumerated addresses. */
  method GetInterfaceV4(addrs: seq<IpAddr>, mask: Network) returns (result: Option<Octets4>)
    requires ValidFor(mask, IPv4)
    ensures result.None? <==> LastSelected(ForV4(mask), addrs).None?
    ensures result.Some? ==> LastSelected(ForV4(mask), addrs) == Some(V4(result.value))
    ensures result.Some? ==> InRange(mask, result.value)
  {
    result := None;
    for i := 0 to |addrs|
      invariant result.None? <==> LastSelected(ForV4(mask), addrs[..i]).None?
      invariant result.Some? ==> LastSelected(ForV4(mask), addrs[..i]) == Some(V4(result.value))
    {
      assert addrs[..i + 1][..i] == addrs[..i];
      match addrs[i]
      case V4(v4) =>
        if InRange(mask, v4) {
          result := Some(v4);
        }
      case V6(_) =>
    }
    assert addrs[..|addrs|] == addrs;
  }

  /** `get_interface_v6_addresses` over the enumerated addresses and the deprecated list. */
  method SelectV6(addrs: seq<IpAddr>, mask: Network, deprecated: seq<Octets16>) returns (result: Option<Octets16>)
    requires ValidFor(mask, IPv6)
    ensures result.None? <==> LastSelected(ForV6(mask, deprecated), addrs).None?
    ensures result.Some? ==> LastSelected(ForV6(mask, deprecated), addrs) == Some(V6(result.value))
    ensures result.Some? ==> InRange(mask, result.value) && result.value !in deprecated
  {
    result := None;
    for i := 0 to |addrs|
      invariant result.None? <==> LastSelected(ForV6(mask, deprecated), addrs[..i]).None?
      invariant result.Some? ==> LastSelected(ForV6(mask, deprecated), addrs[..i]) == Some(V6(result.value))
    {
      assert addrs[..i + 1][..i] == addrs[..i];
      match addrs[i]
      case V6(v6) =>
        if InRange(mask, v6) && v6 !in deprecated {
          result := Some(v6);
        }
      case V4(_) =>
    }
    assert addrs[..|addrs|] == addrs;
  }

  /**
   * `get_interface_v6_addresses`: read the deprecated addresses of the
   * interface, then scan. `ifInet6` is the text of `/proc/net/if_inet6`,
   * or `None` when it cannot be opened or read.
   */
  method GetInterfaceV6(iface: string, addrs: seq<IpAddr>, ifInet6: Option<string>, mask: Network)
    returns (result: Option<Octets16>)
    requires ValidFor(mask, IPv6)
    ensures result.None? <==> LastSelected(ForV6(mask, Deprecated(ifInet6, iface)), addrs).None?
    ensures result.Some? ==> LastSelected(ForV6(mask, Deprecated(ifInet6, iface)), addrs) == Some(V6(result.value))
  {
    var deprecated := GetDeprecatedV6(ifInet6, iface);
    result := SelectV6(addrs, mask, deprecated);
  }

  // ---- /proc/net/if_inet6 ----------------------------------------------

  /** The number of `u128` values. */
  const U128Bound: nat := 0x1_0000_0000_0000_0000_0000_0000_0000_0000

  /** `IFA_F_DEPRECATED` from `<linux/if_addr.h>`. */
  const DeprecatedFlag: nat := 0x20

  /** `flags & 0x20 > 0`, for a flags byte. */
  predicate HasDeprecatedFlag(flags: nat) {
    (flags / DeprecatedFlag) % 2 == 1
  }

  /**
   * One line of `/proc/net/if_inet6`: whitespace-separated columns, the
   * first the address in hexadecimal, the fifth the flags in hexadecimal,
   * the sixth the interface name. The address of the line when the line
   * names `iface` and marks the address deprecated; `None` for every other
   * line, including one with too few columns or a column that is not
   * hexadecimal of the right size.
   */
  function DeprecatedOnLine(line: string, iface: string): (r: Option<Octets16>)
  {
    var columns := SplitWhitespace(line);
    if |columns| < 6 || Trim(columns[5]) != iface then None
    else
      match ParseUnsigned(columns[0], 16, U128Bound)
      case None => None
      case Some(address) =>
        match ParseUnsigned(columns[4], 16, 0x100)
        case None => None
        case Some(flags) =>
          if HasDeprecatedFlag(flags) then Some(ToBE(address, 16)) else None
  }

  /** The addresses found, in order, skipping the lines that give none. */
  function Found(found: seq<Option<Octets16>>): (r: seq<Octets16>)
    decreases |found|
  {
    if found == [] then []
    else
      var last := found[|found| - 1];
      Found(found[..|found| - 1]) + (if last.Some? then [last.value] else [])
  }

  /** An address is collected exactly when some line gives it. */
  lemma {:induction false} FoundMembers(found: seq<Option<Octets16>>, a: Octets16)
    ensures a in Found(found) <==> Some(a) in found
    decreases |found|
  {
    if found != [] {
      var n := |found| - 1;
      FoundMembers(found[..n], a);
      assert found == found[..n] + [found[n]];
    }
  }

  /** What each line gives. */
  function PerLine(lines: seq<string>, iface: string): (r: seq<Option<Octets16>>)
    ensures |r| == |lines|
  {
    seq(|lines|, i requires 0 <= i < |lines| => DeprecatedOnLine(lines[i], iface))
  }

  /** The deprecated addresses of `iface`; none when the file could not be read. */
  function Deprecated(ifInet6: Option<string>, iface: string): seq<Octets16> {
    match ifInet6
    case None => []
    case Some(content) => Found(PerLine(Lines(content), iface))
  }

  /** A line gives `a` exactly when `a` is among the per-line results. */
  lemma PerLineMembers(lines: seq<string>, iface: string, a: Octets16)
    ensures Some(a) in PerLine(lines, iface) <==>
      exists i :: 0 <= i < |lines| && DeprecatedOnLine(lines[i], iface) == Some(a)
  {
    var found := PerLine(lines, iface);
    if Some(a) in found {
      var i :| 0 <= i < |found| && found[i] == Some(a);
      assert DeprecatedOnLine(lines[i], iface) == Some(a);
    }
    if exists i :: 0 <= i < |lines| && DeprecatedOnLine(lines[i], iface) == Some(a) {
      var i :| 0 <= i < |lines| && DeprecatedOnLine(lines[i], iface) == Some(a);
      assert found[i] == Some(a);
    }
  }

  /** An address is listed exactly when some line marks it deprecated for `iface`. */
  lemma DeprecatedMembers(lines: seq<string>, iface: string, a: Octets16)
    ensures a in Found(PerLine(lines, iface)) <==>
      exists i :: 0 <= i < |lines| && DeprecatedOnLine(lines[i], iface) == Some(a)
  {
    FoundMembers(PerLine(lines, iface), a);
    PerLineMembers(lines, iface, a);
  }

  /** `get_deprecated_v6_addresses`: one pass over the lines, pushing each deprecated address. */
  method GetDeprecatedV6(ifInet6: Option<string>, iface: string) returns (addresses: seq<Octets16>)
    ensures addresses == Deprecated(ifInet6, iface)
  {
    addresses := [];
    if ifInet6.None? {
      return;
    }
    var lines := Lines(ifInet6.value);
    ghost var perLine := PerLine(lines, iface);
    for i := 0 to |lines|
      invariant addresses == Found(perLine[..i])
    {
      var found := DeprecatedOnLine(lines[i], iface);
      assert perLine[..i + 1][..i] == perLine[..i] && perLine[i] == found;
      if found.Some? {
        addresses := addresses + [found.value];
      }
    }
    assert perLine[..|lines|] == perLine;
  }
}
