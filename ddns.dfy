/**
 * What the DDNS providers share: the error type `DdnsUpdateError`, the
 * back-off state `Suspension`, the result of an update (a `FixedVec` of at
 * most two addresses, here a sequence) and the `Basic` authorisation header.
 */
module Ddns {
  import opened Wrappers
  import opened Bytes
  import opened Text
  import opened Ip
  import Utf8

  /** How many further calls a provider refuses, or all of them. */
  datatype Suspension = Cycles(n: uint32) | Indefinite

  /** `services::DdnsUpdateError`, with the variants the providers use. */
  datatype DdnsUpdateError =
    | DynDns(name: string, message: string)
    | DuckDns
    | NoIp(message: string)
    | Porkbun(message: string)
    | Router1(status: nat, message: string)
    | Json(message: string)
    | TransportError(message: string)
    | Suspended(suspension: Suspension)
    | Cloudflare(code: uint32, message: string)
    | Linode(message: string)

  /** What `update_record` returns. */
  type UpdateResult = Result<seq<IpAddr>, DdnsUpdateError>

  /** A `FixedVec` after pushing `first` and then `second`, when present. */
  function Pushed(first: Option<IpAddr>, second: Option<IpAddr>): (r: seq<IpAddr>)
    ensures |r| <= 2
  {
    (if first.Some? then [first.value] else []) + (if second.Some? then [second.value] else [])
  }

  /** `FixedVec::new()` followed by a `push` of each present address. */
  method PushEach(first: Option<IpAddr>, second: Option<IpAddr>) returns (result: seq<IpAddr>)
    ensures result == Pushed(first, second)
  {
    result := [];
    if first.Some? {
      result := result + [first.value];
    }
    if second.Some? {
      result := result + [second.value];
    }
  }

  /**
   * The addresses a provider reports when it submitted the first IPv4 and
   * the first IPv6 address of `ips`: at most one of each family, the IPv4
   * one first.
   */
  function Submitted(ips: seq<IpAddr>): (r: seq<IpAddr>)
    ensures |r| <= 2 && forall ip :: ip in r ==> ip in ips
    ensures forall i, j :: 0 <= i < j < |r| ==> r[i].V4? && r[j].V6?
    ensures FirstV4(ips).Some? <==> exists i :: 0 <= i < |r| && r[i].V4?
    ensures FirstV6(ips).Some? <==> exists i :: 0 <= i < |r| && r[i].V6?
    ensures ips != [] <==> r != []
  {
    var v4, v6 := FirstV4(ips), FirstV6(ips);
    assert ips != [] ==> v4.Some? || v6.Some? by {
      if ips != [] {
        assert ips[0].V4? ==> v4.Some?;
        assert ips[0].V6? ==> v6.Some?;
      }
    }
    var r := Pushed(v4, v6);
    assert v4.Some? ==> r[0] == v4.value;
    assert v6.Some? ==> r[|r| - 1] == v6.value;
    assert forall ip :: ip in r ==> Some(ip) == v4 || Some(ip) == v6;
    r
  }

  /**
   * `"Basic " + BASE64.encode("user:password")`; `base64` is the standard
   * alphabet with padding, per section 4 of RFC 4648.
   */
  function BasicAuth(username: string, password: string, base64: seq<byte> -> string): (auth: string)
    ensures |auth| >= 6 && auth[..6] == "Basic "
    ensures auth[6..] == base64(Utf8.Encode(username + ":" + password))
  {
    "Basic " + base64(Utf8.Encode(username + ":" + password))
  }

  /** `String::from("Bearer ") + token`. */
  function Bearer(token: string): (auth: string)
    ensures |auth| == |token| + 7 && auth[..7] == "Bearer " && auth[7..] == token
  {
    "Bearer " + token
  }

  /** A non-empty address list has a first IPv4 or a first IPv6 address. */
  lemma SomeFamily(ips: seq<IpAddr>)
    requires ips != []
    ensures FirstV4(ips).Some? || FirstV6(ips).Some?
  {
    assert ips[0].V4? || ips[0].V6?;
  }

  /** The `myip` parameter of DynDNS-style requests: both addresses separated by ',', or the one present. */
  function MyIp(v4: Option<IpAddr>, v6: Option<IpAddr>, t6: Ipv6Text): string
    requires v4.Some? || v6.Some?
  {
    if v4.Some? && v6.Some? then Show(v4.value, t6) + "," + Show(v6.value, t6)
    else if v4.Some? then Show(v4.value, t6)
    else Show(v6.value, t6)
  }

  /** A printed IPv4 address has no ',' and no whitespace. */
  lemma ShowV4Plain(a: Octets4)
    ensures ',' !in ShowV4(a)
    ensures forall i :: 0 <= i < |ShowV4(a)| ==> !IsWhitespace(ShowV4(a)[i])
  {
    var s := ShowV4(a);
    assert forall i :: 0 <= i < |s| ==> IsAsciiDigit(s[i]) || s[i] == '.';
  }

  /** No printed address contains ','. */
  lemma ShowNoComma(ip: IpAddr, t6: Ipv6Text)
    requires WellBehaved(t6)
    ensures ',' !in Show(ip, t6)
  {
    if ip.V4? {
      ShowV4Plain(ip.v4);
    }
  }

  /** A text without ',' is one piece. */
  lemma OnePiece(s: string)
    requires ',' !in s
    ensures Split(s, ",") == [s]
  {
    FindAbsent(s, ',');
  }

  /** Splitting `myip` at ',' gives the printed addresses, in the order they were pushed. */
  lemma MyIpPieces(v4: Option<IpAddr>, v6: Option<IpAddr>, t6: Ipv6Text)
    requires WellBehaved(t6) && (v4.Some? || v6.Some?)
    ensures var pushed := Pushed(v4, v6);
      Split(MyIp(v4, v6, t6), ",") == seq(|pushed|, i requires 0 <= i < |pushed| => Show(pushed[i], t6))
  {
    if v4.Some? {
      ShowNoComma(v4.value, t6);
    }
    if v6.Some? {
      ShowNoComma(v6.value, t6);
      OnePiece(Show(v6.value, t6));
    }
    if v4.Some? && v6.Some? {
      SplitFirst(Show(v4.value, t6), ',', Show(v6.value, t6));
    } else if v4.Some? {
      OnePiece(Show(v4.value, t6));
    }
  }

  /** Every piece of `myip` parses back to the address it was printed from. */
  lemma MyIpParsesBack(v4: Option<IpAddr>, v6: Option<IpAddr>, t6: Ipv6Text)
    requires WellBehaved(t6) && (v4.Some? || v6.Some?)
    ensures var pieces := Split(MyIp(v4, v6, t6), ",");
      |pieces| == |Pushed(v4, v6)| &&
      forall i :: 0 <= i < |pieces| ==> ParseIp(pieces[i], t6) == Some(Pushed(v4, v6)[i])
  {
    MyIpPieces(v4, v6, t6);
    var pushed := Pushed(v4, v6);
    forall i | 0 <= i < |pushed|
      ensures ParseIp(Show(pushed[i], t6), t6) == Some(pushed[i])
    {
      ParseShow(pushed[i], t6);
    }
  }
}
