/**
 * An address the program keeps up to date (`ip::DynamicIp`): the way it is
 * obtained (`IpService`), the last address obtained, and the dirty bit that
 * says whether the last successful update changed it.
 *
 * The command output, the HTTP lookup, the interface enumeration and the
 * text of `/proc/net/if_inet6` are what the outside world reports to one
 * update; they are the parameter `Lookup`. Compiling a regular expression
 * is the parameter `regexError`.
 */
module DynamicIp {
  import opened Wrappers
  import opened Bytes
  import opened Text
  import opened Ip
  import opened Netmask
  import opened Interface

  /** `config::IpConfigMethod`. */
  datatype IpConfigMethod =
    | ExecMethod(command: string)
    | InterfaceMethod(iface: string, matches: string)
    | HttpMethod(url: string, regex: string)

  /** `config::IpConfig`; the version is an address family. */
  datatype IpConfig = IpConfig(version: Family, ipMethod: IpConfigMethod)

  /**
   * `ip::IpService`: a command, an HTTP lookup or an interface, each for
   * one family. A compiled regular expression is represented by its pattern.
   */
  datatype IpService =
    | Exec(family: Family, command: string)
    | Http(family: Family, url: string, regex: string)
    | InterfaceService(family: Family, iface: string, matches: Network)

  predicate ValidService(s: IpService) {
    s.InterfaceService? ==> ValidFor(s.matches, s.family)
  }

  /** `ip::DynamicIpError`. */
  datatype DynamicIpError =
    | ExecutionFailure(message: string)
    | InterfaceFailure
    | HttpFailure(message: string)
    | InvalidRegex(message: string)
    | InvalidNetwork(error: NetworkParseErr)

  function FamilyOf(ip: IpAddr): Family {
    if ip.V4? then IPv4 else IPv6
  }

  /** The mask text an interface configuration stands for: an empty one matches everything. */
  function MatchesText(f: Family, matches: string): string {
    if matches != [] then matches
    else if f == IPv4 then "0.0.0.0/0"
    else "::/0"
  }

  /**
   * `IpService::from_config`. `regexError` gives the compiler's message for
   * a pattern it rejects and `None` for one it accepts.
   */
  function ServiceFromConfig(config: IpConfig, t6: Ipv6Text, regexError: string -> Option<string>)
    : (r: Result<IpService, DynamicIpError>)
    ensures r.Ok? ==> ValidService(r.value) && r.value.family == config.version
    ensures config.ipMethod.ExecMethod? ==> r.Ok?
    ensures r.Err? && r.error.InvalidNetwork? ==> config.ipMethod.InterfaceMethod?
    ensures r.Err? && r.error.InvalidRegex? ==> config.ipMethod.HttpMethod?
    ensures r.Err? ==> r.error.InvalidNetwork? || r.error.InvalidRegex?
  {
    match config.ipMethod
    case ExecMethod(command) => Ok(Exec(config.version, command))
    case HttpMethod(url, regex) =>
      (match regexError(regex)
       case Some(message) => Err(InvalidRegex(message))
       case None => Ok(Http(config.version, url, regex)))
    case InterfaceMethod(iface, matches) =>
      match ParseNetwork(config.version, Trim(MatchesText(config.version, matches)), t6)
      case Err(e) => Err(InvalidNetwork(e))
      case Ok(n) => Ok(InterfaceService(config.version, iface, n))
  }

  /** The all-zero address of a family. */
  function Zeros(f: Family): (a: seq<byte>)
    ensures |a| == Width(f)
  {
    if f == IPv4 then [0, 0, 0, 0] else [0, 0, 0, 0, 0, 0, 0, 0, 0, 0, 0, 0, 0, 0, 0, 0]
  }

  lemma DefaultTrimmedV4()
    ensures Trim(MatchesText(IPv4, "")) == "0.0.0.0/0"
  {
    assert MatchesText(IPv4, "") == "0.0.0.0/0";
    TrimUnchanged("0.0.0.0/0");
  }

  lemma DefaultTrimmedV6()
    ensures Trim(MatchesText(IPv6, "")) == "::/0"
  {
    assert MatchesText(IPv6, "") == "::/0";
    TrimUnchanged("::/0");
  }

  /** "0.0.0.0/0" is the zero IPv4 address with prefix length 0. */
  lemma DefaultTextV4(t6: Ipv6Text)
    ensures Trim(MatchesText(IPv4, "")) == ShowAddr(IPv4, Zeros(IPv4), t6) + "/" + Decimal(0)
  {
    DefaultTrimmedV4();
    assert Decimal(0) == "0";
    assert ShowV4([0, 0, 0, 0]) == "0.0.0.0";
  }

  /** "::/0" is the zero IPv6 address with prefix length 0. */
  lemma DefaultTextV6(t6: Ipv6Text)
    requires t6.show(Zeros(IPv6)) == "::"
    ensures Trim(MatchesText(IPv6, "")) == ShowAddr(IPv6, Zeros(IPv6), t6) + "/" + Decimal(0)
  {
    DefaultTrimmedV6();
    assert Decimal(0) == "0";
  }

  /** The default mask text parses as the prefix-0 network on the zero address. */
  lemma DefaultNetwork(f: Family, t6: Ipv6Text)
    requires WellBehaved(t6) && t6.show(Zeros(IPv6)) == "::"
    ensures ParseNetwork(f, Trim(MatchesText(f, "")), t6) == Ok(FromPrefix(f, Zeros(f), 0))
  {
    if f == IPv4 {
      DefaultTextV4(t6);
    } else {
      DefaultTextV6(t6);
    }
    ParsePrefixText(f, Zeros(f), 0, t6);
  }

  /**
   * An interface configuration without `matches` gets the prefix-0 network
   * on the zero address, which every address of the family is in. The IPv6
   * text "::" is the standard form of the zero address.
   */
  lemma DefaultMatchesAll(f: Family, iface: string, t6: Ipv6Text, regexError: string -> Option<string>)
    requires WellBehaved(t6) && t6.show(Zeros(IPv6)) == "::"
    ensures ServiceFromConfig(IpConfig(f, InterfaceMethod(iface, "")), t6, regexError) ==
      Ok(InterfaceService(f, iface, FromPrefix(f, Zeros(f), 0)))
    ensures forall a: seq<byte> :: |a| == Width(f) ==> InRange(FromPrefix(f, Zeros(f), 0), a)
  {
    DefaultNetwork(f, t6);
    ZeroNetworkContainsAll(f);
  }

  /** The prefix-0 network on the zero address holds every address of the family. */
  lemma ZeroNetworkContainsAll(f: Family)
    ensures forall a: seq<byte> :: |a| == Width(f) ==> InRange(FromPrefix(f, Zeros(f), 0), a)
  {
    forall a: seq<byte> | |a| == Width(f)
      ensures InRange(FromPrefix(f, Zeros(f), 0), a)
    {
      ZeroPrefixContainsAll(f, Zeros(f), 0, a);
    }
  }

  // ---- one resolution -----------------------------------------------------

  /**
   * What the outside world reports to one update: the outcome of the
   * command or of the HTTP lookup (an address, or the failure's text), the
   * addresses enumerated for the interface in order, and the text of
   * `/proc/net/if_inet6` (`None` when it cannot be read).
   */
  datatype Lookup = Lookup(external: Result<IpAddr, string>, interfaceAddrs: seq<IpAddr>, ifInet6: Option<string>)

  /**
   * The command and the HTTP lookup are typed by the family in the source
   * (`Ipv4Addr` or `Ipv6Addr`): an address they return is of the family.
   */
  predicate Typed(s: IpService, lookup: Lookup) {
    lookup.external.Ok? ==> FamilyOf(lookup.external.value) == s.family
  }

  /** The address an update obtains, or why it obtains none. */
  function Resolve(s: IpService, lookup: Lookup): (r: Result<IpAddr, DynamicIpError>)
    requires ValidService(s)
    ensures Typed(s, lookup) && r.Ok? ==> FamilyOf(r.value) == s.family
    ensures r.Err? ==> r.error.ExecutionFailure? || r.error.HttpFailure? || r.error.InterfaceFailure?
  {
    match s
    case Exec(_, _) =>
      (match lookup.external
       case Ok(ip) => Ok(ip)
       case Err(message) => Err(ExecutionFailure(message)))
    case Http(_, _, _) =>
      (match lookup.external
       case Ok(ip) => Ok(ip)
       case Err(message) => Err(HttpFailure(message)))
    case InterfaceService(f, iface, mask) =>
      var selector := if f == IPv4 then ForV4(mask) else ForV6(mask, Deprecated(lookup.ifInet6, iface));
      match LastSelected(selector, lookup.interfaceAddrs)
      case Some(ip) => Ok(ip)
      case None => Err(InterfaceFailure)
  }

  // ---- the dirty bit ------------------------------------------------------

  datatype IpState = IpState(address: Option<IpAddr>, dirty: bool)

  /** A fresh `DynamicIp`: no address, not dirty. */
  const Initial := IpState(None, false)

  /**
   * The effect of one update: a failure changes nothing; a success stores
   * the address and marks it dirty when there was none before or it
   * differs from the one before.
   */
  function Step(s: IpState, resolved: Result<IpAddr, DynamicIpError>): (t: IpState)
    ensures resolved.Err? ==> t == s
    ensures resolved.Ok? ==> t.address == Some(resolved.value)
    ensures resolved.Ok? ==> (t.dirty <==> s.address != Some(resolved.value))
  {
    match resolved
    case Err(_) => s
    case Ok(ip) =>
      var dirty := if s.address.Some? then s.address.value != ip else true;
      IpState(Some(ip), dirty)
  }

  /** The state after a series of updates. */
  function Run(s: IpState, results: seq<Result<IpAddr, DynamicIpError>>): IpState
    decreases |results|
  {
    if results == [] then s
    else Step(Run(s, results[..|results| - 1]), results[|results| - 1])
  }

  /** The address of the last successful update in a series. */
  function LastOk(results: seq<Result<IpAddr, DynamicIpError>>): (r: Option<IpAddr>)
    ensures r.Some? ==> Ok(r.value) in results
    decreases |results|
  {
    if results == [] then None
    else if results[|results| - 1].Ok? then Some(results[|results| - 1].value)
    else LastOk(results[..|results| - 1])
  }

  /** After a series of updates the address is the last one obtained, or the one before the series. */
  lemma {:induction false} RunAddress(s: IpState, results: seq<Result<IpAddr, DynamicIpError>>)
    ensures Run(s, results).address == if LastOk(results).Some? then LastOk(results) else s.address
    decreases |results|
  {
    if results != [] {
      RunAddress(s, results[..|results| - 1]);
    }
  }

  /**
   * A success marks the address dirty exactly when it differs from the
   * address known before it.
   */
  lemma DirtyAfterSuccess(s: IpState, results: seq<Result<IpAddr, DynamicIpError>>, ip: IpAddr)
    ensures Run(s, results + [Ok(ip)]).dirty <==>
      (if LastOk(results).Some? then LastOk(results) else s.address) != Some(ip)
  {
    assert (results + [Ok(ip)])[..|results|] == results;
    RunAddress(s, results);
  }

  /** Two equal successes in a row leave the address clean. */
  lemma RepeatIsClean(s: IpState, ip: IpAddr)
    ensures Run(s, [Ok(ip), Ok(ip)]) == IpState(Some(ip), false)
  {
    var once: seq<Result<IpAddr, DynamicIpError>> := [Ok(ip)];
    assert [Ok(ip), Ok(ip)][..1] == once;
    assert once[..0] == [];
  }

  /** The first success after construction marks the address dirty. */
  lemma FirstSuccessIsDirty(failures: seq<Result<IpAddr, DynamicIpError>>, ip: IpAddr)
    requires forall i :: 0 <= i < |failures| ==> failures[i].Err?
    ensures Run(Initial, failures + [Ok(ip)]) == IpState(Some(ip), true)
  {
    DirtyAfterSuccess(Initial, failures, ip);
    NoSuccessNoAddress(failures);
  }

  lemma {:induction false} NoSuccessNoAddress(failures: seq<Result<IpAddr, DynamicIpError>>)
    requires forall i :: 0 <= i < |failures| ==> failures[i].Err?
    ensures LastOk(failures) == None
    decreases |failures|
  {
    if failures != [] {
      NoSuccessNoAddress(failures[..|failures| - 1]);
    }
  }

  // ---- the object -----------------------------------------------------------

  class DynamicIp {
    var address: Option<IpAddr>
    var dirty: bool
    const service: IpService

    /** The service is well formed and the address is of its family. */
    predicate Valid()
      reads this
    {
      ValidService(service) && (address.Some? ==> FamilyOf(address.value) == service.family)
    }

    function State(): IpState
      reads this
    {
      IpState(address, dirty)
    }

    constructor (service: IpService)
      requires ValidService(service)
      ensures Valid() && this.service == service && State() == Initial
    {
      this.service := service;
      address := None;
      dirty := false;
    }

    /** `DynamicIp::from_config`. */
    static method FromConfig(config: IpConfig, t6: Ipv6Text, regexError: string -> Option<string>)
      returns (r: Result<DynamicIp, DynamicIpError>)
      ensures ServiceFromConfig(config, t6, regexError).Err? ==>
        r == Err(ServiceFromConfig(config, t6, regexError).error)
      ensures ServiceFromConfig(config, t6, regexError).Ok? ==>
        r.Ok? && fresh(r.value) && r.value.Valid() && r.value.State() == Initial &&
        r.value.service == ServiceFromConfig(config, t6, regexError).value
    {
      match ServiceFromConfig(config, t6, regexError)
      case Err(e) =>
        r := Err(e);
      case Ok(service) =>
        var ip := new DynamicIp(service);
        r := Ok(ip);
    }

    /** `DynamicIp::address`. */
    function Address(): Option<IpAddr>
      reads this
    {
      address
    }

    /** `DynamicIp::is_dirty`. */
    predicate IsDirty()
      reads this
    {
      dirty
    }

    /**
     * `DynamicIp::update`: obtain an address the way the service says; on
     * failure report it and change nothing, on success apply `Step`.
     */
    method Update(lookup: Lookup) returns (r: Result<(), DynamicIpError>)
      requires Valid() && Typed(service, lookup)
      modifies this
      ensures Valid()
      ensures State() == Step(old(State()), Resolve(service, lookup))
      ensures r.Ok? <==> Resolve(service, lookup).Ok?
      ensures r.Err? ==> r.error == Resolve(service, lookup).error
    {
      var newIp: IpAddr;
      match service {
      case Exec(_, _) =>
        if lookup.external.Err? {
          return Err(ExecutionFailure(lookup.external.error));
        }
        newIp := lookup.external.value;
      case Http(_, _, _) =>
        if lookup.external.Err? {
          return Err(HttpFailure(lookup.external.error));
        }
        newIp := lookup.external.value;
      case InterfaceService(f, iface, mask) =>
        if f == IPv4 {
          var found := GetInterfaceV4(lookup.interfaceAddrs, mask);
          if found.None? {
            return Err(InterfaceFailure);
          }
          newIp := V4(found.value);
        } else {
          var found := GetInterfaceV6(iface, lookup.interfaceAddrs, lookup.ifInet6, mask);
          if found.None? {
            return Err(InterfaceFailure);
          }
          newIp := V6(found.value);
        }
      }

      if address.Some? {
        dirty := address.value != newIp;
      } else {
        dirty := true;
      }
      address := Some(newIp);
      r := Ok(());
    }
  }
}
