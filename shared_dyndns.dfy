/**
 * The DynDNS v2 protocol shared by several providers
 * (`services::shared_dyndns::Service`): one GET request per update, a
 * plain-text answer whose first word decides the outcome, and a back-off
 * state that makes the service refuse calls after the server reported a
 * failure.
 *
 * The update rate of the general configuration is the parameter
 * `updateRate`; sending the request is the parameter `send`.
 */
module SharedDynDns {
  import opened Wrappers
  import opened Bytes
  import opened Text
  import opened Ip
  import opened Http
  import opened Ddns

  /** `shared_dyndns::Config`. */
  datatype Config = Config(username: string, password: string, domains: seq<string>)

  /** `general.update_rate`: a `NonZeroU32` number of seconds, when set. */
  predicate ValidRate(updateRate: Option<nat>) {
    updateRate.Some? ==> 0 < updateRate.value < 0x1_0000_0000
  }

  // ---- the back-off gate -------------------------------------------------

  /**
   * The gate at the start of `update_record`: `Some(next)` when the call is
   * refused and the suspension becomes `next`, `None` when it goes ahead.
   */
  function Refusal(s: Suspension): (r: Option<Suspension>)
    ensures r.None? <==> s == Cycles(0)
  {
    match s
    case Cycles(n) => if n > 0 then Some(Cycles(n - 1)) else None
    case Indefinite => Some(Indefinite)
  }

  /** The suspension after `k` calls in a row that are all refused; `None` when one of them goes ahead. */
  function Refused(s: Suspension, k: nat): Option<Suspension>
    decreases k
  {
    if k == 0 then Some(s)
    else
      match Refusal(s)
      case None => None
      case Some(next) => Refused(next, k - 1)
  }

  /** `Cycles(n)` refuses exactly the next `n` calls and lets the one after through. */
  lemma {:induction false} CountDown(n: uint32)
    ensures Refused(Cycles(n), n) == Some(Cycles(0))
    ensures Refusal(Cycles(0)) == None
    decreases n
  {
    if n > 0 {
      CountDown(n - 1);
    }
  }

  /** `Indefinite` refuses every call and stays `Indefinite`. */
  lemma {:induction false} RefusedForever(k: nat)
    ensures Refused(Indefinite, k) == Some(Indefinite)
    decreases k
  {
    if k > 0 {
      RefusedForever(k - 1);
    }
  }

  // ---- the request ------------------------------------------------------

  /** The request for `ips`: the server, the authorisation, the host names and `myip`. */
  function RequestFor(server: string, auth: string, domains: seq<string>, ips: seq<IpAddr>, t6: Ipv6Text): Request
    requires ips != []
  {
    SomeFamily(ips);
    var r := Query(Set(NewRequest(Get, server), "Authorization", auth), "hostname", Join(domains, ","));
    Query(r, "myip", MyIp(FirstV4(ips), FirstV6(ips), t6))
  }

  /** The request carries the submitted addresses as `myip`, after the host names. */
  lemma RequestCarriesAddresses(server: string, auth: string, domains: seq<string>, ips: seq<IpAddr>, t6: Ipv6Text)
    requires ips != []
    ensures var r := RequestFor(server, auth, domains, ips, t6);
      r.verb == Get && r.url == server && r.headers == [("Authorization", auth)] &&
      r.query == [("hostname", Join(domains, ",")), ("myip", MyIp(FirstV4(ips), FirstV6(ips), t6))]
  {
  }

  // ---- the answer -------------------------------------------------------

  /**
   * The addresses a "good" answer confirms: the first two ','-separated
   * pieces after "good" that parse as addresses, or, when neither does,
   * the submitted IPv4 and IPv6 addresses.
   */
  function GoodAddresses(tail: string, ips: seq<IpAddr>, t6: Ipv6Text): (r: seq<IpAddr>)
    ensures |r| <= 2
  {
    var (ip1, ip2) := Candidates(tail, t6);
    if ip1.None? && ip2.None? then Pushed(FirstV4(ips), FirstV6(ips)) else Pushed(ip1, ip2)
  }

  /** The first two ','-separated pieces of `tail`, trimmed and parsed as addresses. */
  function Candidates(tail: string, t6: Ipv6Text): (Option<IpAddr>, Option<IpAddr>) {
    var pieces := Split(tail, ",");
    (ParseIp(Trim(pieces[0]), t6), if |pieces| > 1 then ParseIp(Trim(pieces[1]), t6) else None)
  }

  /** The back-off after "911" or "dnserr": about thirty minutes of cycles, none without an update rate. */
  function ServerDownCycles(updateRate: Option<nat>): (n: uint32)
    requires ValidRate(updateRate)
    ensures updateRate.Some? ==> n * updateRate.value <= 1800 < (n + 1) * updateRate.value
    ensures updateRate.None? ==> n == 0
  {
    match updateRate
    case Some(rate) => 1800 / rate
    case None => 0
  }

  function ServerDownMessage(cycles: nat): string {
    if cycles == 0 then "The server is down"
    else "The server is down, suspending for " + Decimal(cycles) + " cycles"
  }

  /** The error text for an answer that suspends the service for good. */
  function RejectionMessage(body: string): string {
    if StartsWith(body, "!donator") then "Only credited users are allowed"
    else if StartsWith(body, "badauth") then "Bad authentication details were provided"
    else if StartsWith(body, "notfqdn") then "Domain must be fully-qualified"
    else if StartsWith(body, "nohost") then "Hostname does not exist in the user account"
    else if StartsWith(body, "abuse") then "Domain is blocked because of abuse"
    else if StartsWith(body, "numhost") then "Too many hosts are specified"
    else if StartsWith(body, "badagent") then
      "Bad user agent was provided. Configure your user_agent properly in the config file."
    else body
  }

  /** The result of an update and the suspension after it. */
  datatype Reply = Reply(result: UpdateResult, suspended: Suspension)

  /** Answers the server is up for. */
  predicate Accepted(body: string) {
    StartsWith(body, "good") || StartsWith(body, "nochg")
  }

  /** Answers saying the server is in trouble. */
  predicate ServerDown(body: string) {
    StartsWith(body, "911") || StartsWith(body, "dnserr")
  }

  /** What an answer body means, for a call that went ahead (so the suspension was `Cycles(0)`). */
  function Classify(name: string, body: string, ips: seq<IpAddr>, updateRate: Option<nat>, t6: Ipv6Text): (r: Reply)
    requires ValidRate(updateRate)
    ensures r.result.Ok? <==> Accepted(body)
    ensures r.result.Err? ==> r.result.error.DynDns? && r.result.error.name == name
    ensures Accepted(body) ==> r.suspended == Cycles(0)
    ensures !Accepted(body) && ServerDown(body) ==> r.suspended == Cycles(ServerDownCycles(updateRate))
    ensures r.suspended == Indefinite <==> !Accepted(body) && !ServerDown(body)
    ensures StartsWith(body, "nochg") && !StartsWith(body, "good") ==> r.result == Ok([])
  {
    match StripPrefix(body, "good")
    case Some(tail) => Reply(Ok(GoodAddresses(tail, ips, t6)), Cycles(0))
    case None =>
      if StartsWith(body, "nochg") then Reply(Ok([]), Cycles(0))
      else if ServerDown(body) then
        var cycles := ServerDownCycles(updateRate);
        Reply(Err(DynDns(name, ServerDownMessage(cycles))), Cycles(cycles))
      else Reply(Err(DynDns(name, RejectionMessage(body))), Indefinite)
  }

  /** What the outcome of the request means. An error status is read like a success. */
  function Respond(name: string, outcome: Outcome, ips: seq<IpAddr>, updateRate: Option<nat>, t6: Ipv6Text): (r: Reply)
    requires ValidRate(updateRate)
    ensures outcome.Transport? ==> r == Reply(Err(TransportError(outcome.message)), Cycles(0))
    ensures !outcome.Transport? && outcome.response.text.Err? ==>
      r == Reply(Err(DynDns(name, outcome.response.text.error)), Cycles(0))
    ensures !outcome.Transport? && outcome.response.text.Ok? ==>
      r == Classify(name, outcome.response.text.value, ips, updateRate, t6)
  {
    match outcome
    case Transport(message) => Reply(Err(TransportError(message)), Cycles(0))
    case Success(response) => Read(name, response, ips, updateRate, t6)
    case Status(_, response) => Read(name, response, ips, updateRate, t6)
  }

  function Read(name: string, response: Response, ips: seq<IpAddr>, updateRate: Option<nat>, t6: Ipv6Text): Reply
    requires ValidRate(updateRate)
  {
    match response.text
    case Err(e) => Reply(Err(DynDns(name, e)), Cycles(0))
    case Ok(body) => Classify(name, body, ips, updateRate, t6)
  }

  // ---- properties of the answers ----------------------------------------

  /** "good" with nothing after it confirms the submitted addresses. */
  lemma BareGoodConfirmsSubmitted(ips: seq<IpAddr>, t6: Ipv6Text)
    requires WellBehaved(t6)
    ensures GoodAddresses("", ips, t6) == Submitted(ips)
  {
    EmptyCandidates(t6);
  }

  /** An empty tail offers no candidate address. */
  lemma EmptyCandidates(t6: Ipv6Text)
    requires WellBehaved(t6)
    ensures Candidates("", t6) == (None, None)
  {
    assert Split("", ",") == [""];
    assert Trim("") == "";
    EmptyIsNoAddress(t6);
  }

  /** The empty text is no address. */
  lemma EmptyIsNoAddress(t6: Ipv6Text)
    requires WellBehaved(t6)
    ensures ParseIp("", t6) == None
  {
    assert Split("", ".") == [""];
    assert ParseV4("") == None;
    assert t6.parse("").None?;
  }

  /** "good" followed by one piece that parses as an address confirms exactly that address. */
  lemma GoodEcho(tail: string, ip: IpAddr, ips: seq<IpAddr>, t6: Ipv6Text)
    requires Split(tail, ",") == [tail] && ParseIp(Trim(tail), t6) == Some(ip)
    ensures GoodAddresses(tail, ips, t6) == [ip]
  {
    OneCandidate(tail, ip, t6);
    assert Pushed(Some(ip), None) == [ip] + [];
  }

  /** A tail of one piece that parses as an address is the only candidate. */
  lemma OneCandidate(tail: string, ip: IpAddr, t6: Ipv6Text)
    requires Split(tail, ",") == [tail] && ParseIp(Trim(tail), t6) == Some(ip)
    ensures Candidates(tail, t6) == (Some(ip), None)
  {
  }

  /** "good" followed by one printed IPv4 address confirms exactly that address. */
  lemma GoodEchoV4(a: Octets4, ips: seq<IpAddr>, t6: Ipv6Text)
    ensures GoodAddresses(ShowV4(a), ips, t6) == [V4(a)]
  {
    var s := ShowV4(a);
    ShowV4Plain(a);
    OnePiece(s);
    TrimUnchanged(s);
    ParseShowV4(a);
    GoodEcho(s, V4(a), ips, t6);
  }

  /**
   * With a 60-second update rate, "911" suspends the service for 30 cycles:
   * the next 30 calls are refused and the 31st goes ahead.
   */
  lemma ServerDownBackoff(name: string, body: string, ips: seq<IpAddr>, t6: Ipv6Text)
    requires ServerDown(body) && !Accepted(body)
    ensures Classify(name, body, ips, Some(60), t6).suspended == Cycles(30)
    ensures Refused(Cycles(30), 30) == Some(Cycles(0)) && Refusal(Cycles(0)) == None
  {
    CountDown(30);
  }

  // ---- the service --------------------------------------------------------

  /** `shared_dyndns::Service`. */
  class Service {
    const name: string
    const server: string
    const config: Config
    const auth: string
    var suspended: Suspension

    /** `Service::from_config`: the `Basic` credentials, and no suspension. */
    constructor FromConfig(name: string, server: string, config: Config, base64: seq<byte> -> string)
      ensures this.name == name && this.server == server && this.config == config
      ensures auth == BasicAuth(config.username, config.password, base64)
      ensures suspended == Cycles(0)
    {
      this.name := name;
      this.server := server;
      this.config := config;
      this.auth := BasicAuth(config.username, config.password, base64);
      this.suspended := Cycles(0);
    }

    /**
     * `update_record`. A suspended service refuses the call without sending
     * anything; otherwise it sends one request and reads the answer.
     * `sent` lists the requests sent.
     */
    method UpdateRecord(ips: seq<IpAddr>, send: Send, updateRate: Option<nat>, t6: Ipv6Text)
      returns (r: UpdateResult, sent: seq<Request>)
      requires ValidRate(updateRate)
      requires suspended == Cycles(0) ==> ips != []
      modifies this
      ensures Refusal(old(suspended)).Some? ==>
        sent == [] && suspended == Refusal(old(suspended)).value && r == Err(Suspended(suspended))
      ensures Refusal(old(suspended)).None? ==>
        sent == [RequestFor(server, auth, config.domains, ips, t6)] &&
        Reply(r, suspended) == Respond(name, send(sent[0]), ips, updateRate, t6)
    {
      match suspended {
        case Cycles(n) =>
          if n > 0 {
            suspended := Cycles(n - 1);
            return Err(Suspended(suspended)), [];
          }
        case Indefinite =>
          return Err(Suspended(suspended)), [];
      }

      var ipv4 := FirstV4(ips);
      var ipv6 := FirstV6(ips);
      SomeFamily(ips);

      var request := Query(Set(NewRequest(Get, server), "Authorization", auth), "hostname", Join(config.domains, ","));
      if ipv4.Some? && ipv6.Some? {
        request := Query(request, "myip", Show(ipv4.value, t6) + "," + Show(ipv6.value, t6));
      } else if ipv4.Some? {
        request := Query(request, "myip", Show(ipv4.value, t6));
      } else {
        request := Query(request, "myip", Show(ipv6.value, t6));
      }
      sent := [request];

      var outcome := send(request);
      if outcome.Transport? {
        return Err(TransportError(outcome.message)), sent;
      }
      if outcome.response.text.Err? {
        return Err(DynDns(name, outcome.response.text.error)), sent;
      }
      var body := outcome.response.text.value;

      r := Answer(body, ips, updateRate, t6);
    }

    /** Reading the answer body of a call that went ahead. */
    method Answer(body: string, ips: seq<IpAddr>, updateRate: Option<nat>, t6: Ipv6Text) returns (r: UpdateResult)
      requires ValidRate(updateRate) && suspended == Cycles(0)
      modifies this
      ensures Reply(r, suspended) == Classify(name, body, ips, updateRate, t6)
    {
      var tail := StripPrefix(body, "good");
      if tail.Some? {
        var result := ReadGood(tail.value, ips, t6);
        r := Ok(result);
      } else if StartsWith(body, "nochg") {
        r := Ok([]);
      } else if StartsWith(body, "911") || StartsWith(body, "dnserr") {
        var cycles := match updateRate case Some(rate) => 1800 / rate case None => 0;
        suspended := Cycles(cycles);
        r := Err(DynDns(name, ServerDownMessage(cycles)));
      } else {
        suspended := Indefinite;
        r := Err(DynDns(name, RejectionMessage(body)));
      }
    }
  }

  /** The addresses confirmed by the text after "good", pushed one by one. */
  method ReadGood(tail: string, ips: seq<IpAddr>, t6: Ipv6Text) returns (result: seq<IpAddr>)
    ensures result == GoodAddresses(tail, ips, t6)
  {
    var candidates := Candidates(tail, t6);
    var ip1, ip2 := candidates.0, candidates.1;
    if ip1.None? && ip2.None? {
      ip1 := FirstV4(ips);
      ip2 := FirstV6(ips);
    }
    result := PushEach(ip1, ip2);
  }
}
