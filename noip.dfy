/**
 * The No-IP provider (`services::noip::Service`): one GET request carrying
 * the host names and the submitted addresses; the answer is read from the
 * body of a success and from the status code of an error.
 *
 * The user agent of the general configuration is the parameter `userAgent`.
 */
module NoIp {
  import opened Wrappers
  import opened Bytes
  import opened Text
  import opened Ip
  import opened Http
  import opened Ddns

  datatype Config = Config(username: string, password: string, domains: seq<string>)

  /** The service never changes after construction. */
  datatype Service = Service(config: Config, auth: string)

  /** `Service::from_config`. */
  function FromConfig(config: Config, base64: seq<byte> -> string): (s: Service)
    ensures s.config == config && s.auth == BasicAuth(config.username, config.password, base64)
  {
    Service(config, BasicAuth(config.username, config.password, base64))
  }

  /** The request: credentials, user agent, host names and, when there is an address, `myip`. */
  function RequestFor(s: Service, ips: seq<IpAddr>, userAgent: string, t6: Ipv6Text): Request {
    var base := Set(Set(NewRequest(Get, "https://dynupdate.no-ip.com/nic/update"), "Authorization", s.auth), "User-Agent", userAgent);
    var r := Query(base, "hostname", Join(s.config.domains, ","));
    var v4, v6 := FirstV4(ips), FirstV6(ips);
    if v4.Some? || v6.Some? then Query(r, "myip", MyIp(v4, v6, t6)) else r
  }

  /**
   * What the outcome means when `submitted` was submitted: a readable
   * success is never an error, and it confirms nothing only for "nochg";
   * a server error status says the server is down; any other error status
   * reports its body.
   */
  function Respond(outcome: Outcome, submitted: seq<IpAddr>): (r: UpdateResult)
    ensures outcome.Success? && outcome.response.text.Ok? ==> r.Ok?
    ensures outcome.Success? && outcome.response.text.Ok? ==>
      (r == Ok([]) <==> (StartsWith(outcome.response.text.value, "nochg") && !StartsWith(outcome.response.text.value, "good")) || submitted == [])
    ensures outcome.Success? && outcome.response.text.Ok? && r != Ok([]) ==> r == Ok(submitted)
    ensures outcome.Status? && outcome.code >= 500 ==> r == Err(NoIp("NoIP server is down"))
    ensures outcome.Status? && outcome.code < 500 && outcome.response.text.Ok? ==> r == Err(NoIp(outcome.response.text.value))
    ensures outcome.Transport? ==> r == Err(TransportError(outcome.message))
    ensures r.Err? ==> r.error.NoIp? || r.error.TransportError?
  {
    match outcome
    case Success(response) =>
      (match response.text
       case Err(e) => Err(NoIp(e))
       case Ok(body) =>
         if StartsWith(body, "good") then Ok(submitted)
         else if StartsWith(body, "nochg") then Ok([])
         else Ok(submitted))
    case Status(code, response) =>
      if code >= 500 then Err(NoIp("NoIP server is down"))
      else
        (match response.text
         case Err(e) => Err(NoIp(e))
         case Ok(body) => Err(NoIp(body)))
    case Transport(message) => Err(TransportError(message))
  }

  /**
   * `update_record`: build the request step by step, pushing each address
   * it submits, send it and read the answer. `sent` is the request sent.
   */
  method UpdateRecord(s: Service, ips: seq<IpAddr>, send: Send, userAgent: string, t6: Ipv6Text)
    returns (r: UpdateResult, sent: Request)
    ensures sent == RequestFor(s, ips, userAgent, t6)
    ensures r == Respond(send(sent), Submitted(ips))
  {
    var ipv4 := FirstV4(ips);
    var ipv6 := FirstV6(ips);
    var result := [];

    var request := Set(Set(NewRequest(Get, "https://dynupdate.no-ip.com/nic/update"), "Authorization", s.auth), "User-Agent", userAgent);
    request := Query(request, "hostname", Join(s.config.domains, ","));

    if ipv4.Some? && ipv6.Some? {
      request := Query(request, "myip", Show(ipv4.value, t6) + "," + Show(ipv6.value, t6));
      result := [ipv4.value, ipv6.value];
    } else if ipv4.Some? {
      request := Query(request, "myip", Show(ipv4.value, t6));
      result := [ipv4.value];
    } else if ipv6.Some? {
      request := Query(request, "myip", Show(ipv6.value, t6));
      result := [ipv6.value];
    }
    assert result == Submitted(ips);
    sent := request;

    var outcome := send(request);
    match outcome {
      case Success(response) =>
        if response.text.Err? {
          return Err(NoIp(response.text.error)), sent;
        }
        var body := response.text.value;
        if StartsWith(body, "good") {
          return Ok(result), sent;
        } else if StartsWith(body, "nochg") {
          return Ok([]), sent;
        }
      case Status(code, response) =>
        if code >= 500 {
          return Err(NoIp("NoIP server is down")), sent;
        }
        if response.text.Err? {
          return Err(NoIp(response.text.error)), sent;
        }
        return Err(NoIp(response.text.value)), sent;
      case Transport(message) =>
        return Err(TransportError(message)), sent;
    }
    r := Ok(result);
  }

  /** The confirmed addresses are the first IPv4 and IPv6 addresses submitted, and `myip` parses back into them. */
  lemma GoodConfirmsSubmitted(s: Service, ips: seq<IpAddr>, userAgent: string, t6: Ipv6Text, body: string)
    requires WellBehaved(t6) && ips != [] && StartsWith(body, "good")
    ensures Respond(Success(Response(Ok(body))), Submitted(ips)) == Ok(Pushed(FirstV4(ips), FirstV6(ips)))
    ensures var q := RequestFor(s, ips, userAgent, t6).query;
      |q| == 2 && q[1].0 == "myip" &&
      var pieces := Split(q[1].1, ",");
      |pieces| == |Submitted(ips)| &&
      forall i :: 0 <= i < |pieces| ==> ParseIp(pieces[i], t6) == Some(Submitted(ips)[i])
  {
    SomeFamily(ips);
    MyIpParsesBack(FirstV4(ips), FirstV6(ips), t6);
  }
}
