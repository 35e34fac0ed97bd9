/**
 * The Duck DNS provider (`services::duckdns::Service`): one GET request
 * whose query names the domains, the token and each submitted address;
 * the answer body starts with "OK" on success.
 */
module DuckDns {
  import opened Wrappers
  import opened Text
  import opened Ip
  import opened Http
  import opened Ddns

  datatype Config = Config(token: string, domains: seq<string>)

  /** The query: domains, token, then `ip` and `ipv6` for the addresses present. */
  function QueryFor(config: Config, ips: seq<IpAddr>, t6: Ipv6Text): seq<(string, string)> {
    var v4, v6 := FirstV4(ips), FirstV6(ips);
    [("domains", Join(config.domains, ",")), ("token", config.token)]
    + (if v4.Some? then [("ip", Show(v4.value, t6))] else [])
    + (if v6.Some? then [("ipv6", Show(v6.value, t6))] else [])
  }

  /** Answer bodies that mean success. */
  predicate Confirms(body: string) {
    StartsWith(body, "OK") || StartsWith(body, "good")
  }

  /** What the outcome means: any status reads the body, which confirms the submitted addresses or fails. */
  function Respond(outcome: Outcome, submitted: seq<IpAddr>): (r: UpdateResult)
    ensures r.Ok? ==> r.value == submitted
    ensures !outcome.Transport? ==> (r.Ok? <==> outcome.response.text.Ok? && Confirms(outcome.response.text.value))
    ensures !outcome.Transport? && r.Err? ==> r.error == DuckDns
    ensures outcome.Transport? ==> r == Err(TransportError(outcome.message))
  {
    match outcome
    case Transport(message) => Err(TransportError(message))
    case Success(response) => Read(response, submitted)
    case Status(_, response) => Read(response, submitted)
  }

  function Read(response: Response, submitted: seq<IpAddr>): UpdateResult {
    match response.text
    case Err(_) => Err(DuckDns)
    case Ok(body) =>
      if Confirms(body) then Ok(submitted)
      else if StartsWith(body, "KO") then Err(DuckDns)
      else Err(DuckDns)
  }

  /** `update_record`: the request is built and the result pushed address by address. */
  method UpdateRecord(config: Config, ips: seq<IpAddr>, send: Send, t6: Ipv6Text)
    returns (r: UpdateResult, sent: Request)
    ensures sent == Request(Get, "https://www.duckdns.org/update", [], QueryFor(config, ips, t6), NoBody)
    ensures r == Respond(send(sent), Submitted(ips))
  {
    var ipv4 := FirstV4(ips);
    var ipv6 := FirstV6(ips);

    var request := Query(Query(NewRequest(Get, "https://www.duckdns.org/update"), "domains", Join(config.domains, ",")), "token", config.token);
    var result := [];

    if ipv4.Some? {
      request := Query(request, "ip", Show(ipv4.value, t6));
      result := result + [ipv4.value];
    }
    if ipv6.Some? {
      request := Query(request, "ipv6", Show(ipv6.value, t6));
      result := result + [ipv6.value];
    }
    assert result == Submitted(ips);
    sent := request;

    var outcome := send(request);
    if outcome.Transport? {
      return Err(TransportError(outcome.message)), sent;
    }
    var text := outcome.response.text;
    if text.Err? {
      return Err(DuckDns), sent;
    }
    var body := text.value;
    if StartsWith(body, "OK") || StartsWith(body, "good") {
      r := Ok(result);
    } else if StartsWith(body, "KO") {
      r := Err(DuckDns);
    } else {
      r := Err(DuckDns);
    }
  }

  /** The query carries each submitted address under its own name, and nothing for a missing family. */
  lemma QueryNamesAddresses(config: Config, ips: seq<IpAddr>, t6: Ipv6Text)
    ensures var q := QueryFor(config, ips, t6);
      |q| == 2 + |Submitted(ips)| &&
      (forall i :: 2 <= i < |q| ==> q[i].1 == Show(Submitted(ips)[i - 2], t6)) &&
      (forall i :: 2 <= i < |q| ==> (q[i].0 == "ip" <==> Submitted(ips)[i - 2].V4?))
  {
    var v4, v6 := FirstV4(ips), FirstV6(ips);
    var q := QueryFor(config, ips, t6);
    var sub := Submitted(ips);
    if v4.Some? {
      assert q[2] == ("ip", Show(v4.value, t6)) && sub[0] == v4.value;
    }
    if v6.Some? {
      assert q[|q| - 1] == ("ipv6", Show(v6.value, t6)) && sub[|sub| - 1] == v6.value;
    }
  }
}
