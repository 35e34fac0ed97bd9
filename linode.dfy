/**
 * The Linode provider (`services::linode::Service`). On its first update,
 * and on any update while its cache is empty, it lists the account's
 * domains, then the records of each domain, and caches the A and AAAA
 * records whose fully qualified name is configured. Every update then
 * sets each cached record to the first submitted address of its family.
 */
module Linode {
  import opened Wrappers
  import opened Bytes
  import opened Text
  import opened Ip
  import opened Http
  import opened Ddns
  import opened Listing

  datatype Config = Config(token: string, domains: seq<string>, ttl: uint32)

  /** A domain of the account. */
  datatype Domain = Domain(id: nat, name: string)

  /** A record of a domain, under its fully qualified name. */
  datatype Record = Record(id: nat, domainId: nat, name: string, kind: RecordKind)

  // ---- answers ---------------------------------------------------------------

  /** `parse_error`: the "field" (or "") and "reason" of the first entry of "errors", or why they cannot be read. */
  function ErrorFields(response: Response, parse: ParseJson): (r: Result<(string, string), string>)
    ensures r.Ok? ==> IntoJson(response, parse).Ok?
  {
    match IntoJson(response, parse)
    case Err(e) => Err("unable to parse response as JSON:" + e)
    case Ok(json) =>
      match Member(json, "errors")
      case None => Err("expected map")
      case Some(errors) =>
        match Index(errors, 0)
        case None => Err("expected array")
        case Some(error) =>
          var field := StrMember(error, "field");
          match StrMember(error, "reason")
          case None => Err("expected string")
          case Some(reason) => Ok((if field.Some? then field.value else "", reason))
  }

  /** The message of a Linode error: the reason, followed by the field when there is one. */
  function ErrorMessage(field: string, reason: string): (m: string)
    ensures field == [] ==> m == reason
    ensures field != [] ==> |m| > |reason| && m[..|reason|] == reason
  {
    if field == [] then reason else reason + " (field = " + field + ")"
  }

  /** `parse_and_check_response`: the JSON of a success, or the error an outcome makes. */
  function CheckResponse(outcome: Outcome, parse: ParseJson): (r: Result<Json, DdnsUpdateError>)
    ensures r.Ok? <==> outcome.Success? && IntoJson(outcome.response, parse).Ok?
    ensures r.Ok? ==> r.value == IntoJson(outcome.response, parse).value
    ensures outcome.Success? && r.Err? ==> r.error.Json?
    ensures outcome.Status? ==> r.Err? && (r.error.Linode? || r.error.Json?)
    ensures outcome.Status? && r.error.Linode? ==> ErrorFields(outcome.response, parse).Ok?
    ensures outcome.Transport? ==> r == Err(TransportError(outcome.message))
  {
    match outcome
    case Success(response) =>
      (match IntoJson(response, parse)
       case Err(e) => Err(Json(e))
       case Ok(json) => Ok(json))
    case Status(_, response) =>
      (match ErrorFields(response, parse)
       case Err(e) => Err(Json("unexpected error message structure - " + e))
       case Ok((field, reason)) => Err(Linode(ErrorMessage(field, reason))))
    case Transport(message) => Err(TransportError(message))
  }

  /** The "data" array of a checked answer. */
  function Data(answer: Result<Json, DdnsUpdateError>, empty: string): (r: Result<seq<Json>, DdnsUpdateError>)
    ensures answer.Err? ==> r == Err(answer.error)
    ensures answer.Ok? && r.Ok? ==> Member(answer.value, "data") == Some(JArray(r.value))
  {
    match answer
    case Err(e) => Err(e)
    case Ok(json) =>
      match Member(json, "data")
      case Some(JArray(items)) => Ok(items)
      case _ => Err(Json(empty))
  }

  // ---- listing domains and records ------------------------------------------

  /** The GET that lists the domains. */
  function DomainsRequest(token: string): Request {
    Set(Set(NewRequest(Get, "https://api.linode.com/v4/domains"), "Content-Type", "application/json"), "Authorization", token)
  }

  /** The GET that lists the records of a domain. */
  function RecordsRequest(token: string, domainId: nat): Request {
    var url := "https://api.linode.com/v4/domains/" + Decimal(domainId) + "/records";
    Set(Set(NewRequest(Get, url), "Content-Type", "application/json"), "Authorization", token)
  }

  /** One entry of the domain list: a numeric "id" that fits in 64 bits and a "domain" name. */
  function ReadDomain(item: Json): (r: Result<Option<Domain>, DdnsUpdateError>)
    ensures r.Ok? ==> r.value.Some? && r.value.value.id < 0x1_0000_0000_0000_0000
  {
    match Member(item, "id")
    case None => Err(Json("domain has no id?"))
    case Some(id) =>
      if !IsNumber(id) then Err(Json("domain has no id?"))
      else
        match AsU64(id)
        case None => Err(Json("cannot convert domain ID to u64"))
        case Some(n) =>
          match StrMember(item, "domain")
          case None => Err(Json("domain has no domain name?"))
          case Some(name) => Ok(Some(Domain(n, name)))
  }

  /** The name a record is cached under. */
  function NameOf(record: Record): string { record.name }

  /** The fully qualified name of a record named `name` in `domain`: the domain itself for an empty name. */
  function Fqdn(name: string, domain: string): (fqdn: string)
    ensures name == [] ==> fqdn == domain
    ensures name != [] ==> fqdn == name + "." + domain
  {
    if name == [] then domain else name + "." + domain
  }

  /**
   * One entry of a record list: a numeric "id" that fits in 64 bits, a
   * "name" and a "type"; records other than A and AAAA are passed over.
   */
  function ReadRecord(domain: Domain, item: Json): (r: Result<Option<Record>, DdnsUpdateError>)
    ensures r.Ok? && r.value.Some? ==> r.value.value.domainId == domain.id && r.value.value.id < 0x1_0000_0000_0000_0000
  {
    match Member(item, "id")
    case None => Err(Json("record has no id?"))
    case Some(id) =>
      if !IsNumber(id) then Err(Json("record has no id?"))
      else
        match AsU64(id)
        case None => Err(Json("id is not a u64 number"))
        case Some(n) =>
          match StrMember(item, "name")
          case None => Err(Json("record has no name?"))
          case Some(name) =>
            match StrMember(item, "type")
            case None => Err(Json("record has no type?"))
            case Some(ty) =>
              match KindNamed(ty)
              case None => Ok(None)
              case Some(kind) => Ok(Some(Record(n, domain.id, Fqdn(name, domain.name), kind)))
  }

  /** `get_domains` after its request: the domains of the answer, or the error that stops the listing. */
  function ListedDomains(outcome: Outcome, parse: ParseJson): Result<seq<Domain>, DdnsUpdateError> {
    match Data(CheckResponse(outcome, parse), "linode returned 0 domains")
    case Err(e) => Err(e)
    case Ok(items) => Collect(items, |items|, ReadDomain)
  }

  /** `get_records` after its request: the A and AAAA records of the answer, or the error that stops the listing. */
  function ListedRecords(domain: Domain, outcome: Outcome, parse: ParseJson): Result<seq<Record>, DdnsUpdateError> {
    match Data(CheckResponse(outcome, parse), "linode returned 0 records")
    case Err(e) => Err(e)
    case Ok(items) => Collect(items, |items|, item => ReadRecord(domain, item))
  }

  /** `get_records` for one domain. */
  function FetchFor(config: Config, domain: Domain, send: Send, parse: ParseJson): (f: Fetch<Record>)
    ensures f.request == RecordsRequest(config.token, domain.id)
    ensures f.listed.Ok? ==> forall r :: r in f.listed.value ==> r.domainId == domain.id
  {
    var request := RecordsRequest(config.token, domain.id);
    var listed := ListedRecords(domain, send(request), parse);
    if listed.Ok? then
      ListedInDomain(domain, send(request), parse);
      Fetch(request, listed)
    else Fetch(request, listed)
  }

  /** Every record `get_records` lists belongs to the domain asked about. */
  lemma ListedInDomain(domain: Domain, outcome: Outcome, parse: ParseJson)
    ensures var listed := ListedRecords(domain, outcome, parse);
      listed.Ok? ==> forall r :: r in listed.value ==> r.domainId == domain.id
  {
    var data := Data(CheckResponse(outcome, parse), "linode returned 0 records");
    if data.Ok? {
      var one := item => ReadRecord(domain, item);
      CollectOk(data.value, |data.value|, one);
    }
  }

  /** The records request of each listed domain, had each been sent. */
  function Fetches(config: Config, domains: seq<Domain>, send: Send, parse: ParseJson): (fetches: seq<Fetch<Record>>)
    ensures |fetches| == |domains|
    ensures forall i :: 0 <= i < |domains| ==> fetches[i] == FetchFor(config, domains[i], send, parse)
  {
    seq(|domains|, i requires 0 <= i < |domains| => FetchFor(config, domains[i], send, parse))
  }

  /** The records request of each domains, or the error of the listing request. */
  function Planned(config: Config, send: Send, parse: ParseJson): (planned: Result<seq<Fetch<Record>>, DdnsUpdateError>)
    ensures var listed := ListedDomains(send(DomainsRequest(config.token)), parse);
      planned.Ok? <==> listed.Ok?
    ensures var listed := ListedDomains(send(DomainsRequest(config.token)), parse);
      listed.Ok? ==> planned.value == Fetches(config, listed.value, send, parse)
  {
    match ListedDomains(send(DomainsRequest(config.token)), parse)
    case Err(e) => Err(e)
    case Ok(domains) => Ok(Fetches(config, domains, send, parse))
  }

  /** Filling an empty cache: the domains request, then a records request per domain listed. */
  function Discover(config: Config, send: Send, parse: ParseJson): Discovery<Record> {
    Fill(DomainsRequest(config.token), Planned(config, send, parse), config.domains, NameOf)
  }

  /**
   * Filling the cache starts with the domains request and, when nothing
   * fails, goes on with one records request per domain listed, in order.
   */
  lemma DiscoverRequests(config: Config, send: Send, parse: ParseJson)
    ensures var d := Discover(config, send, parse);
      |d.sent| >= 1 && d.sent[0] == DomainsRequest(config.token) &&
      (d.failure.None? ==>
        var domains := ListedDomains(send(DomainsRequest(config.token)), parse).value;
        |d.sent| == 1 + |domains| &&
        forall i :: 0 <= i < |domains| ==> d.sent[1 + i] == RecordsRequest(config.token, domains[i].id))
  {
    var request := DomainsRequest(config.token);
    var planned := Planned(config, send, parse);
    FillCaches(request, planned, config.domains, NameOf);
    var d := Fill(request, planned, config.domains, NameOf);
    if d.failure.None? {
      PlannedRequests(config, send, parse);
      SentAfter(request, planned.value, d.sent);
    }
  }

  /** The records requests planned are one per domain listed, in order. */
  lemma PlannedRequests(config: Config, send: Send, parse: ParseJson)
    ensures var planned := Planned(config, send, parse);
      planned.Ok? ==>
        var domains := ListedDomains(send(DomainsRequest(config.token)), parse).value;
        |planned.value| == |domains| &&
        forall i :: 0 <= i < |domains| ==> planned.value[i].request == RecordsRequest(config.token, domains[i].id)
  {
  }

  /** Every record filling the cache caches has a configured name and belongs to a listed domain. */
  lemma DiscoverRecords(config: Config, send: Send, parse: ParseJson)
    ensures var d := Discover(config, send, parse);
      var listed := ListedDomains(send(DomainsRequest(config.token)), parse);
      forall r :: r in d.records ==> (r.name in config.domains &&
        listed.Ok? && exists i :: 0 <= i < |listed.value| && r.domainId == listed.value[i].id)
  {
    var request := DomainsRequest(config.token);
    var planned := Planned(config, send, parse);
    FillCaches(request, planned, config.domains, NameOf);
    var d := Fill(request, planned, config.domains, NameOf);
    forall r | r in d.records
      ensures r.name in config.domains
      ensures exists i :: 0 <= i < |ListedDomains(send(request), parse).value| && r.domainId == ListedDomains(send(request), parse).value[i].id
    {
      assert NameOf(r) in config.domains;
      var domains := ListedDomains(send(request), parse).value;
      var i :| 0 <= i < |planned.value| && planned.value[i].listed.Ok? && r in planned.value[i].listed.value;
      assert planned.value[i] == FetchFor(config, domains[i], send, parse);
      assert r.domainId == domains[i].id;
    }
  }

  // ---- updating the records -------------------------------------------------

  /** The PUT that sets a record's target to `ip`, with the configured time to live. */
  function PutRequest(config: Config, record: Record, ip: IpAddr, t6: Ipv6Text): (q: Request)
    ensures q.verb == Put && q.body.JsonBody?
    ensures q.body.json == JObject(map["target" := JString(Show(ip, t6)), "ttl_sec" := JInt(config.ttl)])
  {
    var url := "https://api.linode.com/v4/domains/" + Decimal(record.domainId) + "/records/" + Decimal(record.id);
    var body := JObject(map["target" := JString(Show(ip, t6)), "ttl_sec" := JInt(config.ttl)]);
    Set(NewRequest(Put, url), "Authorization", config.token).(body := JsonBody(body))
  }

  /** `put_record`: the request and the error its answer makes, if any. */
  function PutCall(config: Config, record: Record, ip: IpAddr, send: Send, parse: ParseJson, t6: Ipv6Text): (c: Call)
    ensures c.request == PutRequest(config, record, ip, t6)
  {
    var request := PutRequest(config, record, ip, t6);
    Call(request, match CheckResponse(send(request), parse) case Err(e) => Some(e) case Ok(_) => None)
  }

  /** The call a cached record gets: an A record the IPv4 address, an AAAA record the IPv6 address, when submitted. */
  function CallFor(config: Config, record: Record, v4: Option<IpAddr>, v6: Option<IpAddr>,
    send: Send, parse: ParseJson, t6: Ipv6Text): (c: Option<Call>)
    ensures c.Some? <==> (record.kind == A && v4.Some?) || (record.kind == Aaaa && v6.Some?)
    ensures record.kind == A && v4.Some? ==> c.value.request == PutRequest(config, record, v4.value, t6)
    ensures record.kind == Aaaa && v6.Some? ==> c.value.request == PutRequest(config, record, v6.value, t6)
  {
    if v4.Some? && record.kind == A then Some(PutCall(config, record, v4.value, send, parse, t6))
    else if v6.Some? && record.kind == Aaaa then Some(PutCall(config, record, v6.value, send, parse, t6))
    else None
  }

  /** The branch of `update_record`'s loop each cached record takes. */
  function PutFor(config: Config, v4: Option<IpAddr>, v6: Option<IpAddr>, send: Send, parse: ParseJson, t6: Ipv6Text): Record -> Option<Call> {
    record => CallFor(config, record, v4, v6, send, parse, t6)
  }

  /**
   * The update calls: one per cached record whose family was submitted,
   * an A record set to the IPv4 address and an AAAA record to the IPv6
   * address; the run fails exactly when one of them fails, and otherwise
   * has sent all of them in order.
   */
  lemma PutsMatchFamilies(config: Config, records: seq<Record>, v4: Option<IpAddr>, v6: Option<IpAddr>,
    send: Send, parse: ParseJson, t6: Ipv6Text)
    ensures var calls := CallsOf(records, PutFor(config, v4, v6, send, parse, t6));
      var run := Calls(calls, |records|);
      (forall i :: 0 <= i < |records| ==>
        (calls[i].Some? <==> (records[i].kind == A && v4.Some?) || (records[i].kind == Aaaa && v6.Some?)) &&
        (records[i].kind == A && v4.Some? ==> calls[i].value.request == PutRequest(config, records[i], v4.value, t6)) &&
        (records[i].kind == Aaaa && v6.Some? ==> calls[i].value.request == PutRequest(config, records[i], v6.value, t6))) &&
      (run.failure.None? <==> forall i :: 0 <= i < |records| && calls[i].Some? ==> calls[i].value.failure.None?) &&
      (run.failure.None? ==> run.sent == Present(calls, |records|))
  {
    var calls := CallsOf(records, PutFor(config, v4, v6, send, parse, t6));
    CallsClean(calls, |records|);
    forall i | 0 <= i < |records|
      ensures calls[i] == CallFor(config, records[i], v4, v6, send, parse, t6)
    {
    }
  }

  /** The result after the calls: the first error, or the submitted addresses. */
  function Reported(run: Run, ips: seq<IpAddr>): UpdateResult {
    if run.failure.Some? then Err(run.failure.value) else Ok(Submitted(ips))
  }

  class Service {
    const config: Config
    var cachedRecords: seq<Record>

    /** `Service::from`: the token becomes a bearer authorisation; the cache starts empty. */
    constructor FromConfig(config: Config)
      ensures this.config == config.(token := Bearer(config.token))
      ensures cachedRecords == [] && CacheConfigured()
    {
      this.config := config.(token := Bearer(config.token));
      cachedRecords := [];
    }

    /** Every cached record has a configured name. */
    predicate CacheConfigured()
      reads this
    {
      forall r :: r in cachedRecords ==> r.name in config.domains
    }

    /**
     * `update_record`: fill the cache when it is empty, then send each
     * cached record's call in order, stopping at the first error. `sent`
     * lists the requests sent.
     */
    method UpdateRecord(ips: seq<IpAddr>, send: Send, parse: ParseJson, t6: Ipv6Text)
      returns (r: UpdateResult, sent: seq<Request>)
      modifies this
      ensures var d := if old(cachedRecords) == [] then Discover(config, send, parse) else Discovery(old(cachedRecords), [], None);
        cachedRecords == d.records &&
        (d.failure.Some? ==> r == Err(d.failure.value) && sent == d.sent) &&
        (d.failure.None? ==>
          var run := Calls(CallsOf(d.records, PutFor(config, FirstV4(ips), FirstV6(ips), send, parse, t6)), |d.records|);
          sent == d.sent + run.sent && r == Reported(run, ips))
      ensures old(CacheConfigured()) ==> CacheConfigured()
    {
      sent := [];
      if cachedRecords == [] {
        var failure;
        failure, sent := FillCache(send, parse);
        DiscoverRecords(config, send, parse);
        if failure.Some? {
          return Err(failure.value), sent;
        }
      }
      var ipv4 := FirstV4(ips);
      var ipv6 := FirstV6(ips);
      var puts, failure := SendAll(cachedRecords, PutFor(config, ipv4, ipv6, send, parse, t6));
      sent := sent + puts;
      if failure.Some? {
        return Err(failure.value), sent;
      }
      var result := PushEach(ipv4, ipv6);
      r := Ok(result);
    }

    /** The two nested loops that fill an empty cache. */
    method FillCache(send: Send, parse: ParseJson) returns (failure: Option<DdnsUpdateError>, sent: seq<Request>)
      requires cachedRecords == []
      modifies this
      ensures Discovery(cachedRecords, sent, failure) == Discover(config, send, parse)
    {
      var request := DomainsRequest(config.token);
      var domains := GetDomains(send(request), parse);
      if domains.Err? {
        return Some(domains.error), [request];
      }
      var all := domains.value;
      ghost var fetches := Fetches(config, all, send, parse);
      var scanned := [];
      for i := 0 to |all|
        invariant Scan(fetches, i, config.domains, NameOf) == Discovery(cachedRecords, scanned, None)
      {
        scanned, failure := ScanDomain(all, i, send, parse, scanned);
        if failure.Some? {
          ScanSticks(fetches, i + 1, |all|, config.domains, NameOf);
          return failure, [request] + scanned;
        }
      }
      return None, [request] + scanned;
    }

    /** The body of the outer loop for the domain at `i`: `get_records`, then the inner loop. */
    method ScanDomain(domains: seq<Domain>, i: nat, send: Send, parse: ParseJson, scannedBefore: seq<Request>)
      returns (scanned: seq<Request>, failure: Option<DdnsUpdateError>)
      requires i < |domains|
      requires Scan(Fetches(config, domains, send, parse), i, config.domains, NameOf) == Discovery(cachedRecords, scannedBefore, None)
      modifies this
      ensures Scan(Fetches(config, domains, send, parse), i + 1, config.domains, NameOf) == Discovery(cachedRecords, scanned, failure)
    {
      var domain := domains[i];
      var request := RecordsRequest(config.token, domain.id);
      var listed := GetRecords(domain, send(request), parse);
      scanned := scannedBefore + [request];
      if listed.Err? {
        return scanned, Some(listed.error);
      }
      PushConfigured(listed.value);
      failure := None;
    }

    /** The inner loop: push each listed record whose name is configured. */
    method PushConfigured(records: seq<Record>)
      modifies this
      ensures cachedRecords == old(cachedRecords) + Configured(records, |records|, config.domains, NameOf)
    {
      for j := 0 to |records|
        invariant cachedRecords == old(cachedRecords) + Configured(records, j, config.domains, NameOf)
      {
        if records[j].name in config.domains {
          cachedRecords := cachedRecords + [records[j]];
        }
      }
    }
  }

  /** `get_domains` and `get_records` up to their loop: the checked answer's "data" array. */
  method ReadList(outcome: Outcome, parse: ParseJson, empty: string) returns (r: Result<seq<Json>, DdnsUpdateError>)
    ensures r == Data(CheckResponse(outcome, parse), empty)
  {
    var answer := CheckResponse(outcome, parse);
    if answer.Err? {
      return Err(answer.error);
    }
    var data := Member(answer.value, "data");
    if data.Some? && data.value.JArray? {
      r := Ok(data.value.items);
    } else {
      r := Err(Json(empty));
    }
  }

  /** `get_domains` after its request. */
  method GetDomains(outcome: Outcome, parse: ParseJson) returns (r: Result<seq<Domain>, DdnsUpdateError>)
    ensures r == ListedDomains(outcome, parse)
  {
    var listed := ReadList(outcome, parse, "linode returned 0 domains");
    if listed.Err? {
      return Err(listed.error);
    }
    r := CollectAll(listed.value, ReadDomain);
  }

  /** `get_records` after its request. */
  method GetRecords(domain: Domain, outcome: Outcome, parse: ParseJson) returns (r: Result<seq<Record>, DdnsUpdateError>)
    ensures r == ListedRecords(domain, outcome, parse)
  {
    var listed := ReadList(outcome, parse, "linode returned 0 records");
    if listed.Err? {
      return Err(listed.error);
    }
    r := CollectAll(listed.value, item => ReadRecord(domain, item));
  }
}
