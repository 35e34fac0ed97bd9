/**
 * The Cloudflare provider (`services::cloudflare::Service`). While its
 * cache is empty, an update lists the zones the token may both read and
 * edit DNS records in, then the records of each zone, and caches the A and
 * AAAA records whose name is configured. Every update then sets each cached
 * record to the first submitted address of its family. Zone and record ids
 * are 128-bit numbers written in hexadecimal.
 */
module Cloudflare {
  import opened Wrappers
  import opened Bytes
  import opened Text
  import opened Ip
  import opened Http
  import opened Ddns
  import opened Listing

  /** One more than the largest `u128`. */
  const U128: nat := 0x1_0000_0000_0000_0000_0000_0000_0000_0000

  datatype Config = Config(ttl: uint32, proxied: bool, token: string, domains: seq<string>)

  /** A record of a zone, under its name. */
  datatype Record = Record(zoneId: nat, id: nat, domain: string, kind: RecordKind)

  // ---- answers ---------------------------------------------------------------

  /** `code as u32`: the low 32 bits of the code. */
  function Truncate32(code: nat): (c: uint32)
    ensures code < 0x1_0000_0000 ==> c == code
    ensures (c - code) % 0x1_0000_0000 == 0
  {
    code % 0x1_0000_0000
  }

  /** `parse_error`: the "code" (cut to 32 bits) and "message" of the first entry of "errors", or why they cannot be read. */
  function ErrorFields(response: Response, parse: ParseJson): (r: Result<(uint32, string), string>)
    ensures r.Ok? ==> IntoJson(response, parse).Ok?
  {
    match IntoJson(response, parse)
    case Err(e) => Err("unable to parse response as JSON:" + e)
    case Ok(json) =>
      match Member(json, "errors")
      case None => Err("expected map")
      case Some(errors) =>
        match Index(errors, 0)
        case None => Err("expected array")
        case Some(error) =>
          match Member(error, "code")
          case None => Err("expected number")
          case Some(code) =>
            match AsU64(code)
            case None => Err("expected number")
            case Some(n) =>
              match StrMember(error, "message")
              case None => Err("expected string")
              case Some(message) => Ok((Truncate32(n), message))
  }

  /** The sanity check of a successful answer: its "success" member is `true`. */
  predicate Succeeded(json: Json) {
    Member(json, "success") == Some(JBool(true))
  }

  /** `parse_and_check_response`: the JSON of a success that reports success, or the error an outcome makes. */
  function CheckResponse(outcome: Outcome, parse: ParseJson): (r: Result<Json, DdnsUpdateError>)
    ensures r.Ok? <==> outcome.Success? && IntoJson(outcome.response, parse).Ok? && Succeeded(IntoJson(outcome.response, parse).value)
    ensures r.Ok? ==> r.value == IntoJson(outcome.response, parse).value
    ensures outcome.Success? && r.Err? ==> r.error.Json?
    ensures outcome.Status? ==> r.Err? && (r.error.Cloudflare? || r.error.Json?)
    ensures outcome.Status? && r.error.Cloudflare? ==> ErrorFields(outcome.response, parse) == Ok((r.error.code, r.error.message))
    ensures outcome.Transport? ==> r == Err(TransportError(outcome.message))
  {
    match outcome
    case Success(response) =>
      (match IntoJson(response, parse)
       case Err(e) => Err(Json(e))
       case Ok(json) =>
         if Succeeded(json) then Ok(json) else Err(Json("cloudflare returned success=false?")))
    case Status(_, response) =>
      (match ErrorFields(response, parse)
       case Err(e) => Err(Json("unexpected error message structure - " + e))
       case Ok((code, message)) => Err(Cloudflare(code, message)))
    case Transport(message) => Err(TransportError(message))
  }

  /** The "result" array of a checked answer. */
  function Results(answer: Result<Json, DdnsUpdateError>, empty: string): (r: Result<seq<Json>, DdnsUpdateError>)
    ensures answer.Err? ==> r == Err(answer.error)
    ensures answer.Ok? && r.Ok? ==> Member(answer.value, "result") == Some(JArray(r.value))
  {
    match answer
    case Err(e) => Err(e)
    case Ok(json) =>
      match Member(json, "result")
      case Some(JArray(items)) => Ok(items)
      case _ => Err(Json(empty))
  }

  /** `get_zones` and `get_records` up to their loop: the checked answer's "result" array. */
  method ReadList(outcome: Outcome, parse: ParseJson, empty: string) returns (r: Result<seq<Json>, DdnsUpdateError>)
    ensures r == Results(CheckResponse(outcome, parse), empty)
  {
    var answer := CheckResponse(outcome, parse);
    if answer.Err? {
      return Err(answer.error);
    }
    var result := Member(answer.value, "result");
    if result.Some? && result.value.JArray? {
      r := Ok(result.value.items);
    } else {
      r := Err(Json(empty));
    }
  }

  // ---- zones ---------------------------------------------------------------

  /** The GET that lists the zones. */
  function ZonesRequest(token: string): Request {
    Set(Set(NewRequest(Get, "https://api.cloudflare.com/client/v4/zones/"), "Content-Type", "application/json"), "Authorization", token)
  }

  /** A permission as `get_zones` reads it: its text, or "" when it is not a string. */
  function PermissionText(permission: Json): string {
    if permission.JString? then permission.s else ""
  }

  /** A permission on DNS records whose text mentions `word`. */
  predicate Grants(permission: Json, word: string) {
    var text := PermissionText(permission);
    StartsWith(text, "#dns_records") && Contains(text, word)
  }

  /** Some permission of the list grants `word` on DNS records. */
  predicate Granted(permissions: seq<Json>, word: string) {
    exists i :: 0 <= i < |permissions| && Grants(permissions[i], word)
  }

  /**
   * One entry of the zone list: a zone with a string "id" whose
   * "permissions" array grants both reading and editing DNS records is kept,
   * its id read as a hexadecimal `u128`; a zone without such an array, or
   * without both grants, is passed over.
   */
  function ReadZone(item: Json): (r: Result<Option<nat>, DdnsUpdateError>)
    ensures r.Ok? && r.value.Some? ==> r.value.value < U128
    ensures r.Ok? && r.value.Some? ==>
      Member(item, "permissions").Some? && Member(item, "permissions").value.JArray? &&
      Granted(Member(item, "permissions").value.items, "read") &&
      Granted(Member(item, "permissions").value.items, "edit")
  {
    match StrMember(item, "id")
    case None => Err(Json("zone has no id?"))
    case Some(id) =>
      match Member(item, "permissions")
      case Some(JArray(permissions)) =>
        if Granted(permissions, "read") && Granted(permissions, "edit") then
          match ParseUnsigned(id, 16, U128)
          case None => Err(Json("id is not a u128 number"))
          case Some(n) => Ok(Some(n))
        else Ok(None)
      case _ => Ok(None)
  }

  /** Some permission among the first `k` grants `word` on DNS records. */
  predicate GrantedBefore(permissions: seq<Json>, k: nat, word: string)
    requires k <= |permissions|
  {
    k > 0 && (GrantedBefore(permissions, k - 1, word) || Grants(permissions[k - 1], word))
  }

  /** Looking through all the permissions finds a grant exactly when there is one. */
  lemma {:induction false} GrantedBeforeAll(permissions: seq<Json>, k: nat, word: string)
    requires k <= |permissions|
    ensures GrantedBefore(permissions, k, word) <==> exists i :: 0 <= i < k && Grants(permissions[i], word)
  {
    if k > 0 {
      GrantedBeforeAll(permissions, k - 1, word);
    }
  }

  /** The loop over a zone's permissions: whether one grants reading DNS records, and whether one grants editing them. */
  method Permissions(permissions: seq<Json>) returns (canRead: bool, canEdit: bool)
    ensures canRead <==> Granted(permissions, "read")
    ensures canEdit <==> Granted(permissions, "edit")
  {
    canRead, canEdit := false, false;
    for i := 0 to |permissions|
      invariant canRead == GrantedBefore(permissions, i, "read")
      invariant canEdit == GrantedBefore(permissions, i, "edit")
    {
      var text := PermissionText(permissions[i]);
      if StartsWith(text, "#dns_records") {
        if Contains(text, "read") {
          canRead := true;
        }
        if Contains(text, "edit") {
          canEdit := true;
        }
      }
    }
    GrantedBeforeAll(permissions, |permissions|, "read");
    GrantedBeforeAll(permissions, |permissions|, "edit");
  }

  /** The body of `get_zones`' loop for one zone. */
  method ZoneOf(item: Json) returns (r: Result<Option<nat>, DdnsUpdateError>)
    ensures r == ReadZone(item)
  {
    var id := StrMember(item, "id");
    if id.None? {
      return Err(Json("zone has no id?"));
    }
    var permissions := Member(item, "permissions");
    if permissions.None? || !permissions.value.JArray? {
      return Ok(None);
    }
    var canRead, canEdit := Permissions(permissions.value.items);
    if canRead && canEdit {
      var n := ParseUnsigned(id.value, 16, U128);
      if n.None? {
        return Err(Json("id is not a u128 number"));
      }
      return Ok(Some(n.value));
    }
    r := Ok(None);
  }

  /** `get_zones` after its request: the ids of the zones kept, or the error that stops the listing. */
  function ListedZones(outcome: Outcome, parse: ParseJson): Result<seq<nat>, DdnsUpdateError> {
    match Results(CheckResponse(outcome, parse), "cloudflare returned 0 zones")
    case Err(e) => Err(e)
    case Ok(items) => Collect(items, |items|, ReadZone)
  }

  /** `get_zones` after its request. */
  method GetZones(outcome: Outcome, parse: ParseJson) returns (r: Result<seq<nat>, DdnsUpdateError>)
    ensures r == ListedZones(outcome, parse)
  {
    var listed := ReadList(outcome, parse, "cloudflare returned 0 zones");
    if listed.Err? {
      return Err(listed.error);
    }
    var items := listed.value;
    var ids := [];
    for i := 0 to |items|
      invariant Collect(items, i, ReadZone) == Ok(ids)
    {
      var zone := ZoneOf(items[i]);
      if zone.Err? {
        CollectSticks(items, i + 1, |items|, ReadZone);
        return Err(zone.error);
      }
      if zone.value.Some? {
        ids := ids + [zone.value.value];
      }
    }
    r := Ok(ids);
  }

  // ---- records ---------------------------------------------------------------

  /** `{:x}`: lower-case hexadecimal without leading zeros. */
  function Hex(n: nat): string { ToRadix(n, 16, false) }

  /** The GET that lists the DNS records of a zone. */
  function RecordsRequest(token: string, zoneId: nat): Request {
    var url := "https://api.cloudflare.com/client/v4/zones/" + Hex(zoneId) + "/dns_records";
    Set(Set(NewRequest(Get, url), "Content-Type", "application/json"), "Authorization", token)
  }

  /**
   * One entry of a record list: a string "id" read as a hexadecimal `u128`,
   * a "name" and a "type"; records other than A and AAAA are passed over.
   */
  function ReadRecord(zoneId: nat, item: Json): (r: Result<Option<Record>, DdnsUpdateError>)
    ensures r.Ok? && r.value.Some? ==> r.value.value.zoneId == zoneId && r.value.value.id < U128
  {
    match StrMember(item, "id")
    case None => Err(Json("record has no id?"))
    case Some(id) =>
      match ParseUnsigned(id, 16, U128)
      case None => Err(Json("id is not a u128 number"))
      case Some(n) =>
        match StrMember(item, "name")
        case None => Err(Json("record has no name?"))
        case Some(name) =>
          match StrMember(item, "type")
          case None => Err(Json("record has no type?"))
          case Some(ty) =>
            match KindNamed(ty)
            case None => Ok(None)
            case Some(kind) => Ok(Some(Record(zoneId, n, name, kind)))
  }

  /** `get_records` after its request: the A and AAAA records of the answer, or the error that stops the listing. */
  function ListedRecords(zoneId: nat, outcome: Outcome, parse: ParseJson): Result<seq<Record>, DdnsUpdateError> {
    match Results(CheckResponse(outcome, parse), "cloudflare returned 0 records")
    case Err(e) => Err(e)
    case Ok(items) => Collect(items, |items|, item => ReadRecord(zoneId, item))
  }

  /** `get_records` after its request. */
  method GetRecords(zoneId: nat, outcome: Outcome, parse: ParseJson) returns (r: Result<seq<Record>, DdnsUpdateError>)
    ensures r == ListedRecords(zoneId, outcome, parse)
  {
    var listed := ReadList(outcome, parse, "cloudflare returned 0 records");
    if listed.Err? {
      return Err(listed.error);
    }
    r := CollectAll(listed.value, item => ReadRecord(zoneId, item));
  }

  /** Every record `get_records` lists belongs to the zone asked about. */
  lemma ListedInZone(zoneId: nat, outcome: Outcome, parse: ParseJson)
    ensures var listed := ListedRecords(zoneId, outcome, parse);
      listed.Ok? ==> forall r :: r in listed.value ==> r.zoneId == zoneId
  {
    var data := Results(CheckResponse(outcome, parse), "cloudflare returned 0 records");
    if data.Ok? {
      var one := item => ReadRecord(zoneId, item);
      CollectOk(data.value, |data.value|, one);
    }
  }

  /** The hexadecimal id a records URL carries reads back as the zone id it was written from. */
  lemma HexReadsBack(n: nat)
    requires n < U128
    ensures ParseUnsigned(Hex(n), 16, U128) == Some(n)
  {
    var s := Hex(n);
    assert DigitValue(s[0], 16).Some?;
  }

  // ---- filling the cache -------------------------------------------------------

  /** The name a record is cached under. */
  function NameOf(record: Record): string { record.domain }

  /** `get_records` for one zone. */
  function FetchFor(config: Config, zoneId: nat, send: Send, parse: ParseJson): (f: Fetch<Record>)
    ensures f.request == RecordsRequest(config.token, zoneId)
  {
    var request := RecordsRequest(config.token, zoneId);
    Fetch(request, ListedRecords(zoneId, send(request), parse))
  }

  /** The records request of each listed zone, had each been sent. */
  function Fetches(config: Config, zones: seq<nat>, send: Send, parse: ParseJson): (fetches: seq<Fetch<Record>>)
    ensures |fetches| == |zones|
    ensures forall i :: 0 <= i < |zones| ==> fetches[i] == FetchFor(config, zones[i], send, parse)
  {
    seq(|zones|, i requires 0 <= i < |zones| => FetchFor(config, zones[i], send, parse))
  }

  /** The records request of each zones kept, or the error of the listing request. */
  function Planned(config: Config, send: Send, parse: ParseJson): (planned: Result<seq<Fetch<Record>>, DdnsUpdateError>)
    ensures var listed := ListedZones(send(ZonesRequest(config.token)), parse);
      planned.Ok? <==> listed.Ok?
    ensures var listed := ListedZones(send(ZonesRequest(config.token)), parse);
      listed.Ok? ==> planned.value == Fetches(config, listed.value, send, parse)
  {
    match ListedZones(send(ZonesRequest(config.token)), parse)
    case Err(e) => Err(e)
    case Ok(zones) => Ok(Fetches(config, zones, send, parse))
  }

  /** Filling an empty cache: the zones request, then a records request per zone listed. */
  function Discover(config: Config, send: Send, parse: ParseJson): Discovery<Record> {
    Fill(ZonesRequest(config.token), Planned(config, send, parse), config.domains, NameOf)
  }

  /**
   * Filling the cache starts with the zones request and, when nothing
   * fails, goes on with one records request per zone listed, in order.
   */
  lemma DiscoverRequests(config: Config, send: Send, parse: ParseJson)
    ensures var d := Discover(config, send, parse);
      |d.sent| >= 1 && d.sent[0] == ZonesRequest(config.token) &&
      (d.failure.None? ==>
        var zones := ListedZones(send(ZonesRequest(config.token)), parse).value;
        |d.sent| == 1 + |zones| &&
        forall i :: 0 <= i < |zones| ==> d.sent[1 + i] == RecordsRequest(config.token, zones[i]))
  {
    var request := ZonesRequest(config.token);
    var planned := Planned(config, send, parse);
    FillCaches(request, planned, config.domains, NameOf);
    var d := Fill(request, planned, config.domains, NameOf);
    if d.failure.None? {
      PlannedRequests(config, send, parse);
      SentAfter(request, planned.value, d.sent);
    }
  }

  /** The records requests planned are one per zone listed, in order. */
  lemma PlannedRequests(config: Config, send: Send, parse: ParseJson)
    ensures var planned := Planned(config, send, parse);
      planned.Ok? ==>
        var zones := ListedZones(send(ZonesRequest(config.token)), parse).value;
        |planned.value| == |zones| &&
        forall i :: 0 <= i < |zones| ==> planned.value[i].request == RecordsRequest(config.token, zones[i])
  {
  }

  /** Every record filling the cache caches has a configured name and belongs to a zone kept. */
  lemma DiscoverRecords(config: Config, send: Send, parse: ParseJson)
    ensures var d := Discover(config, send, parse);
      var listed := ListedZones(send(ZonesRequest(config.token)), parse);
      forall r :: r in d.records ==> (r.domain in config.domains && listed.Ok? && r.zoneId in listed.value)
  {
    var request := ZonesRequest(config.token);
    var planned := Planned(config, send, parse);
    FillCaches(request, planned, config.domains, NameOf);
    var d := Fill(request, planned, config.domains, NameOf);
    forall r | r in d.records
      ensures r.domain in config.domains && r.zoneId in ListedZones(send(request), parse).value
    {
      assert NameOf(r) in config.domains;
      var zones := ListedZones(send(request), parse).value;
      var i :| 0 <= i < |planned.value| && planned.value[i].listed.Ok? && r in planned.value[i].listed.value;
      var f := FetchFor(config, zones[i], send, parse);
      assert planned.value[i] == f;
      ListedInZone(zones[i], send(f.request), parse);
    }
  }

  // ---- updating the records ----------------------------------------------------

  /** The name of the record type an address goes in. */
  function TypeOf(ip: IpAddr): string {
    if ip.V4? then "A" else "AAAA"
  }

  /** The PUT that sets a record's content to `ip`, restating its name, type, proxying and time to live. */
  function PutRequest(config: Config, record: Record, ip: IpAddr, t6: Ipv6Text): (q: Request)
    ensures q.verb == Put && q.body.JsonBody? && q.body.json.JObject?
    ensures Member(q.body.json, "content") == Some(JString(Show(ip, t6)))
    ensures Member(q.body.json, "name") == Some(JString(record.domain))
    ensures Member(q.body.json, "type") == Some(JString(TypeOf(ip)))
  {
    var url := "https://api.cloudflare.com/client/v4/zones/" + Hex(record.zoneId) + "/dns_records/" + Hex(record.id);
    var body := JObject(map[
      "content" := JString(Show(ip, t6)),
      "name" := JString(record.domain),
      "proxied" := JBool(config.proxied),
      "type" := JString(TypeOf(ip)),
      "ttl" := JInt(config.ttl)]);
    Set(NewRequest(Put, url), "Authorization", config.token).(body := JsonBody(body))
  }

  /** `put_record`: the request and the error its answer makes, if any. */
  function PutCall(config: Config, record: Record, ip: IpAddr, send: Send, parse: ParseJson, t6: Ipv6Text): (c: Call)
    ensures c.request == PutRequest(config, record, ip, t6)
  {
    var request := PutRequest(config, record, ip, t6);
    Call(request, match CheckResponse(send(request), parse) case Err(e) => Some(e) case Ok(_) => None)
  }

  /** The call a cached record gets: an A record the IPv4 address, an AAAA record the IPv6 address, when submitted. */
  function CallFor(config: Config, record: Record, v4: Option<IpAddr>, v6: Option<IpAddr>,
    send: Send, parse: ParseJson, t6: Ipv6Text): (c: Option<Call>)
    ensures c.Some? <==> (record.kind == A && v4.Some?) || (record.kind == Aaaa && v6.Some?)
    ensures record.kind == A && v4.Some? ==> c.value.request == PutRequest(config, record, v4.value, t6)
    ensures record.kind == Aaaa && v6.Some? ==> c.value.request == PutRequest(config, record, v6.value, t6)
  {
    if record.kind == A && v4.Some? then Some(PutCall(config, record, v4.value, send, parse, t6))
    else if record.kind == Aaaa && v6.Some? then Some(PutCall(config, record, v6.value, send, parse, t6))
    else None
  }

  /** The branch of `update_record`'s loop each cached record takes. */
  function PutFor(config: Config, v4: Option<IpAddr>, v6: Option<IpAddr>, send: Send, parse: ParseJson, t6: Ipv6Text): Record -> Option<Call> {
    record => CallFor(config, record, v4, v6, send, parse, t6)
  }

  /**
   * With the submitted addresses, each update call restates its record's
   * own type: an A record is sent an IPv4 address, an AAAA record an IPv6
   * one, so the type Cloudflare is told never changes.
   */
  lemma PutsKeepType(config: Config, records: seq<Record>, ips: seq<IpAddr>, send: Send, parse: ParseJson, t6: Ipv6Text)
    ensures var calls := CallsOf(records, PutFor(config, FirstV4(ips), FirstV6(ips), send, parse, t6));
      forall i :: 0 <= i < |records| && calls[i].Some? ==>
        Member(calls[i].value.request.body.json, "type") == Some(JString(if records[i].kind == A then "A" else "AAAA")) &&
        Member(calls[i].value.request.body.json, "name") == Some(JString(records[i].domain))
  {
    var v4, v6 := FirstV4(ips), FirstV6(ips);
    var calls := CallsOf(records, PutFor(config, v4, v6, send, parse, t6));
    forall i | 0 <= i < |records| && calls[i].Some?
      ensures Member(calls[i].value.request.body.json, "type") == Some(JString(if records[i].kind == A then "A" else "AAAA"))
      ensures Member(calls[i].value.request.body.json, "name") == Some(JString(records[i].domain))
    {
      var c := CallFor(config, records[i], v4, v6, send, parse, t6);
      assert calls[i] == c;
      if records[i].kind == A {
        assert v4.value.V4?;
      } else {
        assert !v6.value.V4?;
      }
    }
  }

  /** The result after the calls: the first error, or the submitted addresses. */
  function Reported(run: Run, ips: seq<IpAddr>): UpdateResult {
    if run.failure.Some? then Err(run.failure.value) else Ok(Submitted(ips))
  }

  class Service {
    const config: Config
    var cachedRecords: seq<Record>

    /** `Service::from`: the token becomes a bearer authorisation; the cache starts empty. */
    constructor FromConfig(config: Config)
      ensures this.config == config.(token := Bearer(config.token))
      ensures cachedRecords == [] && CacheConfigured()
    {
      this.config := config.(token := Bearer(config.token));
      cachedRecords := [];
    }

    /** Every cached record has a configured name. */
    predicate CacheConfigured()
      reads this
    {
      forall r :: r in cachedRecords ==> r.domain in config.domains
    }

    /**
     * `update_record`: fill the cache when it is empty, then send each
     * cached record's call in order, stopping at the first error. `sent`
     * lists the requests sent.
     */
    method UpdateRecord(ips: seq<IpAddr>, send: Send, parse: ParseJson, t6: Ipv6Text)
      returns (r: UpdateResult, sent: seq<Request>)
      modifies this
      ensures var d := if old(cachedRecords) == [] then Discover(config, send, parse) else Discovery(old(cachedRecords), [], None);
        cachedRecords == d.records &&
        (d.failure.Some? ==> r == Err(d.failure.value) && sent == d.sent) &&
        (d.failure.None? ==>
          var run := Calls(CallsOf(d.records, PutFor(config, FirstV4(ips), FirstV6(ips), send, parse, t6)), |d.records|);
          sent == d.sent + run.sent && r == Reported(run, ips))
      ensures old(CacheConfigured()) ==> CacheConfigured()
    {
      sent := [];
      if cachedRecords == [] {
        var failure;
        failure, sent := FillCache(send, parse);
        DiscoverRecords(config, send, parse);
        if failure.Some? {
          return Err(failure.value), sent;
        }
      }
      var ipv4 := FirstV4(ips);
      var ipv6 := FirstV6(ips);
      var puts, failure := SendAll(cachedRecords, PutFor(config, ipv4, ipv6, send, parse, t6));
      sent := sent + puts;
      if failure.Some? {
        return Err(failure.value), sent;
      }
      var result := PushEach(ipv4, ipv6);
      r := Ok(result);
    }

    /** The two nested loops that fill an empty cache. */
    method FillCache(send: Send, parse: ParseJson) returns (failure: Option<DdnsUpdateError>, sent: seq<Request>)
      requires cachedRecords == []
      modifies this
      ensures Discovery(cachedRecords, sent, failure) == Discover(config, send, parse)
    {
      var request := ZonesRequest(config.token);
      var zones := GetZones(send(request), parse);
      if zones.Err? {
        return Some(zones.error), [request];
      }
      var all := zones.value;
      ghost var fetches := Fetches(config, all, send, parse);
      var scanned := [];
      for i := 0 to |all|
        invariant Scan(fetches, i, config.domains, NameOf) == Discovery(cachedRecords, scanned, None)
      {
        scanned, failure := ScanZone(all, i, send, parse, scanned);
        if failure.Some? {
          ScanSticks(fetches, i + 1, |all|, config.domains, NameOf);
          return failure, [request] + scanned;
        }
      }
      return None, [request] + scanned;
    }

    /** The body of the outer loop for the zone at `i`: `get_records`, then the inner loop. */
    method ScanZone(zones: seq<nat>, i: nat, send: Send, parse: ParseJson, scannedBefore: seq<Request>)
      returns (scanned: seq<Request>, failure: Option<DdnsUpdateError>)
      requires i < |zones|
      requires Scan(Fetches(config, zones, send, parse), i, config.domains, NameOf) == Discovery(cachedRecords, scannedBefore, None)
      modifies this
      ensures Scan(Fetches(config, zones, send, parse), i + 1, config.domains, NameOf) == Discovery(cachedRecords, scanned, failure)
    {
      var request := RecordsRequest(config.token, zones[i]);
      var listed := GetRecords(zones[i], send(request), parse);
      scanned := scannedBefore + [request];
      if listed.Err? {
        return scanned, Some(listed.error);
      }
      PushConfigured(listed.value);
      failure := None;
    }

    /** The inner loop: push each listed record whose name is configured. */
    method PushConfigured(records: seq<Record>)
      modifies this
      ensures cachedRecords == old(cachedRecords) + Configured(records, |records|, config.domains, NameOf)
    {
      for j := 0 to |records|
        invariant cachedRecords == old(cachedRecords) + Configured(records, j, config.domains, NameOf)
      {
        if records[j].domain in config.domains {
          cachedRecords := cachedRecords + [records[j]];
        }
      }
    }
  }
}
