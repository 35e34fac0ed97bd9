/**
 * The Porkbun provider (`services::porkbun::Service`): for every configured
 * name, one JSON POST per submitted family to the "edit by name and type"
 * endpoint, addressed by the registered domain and the subdomain of the
 * name. An address is reported as updated when some call for its record
 * type answered with status "SUCCESS".
 */
module Porkbun {
  import opened Wrappers
  import opened Text
  import opened Ip
  import opened Http
  import opened Ddns

  datatype Config = Config(secretApiKey: string, apiKey: string, domains: seq<string>)

  // ---- splitting a name -------------------------------------------------

  /**
   * All labels but the last two, each preceded by '.', with the leading
   * dots removed: the `rev().skip(2)` / `rfold` chain.
   */
  function Subdomain(name: string): string {
    LabelsSubdomain(Split(name, "."))
  }

  /** The subdomain built from the labels of a name. */
  function LabelsSubdomain(labels: seq<string>): string {
    if |labels| <= 2 then "" else TrimStartChar("." + Join(labels[..|labels| - 2], "."), '.')
  }

  /**
   * The subdomain and the registered domain of a name; `None` where the
   * source's `unwrap` panics because the subdomain is not a prefix of the name.
   */
  function SplitName(name: string): Option<(string, string)> {
    var sub := Subdomain(name);
    match StripPrefix(name, sub)
    case None => None
    case Some(rest) => Some((sub, TrimStartChar(rest, '.')))
  }

  /** Labels of a well-formed name: non-empty and without '.'. */
  predicate Labels(labels: seq<string>) {
    forall i :: 0 <= i < |labels| ==> labels[i] != [] && '.' !in labels[i]
  }

  /** A text that does not start with `c` has nothing to trim. */
  lemma TrimNothing(s: string, c: char)
    requires s != [] && s[0] != c
    ensures TrimStartChar(s, c) == s
  {
  }

  /** One leading '.' before a text that does not start with '.' is trimmed away. */
  lemma DropDot(s: string)
    requires s != [] && s[0] != '.'
    ensures TrimStartChar("." + s, '.') == s
  {
    assert ("." + s)[1..] == s;
    TrimNothing(s, '.');
  }

  /** A join starts with the first character of its first part. */
  lemma JoinStarts(parts: seq<string>, sep: string)
    requires parts != [] && parts[0] != []
    ensures Join(parts, sep) != [] && Join(parts, sep)[0] == parts[0][0]
  {
  }

  /** The subdomain of a name of three or more well-formed labels is all the labels but the last two. */
  lemma SubdomainOfLong(labels: seq<string>)
    requires |labels| >= 3 && Labels(labels)
    ensures Subdomain(Join(labels, ".")) == Join(labels[..|labels| - 2], ".")
  {
    var name, front := Join(labels, "."), labels[..|labels| - 2];
    SplitJoin(labels, '.');
    JoinStarts(front, ".");
    DropDot(Join(front, "."));
  }

  /** A name of three or more labels is the join of its front labels, '.', and its last two labels. */
  lemma JoinLong(labels: seq<string>)
    requires |labels| >= 3
    ensures Join(labels, ".") == Join(labels[..|labels| - 2], ".") + ("." + (labels[|labels| - 2] + "." + labels[|labels| - 1]))
  {
    var n := |labels|;
    var front, last2 := labels[..n - 2], labels[n - 2..];
    assert labels == front + last2;
    JoinAppend(front, last2, ".");
    assert last2[0] == labels[n - 2] && last2[1..] == [labels[n - 1]];
    var domain := labels[n - 2] + "." + labels[n - 1];
    assert Join(last2, ".") == domain;
    StrAssoc(Join(front, "."), ".", domain);
  }

  /** Appending in two steps is appending the concatenation. */
  lemma StrAssoc(a: string, b: string, c: string)
    ensures a + b + c == a + (b + c)
  {
  }

  /** The split of a name whose subdomain is known, followed by '.' and a domain not starting with '.'. */
  lemma SplitAfter(name: string, sub: string, domain: string)
    requires Subdomain(name) == sub && name == sub + ("." + domain)
    requires domain != [] && domain[0] != '.'
    ensures SplitName(name) == Some((sub, domain))
  {
    assert StripPrefix(name, sub) == Some("." + domain);
    DropDot(domain);
  }

  /**
   * For a name of three or more well-formed labels, the registered domain
   * is the last two labels and the subdomain the rest (`JoinLong` joins
   * them back into the name).
   */
  lemma SplitLongName(labels: seq<string>)
    requires |labels| >= 3 && Labels(labels)
    ensures SplitName(Join(labels, ".")) ==
      Some((Join(labels[..|labels| - 2], "."), labels[|labels| - 2] + "." + labels[|labels| - 1]))
  {
    var name, sub, domain := Join(labels, "."), Join(labels[..|labels| - 2], "."), labels[|labels| - 2] + "." + labels[|labels| - 1];
    LongSplitParts(labels, name, sub, domain);
    SplitAfter(name, sub, domain);
  }

  /** The name, subdomain and registered domain of a long well-formed name, as `SplitAfter` needs them. */
  lemma LongSplitParts(labels: seq<string>, name: string, sub: string, domain: string)
    requires |labels| >= 3 && Labels(labels)
    requires name == Join(labels, ".") && sub == Join(labels[..|labels| - 2], ".")
    requires domain == labels[|labels| - 2] + "." + labels[|labels| - 1]
    ensures Subdomain(name) == sub && name == sub + ("." + domain)
    ensures domain != [] && domain[0] != '.'
  {
    SubdomainOfLong(labels);
    JoinLong(labels);
    DomainStart(labels);
  }

  /** The registered domain of a long well-formed name does not start with '.'. */
  lemma DomainStart(labels: seq<string>)
    requires |labels| >= 3 && Labels(labels)
    ensures labels[|labels| - 2] + "." + labels[|labels| - 1] != []
    ensures (labels[|labels| - 2] + "." + labels[|labels| - 1])[0] != '.'
  {
  }

  /** A name of two well-formed labels has no subdomain and is its own registered domain. */
  lemma SplitShortName(a: string, b: string)
    requires Labels([a, b])
    ensures SplitName(a + "." + b) == Some(("", a + "." + b))
  {
    SplitJoin([a, b], '.');
    assert Join([a, b], ".") == a + "." + b;
    TrimNothing(a + "." + b, '.');
  }

  /** The labels of a name with a leading '.': an empty one, then the rest. */
  lemma LeadingDotLabels(labels: seq<string>)
    requires |labels| >= 1 && Labels(labels)
    ensures Split("." + Join(labels, "."), ".") == [""] + labels
  {
    var all := [""] + labels;
    assert forall i :: 0 <= i < |all| ==> '.' !in all[i];
    SplitJoin(all, '.');
    JoinAppend([""], labels, ".");
  }

  /** With a leading '.', the subdomain loses that dot and keeps the labels but the last two. */
  lemma LeadingDotSubdomain(labels: seq<string>)
    requires |labels| >= 3 && Labels(labels)
    ensures Subdomain("." + Join(labels, ".")) == Join(labels[..|labels| - 2], ".")
  {
    var n := |labels|;
    LeadingDotLabels(labels);
    var inner := Join(labels[..n - 2], ".");
    LeadingFront(labels);
    JoinStarts(labels[..n - 2], ".");
    assert ("." + ("." + inner))[1..] == "." + inner;
    DropDot(inner);
  }

  /** The front labels of a name with a leading '.', joined, start with that '.'. */
  lemma LeadingFront(labels: seq<string>)
    requires |labels| >= 3
    ensures var n := |labels|;
      Join(([""] + labels)[..n - 1], ".") == "." + Join(labels[..n - 2], ".")
  {
    var n := |labels|;
    assert ([""] + labels)[..n - 1] == [""] + labels[..n - 2];
    JoinAppend([""], labels[..n - 2], ".");
  }

  /** A name with a leading '.' and three or more labels after it makes the source panic. */
  lemma LeadingDotPanics(labels: seq<string>)
    requires |labels| >= 3 && Labels(labels)
    ensures SplitName("." + Join(labels, ".")) == None
  {
    var inner := Join(labels[..|labels| - 2], ".");
    LeadingDotSubdomain(labels);
    JoinStarts(labels[..|labels| - 2], ".");
    NotPrefix("." + Join(labels, "."), inner);
  }

  /** A text starting with '.' does not start with a text whose first character is another. */
  lemma NotPrefix(name: string, sub: string)
    requires name != [] && name[0] == '.' && sub != [] && sub[0] != '.'
    ensures StripPrefix(name, sub) == None
  {
  }

  /**
   * The split the source evidently intends (its comment promises that the
   * subdomain is always a prefix of the name): leading dots are removed
   * before the name is split. `SplitTrimmedAgrees` states what it gives.
   */
  function SplitTrimmed(name: string): (string, string) {
    TrimmedSplits(name);
    SplitName(TrimStartChar(name, '.')).value
  }

  /**
   * The corrected split is defined for every name, its subdomain is a
   * prefix of the name without leading dots, and it agrees with `SplitName`
   * on every name that does not start with '.'.
   */
  lemma SplitTrimmedAgrees(name: string)
    ensures StartsWith(TrimStartChar(name, '.'), SplitTrimmed(name).0)
    ensures name == [] || name[0] != '.' ==> SplitName(name) == Some(SplitTrimmed(name))
  {
    TrimmedSplits(name);
  }

  /** A name without leading dots always splits: its subdomain is a prefix of it. */
  lemma TrimmedSplits(name: string)
    ensures SplitName(TrimStartChar(name, '.')).Some?
  {
    var t := TrimStartChar(name, '.');
    UndottedSplits(t);
  }

  /** A name that does not start with '.' splits. */
  lemma UndottedSplits(t: string)
    requires t == [] || t[0] != '.'
    ensures SplitName(t).Some?
  {
    var labels := Split(t, ".");
    if |labels| >= 3 {
      var front := Join(labels[..|labels| - 2], ".");
      JoinLong(labels);
      FrontStarts(t, labels, front, "." + (labels[|labels| - 2] + "." + labels[|labels| - 1]));
    }
  }

  /** The front labels of a name that does not start with '.' are its subdomain and a prefix of it. */
  lemma FrontStarts(t: string, labels: seq<string>, front: string, rest: string)
    requires labels == Split(t, ".") && |labels| >= 3 && front == Join(labels[..|labels| - 2], ".")
    requires t == front + rest && (t == [] || t[0] != '.')
    ensures StartsWith(t, Subdomain(t))
  {
    assert Subdomain(t) == TrimStartChar("." + front, '.');
    if front != [] {
      assert t[0] == front[0];
      DropDot(front);
      assert t[..|front|] == front;
    } else {
      assert false;
    }
  }

  /** On the names that make the source panic, the corrected split drops the leading dot and splits the rest. */
  lemma LeadingDotTrimmed(labels: seq<string>)
    requires |labels| >= 3 && Labels(labels)
    ensures var n := |labels|;
      SplitTrimmed("." + Join(labels, ".")) == (Join(labels[..n - 2], "."), labels[n - 2] + "." + labels[n - 1])
  {
    JoinStarts(labels, ".");
    DropDot(Join(labels, "."));
    SplitLongName(labels);
  }

  // ---- one update -------------------------------------------------------

  /** The two record types the provider edits. */
  datatype Kind = A | Aaaa

  function KindName(kind: Kind): string {
    match kind
    case A => "A"
    case Aaaa => "AAAA"
  }

  /** The POST that sets the `kind` record of a split name to `ip`. */
  function EditRequest(config: Config, sub: string, domain: string, kind: Kind, ip: IpAddr, t6: Ipv6Text): Request {
    var url := "https://api.porkbun.com/api/json/v3/dns/editByNameType/" + domain + "/" + KindName(kind) + "/" + sub;
    var body := JObject(map["secretapikey" := JString(config.secretApiKey), "apikey" := JString(config.apiKey),
      "content" := JString(Show(ip, t6))]);
    NewRequest(Post, url).(body := JsonBody(body))
  }

  /**
   * `parse_error`: a client error reports the "message" member of its JSON
   * body (or "(null)"), a server error its status code in decimal, a
   * transport failure its message.
   */
  function ParseError(outcome: Outcome, parse: ParseJson): (e: DdnsUpdateError)
    requires !outcome.Success?
    ensures outcome.Status? && outcome.code >= 500 ==> e == Porkbun(Decimal(outcome.code))
    ensures outcome.Status? && outcome.code < 500 ==> e.Porkbun? || e.Json?
    ensures outcome.Transport? ==> e == TransportError(outcome.message)
  {
    match outcome
    case Status(code, response) =>
      if code < 500 then
        match IntoJson(response, parse)
        case Err(message) => Json(message)
        case Ok(json) =>
          var message := StrMember(json, "message");
          Porkbun(if message.Some? then message.value else "(null)")
      else Porkbun(Decimal(code))
    case Transport(message) => TransportError(message)
  }

  /** What one edit call says: whether the record was set, or the error that ends the update. */
  function EditOutcome(outcome: Outcome, parse: ParseJson): (r: Result<bool, DdnsUpdateError>)
    ensures outcome.Success? ==> r.Ok? || r.error.Json?
    ensures !outcome.Success? ==> r == Err(ParseError(outcome, parse))
    ensures r == Ok(true) ==> outcome.Success?
  {
    match outcome
    case Success(response) =>
      (match IntoJson(response, parse)
       case Err(message) => Err(Json(message))
       case Ok(json) => Ok(StrMember(json, "status") == Some("SUCCESS")))
    case _ => Err(ParseError(outcome, parse))
  }

  /** Every name, with its leading dots removed, splits (`AllNamesSplit` proves it for every list). */
  predicate AllSplit(names: seq<string>) {
    forall i :: 0 <= i < |names| ==> SplitName(TrimStartChar(names[i], '.')).Some?
  }

  /** The corrected split never fails. */
  lemma AllNamesSplit(names: seq<string>)
    ensures AllSplit(names)
  {
    forall i | 0 <= i < |names|
      ensures SplitName(TrimStartChar(names[i], '.')).Some?
    {
      TrimmedSplits(names[i]);
    }
  }

  /** The subdomain and registered domain of each name. */
  function Splits(names: seq<string>): (splits: seq<(string, string)>)
    requires AllSplit(names)
    ensures |splits| == |names|
  {
    seq(|names|, i requires 0 <= i < |names| => SplitTrimmed(names[i]))
  }

  /** One edit call: the request sent and what its answer means. */
  datatype Call = Call(request: Request, answer: Result<bool, DdnsUpdateError>)

  /** The edit call that sets the `kind` record of a split name to `ip`. */
  function CallFor(config: Config, split: (string, string), kind: Kind, ip: IpAddr,
    send: Send, parse: ParseJson, t6: Ipv6Text): Call
  {
    var request := EditRequest(config, split.0, split.1, kind, ip, t6);
    Call(request, EditOutcome(send(request), parse))
  }

  /** The calls for one name: the A edit when an IPv4 address was submitted, the AAAA edit when an IPv6 one was. */
  datatype Round = Round(a: Option<Call>, aaaa: Option<Call>)

  function RoundFor(config: Config, split: (string, string), v4: Option<IpAddr>, v6: Option<IpAddr>,
    send: Send, parse: ParseJson, t6: Ipv6Text): (r: Round)
    ensures r.a.Some? <==> v4.Some?
    ensures r.aaaa.Some? <==> v6.Some?
  {
    Round(if v4.Some? then Some(CallFor(config, split, A, v4.value, send, parse, t6)) else None,
          if v6.Some? then Some(CallFor(config, split, Aaaa, v6.value, send, parse, t6)) else None)
  }

  /** The round of each name. */
  function Rounds(config: Config, splits: seq<(string, string)>, v4: Option<IpAddr>, v6: Option<IpAddr>,
    send: Send, parse: ParseJson, t6: Ipv6Text): (rounds: seq<Round>)
    ensures |rounds| == |splits|
  {
    seq(|splits|, i requires 0 <= i < |splits| => RoundFor(config, splits[i], v4, v6, send, parse, t6))
  }

  /** The state of the loop over the names: the two flags, the requests sent, and the error that stopped it. */
  datatype Progress = Progress(v4Ok: bool, v6Ok: bool, sent: seq<Request>, failure: Option<DdnsUpdateError>)

  /** One call, unless an earlier call failed or the family was not submitted: `?` stops at an error, `|=` sets the flag. */
  function Step(p: Progress, kind: Kind, call: Option<Call>): Progress {
    if p.failure.Some? || call.None? then p
    else
      var sent := p.sent + [call.value.request];
      match call.value.answer
      case Err(e) => p.(sent := sent, failure := Some(e))
      case Ok(success) =>
        if kind == A then p.(sent := sent, v4Ok := p.v4Ok || success)
        else p.(sent := sent, v6Ok := p.v6Ok || success)
  }

  /** The calls for one name: the A record, then the AAAA record. */
  function Visit(p: Progress, round: Round): Progress {
    Step(Step(p, A, round.a), Aaaa, round.aaaa)
  }

  /** The loop over the first `k` rounds. */
  function Visits(rounds: seq<Round>, k: nat): Progress
    requires k <= |rounds|
  {
    if k == 0 then Progress(false, false, [], None) else Visit(Visits(rounds, k - 1), rounds[k - 1])
  }

  /** The result: the error that stopped the loop, or each submitted address whose record type was set somewhere. */
  function Final(p: Progress, v4: Option<IpAddr>, v6: Option<IpAddr>): UpdateResult {
    if p.failure.Some? then Err(p.failure.value)
    else Ok(Pushed(if p.v4Ok then v4 else None, if p.v6Ok then v6 else None))
  }

  /** Once a call fails, the later names change nothing: the first error ends the update. */
  lemma {:induction false} FailureSticks(rounds: seq<Round>, k: nat, j: nat)
    requires k <= j <= |rounds|
    requires Visits(rounds, k).failure.Some?
    ensures Visits(rounds, j) == Visits(rounds, k)
    decreases j
  {
    if k < j {
      FailureSticks(rounds, k, j - 1);
    }
  }

  /** The requests of one round, A first. */
  function Requests(round: Round): seq<Request> {
    (if round.a.Some? then [round.a.value.request] else []) + (if round.aaaa.Some? then [round.aaaa.value.request] else [])
  }

  /** The requests of the first `k` rounds, in order. */
  function Planned(rounds: seq<Round>, k: nat): seq<Request>
    requires k <= |rounds|
  {
    if k == 0 then [] else Planned(rounds, k - 1) + Requests(rounds[k - 1])
  }

  /** The call answered "SUCCESS". */
  predicate Confirms(call: Option<Call>) {
    call.Some? && call.value.answer == Ok(true)
  }

  /**
   * When no call fails, the requests sent are all the planned ones in
   * order, and a flag is set exactly when some call of its record type
   * answered "SUCCESS".
   */
  lemma {:induction false} VisitsClean(rounds: seq<Round>, k: nat)
    requires k <= |rounds|
    requires Visits(rounds, k).failure.None?
    ensures var p := Visits(rounds, k);
      p.sent == Planned(rounds, k) &&
      (p.v4Ok <==> exists i :: 0 <= i < k && Confirms(rounds[i].a)) &&
      (p.v6Ok <==> exists i :: 0 <= i < k && Confirms(rounds[i].aaaa))
  {
    if k > 0 {
      var before := Visits(rounds, k - 1);
      VisitClean(before, rounds[k - 1]);
      VisitsClean(rounds, k - 1);
      var p := Visits(rounds, k);
      if p.v4Ok && !Confirms(rounds[k - 1].a) {
        var i :| 0 <= i < k - 1 && Confirms(rounds[i].a);
      }
      if p.v6Ok && !Confirms(rounds[k - 1].aaaa) {
        var i :| 0 <= i < k - 1 && Confirms(rounds[i].aaaa);
      }
    }
  }

  /** A visit that ends without error started without one, sends the round's requests and sets the flags its calls confirm. */
  lemma VisitClean(p: Progress, round: Round)
    requires Visit(p, round).failure.None?
    ensures var q := Visit(p, round);
      p.failure.None? && q.sent == p.sent + Requests(round) &&
      (q.v4Ok <==> p.v4Ok || Confirms(round.a)) && (q.v6Ok <==> p.v6Ok || Confirms(round.aaaa))
  {
  }

  /** The edit of the `kind` record of one split name answered with status "SUCCESS". */
  predicate Confirmed(config: Config, split: (string, string), kind: Kind, ip: IpAddr,
    send: Send, parse: ParseJson, t6: Ipv6Text)
  {
    EditOutcome(send(EditRequest(config, split.0, split.1, kind, ip, t6)), parse) == Ok(true)
  }

  /** The requests of one name: its A edit, then its AAAA edit, each when that family was submitted. */
  lemma RoundRequests(config: Config, split: (string, string), v4: Option<IpAddr>, v6: Option<IpAddr>,
    send: Send, parse: ParseJson, t6: Ipv6Text)
    ensures Requests(RoundFor(config, split, v4, v6, send, parse, t6))
      == (if v4.Some? then [EditRequest(config, split.0, split.1, A, v4.value, t6)] else [])
       + (if v6.Some? then [EditRequest(config, split.0, split.1, Aaaa, v6.value, t6)] else [])
  {
  }

  /** A call of a round confirms exactly when its family was submitted and its edit answered "SUCCESS". */
  lemma RoundConfirms(config: Config, splits: seq<(string, string)>, v4: Option<IpAddr>, v6: Option<IpAddr>,
    send: Send, parse: ParseJson, t6: Ipv6Text, i: nat)
    requires i < |splits|
    ensures var round := Rounds(config, splits, v4, v6, send, parse, t6)[i];
      (Confirms(round.a) <==> v4.Some? && Confirmed(config, splits[i], A, v4.value, send, parse, t6)) &&
      (Confirms(round.aaaa) <==> v6.Some? && Confirmed(config, splits[i], Aaaa, v6.value, send, parse, t6))
  {
  }

  /** Some A edit confirmed exactly when some round's A call confirms. */
  lemma ConfirmedA(config: Config, splits: seq<(string, string)>, v4: Option<IpAddr>, v6: Option<IpAddr>,
    send: Send, parse: ParseJson, t6: Ipv6Text)
    ensures var rounds := Rounds(config, splits, v4, v6, send, parse, t6);
      (exists i :: 0 <= i < |rounds| && Confirms(rounds[i].a))
      <==> v4.Some? && exists i :: 0 <= i < |splits| && Confirmed(config, splits[i], A, v4.value, send, parse, t6)
  {
    var rounds := Rounds(config, splits, v4, v6, send, parse, t6);
    if exists i :: 0 <= i < |rounds| && Confirms(rounds[i].a) {
      var i :| 0 <= i < |rounds| && Confirms(rounds[i].a);
      RoundConfirms(config, splits, v4, v6, send, parse, t6, i);
    }
    if v4.Some? && exists i :: 0 <= i < |splits| && Confirmed(config, splits[i], A, v4.value, send, parse, t6) {
      var i :| 0 <= i < |splits| && Confirmed(config, splits[i], A, v4.value, send, parse, t6);
      RoundConfirms(config, splits, v4, v6, send, parse, t6, i);
    }
  }

  /** Some AAAA edit confirmed exactly when some round's AAAA call confirms. */
  lemma ConfirmedAaaa(config: Config, splits: seq<(string, string)>, v4: Option<IpAddr>, v6: Option<IpAddr>,
    send: Send, parse: ParseJson, t6: Ipv6Text)
    ensures var rounds := Rounds(config, splits, v4, v6, send, parse, t6);
      (exists i :: 0 <= i < |rounds| && Confirms(rounds[i].aaaa))
      <==> v6.Some? && exists i :: 0 <= i < |splits| && Confirmed(config, splits[i], Aaaa, v6.value, send, parse, t6)
  {
    var rounds := Rounds(config, splits, v4, v6, send, parse, t6);
    if exists i :: 0 <= i < |rounds| && Confirms(rounds[i].aaaa) {
      var i :| 0 <= i < |rounds| && Confirms(rounds[i].aaaa);
      RoundConfirms(config, splits, v4, v6, send, parse, t6, i);
    }
    if v6.Some? && exists i :: 0 <= i < |splits| && Confirmed(config, splits[i], Aaaa, v6.value, send, parse, t6) {
      var i :| 0 <= i < |splits| && Confirmed(config, splits[i], Aaaa, v6.value, send, parse, t6);
      RoundConfirms(config, splits, v4, v6, send, parse, t6, i);
    }
  }

  /**
   * When no call fails, `update_record` reports the first submitted IPv4
   * address exactly when some A edit answered "SUCCESS", and the first
   * IPv6 address exactly when some AAAA edit did, IPv4 first.
   */
  lemma Reported(config: Config, ips: seq<IpAddr>, send: Send, parse: ParseJson, t6: Ipv6Text)
    ensures AllSplit(config.domains)
    ensures var splits := Splits(config.domains);
      var v4, v6 := FirstV4(ips), FirstV6(ips);
      var rounds := Rounds(config, splits, v4, v6, send, parse, t6);
      var p := Visits(rounds, |rounds|);
      p.failure.None? ==>
        p.sent == Planned(rounds, |rounds|) &&
        Final(p, v4, v6) == Ok(Pushed(
          if v4.Some? && exists i :: 0 <= i < |splits| && Confirmed(config, splits[i], A, v4.value, send, parse, t6) then v4 else None,
          if v6.Some? && exists i :: 0 <= i < |splits| && Confirmed(config, splits[i], Aaaa, v6.value, send, parse, t6) then v6 else None))
  {
    AllNamesSplit(config.domains);
    var splits := Splits(config.domains);
    var v4, v6 := FirstV4(ips), FirstV6(ips);
    var rounds := Rounds(config, splits, v4, v6, send, parse, t6);
    var p := Visits(rounds, |rounds|);
    if p.failure.None? {
      VisitsClean(rounds, |rounds|);
      ConfirmedA(config, splits, v4, v6, send, parse, t6);
      ConfirmedAaaa(config, splits, v4, v6, send, parse, t6);
    }
  }

  /** The round of the `i`th name is the calls for its corrected split. */
  lemma RoundAt(config: Config, names: seq<string>, v4: Option<IpAddr>, v6: Option<IpAddr>,
    send: Send, parse: ParseJson, t6: Ipv6Text, i: nat)
    requires i < |names| && AllSplit(names)
    ensures Rounds(config, Splits(names), v4, v6, send, parse, t6)[i]
      == RoundFor(config, SplitTrimmed(names[i]), v4, v6, send, parse, t6)
  {
  }

  /**
   * `update_record`: the loop over the names, stopping at the first error.
   * Every name splits (the corrected split), so the loop runs over all of them.
   */
  method UpdateRecord(config: Config, ips: seq<IpAddr>, send: Send, parse: ParseJson, t6: Ipv6Text)
    returns (r: UpdateResult, sent: seq<Request>)
    ensures AllSplit(config.domains)
    ensures var rounds := Rounds(config, Splits(config.domains), FirstV4(ips), FirstV6(ips), send, parse, t6);
      var p := Visits(rounds, |rounds|);
      r == Final(p, FirstV4(ips), FirstV6(ips)) && sent == p.sent
  {
    AllNamesSplit(config.domains);
    r, sent := UpdateNames(config, ips, send, parse, t6);
  }

  /** The loop of `update_record` over names that all split. */
  method UpdateNames(config: Config, ips: seq<IpAddr>, send: Send, parse: ParseJson, t6: Ipv6Text)
    returns (r: UpdateResult, sent: seq<Request>)
    requires AllSplit(config.domains)
    ensures var rounds := Rounds(config, Splits(config.domains), FirstV4(ips), FirstV6(ips), send, parse, t6);
      var p := Visits(rounds, |rounds|);
      r == Final(p, FirstV4(ips), FirstV6(ips)) && sent == p.sent
  {
    var ipv4 := FirstV4(ips);
    var ipv6 := FirstV6(ips);
    var ipv4Succeeded := false;
    var ipv6Succeeded := false;
    sent := [];
    var names := config.domains;
    ghost var rounds := Rounds(config, Splits(names), ipv4, ipv6, send, parse, t6);

    for i := 0 to |names|
      invariant Visits(rounds, i) == Progress(ipv4Succeeded, ipv6Succeeded, sent, None)
    {
      var (sub, domain) := SplitTrimmed(names[i]);
      RoundAt(config, names, ipv4, ipv6, send, parse, t6, i);
      var failure;
      ipv4Succeeded, ipv6Succeeded, sent, failure :=
        UpdateName(config, sub, domain, ipv4, ipv6, send, parse, t6, ipv4Succeeded, ipv6Succeeded, sent);
      if failure.Some? {
        FailureSticks(rounds, i + 1, |rounds|);
        return Err(failure.value), sent;
      }
    }
    r := Ok(Pushed(if ipv4Succeeded then ipv4 else None, if ipv6Succeeded then ipv6 else None));
  }

  /** The body of the loop for one name: the A record, then the AAAA record, each only when submitted. */
  method UpdateName(config: Config, sub: string, domain: string, ipv4: Option<IpAddr>, ipv6: Option<IpAddr>,
    send: Send, parse: ParseJson, t6: Ipv6Text, v4Ok: bool, v6Ok: bool, sentBefore: seq<Request>)
    returns (ipv4Succeeded: bool, ipv6Succeeded: bool, sent: seq<Request>, failure: Option<DdnsUpdateError>)
    ensures Progress(ipv4Succeeded, ipv6Succeeded, sent, failure)
      == Visit(Progress(v4Ok, v6Ok, sentBefore, None), RoundFor(config, (sub, domain), ipv4, ipv6, send, parse, t6))
  {
    ipv4Succeeded, ipv6Succeeded, sent, failure := v4Ok, v6Ok, sentBefore, None;
    if ipv4.Some? {
      var request := EditRequest(config, sub, domain, A, ipv4.value, t6);
      sent := sent + [request];
      var success := EditOutcome(send(request), parse);
      if success.Err? {
        return ipv4Succeeded, ipv6Succeeded, sent, Some(success.error);
      }
      ipv4Succeeded := ipv4Succeeded || success.value;
    }
    if ipv6.Some? {
      var request := EditRequest(config, sub, domain, Aaaa, ipv6.value, t6);
      sent := sent + [request];
      var success := EditOutcome(send(request), parse);
      if success.Err? {
        return ipv4Succeeded, ipv6Succeeded, sent, Some(success.error);
      }
      ipv6Succeeded := ipv6Succeeded || success.value;
    }
  }
}
