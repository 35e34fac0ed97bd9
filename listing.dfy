/**
 * What the Linode and Cloudflare providers share: reading a JSON list item
 * by item, where an item is kept, skipped or stops the read with an error;
 * and a run of update calls over a list of records, where the first failing
 * call stops the run.
 */
module Listing {
  import opened Wrappers
  import opened Http
  import opened Ddns

  // ---- reading a list ---------------------------------------------------

  /**
   * The first `k` items read in order: an item read as `Ok(Some(t))` is
   * kept, one read as `Ok(None)` is skipped (`continue`), and the first one
   * read as an error stops the read with that error (`return Err` / `?`).
   */
  function Collect<T>(items: seq<Json>, k: nat, one: Json -> Result<Option<T>, DdnsUpdateError>): Result<seq<T>, DdnsUpdateError>
    requires k <= |items|
  {
    if k == 0 then Ok([])
    else match Collect(items, k - 1, one)
      case Err(e) => Err(e)
      case Ok(kept) =>
        match one(items[k - 1])
        case Err(e) => Err(e)
        case Ok(None) => Ok(kept)
        case Ok(Some(t)) => Ok(kept + [t])
  }

  /** The loop of `get_domains`, `get_zones` and both `get_records`: push what is kept, stop at the first error. */
  method CollectAll<T>(items: seq<Json>, one: Json -> Result<Option<T>, DdnsUpdateError>) returns (r: Result<seq<T>, DdnsUpdateError>)
    ensures r == Collect(items, |items|, one)
  {
    var kept := [];
    for i := 0 to |items|
      invariant Collect(items, i, one) == Ok(kept)
    {
      var item := one(items[i]);
      if item.Err? {
        CollectSticks(items, i + 1, |items|, one);
        return Err(item.error);
      }
      if item.value.Some? {
        kept := kept + [item.value.value];
      }
    }
    r := Ok(kept);
  }

  /** Once an item fails, the later items change nothing. */
  lemma {:induction false} CollectSticks<T>(items: seq<Json>, k: nat, j: nat, one: Json -> Result<Option<T>, DdnsUpdateError>)
    requires k <= j <= |items|
    requires Collect(items, k, one).Err?
    ensures Collect(items, j, one) == Collect(items, k, one)
    decreases j
  {
    if k < j {
      CollectSticks(items, k, j - 1, one);
    }
  }

  /**
   * A read succeeds exactly when no item fails; then it keeps every item
   * read as kept, and nothing else.
   */
  lemma {:induction false} CollectOk<T>(items: seq<Json>, k: nat, one: Json -> Result<Option<T>, DdnsUpdateError>)
    requires k <= |items|
    ensures Collect(items, k, one).Ok? <==> forall i :: 0 <= i < k ==> one(items[i]).Ok?
    ensures Collect(items, k, one).Ok? ==>
      |Collect(items, k, one).value| <= k &&
      (forall i :: 0 <= i < k && one(items[i]).Ok? && one(items[i]).value.Some? ==>
        one(items[i]).value.value in Collect(items, k, one).value) &&
      (forall t :: t in Collect(items, k, one).value ==> exists i :: 0 <= i < k && one(items[i]) == Ok(Some(t)))
  {
    if k > 0 {
      CollectOk(items, k - 1, one);
    }
  }

  // ---- records ------------------------------------------------------------

  /** The record types both providers update; other types are passed over. */
  datatype RecordKind = A | Aaaa

  /** The record kind named by a record's "type" member. */
  function KindNamed(name: string): (k: Option<RecordKind>)
    ensures k == Some(A) <==> name == "A"
    ensures k == Some(Aaaa) <==> name == "AAAA"
  {
    if name == "A" then Some(A) else if name == "AAAA" then Some(Aaaa) else None
  }

  // ---- filling the cache ------------------------------------------------

  /** The first `k` records whose name is one of `names`, in order. */
  function Configured<R(!new)>(records: seq<R>, k: nat, names: seq<string>, nameOf: R -> string): (kept: seq<R>)
    requires k <= |records|
    ensures forall r :: r in kept <==> r in records[..k] && nameOf(r) in names
  {
    if k == 0 then []
    else
      var front := Configured(records, k - 1, names, nameOf);
      assert records[..k] == records[..k - 1] + [records[k - 1]];
      if nameOf(records[k - 1]) in names then front + [records[k - 1]] else front
  }

  /** A records request and what it listed. */
  datatype Fetch<R> = Fetch(request: Request, listed: Result<seq<R>, DdnsUpdateError>)

  /** What filling the cache leaves: the records cached, the requests sent, the error that stopped it. */
  datatype Discovery<R> = Discovery(records: seq<R>, sent: seq<Request>, failure: Option<DdnsUpdateError>)

  /**
   * The outer loop of both providers' `update_record` over its first `k`
   * records requests: the records listed with a configured name are cached,
   * and the first request that fails stops the loop (`?`), leaving what was
   * cached before it.
   */
  function Scan<R(!new)>(fetches: seq<Fetch<R>>, k: nat, names: seq<string>, nameOf: R -> string): Discovery<R>
    requires k <= |fetches|
  {
    if k == 0 then Discovery([], [], None)
    else
      var d := Scan(fetches, k - 1, names, nameOf);
      if d.failure.Some? then d
      else
        var f := fetches[k - 1];
        match f.listed
        case Err(e) => d.(sent := d.sent + [f.request], failure := Some(e))
        case Ok(records) =>
          d.(sent := d.sent + [f.request], records := d.records + Configured(records, |records|, names, nameOf))
  }

  /** The requests of the first `k` fetches, in order. */
  function Requests<R>(fetches: seq<Fetch<R>>, k: nat): (requests: seq<Request>)
    requires k <= |fetches|
    ensures |requests| == k && forall i :: 0 <= i < k ==> requests[i] == fetches[i].request
  {
    seq(k, i requires 0 <= i < k => fetches[i].request)
  }

  /** The first request followed by every records request: request `i` of the list is at `1 + i`. */
  lemma SentAfter<R>(request: Request, fetches: seq<Fetch<R>>, sent: seq<Request>)
    requires sent == [request] + Requests(fetches, |fetches|)
    ensures |sent| == 1 + |fetches| && forall i :: 0 <= i < |fetches| ==> sent[1 + i] == fetches[i].request
  {
    var tail := Requests(fetches, |fetches|);
    assert forall i :: 0 <= i < |fetches| ==> sent[1 + i] == tail[i];
  }

  /** Once a records request fails, the later ones change nothing. */
  lemma {:induction false} ScanSticks<R(!new)>(fetches: seq<Fetch<R>>, k: nat, j: nat, names: seq<string>, nameOf: R -> string)
    requires k <= j <= |fetches|
    requires Scan(fetches, k, names, nameOf).failure.Some?
    ensures Scan(fetches, j, names, nameOf) == Scan(fetches, k, names, nameOf)
    decreases j
  {
    if k < j {
      ScanSticks(fetches, k, j - 1, names, nameOf);
    }
  }

  /**
   * The requests sent are the first ones, in order, and all of them when
   * none fails; every cached record has a configured name and was listed
   * by one of the requests sent.
   */
  lemma {:induction false} ScanCaches<R(!new)>(fetches: seq<Fetch<R>>, k: nat, names: seq<string>, nameOf: R -> string)
    requires k <= |fetches|
    ensures var d := Scan(fetches, k, names, nameOf);
      |d.sent| <= k && d.sent == Requests(fetches, |d.sent|) &&
      (d.failure.None? ==> |d.sent| == k) &&
      (forall r :: r in d.records ==> (nameOf(r) in names &&
        exists i :: 0 <= i < |d.sent| && fetches[i].listed.Ok? && r in fetches[i].listed.value))
  {
    if k > 0 {
      ScanCaches(fetches, k - 1, names, nameOf);
      var d := Scan(fetches, k - 1, names, nameOf);
      if d.failure.None? {
        var f := fetches[k - 1];
        if f.listed.Ok? {
          var records := f.listed.value;
          forall r | r in Configured(records, |records|, names, nameOf)
            ensures nameOf(r) in names && r in fetches[k - 1].listed.value
          {
            assert records[..|records|] == records;
          }
        }
      }
    }
  }

  /**
   * Filling an empty cache: the request listing the domains (or zones),
   * then, when it lists them, `Scan` over their records requests.
   */
  function Fill<R(!new)>(request: Request, planned: Result<seq<Fetch<R>>, DdnsUpdateError>, names: seq<string>, nameOf: R -> string): Discovery<R> {
    match planned
    case Err(e) => Discovery([], [request], Some(e))
    case Ok(fetches) =>
      var d := Scan(fetches, |fetches|, names, nameOf);
      d.(sent := [request] + d.sent)
  }

  /**
   * Filling the cache sends the listing request first and, when nothing
   * fails, every records request after it in order; every record it caches
   * has a configured name and was listed by one of the records requests.
   */
  lemma FillCaches<R(!new)>(request: Request, planned: Result<seq<Fetch<R>>, DdnsUpdateError>, names: seq<string>, nameOf: R -> string)
    ensures var d := Fill(request, planned, names, nameOf);
      |d.sent| >= 1 && d.sent[0] == request &&
      (d.failure.None? ==> planned.Ok? && d.sent == [request] + Requests(planned.value, |planned.value|)) &&
      (forall r :: r in d.records ==> (nameOf(r) in names && planned.Ok? &&
        exists i :: 0 <= i < |planned.value| && planned.value[i].listed.Ok? && r in planned.value[i].listed.value))
  {
    if planned.Ok? {
      var fetches := planned.value;
      ScanCaches(fetches, |fetches|, names, nameOf);
    }
  }

  // ---- a run of update calls ----------------------------------------------

  /** One update call: the request sent and the error its answer makes, if any. */
  datatype Call = Call(request: Request, failure: Option<DdnsUpdateError>)

  /** Where a run stands: the requests sent and the error that stopped it. */
  datatype Run = Run(sent: seq<Request>, failure: Option<DdnsUpdateError>)

  /** The first `k` records of a run: a record without a call is passed over; the first failing call stops the run. */
  function Calls(calls: seq<Option<Call>>, k: nat): Run
    requires k <= |calls|
  {
    if k == 0 then Run([], None)
    else
      var run := Calls(calls, k - 1);
      if run.failure.Some? || calls[k - 1].None? then run
      else Run(run.sent + [calls[k - 1].value.request], calls[k - 1].value.failure)
  }

  /** The call of each record, as `put` makes it. */
  function CallsOf<R>(records: seq<R>, put: R -> Option<Call>): (calls: seq<Option<Call>>)
    ensures |calls| == |records|
    ensures forall i :: 0 <= i < |records| ==> calls[i] == put(records[i])
  {
    seq(|records|, i requires 0 <= i < |records| => put(records[i]))
  }

  /** The loop of both providers' `update_record`: each record's call in order, stopping at the first error (`?`). */
  method SendAll<R>(records: seq<R>, put: R -> Option<Call>) returns (sent: seq<Request>, failure: Option<DdnsUpdateError>)
    ensures Run(sent, failure) == Calls(CallsOf(records, put), |records|)
  {
    ghost var calls := CallsOf(records, put);
    sent := [];
    for i := 0 to |records|
      invariant Calls(calls, i) == Run(sent, None)
    {
      var call := put(records[i]);
      if call.Some? {
        sent := sent + [call.value.request];
        if call.value.failure.Some? {
          CallsSticks(calls, i + 1, |calls|);
          return sent, call.value.failure;
        }
      }
    }
    failure := None;
  }

  /** The requests of the calls present among the first `k`, in order. */
  function Present(calls: seq<Option<Call>>, k: nat): (requests: seq<Request>)
    requires k <= |calls|
    ensures |requests| <= k
  {
    if k == 0 then [] else Present(calls, k - 1) + (if calls[k - 1].Some? then [calls[k - 1].value.request] else [])
  }

  /** Once a call fails, the later records change nothing. */
  lemma {:induction false} CallsSticks(calls: seq<Option<Call>>, k: nat, j: nat)
    requires k <= j <= |calls|
    requires Calls(calls, k).failure.Some?
    ensures Calls(calls, j) == Calls(calls, k)
    decreases j
  {
    if k < j {
      CallsSticks(calls, k, j - 1);
    }
  }

  /**
   * A run ends without error exactly when no call fails, and then it has
   * sent every present call's request in order; otherwise its error is the
   * error of a call it sent.
   */
  lemma {:induction false} CallsClean(calls: seq<Option<Call>>, k: nat)
    requires k <= |calls|
    ensures Calls(calls, k).failure.None? <==> forall i :: 0 <= i < k && calls[i].Some? ==> calls[i].value.failure.None?
    ensures Calls(calls, k).failure.None? ==> Calls(calls, k).sent == Present(calls, k)
    ensures Calls(calls, k).failure.Some? ==>
      exists i :: 0 <= i < k && calls[i].Some? && calls[i].value.failure == Calls(calls, k).failure
  {
    if k > 0 {
      CallsClean(calls, k - 1);
    }
  }
}
