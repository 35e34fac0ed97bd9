/**
 * The program of `main.rs`: startup (the configuration text and its hash,
 * the persistent state, the addresses to keep up to date and the check of
 * the services' references to them) and the loop (refresh every address,
 * call each service one of whose addresses is dirty, rebuild the persistent
 * state, and stop after one cycle when no update rate is set).
 *
 * Reading files and the clock, parsing the TOML text and the services' own
 * update calls are outside the model: the file contents, the parsed
 * configuration, the clock readings and what the outside world reports to
 * each address are parameters, and a cycle reports the service calls it
 * makes, with their arguments, instead of making them.
 */
module Main {
  import opened Wrappers
  import opened Bytes
  import opened Ip
  import opened DynamicIp
  import opened Persistence
  import Utf8

  /**
   * What the program takes from the parsed configuration: the `[ip.*]`
   * entries, the order in which that map iterates, each `[ddns.*]` entry's
   * name with the names of its addresses (in the order the services map
   * iterates), and the update rate in seconds (`None` for fire-once).
   */
  datatype Settings = Settings(
    ips: map<string, IpConfig>,
    ipOrder: seq<string>,
    ddns: seq<(string, seq<string>)>,
    updateRate: Option<nat>)

  /** Why the program stops before its loop. */
  datatype StartError =
    | NoConfiguration
    | InvalidConfig(message: string)
    | InvalidIpConfig(error: DynamicIpError)
    | NoIps
    | UnknownIps(missing: seq<(string, string)>)

  // ---- the persistent state at startup --------------------------------------

  /** A fresh state for a configuration with hash `hash`, made at time `now`. */
  function FreshState(hash: uint64, now: uint64): StateData {
    StateData(StateVersion, now, hash, map[])
  }

  /**
   * The state the program starts from: the stored one when the file can be
   * opened and read, else a fresh one.
   */
  function Loaded(stored: Option<seq<byte>>, hash: uint64, now: uint64): StateData {
    match stored
    case None => FreshState(hash, now)
    case Some(bytes) => if Decode(bytes).Ok? then Decode(bytes).value else FreshState(hash, now)
  }

  /** `validate_against` on values: a state written for another configuration loses its addresses. */
  function Validated(d: StateData, hash: uint64, now: uint64): StateData {
    if d.configHash == hash then d else d.(configHash := hash, updateTimestamp := now, ipAddresses := map[])
  }

  /**
   * The state the loop starts from is tied to the running configuration,
   * and it carries addresses only when they were read from a file written
   * for this very configuration.
   */
  lemma StartStateBelongs(stored: Option<seq<byte>>, hash: uint64, now: uint64)
    ensures Validated(Loaded(stored, hash, now), hash, now).configHash == hash
    ensures Validated(Loaded(stored, hash, now), hash, now).ipAddresses != map[] ==>
      stored.Some? && Decode(stored.value).Ok? && Decode(stored.value).value.configHash == hash &&
      Validated(Loaded(stored, hash, now), hash, now).ipAddresses == Decode(stored.value).value.ipAddresses
  {
  }

  /** The addresses the stored state holds for configured names: the ones seeded at startup. */
  function Seeds(ips: map<string, IpConfig>, stored: map<string, IpAddr>): (seeds: map<string, IpAddr>)
    ensures seeds.Keys == ips.Keys * stored.Keys
  {
    map name | name in ips && name in stored :: stored[name]
  }

  // ---- the checks before the loop ------------------------------------------------

  /** The failure of the first name among `order[..k]` that `fail` rejects. */
  function FirstFailure<E>(order: seq<string>, fail: string -> Option<E>, k: nat): Option<E>
    requires k <= |order|
    decreases k
  {
    if k == 0 then None
    else if FirstFailure(order, fail, k - 1).Some? then FirstFailure(order, fail, k - 1)
    else fail(order[k - 1])
  }

  /** No failure among the first `k` means none of them is rejected. */
  lemma {:induction false} NoFailure<E>(order: seq<string>, fail: string -> Option<E>, k: nat)
    requires k <= |order|
    ensures FirstFailure(order, fail, k).None? <==> forall i :: 0 <= i < k ==> fail(order[i]).None?
    decreases k
  {
    if k > 0 {
      NoFailure(order, fail, k - 1);
    }
  }

  /** The first rejected entry, after accepted ones only, is the failure reported. */
  lemma FirstFailureAt<E>(order: seq<string>, fail: string -> Option<E>, k: nat)
    requires k < |order| && fail(order[k]).Some?
    requires forall i :: 0 <= i < k ==> fail(order[i]).None?
    ensures FirstFailure(order, fail, |order|) == fail(order[k])
  {
    NoFailure(order, fail, k);
    FailureSticks(order, fail, k + 1, |order|);
  }

  /** Once a failure is found, it stays the first one. */
  lemma {:induction false} FailureSticks<E>(order: seq<string>, fail: string -> Option<E>, k: nat, n: nat)
    requires k <= n <= |order| && FirstFailure(order, fail, k).Some?
    ensures FirstFailure(order, fail, n) == FirstFailure(order, fail, k)
    decreases n - k
  {
    if n > k {
      FailureSticks(order, fail, k, n - 1);
    }
  }

  /** Why the address configuration named `name` is rejected, if it is. */
  function Rejection(s: Settings, t6: Ipv6Text, regexError: string -> Option<string>, name: string): Option<DynamicIpError> {
    if name in s.ips && ServiceFromConfig(s.ips[name], t6, regexError).Err? then
      Some(ServiceFromConfig(s.ips[name], t6, regexError).error)
    else None
  }

  /** The error of the first address configuration, in the map's order, that is rejected. */
  function FirstInvalid(s: Settings, t6: Ipv6Text, regexError: string -> Option<string>): Option<DynamicIpError> {
    FirstFailure(s.ipOrder, name => Rejection(s, t6, regexError, name), |s.ipOrder|)
  }

  /** The references among the first `k` names of `deps` that name no configured address. */
  function MissingIn(service: string, deps: seq<string>, known: set<string>, k: nat): seq<(string, string)>
    requires k <= |deps|
    decreases k
  {
    if k == 0 then []
    else MissingIn(service, deps, known, k - 1) + if deps[k - 1] in known then [] else [(service, deps[k - 1])]
  }

  /** The references of the first `k` services that name no configured address, in order. */
  function Missing(ddns: seq<(string, seq<string>)>, known: set<string>, k: nat): seq<(string, string)>
    requires k <= |ddns|
    decreases k
  {
    if k == 0 then [] else Missing(ddns, known, k - 1) + MissingIn(ddns[k - 1].0, ddns[k - 1].1, known, |ddns[k - 1].1|)
  }

  /** Every address a service names is configured. */
  predicate Resolvable(ddns: seq<(string, seq<string>)>, known: set<string>) {
    forall i, j :: 0 <= i < |ddns| && 0 <= j < |ddns[i].1| ==> ddns[i].1[j] in known
  }

  lemma {:induction false} NoneMissingIn(service: string, deps: seq<string>, known: set<string>, k: nat)
    requires k <= |deps|
    ensures MissingIn(service, deps, known, k) == [] <==> forall j :: 0 <= j < k ==> deps[j] in known
    decreases k
  {
    if k > 0 {
      NoneMissingIn(service, deps, known, k - 1);
    }
  }

  /** Nothing is missing exactly when every reference of the first `k` services is configured. */
  lemma {:induction false} NoneMissing(ddns: seq<(string, seq<string>)>, known: set<string>, k: nat)
    requires k <= |ddns|
    ensures Missing(ddns, known, k) == [] <==>
      forall i, j :: 0 <= i < k && 0 <= j < |ddns[i].1| ==> ddns[i].1[j] in known
    decreases k
  {
    if k > 0 {
      NoneMissing(ddns, known, k - 1);
      NoneMissingIn(ddns[k - 1].0, ddns[k - 1].1, known, |ddns[k - 1].1|);
    }
  }

  /** A reported reference names a service's address that is not configured. */
  lemma {:induction false} MissingAreUnknown(ddns: seq<(string, seq<string>)>, known: set<string>, k: nat, m: nat)
    requires k <= |ddns| && m < |Missing(ddns, known, k)|
    ensures Missing(ddns, known, k)[m].1 !in known
    ensures exists i :: 0 <= i < k && ddns[i].0 == Missing(ddns, known, k)[m].0 && Missing(ddns, known, k)[m].1 in ddns[i].1
    decreases k
  {
    var before := Missing(ddns, known, k - 1);
    if m < |before| {
      MissingAreUnknown(ddns, known, k - 1, m);
    } else {
      MissingInAreUnknown(ddns[k - 1].0, ddns[k - 1].1, known, |ddns[k - 1].1|, m - |before|);
    }
  }

  lemma {:induction false} MissingInAreUnknown(service: string, deps: seq<string>, known: set<string>, k: nat, m: nat)
    requires k <= |deps| && m < |MissingIn(service, deps, known, k)|
    ensures MissingIn(service, deps, known, k)[m].0 == service
    ensures MissingIn(service, deps, known, k)[m].1 !in known && MissingIn(service, deps, known, k)[m].1 in deps
    decreases k
  {
    if m < |MissingIn(service, deps, known, k - 1)| {
      MissingInAreUnknown(service, deps, known, k - 1, m);
    }
  }

  /**
   * How startup ends once the configuration is parsed: the first rejected
   * address configuration, no address at all, or the references naming no
   * configured address; `None` when the loop can start.
   */
  function Verdict(s: Settings, t6: Ipv6Text, regexError: string -> Option<string>): Option<StartError>
    requires IsKeyOrder(s.ipOrder, s.ips)
  {
    var invalid := FirstInvalid(s, t6, regexError);
    if invalid.Some? then Some(InvalidIpConfig(invalid.value))
    else if s.ips == map[] then Some(NoIps)
    else if Missing(s.ddns, s.ips.Keys, |s.ddns|) != [] then Some(UnknownIps(Missing(s.ddns, s.ips.Keys, |s.ddns|)))
    else None
  }

  /**
   * The loop starts exactly when every address configuration is accepted,
   * at least one address is configured and every address a service names is
   * configured.
   */
  lemma StartsWhenSound(s: Settings, t6: Ipv6Text, regexError: string -> Option<string>)
    requires IsKeyOrder(s.ipOrder, s.ips)
    ensures Verdict(s, t6, regexError).None? <==>
      (forall name :: name in s.ips ==> ServiceFromConfig(s.ips[name], t6, regexError).Ok?) &&
      s.ips != map[] && Resolvable(s.ddns, s.ips.Keys)
  {
    var reject := name => Rejection(s, t6, regexError, name);
    NoFailure(s.ipOrder, reject, |s.ipOrder|);
    NoneMissing(s.ddns, s.ips.Keys, |s.ddns|);
    if forall i :: 0 <= i < |s.ipOrder| ==> reject(s.ipOrder[i]).None? {
      forall name | name in s.ips
        ensures ServiceFromConfig(s.ips[name], t6, regexError).Ok?
      {
        var i :| 0 <= i < |s.ipOrder| && s.ipOrder[i] == name;
        assert reject(s.ipOrder[i]).None?;
      }
    }
  }

  // ---- startup --------------------------------------------------------------

  /** Distinct names stand for distinct objects. */
  predicate Distinct(ips: map<string, DynamicIp>) {
    forall a, b :: a in ips && b in ips && a != b ==> ips[a] != ips[b]
  }

  predicate AllValid(ips: map<string, DynamicIp>)
    reads ips.Values
  {
    forall name :: name in ips ==> ips[name].Valid()
  }

  /** What the loop starts with. */
  datatype Started = Started(hash: uint64, state: PersistentState, ips: map<string, DynamicIp>, seeds: map<string, IpAddr>)

  /**
   * Startup. `text` is the configuration file's content (empty when none
   * can be read), `parsed` what the TOML parser makes of it, `stored` the
   * persistent state file's content (`None` when it cannot be opened) and
   * `now` the clock. `DynamicIp::update_from_cache` is not part of this
   * model: the addresses it would be given are returned as `seeds`.
   */
  method Start(text: string, parsed: Result<Settings, string>, stored: Option<seq<byte>>, crc: Crc32, now: uint64,
               t6: Ipv6Text, regexError: string -> Option<string>)
    returns (r: Result<Started, StartError>)
    requires parsed.Ok? ==> IsKeyOrder(parsed.value.ipOrder, parsed.value.ips)
    ensures text == [] ==> r == Err(NoConfiguration)
    ensures text != [] && parsed.Err? ==> r == Err(InvalidConfig(parsed.error))
    ensures text != [] && parsed.Ok? ==>
      match Verdict(parsed.value, t6, regexError)
      case Some(e) => r == Err(e)
      case None => r.Ok?
    ensures r.Ok? ==> text != [] && parsed.Ok?
    ensures r.Ok? ==> r.value.hash == TextHash(text, crc)
    ensures r.Ok? ==>
      r.value.state.Data() == Validated(Loaded(stored, TextHash(text, crc), now), TextHash(text, crc), now)
    ensures r.Ok? ==> r.value.ips.Keys == parsed.value.ips.Keys && Distinct(r.value.ips) && AllValid(r.value.ips)
    ensures r.Ok? ==> Made(r.value.ips, parsed.value, t6, regexError)
    ensures r.Ok? ==> r.value.seeds == Seeds(parsed.value.ips, r.value.state.ipAddresses)
  {
    if text == [] {
      return Err(NoConfiguration);
    }
    var hash := HashBytes(Utf8.Encode(text), crc);
    if parsed.Err? {
      return Err(InvalidConfig(parsed.error));
    }
    var s := parsed.value;
    var state := LoadState(stored, hash, now);
    var same := state.ValidateAgainst(text, crc, now);
    var made := MakeIps(s, t6, regexError);
    if made.Err? {
      return Err(InvalidIpConfig(made.error));
    }
    var ips := made.value;
    var seeds := Seeds(s.ips, state.ipAddresses);
    if ips == map[] {
      return Err(NoIps);
    }
    var missing := CheckReferences(s.ddns, ips.Keys);
    if missing != [] {
      return Err(UnknownIps(missing));
    }
    r := Ok(Started(hash, state, ips, seeds));
  }

  /** Each address is fresh from `DynamicIp::from_config` on its configuration. */
  predicate Made(ips: map<string, DynamicIp>, s: Settings, t6: Ipv6Text, regexError: string -> Option<string>)
    reads ips.Values
  {
    forall name :: name in ips ==>
      name in s.ips && ips[name].State() == Initial &&
      ServiceFromConfig(s.ips[name], t6, regexError).Ok? &&
      ips[name].service == ServiceFromConfig(s.ips[name], t6, regexError).value
  }

  /** The names among the first `k` of `order`. */
  function Listed(order: seq<string>, k: nat): (names: set<string>)
    requires k <= |order|
    ensures forall j :: 0 <= j < k ==> order[j] in names
    decreases k
  {
    if k == 0 then {} else Listed(order, k - 1) + {order[k - 1]}
  }

  /** A name listed only once is not among those before it, and all of a key order lists the map's keys. */
  lemma {:induction false} ListedKeys<V>(order: seq<string>, m: map<string, V>, k: nat)
    requires IsKeyOrder(order, m) && k <= |order|
    ensures forall i :: k <= i < |order| ==> order[i] !in Listed(order, k)
    ensures Listed(order, k) <= m.Keys
    ensures k == |order| ==> Listed(order, k) == m.Keys
    decreases k
  {
    if k > 0 {
      ListedKeys(order, m, k - 1);
    }
    if k == |order| {
      forall name | name in m ensures name in Listed(order, k) {
        var j :| 0 <= j < |order| && order[j] == name;
      }
    }
  }

  /**
   * One pass of the loop over the `[ip.*]` entries: the address named `name`
   * is made from its configuration and added, or its rejection is returned.
   */
  method AddIp(ips: map<string, DynamicIp>, s: Settings, t6: Ipv6Text, regexError: string -> Option<string>,
               name: string)
    returns (r: Result<map<string, DynamicIp>, DynamicIpError>)
    requires name in s.ips && name !in ips
    requires Distinct(ips) && AllValid(ips) && Made(ips, s, t6, regexError)
    ensures Rejection(s, t6, regexError, name).Some? ==> r == Err(Rejection(s, t6, regexError, name).value)
    ensures Rejection(s, t6, regexError, name).None? ==> r.Ok? && r.value.Keys == ips.Keys + {name}
    ensures r.Ok? ==> Distinct(r.value) && AllValid(r.value) && Made(r.value, s, t6, regexError)
    ensures r.Ok? ==> fresh(r.value[name]) && r.value.Values == ips.Values + {r.value[name]}
  {
    var made := DynamicIp.FromConfig(s.ips[name], t6, regexError);
    if made.Err? {
      return Err(made.error);
    }
    var ip := made.value;
    assert ip !in ips.Values;
    r := Ok(ips[name := ip]);
  }

  /**
   * The loop over the `[ip.*]` entries: each one becomes a `DynamicIp`, and
   * the first one rejected, the `k`-th, stops the program with its error.
   */
  method BuildIps(s: Settings, t6: Ipv6Text, regexError: string -> Option<string>)
    returns (r: Result<map<string, DynamicIp>, DynamicIpError>, ghost k: nat)
    requires IsKeyOrder(s.ipOrder, s.ips)
    ensures r.Err? ==> k < |s.ipOrder| && Rejection(s, t6, regexError, s.ipOrder[k]) == Some(r.error)
    ensures forall j :: 0 <= j < (if r.Ok? then |s.ipOrder| else k) ==>
      Rejection(s, t6, regexError, s.ipOrder[j]).None?
    ensures r.Ok? ==> r.value.Keys == s.ips.Keys && Distinct(r.value) && AllValid(r.value)
    ensures r.Ok? ==> Made(r.value, s, t6, regexError)
  {
    var ips: map<string, DynamicIp> := map[];
    for i := 0 to |s.ipOrder|
      invariant ips.Keys == Listed(s.ipOrder, i)
      invariant forall j :: 0 <= j < i ==> Rejection(s, t6, regexError, s.ipOrder[j]).None?
      invariant Distinct(ips) && AllValid(ips) && Made(ips, s, t6, regexError)
    {
      ListedKeys(s.ipOrder, s.ips, i);
      var added := AddIp(ips, s, t6, regexError, s.ipOrder[i]);
      if added.Err? {
        return Err(added.error), i;
      }
      ips := added.value;
    }
    ListedKeys(s.ipOrder, s.ips, |s.ipOrder|);
    r, k := Ok(ips), |s.ipOrder|;
  }

  /** The `[ip.*]` loop stops with the error of the first entry, in the map's order, that is rejected. */
  method MakeIps(s: Settings, t6: Ipv6Text, regexError: string -> Option<string>)
    returns (r: Result<map<string, DynamicIp>, DynamicIpError>)
    requires IsKeyOrder(s.ipOrder, s.ips)
    ensures FirstInvalid(s, t6, regexError).Some? ==> r == Err(FirstInvalid(s, t6, regexError).value)
    ensures FirstInvalid(s, t6, regexError).None? ==>
      r.Ok? && r.value.Keys == s.ips.Keys && Distinct(r.value) && AllValid(r.value)
    ensures r.Ok? ==> Made(r.value, s, t6, regexError)
  {
    var reject := name => Rejection(s, t6, regexError, name);
    ghost var k;
    r, k := BuildIps(s, t6, regexError);
    if r.Err? {
      FirstFailureAt(s.ipOrder, reject, k);
    } else {
      NoFailure(s.ipOrder, reject, |s.ipOrder|);
    }
  }

  /** The state read from the file, or a fresh one when the file is missing or unreadable. */
  method LoadState(stored: Option<seq<byte>>, hash: uint64, now: uint64) returns (state: PersistentState)
    ensures fresh(state) && state.Data() == Loaded(stored, hash, now)
  {
    if stored.None? {
      state := new PersistentState.NewWithConfigHash(hash, now);
      return;
    }
    var read := PersistentState.FromReader(stored.value);
    if read.Ok? {
      state := read.value;
    } else {
      state := new PersistentState.NewWithConfigHash(hash, now);
    }
  }

  /** The check of every service's references: each one naming no configured address is reported. */
  method CheckReferences(ddns: seq<(string, seq<string>)>, known: set<string>) returns (missing: seq<(string, string)>)
    ensures missing == Missing(ddns, known, |ddns|)
  {
    missing := [];
    for i := 0 to |ddns|
      invariant missing == Missing(ddns, known, i)
    {
      var (service, deps) := ddns[i];
      for j := 0 to |deps|
        invariant missing == Missing(ddns, known, i) + MissingIn(service, deps, known, j)
      {
        if deps[j] !in known {
          missing := missing + [(service, deps[j])];
        }
      }
    }
  }

  // ---- one cycle ----------------------------------------------------------

  /** The state of every address, by name. */
  function States(ips: map<string, DynamicIp>): (states: map<string, IpState>)
    reads ips.Values
    ensures states.Keys == ips.Keys
  {
    map name | name in ips :: ips[name].State()
  }

  /** The address `name` has; a name that is no address's has none. */
  function AddressOf(states: map<string, IpState>, name: string): Option<IpAddr> {
    if name in states then states[name].address else None
  }

  /** Whether the address `name` is dirty. */
  predicate DirtyName(states: map<string, IpState>, name: string) {
    name in states && states[name].dirty
  }

  /** Some address among `deps` is dirty. */
  predicate Dirty(states: map<string, IpState>, deps: seq<string>) {
    exists i :: 0 <= i < |deps| && DirtyName(states, deps[i])
  }

  /** The addresses `deps` have, in their order; names without an address are skipped. */
  function Resolved(states: map<string, IpState>, deps: seq<string>): (addresses: seq<IpAddr>)
    ensures |addresses| <= |deps|
    decreases |deps|
  {
    if deps == [] then []
    else
      var first := AddressOf(states, deps[0]);
      (if first.Some? then [first.value] else []) + Resolved(states, deps[1..])
  }

  /** A service's update call and the addresses it is given. */
  datatype Call = Call(service: string, addresses: seq<IpAddr>)

  /** The calls made for the first `k` services. */
  function Calls(states: map<string, IpState>, services: seq<(string, seq<string>)>, k: nat): seq<Call>
    requires k <= |services|
    decreases k
  {
    if k == 0 then []
    else
      var (name, deps) := services[k - 1];
      Calls(states, services, k - 1) + if Dirty(states, deps) then [Call(name, Resolved(states, deps))] else []
  }

  /** Some of the first `k` services had a dirty address. */
  function Triggered(states: map<string, IpState>, services: seq<(string, seq<string>)>, k: nat): bool
    requires k <= |services|
    decreases k
  {
    k > 0 && (Triggered(states, services, k - 1) || Dirty(states, services[k - 1].1))
  }

  /** The addresses known by name. */
  function Known(states: map<string, IpState>): (known: map<string, IpAddr>)
    ensures forall name :: name in known <==> name in states && states[name].address.Some?
    ensures forall name :: name in known ==> Some(known[name]) == states[name].address
  {
    map name | name in states && states[name].address.Some? :: states[name].address.value
  }

  /** The rebuilt persistent state: the startup hash and every address that is known. */
  function Snapshot(states: map<string, IpState>, hash: uint64, now: uint64): StateData {
    StateData(StateVersion, now, hash, Known(states))
  }

  /** How each address is obtained, by name. */
  function Services(ips: map<string, DynamicIp>): (services: map<string, IpService>)
    ensures services.Keys == ips.Keys
  {
    map name | name in ips :: ips[name].service
  }

  /** The addresses after one refresh: each is updated with what `world` reports for it. */
  function Refreshed(states: map<string, IpState>, services: map<string, IpService>, world: map<string, Lookup>)
    : (after: map<string, IpState>)
    ensures after.Keys == states.Keys
  {
    map name | name in states :: Updated(states[name], services, world, name)
  }

  /**
   * One address after its update; one without a service or without a
   * report (which the program never has) is left as it is.
   */
  function Updated(state: IpState, services: map<string, IpService>, world: map<string, Lookup>, name: string): IpState {
    if name in services && name in world && ValidService(services[name]) then Step(state, Resolve(services[name], world[name]))
    else state
  }

  /** What a cycle reports once the addresses are refreshed: its calls and the rebuilt state, if any. */
  function Report(states: map<string, IpState>, services: seq<(string, seq<string>)>, hash: uint64, now: uint64)
    : (seq<Call>, Option<StateData>)
  {
    (Calls(states, services, |services|),
     if Triggered(states, services, |services|) then Some(Snapshot(states, hash, now)) else None)
  }

  /**
   * One cycle of the loop. Every address is refreshed first, in the order
   * the map iterates, with what `world` reports for it; a failure is only
   * logged. Then each service is called, in order, when one of its
   * addresses is dirty, with the addresses its names have, in its order.
   * When some service was called the state is rebuilt from the startup
   * hash and the known addresses, whatever the calls returned.
   */
  method Cycle(ips: map<string, DynamicIp>, order: seq<string>, services: seq<(string, seq<string>)>,
               world: map<string, Lookup>, hash: uint64, now: uint64)
    returns (calls: seq<Call>, rebuilt: Option<StateData>)
    requires IsKeyOrder(order, ips) && Distinct(ips) && AllValid(ips)
    requires forall name :: name in ips ==> name in world && Typed(ips[name].service, world[name])
    modifies ips.Values
    ensures AllValid(ips)
    ensures States(ips) == Refreshed(old(States(ips)), Services(ips), world)
    ensures (calls, rebuilt) == Report(States(ips), services, hash, now)
  {
    ghost var before := States(ips);
    Refresh(ips, order, world);
    var states := States(ips);
    assert states == Refreshed(before, Services(ips), world);
    calls := [];
    var updated := false;
    for i := 0 to |services|
      invariant calls == Calls(states, services, i)
      invariant updated == Triggered(states, services, i)
    {
      var (name, deps) := services[i];
      var dirty := Dirty(states, deps);
      updated := updated || dirty;
      if dirty {
        calls := calls + [Call(name, Resolved(states, deps))];
      }
    }
    rebuilt := if updated then Some(Snapshot(states, hash, now)) else None;
  }

  /** The first loop of a cycle: every address is updated once, errors are only logged. */
  method Refresh(ips: map<string, DynamicIp>, order: seq<string>, world: map<string, Lookup>)
    requires IsKeyOrder(order, ips) && Distinct(ips) && AllValid(ips)
    requires forall name :: name in ips ==> name in world && Typed(ips[name].service, world[name])
    modifies ips.Values
    ensures AllValid(ips)
    ensures forall name :: name in ips ==>
      ips[name].State() == Step(old(ips[name].State()), Resolve(ips[name].service, world[name]))
  {
    for i := 0 to |order|
      invariant AllValid(ips)
      invariant forall j :: 0 <= j < i ==>
        ips[order[j]].State() == Step(old(ips[order[j]].State()), Resolve(ips[order[j]].service, world[order[j]]))
      invariant forall j :: i <= j < |order| ==> ips[order[j]].State() == old(ips[order[j]].State())
    {
      var ip := ips[order[i]];
      var _ := ip.Update(world[order[i]]);
    }
  }

  // ---- properties of a cycle ------------------------------------------------

  /**
   * A service is called exactly when one of its addresses is dirty, and
   * then with the addresses its names have.
   */
  lemma {:induction false} CalledIffDirty(states: map<string, IpState>, services: seq<(string, seq<string>)>, k: nat, i: nat)
    requires k <= |services| && i < k
    requires forall a, b :: 0 <= a < b < |services| ==> services[a].0 != services[b].0
    ensures Call(services[i].0, Resolved(states, services[i].1)) in Calls(states, services, k) <==> Dirty(states, services[i].1)
    ensures forall c :: c in Calls(states, services, k) && c.service == services[i].0 ==>
      c.addresses == Resolved(states, services[i].1)
    decreases k
  {
    if i < k - 1 {
      CalledIffDirty(states, services, k - 1, i);
    }
    if k > 1 && i == k - 1 {
      CalledOnlyIfListed(states, services, k - 1, services[i].0);
    }
  }

  /** A service that is not among the first `k` makes no call among theirs. */
  lemma {:induction false} CalledOnlyIfListed(states: map<string, IpState>, services: seq<(string, seq<string>)>, k: nat, name: string)
    requires k <= |services|
    requires forall i :: 0 <= i < k ==> services[i].0 != name
    ensures forall c :: c in Calls(states, services, k) ==> c.service != name
    decreases k
  {
    if k > 0 {
      CalledOnlyIfListed(states, services, k - 1, name);
    }
  }

  /** The state is rebuilt exactly when some service had a dirty address. */
  lemma {:induction false} TriggeredIffDirty(states: map<string, IpState>, services: seq<(string, seq<string>)>, k: nat)
    requires k <= |services|
    ensures Triggered(states, services, k) <==> exists i :: 0 <= i < k && Dirty(states, services[i].1)
    decreases k
  {
    if k > 0 {
      TriggeredIffDirty(states, services, k - 1);
    }
  }

  /** The state is rebuilt exactly when some call was made. */
  lemma {:induction false} TriggeredIffCalled(states: map<string, IpState>, services: seq<(string, seq<string>)>, k: nat)
    requires k <= |services|
    ensures Triggered(states, services, k) <==> Calls(states, services, k) != []
    decreases k
  {
    if k > 0 {
      TriggeredIffCalled(states, services, k - 1);
    }
  }

  /**
   * The addresses a service is given: each is the address of one of its
   * names, and when every name has an address they are all given, in order.
   */
  lemma {:induction false} ResolvedInOrder(states: map<string, IpState>, deps: seq<string>)
    ensures forall a :: a in Resolved(states, deps) ==> exists i :: 0 <= i < |deps| && AddressOf(states, deps[i]) == Some(a)
    ensures (forall i :: 0 <= i < |deps| ==> AddressOf(states, deps[i]).Some?) ==>
      |Resolved(states, deps)| == |deps| &&
      forall i :: 0 <= i < |deps| ==> AddressOf(states, deps[i]) == Some(Resolved(states, deps)[i])
    ensures Resolved(states, deps) == [] <==> forall i :: 0 <= i < |deps| ==> AddressOf(states, deps[i]).None?
    decreases |deps|
  {
    if deps != [] {
      var rest := deps[1..];
      ResolvedInOrder(states, rest);
      forall a | a in Resolved(states, deps)
        ensures exists i :: 0 <= i < |deps| && AddressOf(states, deps[i]) == Some(a)
      {
        if a !in Resolved(states, rest) {
          assert AddressOf(states, deps[0]) == Some(a);
        } else {
          var i :| 0 <= i < |rest| && AddressOf(states, rest[i]) == Some(a);
          assert deps[i + 1] == rest[i];
        }
      }
      if forall i :: 0 <= i < |deps| ==> AddressOf(states, deps[i]).None? {
        assert forall i :: 0 <= i < |rest| ==> AddressOf(states, rest[i]).None? by {
          forall i | 0 <= i < |rest| ensures AddressOf(states, rest[i]).None? {
            assert rest[i] == deps[i + 1];
          }
        }
      }
      if forall i :: 0 <= i < |deps| ==> AddressOf(states, deps[i]).Some? {
        assert forall i :: 0 <= i < |rest| ==> AddressOf(states, rest[i]).Some? by {
          forall i | 0 <= i < |rest| ensures AddressOf(states, rest[i]).Some? {
            assert rest[i] == deps[i + 1];
          }
        }
        forall i | 0 <= i < |deps|
          ensures AddressOf(states, deps[i]) == Some(Resolved(states, deps)[i])
        {
          if i > 0 {
            assert deps[i] == rest[i - 1];
          }
        }
      }
      if Resolved(states, deps) == [] {
        forall i | 0 <= i < |deps|
          ensures AddressOf(states, deps[i]).None?
        {
          if i > 0 {
            assert deps[i] == rest[i - 1];
          }
        }
      }
    }
  }

  /**
   * Whatever mix of resolved and unresolved names a service lists, the
   * addresses of an earlier run of names come before those of a later run.
   */
  lemma {:induction false} ResolvedAppend(states: map<string, IpState>, front: seq<string>, back: seq<string>)
    ensures Resolved(states, front + back) == Resolved(states, front) + Resolved(states, back)
    decreases |front|
  {
    var whole := front + back;
    if front != [] {
      assert whole[0] == front[0] && whole[1..] == front[1..] + back;
      ResolvedAppend(states, front[1..], back);
      assert Resolved(states, whole) ==
        (if AddressOf(states, front[0]).Some? then [AddressOf(states, front[0]).value] else []) + Resolved(states, whole[1..]);
    } else {
      assert whole == back;
    }
  }

  /**
   * The rebuilt state, once written, is read back at the next start with
   * the same configuration with every address it holds, provided every
   * name can be stored.
   */
  lemma SnapshotSeedsNextStart(states: map<string, IpState>, hash: uint64, written: uint64, now: uint64, order: seq<string>)
    requires IsKeyOrder(order, Known(states))
    requires forall name :: name in Known(states) ==> StorableName(name)
    ensures var bytes := Encode(Snapshot(states, hash, written), order);
      Validated(Loaded(Some(bytes), hash, now), hash, now) == Snapshot(states, hash, written)
  {
    DecodeEncode(Snapshot(states, hash, written), order);
  }

  /** Every dirty address has an address: `update` only marks an address dirty when it sets one. */
  predicate Coherent(states: map<string, IpState>) {
    forall name :: name in states && states[name].dirty ==> states[name].address.Some?
  }

  /** A refresh keeps the addresses coherent. */
  lemma RefreshedCoherent(states: map<string, IpState>, services: map<string, IpService>, world: map<string, Lookup>)
    requires Coherent(states)
    ensures Coherent(Refreshed(states, services, world))
  {
    var after := Refreshed(states, services, world);
    forall name | name in after && after[name].dirty
      ensures after[name].address.Some?
    {
      assert after[name] == Updated(states[name], services, world, name);
    }
  }

  /** A dirty service has at least one address to send. */
  lemma {:induction false} DirtyResolves(states: map<string, IpState>, deps: seq<string>)
    requires Coherent(states) && Dirty(states, deps)
    ensures Resolved(states, deps) != []
    decreases |deps|
  {
    if !DirtyName(states, deps[0]) {
      var i :| 0 <= i < |deps| && DirtyName(states, deps[i]);
      assert DirtyName(states, deps[1..][i - 1]);
      DirtyResolves(states, deps[1..]);
    }
  }

  /**
   * On coherent addresses every call carries at least one address: a
   * provider's `update_record` is never given an empty slice.
   */
  lemma {:induction false} CallsCarryAddresses(states: map<string, IpState>, services: seq<(string, seq<string>)>, k: nat)
    requires Coherent(states) && k <= |services|
    ensures forall c :: c in Calls(states, services, k) ==> c.addresses != []
    decreases k
  {
    if k > 0 {
      CallsCarryAddresses(states, services, k - 1);
      if Dirty(states, services[k - 1].1) {
        DirtyResolves(states, services[k - 1].1);
      }
    }
  }

  // ---- the loop -------------------------------------------------------------

  /** The addresses after the first `k` cycles, each refreshed with its element of `worlds`. */
  ghost function After(states: map<string, IpState>, services: map<string, IpService>, worlds: seq<map<string, Lookup>>, k: nat)
    : (after: map<string, IpState>)
    requires k <= |worlds|
    ensures after.Keys == states.Keys
    decreases k
  {
    if k == 0 then states else Refreshed(After(states, services, worlds, k - 1), services, worlds[k - 1])
  }

  /** Addresses that start coherent stay coherent through every cycle. */
  lemma {:induction false} AfterCoherent(states: map<string, IpState>, services: map<string, IpService>,
                                         worlds: seq<map<string, Lookup>>, k: nat)
    requires Coherent(states) && k <= |worlds|
    ensures Coherent(After(states, services, worlds, k))
    decreases k
  {
    if k > 0 {
      AfterCoherent(states, services, worlds, k - 1);
      RefreshedCoherent(After(states, services, worlds, k - 1), services, worlds[k - 1]);
    }
  }

  /**
   * Started from fresh addresses, no cycle of the loop calls a service
   * without an address.
   */
  lemma ServedCallsCarryAddresses(start: map<string, IpState>, ipServices: map<string, IpService>,
                                  services: seq<(string, seq<string>)>, worlds: seq<map<string, Lookup>>,
                                  times: seq<uint64>, hash: uint64, k: nat, j: nat)
    requires forall name :: name in start ==> start[name] == Initial
    requires k <= |worlds| && |times| == |worlds| && j < k
    ensures forall c :: c in Reports(start, ipServices, services, worlds, times, hash, k)[j].0 ==> c.addresses != []
  {
    ReportAt(start, ipServices, services, worlds, times, hash, k, j);
    AfterCoherent(start, ipServices, worlds, j + 1);
    CallsCarryAddresses(After(start, ipServices, worlds, j + 1), services, |services|);
  }

  /** Cycle `j` reports what `Report` gives on the addresses after `j + 1` refreshes. */
  lemma {:induction false} ReportAt(start: map<string, IpState>, ipServices: map<string, IpService>,
                                    services: seq<(string, seq<string>)>, worlds: seq<map<string, Lookup>>,
                                    times: seq<uint64>, hash: uint64, k: nat, j: nat)
    requires k <= |worlds| && |times| == |worlds| && j < k
    ensures Reports(start, ipServices, services, worlds, times, hash, k)[j] ==
      Report(After(start, ipServices, worlds, j + 1), services, hash, times[j])
    decreases k
  {
    if j < k - 1 {
      ReportAt(start, ipServices, services, worlds, times, hash, k - 1, j);
    }
  }

  /** What the first `k` cycles report, each on the addresses as it refreshed them. */
  ghost function Reports(start: map<string, IpState>, ipServices: map<string, IpService>, services: seq<(string, seq<string>)>,
                         worlds: seq<map<string, Lookup>>, times: seq<uint64>, hash: uint64, k: nat)
    : (reports: seq<(seq<Call>, Option<StateData>)>)
    requires k <= |worlds| && |times| == |worlds|
    ensures |reports| == k
    decreases k
  {
    if k == 0 then []
    else
      Reports(start, ipServices, services, worlds, times, hash, k - 1) +
      [Report(After(start, ipServices, worlds, k), services, hash, times[k - 1])]
  }

  /**
   * The loop over a finite series of cycles: cycle `k` sees `worlds[k]` and
   * the clock reading `times[k]`. Without an update rate only the first
   * cycle runs; with one, every cycle of the series runs (the sleep between
   * cycles is not modelled). Each cycle reports what `Report` gives on the
   * addresses refreshed by it and the cycles before it.
   */
  method Serve(ips: map<string, DynamicIp>, order: seq<string>, services: seq<(string, seq<string>)>,
               worlds: seq<map<string, Lookup>>, times: seq<uint64>, hash: uint64, updateRate: Option<nat>)
    returns (cycles: seq<(seq<Call>, Option<StateData>)>)
    requires |worlds| >= 1 && |times| == |worlds|
    requires IsKeyOrder(order, ips) && Distinct(ips) && AllValid(ips)
    requires forall k, name :: 0 <= k < |worlds| && name in ips ==> name in worlds[k] && Typed(ips[name].service, worlds[k][name])
    modifies ips.Values
    ensures |cycles| == if updateRate.None? then 1 else |worlds|
    ensures AllValid(ips)
    ensures States(ips) == After(old(States(ips)), Services(ips), worlds, |cycles|)
    ensures cycles == Reports(old(States(ips)), Services(ips), services, worlds, times, hash, |cycles|)
  {
    ghost var start := States(ips);
    cycles := [];
    var k := 0;
    while true
      invariant 0 <= k < |worlds| && |cycles| == k
      invariant updateRate.None? ==> k == 0
      invariant AllValid(ips)
      invariant States(ips) == After(start, Services(ips), worlds, k)
      invariant cycles == Reports(start, Services(ips), services, worlds, times, hash, k)
      decreases |worlds| - k
    {
      var calls, rebuilt := Cycle(ips, order, services, worlds[k], hash, times[k]);
      assert States(ips) == After(start, Services(ips), worlds, k + 1);
      cycles := cycles + [(calls, rebuilt)];
      if updateRate.None? || k + 1 == |worlds| {
        return;
      }
      k := k + 1;
    }
  }
}
