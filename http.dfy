/**
 * The HTTP layer as the providers see it (`http::Request`, `http::Response`,
 * `http::Error`). A request is a value the providers build step by step;
 * sending it is a function from the request to its outcome, supplied by the
 * caller. JSON documents are values of `Json`; turning text into one is the
 * parameter `ParseJson`.
 */
module Http {
  import opened Wrappers

  datatype Verb = Get | Post | Put

  /** serde_json's `Value`: objects are keyed by member name. */
  datatype Json =
    | JNull
    | JBool(b: bool)
    | JInt(i: int)
    | JFloat
    | JString(s: string)
    | JArray(items: seq<Json>)
    | JObject(members: map<string, Json>)

  /** What a request carries after its headers: nothing, a form or a JSON document. */
  datatype Body = NoBody | Form(text: string) | JsonBody(json: Json)

  /** Headers and query parameters in the order the builder adds them. */
  datatype Request = Request(
    verb: Verb,
    url: string,
    headers: seq<(string, string)>,
    query: seq<(string, string)>,
    body: Body)

  /** `Request::get`, `Request::post`, `Request::put`. */
  function NewRequest(verb: Verb, url: string): Request {
    Request(verb, url, [], [], NoBody)
  }

  /** `Request::set`. */
  function Set(r: Request, name: string, value: string): Request {
    r.(headers := r.headers + [(name, value)])
  }

  /** `Request::query`. */
  function Query(r: Request, name: string, value: string): Request {
    r.(query := r.query + [(name, value)])
  }

  /** A response body: its text, or the message of the error that stopped reading it. */
  datatype Response = Response(text: Result<string, string>)

  /** Both back ends report a status error only for codes from 400 up. */
  type ErrorCode = c: nat | 400 <= c < 0x1_0000 witness 400

  /** `Result<Response, http::Error>`. */
  datatype Outcome =
    | Success(response: Response)
    | Status(code: ErrorCode, response: Response)
    | Transport(message: string)

  /** Sending a request. */
  type Send = Request -> Outcome

  /** serde_json's parser, with the message of its error. */
  type ParseJson = string -> Result<Json, string>

  /** `Response::into_json`: read the body, then parse it. */
  function IntoJson(r: Response, parse: ParseJson): Result<Json, string> {
    match r.text
    case Err(e) => Err(e)
    case Ok(text) => parse(text)
  }

  /** `Value::get` with a member name. */
  function Member(j: Json, name: string): Option<Json> {
    if j.JObject? && name in j.members then Some(j.members[name]) else None
  }

  /** `Value::get` with an array index. */
  function Index(j: Json, i: nat): Option<Json> {
    if j.JArray? && i < |j.items| then Some(j.items[i]) else None
  }

  /** `Value::as_str`. */
  function AsStr(j: Json): Option<string> {
    if j.JString? then Some(j.s) else None
  }

  /** `Value::as_bool`. */
  function AsBool(j: Json): Option<bool> {
    if j.JBool? then Some(j.b) else None
  }

  /** `Value::as_array`. */
  function AsArray(j: Json): Option<seq<Json>> {
    if j.JArray? then Some(j.items) else None
  }

  /** `Value::as_number` succeeds. */
  predicate IsNumber(j: Json) {
    j.JInt? || j.JFloat?
  }

  /** `Value::as_u64`. */
  function AsU64(j: Json): Option<nat> {
    if j.JInt? && 0 <= j.i < 0x1_0000_0000_0000_0000 then Some(j.i as nat) else None
  }

  /** `j.get(name).and_then(as_str)`. */
  function StrMember(j: Json, name: string): Option<string> {
    match Member(j, name)
    case None => None
    case Some(v) => AsStr(v)
  }
}
