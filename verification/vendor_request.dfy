/**
 * `scripts/actions/utils/vendor-request.js`: the client for the translation
 * vendor's HTTP API.
 *
 * A call goes through a retry policy that re-issues the request while the
 * response status is 429 (at most `RetryAttempts` retries), then the body's
 * `{response: {code, data}}` envelope is decoded: `data` on `SUCCESS`, an
 * error carrying the whole `response` otherwise. The network is a function
 * `call` from the attempt number to what that attempt's `fetch` settled to;
 * backoff delays are not modelled.
 */
module VendorRequest {
  import opened Base

  /** The `data` object of an envelope; the callers only read string fields from it. */
  type Data = map<string, string>

  /** The `response` object of a vendor reply: `{code, data}`, either possibly undefined. */
  datatype Envelope = Envelope(code: Option<string>, data: Option<Data>)

  /**
   * What one `fetch` settled to: a response with its status and its parsed
   * `response` envelope (`None` when the body is not JSON or holds no
   * `response` object), or a rejected promise.
   */
  datatype HttpOutcome = Response(status: int, body: Option<Envelope>) | NetworkError

  const TooManyRequests: int := 429

  /** The retry policy's attempt count: the number of RETRIES after the first call. */
  const RetryAttempts: nat := 3

  const SuccessCode := "SUCCESS"

  const JsonContentType := "application/json"

  /** The policy's `handleWhenResult`: only a settled response with status 429 is retried. */
  predicate ShouldRetry(o: HttpOutcome) {
    o.Response? && o.status == TooManyRequests
  }

  /** The outcome `retry.execute` settles to and how many times it called `fetch`. */
  datatype Execution = Execution(outcome: HttpOutcome, calls: nat)

  /** The retry loop from attempt `k` on. */
  function ExecuteFrom(call: nat -> HttpOutcome, maxRetries: nat, k: nat): (e: Execution)
    requires k <= maxRetries
    ensures k + 1 <= e.calls <= maxRetries + 1
    ensures e.outcome == call(e.calls - 1)
    ensures forall j :: k <= j < e.calls - 1 ==> ShouldRetry(call(j))
    ensures !ShouldRetry(e.outcome) || e.calls == maxRetries + 1
    decreases maxRetries - k
  {
    if !ShouldRetry(call(k)) || k == maxRetries then Execution(call(k), k + 1)
    else ExecuteFrom(call, maxRetries, k + 1)
  }

  /**
   * The retry policy running the fetch: at most `maxRetries + 1`
   * calls; every call but the last was answered 429; the last one's outcome
   * is passed on, and it is a 429 only if the retries ran out.
   */
  function Execute(call: nat -> HttpOutcome, maxRetries: nat): (e: Execution)
    ensures 1 <= e.calls <= maxRetries + 1
    ensures e.outcome == call(e.calls - 1)
    ensures forall j :: 0 <= j < e.calls - 1 ==> ShouldRetry(call(j))
    ensures !ShouldRetry(e.outcome) || e.calls == maxRetries + 1
  {
    ExecuteFrom(call, maxRetries, 0)
  }

  /** The retry policy as a state machine: one `fetch` per iteration until a non-429 outcome or the bound. */
  method RunPolicy(call: nat -> HttpOutcome, maxRetries: nat) returns (outcome: HttpOutcome, calls: nat)
    ensures Execution(outcome, calls) == Execute(call, maxRetries)
    ensures 1 <= calls <= maxRetries + 1
  {
    calls := 1;
    outcome := call(0);
    while ShouldRetry(outcome) && calls <= maxRetries
      invariant 1 <= calls <= maxRetries + 1
      invariant outcome == call(calls - 1)
      invariant forall j :: 0 <= j < calls - 1 ==> ShouldRetry(call(j))
      invariant ExecuteFrom(call, maxRetries, calls - 1) == Execute(call, maxRetries)
      decreases maxRetries + 1 - calls
    {
      outcome := call(calls);
      calls := calls + 1;
    }
  }

  /** A first outcome that is not a 429 is passed on after exactly one call. */
  lemma NoRetryUnlessRateLimited(call: nat -> HttpOutcome, maxRetries: nat)
    requires !ShouldRetry(call(0))
    ensures Execute(call, maxRetries) == Execution(call(0), 1)
  {
  }

  /** When every attempt is answered 429, all `maxRetries + 1` calls are made and the last reply is passed on. */
  lemma {:induction false} ExhaustedRetriesPassLast(call: nat -> HttpOutcome, maxRetries: nat)
    requires forall j :: 0 <= j <= maxRetries ==> ShouldRetry(call(j))
    ensures Execute(call, maxRetries) == Execution(call(maxRetries), maxRetries + 1)
  {
    var e := Execute(call, maxRetries);
    if e.calls < maxRetries + 1 {
      assert false;
    }
  }

  /** A 429 that clears before the bound: the first non-429 reply is the one passed on. */
  lemma {:induction false} RetryReachesFirstAnswer(call: nat -> HttpOutcome, maxRetries: nat, n: nat)
    requires n <= maxRetries
    requires forall j :: 0 <= j < n ==> ShouldRetry(call(j))
    requires !ShouldRetry(call(n))
    ensures Execute(call, maxRetries) == Execution(call(n), n + 1)
  {
    var e := Execute(call, maxRetries);
    if e.calls < n + 1 {
      assert false;
    } else if e.calls > n + 1 {
      assert false;
    }
  }

  /** Why a request failed. `Rejected` carries the whole `response` object, as the thrown error's message does. */
  datatype RequestError = NetworkFailure | MalformedBody | Rejected(response: Envelope)

  /**
   * Decoding of the final reply in `makeRequest`: `data` when the envelope's
   * `code` is `SUCCESS`, whatever the HTTP status; otherwise an error.
   */
  function Decode(o: HttpOutcome): (r: Result<Option<Data>, RequestError>)
    ensures r.Ok? <==> o.Response? && o.body.Some? && o.body.value.code == Some(SuccessCode)
    ensures r.Ok? ==> r.value == o.body.value.data
    ensures o.Response? && o.body.Some? && o.body.value.code != Some(SuccessCode) ==>
      r == Err(Rejected(o.body.value))
    ensures o.NetworkError? ==> r == Err(NetworkFailure)
  {
    match o
    case NetworkError => Err(NetworkFailure)
    case Response(_, None) => Err(MalformedBody)
    case Response(_, Some(env)) =>
      if env.code == Some(SuccessCode) then Ok(env.data) else Err(Rejected(env))
  }

  /** One vendor request against a vendor answering attempt `k` with `call(k)`. */
  function MakeRequest(call: nat -> HttpOutcome): Result<Option<Data>, RequestError> {
    Decode(Execute(call, RetryAttempts).outcome)
  }

  /** The request succeeds iff the reply it settles on carries `SUCCESS`. */
  lemma MakeRequestSucceeds(call: nat -> HttpOutcome)
    ensures MakeRequest(call).Ok? <==>
      var o := Execute(call, RetryAttempts).outcome;
      o.Response? && o.body.Some? && o.body.value.code == Some(SuccessCode)
    ensures MakeRequest(call).Ok? ==> MakeRequest(call).value == Execute(call, RetryAttempts).outcome.body.value.data
  {
  }

  /** A URL built from a path and a base; resolution itself is library behaviour and is kept symbolic. */
  datatype Url = Url(base: Option<string>, path: string)

  /** The request bodies the scripts send. */
  datatype Payload =
    | EmptyObject
    | Credentials(userIdentifier: Option<string>, userSecret: Option<string>)
    | JobBody(jobName: string, targetLocaleIds: seq<Option<string>>)
    | BatchBody(authorize: bool, translationJobUid: Option<string>, fileUris: seq<string>)

  /** A request body: the payload serialised as JSON, or passed through unchanged. */
  datatype Body = JsonText(payload: Payload) | Raw(payload: Payload)

  datatype Options = Options(verb: string, headers: seq<(string, string)>, body: Option<Body>)

  datatype Request = Request(url: Url, options: Options)

  /** The first value of header `name`. */
  function Header(headers: seq<(string, string)>, name: string): Option<string> {
    if |headers| == 0 then None
    else if headers[0].0 == name then Some(headers[0].1)
    else Header(headers[1..], name)
  }

  /** The process environment the client reads. */
  datatype Env = Env(apiUrl: Option<string>, user: Option<string>, secret: Option<string>, project: Option<string>)

  /**
   * The request `vendorRequest` hands to `makeRequest`. `body` and
   * `contentType` are `None` when the caller leaves them out, and then take
   * their defaults `{}` and `application/json`.
   */
  function VendorRequestFor(env: Env, verb: string, endpoint: string, accessToken: Option<string>,
                            body: Option<Payload>, contentType: Option<string>): (r: Request)
    ensures r.url == Url(env.apiUrl, endpoint) && r.options.verb == verb
    ensures Header(r.options.headers, "Authorization") == Some("Bearer " + JsStr(accessToken))
    ensures Header(r.options.headers, "Content-Type") == Some(contentType.GetOr(JsonContentType))
    ensures r.options.body.Some? <==> verb != "GET"
    ensures r.options.body.Some? ==> r.options.body.value.payload == body.GetOr(EmptyObject)
    ensures r.options.body.Some? ==>
      (r.options.body.value.JsonText? <==> contentType.GetOr(JsonContentType) == JsonContentType)
  {
    var ct := contentType.GetOr(JsonContentType);
    var payload := body.GetOr(EmptyObject);
    var headers := [("Authorization", "Bearer " + JsStr(accessToken)), ("Content-Type", ct)];
    var sent := if verb == "GET" then None
                else if ct == JsonContentType then Some(JsonText(payload))
                else Some(Raw(payload));
    Request(Url(env.apiUrl, endpoint), Options(verb, headers, sent))
  }

  /** The authentication request of `getAccessToken`: JSON credentials and no bearer token. */
  function AuthRequest(env: Env): (r: Request)
    ensures Header(r.options.headers, "Authorization") == None
    ensures Header(r.options.headers, "Content-Type") == Some(JsonContentType)
    ensures r.options.verb == "POST"
    ensures r.options.body == Some(JsonText(Credentials(env.user, env.secret)))
  {
    Request(Url(env.apiUrl, "/auth-api/v2/authenticate"),
            Options("POST", [("Content-Type", JsonContentType)], Some(JsonText(Credentials(env.user, env.secret)))))
  }

  datatype TokenError = RequestFailed(cause: RequestError) | NoData

  /** What the vendor does: the replies to the successive attempts of each request. */
  type Vendor = Request -> (nat -> HttpOutcome)

  /**
   * `getAccessToken`: sends the authentication request to the vendor and
   * reads exactly the `accessToken` field of the decoded data (undefined
   * when the field is missing); destructuring a missing `data` throws.
   */
  function GetAccessToken(env: Env, vendor: Vendor): (r: Result<Option<string>, TokenError>)
    ensures var reply := MakeRequest(vendor(AuthRequest(env)));
      && (reply.Err? ==> r == Err(RequestFailed(reply.error)))
      && (reply == Ok(None) ==> r == Err(NoData))
      && (r.Ok? <==> reply.Ok? && reply.value.Some?)
    ensures var reply := MakeRequest(vendor(AuthRequest(env)));
      r.Ok? ==> (r.value.Some? <==> "accessToken" in reply.value.value) &&
                (r.value.Some? ==> r.value.value == reply.value.value["accessToken"])
  {
    match MakeRequest(vendor(AuthRequest(env)))
    case Err(e) => Err(RequestFailed(e))
    case Ok(None) => Err(NoData)
    case Ok(Some(d)) => Ok(if "accessToken" in d then Some(d["accessToken"]) else None)
  }
}
