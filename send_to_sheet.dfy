/** The `POST /api/send-to-sheet` handler: checks the shared secret, validates the
    submitted amount, forwards `{ value, note }` to the spreadsheet endpoint and relays
    its answer. Reading the environment, the request and the upstream reply are inputs. */
module SendToSheet {
  import opened Wrappers
  import opened Json
  import opened Text
  import ConstantTime

  /** The request body after `const { value, note = "" } = await req.json()`. */
  datatype RequestBody =
    /** `req.json()` rejected (the body is not JSON), or destructuring threw (the body is
        `null`); the exception's `message`, if it has one. */
    | BodyThrew(message: Option<string>)
    /** The `value` and `note` properties of the parsed body; None when undefined. */
    | Body(value: Option<Json>, note: Option<Json>)

  /** What the upstream call produces. */
  datatype Upstream =
    /** `fetch`, `gsRes.text()` or `JSON.parse(text)` threw; the exception's `message`,
        if it has one. */
    | UpstreamThrew(message: Option<string>)
    /** The endpoint answered with HTTP status `status`; `data` is its body parsed as JSON,
        or None when the body text is empty. */
    | Replied(status: nat, data: Option<Json>)

  /** The JSON object `{ value, note }` sent upstream. */
  datatype Payload = Payload(value: real, note: Json)

  /** A response of the route: its HTTP status and the JSON value of its body. */
  datatype Response = Response(status: nat, body: Json)

  /** The response together with the payload sent upstream, if the handler called
      `fetch` at all. */
  datatype Handled = Handled(response: Response, forwarded: Option<Payload>)

  const Misconfigured := "Server misconfigured"
  const Unauthorized := "Unauthorized"
  const NotFinite := "`value` must be a finite number"
  const ServerError := "Server error"

  function Failure(status: nat, message: string): Response
  {
    Response(status, ErrorBody(JString(message)))
  }

  /** `process.env.SHARED_SECRET?.trim() ?? ""`. */
  function ExpectedSecret(env: Option<string>): string
  {
    Trim(env.GetOr(""))
  }

  /** `(req.headers.get("X-Shared-Secret") || "").trim()`. */
  function ProvidedSecret(header: Option<string>): string
  {
    Trim(header.GetOr(""))
  }

  /** The shared-secret check passes. */
  predicate Authorized(env: Option<string>, header: Option<string>)
  {
    ConstantTime.SecretsEqual(ProvidedSecret(header), ExpectedSecret(env))
  }

  /** The `catch` clause: status 500 with the exception's message when it is a non-empty
      string, `"Server error"` otherwise. */
  function Caught(message: Option<string>): Response
  {
    Failure(500, if message.Some? && message.value != "" then message.value else ServerError)
  }

  /** `gsRes.ok`: a status in the range 200 to 299. */
  predicate Ok(status: nat)
  {
    200 <= status <= 299
  }

  /** The handling of the upstream reply, once the payload was sent. */
  function Relay(upstream: Upstream): (r: Response)
    ensures r.status in {200, 500, 502}
  {
    match upstream
    case UpstreamThrew(message) => Caught(message)
    case Replied(status, text) =>
      var data := text.GetOr(JObject(map[]));
      var error := Property(data, "error");
      if !Ok(status) || TruthyProperty(error) then
        Response(502, ErrorBody(if TruthyProperty(error) then error.value else JString("HTTP " + Decimal(status))))
      else
        Response(200, data)
  }

  /** The handler. Every response is one of the documented statuses, and nothing is sent
      upstream unless the secret check passed and `value` is a finite number. */
  function Post(env: Option<string>, header: Option<string>, body: RequestBody, upstream: Upstream): (h: Handled)
    ensures h.response.status in {200, 400, 401, 500, 502}
    ensures h.forwarded.Some? <==> Authorized(env, header) && body.Body? && body.value.Some? && IsFiniteNumber(body.value.value)
    ensures h.response.status in {200, 502} ==> h.forwarded.Some?
  {
    var expected := ExpectedSecret(env);
    if expected == "" then
      Handled(Failure(500, Misconfigured), None)
    else if !ConstantTime.SecretsEqual(ProvidedSecret(header), expected) then
      Handled(Failure(401, Unauthorized), None)
    else
      match body
      case BodyThrew(message) => Handled(Caught(message), None)
      case Body(value, note) =>
        if !(value.Some? && IsFiniteNumber(value.value)) then
          Handled(Failure(400, NotFinite), None)
        else
          Handled(Relay(upstream), Some(Payload(value.value.x, note.GetOr(JString("")))))
  }

  /** With `SHARED_SECRET` unset, empty or all white space the route fails closed with
      500, whatever the header, the body and the upstream endpoint would do. */
  lemma MisconfiguredFailsClosed(env: Option<string>, header: Option<string>, body: RequestBody, upstream: Upstream)
    requires env == None || forall k :: 0 <= k < |env.value| ==> IsWhiteSpace(env.value[k])
    ensures Post(env, header, body, upstream) == Handled(Failure(500, Misconfigured), None)
  {
    if env.Some? {
      TrimEmptyIff(env.value);
    }
  }

  /** The response is 401 exactly when a secret is configured and the trimmed header
      differs from it; then neither the body nor the upstream endpoint is looked at. */
  lemma UnauthorizedIff(env: Option<string>, header: Option<string>, body: RequestBody, upstream: Upstream)
    ensures Post(env, header, body, upstream).response.status == 401 <==>
              ExpectedSecret(env) != "" && ProvidedSecret(header) != ExpectedSecret(env)
    ensures Post(env, header, body, upstream).response.status == 401 ==>
              Post(env, header, body, upstream) == Handled(Failure(401, Unauthorized), None)
  {
  }

  /** A request without the secret header is refused once a secret is configured. */
  lemma MissingHeaderUnauthorized(env: Option<string>, body: RequestBody, upstream: Upstream)
    requires ExpectedSecret(env) != ""
    ensures Post(env, None, body, upstream) == Handled(Failure(401, Unauthorized), None)
  {
  }

  /** An authorized request whose `value` is absent or not a finite number gets 400, and
      nothing is sent upstream. */
  lemma NonFiniteRejected(env: Option<string>, header: Option<string>, value: Option<Json>, note: Option<Json>, upstream: Upstream)
    requires Authorized(env, header)
    requires !(value.Some? && IsFiniteNumber(value.value))
    ensures Post(env, header, Body(value, note), upstream) == Handled(Failure(400, NotFinite), None)
  {
  }

  /** An authorized request with a finite `value` sends exactly `{ value, note }`, with
      `note` defaulting to `""` when absent, and answers with the relayed reply. */
  lemma ForwardsPayload(env: Option<string>, header: Option<string>, x: real, note: Option<Json>, upstream: Upstream)
    requires Authorized(env, header)
    ensures Post(env, header, Body(Some(JNumber(x)), note), upstream) ==
              Handled(Relay(upstream), Some(Payload(x, if note.Some? then note.value else JString(""))))
  {
  }

  /** A non-2xx reply, or a reply whose body has a truthy `error`, becomes 502 carrying
      that error, or `"HTTP <status>"` when there is none. */
  lemma UpstreamFailureIs502(status: nat, data: Option<Json>)
    requires var error := Property(data.GetOr(JObject(map[])), "error");
             !Ok(status) || TruthyProperty(error)
    ensures var error := Property(data.GetOr(JObject(map[])), "error");
            Relay(Replied(status, data)) ==
              Response(502, ErrorBody(if TruthyProperty(error) then error.value else JString("HTTP " + Decimal(status))))
  {
  }

  /** A 2xx reply without a truthy `error` is relayed with 200: its parsed body, or `{}`
      for an empty body. */
  lemma UpstreamSuccessRelayed(status: nat, data: Option<Json>)
    requires Ok(status) && !TruthyProperty(Property(data.GetOr(JObject(map[])), "error"))
    ensures Relay(Replied(status, data)) == Response(200, if data.Some? then data.value else JObject(map[]))
  {
  }

  /** An exception after the secret check, while reading the body or talking to the
      upstream endpoint, becomes 500 with the exception's message when it is a non-empty
      string and `"Server error"` otherwise; a failed body read sends nothing upstream. */
  lemma ExceptionsAre500(env: Option<string>, header: Option<string>, body: RequestBody, upstream: Upstream, message: Option<string>)
    requires Authorized(env, header)
    requires body == BodyThrew(message)
          || (body.Body? && body.value.Some? && IsFiniteNumber(body.value.value) && upstream == UpstreamThrew(message))
    ensures Post(env, header, body, upstream).response ==
              Response(500, ErrorBody(JString(if message.Some? && message.value != "" then message.value else ServerError)))
    ensures body.BodyThrew? ==> Post(env, header, body, upstream).forwarded == None
  {
  }

  /** Every 502 body carries a truthy `error`: either the upstream error itself or the
      non-empty text `"HTTP <status>"`. */
  lemma Relay502CarriesError(upstream: Upstream)
    ensures Relay(upstream).status == 502 ==> TruthyProperty(Property(Relay(upstream).body, "error"))
  {
  }

  /** Every response other than 200 is an error response whose `error` is truthy; a 500
      always carries a non-empty string. */
  lemma FailuresCarryError(env: Option<string>, header: Option<string>, body: RequestBody, upstream: Upstream)
    ensures var r := Post(env, header, body, upstream).response;
            && (r.status != 200 ==> TruthyProperty(Property(r.body, "error")))
            && (r.status == 500 ==> exists m: string :: m != "" && Property(r.body, "error") == Some(JString(m)))
  {
  }

  /** The status of the route is 200 exactly when the secret check passes, the value is
      finite and the upstream endpoint answered 2xx without a truthy `error`. */
  lemma SuccessIff(env: Option<string>, header: Option<string>, body: RequestBody, upstream: Upstream)
    ensures Post(env, header, body, upstream).response.status == 200 <==>
              && Authorized(env, header)
              && body.Body? && body.value.Some? && IsFiniteNumber(body.value.value)
              && upstream.Replied? && Ok(upstream.status)
              && !TruthyProperty(Property(upstream.data.GetOr(JObject(map[])), "error"))
  {
  }

  /** An upstream reply with status 500 and an empty body is reported as 502 with the
      error `"HTTP 500"`. */
  lemma Upstream500Example(env: Option<string>, header: Option<string>, x: real, note: Option<Json>)
    requires Authorized(env, header)
    ensures Post(env, header, Body(Some(JNumber(x)), note), Replied(500, None)).response ==
              Failure(502, "HTTP 500")
  {
    assert Decimal(5) == "5";
    assert Decimal(50) == "50";
    assert Decimal(500) == "500";
    assert "HTTP " + Decimal(500) == "HTTP 500";
    assert Property(JObject(map[]), "error") == None;
  }

  /** The documented example: with the right secret, `{ value: 12.5, note: "coffee" }`
      is sent upstream exactly, and a 200 reply is relayed verbatim. */
  lemma CoffeeExample(secret: string, reply: Json)
    requires Trim(secret) != ""
    requires !TruthyProperty(Property(reply, "error"))
    ensures Post(Some(secret), Some(secret), Body(Some(JNumber(12.5)), Some(JString("coffee"))), Replied(200, Some(reply))) ==
              Handled(Response(200, reply), Some(Payload(12.5, JString("coffee"))))
  {
  }
}
