/** The `POST /api/subscribe` handler: checks the request's `email`, then the two
    configuration values, then makes one call to the provider and maps what comes
    back onto one `(status, JSON body)` response. The provider call is an input:
    the handler's decision is a total function of the request, the configuration
    and the provider's outcome. */
module SubscribeRoute {
  import opened JsValues

  /** The two server-held settings, each a string or undefined. */
  datatype Config = Config(apiSecret: Option<string>, formId: Option<string>)

  /** The body that `response.json()` yields for a provider reply. */
  datatype ProviderBody =
    | Unparseable            // `response.json()` rejects
    | JsonNull               // the literal `null`: reading `.message` from it throws
    | JsonPrimitive          // a boolean, number or string: its `.message` is undefined
    | JsonObject(message: JsValue)  // an object or array; `message` is `Undefined` when absent

  /** What the awaited `fetch` to the provider produces. */
  datatype ProviderOutcome =
    | Threw
    | Responded(status: int, body: ProviderBody)

  /** The one outbound POST: its URL and the two fields of its JSON body. */
  datatype OutboundRequest = OutboundRequest(url: string, apiSecret: string, email: JsValue)

  datatype ResponseBody =
    | MessageBody(message: string)   // `{ message: ... }`
    | ErrorBody(error: JsValue)      // `{ error: ... }`

  datatype Response = Response(status: int, body: ResponseBody)

  /** One invocation of the handler: the provider call it made, if any, and its reply. */
  datatype Exchange = Exchange(outbound: Option<OutboundRequest>, response: Response)

  /** `Response.ok` of the Fetch standard: a status in the range 200 to 299. */
  predicate IsOk(status: int)
    ensures IsOk(status) <==> status / 100 == 2
  {
    200 <= status <= 299
  }

  const EmailRequired := "Email is required"
  const ConfigurationError := "Server configuration error"
  const SubscribeFailed := "Error subscribing"
  const InternalError := "Internal server error"
  const Subscribed := "Subscribed successfully"

  /** The provider endpoint for one form. */
  function SubscribeUrl(formId: string): (url: string)
    ensures |url| == 36 + |formId| + 10
    ensures url[..36] == "https://api.convertkit.com/v3/forms/"
    ensures url[36..|url| - 10] == formId
    ensures url[|url| - 10..] == "/subscribe"
  {
    "https://api.convertkit.com/v3/forms/" + formId + "/subscribe"
  }

  /** The reply to the caller once the provider call has been made: success when the
      provider's status is ok, the provider's status and message when its body
      parses to something other than `null`, and a fixed 500 when the call or the
      parse throws, or when reading `.message` from a `null` body does. */
  function ProviderReply(outcome: ProviderOutcome): (r: Response)
    ensures r.status == 200 <==> outcome.Responded? && IsOk(outcome.status)
    ensures r.body.MessageBody? <==> r.status == 200
    ensures r.body.MessageBody? ==> r.body.message == Subscribed
    ensures r.body.ErrorBody? ==> Truthy(r.body.error)
    ensures outcome.Responded? && !IsOk(outcome.status) && !outcome.body.Unparseable? && !outcome.body.JsonNull?
            ==> r.status == outcome.status
  {
    match outcome
    case Threw => Response(500, ErrorBody(Str(InternalError)))
    case Responded(status, body) =>
      if IsOk(status) then Response(200, MessageBody(Subscribed))
      else
        match body
        case Unparseable => Response(500, ErrorBody(Str(InternalError)))
        case JsonNull => Response(500, ErrorBody(Str(InternalError)))
        case JsonPrimitive => Response(status, ErrorBody(Or(Undefined, Str(SubscribeFailed))))
        case JsonObject(message) => Response(status, ErrorBody(Or(message, Str(SubscribeFailed))))
  }

  /** The handler. `email` is the request body's `email` field. */
  function Post(email: JsValue, config: Config, provider: ProviderOutcome): (r: Exchange)
    // a provider call is made exactly when both guards pass, and it carries the
    // configured secret and the request's email to the configured form's endpoint
    ensures r.outbound.Some? <==> Truthy(email) && IsSet(config.apiSecret) && IsSet(config.formId)
    ensures r.outbound.Some? ==>
              && r.outbound.value.url == SubscribeUrl(config.formId.value)
              && r.outbound.value.apiSecret == config.apiSecret.value
              && r.outbound.value.email == email
    // success is reported exactly when the call was made and the provider said ok
    ensures r.response.status == 200 <==> r.outbound.Some? && provider.Responded? && IsOk(provider.status)
    ensures r.response.body.MessageBody? <==> r.response.status == 200
    ensures r.response.body.MessageBody? ==> r.response.body.message == Subscribed
    // every failure carries a truthy `error`
    ensures r.response.body.ErrorBody? ==> Truthy(r.response.body.error)
  {
    if !Truthy(email) then
      Exchange(None, Response(400, ErrorBody(Str(EmailRequired))))
    else if !IsSet(config.apiSecret) || !IsSet(config.formId) then
      Exchange(None, Response(500, ErrorBody(Str(ConfigurationError))))
    else
      var request := OutboundRequest(SubscribeUrl(config.formId.value), config.apiSecret.value, email);
      Exchange(Some(request), ProviderReply(provider))
  }

  /** A missing or falsy email is answered with 400 before anything else is looked
      at: the configuration and the provider play no part. */
  lemma EmailCheckComesFirst(email: JsValue, c1: Config, c2: Config, p1: ProviderOutcome, p2: ProviderOutcome)
    requires !Truthy(email)
    ensures Post(email, c1, p1) == Post(email, c2, p2)
    ensures Post(email, c1, p1) == Exchange(None, Response(400, ErrorBody(Str(EmailRequired))))
  {
  }

  /** With a truthy email, an unset secret or form id is answered with 500 and no
      provider call, whatever the provider would have said. */
  lemma ConfigurationCheckedBeforeCall(email: JsValue, config: Config, p1: ProviderOutcome, p2: ProviderOutcome)
    requires Truthy(email)
    requires !IsSet(config.apiSecret) || !IsSet(config.formId)
    ensures Post(email, config, p1) == Post(email, config, p2)
    ensures Post(email, config, p1) == Exchange(None, Response(500, ErrorBody(Str(ConfigurationError))))
  {
  }

  /** The reply does not depend on the provider unless the provider was called. */
  lemma NoCallNoDependence(email: JsValue, config: Config, p1: ProviderOutcome, p2: ProviderOutcome)
    requires Post(email, config, p1).outbound.None?
    ensures Post(email, config, p1) == Post(email, config, p2)
  {
  }

  /** A provider rejection whose body parses to something other than `null` is
      forwarded with the provider's own status, and with its `message` when that is
      truthy, else "Error subscribing". */
  lemma RejectionForwarded(email: JsValue, config: Config, status: int, message: JsValue)
    requires Truthy(email) && IsSet(config.apiSecret) && IsSet(config.formId)
    requires !IsOk(status)
    ensures Post(email, config, Responded(status, JsonObject(message))).response
            == Response(status, ErrorBody(if Truthy(message) then message else Str(SubscribeFailed)))
    ensures Post(email, config, Responded(status, JsonPrimitive)).response
            == Response(status, ErrorBody(Str(SubscribeFailed)))
  {
  }

  /** A thrown call, an unparseable rejection body or a `null` one all give the
      generic 500, never the "Error subscribing" fallback. */
  lemma FailuresAreInternal(email: JsValue, config: Config, provider: ProviderOutcome)
    requires Truthy(email) && IsSet(config.apiSecret) && IsSet(config.formId)
    requires provider.Threw? || (!IsOk(provider.status) && provider.body in {Unparseable, JsonNull})
    ensures Post(email, config, provider).response == Response(500, ErrorBody(Str(InternalError)))
  {
  }

  /** Every status the handler answers with is 200, 400, 500, or the provider's own. */
  lemma ResponseStatuses(email: JsValue, config: Config, provider: ProviderOutcome)
    ensures var s := Post(email, config, provider).response.status;
            s in {200, 400, 500} || (provider.Responded? && s == provider.status)
  {
  }

  /** Seen from the caller, whose `fetch` reports `ok` for statuses 200 to 299: once
      both guards pass, the caller sees ok exactly when the provider did. */
  lemma CallerOkIffProviderOk(email: JsValue, config: Config, provider: ProviderOutcome)
    requires Truthy(email) && IsSet(config.apiSecret) && IsSet(config.formId)
    ensures IsOk(Post(email, config, provider).response.status) <==> provider.Responded? && IsOk(provider.status)
  {
  }

  /** The worked examples of the relay's interface. */
  lemma Examples(config: Config)
    requires IsSet(config.apiSecret) && IsSet(config.formId)
    ensures Post(Str(""), config, Threw).response == Response(400, ErrorBody(Str("Email is required")))
    ensures Post(Undefined, config, Threw).response == Response(400, ErrorBody(Str("Email is required")))
    ensures Post(Str("a@b.c"), Config(None, config.formId), Threw).response
            == Response(500, ErrorBody(Str("Server configuration error")))
    ensures Post(Str("a@b.c"), config, Responded(200, JsonPrimitive)).response
            == Response(200, MessageBody("Subscribed successfully"))
    ensures Post(Str("a@b.c"), config, Responded(422, JsonObject(Str("Already subscribed")))).response
            == Response(422, ErrorBody(Str("Already subscribed")))
    ensures Post(Str("a@b.c"), config, Threw).response == Response(500, ErrorBody(Str("Internal server error")))
  {
  }
}
