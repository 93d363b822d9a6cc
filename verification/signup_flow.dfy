/** One sign-up from end to end: the visitor types an address into a fresh form
    and submits it; the form posts it to `/api/subscribe`, whose handler calls the
    provider; the handler's reply decides where the form ends. */
module SignupFlow {
  import opened JsValues
  import opened EmailValidation
  import opened SubscribeRoute
  import opened WaitlistForm

  /** How the form's `fetch` sees a reply of the handler: `ok` for 200 to 299. */
  function ReplyFor(response: Response): (reply: Reply)
    ensures reply != ReplyThrew
    ensures reply == ReplyOk <==> IsOk(response.status)
  {
    if IsOk(response.status) then ReplyOk else ReplyNotOk
  }

  /** `typed` is what the visitor enters. `handlerRuns` says whether the form's call
      reaches the handler, and `replyArrives` whether the handler's reply then gets
      back to the form; when either is false the form's `fetch` rejects. A reply can
      be lost after the handler has called the provider. `config` and `provider` are
      the handler's configuration and the provider's outcome. `statuses` lists the
      form's status after each step that sets it. */
  method SignUp(typed: string, handlerRuns: bool, replyArrives: bool, config: Config, provider: ProviderOutcome)
    returns (statuses: seq<Status>, shownError: string, finalEmail: string, outbound: Option<OutboundRequest>)
    // a rejected address never leaves the page
    ensures !IsValidEmail(typed) ==>
              statuses == [Idle] && outbound == None && shownError == InvalidEmailMessage && finalEmail == typed
    // an accepted one goes idle, then loading, then success or error
    ensures IsValidEmail(typed) ==>
              |statuses| == 3 && statuses[0] == Idle && statuses[1] == Loading &&
              statuses[2] in {Success, Error} && shownError == ""
    // success exactly when every hop succeeded, and only then is the field emptied
    ensures IsValidEmail(typed) ==>
              (statuses[2] == Success <==>
                 handlerRuns && replyArrives && IsSet(config.apiSecret) && IsSet(config.formId) &&
                 provider.Responded? && IsOk(provider.status))
    // the form never shows success unless the provider was called and said ok
    ensures IsValidEmail(typed) && statuses[2] == Success ==>
              outbound.Some? && provider.Responded? && IsOk(provider.status)
    ensures IsValidEmail(typed) ==> finalEmail == (if statuses[2] == Success then "" else typed)
    // the provider hears of the address exactly once, and only when everything upstream allowed it
    ensures outbound.Some? <==>
              IsValidEmail(typed) && handlerRuns && IsSet(config.apiSecret) && IsSet(config.formId)
    ensures outbound.Some? ==>
              outbound.value == OutboundRequest(SubscribeUrl(config.formId.value), config.apiSecret.value, Str(typed))
  {
    var form := new Form();
    statuses := [form.status];
    form.OnChange(typed);
    var request := form.Submit();
    outbound := None;
    if request.Some? {
      statuses := statuses + [form.status];
      var reply := ReplyThrew;
      if handlerRuns {
        var exchange := Post(Str(request.value.email), config, provider);
        outbound := exchange.outbound;
        if replyArrives {
          reply := ReplyFor(exchange.response);
          if IsSet(config.apiSecret) && IsSet(config.formId) {
            CallerOkIffProviderOk(Str(typed), config, provider);
          }
        }
      }
      form.Settle(reply);
      statuses := statuses + [form.status];
    }
    shownError := form.emailError;
    finalEmail := form.email;
  }
}
