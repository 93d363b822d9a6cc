# NextKit Form: the waitlist form and the subscription relay, in Dafny

This project models the logic of a Next.js landing page with a waitlist sign-up.
That logic has three parts:

- **`isValidEmail`**, the client-side syntactic check. It tests a string against
  `^[^\s@]+@[^\s@]+\.[^\s@]+$` (`email_validation.dfy`).
  - `MatchesPattern` is the language of that regular expression: a local part, `@`,
    a first domain part, `.`, and a last domain part. Each part is a non-empty run of
    characters that are neither `@` nor whitespace.
  - `IsValidEmail` is a decision procedure for the same language. It checks for no
    whitespace, exactly one `@`, a non-empty local part, and a `.` inside the domain
    with at least one character on each side.
  - A lemma proves that the two agree on every string.
  - `\s` is the fixed ECMAScript set of WhiteSpace and LineTerminator code points.
- **The waitlist form controller** (`waitlist_form.dfy`). The class `Form` holds the
  state cells `email`, `status` (Idle, Loading, Success or Error) and `emailError`.
  - `OnChange` is the input's change handler.
  - The async submit handler is split at its `await`. `Submit` covers validation,
    moving to Loading and issuing the request. `Settle` is the continuation that
    runs on the reply.
  - `Valid()` is the invariant that every method preserves: an inline error, when
    one is shown, is the fixed message, and the field then holds an address the
    check rejects.
- **The `POST /api/subscribe` relay** (`subscribe_route.dfy`). `Post` is a total
  function of four inputs: the request's `email` field, the two configuration
  values, and the provider's outcome. It returns the provider call it makes (if
  any) and the `(status, JSON body)` reply.
  - The checks run in order: the email, then the configuration, then the provider
    call.
  - The provider's outcome is one of: a thrown call, or a response with a status
    and a body. The body is unparseable, `null`, a primitive, or an object or array,
    whose `message` may be absent.

`signup_flow.dfy` puts the three together. A visitor types an address into a fresh
form and the submit handler runs (the browser's own field check is left out, see
below); the form's request goes to the relay, and the relay's reply
decides the form's final status. `js_values.dfy` holds the JSON values that cross
these boundaries and JavaScript truthiness (`!v`, `v || fallback`).

The network calls and the environment lookup are inputs. The form-to-relay call
is a `Reply`, or the two flags `handlerRuns` (the request reaches the handler) and
`replyArrives` (the handler's reply gets back). The relay-to-provider call is a
`ProviderOutcome`, and `process.env` is a `Config`.

Two behaviours of the code are easy to misread:

- A provider rejection whose body does not parse as JSON, or parses to `null`, is
  answered with the generic 500 "Internal server error" rather than with the "Error
  subscribing" fallback. `response.json()` (app/api/subscribe/route.ts:37), or
  reading `.message` from `null` just after it, throws inside the `try`.
- The relay's email check (app/api/subscribe/route.ts:8) is JavaScript truthiness.
  `false` and `0` are refused like a missing or empty field, and any truthy
  non-string value is forwarded to the provider unchanged. The relay does no
  syntactic check of its own.

## Model

| member | source | states |
|---|---|---|
| `JsValues.Truthy` | app/api/subscribe/route.ts:8 | `undefined` and `null` are falsy, objects and arrays are truthy, a boolean is truthy exactly when it is `true`, a number exactly when it is not `0`, and a string exactly when it is non-empty |
| `JsValues.IsSet` | app/api/subscribe/route.ts:15 | a setting counts as present exactly when its JavaScript value (a string, or undefined) is truthy |
| `JsValues.Or` | app/api/subscribe/route.ts:39 | `a \|\| b` is `a` when `a` is truthy and `b` otherwise, so it is truthy exactly when either operand is |
| `EmailValidation.IsValidEmail` | app/page.tsx:41-44 | an accepted string contains `@` and has at least five characters |
| `EmailValidation.ValidIffMatchesPattern` | app/page.tsx:41-44 | the check accepts a string exactly when the string is `L@A.B` with `L`, `A`, `B` non-empty and free of whitespace and `@` |
| `EmailValidation.WhitespaceRejected` | app/page.tsx:43 | a string containing any `\s` character is rejected |
| `EmailValidation.MissingAtRejected` | app/page.tsx:43 | a string with no `@` is rejected |
| `EmailValidation.SecondAtRejected` | app/page.tsx:43 | a string with `@` at two positions is rejected |
| `EmailValidation.AcceptsPlainAddress` | app/page.tsx:43 | `user@example.com` is accepted |
| `EmailValidation.AcceptsDotInDomainPart` | app/page.tsx:43 | `a@b..c` is accepted, because the domain parts may contain dots |
| `EmailValidation.RejectsEmptyFirstDomainPart` | app/page.tsx:43 | `user@.com` is rejected |
| `EmailValidation.RejectsEmptyLastDomainPart` | app/page.tsx:43 | `user@com.` is rejected |
| `EmailValidation.RejectsEmptyLocalPart` | app/page.tsx:43 | `@b.c` and the empty string are rejected |
| `WaitlistForm.Form.constructor` | app/page.tsx:47-51 | a new form has an empty field, status Idle and no error |
| `WaitlistForm.Form.OnChange` | app/page.tsx:189-196 | the field takes the new text; a showing error is cleared only when the new text passes the check, and is otherwise kept; the status is unchanged; the invariant is kept |
| `WaitlistForm.Form.Submit` | app/page.tsx:53-71 | a rejected address sets the error to "Please enter a valid email address." and issues no request, with status and field unchanged; an accepted one clears the error, sets Loading and issues exactly one request carrying the field's address |
| `WaitlistForm.Form.Settle` | app/page.tsx:73-83 | an ok reply gives Success and empties the field; a non-ok or thrown reply gives Error and keeps the typed address; the error is untouched |
| `SubscribeRoute.IsOk` | app/api/subscribe/route.ts:36 | a status is ok exactly when it is in the 2xx class |
| `SubscribeRoute.SubscribeUrl` | app/api/subscribe/route.ts:24-25 | the provider URL is `https://api.convertkit.com/v3/forms/`, then the form id, then `/subscribe` |
| `SubscribeRoute.ProviderReply` | app/api/subscribe/route.ts:36-51 | status 200 with the message "Subscribed successfully" exactly when the provider's status is ok; a rejection whose body parses to something other than `null` keeps the provider's status; every error body carries a truthy `error` |
| `SubscribeRoute.Post` | app/api/subscribe/route.ts:5-52 | a provider call is made exactly when the email is truthy and both settings are set; that call carries the secret and the email to the form's URL; 200 exactly when the call was made and the provider said ok; a message body exactly at 200, always "Subscribed successfully"; every error is truthy |
| `SubscribeRoute.EmailCheckComesFirst` | app/api/subscribe/route.ts:8-10 | a falsy email gives 400 "Email is required" and no call, whatever the configuration and the provider |
| `SubscribeRoute.ConfigurationCheckedBeforeCall` | app/api/subscribe/route.ts:12-21 | with a truthy email, an unset or empty secret or form id gives 500 "Server configuration error" and no call, whatever the provider |
| `SubscribeRoute.NoCallNoDependence` | app/api/subscribe/route.ts:5-21 | when no provider call is made, the reply does not depend on the provider |
| `SubscribeRoute.RejectionForwarded` | app/api/subscribe/route.ts:36-42 | a non-ok provider reply whose body parses to something other than `null` is forwarded with its own status, and with its `message` when truthy, else "Error subscribing" |
| `SubscribeRoute.FailuresAreInternal` | app/api/subscribe/route.ts:36-51 | a thrown call, or a non-ok reply whose body is unparseable or `null`, gives 500 "Internal server error" |
| `SubscribeRoute.ResponseStatuses` | app/api/subscribe/route.ts:5-52 | the relay answers only with 200, 400, 500 or the provider's own status |
| `SubscribeRoute.CallerOkIffProviderOk` | app/api/subscribe/route.ts:36-44 | once both checks pass, the caller sees an ok status exactly when the provider's status was ok |
| `SubscribeRoute.Examples` | app/api/subscribe/route.ts:5-52 | an empty or absent email gives 400; no secret gives 500; provider 200 gives 200 "Subscribed successfully"; a provider 422 with "Already subscribed" is forwarded as 422; a thrown call gives 500 |
| `SignupFlow.ReplyFor` | app/page.tsx:65-73 | the form's `fetch` reads a relay reply as ok exactly when its status is 200 to 299, and never as thrown |
| `SignupFlow.SignUp` | app/page.tsx:53-84 | a rejected address leaves the form Idle with the error shown and reaches nobody; an accepted one goes Idle, Loading, then Success exactly when the handler ran, its reply arrived, both settings are set and the provider said ok, so Success implies the provider was called and said ok; a reply lost after the handler ran ends in Error even though the provider got the address; the field is emptied only on Success; the provider gets exactly one request with the typed address exactly when all of that upstream allowed it |

## Left out

- The browser's own constraint validation: the input is `type="email"` and `required` (app/page.tsx:184-197), so the browser does not fire the submit event for an empty field or a value that is not a valid email under the HTML rules. The model starts at the submit event, and `SignupFlow.SignUp` describes the handlers, not what the page shows for such input.
- The network: both `fetch` calls are abstract outcomes (`Reply`, `handlerRuns`, `replyArrives`, `ProviderOutcome`). Headers, JSON encoding and `NextResponse.json` serialisation are not modelled.
- Async scheduling: the submit handler is two methods joined at its `await`. Overlapping submissions, and the button disabled while Loading (app/page.tsx:207), are not modelled: they are about concurrency and presentation.
- A malformed request body to the relay, or one that parses to `null`, whose destructuring throws: both `request.json()` and the destructuring sit outside the `try` (app/api/subscribe/route.ts:6), so what happens then is up to the framework.
- The client's reading of the relay's `error` field on a non-ok reply (app/page.tsx:74-75): it only feeds a thrown error that is logged. Any non-ok reply ends in Error, whether or not its body parses.
- `console.error` logging in both files.
- JSON numbers are integers here. Fractions and `NaN` are not represented, so their truthiness is not modelled.
- SubscribeRoute.ProviderReply: the provider's status is forwarded as given. `NextResponse.json` would reject a status outside 200 to 599, but a `fetch` response never carries one.
- All rendering: the JSX, `MailIcon`, `Pin`, images, links and animations in app/page.tsx. components/Footer.tsx and app/layout.tsx are static markup, fonts, metadata and analytics with no logic, and are not part of this model.
