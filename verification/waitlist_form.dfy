/** The waitlist form on the landing page: three state cells (the typed email, the
    submission status and the inline validation error), the input's change
    handler and the submit handler. The submit handler runs in two steps: up to
    the awaited call to `/api/subscribe` (Submit), and after it (Settle). */
module WaitlistForm {
  import opened JsValues
  import opened EmailValidation

  datatype Status = Idle | Loading | Success | Error

  /** The body `{ email }` the form posts to `/api/subscribe`. */
  datatype SubscribeRequest = SubscribeRequest(email: string)

  /** How the form's own `fetch` to `/api/subscribe` ends: a response whose `ok`
      is set, a response whose `ok` is not (whether or not its body then parses),
      or a rejected call. */
  datatype Reply = ReplyOk | ReplyNotOk | ReplyThrew

  const InvalidEmailMessage := "Please enter a valid email address."

  class Form {
    var email: string
    var status: Status
    var emailError: string

    /** The inline error is either absent or the one fixed message, and it is only
        ever shown while the field holds an address the check rejects. */
    ghost predicate Valid()
      reads this
    {
      emailError != "" ==> emailError == InvalidEmailMessage && !IsValidEmail(email)
    }

    /** A freshly rendered form: empty field, idle, no error. */
    constructor ()
      ensures Valid()
      ensures email == "" && status == Idle && emailError == ""
    {
      email := "";
      status := Idle;
      emailError := "";
    }

    /** The input's change handler: stores the new text, and clears a showing error
        once the text passes the check. The status is never touched. */
    method OnChange(value: string)
      requires Valid()
      modifies this
      ensures Valid()
      ensures email == value
      ensures status == old(status)
      ensures emailError == (if old(emailError) != "" && IsValidEmail(value) then "" else old(emailError))
    {
      email := value;
      if emailError != "" {
        if IsValidEmail(value) {
          emailError := "";
        }
      }
    }

    /** The submit handler up to the awaited call. An address the check rejects sets
        the inline error and issues nothing; an accepted one clears the error, moves
        to Loading and issues exactly one request carrying the typed address. */
    method Submit() returns (request: Option<SubscribeRequest>)
      requires Valid()
      modifies this
      ensures Valid()
      ensures email == old(email)
      ensures !IsValidEmail(old(email)) ==>
                request == None && emailError == InvalidEmailMessage && status == old(status)
      ensures IsValidEmail(old(email)) ==>
                request == Some(SubscribeRequest(old(email))) && emailError == "" && status == Loading
    {
      emailError := "";
      if !IsValidEmail(email) {
        emailError := InvalidEmailMessage;
        return None;
      }
      status := Loading;
      request := Some(SubscribeRequest(email));
    }

    /** The submit handler after the awaited call: Success and an emptied field when
        the reply is ok; Error, with the typed address kept, when it is not ok or the
        call threw. The inline error is not touched. */
    method Settle(reply: Reply)
      requires Valid()
      modifies this
      ensures Valid()
      ensures reply == ReplyOk ==> status == Success && email == ""
      ensures reply != ReplyOk ==> status == Error && email == old(email)
      ensures emailError == old(emailError)
    {
      if reply == ReplyOk {
        status := Success;
        email := "";
        RejectsEmptyLocalPart();
      } else {
        status := Error;
      }
    }
  }
}
