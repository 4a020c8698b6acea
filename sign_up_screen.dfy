/** The sign-up form: its five inputs and the e-mail error it shows, the
    length caps on two inputs, and `handleSignUp`'s guard order. The answer
    of the `register` call is a parameter of the submit handler. */
module SignUpScreen {
  import opened Wrappers
  import opened EmailSyntax
  import opened UserSchema
  import opened UserRoutes

  const FillAllFields := "Please fill in all fields"
  const InvalidEmail := "Please enter a valid email address"

  /** What the form sends to `register`. */
  datatype RegisterRequest = RegisterRequest(
    username: string, email: string, password: string,
    phoneNumber: string, aadharNumber: string, role: string)

  /** The answer `register` resolves to. */
  datatype Answer = Answer(success: bool, message: string)

  /** What one press of the button does: an alert, the e-mail error, or a
      request sent whose answer either moves on to sign-in or is alerted. */
  datatype SignUpOutcome =
    | Alerted(message: string)
    | EmailRejected
    | Registered(request: RegisterRequest)
    | RegisterRefused(request: RegisterRequest, message: string)

  datatype Fields = Fields(username: string, email: string, password: string, phoneNumber: string, aadharNumber: string)

  predicate AllFilled(f: Fields) {
    f.username != "" && f.email != "" && f.password != "" && f.phoneNumber != "" && f.aadharNumber != ""
  }

  /** The handler's decision for the form's fields and the server's answer. */
  function SignUpDecision(f: Fields, answer: Answer): (o: SignUpOutcome)
    ensures o == Alerted(FillAllFields) <==> !AllFilled(f)
    ensures o.EmailRejected? <==> AllFilled(f) && !ValidEmail(f.email)
    ensures (o.Registered? || o.RegisterRefused?) <==> AllFilled(f) && ValidEmail(f.email)
    ensures o.Registered? || o.RegisterRefused? ==>
      && o.request.role == "user"
      && o.request.username == f.username && o.request.email == f.email && o.request.password == f.password
      && o.request.phoneNumber == f.phoneNumber && o.request.aadharNumber == f.aadharNumber
    ensures o.Registered? <==> AllFilled(f) && ValidEmail(f.email) && answer.success
  {
    if !AllFilled(f) then Alerted(FillAllFields)
    else if !ValidEmail(f.email) then EmailRejected
    else
      var request := RegisterRequest(f.username, f.email, f.password, f.phoneNumber, f.aadharNumber, "user");
      if answer.success then Registered(request) else RegisterRefused(request, answer.message)
  }

  /** A text input's `maxLength`: typing past the cap keeps the first `max`
      characters. No character class is enforced. */
  function CapInput(text: string, max: nat): (r: string)
    ensures |r| <= max && |r| <= |text| && r == text[..|r|]
    ensures |r| == max || r == text
    ensures |text| <= max ==> r == text
  {
    if |text| <= max then text else text[..max]
  }

  /** Example: the Aadhar and phone inputs only cap the length, so letters
      get through the form and are left to the server. */
  lemma {:induction false} CapsDoNotCheckDigits()
    ensures CapInput("12ab", 12) == "12ab"
    ensures CapInput("98765432101", 10) == "9876543210"
  {
  }

  class SignUpForm {
    var username: string
    var email: string
    var password: string
    var phoneNumber: string
    var aadharNumber: string
    var emailError: string

    constructor()
      ensures Current() == Fields("", "", "", "", "") && emailError == ""
    {
      username, email, password, phoneNumber, aadharNumber := "", "", "", "", "";
      emailError := "";
    }

    function Current(): Fields
      reads this
    {
      Fields(username, email, password, phoneNumber, aadharNumber)
    }

    /** Editing the e-mail input clears a shown error. */
    method EditEmail(text: string)
      modifies this
      ensures email == text && emailError == ""
      ensures username == old(username) && password == old(password)
      ensures phoneNumber == old(phoneNumber) && aadharNumber == old(aadharNumber)
    {
      email := text;
      if emailError != "" {
        emailError := "";
      }
    }

    method EditPhone(text: string)
      modifies this
      ensures Current() == old(Current()).(phoneNumber := CapInput(text, 10)) && emailError == old(emailError)
    {
      phoneNumber := CapInput(text, 10);
    }

    method EditAadhar(text: string)
      modifies this
      ensures Current() == old(Current()).(aadharNumber := CapInput(text, 12)) && emailError == old(emailError)
    {
      aadharNumber := CapInput(text, 12);
    }

    /** `handleSignUp`: the error is cleared first and set again only for an
        invalid address; the fields are left as they are. */
    method HandleSignUp(answer: Answer) returns (o: SignUpOutcome)
      modifies this
      ensures o == SignUpDecision(old(Current()), answer)
      ensures Current() == old(Current())
      ensures emailError == (if o.EmailRejected? then InvalidEmail else "")
    {
      emailError := "";
      if username == "" || email == "" || password == "" || phoneNumber == "" || aadharNumber == "" {
        return Alerted(FillAllFields);
      }
      if !ValidEmail(email) {
        emailError := InvalidEmail;
        return EmailRejected;
      }
      var request := RegisterRequest(username, email, password, phoneNumber, aadharNumber, "user");
      if answer.success {
        o := Registered(request);
      } else {
        o := RegisterRefused(request, answer.message);
      }
    }
  }

  /** The server side of the request the form sends. */
  function AsBody(r: RegisterRequest): RegisterBody {
    RegisterBody(r.username, r.phoneNumber, r.aadharNumber, r.email, r.password, r.role)
  }

  /** Accounts made through the form are plain users: the form always sends
      role "user", and the register route stores the role it is sent. */
  lemma {:induction false} FormRegistersPlainUsers(users: seq<User>, f: Fields, answer: Answer, newId: string)
    requires SignUpDecision(f, answer).Registered? || SignUpDecision(f, answer).RegisterRefused?
    requires RegisterUser(users, AsBody(SignUpDecision(f, answer).request), newId).0.Ok?
    ensures var stored := RegisterUser(users, AsBody(SignUpDecision(f, answer).request), newId).1;
      stored[|users|].role == "user"
  {
    RoleFromBody(users, AsBody(SignUpDecision(f, answer).request), newId);
  }
}
