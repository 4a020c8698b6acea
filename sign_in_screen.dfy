/** The sign-in screen: `handleSignIn`'s guard order and the inline error
    under the e-mail input. The answer of the `login` call is a parameter. */
module SignInScreen {
  import opened EmailSyntax

  const FillAllFields := "Please fill in all fields"
  const InvalidEmail := "Please enter a valid email address"

  datatype Answer = Answer(success: bool, message: string)

  datatype SignInOutcome =
    | Alerted(message: string)
    | LoginSent(email: string, password: string, next: AfterLogin)

  /** After the request: on to the main tabs, or an alert. */
  datatype AfterLogin = ToMainTabs | LoginAlert(message: string)

  /** The handler's decision for the two inputs and the server's answer. */
  function SignInDecision(email: string, password: string, answer: Answer): (o: SignInOutcome)
    ensures o == Alerted(FillAllFields) <==> email == "" || password == ""
    ensures o == Alerted(InvalidEmail) <==> email != "" && password != "" && !ValidEmail(email)
    ensures o.LoginSent? <==> email != "" && password != "" && ValidEmail(email)
    ensures o.LoginSent? ==> o.email == email && o.password == password
    ensures o.LoginSent? && o.next.LoginAlert? ==> o.next.message != ""
  {
    if email == "" || password == "" then Alerted(FillAllFields)
    else if !ValidEmail(email) then Alerted(InvalidEmail)
    else
      LoginSent(email, password,
        if answer.success then ToMainTabs
        else LoginAlert(if answer.message != "" then answer.message else "Login failed"))
  }

  /** The screen moves to the main tabs only after a successful login. */
  lemma {:induction false} NavigatesOnlyOnSuccess(email: string, password: string, answer: Answer)
    ensures var o := SignInDecision(email, password, answer);
      (o.LoginSent? && o.next == ToMainTabs) <==> email != "" && password != "" && ValidEmail(email) && answer.success
  {
  }

  /** Whether the inline error is shown under the e-mail input. */
  function ShowInlineError(email: string): (shown: bool)
    ensures shown ==> email != ""
  {
    email != "" && !ValidEmail(email)
  }

  /** The inline error and the handler agree: with a password typed, the
      invalid-address alert comes exactly when the inline error is shown. */
  lemma {:induction false} InlineErrorAgreesWithHandler(email: string, password: string, answer: Answer)
    requires password != ""
    ensures ShowInlineError(email) <==> SignInDecision(email, password, answer) == Alerted(InvalidEmail)
  {
  }
}
