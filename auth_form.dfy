/** The sign-in and sign-up form: the password and full-name rules of each
    form type, the per-type texts and links, and what a submit leads to. The
    server actions' results are parameters. */
module AuthForm {
  import opened Wrappers
  import opened JsString

  datatype FormType = SignIn | SignUp

  function Other(t: FormType): FormType {
    match t case SignIn => SignUp case SignUp => SignIn
  }

  function Route(t: FormType): string {
    match t case SignIn => "/sign-in" case SignUp => "/sign-up"
  }

  // ---------------------------------------------------------------------------
  // Field rules

  const PasswordTooShort: string := "La contraseña debe tener al menos 8 caracteres"
  const PasswordNoLetter: string := "La contraseña debe contener al menos una letra"
  const PasswordNoDigit: string := "La contraseña debe contener al menos un número"
  const PasswordMissing: string := "Por favor, ingresa tu contraseña"
  const NameTooShort: string := "El nombre debe tener al menos 2 caracteres"
  const NameTooLong: string := "El nombre no puede tener más de 50 caracteres"

  /** `/[a-zA-Z]/.test(s)`. */
  predicate HasLetter(s: string) {
    exists i :: 0 <= i < |s| && IsAsciiLetter(s[i])
  }

  /** `/[0-9]/.test(s)`. */
  predicate HasDigit(s: string) {
    exists i :: 0 <= i < |s| && IsAsciiDigit(s[i])
  }

  /** The messages of every password check that fails, in schema order;
      lengths are counted in UTF-16 code units, as `.min` does. */
  function PasswordIssues(t: FormType, password: string): (r: seq<string>)
    ensures forall m :: m in r ==>
              m in (if t == SignUp then {PasswordTooShort, PasswordNoLetter, PasswordNoDigit} else {PasswordMissing})
    ensures t == SignIn ==> |r| <= 1
  {
    match t
    case SignUp =>
      (if Utf16Length(password) < 8 then [PasswordTooShort] else [])
      + (if !HasLetter(password) then [PasswordNoLetter] else [])
      + (if !HasDigit(password) then [PasswordNoDigit] else [])
    case SignIn =>
      if Utf16Length(password) < 1 then [PasswordMissing] else []
  }

  /** A sign-up password passes exactly when it has eight or more code units,
      an ASCII letter and an ASCII digit; a sign-in password exactly when it
      is not empty. */
  lemma PasswordRules(password: string)
    ensures PasswordIssues(SignUp, password) == [] <==>
              Utf16Length(password) >= 8 && HasLetter(password) && HasDigit(password)
    ensures PasswordIssues(SignIn, password) == [] <==> password != []
  {
  }

  /** Every password sign-up accepts, sign-in accepts too. */
  lemma SignUpPasswordSignsIn(password: string)
    requires PasswordIssues(SignUp, password) == []
    ensures PasswordIssues(SignIn, password) == []
  {
  }

  /** The full name: 2 to 50 code units on sign-up, anything (or nothing) on
      sign-in. */
  function FullNameIssues(t: FormType, fullName: string): (r: seq<string>)
    ensures |r| <= 1
    ensures forall m :: m in r ==> t == SignUp && m in {NameTooShort, NameTooLong}
  {
    match t
    case SignUp =>
      (if Utf16Length(fullName) < 2 then [NameTooShort] else [])
      + (if Utf16Length(fullName) > 50 then [NameTooLong] else [])
    case SignIn => []
  }

  lemma FullNameRules(fullName: string)
    ensures FullNameIssues(SignUp, fullName) == [] <==> 2 <= Utf16Length(fullName) <= 50
    ensures FullNameIssues(SignIn, fullName) == []
    ensures |FullNameIssues(SignUp, fullName)| <= 1
  {
  }

  // ---------------------------------------------------------------------------
  // Texts and links

  datatype FormConfig = FormConfig(
    title: string,
    buttonText: string,
    linkText: string,
    linkHref: string,
    promptText: string,
    showForgot: bool)

  /** `formConfig[type]`. */
  function Config(t: FormType): (c: FormConfig)
    ensures c.title == c.buttonText && c.showForgot == (t == SignIn)
    ensures c.linkHref == Route(Other(t))
  {
    match t
    case SignIn => FormConfig("Sign In", "Sign In", "Sign Up", "/sign-up", "Don't have an account?", true)
    case SignUp => FormConfig("Sign Up", "Sign Up", "Sign In", "/sign-in", "Already have an account?", false)
  }

  /** Only sign-in offers "forgot", and each form links to the other one,
      naming it by its title. */
  lemma ConfigLinks(t: FormType)
    ensures Config(t).showForgot <==> t == SignIn
    ensures Config(t).linkHref == Route(Other(t))
    ensures Config(t).linkText == Config(Other(t)).title
    ensures Config(t).title == Config(t).buttonText
  {
  }

  // ---------------------------------------------------------------------------
  // Submit

  /** What a submit leads to. */
  datatype Outcome = Rejected(issues: seq<string>) | Redirect(route: string) | ShowError(message: string)

  /** What the server action did: finished with a session id, or threw; the
      message is None when what it threw is not an `Error`. */
  datatype ActionResult = Done(sessionId: string) | Threw(message: Option<string>)

  const SignInFailed: string := "Error al iniciar sesión."
  const AuthFailed: string := "Failed to authenticate. Please try again."

  function ThrownMessage(message: Option<string>): string {
    match message case Some(m) => m case None => AuthFailed
  }

  /** `onSubmit` as written: the sign-in branch redirects only on a truthy
      `ok`, a field the sign-in action's response (`{sessionId}`) never has. */
  function OnSubmitAsWritten(t: FormType, result: ActionResult): (o: Outcome)
    ensures o.Redirect? <==> t == SignUp && result.Done?
    ensures !o.Rejected?
    ensures result.Threw? ==> o == ShowError(ThrownMessage(result.message))
  {
    match result
    case Threw(m) => ShowError(ThrownMessage(m))
    case Done(_) => if t == SignUp then Redirect("/") else ShowError(SignInFailed)
  }

  /** As written, a sign-in never reaches the home page, whatever the action
      returns. */
  lemma SignInNeverRedirectsAsWritten(result: ActionResult)
    ensures !OnSubmitAsWritten(SignIn, result).Redirect?
    ensures result.Done? ==> OnSubmitAsWritten(SignIn, result) == ShowError(SignInFailed)
  {
  }

  /** `onSubmit` as intended: a sign-in that produced a session redirects. */
  function OnSubmit(t: FormType, result: ActionResult): (o: Outcome)
    ensures o.Redirect? <==> result.Done?
    ensures !o.Rejected?
  {
    match result
    case Threw(m) => ShowError(ThrownMessage(m))
    case Done(_) => Redirect("/")
  }

  /** Either form redirects home exactly when its action succeeded, and shows
      the thrown message otherwise. */
  lemma OnSubmitRedirectsOnSuccess(t: FormType, result: ActionResult)
    ensures OnSubmit(t, result) == Redirect("/") <==> result.Done?
    ensures result.Threw? ==> OnSubmit(t, result) == ShowError(ThrownMessage(result.message))
    ensures t == SignUp ==> OnSubmit(t, result) == OnSubmitAsWritten(t, result)
  {
  }

  /** The whole submit as written: the schema first, whose failures keep the
      action from running, then the action and `OnSubmitAsWritten`. */
  function Submit(t: FormType, fullName: string, password: string, result: ActionResult): (o: Outcome)
    ensures o.Rejected? <==> PasswordIssues(t, password) != [] || FullNameIssues(t, fullName) != []
    ensures !o.Rejected? ==> o == OnSubmitAsWritten(t, result)
    ensures t == SignIn ==> !o.Redirect?
  {
    var issues := FullNameIssues(t, fullName) + PasswordIssues(t, password);
    if issues != [] then Rejected(issues) else OnSubmitAsWritten(t, result)
  }

  /** The whole submit with the intended `OnSubmit`: either form reaches the
      home page exactly when the schema passes and the action succeeds. */
  function SubmitIntended(t: FormType, fullName: string, password: string, result: ActionResult): (o: Outcome)
    ensures o.Rejected? <==> PasswordIssues(t, password) != [] || FullNameIssues(t, fullName) != []
    ensures !o.Rejected? ==> o == OnSubmit(t, result)
    ensures o == Redirect("/") <==> PasswordIssues(t, password) == [] && FullNameIssues(t, fullName) == [] && result.Done?
  {
    var issues := FullNameIssues(t, fullName) + PasswordIssues(t, password);
    if issues != [] then Rejected(issues) else OnSubmit(t, result)
  }
}
