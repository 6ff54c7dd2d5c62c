/** The sign-in / sign-up page: the password-match rule over the two
    password fields, the submit guard, the endpoint choice and the failure
    message. */
module Login {
  import opened Base
  import opened Effects

  const MismatchText := "Passwords không trùng nhau"
  const RegisteredText := "Đăng ký thành công, vui lòng đăng nhập."
  const FallbackText := "Link ngrok sai hoặc là xác thực link ngrok đi"
  const UnknownErrorText := "Lỗi không xác định."

  /** The inputs, by their `name` attributes "Email", "Password" and
      "ConfirmPassword" (the last shown only while signing up). */
  datatype LoginField = Email | Password | ConfirmPassword

  datatype LoginState = LoginState(
    isSignUp: bool,
    hasInteracted: bool,
    email: string,
    password: string,
    confirm: string,
    passwordError: string)

  function Initial(): (st: LoginState)
    ensures !st.isSignUp && !st.hasInteracted && st.passwordError == ""
    ensures st.email == "" && st.password == "" && st.confirm == ""
  {
    LoginState(false, false, "", "", "", "")
  }

  function Get(st: LoginState, f: LoginField): string {
    match f
    case Email => st.email
    case Password => st.password
    case ConfirmPassword => st.confirm
  }

  /** `handleInputChange`. The field takes the value. Editing the
      confirmation compares it with the current password; editing the
      password compares it with the confirmation only when that is
      non-empty; otherwise the error is left as it was. */
  function HandleInputChange(st: LoginState, f: LoginField, value: string): (st': LoginState)
    ensures Get(st', f) == value
    ensures forall g :: g != f ==> Get(st', g) == Get(st, g)
    ensures st'.isSignUp == st.isSignUp && st'.hasInteracted == st.hasInteracted
    ensures f == ConfirmPassword ==>
              st'.passwordError == (if value != st.password then MismatchText else "")
    ensures f == Password && st.confirm != "" ==>
              st'.passwordError == (if value != st.confirm then MismatchText else "")
    ensures (f == Email || (f == Password && st.confirm == "")) ==> st'.passwordError == st.passwordError
    ensures st'.passwordError == st.passwordError || st'.passwordError in {"", MismatchText}
  {
    var moved := match f
      case Email => st.(email := value)
      case Password => st.(password := value)
      case ConfirmPassword => st.(confirm := value);
    if f == ConfirmPassword then
      moved.(passwordError := if value != st.password then MismatchText else "")
    else if f == Password && st.confirm != "" then
      moved.(passwordError := if value != st.confirm then MismatchText else "")
    else moved
  }

  /** The mode toggle: flips sign-up and records that the user interacted. */
  function ToggleMode(st: LoginState): (st': LoginState)
    ensures st'.isSignUp == !st.isSignUp && st'.hasInteracted
    ensures st'.email == st.email && st'.password == st.password && st'.confirm == st.confirm
    ensures st'.passwordError == st.passwordError
  {
    st.(isSignUp := !st.isSignUp, hasInteracted := true)
  }

  /** The submit button is disabled while signing up with an error shown. */
  predicate SubmitDisabled(st: LoginState) {
    st.isSignUp && st.passwordError != ""
  }

  function Endpoint(isSignUp: bool): (e: string)
    ensures isSignUp ==> e == "/register"
    ensures !isSignUp ==> e == "/login"
  {
    if isSignUp then "/register" else "/login"
  }

  /** How a rejected auth request reached the page: an axios error whose
      response body may carry `detail` and `message`, or anything else. */
  datatype AuthFailure = AxiosFailure(detail: Option<string>, message: Option<string>) | UnknownFailure

  datatype AuthOutcome = AuthOk | AuthFailed(failure: AuthFailure)

  /** The alert text for a failure: `detail || message || fallback`, or the
      fixed unknown-error text for a non-axios error. */
  function FailureText(f: AuthFailure): (t: string)
    ensures t != ""
    ensures f.AxiosFailure? && Truthy(f.detail) ==> t == f.detail.value
    ensures f.AxiosFailure? && !Truthy(f.detail) && Truthy(f.message) ==> t == f.message.value
    ensures f.AxiosFailure? && !Truthy(f.detail) && !Truthy(f.message) ==> t == FallbackText
    ensures f.UnknownFailure? ==> t == UnknownErrorText
  {
    match f
    case AxiosFailure(detail, message) =>
      if Truthy(detail) then detail.value
      else if Truthy(message) then message.value
      else FallbackText
    case UnknownFailure => UnknownErrorText
  }

  /** `handleSubmit`. A sign-up with unequal passwords only sets the error;
      otherwise the credentials are posted to the mode's endpoint. A
      successful registration returns to sign-in mode; a successful login
      navigates home; a failure alerts its message. */
  function HandleSubmit(st: LoginState, outcome: AuthOutcome): (r: (LoginState, seq<Effect>))
    ensures st.isSignUp && st.password != st.confirm ==>
              r.0 == st.(passwordError := MismatchText) && r.1 == []
    ensures !(st.isSignUp && st.password != st.confirm) ==>
              |r.1| == 2 && r.1[0] == ApiAuth(Endpoint(st.isSignUp), st.email, st.password)
    ensures r.0.email == st.email && r.0.password == st.password && r.0.confirm == st.confirm
    ensures r.0.hasInteracted == st.hasInteracted
    ensures !(st.isSignUp && st.password != st.confirm) ==> r.0.passwordError == st.passwordError
  {
    if st.isSignUp && st.password != st.confirm then
      (st.(passwordError := MismatchText), [])
    else
      var sent := [ApiAuth(Endpoint(st.isSignUp), st.email, st.password)];
      match outcome
      case AuthOk =>
        if st.isSignUp then (st.(isSignUp := false), sent + [Alert(RegisteredText)])
        else (st, sent + [NavigateHome])
      case AuthFailed(f) => (st, sent + [Alert(FailureText(f))])
  }

  /** What follows the request: a registration lands back in sign-in mode
      with the success alert, a login navigates home, a failure changes no
      state and alerts its text. */
  lemma SubmitOutcomes(st: LoginState, outcome: AuthOutcome)
    requires !(st.isSignUp && st.password != st.confirm)
    ensures var r := HandleSubmit(st, outcome);
      && (outcome.AuthOk? && st.isSignUp ==> r.0 == st.(isSignUp := false) && r.1[1] == Alert(RegisteredText))
      && (outcome.AuthOk? && !st.isSignUp ==> r.0 == st && r.1[1] == NavigateHome)
      && (outcome.AuthFailed? ==> r.0 == st && r.1[1] == Alert(FailureText(outcome.failure)))
      && (NavigateHome in r.1 <==> outcome.AuthOk? && !st.isSignUp)
  {
  }

  /** The events the page reacts to. */
  datatype LoginEvent = Input(field: LoginField, value: string) | Toggle | Submit(outcome: AuthOutcome)

  function Step(st: LoginState, e: LoginEvent): LoginState {
    match e
    case Input(f, v) => HandleInputChange(st, f, v)
    case Toggle => ToggleMode(st)
    case Submit(o) => HandleSubmit(st, o).0
  }

  function RunEvents(st: LoginState, es: seq<LoginEvent>): LoginState
    decreases |es|
  {
    if |es| == 0 then st else RunEvents(Step(st, es[0]), es[1..])
  }

  /** The error is either empty or the mismatch text, and once the
      confirmation is non-empty it is shown exactly when the two passwords
      differ. (With an empty confirmation it may be stale.) */
  predicate ErrorInvariant(st: LoginState) {
    && st.passwordError in {"", MismatchText}
    && (st.confirm != "" ==> (st.passwordError != "" <==> st.password != st.confirm))
  }

  lemma StepKeepsInvariant(st: LoginState, e: LoginEvent)
    requires ErrorInvariant(st)
    ensures ErrorInvariant(Step(st, e))
  {
  }

  lemma {:induction false} RunKeepsInvariant(st: LoginState, es: seq<LoginEvent>)
    requires ErrorInvariant(st)
    ensures ErrorInvariant(RunEvents(st, es))
    decreases |es|
  {
    if |es| > 0 {
      StepKeepsInvariant(st, es[0]);
      RunKeepsInvariant(Step(st, es[0]), es[1..]);
    }
  }

  /** Every state the page can reach satisfies the invariant. */
  lemma ReachableStatesKeepInvariant(es: seq<LoginEvent>)
    ensures ErrorInvariant(RunEvents(Initial(), es))
  {
    RunKeepsInvariant(Initial(), es);
  }

  /** On any reachable state the button is disabled only in sign-up mode
      while the mismatch text is shown, and, once the confirmation is
      non-empty, exactly when the two passwords differ. */
  lemma DisabledMeansMismatch(es: seq<LoginEvent>)
    ensures var st := RunEvents(Initial(), es);
      && (SubmitDisabled(st) <==> st.isSignUp && st.passwordError == MismatchText)
      && (st.confirm != "" ==> (SubmitDisabled(st) <==> st.isSignUp && st.password != st.confirm))
  {
    ReachableStatesKeepInvariant(es);
  }

  /** In sign-up mode with a non-empty confirmation, an enabled submit button
      means the request will be sent. */
  lemma EnabledSignUpSends(es: seq<LoginEvent>, outcome: AuthOutcome)
    ensures var st := RunEvents(Initial(), es);
      st.isSignUp && st.confirm != "" && !SubmitDisabled(st) ==>
        |HandleSubmit(st, outcome).1| == 2
        && HandleSubmit(st, outcome).1[0] == ApiAuth("/register", st.email, st.password)
  {
    ReachableStatesKeepInvariant(es);
  }

  /** The error can outlive the mismatch: type a password, clear a
      confirmation, then clear the password, and sign-up stays disabled
      although both fields are equal (and empty). */
  lemma StaleErrorWhenBothEmpty()
    ensures var st := RunEvents(Initial(), [Toggle, Input(Password, "a"), Input(ConfirmPassword, ""),
                                            Input(Password, "")]);
      st.password == st.confirm && SubmitDisabled(st)
  {
    var s1 := ToggleMode(Initial());
    var s2 := HandleInputChange(s1, Password, "a");
    var s3 := HandleInputChange(s2, ConfirmPassword, "");
    var s4 := HandleInputChange(s3, Password, "");
    var es := [Toggle, Input(Password, "a"), Input(ConfirmPassword, ""), Input(Password, "")];
    assert RunEvents(s4, []) == s4;
    assert es[1..][1..][1..][1..] == [];
    assert SubmitDisabled(s4);
  }
}
