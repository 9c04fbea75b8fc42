/** The login screen: a form that is either in "Login" or "Sign Up" mode,
    a separate reset-password form, and the two submit handlers. Network
    replies are inputs; the session token held by the shop context and the
    token slot of browser storage are a state value; the handlers return the
    request they send, the navigation they trigger and the toast they show. */
module LoginPage {
  import opened Js
  import PasswordPolicy
  import HtmlForms

  const LoginMode := "Login"
  const SignUpMode := "Sign Up"

  /** The strength message shown when a new password fails the rule. */
  const WeakPasswordMessage := "Password must be at least 8 characters long and include at least one letter, one number, and one symbol"
  const FallbackMessage := "Something went wrong"

  /** The component's local state. `currentState` is kept as the string the
      component stores, so that staying within the two modes is a property. */
  datatype Screen = Screen(
    currentState: string,
    forgotOpen: bool,
    name: string,
    email: string,
    password: string,
    newPassword: string,
    showPassword: bool,
    showNewPassword: bool)

  /** The token in the shop context and the "token" slot of local storage
      (`Undefined` when the slot holds nothing). */
  datatype Session = Session(contextToken: Maybe<string>, storedToken: Maybe<string>)

  /** What the backend answers. `Answered` is a 2xx reply whose body has a
      `success` flag and may carry `token` and `message`; `Threw` is a
      rejected request, with the `message` of the error body if there was one. */
  datatype Reply =
    | Answered(success: bool, token: Maybe<string>, message: Maybe<string>)
    | Threw(errorMessage: Maybe<string>)

  datatype Request =
    | Register(name: string, email: string, password: string)
    | SignIn(email: string, password: string)
    | ResetPassword(email: string, newPassword: string)

  datatype Toast = NoToast | SuccessToast(text: string) | ErrorToast(error: Maybe<string>)

  /** The result of handling one event. */
  datatype Outcome = Outcome(
    screen: Screen,
    session: Session,
    sent: Maybe<Request>,
    navigate: Maybe<string>,
    toast: Toast)

  /** The state the screen mounts with. */
  const Initial := Screen(LoginMode, false, "", "", "", "", false, false)

  predicate ModeValid(s: Screen)
  {
    s.currentState == LoginMode || s.currentState == SignUpMode
  }

  predicate Succeeded(reply: Reply)
  {
    reply.Answered? && reply.success
  }

  /** The toast of a failed call: the body's message as is for a 2xx reply,
      the error body's message or the fallback text for a rejected one. */
  function FailureToast(reply: Reply): Toast
  {
    match reply
    case Answered(_, _, msg) => ErrorToast(msg)
    case Threw(msg) => ErrorToast(Defined(OrElse(msg, FallbackMessage)))
  }

  /** The request the login form sends: only an exact "Sign Up" registers. */
  function AuthRequest(s: Screen): Request
  {
    if s.currentState == SignUpMode then Register(s.name, s.email, s.password)
    else SignIn(s.email, s.password)
  }

  /** Submitting the login form. It always sends a request, applying no
      strength rule; a successful reply stores the returned token in the
      context and in local storage and goes home; any other reply only
      shows an error, leaving the session as it was. */
  function OnSubmit(s: Screen, session: Session, reply: Reply): (o: Outcome)
    ensures o.screen == s
    ensures o.sent.Defined?
    ensures o.sent.value.Register? <==> s.currentState == SignUpMode
    ensures o.sent.value.Register? ==>
              o.sent.value.name == s.name && o.sent.value.email == s.email && o.sent.value.password == s.password
    ensures o.sent.value.SignIn? ==> o.sent.value.email == s.email && o.sent.value.password == s.password
    ensures !o.sent.value.ResetPassword?
    ensures Succeeded(reply) ==>
              && o.session.contextToken == reply.token
              && o.session.storedToken == Defined(StorageText(reply.token))
              && o.navigate == Defined("/")
              && o.toast.SuccessToast?
    ensures !Succeeded(reply) ==> o.session == session && o.navigate.Undefined? && o.toast.ErrorToast?
  {
    var request := AuthRequest(s);
    if Succeeded(reply) then
      var text := if s.currentState == SignUpMode then "Sign-up successful!" else "Login successful!";
      Outcome(s, Session(reply.token, Defined(StorageText(reply.token))), Defined(request), Defined("/"), SuccessToast(text))
    else
      Outcome(s, session, Defined(request), Undefined, FailureToast(reply))
  }

  /** Submitting the reset form. A new password failing the strength rule is
      refused before any request, changing nothing but the toast. Otherwise
      the reset is sent; success closes the form and goes to "/login", any
      other reply leaves the form open. The session is never touched. */
  function OnForgotPassword(s: Screen, session: Session, reply: Reply): (o: Outcome)
    ensures o.session == session
    ensures o.sent.Defined? <==> PasswordPolicy.PasswordOk(s.newPassword)
    ensures o.sent.Defined? ==> o.sent.value == ResetPassword(s.email, s.newPassword)
    ensures !PasswordPolicy.PasswordOk(s.newPassword) ==>
              o.screen == s && o.navigate.Undefined? && o.toast == ErrorToast(Defined(WeakPasswordMessage))
    ensures o.sent.Defined? && Succeeded(reply) ==>
              o.screen == s.(forgotOpen := false) && o.navigate == Defined("/login") && o.toast.SuccessToast?
    ensures !(o.sent.Defined? && Succeeded(reply)) ==> o.screen == s && o.navigate.Undefined?
  {
    PasswordPolicy.RegexIsPasswordOk(s.newPassword);
    if !PasswordPolicy.RegexTest(s.newPassword) then
      Outcome(s, session, Undefined, Undefined, ErrorToast(Defined(WeakPasswordMessage)))
    else
      var request := ResetPassword(s.email, s.newPassword);
      if Succeeded(reply) then
        Outcome(s.(forgotOpen := false), session, Defined(request), Defined("/login"),
                SuccessToast("Password updated successfully"))
      else
        Outcome(s, session, Defined(request), Undefined, FailureToast(reply))
  }

  // ---------------------------------------------------------------------
  // The screen as a state machine over user events.

  datatype Field = NameField | EmailField | PasswordField | NewPasswordField

  datatype Event =
    | ClickModeLink            // "Create account" in Login mode, "Login Here" otherwise
    | ClickForgotPassword
    | ClickBackToLogin
    | ToggleShowPassword
    | ToggleShowNewPassword
    | Type(field: Field, value: string)
    | SubmitLogin(reply: Reply)
    | SubmitReset(reply: Reply)

  /** The login form passes the browser's checks: a valid e-mail address, a
      non-empty password and, outside "Login" mode where the name input is
      shown, a non-empty name. */
  predicate LoginFormComplete(s: Screen)
  {
    && HtmlForms.ValidEmail(s.email)
    && s.password != ""
    && (s.currentState != LoginMode ==> s.name != "")
  }

  /** The reset form passes the browser's checks: a valid e-mail address and
      a non-empty new password. */
  predicate ResetFormComplete(s: Screen)
  {
    HtmlForms.ValidEmail(s.email) && s.newPassword != ""
  }

  /** Whether the element an event needs is on screen: the login form and
      the reset form are never shown together, and the name input exists
      only outside "Login" mode. A form is submitted only once its
      `required` inputs are filled and its e-mail input holds an address. */
  predicate Available(s: Screen, e: Event)
  {
    match e
    case ClickModeLink => !s.forgotOpen
    case ClickForgotPassword => !s.forgotOpen
    case ClickBackToLogin => s.forgotOpen
    case ToggleShowPassword => !s.forgotOpen
    case ToggleShowNewPassword => s.forgotOpen
    case Type(f, _) =>
      (match f
       case NameField => !s.forgotOpen && s.currentState != LoginMode
       case EmailField => true
       case PasswordField => !s.forgotOpen
       case NewPasswordField => s.forgotOpen)
    case SubmitLogin(_) => !s.forgotOpen && LoginFormComplete(s)
    case SubmitReset(_) => s.forgotOpen && ResetFormComplete(s)
  }

  /** The screen after an input's `onChange` with value `v`. */
  function Typed(s: Screen, f: Field, v: string): Screen
  {
    match f
    case NameField => s.(name := v)
    case EmailField => s.(email := v)
    case PasswordField => s.(password := v)
    case NewPasswordField => s.(newPassword := v)
  }

  /** The mode after the link under the password field is clicked. */
  function Toggle(mode: string): string
  {
    if mode == LoginMode then SignUpMode else LoginMode
  }

  /** One event. An event on an element that is not rendered does nothing;
      the mode stays one of the two labels. */
  function Step(s: Screen, session: Session, e: Event): (o: Outcome)
    ensures !Available(s, e) ==> o == Outcome(s, session, Undefined, Undefined, NoToast)
    ensures ModeValid(s) ==> ModeValid(o.screen)
    ensures o.screen.currentState != s.currentState ==> e.ClickModeLink?
    ensures o.session != session ==> e.SubmitLogin?
    ensures o.sent.Defined? ==> e.SubmitLogin? || e.SubmitReset?
    ensures o.sent.Defined? ==> HtmlForms.ValidEmail(o.sent.value.email)
    ensures o.sent.Defined? && o.sent.value.Register? ==> o.sent.value.name != "" && o.sent.value.password != ""
    ensures o.sent.Defined? && o.sent.value.SignIn? ==> o.sent.value.password != ""
    ensures Available(s, e) && e.ClickModeLink? ==>
              o.screen == s.(currentState := if s.currentState == LoginMode then SignUpMode else LoginMode)
    ensures ModeValid(s) && Available(s, e) && e.ClickModeLink? ==> o.screen.currentState != s.currentState
    ensures Available(s, e) && e.ClickForgotPassword? ==> o.screen == s.(forgotOpen := true)
    ensures Available(s, e) && e.ClickBackToLogin? ==> o.screen == s.(forgotOpen := false)
    ensures Available(s, e) && e.ToggleShowPassword? ==> o.screen == s.(showPassword := !s.showPassword)
    ensures Available(s, e) && e.ToggleShowNewPassword? ==> o.screen == s.(showNewPassword := !s.showNewPassword)
    ensures !(e.SubmitLogin? || e.SubmitReset?) ==>
              o.session == session && o.sent.Undefined? && o.navigate.Undefined? && o.toast == NoToast
    ensures o.screen.forgotOpen != s.forgotOpen ==> e.ClickForgotPassword? || e.ClickBackToLogin? || e.SubmitReset?
    ensures o.navigate.Defined? ==> (e.SubmitLogin? || e.SubmitReset?) && Succeeded(e.reply)
    ensures Available(s, e) && e.Type? ==> o.screen == Typed(s, e.field, e.value)
    ensures e.SubmitLogin? ==> (o.sent.Defined? <==> !s.forgotOpen && LoginFormComplete(s))
    ensures e.SubmitLogin? && Available(s, e) ==> o == OnSubmit(s, session, e.reply)
    ensures e.SubmitReset? && Available(s, e) ==> o == OnForgotPassword(s, session, e.reply)
  {
    if !Available(s, e) then Outcome(s, session, Undefined, Undefined, NoToast)
    else
      match e
      case ClickModeLink =>
        Outcome(s.(currentState := Toggle(s.currentState)), session, Undefined, Undefined, NoToast)
      case ClickForgotPassword => Outcome(s.(forgotOpen := true), session, Undefined, Undefined, NoToast)
      case ClickBackToLogin => Outcome(s.(forgotOpen := false), session, Undefined, Undefined, NoToast)
      case ToggleShowPassword =>
        Outcome(s.(showPassword := !s.showPassword), session, Undefined, Undefined, NoToast)
      case ToggleShowNewPassword =>
        Outcome(s.(showNewPassword := !s.showNewPassword), session, Undefined, Undefined, NoToast)
      case Type(f, v) =>
        Outcome(Typed(s, f, v), session, Undefined, Undefined, NoToast)
      case SubmitLogin(reply) => OnSubmit(s, session, reply)
      case SubmitReset(reply) => OnForgotPassword(s, session, reply)
  }

  /** The number of submit events in `events`. */
  function SubmitCount(events: seq<Event>): nat
  {
    if |events| == 0 then 0
    else (if events[0].SubmitLogin? || events[0].SubmitReset? then 1 else 0) + SubmitCount(events[1..])
  }

  /** The screen and session after a sequence of events, with the requests
      sent along the way: at most one per submit event, each carrying a valid
      e-mail address, and the mode stays one of the two labels. */
  function Run(s: Screen, session: Session, events: seq<Event>): (r: (Screen, Session, seq<Request>))
    ensures ModeValid(s) ==> ModeValid(r.0)
    ensures |r.2| <= SubmitCount(events)
    ensures forall i :: 0 <= i < |r.2| ==> HtmlForms.ValidEmail(r.2[i].email)
    decreases |events|
  {
    if |events| == 0 then (s, session, [])
    else
      var o := Step(s, session, events[0]);
      var rest := Run(o.screen, o.session, events[1..]);
      var sent := match o.sent case Undefined => [] case Defined(q) => [q];
      (rest.0, rest.1, sent + rest.2)
  }

  // ---------------------------------------------------------------------
  // Properties relating several calls.

  /** Every screen reachable from the mounted state is in one of the two
      modes. */
  lemma ReachableModeValid(session: Session, events: seq<Event>)
    ensures ModeValid(Run(Initial, session, events).0)
  {
  }

  /** The mounted screen, with its inputs still empty, sends nothing when
      submitted: the browser blocks the form. */
  lemma UntouchedFormSendsNothing(session: Session, reply: Reply)
    ensures Step(Initial, session, SubmitLogin(reply)).sent.Undefined?
    ensures Step(Initial.(forgotOpen := true), session, SubmitReset(reply)).sent.Undefined?
  {
    HtmlForms.EmptyIsNotEmail();
  }

  /** Clicking the mode link twice restores the mode, whichever it was. */
  lemma ToggleTwiceRestores(s: Screen, session: Session)
    requires ModeValid(s) && !s.forgotOpen
    ensures var o := Step(s, session, ClickModeLink);
            && o.screen.currentState != s.currentState
            && Step(o.screen, o.session, ClickModeLink).screen == s
  {
  }

  /** Within the two modes the handler and the form agree: the submit sends
      a registration exactly when the rendered form shows the name input. */
  lemma RegistersIffNameShown(s: Screen, session: Session, reply: Reply)
    requires ModeValid(s) && !s.forgotOpen
    ensures OnSubmit(s, session, reply).sent.value.Register? <==> Available(s, Type(NameField, ""))
  {
  }

  /** After a successful login or sign-up carrying a token, the stored token
      reads back as the token in the context. */
  lemma StoredTokenMatchesContext(s: Screen, session: Session, reply: Reply)
    requires Succeeded(reply) && reply.token.Defined?
    ensures var o := OnSubmit(s, session, reply);
            o.session.storedToken == o.session.contextToken == reply.token
  {
  }

  /** A successful reply without a token leaves the context token undefined
      but stores the text "undefined", which is a non-empty string. */
  lemma MissingTokenStoredAsText(s: Screen, session: Session, reply: Reply)
    requires Succeeded(reply) && reply.token.Undefined?
    ensures var o := OnSubmit(s, session, reply);
            o.session.contextToken.Undefined? && o.session.storedToken == Defined("undefined")
  {
  }

  /** The login form sends whatever password was typed: a password the
      strength rule rejects still reaches the backend. */
  lemma SubmitSkipsStrengthRule(s: Screen, session: Session, reply: Reply)
    requires !PasswordPolicy.PasswordOk(s.password)
    ensures OnSubmit(s, session, reply).sent.value.password == s.password
  {
  }
}
