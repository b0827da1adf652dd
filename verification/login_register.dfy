/**
 * The log-in / registration page (frontend/src/pages/LoginRegister.jsx):
 * the mode switch, where a successful log-in leads, the password
 * confirmation check in front of the registration request, and how the
 * registration error message is put together from the server's answer.
 */
module LoginRegister {
  import opened Wrappers
  import opened JsOps
  import opened AsciiText
  import opened Account

  // ---------------------------------------------------------------------
  // Mode switch
  // ---------------------------------------------------------------------

  datatype Mode = LoginMode | RegisterMode

  /** `setMode(mode === 'login' ? 'register' : 'login')`. */
  function Toggle(mode: Mode): (r: Mode)
    ensures r != mode
  {
    if mode == LoginMode then RegisterMode else LoginMode
  }

  /** Switching twice comes back to the same form. */
  lemma ToggleTwice(mode: Mode)
    ensures Toggle(Toggle(mode)) == mode
  {
  }

  // ---------------------------------------------------------------------
  // Log-in
  // ---------------------------------------------------------------------

  /** The answer of the log-in request; an accepted answer need not carry a user. */
  datatype LoginResponse =
    | LoginAccepted(token: string, user: Option<User>)
    | LoginRejected(message: Option<string>)
    | LoginThrew(responseMessage: Option<string>)

  /**
   * `SignedIn`: the session is handed to the authentication context and the
   * page navigates. `SessionWithoutUser`: the session is handed over with no
   * user, then reading the missing user's role throws, and the failure text
   * is shown without navigating. `LoginFailed`: nothing is handed over.
   */
  datatype LoginOutcome =
    | SignedIn(token: string, user: User, redirect: string)
    | SessionWithoutUser(token: string, message: string)
    | LoginFailed(message: string)

  /** Whether `login(token, user)` of the authentication context was called. */
  predicate HandsOverSession(r: LoginOutcome) {
    r.SignedIn? || r.SessionWithoutUser?
  }

  const AdminHome: string := "/admin"
  const StoreHome: string := "/"
  const LoginNetworkMessage: string := "Login gagal. Cek koneksi server atau kredensial."

  /** `handleLogin` after the request: store the session and go to the page the role calls for. */
  function HandleLogin(response: LoginResponse): (r: LoginOutcome)
    ensures HandsOverSession(r) <==> response.LoginAccepted?
    ensures HandsOverSession(r) ==> r.token == response.token
    ensures r.SignedIn? <==> response.LoginAccepted? && response.user.Some?
    ensures r.SignedIn? ==> Some(r.user) == response.user
    ensures r.SessionWithoutUser? ==> r.message == LoginNetworkMessage
    ensures !r.SignedIn? ==> r.message != ""
  {
    match response
    case LoginAccepted(token, user) =>
      if user.None? then SessionWithoutUser(token, LoginNetworkMessage)
      else SignedIn(token, user.value, if user.value.role == Some(AdminRole) then AdminHome else StoreHome)
    case LoginRejected(message) => LoginFailed(StrOr(message, "Login gagal. Kredensial salah."))
    case LoginThrew(responseMessage) => LoginFailed(StrOr(responseMessage, LoginNetworkMessage))
  }

  /**
   * A successful log-in leads to the admin area exactly for the users the
   * navigation bar treats as administrators, and to the store front otherwise.
   */
  lemma RedirectFollowsRole(token: string, user: User)
    ensures HandleLogin(LoginAccepted(token, Some(user))).redirect == AdminHome <==> IsAdmin(Some(user))
    ensures HandleLogin(LoginAccepted(token, Some(user))).redirect in {AdminHome, StoreHome}
  {
  }

  /**
   * An accepted answer without a user shows the same text as a request that
   * threw without a server message, although the session was handed over.
   */
  lemma MissingUserShowsNetworkText(token: string)
    ensures HandsOverSession(HandleLogin(LoginAccepted(token, None)))
    ensures HandleLogin(LoginAccepted(token, None)).message == HandleLogin(LoginThrew(None)).message
  {
  }

  // ---------------------------------------------------------------------
  // Registration
  // ---------------------------------------------------------------------

  datatype RegisterForm = RegisterForm(username: string, email: string, password: string, confirmPassword: string)

  /** The body of the registration request: the confirmation is never sent. */
  datatype RegisterRequest = RegisterRequest(username: string, email: string, password: string)

  datatype RegisterStart = PasswordMismatch(message: string) | SendRegister(request: RegisterRequest)

  const MismatchMessage: string := "Pendaftaran gagal. Konfirmasi password tidak cocok."

  /** `handleRegister` before the request. */
  function StartRegister(form: RegisterForm): (r: RegisterStart)
    ensures r.SendRegister? <==> form.password == form.confirmPassword
    ensures r.PasswordMismatch? ==> r.message == MismatchMessage
    ensures r.SendRegister? ==> r.request == RegisterRequest(form.username, form.email, form.password)
  {
    if form.password != form.confirmPassword then PasswordMismatch(MismatchMessage)
    else SendRegister(RegisterRequest(form.username, form.email, form.password))
  }

  /** Changing only the confirmation to match the password turns a refusal into a request. */
  lemma ConfirmingSendsRequest(form: RegisterForm)
    ensures StartRegister(form.(confirmPassword := form.password)).SendRegister?
    ensures form.confirmPassword != form.password ==> StartRegister(form).PasswordMismatch?
  {
  }

  /** The answer of the registration request; `errors` lists each field's messages. */
  datatype RegisterResponse =
    | Registered
    | RegisterRejected(message: Option<string>, errors: Option<seq<seq<string>>>)
    | RegisterThrew(responseMessage: Option<string>)

  /** `Object.values(errors).flat()`. */
  function Flatten(fields: seq<seq<string>>): seq<string>
    decreases |fields|
  {
    if |fields| == 0 then [] else fields[0] + Flatten(fields[1..])
  }

  /** A message is among the flattened ones exactly when some field lists it. */
  lemma {:induction false} FlattenMembership(fields: seq<seq<string>>, m: string)
    ensures m in Flatten(fields) <==> exists k :: 0 <= k < |fields| && m in fields[k]
    decreases |fields|
  {
    if |fields| > 0 {
      FlattenMembership(fields[1..], m);
      if exists k :: 0 <= k < |fields[1..]| && m in fields[1..][k] {
        var k :| 0 <= k < |fields[1..]| && m in fields[1..][k];
        assert m in fields[k + 1];
      }
      if exists k :: 0 <= k < |fields| && m in fields[k] {
        var k :| 0 <= k < |fields| && m in fields[k];
        if k > 0 {
          assert fields[1..][k - 1] == fields[k];
        }
      }
    }
  }

  const RegisteredMessage: string := "Pendaftaran berhasil! Silakan login."
  const RegisterFailedMessage: string := "Pendaftaran gagal."
  const ValidationFailedMessage: string := "Pendaftaran gagal karena kesalahan validasi."
  const RegisterNetworkMessage: string := "Pendaftaran gagal. Cek koneksi server."

  /** The failure message of a refused registration. */
  function RejectionMessage(message: Option<string>, errors: Option<seq<seq<string>>>): (m: string)
    ensures errors.None? ==> m == StrOr(message, RegisterFailedMessage)
    ensures m != ""
  {
    if errors.Some? then
      var joined := Join(Flatten(errors.value), ". ");
      if joined != "" then joined else ValidationFailedMessage
    else StrOr(message, RegisterFailedMessage)
  }

  /**
   * With field errors the server's own message is ignored: the field messages
   * are joined with ". ", and the validation text stands in when there
   * is nothing to show (no field message, or a single empty one).
   */
  lemma RejectionWithFieldErrors(message: Option<string>, fields: seq<seq<string>>)
    ensures RejectionMessage(message, Some(fields)) == ValidationFailedMessage
        <== Flatten(fields) == [] || Flatten(fields) == [""]
    ensures Flatten(fields) != [] && Flatten(fields) != [""]
        ==> RejectionMessage(message, Some(fields)) == Join(Flatten(fields), ". ")
    ensures RejectionMessage(message, Some(fields)) == RejectionMessage(None, Some(fields))
  {
    JoinEmptyIff(Flatten(fields), ". ");
  }

  /** Two field messages are shown one after the other, separated by ". ". */
  lemma TwoFieldErrors(a: string, b: string, message: Option<string>)
    requires a != ""
    ensures RejectionMessage(message, Some([[a], [b]])) == a + ". " + b
  {
    assert Flatten([[a], [b]]) == [a, b] by {
      assert [[a], [b]][1..] == [[b]];
      assert Flatten([[b]]) == [b] + Flatten([]);
    }
    assert [a, b][1..] == [b];
    assert Join([a, b], ". ") == a + ". " + Join([b], ". ");
    assert Join([b], ". ") == b;
    assert |a + ". " + b| > 0;
  }

  /** The form mode and the toast after the registration request. */
  datatype RegisterOutcome = RegisterOutcome(mode: Mode, message: string, isError: bool)

  function AfterRegister(mode: Mode, response: RegisterResponse): (r: RegisterOutcome)
    ensures response.Registered? ==> r == RegisterOutcome(LoginMode, RegisteredMessage, false)
    ensures !response.Registered? ==> r.mode == mode && r.isError && r.message != ""
    ensures response.RegisterRejected? ==> r.message == RejectionMessage(response.message, response.errors)
    ensures response.RegisterThrew? ==> r.message == StrOr(response.responseMessage, RegisterNetworkMessage)
  {
    match response
    case Registered => RegisterOutcome(LoginMode, RegisteredMessage, false)
    case RegisterRejected(message, errors) => RegisterOutcome(mode, RejectionMessage(message, errors), true)
    case RegisterThrew(responseMessage) =>
      RegisterOutcome(mode, StrOr(responseMessage, RegisterNetworkMessage), true)
  }

  /** Whatever form was showing, a successful registration leaves the log-in form showing. */
  lemma RegisteredShowsLogin(mode: Mode)
    ensures AfterRegister(mode, Registered).mode == LoginMode
    ensures AfterRegister(Toggle(mode), Registered) == AfterRegister(mode, Registered)
  {
  }
}
