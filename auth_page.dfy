/** The login and registration forms: their validation rules, the tab shown
    first, and the credentials sent on registration. */
module AuthPage {
  import opened JsValues

  /** A validation message attached to a form field. */
  datatype Issue = Issue(path: string, message: string)

  const MinUsername := 3
  const MaxUsername := 50
  const MinPassword := 6

  const UsernameTooShort := "Username must be at least 3 characters"
  const UsernameTooLong := "String must contain at most 50 character(s)"
  const PasswordTooShort := "Password must be at least 6 characters"
  const ConfirmRequired := "Confirm password is required"
  const PasswordsDiffer := "Passwords do not match"

  /** A length check of one field, reported as one issue when it fails. */
  function Check(ok: bool, path: string, message: string): (r: seq<Issue>)
    ensures r == [] <==> ok
    ensures !ok ==> r == [Issue(path, message)]
  {
    if ok then [] else [Issue(path, message)]
  }

  /** `authSchema`: every failed check of username and password, in order. */
  function AuthIssues(username: string, password: string): (r: seq<Issue>)
    ensures r == [] <==> MinUsername <= |username| <= MaxUsername && MinPassword <= |password|
    ensures forall i :: 0 <= i < |r| ==> r[i].path in {"username", "password"}
  {
    Check(|username| >= MinUsername, "username", UsernameTooShort)
    + Check(|username| <= MaxUsername, "username", UsernameTooLong)
    + Check(|password| >= MinPassword, "password", PasswordTooShort)
  }

  /** `registerSchema`: the login checks, the length of the confirmation,
      then the equality refinement, which runs even when a field check failed. */
  function RegisterIssues(username: string, password: string, confirmPassword: string): (r: seq<Issue>)
    ensures AuthIssues(username, password) <= r
    ensures forall i :: |AuthIssues(username, password)| <= i < |r| ==> r[i].path == "confirmPassword"
    ensures password != confirmPassword ==> |r| > 0 && r[|r| - 1] == Issue("confirmPassword", PasswordsDiffer)
    ensures password == confirmPassword && |confirmPassword| >= MinPassword ==> r == AuthIssues(username, password)
  {
    AuthIssues(username, password)
    + Check(|confirmPassword| >= MinPassword, "confirmPassword", ConfirmRequired)
    + Check(password == confirmPassword, "confirmPassword", PasswordsDiffer)
  }

  /** A registration is accepted exactly when the username has 3 to 50
      characters, the password at least 6, and the confirmation equals it. */
  lemma RegisterValid(username: string, password: string, confirmPassword: string)
    ensures RegisterIssues(username, password, confirmPassword) == [] <==>
      MinUsername <= |username| <= MaxUsername && MinPassword <= |password| && password == confirmPassword
  {
  }

  /** A mismatch is reported on the confirmation field, whatever else failed. */
  lemma {:induction false} MismatchOnConfirm(username: string, password: string, confirmPassword: string)
    requires password != confirmPassword
    ensures Issue("confirmPassword", PasswordsDiffer) in RegisterIssues(username, password, confirmPassword)
  {
    var r := RegisterIssues(username, password, confirmPassword);
    var head := AuthIssues(username, password) + Check(|confirmPassword| >= MinPassword, "confirmPassword", ConfirmRequired);
    assert r == head + [Issue("confirmPassword", PasswordsDiffer)];
    assert r[|head|] == Issue("confirmPassword", PasswordsDiffer);
  }

  datatype Tab = Login | Register

  /** `defaultTab`. */
  function DefaultTab(tab: Option<string>): (t: Tab)
    ensures t == Register <==> tab == Some("register")
  {
    if tab == Some("register") then Register else Login
  }

  datatype Credentials = Credentials(username: string, password: string)

  /** `onRegisterSubmit`: the confirmation is dropped. */
  function RegisterCredentials(username: string, password: string, confirmPassword: string): (c: Credentials)
    ensures c.username == username && c.password == password
  {
    Credentials(username, password)
  }

  /** Credentials that pass registration also pass the login form. */
  lemma RegisteredCanLogIn(username: string, password: string, confirmPassword: string)
    requires RegisterIssues(username, password, confirmPassword) == []
    ensures var c := RegisterCredentials(username, password, confirmPassword);
      AuthIssues(c.username, c.password) == []
  {
    RegisterValid(username, password, confirmPassword);
  }
}
