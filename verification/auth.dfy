/** The `/login` handler: a plaintext credential check with an admin flag. */
module Auth {
  import opened JsValues
  import opened Model

  /** The property name `credentials[username]` reads: JavaScript turns an
      absent username into the key "undefined". */
  function LookupKey(username: JsValue): string {
    match username
    case Undefined => "undefined"
    case Str(u) => u
  }

  /** `POST /login`. The stored password must be truthy and strictly equal to
      the supplied one; a failed check answers 401 without a user. */
  function Login(credentials: map<string, string>, username: JsValue, password: JsValue): (r: Response)
    ensures r.Success() ==>
      && LookupKey(username) in credentials
      && credentials[LookupKey(username)] != ""
      && password == Str(credentials[LookupKey(username)])
    ensures (&& LookupKey(username) in credentials
             && credentials[LookupKey(username)] != ""
             && password == Str(credentials[LookupKey(username)])) ==>
      r == Response(200, LoginOk("/dashboard.html", User(username, username == Str("admin"))))
    ensures !r.Success() ==> r == Fail(401, "Invalid credentials")
  {
    var key := LookupKey(username);
    if key in credentials && credentials[key] != "" && password == Str(credentials[key]) then
      Response(200, LoginOk("/dashboard.html", User(username, username == Str("admin"))))
    else
      Fail(401, "Invalid credentials")
  }

  /** A successful login reports an administrator exactly when the username
      is the literal "admin". */
  lemma AdminFlag(credentials: map<string, string>, username: JsValue, password: JsValue)
    requires Login(credentials, username, password).Success()
    ensures Login(credentials, username, password).body.user.isAdmin <==> username == Str("admin")
  {
  }

  /** A user whose stored password is the empty string can never log in,
      whatever password is supplied. */
  lemma EmptyStoredPasswordLocksOut(credentials: map<string, string>, username: string, password: JsValue)
    requires username in credentials && credentials[username] == ""
    ensures Login(credentials, Str(username), password) == Fail(401, "Invalid credentials")
  {
  }

  /** An absent password never matches: every stored password is a string. */
  lemma MissingPasswordFails(credentials: map<string, string>, username: JsValue)
    ensures Login(credentials, username, Undefined).status == 401
  {
  }

  /** An unknown username fails. */
  lemma UnknownUserFails(credentials: map<string, string>, username: string, password: JsValue)
    requires username !in credentials
    ensures Login(credentials, Str(username), password).status == 401
  {
  }

  /** Login is exactly the credential relation: it succeeds for the pair
      (u, p) iff u is a user with the non-empty password p. */
  lemma LoginMatchesCredentials(credentials: map<string, string>, username: string, password: string)
    ensures Login(credentials, Str(username), Str(password)).Success() <==>
      (username in credentials && credentials[username] == password && password != "")
  {
  }
}
