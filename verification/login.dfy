/** The login endpoint (`app/api/auth/login/route.js`): credential
    validation, then the user lookup, the password check and the session.
    The database query, bcrypt and the clock are parameters. */
module LoginRoute {
  import opened Common
  import opened Auth

  const InvalidCredentials: string := "Username atau password tidak valid."
  const WrongCredentials: string := "Username atau password salah."
  const InvalidPayload: string := "Payload tidak valid."
  const ServerFailure: string := "Terjadi kesalahan pada server."

  /** Where a successful login sends the browser. */
  const AfterLogin: string := "/dashboard-admin"

  /** What `validateCredentials` returns: `{ error }` or the sanitised pair. */
  datatype Credentials = Rejected(error: string) | Accepted(username: string, password: string)

  /** The parsed JSON body; a field that is missing, or not a string for the
      password, is `None`. */
  datatype LoginBody = LoginBody(username: Option<string>, password: Option<string>)

  /** A row of the `users` table; `password` is the bcrypt hash, possibly NULL. */
  datatype Account = Account(id: int, username: string, password: Option<string>, name: string)

  /** The server's answer: the session it set as a cookie, or an error. */
  type LoginResponse = Response<Session>

  /** A well-formed username: username characters only, none upper-case. */
  predicate IsLoginName(u: string)
  {
    forall i :: 0 <= i < |u| ==> IsUsernameChar(u[i]) && !IsUpperAscii(u[i])
  }

  /** The password as the route reads it: trimmed, or "" when it is not a
      string. */
  function PasswordOf(password: Option<string>): string
  {
    if password.Some? then Trim(password.value) else ""
  }

  /** `validateCredentials`: an accepted username is a login name of at
      least three characters and an accepted password has at least eight
      UTF-16 code units (`.length`) and no angle bracket; every rejection
      carries the same message. */
  function ValidateCredentials(username: Option<string>, password: Option<string>): (r: Credentials)
    ensures r.Rejected? ==> r.error == InvalidCredentials
    ensures r.Accepted? ==> IsLoginName(r.username) && |r.username| >= 3
    ensures r.Accepted? ==> JsLength(r.password) >= 8 && '<' !in r.password && '>' !in r.password
  {
    var u := Lower(SanitizeUsername(username));
    var p := PasswordOf(password);
    LowerUsernameChars(SanitizeUsername(username));
    LoginNameLength(u);
    if '<' in p || '>' in p then Rejected(InvalidCredentials)
    else if u == [] || JsLength(u) < 3 then Rejected(InvalidCredentials)
    else if p == [] || JsLength(p) < 8 then Rejected(InvalidCredentials)
    else Accepted(u, p)
  }

  /** A login name holds ASCII characters only, so `.length` counts its
      characters. */
  lemma LoginNameLength(u: string)
    requires IsLoginName(u)
    ensures JsLength(u) == |u|
  {
    assert forall i | 0 <= i < |u| :: !IsAstral(u[i]) by {
      forall i | 0 <= i < |u|
        ensures !IsAstral(u[i])
      {
        assert IsUsernameChar(u[i]);
      }
    }
  }

  /** The pair is accepted exactly when the sanitised, lower-cased username
      has at least three characters and the trimmed password at least eight
      UTF-16 code units and no angle bracket; it is then the pair returned. */
  lemma AcceptedExactly(username: Option<string>, password: Option<string>)
    ensures var u := Lower(SanitizeUsername(username));
      var p := PasswordOf(password);
      ValidateCredentials(username, password)
      == if '<' !in p && '>' !in p && |u| >= 3 && JsLength(p) >= 8 then Accepted(u, p)
         else Rejected(InvalidCredentials)
  {
    LowerUsernameChars(SanitizeUsername(username));
    LoginNameLength(Lower(SanitizeUsername(username)));
  }

  /** Four characters outside the Basic Multilingual Plane make a password
      of eight code units, long enough. */
  lemma AstralPasswordAccepted()
    ensures var p := "\U{1F600}\U{1F600}\U{1F600}\U{1F600}";
      |p| == 4 && ValidateCredentials(Some("admin"), Some(p)) == Accepted("admin", p)
  {
    var p := "\U{1F600}\U{1F600}\U{1F600}\U{1F600}";
    assert forall i | 0 <= i < |p| :: p[i] == '\U{1F600}';
    assert JsLength(p) == 8;
    assert '<' !in p && '>' !in p;
    TrimOfTrimmed(p);
    assert PasswordOf(Some(p)) == p;
    assert IsLoginName("admin");
    LoginNameStable("admin");
    AcceptedExactly(Some("admin"), Some(p));
  }

  /** Lower-casing keeps a username character a username character. */
  lemma LowerUsernameChars(s: string)
    requires forall i :: 0 <= i < |s| ==> IsUsernameChar(s[i])
    ensures IsLoginName(Lower(s))
  {
    forall i | 0 <= i < |s|
      ensures IsUsernameChar(Lower(s)[i])
    {
      assert IsUsernameChar(s[i]);
    }
  }

  /** A login name is its own lower-case form. */
  lemma {:induction false} LowerOfLoginName(u: string)
    requires IsLoginName(u)
    ensures Lower(u) == u
  {
    assert forall i :: 0 <= i < |u| ==> LowerChar(u[i]) == u[i];
  }

  /** A login name passes the username sanitising unchanged. */
  lemma {:induction false} LoginNameStable(u: string)
    requires IsLoginName(u)
    ensures Lower(SanitizeUsername(Some(u))) == u
  {
    UsernameCharsSanitized(u);
    assert SanitizeUsername(Some(u)) == u;
    LowerOfLoginName(u);
  }

  /** A trimmed password passes the password reading unchanged. */
  lemma {:induction false} PasswordStable(password: Option<string>)
    ensures PasswordOf(Some(PasswordOf(password))) == PasswordOf(password)
  {
    TrimOfTrimmed(PasswordOf(password));
  }

  /** Validating an accepted pair again accepts it unchanged. */
  lemma {:induction false} ValidationIdempotent(username: Option<string>, password: Option<string>)
    requires ValidateCredentials(username, password).Accepted?
    ensures var c := ValidateCredentials(username, password);
      ValidateCredentials(Some(c.username), Some(c.password)) == c
  {
    var c := ValidateCredentials(username, password);
    AcceptedExactly(username, password);
    PasswordStable(password);
    LoginNameStable(c.username);
    AcceptedExactly(Some(c.username), Some(c.password));
  }

  /** The POST handler. `body` is `None` when the JSON does not parse;
      `findUser` is the `LOWER(username) = ?` lookup, which may throw;
      `matches` is `bcrypt.compare`. */
  function Login(body: Option<LoginBody>, findUser: string -> Result<Option<Account>>,
                 matches: (string, string) -> bool, now: int,
                 sign: string -> string, encode: Payload -> string): (r: LoginResponse)
    ensures r.Success? ==> r.status == 200 && r.body.expiresAt == now + SessionTtlMs
    ensures r.Failure? ==> r.status in {400, 401, 500}
  {
    if body.None? then Failure(400, InvalidPayload)
    else match ValidateCredentials(body.value.username, body.value.password)
      case Rejected(error) => Failure(400, error)
      case Accepted(u, p) =>
        match findUser(u)
        case Throw(_) => Failure(500, ServerFailure)
        case Ok(None) => Failure(401, WrongCredentials)
        case Ok(Some(account)) =>
          var hash := if account.password.Some? then account.password.value else "";
          if !matches(p, hash) then Failure(401, WrongCredentials)
          else Success(200, CreateSession(User(account.id, account.username, account.name),
                                          now, sign, encode))
  }

  /** Invalid credentials are answered with 400 whatever the database holds:
      the lookup is never consulted. */
  lemma RejectedBeforeDatabase(body: LoginBody, findUser: string -> Result<Option<Account>>,
                               other: string -> Result<Option<Account>>,
                               matches: (string, string) -> bool, now: int,
                               sign: string -> string, encode: Payload -> string)
    requires ValidateCredentials(body.username, body.password).Rejected?
    ensures Login(Some(body), findUser, matches, now, sign, encode)
            == Login(Some(body), other, matches, now, sign, encode)
            == Failure(400, InvalidCredentials)
  {
  }

  /** A session is issued only for valid credentials naming an existing
      account whose hash matches the password, and it carries that account. */
  lemma LoginSucceedsOnlyForMatch(body: Option<LoginBody>, findUser: string -> Result<Option<Account>>,
                                  matches: (string, string) -> bool, now: int,
                                  sign: string -> string, encode: Payload -> string)
    requires Login(body, findUser, matches, now, sign, encode).Success?
    ensures body.Some?
    ensures var c := ValidateCredentials(body.value.username, body.value.password);
      && c.Accepted?
      && findUser(c.username).Ok? && findUser(c.username).value.Some?
      && var a := findUser(c.username).value.value;
      && matches(c.password, if a.password.Some? then a.password.value else "")
      && Login(body, findUser, matches, now, sign, encode).body
         == CreateSession(User(a.id, a.username, a.name), now, sign, encode)
  {
  }
}
