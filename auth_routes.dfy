/** The four API route handlers under src/app/api/auth/: each maps the request
    (its JSON body or its `session` cookie) and the service's answer to a status,
    a JSON body and an optional `Set-Cookie` directive. */
module AuthRoutes {
  import opened AuthTypes
  import opened Bcrypt
  import opened UserStore
  import opened AuthService
  import opened SessionCookie
  import opened RouteGuard
  import opened Validation

  const InternalErrorMessage := "Internal server error"
  const NotAuthenticatedMessage := "Not authenticated"
  const UserNotFoundMessage := "User not found"
  const LoggedOutMessage := "Logged out successfully"

  /** A JSON body: the service's envelope passed through unchanged, the user
      route's `{success: true, user}`, or a `{success, message}` object the
      handler writes itself. */
  datatype Body = Envelope(response: AuthResponse) | Found(user: User) | Notice(success: bool, message: string)

  datatype HttpResponse = HttpResponse(status: int, body: Body, cookie: Option<SetCookie>)

  /** The answer of every handler's `catch`: status 500 and no cookie. */
  function InternalError(): (r: HttpResponse)
    ensures r.status == 500 && r.cookie.None?
    ensures r.body == Notice(false, "Internal server error")
  {
    HttpResponse(500, Notice(false, InternalErrorMessage), None)
  }

  // ---------------------------------------------------------------------------
  // POST /api/auth/login

  /** How the login route answers the service's result. */
  function LoginResponse(result: AuthResponse, production: bool): (r: HttpResponse)
    ensures r.status == 200 <==> result.success && result.user.Some?
    ensures r.status != 200 ==> r.status == 401 && r.cookie.None?
    ensures r.body == Envelope(result)
    ensures r.status == 200 ==>
      && r.cookie.Some?
      && r.cookie.value.name == SessionCookieName
      && ParseInt(r.cookie.value.value) == Some(result.user.value.id)
      && r.cookie.value.httpOnly && r.cookie.value.secure == production && r.cookie.value.sameSite == Lax
      && r.cookie.value.lifetime == MaxAge(604800)
    ensures r.status == 200 ==> r.cookie == Some(IssueSession(result.user.value.id, production))
  {
    if result.success && result.user.Some? then
      HttpResponse(200, Envelope(result), Some(IssueSession(result.user.value.id, production)))
    else
      HttpResponse(401, Envelope(result), None)
  }

  /** `POST /api/auth/login`. `body` is the parsed JSON body, `None` when it is not
      JSON; `fault` is an error the service meets (it catches it itself). */
  function LoginPost(body: Option<UserCredentials>, s: Store, fault: Option<Fault>, production: bool): (r: HttpResponse)
    ensures body.None? ==> r == InternalError()
    ensures body.Some? ==> r == LoginResponse(Login(s, body.value, fault), production)
    ensures r.status in {200, 401, 500}
  {
    match body
    case None => InternalError()
    case Some(c) => LoginResponse(Login(s, c, fault), production)
  }

  // ---------------------------------------------------------------------------
  // POST /api/auth/register

  /** How the register route answers the service's result: never with a cookie,
      so registering does not sign the user in. */
  function RegisterResponse(result: AuthResponse): (r: HttpResponse)
    ensures r.status == 201 <==> result.success
    ensures r.status != 201 ==> r.status == 400
    ensures r.body == Envelope(result) && r.cookie.None?
  {
    HttpResponse(if result.success then 201 else 400, Envelope(result), None)
  }

  /** `POST /api/auth/register`: registers through the service, which inserts
      into the table in place. */
  method RegisterPost(table: UsersTable, body: Option<UserCredentials>, salt: Salt, now: string, fault: Option<Fault>)
    returns (r: HttpResponse)
    requires table.Valid()
    modifies table
    ensures table.Valid()
    ensures r.cookie.None?
    ensures body.None? ==> r == InternalError() && table.Snapshot() == old(table.Snapshot())
    ensures body.Some? ==>
      var (result, t) := Register(old(table.Snapshot()), body.value, salt, now, fault);
      r == RegisterResponse(result) && table.Snapshot() == t
  {
    if body.None? {
      return InternalError();
    }
    var result := RegisterUser(table, body.value, salt, now, fault);
    r := RegisterResponse(result);
  }

  // ---------------------------------------------------------------------------
  // GET /api/auth/user

  /** `GET /api/auth/user` for the request's `session` cookie. `dbFails` is an
      error thrown by the database while looking the id up. A cookie that does
      not read as a number (`NaN`) matches no row. The table is only read. */
  function UserGet(session: Option<string>, s: Store, dbFails: bool): (r: HttpResponse)
    requires StoreValid(s)
    ensures r.cookie.None?
    ensures r.status == 401 <==> !HasSession(session)
    ensures r.status == 401 ==> r.body == Notice(false, NotAuthenticatedMessage)
    ensures HasSession(session) && dbFails ==> r == InternalError()
    ensures r.status == 200 <==>
      HasSession(session) && !dbFails && ParseInt(session.value).Some? &&
      exists e :: e in s.rows && s.rows[e].id == ParseInt(session.value).value
    ensures r.status == 200 ==>
      r.body.Found? && r.body.user.id == ParseInt(session.value).value &&
      r.body.user.email in s.rows && r.body.user == StripHash(s.rows[r.body.user.email])
    ensures r.status in {200, 401, 404, 500}
    ensures r.status == 404 ==> r.body == Notice(false, UserNotFoundMessage)
    ensures HasSession(session) && !dbFails && r.status != 200 ==>
      r == HttpResponse(404, Notice(false, UserNotFoundMessage), None)
  {
    if !HasSession(session) then HttpResponse(401, Notice(false, NotAuthenticatedMessage), None)
    else if dbFails then InternalError()
    else
      match ParseInt(session.value)
      case None => HttpResponse(404, Notice(false, UserNotFoundMessage), None)
      case Some(id) =>
        match SelectById(s, id)
        case None => HttpResponse(404, Notice(false, UserNotFoundMessage), None)
        case Some(row) => HttpResponse(200, Found(StripHash(row)), None)
  }

  // ---------------------------------------------------------------------------
  // POST /api/auth/logout

  /** `POST /api/auth/logout`: always succeeds and clears the session cookie. */
  function LogoutPost(production: bool): (r: HttpResponse)
    ensures r.status == 200 && r.body == Notice(true, "Logged out successfully")
    ensures r.cookie.Some? && r.cookie.value.name == SessionCookieName
    ensures r.cookie.value.value == "" && r.cookie.value.lifetime == Expires(0)
    ensures forall id :: SameCookieSlot(r.cookie.value, IssueSession(id, production))
  {
    HttpResponse(200, Notice(true, LoggedOutMessage), Some(RevokeSession(production)))
  }

  // ---------------------------------------------------------------------------
  // Sessions across routes

  /** A non-empty cookie value that reads as the id of a stored row makes the
      user route answer with that row, without its hash. */
  lemma UserRouteFindsRow(s: Store, e: string, v: string)
    requires StoreValid(s) && e in s.rows
    requires v != "" && ParseInt(v) == Some(s.rows[e].id)
    ensures UserGet(Some(v), s, false) == HttpResponse(200, Found(StripHash(s.rows[e])), None)
  {
  }

  /** The cookie set by a successful login, once stored by the browser, is a
      session for the guard and makes the user route answer with the user the
      login returned. */
  lemma LoginSessionResolves(c: UserCredentials, s: Store, production: bool, nowMillis: int)
    requires StoreValid(s)
    requires Login(s, c, None).success
    ensures var r := LoginPost(Some(c), s, None, production);
            var stored := ApplySetCookie(None, r.cookie.value, nowMillis);
            && HasSession(stored)
            && UserGet(stored, s, false) == HttpResponse(200, Found(r.body.response.user.value), None)
  {
    var res := Login(s, c, None);
    var r := LoginPost(Some(c), s, None, production);
    assert r == LoginResponse(res, production);
    var u := res.user.value;
    assert u == StripHash(s.rows[c.email]);
    var d := IssueSession(u.id, production);
    assert r.cookie == Some(d);
    assert ApplySetCookie(None, d, nowMillis) == Some(d.value);
    UserRouteFindsRow(s, c.email, d.value);
  }

  /** Registering and then signing in through the routes gives a session that
      resolves to the user registration created. */
  lemma RegisterLoginResolves(table: Store, c: UserCredentials, salt: Salt, now: string, production: bool, nowMillis: int)
    requires StoreValid(table)
    requires Register(table, c, salt, now, None).0.success
    ensures var (reg, t) := Register(table, c, salt, now, None);
            var r := LoginPost(Some(c), t, None, production);
            && RegisterResponse(reg).status == 201
            && r.status == 200
            && UserGet(ApplySetCookie(None, r.cookie.value, nowMillis), t, false) == HttpResponse(200, Found(reg.user.value), None)
  {
    var (reg, t) := Register(table, c, salt, now, None);
    RegisterThenLogin(table, c, salt, now);
    LoginSessionResolves(c, t, production, nowMillis);
  }

  /** The credentials of the registration scenario, as validation sees them. */
  lemma ScenarioCredentials()
    ensures FirstViolation(UserCredentials("a@x.com", "secret1")).None?
    ensures FirstViolation(UserCredentials("a@x.com", "wrong12")).None?
    ensures FirstViolation(UserCredentials("a@x.com", "wrong")) == Some(PasswordTooShortMessage)
  {
    ScenarioEmailIsValid();
    assert |"wrong"| == 5 && |"wrong12"| == 7 && |"secret1"| == 7;
  }

  /** The registration scenario: "a@x.com" with "secret1" registers with 201 and a
      positive id; a login with "wrong" is refused at validation, because it is
      shorter than six characters, and not with "Invalid credentials"; a wrong
      password of valid length is; the right password signs in. */
  lemma RegistrationScenario(s: Store, salt: Salt, now: string, production: bool)
    requires StoreValid(s) && "a@x.com" !in s.rows
    ensures var c := UserCredentials("a@x.com", "secret1");
            var reg := Register(s, c, salt, now, None).0;
            var t := Register(s, c, salt, now, None).1;
            && RegisterResponse(reg).status == 201
            && reg.user.Some? && reg.user.value.email == "a@x.com" && reg.user.value.id >= 1
            && LoginPost(Some(UserCredentials("a@x.com", "wrong")), t, None, production) ==
                 HttpResponse(401, Envelope(Failure(InvalidInputPrefix + PasswordTooShortMessage)), None)
            && LoginPost(Some(UserCredentials("a@x.com", "wrong12")), t, None, production) ==
                 HttpResponse(401, Envelope(Failure(InvalidCredentialsMessage)), None)
            && LoginPost(Some(c), t, None, production).status == 200
  {
    ScenarioCredentials();
    var c := UserCredentials("a@x.com", "secret1");
    var res := Register(s, c, salt, now, None);
    var t := res.1;
    assert res.0.success;
    RegisterThenLogin(s, c, salt, now);
    assert t.rows["a@x.com"].passwordHash == Hash("secret1", salt);
    CompareExact("secret1", "wrong12", salt);
    assert !Compare("wrong12", t.rows["a@x.com"].passwordHash);
  }

  /** After logout the browser drops the session cookie, whatever it held; and a
      browser that kept the empty value is treated as signed out just the same,
      by the guard and by the user route. */
  lemma LogoutEndsSession(stored: Option<string>, production: bool, nowMillis: int, s: Store, path: string)
    requires StoreValid(s)
    requires nowMillis >= 0
    ensures ApplySetCookie(stored, LogoutPost(production).cookie.value, nowMillis) == None
    ensures UserGet(None, s, false).status == 401
    ensures UserGet(Some(""), s, false) == UserGet(None, s, false)
    ensures Middleware(path, Some("")) == Middleware(path, None)
    ensures path in AuthPaths ==> Middleware(path, None) == Proceed
  {
  }
}
