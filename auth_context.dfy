/** The client-side authentication state of src/context/AuthContext.tsx: three
    state fields updated by `login`, `logout` and the initial check against the
    user route, and the `useAuth` hook that reads them. */
module AuthContext {
  import opened AuthTypes
  import opened UserStore
  import opened AuthRoutes

  const OutsideProviderMessage := "useAuth must be used within an AuthProvider"

  /** What `fetch('/api/auth/user')` followed by `response.json()` yields: an
      exception, or a response with its `ok` flag and the body's `success` and
      `user` fields. */
  datatype FetchOutcome = Threw | Responded(ok: bool, success: bool, user: Option<User>)

  /** The outcome the browser observes for a response of the user route:
      `ok` for a 2xx status, and the fields of its JSON body. */
  function Observe(r: HttpResponse): (o: FetchOutcome)
    ensures o.Responded? && (o.ok <==> 200 <= r.status < 300)
    ensures r.body.Found? ==> o.success && o.user == Some(r.body.user)
    ensures r.body.Notice? ==> o.success == r.body.success && o.user.None?
    ensures r.body.Envelope? ==> o.success == r.body.response.success && o.user == r.body.response.user
  {
    var ok := 200 <= r.status < 300;
    match r.body
    case Envelope(response) => Responded(ok, response.success, response.user)
    case Found(user) => Responded(ok, true, Some(user))
    case Notice(success, _) => Responded(ok, success, None)
  }

  /** The user an outcome of the initial check signs in, if any: only an ok
      response whose body says `success` and carries a user. */
  function SignedInUser(o: FetchOutcome): (u: Option<User>)
    ensures u.Some? <==> o.Responded? && o.ok && o.success && o.user.Some?
    ensures u.Some? ==> u == o.user
  {
    match o
    case Threw => None
    case Responded(ok, success, user) => if ok && success then user else None
  }

  /** The `AuthProvider` component's state. */
  class AuthProvider {
    var isAuthenticated: bool
    var user: Option<User>
    var isLoading: bool

    /** Signed in exactly when a user is held. */
    ghost predicate Valid()
      reads this
    {
      isAuthenticated <==> user.Some?
    }

    /** The state on mount: anonymous, loading. */
    constructor ()
      ensures Valid()
      ensures !isAuthenticated && user.None? && isLoading
    {
      isAuthenticated := false;
      user := None;
      isLoading := true;
    }

    /** `login(userData)`. The new state does not depend on the old one, so a
        second call with the same user changes nothing. */
    method Login(userData: User)
      modifies this
      ensures Valid()
      ensures isAuthenticated && user == Some(userData) && !isLoading
    {
      isAuthenticated := true;
      user := Some(userData);
      isLoading := false;
    }

    /** `logout()`; like `login`, its result does not depend on the old state. */
    method Logout()
      modifies this
      ensures Valid()
      ensures !isAuthenticated && user.None? && !isLoading
    {
      isAuthenticated := false;
      user := None;
      isLoading := false;
    }

    /** `checkInitialAuth` for a given outcome of the fetch: signs in the user the
        route returned, clears the state otherwise, and always stops loading. */
    method CheckInitialAuth(o: FetchOutcome)
      modifies this
      ensures Valid()
      ensures user == SignedInUser(o) && !isLoading
    {
      isLoading := true;
      match o {
        case Threw =>
          isAuthenticated := false;
          user := None;
        case Responded(ok, success, data) =>
          if ok {
            if success && data.Some? {
              isAuthenticated := true;
              user := data;
            } else {
              isAuthenticated := false;
              user := None;
            }
          } else {
            isAuthenticated := false;
            user := None;
          }
      }
      isLoading := false;
    }
  }

  /** What `useAuth` gives: the provider's value, or the error it throws. */
  datatype HookResult = Provided(provider: AuthProvider) | Thrown(message: string)

  /** `useAuth()` for the context value React finds, `None` outside a provider. */
  function UseAuth(context: Option<AuthProvider>): (r: HookResult)
    ensures r.Thrown? <==> context.None?
    ensures r.Thrown? ==> r.message == "useAuth must be used within an AuthProvider"
    ensures r.Provided? ==> r.provider == context.value
  {
    match context
    case None => Thrown(OutsideProviderMessage)
    case Some(p) => Provided(p)
  }

  /** The initial check signs in exactly when the user route answers 200, and
      then as the user the route found. */
  lemma InitialCheckFollowsUserRoute(session: Option<string>, s: Store, dbFails: bool)
    requires StoreValid(s)
    ensures var r := UserGet(session, s, dbFails);
            SignedInUser(Observe(r)) == if r.status == 200 then Some(r.body.user) else None
  {
  }
}
