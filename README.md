# Auth dashboard core, modelled in Dafny

A model of the authentication slice of a small Next.js dashboard application,
with proofs about it:

- the authentication service (`registerUser`, `loginUser`) over a users table
  with unique emails and auto-assigned ids;
- the `session` cookie: how it is issued at login, read back with ECMAScript
  `parseInt` and cleared at logout;
- the routing middleware that guards `/dashboard` and the sign-in pages;
- the four API route handlers (login, register, user, logout);
- the client-side `AuthProvider` state and the `useAuth` hook;
- the seed script's `INSERT OR IGNORE` loop;
- the chart option builder of the diet analytics component.

Modules, one per component:

| file | module | models |
|---|---|---|
| auth_types.dfy | `AuthTypes` | `User`, `UserCredentials`, `AuthResponse`, thrown values |
| bcrypt.dfy | `Bcrypt` | bcrypt `hash`/`compare`, idealised, with the 72-byte key limit |
| validation.dfy | `Validation` | the zod email and password schemas |
| user_store.dfy | `UserStore` | the `users` table: value snapshots and the `UsersTable` class updated in place |
| auth_service.dfy | `AuthService` | `registerUser`, `loginUser` |
| session_cookie.dfy | `SessionCookie` | `id.toString()`, `parseInt`, the `Set-Cookie` directives (RFC 6265, section 4.1.2) and how a browser applies them (RFC 6265, section 5.3) |
| route_guard.dfy | `RouteGuard` | `middleware` |
| auth_routes.dfy | `AuthRoutes` | `POST /api/auth/login`, `POST /api/auth/register`, `GET /api/auth/user`, `POST /api/auth/logout` |
| auth_context.dfy | `AuthContext` | `AuthProvider`, `checkInitialAuth`, `login`, `logout`, `useAuth` |
| seed.dfy | `Seed` | `seedDatabase`, `insertMany` |
| diet_analytics.dfy | `DietAnalytics` | `getChartOption` |

Randomness, time and the environment become parameters:

- the salt from `genSalt` is a `Salt` parameter;
- the timestamps the column defaults write are a `now` string, and in the seed script a list `nows` with one entry per `INSERT` statement, since SQLite evaluates `CURRENT_TIMESTAMP` once per statement;
- `process.env.NODE_ENV === 'production'` is a `production` flag;
- the wall clock a browser compares a cookie's expiry against is `nowMillis`.

Errors thrown inside a `try` become an `Option<Fault>` parameter. A fault is
either an `Error` with a message or some other thrown value.

The table is modelled twice:

- `Store` is a value: a map from email to row, plus the next rowid. Pure functions such as `Login` and `UserGet` read it.
- `UsersTable` is a class whose methods update the same two fields in place. Each method is proved against the `Store` function of the same operation.

Three behaviours of the code worth knowing, each stated by the members named:

- **Errors thrown inside the service.** A database or hashing error inside `registerUser`/`loginUser` is caught by the service itself. The service returns the error's own message with `success: false`, so the route answers 400 or 401, not 500 (`Register`, `Login`, `LoginPost`).
- **Malformed session cookies.** The middleware treats any non-empty cookie value as a session, whether or not it names a user. Only the user route rejects a value that does not resolve, and it answers 404 (`Middleware`, `UserGet`).
- **Short wrong passwords.** A login with the five-character password "wrong" is refused at validation with "Invalid input: Password must be at least 6 characters long", not with "Invalid credentials" (`RegistrationScenario`).

## Model

| member | source | states |
|---|---|---|
| Bcrypt.Key | src/lib/auth/service.ts:32 | the digested part of a password is at most 72 characters long, is a prefix of it, and is the whole password when that is short enough |
| Bcrypt.Hash | src/lib/auth/service.ts:30-32 | a hash records cost 12 and its salt, and `compare` accepts the password it was made from |
| Bcrypt.CompareExact | src/lib/auth/service.ts:102-110 | for a password under the key limit, its hash accepts exactly that password and rejects every other |
| Bcrypt.LongPasswordsCollide | src/lib/auth/service.ts:102 | two passwords longer than 72 characters with the same first 72 characters each unlock the other's hash |
| Validation.Utf16Length | src/lib/auth/service.ts:11 | the JavaScript length of a string lies between its character count and twice that, and equals the character count when no character is above U+FFFF |
| Validation.PasswordViolation | src/lib/auth/service.ts:11 | no violation iff the length in UTF-16 code units is within 6..100; too short and too long get their own messages |
| Validation.AstralCharactersCountTwice | src/lib/auth/service.ts:11 | three characters above U+FFFF have length 6 and pass; "ab" with two of them passes; "abcde" is too short |
| Validation.FirstViolation | src/lib/auth/service.ts:26-27 | the email is checked before the password; no violation iff the email is valid and the password's UTF-16 length is within 6..100 |
| Validation.DomainShape | src/lib/auth/service.ts:9 | a domain the email pattern accepts holds no `@` and ends with a letter |
| Validation.IsValidEmail | src/lib/auth/service.ts:9 | an accepted address has exactly one `@`, not at its start or end, and ends with a letter |
| Validation.ScenarioEmailIsValid | src/lib/auth/service.ts:9 | "a@x.com" passes the email schema |
| Validation.DomainWithoutDotIsInvalid | src/lib/auth/service.ts:9 | "a@x" fails the email schema |
| UserStore.StripHash | src/lib/auth/service.ts:42-43 | the returned user carries the row's id, email and both timestamps, and the `User` type has no hash field |
| UserStore.SelectById | src/lib/auth/service.ts:42-43 | a row is found iff some row has that id, and it is the table's row for its email |
| UserStore.Inserted | src/lib/auth/service.ts:35-37 | inserting a new email keeps the table valid; it adds exactly one row, with the next id, the hash and both timestamps; other rows are unchanged and the next id moves on by one |
| UserStore.InsertRow | src/lib/auth/service.ts:35-37 | `INSERT` fails with a unique violation iff the email is present, and then changes nothing; otherwise it changes exactly one row, reports the new rowid and keeps the table valid |
| UserStore.UsersTable.constructor | src/lib/db/index.ts:33-36 | a newly created database's table starts empty and valid, with next rowid 1 |
| UserStore.UsersTable.Insert | src/lib/auth/service.ts:35-37 | the in-place insert keeps the table valid and reports and stores what `InsertRow` specifies |
| UserStore.UsersTable.InsertOrIgnore | scripts/seed.ts:27-35 | `INSERT OR IGNORE` changes 0 rows and leaves the table alone for a present email; otherwise it changes 1 row and adds it |
| AuthTypes.CaughtMessage | src/lib/auth/service.ts:74 | a caught `Error` reports its own message; any other thrown value reports the fallback |
| AuthService.Register | src/lib/auth/service.ts:23-77 | the first validation violation, a thrown fault, a duplicate email and success are reported with their messages; success iff the input is valid, nothing is thrown and the email is new; a failure leaves the table unchanged; a success adds one row with the hashed password and returns that row's user, without the hash; the result always has a user iff it succeeded |
| AuthService.RegisterUser | src/lib/auth/service.ts:23-77 | the in-place registration keeps the table valid and answers and updates as `Register` specifies |
| AuthService.Login | src/lib/auth/service.ts:81-136 | success iff the input is valid, nothing is thrown, the email is stored and its hash accepts the password; success returns the stored row without the hash and "Login successful"; every other validated, fault-free case is "Invalid credentials" |
| AuthService.InsertNeverReportsFailure | src/lib/auth/service.ts:40-53 | without faults, registration never answers "Failed to register user" |
| AuthService.DuplicateRegistrationAddsNoRow | src/lib/auth/service.ts:64-69 | registering an already registered email again answers "Email already registered" and leaves the table as it was |
| AuthService.RegisterThenLogin | src/lib/auth/service.ts:102-119 | after a successful registration, logging in with the same credentials succeeds with the same user and id |
| AuthService.LoginFailuresIndistinguishable | src/lib/auth/service.ts:93-110 | an unknown email and a wrong password get the identical answer |
| SessionCookie.HasSession | src/middleware.ts:16-18 | no cookie is no session, and a session's value is at least one character long |
| SessionCookie.ParseInt | src/app/api/auth/user/route.ts:22 | a string of white space only reads as NaN; a string that does not start with white space is read from its first character, sign then digits |
| SessionCookie.DecimalString | src/app/api/auth/login/route.ts:29 | a non-negative id is written as one or more decimal digits with no leading zero |
| SessionCookie.DecimalStringValue | src/app/api/auth/login/route.ts:29 | the digits written for `n` denote `n` |
| SessionCookie.IdToString | src/app/api/auth/login/route.ts:29 | the written id is never empty |
| SessionCookie.ParseIntOfNonNegative | src/app/api/auth/user/route.ts:22 | `parseInt` of `n`'s digits followed by anything that is not a digit or an `x` gives back `n` |
| SessionCookie.ParseIntOfNegative | src/app/api/auth/user/route.ts:22 | `parseInt` of a negative id's string gives back the id |
| SessionCookie.IdRoundTrip | src/app/api/auth/user/route.ts:22 | `parseInt(id.toString()) == id` for every integral id |
| SessionCookie.IssueSession | src/app/api/auth/login/route.ts:27-34 | the login cookie is named `session`, its value is exactly `id.toString()`, is non-empty and parses back to the id, and it is HttpOnly, SameSite=Lax, Secure iff production, with Max-Age 604800 |
| SessionCookie.RevokeSession | src/app/api/auth/logout/route.ts:14-21 | the logout cookie has an empty value and expires at the epoch; its name and flags are those of every login cookie |
| SessionCookie.ApplySetCookie | src/app/api/auth/logout/route.ts:14-21 | a directive for another cookie leaves the session cookie alone; a kept cookie holds the directive's value |
| RouteGuard.IsProtected | src/middleware.ts:27 | a path is protected when some protected path is a prefix of it (its meaning is proved by `ProtectedMeansDashboardPrefix`) |
| RouteGuard.ProtectedMeansDashboardPrefix | src/middleware.ts:27 | a path is protected iff it starts with `/dashboard` |
| RouteGuard.Middleware | src/middleware.ts:11-34 | redirect to `/dashboard` iff there is a session and the path is exactly `/`, `/login` or `/register`; redirect to `/` iff there is no session and the path starts with `/dashboard`; no other redirect |
| RouteGuard.NoRedirectLoop | src/middleware.ts:21-33 | following a redirect with the same cookie reaches a page that proceeds |
| RouteGuard.PrefixAndExactMatch | src/middleware.ts:21-30 | `/dashboard/settings` without a session, or with an empty one, redirects to `/`; `/login/help` with a session proceeds; `/login` with a session redirects |
| AuthRoutes.InternalError | src/app/api/auth/login/route.ts:41-48 | the catch answer is 500 with `{success: false, message: "Internal server error"}` and no cookie |
| AuthRoutes.LoginResponse | src/app/api/auth/login/route.ts:22-40 | 200 iff success with a user, otherwise 401 with no cookie; the body is the service result; a 200 carries exactly the session cookie `IssueSession` makes for the user's id: its value parses to the id and it has the login flags |
| AuthRoutes.LoginPost | src/app/api/auth/login/route.ts:8-50 | an unreadable body gives 500; otherwise the route answers the service's login result; the status is 200, 401 or 500 |
| AuthRoutes.RegisterResponse | src/app/api/auth/register/route.ts:22-28 | 201 iff the service succeeded, otherwise 400; the body is the service result; never a cookie |
| AuthRoutes.RegisterPost | src/app/api/auth/register/route.ts:8-38 | never sets a cookie; an unreadable body gives 500 and leaves the table unchanged; otherwise it answers and updates the table as `Register` specifies |
| AuthRoutes.UserGet | src/app/api/auth/user/route.ts:8-50 | 401 "Not authenticated" iff there is no non-empty session cookie; 500 on a database error; 200 iff the value parses to the id of a stored row, and then the body is that row without the hash; with a session and no database error, every other case is exactly 404 "User not found"; never a cookie |
| AuthRoutes.LogoutPost | src/app/api/auth/logout/route.ts:6-25 | always 200 "Logged out successfully" with the clearing cookie: empty, expired at the epoch, with the login cookie's name and flags |
| AuthRoutes.UserRouteFindsRow | src/app/api/auth/user/route.ts:22-40 | a non-empty cookie value that parses to a stored row's id makes the user route answer 200 with that row, without its hash |
| AuthRoutes.LoginSessionResolves | src/app/api/auth/user/route.ts:22-40 | the cookie a successful login sets, once stored, is a session, and the user route answers it with the user the login returned |
| AuthRoutes.RegisterLoginResolves | src/app/api/auth/login/route.ts:22-34 | register (201), then login (200), then the user route resolves the cookie to the registered user |
| AuthRoutes.ScenarioCredentials | src/lib/auth/service.ts:9-11 | "a@x.com" with "secret1" or "wrong12" passes validation; "wrong" is too short |
| AuthRoutes.RegistrationScenario | src/lib/auth/service.ts:23-136 | "a@x.com"/"secret1" registers with 201 and a positive id; "wrong" is refused as too short; "wrong12" gets "Invalid credentials"; "secret1" signs in with 200 |
| AuthRoutes.LogoutEndsSession | src/app/api/auth/logout/route.ts:14-21 | after logout the browser holds no session cookie; an empty kept value is treated as no session by the user route (401) and by the middleware |
| AuthContext.Observe | src/context/AuthContext.tsx:47-49 | the browser sees `ok` iff the status is 2xx, and the body's `success` and `user`, for every kind of body |
| AuthContext.SignedInUser | src/context/AuthContext.tsx:48-68 | the initial check yields a user iff the response is ok, says success and carries a user; a thrown fetch yields none |
| AuthContext.AuthProvider.constructor | src/context/AuthContext.tsx:37-39 | initially not authenticated, no user, loading |
| AuthContext.AuthProvider.Login | src/context/AuthContext.tsx:78-82 | authenticated, holding the given user, not loading, whatever the previous state, so repeating it changes nothing |
| AuthContext.AuthProvider.Logout | src/context/AuthContext.tsx:85-90 | not authenticated, no user, not loading, whatever the previous state |
| AuthContext.AuthProvider.CheckInitialAuth | src/context/AuthContext.tsx:43-73 | the held user is the one the outcome signs in; authenticated iff a user is held; loading ends |
| AuthContext.UseAuth | src/context/AuthContext.tsx:20-26 | throws "useAuth must be used within an AuthProvider" iff there is no provider, and otherwise gives the provider |
| AuthContext.InitialCheckFollowsUserRoute | src/context/AuthContext.tsx:47-58 | the initial check signs in iff the user route answers 200, and then as the user it found |
| Seed.DummyUsers | scripts/seed.ts:16-22 | the five seed emails in order, each with the one common hash |
| Seed.InsertAll | scripts/seed.ts:30-43 | one `INSERT OR IGNORE` per user in list order, each at its own statement time; the count never exceeds the list length, and the next id advances by the count |
| Seed.InsertAllValid | scripts/seed.ts:27 | seeding keeps the table valid |
| Seed.InsertAllRows | scripts/seed.ts:32-41 | existing rows are unchanged; afterwards the emails present are the old ones and the list's; the table grows by the count |
| Seed.InsertedCountIsNewEmails | scripts/seed.ts:31-42 | the count is the number of distinct listed emails that were not in the table |
| Seed.InsertAllHashes | scripts/seed.ts:33 | every added row holds the users' common hash |
| Seed.InsertAllTimestamps | scripts/seed.ts:32-33 | the row a new email gets holds, as both its creation and its update time, the time of the statement of the first user listed with that email |
| Seed.NothingNewInsertsNothing | scripts/seed.ts:38-39 | a list whose emails are all present inserts nothing and changes nothing |
| Seed.InsertMany | scripts/seed.ts:30-43 | the transaction's loop, run in place with statement `i` at time `nows[i]`, keeps the table valid and leaves the table and count `InsertAll` specifies |
| Seed.SeedDatabase | scripts/seed.ts:9-48 | the common password is hashed once and the five users are inserted with it, as `InsertAll` specifies |
| Seed.SeedRows | scripts/seed.ts:27-41 | after seeding the table is valid, holds all five seed emails, and every earlier row is unchanged |
| Seed.SeedHash | scripts/seed.ts:10-22 | every added row holds the common hash, of cost 12, which accepts "harsha" |
| Seed.SeedTimestamps | scripts/seed.ts:31-33 | each new seed user's row is stamped with the time of that user's own statement, so one seeding can write different times |
| Seed.SeedCount | scripts/seed.ts:42 | the count is the number of seed emails that were new, and five on an empty table |
| Seed.SeedEmailsCount | scripts/seed.ts:16-22 | the five seed emails are distinct |
| Seed.SeedTwice | scripts/seed.ts:27 | a second seeding inserts nothing and changes nothing |
| DietAnalytics.NutrientAt | src/components/DietAnalytics/DietAnalytics.tsx:69-77 | index 0 to 5 selects protein, carbs, fats, vitamins, minerals and fiber; any other index gives 0 |
| DietAnalytics.GetChartOption | src/components/DietAnalytics/DietAnalytics.tsx:44-143 | the legend is the six labels; the categories are the dates in order; there are six stacked bar series, each named by its label, with its colour and one entry per record; entry i of series k is the k-th nutrient of record i |
| DietAnalytics.StackedBarIsDayTotal | src/components/DietAnalytics/DietAnalytics.tsx:58-79 | the six series' entries at index i sum to day i's total of the six nutrients |

## Left out

- bcrypt's algorithm: a hash is a record of the cost, the salt and the digested part of the password. Compare recomputes that part, so two different passwords collide only through the 72-byte key limit. The limit is counted in characters, which matches bytes for ASCII passwords only.
- Validation.IsValidEmail follows the email pattern of zod 3.22. The zod version the application resolves to is not pinned in the modelled files, so other versions' patterns are not modelled.
- Request bodies that are JSON but lack `email` or `password`: zod's "Required" and type messages for `undefined` fields are not modelled. A body that is not JSON is `None`.
- AuthService.Register: a fault is modelled as thrown before the insert, by `genSalt`, `hash` or `prepare`. A fault thrown by the `SELECT` after a successful insert is not modelled; it would keep the new row and still report failure.
- AuthService.Register: a thrown `Error` whose `code` is `SQLITE_CONSTRAINT_UNIQUE` is produced only by the insert of a present email. No other source of that code is modelled.
- AuthRoutes.UserGet: a database error is a flag that yields 500. Where in the handler it is thrown is not distinguished.
- SessionCookie.ParseInt: reads with unbounded integers. Beyond 2^53 an id is rounded to a double before `toString` writes its digits, and from 1e21 on it is written in exponent notation. Neither behaviour is modelled, nor is `parseInt`'s handling of UTF-16 surrogates.
- Binding `NaN` as a query parameter: it is modelled as matching no row, which gives 404.
- The cookie's `Path` and `Domain` defaults, and the `NextResponse`/`NextRequest` objects, are not modelled.
- `config.matcher` in src/middleware.ts is not modelled. The model gives the middleware's decision for every path, not only the paths Next.js invokes it on.
- The `AuthenticationError` class is not modelled; only the message it carries is.
- Concurrent requests are not modelled. Unique emails are an invariant of a sequential table.
- The seed transaction's rollback on error, `process.exit`, `db.close` and all logging are not modelled.
- src/lib/db/index.ts: the directory creation, pragmas and the reading of the schema file are not modelled. src/lib/db/schema.sql is not part of this model. The table shape is taken from the queries: an integer primary key, a unique email, a password hash and two timestamp columns with defaults.
- DietAnalytics: the nutrient values, `any`-typed JavaScript numbers, are modelled as integers. How ECharts draws a stack that mixes negative and positive values is not modelled; `StackedBarIsDayTotal` states only the sum of the entries.
- `generateMockData` (random values and the current date), the `DietChart` and `DietAnalytics` components, and the option's styling fields (tooltip, grid, axis and legend colours) are not modelled.
- The React rendering and effect scheduling of `AuthProvider` are not modelled; its state is a class with three fields.
- The UI components (forms, navbar, pages) are not modelled. The registration form's client-side minimum of 8 characters differs from the service's 6; the model follows the service.
