# Session lifecycle of the Spring Security auth service

This project models how the service gives browser users a server-side
session, and it proves properties of that model. A session id is issued
when a user registers or logs in. The registry maps the id to the user's
email in Redis, or in an in-process fallback map when Redis fails. The id
travels in the `SESSION_ID` cookie. On each UI request a servlet filter
resolves the id, authenticates the user and refreshes the id's time to
live. Logout deletes the Redis key and the cookie.

The model also covers the two security filter chains: which
authentication filter each adds, and which rule authorizes each path: the stateless JWT chain
for `/api/**` and the session chain for the UI. Finally it covers the
JWT-flavoured account service. The model uses one `Accounts.CreateUserAccount`
for both services; the two Java methods differ only in the `createdDate` and
`dateOfBirth` fields, which the session service alone sets and which are not
modelled.

Modules:

- `Wrappers`: `Option`, `Result` and `Outcome`. They stand for Java's null and for an exception escaping a call.
- `Text`: the `startsWith` and `contains` tests on strings.
- `Base64`: section 4 of RFC 4648 (standard alphabet, `=` padding), its decoder and round trip, and the session-id format.
- `Cookies`: the `SESSION_ID` cookie, its deletion cookie and the first-match scan of a request's cookies.
- `SessionStore`: the Redis keyspace (values and the keys that carry a TTL) and the fallback map, as pure transition functions, plus the `SessionRegistry` class whose methods apply them.
- `SecurityConfig`: the two filter chains as data, chain selection, first-match rule lookup and access decisions.
- `SessionFilter`: the session authentication filter.
- `Accounts`, `WebUserService`, `JwtUserService`: users, the repository, and the two account services.
- `WebUIRedisController`: the `/ui/auth/redis` pages, plus one end-to-end page flow.

Whether Redis answers is a parameter, `storeUp`, of every registry
operation and of every handler that calls one. When it is false, each
Redis call of that operation throws. Passive expiry of keys with a TTL is
the explicit step `SessionRegistry.TimeoutElapses`.

The registry's failure policy is asymmetric. `registerSession` and
`getUsernameForSession` catch a Redis failure and use the static
`SESSIONS` map instead. `invalidateSession` and `refreshSession` catch
nothing, so the failure escapes to the caller. `UncaughtOutcome` is
`Raised` exactly when the id is non-null, non-empty and Redis is down.
So when Redis is down, a request that carries a session id held only in
`SESSIONS` is authenticated by the filter, and then the refresh fails.

## Model

| member | source | states |
|---|---|---|
| SessionStore.Lookup | src/main/java/com/imbilalbutt/springauthdev/Session/Redis/SessionRegistry.java:45-52 | a key yields a value exactly when it is in the map, and the value is the mapped one |
| SessionStore.AfterRegister | src/main/java/com/imbilalbutt/springauthdev/Session/Redis/SessionRegistry.java:28-43 | with Redis up, the id maps to the username in Redis and loses any TTL, while every other key keeps its membership and TTL and the fallback map is unchanged; with Redis down, only the fallback map gains the id, and Redis keys and TTLs are unchanged; the keyspace stays well formed |
| SessionStore.UncaughtOutcome | src/main/java/com/imbilalbutt/springauthdev/Session/Redis/SessionRegistry.java:62-87 | invalidate and refresh raise exactly when the id is non-null, non-empty and Redis fails |
| SessionStore.AfterInvalidate | src/main/java/com/imbilalbutt/springauthdev/Session/Redis/SessionRegistry.java:62-69 | a null or empty id, or a Redis failure, changes nothing; otherwise that id's key and expiry are gone, every other key keeps its value and expiry, and the fallback map is untouched |
| SessionStore.AfterRefresh | src/main/java/com/imbilalbutt/springauthdev/Session/Redis/SessionRegistry.java:71-87 | a null or empty id, or a Redis failure, changes nothing; otherwise the id gains the expiry exactly when Redis holds it; no stored username and no fallback entry changes |
| SessionStore.AfterTimeout | src/main/java/com/imbilalbutt/springauthdev/Session/Redis/SessionRegistry.java:21 | after the timeout exactly the keys without a TTL remain, with their values; no key carries a TTL; the fallback map is intact |
| SessionStore.SessionRegistry.constructor | src/main/java/com/imbilalbutt/springauthdev/Session/Redis/SessionRegistry.java:17-26 | the registry starts from the given Redis contents and an empty fallback map |
| SessionStore.SessionRegistry.RegisterSession | src/main/java/com/imbilalbutt/springauthdev/Session/Redis/SessionRegistry.java:28-43 | a null username fails and changes nothing; otherwise the id is the Base64 of the UUID text, and it is stored in Redis (clearing its TTL) or, when Redis fails, in the fallback map |
| SessionStore.SessionRegistry.GetUsernameForSession | src/main/java/com/imbilalbutt/springauthdev/Session/Redis/SessionRegistry.java:45-52 | with Redis up, the answer is the Redis value (null when the key is missing); with Redis down, it is the fallback entry |
| SessionStore.SessionRegistry.InvalidateSession | src/main/java/com/imbilalbutt/springauthdev/Session/Redis/SessionRegistry.java:62-69 | a null or empty id does nothing; otherwise the Redis key is deleted, or the store error escapes and nothing changes |
| SessionStore.SessionRegistry.RefreshSession | src/main/java/com/imbilalbutt/springauthdev/Session/Redis/SessionRegistry.java:71-87 | a null or empty id does nothing; a key present in Redis gets the 24-hour TTL; a store error escapes |
| SessionStore.SessionRegistry.TimeoutElapses | src/main/java/com/imbilalbutt/springauthdev/Session/Redis/SessionRegistry.java:80-85 | the keys with a TTL expire |
| SessionStore.ResolveAfterRegister | src/main/java/com/imbilalbutt/springauthdev/Session/Redis/SessionRegistry.java:28-52 | a session just registered resolves to its username under the same store availability |
| SessionStore.RegisterWritesOneStore | src/main/java/com/imbilalbutt/springauthdev/Session/Redis/SessionRegistry.java:35-40 | registering a fresh id writes exactly one of the two stores and changes no other id's resolution |
| SessionStore.RegisterAddsOneEntry | src/main/java/com/imbilalbutt/springauthdev/Session/Redis/SessionRegistry.java:28-43 | registering a fresh id adds exactly one entry across the two stores |
| SessionStore.ResolveAfterInvalidate | src/main/java/com/imbilalbutt/springauthdev/Session/Redis/SessionRegistry.java:62-69 | once invalidated with Redis up, an id no longer resolves while Redis is up |
| SessionStore.InvalidateKeepsOthers | src/main/java/com/imbilalbutt/springauthdev/Session/Redis/SessionRegistry.java:62-69 | invalidating one id changes no other id's resolution, on either path |
| SessionStore.FallbackSessionOutlivesInvalidate | src/main/java/com/imbilalbutt/springauthdev/Session/Redis/SessionRegistry.java:37-40 | a session written to the fallback map still resolves there after it is invalidated: logout never removes fallback entries |
| SessionStore.UnrefreshedSessionNeverExpires | src/main/java/com/imbilalbutt/springauthdev/Session/Redis/SessionRegistry.java:36 | a session registered in Redis and never refreshed carries no TTL and survives the timeout |
| SessionStore.RefreshedSessionExpires | src/main/java/com/imbilalbutt/springauthdev/Session/Redis/SessionRegistry.java:71-87 | a session refreshed while in Redis is gone after the timeout |
| SessionStore.RefreshKeepsUsernames | src/main/java/com/imbilalbutt/springauthdev/Session/Redis/SessionRegistry.java:71-87 | refresh changes no id's resolved username |
| SessionStore.RefreshUnknownIsNoOp | src/main/java/com/imbilalbutt/springauthdev/Session/Redis/SessionRegistry.java:77-86 | refreshing an id that Redis does not hold changes nothing and raises nothing |
| Base64.CharOf | src/main/java/com/imbilalbutt/springauthdev/Session/Redis/SessionRegistry.java:54-60 | every sextet maps into the Base64 alphabet |
| Base64.ValueOf | src/main/java/com/imbilalbutt/springauthdev/Session/Redis/SessionRegistry.java:54-60 | decoding an alphabet character inverts the encoding table |
| Base64.ValueOfCharOf | src/main/java/com/imbilalbutt/springauthdev/Session/Redis/SessionRegistry.java:54-60 | the table is invertible: decode(encode(v)) = v for every sextet |
| Base64.Encode | src/main/java/com/imbilalbutt/springauthdev/Session/Redis/SessionRegistry.java:54-60 | the output has 4 characters per started 3-byte group; all are alphabet or `=`; padding appears exactly when the length is not a multiple of 3 |
| Base64.EncodeOneByteVector | src/main/java/com/imbilalbutt/springauthdev/Session/Redis/SessionRegistry.java:56 | the encoder gives `Zg==` for `f`, as the test vectors of RFC 4648 section 10 require |
| Base64.EncodeTwoByteVector | src/main/java/com/imbilalbutt/springauthdev/Session/Redis/SessionRegistry.java:56 | the encoder gives `Zm8=` for `fo`, as RFC 4648 section 10 requires |
| Base64.EncodeSixByteVector | src/main/java/com/imbilalbutt/springauthdev/Session/Redis/SessionRegistry.java:56 | the encoder gives `Zm9v` for `foo` and `Zm9vYmFy` for `foobar`, as RFC 4648 section 10 requires |
| Base64.GroupRoundTrip | src/main/java/com/imbilalbutt/springauthdev/Session/Redis/SessionRegistry.java:54-60 | a full 3-byte group decodes back to itself |
| Base64.ThreeByteRoundTrip | src/main/java/com/imbilalbutt/springauthdev/Session/Redis/SessionRegistry.java:54-60 | exactly three bytes encode to one unpadded quadruple that decodes back to them |
| Base64.OneByteRoundTrip | src/main/java/com/imbilalbutt/springauthdev/Session/Redis/SessionRegistry.java:54-60 | a trailing single byte (two `=`) decodes back to itself |
| Base64.TwoByteRoundTrip | src/main/java/com/imbilalbutt/springauthdev/Session/Redis/SessionRegistry.java:54-60 | a trailing byte pair (one `=`) decodes back to itself |
| Base64.DecodeEncode | src/main/java/com/imbilalbutt/springauthdev/Session/Redis/SessionRegistry.java:54-60 | decoding the encoding of any byte sequence gives back that sequence |
| Base64.EncodeInjective | src/main/java/com/imbilalbutt/springauthdev/Session/Redis/SessionRegistry.java:54-60 | distinct byte sequences have distinct encodings |
| Base64.AsciiBytes | src/main/java/com/imbilalbutt/springauthdev/Session/Redis/SessionRegistry.java:57 | the UTF-8 bytes of an ASCII string are its code points, one byte per character |
| Base64.SessionIdOf | src/main/java/com/imbilalbutt/springauthdev/Session/Redis/SessionRegistry.java:54-60 | a session id is 48 alphabet characters with no padding |
| Base64.SessionIdInjective | src/main/java/com/imbilalbutt/springauthdev/Session/Redis/SessionRegistry.java:54-60 | distinct UUID strings give distinct session ids |
| Cookies.FirstSessionCookieValueIsFirstMatch | src/main/java/com/imbilalbutt/springauthdev/Session/Redis/SessionAuthenticationFilter.java:75-85 | the value is that of the first cookie named `SESSION_ID`, or null when none has that name |
| Cookies.SessionIdFromCookies | src/main/java/com/imbilalbutt/springauthdev/Session/Redis/SessionAuthenticationFilter.java:75-85 | the loop returns null without a cookie array or a matching cookie, and otherwise the first match's value |
| SecurityConfig.SelectFrom | src/main/java/com/imbilalbutt/springauthdev/Security/SecurityConfig.java:96-98 | the chain chosen is the first in order whose matcher accepts the path; no earlier chain accepts it |
| SecurityConfig.FirstMatchFrom | src/main/java/com/imbilalbutt/springauthdev/Security/SecurityConfig.java:102-115 | the rule chosen is the first whose patterns match; no earlier rule matches |
| SecurityConfig.MatchersDisjoint | src/main/java/com/imbilalbutt/springauthdev/Security/SecurityConfig.java:100 | no path is accepted by both chains' matchers |
| SecurityConfig.ApiPathsMissForeignRules | src/main/java/com/imbilalbutt/springauthdev/Security/SecurityConfig.java:105-111 | no `/api/**` path is matched by the static-asset or `/admin/**` rules of the API chain |
| SecurityConfig.UiPathsMissStaticAssets | src/main/java/com/imbilalbutt/springauthdev/Security/SecurityConfig.java:137 | no path the UI chain accepts is matched by its static-asset rule |
| SecurityConfig.ApiChainHandlesApiPaths | src/main/java/com/imbilalbutt/springauthdev/Security/SecurityConfig.java:96-100 | every `/api/**` path is handled by the API chain |
| SecurityConfig.UiChainHandlesUiPaths | src/main/java/com/imbilalbutt/springauthdev/Security/SecurityConfig.java:129-133 | every `/ui/**` path, and `/`, `/home`, `/login`, `/register`, is handled by the UI chain |
| SecurityConfig.ApiChainRules | src/main/java/com/imbilalbutt/springauthdev/Security/SecurityConfig.java:102-115 | an API path needs nothing under `/api/v1/auth/**` and needs authentication everywhere else |
| SecurityConfig.ApiAdminRuleShadowed | src/main/java/com/imbilalbutt/springauthdev/Security/SecurityConfig.java:108-112 | under `/api/v1/admin/**` any signed-in principal is granted: the earlier `/api/v1/**` rule shadows the ADMIN rule |
| SecurityConfig.UiChainRules | src/main/java/com/imbilalbutt/springauthdev/Security/SecurityConfig.java:135-140 | a UI path is public under `/ui/auth/**`, needs ADMIN under `/ui/admin/**`, and needs authentication otherwise |
| SecurityConfig.UiAuthIsPublic | src/main/java/com/imbilalbutt/springauthdev/Security/SecurityConfig.java:136 | every `/ui/auth/**` path is granted to anyone, signed in or not |
| SecurityConfig.SessionPagesArePublic | src/main/java/com/imbilalbutt/springauthdev/Security/SecurityConfig.java:136 | the session login, logout, dashboard and profile pages are granted without authentication |
| SecurityConfig.FiltersByChain | src/main/java/com/imbilalbutt/springauthdev/Security/SecurityConfig.java:96-164 | the chain configuration adds the JWT filter exactly for `/api/**` paths, in a stateless chain, and the session filter exactly for UI paths, in a chain that always creates sessions and allows one per principal; no chain adds both |
| SessionFilter.ApiTestIsContains | src/main/java/com/imbilalbutt/springauthdev/Session/Redis/SessionAuthenticationFilter.java:34 | the two-part API test is equivalent to `contains("/api/")` |
| SessionFilter.BareApiIsNotBypassed | src/main/java/com/imbilalbutt/springauthdev/Session/Redis/SessionAuthenticationFilter.java:34 | the path `/api` is not bypassed |
| SessionFilter.UiPathWithApiSegment | src/main/java/com/imbilalbutt/springauthdev/Session/Redis/SessionAuthenticationFilter.java:34 | `/ui/api/x` skips the session filter yet needs authentication in the UI chain |
| SessionFilter.DoFilterInternal | src/main/java/com/imbilalbutt/springauthdev/Session/Redis/SessionAuthenticationFilter.java:28-73 | covers each case: API paths pass untouched; a missing or empty id passes unauthenticated; an unknown id gets the deletion cookie; a user that cannot be loaded raises; a known id authenticates as the loaded user, then refreshes that id, which raises when Redis fails |
| Accounts.UserRepository.ExistsByEmail | src/main/java/com/imbilalbutt/springauthdev/AuthService/WebUserServiceImpl.java:95-97 | a user exists exactly when `findByEmail` finds one |
| Accounts.UserRepository.FindByEmail | src/main/java/com/imbilalbutt/springauthdev/AuthService/WebUserServiceImpl.java:60-61 | a found user has the email asked for and is stored |
| Accounts.UserRepository.Save | src/main/java/com/imbilalbutt/springauthdev/AuthService/WebUserServiceImpl.java:91 | the row for the user's email becomes that user |
| Accounts.UserExists | src/main/java/com/imbilalbutt/springauthdev/AuthService/WebUserServiceImpl.java:95-97 | true exactly when a row for the email exists |
| Accounts.CreateUserAccount | src/main/java/com/imbilalbutt/springauthdev/AuthService/WebUserServiceImpl.java:78-92 | the saved user holds the request's names and email, the encoded password, the requested role or `USER`, and is enabled and unlocked |
| WebUserService.Register | src/main/java/com/imbilalbutt/springauthdev/AuthService/WebUserServiceImpl.java:27-47 | a duplicate email fails with its message and changes nothing; otherwise the account is saved, one session for the email is registered and resolves to it, and the response carries that session id |
| WebUserService.Authenticate | src/main/java/com/imbilalbutt/springauthdev/AuthService/WebUserServiceImpl.java:50-74 | bad credentials or an unknown user fail and change nothing; otherwise one session is registered for the email and returned |
| JwtUserService.Register | src/main/java/com/imbilalbutt/springauthdev/AuthService/UserServiceImpl.java:25-44 | a duplicate email fails with its message and saves nothing; otherwise the account is saved and the response carries the token generated for it |
| JwtUserService.Authenticate | src/main/java/com/imbilalbutt/springauthdev/AuthService/UserServiceImpl.java:47-70 | bad credentials or an unknown user fail; otherwise the response carries the stored user's fields and token |
| WebUIRedisController.LoginFormMessages | src/main/java/com/imbilalbutt/springauthdev/AuthService/WebUIRedisController.java:89-112 | `expired` overrides `error` in the error message; `logout` sets the success message |
| WebUIRedisController.RegisterUser | src/main/java/com/imbilalbutt/springauthdev/AuthService/WebUIRedisController.java:37-85 | binding errors go back to the form; otherwise the account is saved without a duplicate check, a session is registered, its cookie is set, and the user's email, name and role go to `/ui/dashboard` |
| WebUIRedisController.AuthenticateUser | src/main/java/com/imbilalbutt/springauthdev/AuthService/WebUIRedisController.java:114-160 | a failed login gives one generic message and no session; a successful one registers two sessions and puts only the second in the cookie |
| WebUIRedisController.LoginServiceSessionOutlivesLogout | src/main/java/com/imbilalbutt/springauthdev/AuthService/WebUIRedisController.java:130-135 | of the two sessions a login registers, the one never put in a cookie carries no expiry and still resolves to the email after logout invalidates the cookie's session |
| WebUIRedisController.SessionPage | src/main/java/com/imbilalbutt/springauthdev/AuthService/WebUIRedisController.java:164-210 | no cookie goes to login; an unknown id deletes the cookie and goes to `?expired`; a known id shows the page for its username, without a refresh |
| WebUIRedisController.ShowDashboard | src/main/java/com/imbilalbutt/springauthdev/AuthService/WebUIRedisController.java:164-187 | the dashboard shows the resolved username, or redirects as above |
| WebUIRedisController.ShowProfile | src/main/java/com/imbilalbutt/springauthdev/AuthService/WebUIRedisController.java:189-210 | the profile shows the resolved username, or redirects as above |
| WebUIRedisController.Logout | src/main/java/com/imbilalbutt/springauthdev/AuthService/WebUIRedisController.java:214-232 | a carried id is invalidated and the cookie deleted; without one nothing changes; the redirect is always `?logout` unless the store error escapes |
| WebUIRedisController.LoginDashboardLogoutExpired | src/main/java/com/imbilalbutt/springauthdev/AuthService/WebUIRedisController.java:114-232 | with Redis up: login, then the dashboard shows the email; logout; the same cookie then lands on `?expired` |

## Left out

- Concurrency: `SESSIONS` is a static, unsynchronized `HashMap`, and requests run in parallel. The model applies one operation at a time.
- Wall-clock time: the 24-hour TTL is the explicit step `TimeoutElapses`, which expires every key with a TTL at once. Keys with different remaining lifetimes are not modelled.
- `UUID.randomUUID` is a parameter constrained to the canonical 36-character lower-case hex form. Uniqueness of generated UUIDs is not modelled: `SessionIdInjective` only says that distinct UUIDs give distinct ids.
- BCrypt, the `AuthenticationManager`, `UserDetailsService` and `JwtService` are opaque function parameters (`encode`, `credentialsOk`, `loadUser`, `generateToken`). The JWT filter and token format are not part of this model.
- The database: `save` replaces the row with the same email. A unique constraint on the email column, transactions and generated ids are not modelled. Neither are `createdDate` and `dateOfBirth`, which come from the clock.
- SessionStore.SessionRegistry.RefreshSession: one `storeUp` flag covers both the GET and the EXPIRE of a refresh. A Redis failure between the two calls is not modelled. Likewise, each handler sees one availability for all its registry calls.
- Stack traces printed on fallback, servlet request details (`WebAuthenticationDetailsSource`) and the security context's thread-local storage are left out. The filter's result carries the authentication it sets instead.
- WebUIRedisController.RegisterUser: the request's fields are taken as validated and non-null, and the password encoder as total. So the handler's `IllegalArgumentException` branch (error message, back to the register form) is not modelled. Neither is the uncaught `RuntimeException` that a null email would cause in `registerSession`.
- Flash attributes are kept only where a handler sets them. The pages' `pageTitle` model attribute and the re-populated form objects are left out.
- `showRegistrationForm` only selects a view, and `showLoginForm`'s view is always `auth/login`. Only the login form's messages are modelled.
- Spring's form-login filter would intercept POST `/ui/auth/redis/login` before the controller. Because the UI chain disables CSRF, its logout filter would intercept `/ui/auth/redis/logout` for any HTTP method, GET included. Framework internals are not part of this model; the handlers are modelled as if reached.
- The session filter is a `@Component` servlet filter, so Spring Boot would also register it for every request outside the security chains, such as `/css/app.css`. That servlet-level registration is not modelled. `SecurityConfig.FiltersFor` gives only the filters the chain configuration adds, so the filter's effects on paths no chain handles are not captured.
- Ant matching is modelled for the patterns this configuration uses: `/x/**` matches `/x` and everything below `/x/`. Path normalization, trailing-slash variants and HTTP methods are not modelled.
- CSRF settings, `sessionFixation().none()`, the `maximumSessions(1)` enforcement and the UI chain's form-login and logout settings (URLs, success URLs, deleted cookies) are recorded as configuration data only. Their runtime effects are not modelled, and no property is claimed about them.
- `UIController`, `ApiAuthController`, `AuthController`, `SessionController`, the servlet-session variant and the older `SessionFilter` only delegate or are not wired into either chain. They are not part of this model.
