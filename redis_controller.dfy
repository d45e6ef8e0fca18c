/**
 * `WebUIRedisController`: the browser pages under `/ui/auth/redis`. Each
 * handler reduces to the redirect or view it returns, the cookies it adds,
 * the messages and user fields it hands to the next page, and the registry
 * calls it makes.
 */
module WebUIRedisController {
  import opened Wrappers
  import opened Cookies
  import opened Accounts
  import Base64
  import opened SessionStore
  import WebUserService

  /** What a handler produces; `raised` is an exception the handler lets escape. */
  datatype Page = Page(
    view: string,
    cookiesAdded: seq<SetCookie>,
    errorMessage: Option<string>,
    successMessage: Option<string>,
    userEmail: Option<string>,
    userName: Option<string>,
    userRole: Option<Role>,
    raised: Option<RegistryError>)

  function Redirect(target: string): Page
  {
    Page("redirect:" + target, [], None, None, None, None, None, None)
  }

  const LoginPage := "/ui/auth/redis/login"
  const InvalidCredentialsMessage := "Invalid email or password!"
  const SessionExpiredMessage := "Session expired. Please login again."
  const LoggedOutMessage := "You have been logged out successfully."

  /**
   * `showLoginForm`: the messages for the `error`, `logout` and `expired`
   * parameters (true when present), assigned in the handler's order: the
   * error message, then the expired message over it, then the success
   * message.
   */
  function LoginFormMessages(error: bool, logout: bool, expired: bool): (messages: (Option<string>, Option<string>))
    ensures messages.0.Some? <==> error || expired
    ensures expired ==> messages.0 == Some(SessionExpiredMessage)
    ensures error && !expired ==> messages.0 == Some(InvalidCredentialsMessage)
    ensures messages.1 == (if logout then Some(LoggedOutMessage) else None)
  {
    var afterError: Option<string> := if error then Some(InvalidCredentialsMessage) else None;
    var afterExpired := if expired then Some(SessionExpiredMessage) else afterError;
    (afterExpired, if logout then Some(LoggedOutMessage) else None)
  }

  /**
   * `registerUser`. With no binding errors: `createUserAccount` (no
   * duplicate check), a session for the saved email, the session cookie,
   * and a redirect to `/ui/dashboard`. The request's fields are taken as
   * validated and non-null, and the encoder as total, so the handler's
   * `IllegalArgumentException` branch has no counterpart here.
   */
  method RegisterUser(repository: UserRepository, registry: SessionRegistry, request: RegisterRequest,
                      bindingErrors: bool, encode: string -> string, uuid: string, storeUp: bool)
    returns (page: Page)
    requires repository.Valid() && registry.Valid()
    requires Base64.IsUuidText(uuid)
    modifies repository, registry
    ensures repository.Valid() && registry.Valid()
    ensures bindingErrors ==>
      page == Redirect("/ui/auth/redis/register") &&
      repository.users == old(repository.users) && registry.State() == old(registry.State())
    ensures !bindingErrors ==>
      var user := NewAccount(request, encode);
      var id := Base64.SessionIdOf(uuid);
      && repository.users == old(repository.users)[request.email := user]
      && registry.State() == AfterRegister(old(registry.State()), id, request.email, storeUp)
      && page.view == "redirect:/ui/dashboard"
      && page.cookiesAdded == [SessionCookie(id)]
      && page.successMessage == Some("Registration successful! Welcome " + user.firstname)
      && page.userEmail == Some(request.email)
      && page.userName == Some(request.firstname + " " + request.lastname)
      && page.userRole == Some(user.role)
      && page.raised == None
  {
    if bindingErrors {
      return Redirect("/ui/auth/redis/register");
    }
    var user := CreateUserAccount(repository, request, encode);
    var sessionId := registry.RegisterSession(Some(user.email), uuid, storeUp);
    return Page("redirect:/ui/dashboard", [SessionCookie(sessionId.value)], None,
                Some("Registration successful! Welcome " + user.firstname), Some(user.email),
                Some(user.firstname + " " + user.lastname), Some(user.role), None);
  }

  /**
   * `authenticateUser`. A successful login registers two sessions for the
   * email: one inside `WebUserService.Authenticate` (from `serviceUuid`),
   * one here (from `cookieUuid`); only the second goes into the cookie.
   * Any failure gives the one generic message, a redirect to `?error`, no
   * cookie and no session.
   */
  method AuthenticateUser(repository: UserRepository, registry: SessionRegistry, request: AuthenticationRequest,
                          bindingErrors: bool, credentialsOk: (string, string) -> bool,
                          serviceUuid: string, cookieUuid: string, storeUp: bool)
    returns (page: Page)
    requires repository.Valid() && registry.Valid()
    requires Base64.IsUuidText(serviceUuid) && Base64.IsUuidText(cookieUuid)
    modifies registry
    ensures registry.Valid()
    ensures bindingErrors ==> page == Redirect(LoginPage) && registry.State() == old(registry.State())
    ensures !bindingErrors && !(credentialsOk(request.email, request.password) && request.email in repository.users) ==>
      && page == Page("redirect:/ui/auth/redis/login?error", [], Some(InvalidCredentialsMessage), None, None, None, None, None)
      && registry.State() == old(registry.State())
    ensures !bindingErrors && credentialsOk(request.email, request.password) && request.email in repository.users ==>
      var user := repository.users[request.email];
      var first := Base64.SessionIdOf(serviceUuid);
      var second := Base64.SessionIdOf(cookieUuid);
      && registry.State() == AfterRegister(AfterRegister(old(registry.State()), first, user.email, storeUp), second, user.email, storeUp)
      && page.view == "redirect:/ui/auth/redis/dashboard"
      && page.cookiesAdded == [SessionCookie(second)]
      && page.successMessage == Some("Welcome back, " + user.firstname + "!")
      && page.userEmail == Some(user.email)
      && page.userName == Some(user.firstname + " " + user.lastname)
      && page.userRole == Some(user.role)
      && page.raised == None
  {
    if bindingErrors {
      return Redirect(LoginPage);
    }
    var response := WebUserService.Authenticate(repository, registry, request, credentialsOk, serviceUuid, storeUp);
    if response.Failure? {
      return Page("redirect:/ui/auth/redis/login?error", [], Some(InvalidCredentialsMessage), None, None, None, None, None);
    }
    var auth := response.value;
    var sessionId := registry.RegisterSession(Some(auth.email), cookieUuid, storeUp);
    return Page("redirect:/ui/auth/redis/dashboard", [SessionCookie(sessionId.value)], None,
                Some("Welcome back, " + auth.firstname + "!"), Some(auth.email),
                Some(auth.firstname + " " + auth.lastname), Some(auth.role), None);
  }

  /**
   * The shared body of `showDashboard` and `showProfile`: no cookie sends
   * the browser to the login page; an id the registry does not know
   * deletes the cookie and sends it to `?expired`; a known id shows the
   * page for the resolved username. The session is read, never refreshed.
   */
  method SessionPage(registry: SessionRegistry, cookies: Option<seq<RequestCookie>>, storeUp: bool, view: string)
    returns (page: Page)
    ensures CarriedSessionId(cookies).None? ==> page == Redirect(LoginPage)
    ensures CarriedSessionId(cookies).Some? && Resolve(registry.State(), CarriedSessionId(cookies).value, storeUp).None? ==>
      page == Page("redirect:/ui/auth/redis/login?expired", [DeletionCookie()], None, None, None, None, None, None)
    ensures CarriedSessionId(cookies).Some? && Resolve(registry.State(), CarriedSessionId(cookies).value, storeUp).Some? ==>
      page == Page(view, [], None, None, Resolve(registry.State(), CarriedSessionId(cookies).value, storeUp), None, None, None)
  {
    var sessionId := SessionIdFromCookies(cookies);
    if sessionId.None? {
      return Redirect(LoginPage);
    }
    var username := registry.GetUsernameForSession(sessionId.value, storeUp);
    if username.None? {
      return Page("redirect:/ui/auth/redis/login?expired", [DeletionCookie()], None, None, None, None, None, None);
    }
    return Page(view, [], None, None, username, None, None, None);
  }

  /** `showDashboard` */
  method ShowDashboard(registry: SessionRegistry, cookies: Option<seq<RequestCookie>>, storeUp: bool) returns (page: Page)
    ensures CarriedSessionId(cookies).None? ==> page == Redirect(LoginPage)
    ensures CarriedSessionId(cookies).Some? ==>
      var username := Resolve(registry.State(), CarriedSessionId(cookies).value, storeUp);
      page == if username.None? then Page("redirect:/ui/auth/redis/login?expired", [DeletionCookie()], None, None, None, None, None, None)
              else Page("dashboard/index", [], None, None, username, None, None, None)
  {
    page := SessionPage(registry, cookies, storeUp, "dashboard/index");
  }

  /** `showProfile` */
  method ShowProfile(registry: SessionRegistry, cookies: Option<seq<RequestCookie>>, storeUp: bool) returns (page: Page)
    ensures CarriedSessionId(cookies).None? ==> page == Redirect(LoginPage)
    ensures CarriedSessionId(cookies).Some? ==>
      var username := Resolve(registry.State(), CarriedSessionId(cookies).value, storeUp);
      page == if username.None? then Page("redirect:/ui/auth/redis/login?expired", [DeletionCookie()], None, None, None, None, None, None)
              else Page("dashboard/profile", [], None, None, username, None, None, None)
  {
    page := SessionPage(registry, cookies, storeUp, "dashboard/profile");
  }

  /**
   * `logout`: with a cookie, invalidate that id and then add the deletion
   * cookie; without one, neither. Always a redirect to `?logout`, unless
   * the Redis failure of the invalidation escapes.
   */
  method Logout(registry: SessionRegistry, cookies: Option<seq<RequestCookie>>, storeUp: bool) returns (page: Page)
    requires registry.Valid()
    modifies registry
    ensures registry.Valid()
    ensures CarriedSessionId(cookies).None? ==>
      page == Page("redirect:/ui/auth/redis/login?logout", [], None, Some(LoggedOutMessage), None, None, None, None) &&
      registry.State() == old(registry.State())
    ensures CarriedSessionId(cookies).Some? ==>
      var id := CarriedSessionId(cookies);
      && registry.State() == AfterInvalidate(old(registry.State()), id, storeUp)
      && page == if UncaughtOutcome(id, storeUp).Raised? then Page("", [], None, None, None, None, None, Some(StoreUnavailable))
                 else Page("redirect:/ui/auth/redis/login?logout", [DeletionCookie()], None, Some(LoggedOutMessage), None, None, None, None)
  {
    var sessionId := SessionIdFromCookies(cookies);
    var added: seq<SetCookie> := [];
    if sessionId.Some? {
      var invalidated := registry.InvalidateSession(sessionId, storeUp);
      if invalidated.Raised? {
        return Page("", [], None, None, None, None, None, Some(invalidated.error));
      }
      added := [DeletionCookie()];
    }
    return Page("redirect:/ui/auth/redis/login?logout", added, None, Some(LoggedOutMessage), None, None, None, None);
  }

  /**
   * A successful login registers two sessions, and only the second reaches
   * the cookie. The first is never refreshed, so it carries no expiry, and
   * logging out with the cookie leaves it in Redis, still resolving to the
   * email.
   */
  lemma LoginServiceSessionOutlivesLogout(st: Stores, first: string, second: string, email: string)
    requires first != second && second != ""
    ensures var loggedIn := AfterRegister(AfterRegister(st, first, email, true), second, email, true);
      var loggedOut := AfterInvalidate(loggedIn, Some(second), true);
      && Resolve(loggedOut, first, true) == Some(email)
      && first !in loggedOut.expiring
      && Resolve(loggedOut, second, true) == None
  {
  }

  // ---------------------------------------------------------------------
  // The page flow end to end

  /** A request carrying exactly the cookie a login or registration set. */
  function CookieFromResponse(c: SetCookie): seq<RequestCookie>
  {
    [RequestCookie(c.name, c.value)]
  }

  /**
   * Log in, open the dashboard with the cookie just issued, log out, and
   * open the dashboard again with the same cookie, all while Redis
   * answers: the first visit shows the user's email, the second is sent
   * to `?expired` and loses its cookie.
   */
  method LoginDashboardLogoutExpired(repository: UserRepository, registry: SessionRegistry,
                                     request: AuthenticationRequest, credentialsOk: (string, string) -> bool,
                                     serviceUuid: string, cookieUuid: string)
    returns (login: Page, visit: Page, logout: Page, revisit: Page)
    requires repository.Valid() && registry.Valid()
    requires Base64.IsUuidText(serviceUuid) && Base64.IsUuidText(cookieUuid)
    requires credentialsOk(request.email, request.password) && request.email in repository.users
    modifies registry
    ensures registry.Valid()
    ensures login.view == "redirect:/ui/auth/redis/dashboard"
    ensures visit.view == "dashboard/index" && visit.userEmail == Some(repository.users[request.email].email)
    ensures logout.view == "redirect:/ui/auth/redis/login?logout" && logout.cookiesAdded == [DeletionCookie()]
    ensures revisit == Page("redirect:/ui/auth/redis/login?expired", [DeletionCookie()], None, None, None, None, None, None)
  {
    ghost var st0 := registry.State();
    login := AuthenticateUser(repository, registry, request, false, credentialsOk, serviceUuid, cookieUuid, true);
    var cookies := Some(CookieFromResponse(login.cookiesAdded[0]));
    ghost var id := Base64.SessionIdOf(cookieUuid);
    assert CarriedSessionId(cookies) == Some(id);
    ResolveAfterRegister(AfterRegister(st0, Base64.SessionIdOf(serviceUuid), request.email, true), id, request.email, true);
    visit := ShowDashboard(registry, cookies, true);
    assert id != "" by {
      assert |id| == 48;
    }
    ghost var st1 := registry.State();
    logout := Logout(registry, cookies, true);
    ResolveAfterInvalidate(st1, id);
    revisit := ShowDashboard(registry, cookies, true);
  }
}
