/**
 * `SessionAuthenticationFilter`: once per request, turn a `SESSION_ID`
 * cookie into an authenticated principal. It never rejects a request;
 * refusing access is left to the rule tables of `SecurityConfig`.
 */
module SessionFilter {
  import opened Wrappers
  import opened Text
  import opened Cookies
  import opened SessionStore
  import SecurityConfig

  /** What `loadUserByUsername` returns: the user and its granted authorities. */
  datatype UserDetails = UserDetails(username: string, authorities: set<string>)

  /** The token put in the security context: principal, credentials (always null here), authorities. */
  datatype Authentication = Authentication(principal: UserDetails, credentials: Option<string>, authorities: set<string>)

  /** What escapes the filter: the user loader's `UsernameNotFoundException`, or a registry failure. */
  datatype FilterError = UserNotLoaded(username: string) | RegistryFailed(error: RegistryError)

  /**
   * One pass of the filter: whether the `/api/` test sent the request
   * straight on, the cookies added to the response, the authentication set
   * in the security context, the id handed to `refreshSession`, how many
   * times `chain.doFilter` was called, and what escaped.
   */
  datatype FilterOutcome = FilterOutcome(
    bypassed: bool,
    cookiesAdded: seq<SetCookie>,
    authentication: Option<Authentication>,
    refreshed: Option<string>,
    forwards: nat,
    raised: Option<FilterError>)

  /** Passed on untouched: nothing written, nothing authenticated, forwarded once. */
  function PassedOn(bypassed: bool): FilterOutcome
  {
    FilterOutcome(bypassed, [], None, None, 1, None)
  }

  /** `uri.startsWith("/api/") || uri.contains("/api/")` */
  predicate IsApiRequest(uri: string)
  {
    StartsWith(uri, "/api/") || Contains(uri, "/api/")
  }

  /** The `startsWith` half adds nothing: the test is just `contains("/api/")`. */
  lemma ApiTestIsContains(uri: string)
    ensures IsApiRequest(uri) <==> Contains(uri, "/api/")
  {
    if StartsWith(uri, "/api/") {
      StartsWithImpliesContains(uri, "/api/");
    }
  }

  /** `/api` without the trailing slash is not bypassed. */
  lemma BareApiIsNotBypassed()
    ensures !IsApiRequest("/api")
  {
  }

  /**
   * A UI path with an `/api/` segment is handled by the UI chain, which
   * denies it to an unauthenticated request, yet this filter bypasses it
   * and so never authenticates the request from its session cookie.
   */
  lemma UiPathWithApiSegment()
    ensures IsApiRequest("/ui/api/x")
    ensures SecurityConfig.SelectChain("/ui/api/x") == Some(SecurityConfig.UiChain())
    ensures SecurityConfig.Access("/ui/api/x", None) == SecurityConfig.Denied
  {
    var uri := "/ui/api/x";
    assert OccursAt(uri, "/api/", 3);
    assert SecurityConfig.Matches(SecurityConfig.UiChain().matchers[0], uri) by {
      assert StartsWith(uri, "/ui" + "/");
    }
    SecurityConfig.UiChainHandlesUiPaths(uri);
    SecurityConfig.UiChainRules(uri);
    if SecurityConfig.Matches(SecurityConfig.Subtree("/ui/auth"), uri) {
      SecurityConfig.SubtreeAgrees("/ui/auth", uri, 5);
    }
    if SecurityConfig.Matches(SecurityConfig.Subtree("/ui/admin"), uri) {
      SecurityConfig.SubtreeAgrees("/ui/admin", uri, 5);
    }
  }

  /**
   * `doFilterInternal`. `storeUp` says whether Redis answers during this
   * request; `loadUser` is `userDetailsService.loadUserByUsername`, None
   * when it throws.
   */
  method DoFilterInternal(registry: SessionRegistry, uri: string, cookies: Option<seq<RequestCookie>>,
                          storeUp: bool, loadUser: string -> Option<UserDetails>) returns (out: FilterOutcome)
    requires registry.Valid()
    modifies registry
    ensures registry.Valid()
    // API requests: forwarded untouched, no cookie or registry read
    ensures IsApiRequest(uri) ==> out == PassedOn(true) && registry.State() == old(registry.State())
    // no usable cookie: forwarded untouched, no registry call
    ensures !IsApiRequest(uri) && NullOrEmpty(CarriedSessionId(cookies)) ==>
      out == PassedOn(false) && registry.State() == old(registry.State())
    // unknown id: one deletion cookie, forwarded unauthenticated, no refresh
    ensures !IsApiRequest(uri) && !NullOrEmpty(CarriedSessionId(cookies)) ==>
      var username := Resolve(old(registry.State()), CarriedSessionId(cookies).value, storeUp);
      username.None? ==>
        out == FilterOutcome(false, [DeletionCookie()], None, None, 1, None) && registry.State() == old(registry.State())
    // known id whose user cannot be loaded: the loader's exception escapes before anything is set
    ensures !IsApiRequest(uri) && !NullOrEmpty(CarriedSessionId(cookies)) ==>
      var username := Resolve(old(registry.State()), CarriedSessionId(cookies).value, storeUp);
      username.Some? && loadUser(username.value).None? ==>
        out == FilterOutcome(false, [], None, None, 0, Some(UserNotLoaded(username.value))) && registry.State() == old(registry.State())
    // known id: authenticated as the loaded user, then that same id is refreshed
    ensures !IsApiRequest(uri) && !NullOrEmpty(CarriedSessionId(cookies)) ==>
      var id := CarriedSessionId(cookies);
      var username := Resolve(old(registry.State()), id.value, storeUp);
      username.Some? && loadUser(username.value).Some? ==>
        var details := loadUser(username.value).value;
        && out.authentication == Some(Authentication(details, None, details.authorities))
        && out.refreshed == id && !out.bypassed && out.cookiesAdded == []
        && registry.State() == AfterRefresh(old(registry.State()), id, storeUp)
        && (if storeUp then out.forwards == 1 && out.raised == None
            else out.forwards == 0 && out.raised == Some(RegistryFailed(StoreUnavailable)))
  {
    if IsApiRequest(uri) {
      return PassedOn(true);
    }
    var sessionId := SessionIdFromCookies(cookies);
    if NullOrEmpty(sessionId) {
      return PassedOn(false);
    }
    var username := registry.GetUsernameForSession(sessionId.value, storeUp);
    if username.None? {
      return FilterOutcome(false, [DeletionCookie()], None, None, 1, None);
    }
    var details := loadUser(username.value);
    if details.None? {
      return FilterOutcome(false, [], None, None, 0, Some(UserNotLoaded(username.value)));
    }
    var auth := Authentication(details.value, None, details.value.authorities);
    var refreshed := registry.RefreshSession(sessionId, storeUp);
    if refreshed.Raised? {
      return FilterOutcome(false, [], Some(auth), sessionId, 0, Some(RegistryFailed(refreshed.error)));
    }
    return FilterOutcome(false, [], Some(auth), sessionId, 1, None);
  }
}
