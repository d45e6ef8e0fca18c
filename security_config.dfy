/**
 * `SecurityConfig`: two security filter chains, tried in `@Order` order.
 * A chain handles a request when one of its `securityMatcher` patterns
 * matches the path; inside it, the first `requestMatchers` rule whose
 * pattern matches decides what the request needs.
 */
module SecurityConfig {
  import opened Wrappers
  import opened Text

  // A request-matcher pattern:
  //   Subtree(base)  "base/**", which matches `base` itself and every path below it;
  //   Exact(path)    a pattern without wildcards;
  //   AnyRequest     `anyRequest()`.
  datatype Pattern = Subtree(base: string) | Exact(path: string) | AnyRequest

  predicate Matches(p: Pattern, path: string)
  {
    match p
    case Subtree(base) => path == base || StartsWith(path, base + "/")
    case Exact(x) => path == x
    case AnyRequest => true
  }

  predicate MatchesAny(ps: seq<Pattern>, path: string)
  {
    exists i | 0 <= i < |ps| :: Matches(ps[i], path)
  }

  /** `permitAll()`, `authenticated()`, `hasRole(role)` */
  datatype Requirement = PermitAll | Authenticated | HasRole(role: string)

  datatype Rule = Rule(patterns: seq<Pattern>, requirement: Requirement)

  datatype SessionPolicy = Stateless | Always

  /** The authentication filter a chain adds before the username/password filter. */
  datatype AuthFilter = JwtFilter | SessionCookieFilter

  datatype FormLogin = FormLogin(loginPage: string, processingUrl: string, defaultSuccessUrl: string, failureUrl: string)

  datatype Logout = Logout(url: string, successUrl: string, deleteCookies: seq<string>, invalidateHttpSession: bool)

  datatype Chain = Chain(
    order: nat,
    matchers: seq<Pattern>,
    rules: seq<Rule>,
    sessions: SessionPolicy,
    maximumSessions: Option<nat>,
    filters: seq<AuthFilter>,
    formLogin: Option<FormLogin>,
    logout: Option<Logout>)

  const StaticAssets: seq<Pattern> := [Subtree("/css"), Subtree("/js"), Subtree("/images")]

  /** `apiSecurityFilterChain` */
  function ApiChain(): Chain
  {
    Chain(1, [Subtree("/api")],
      [ Rule([Subtree("/api/v1/auth")], PermitAll),
        Rule(StaticAssets, PermitAll),
        Rule([Subtree("/api/v1")], Authenticated),
        Rule([Subtree("/admin")], HasRole("ADMIN")),
        Rule([Subtree("/api/v1/admin")], HasRole("ADMIN")),
        Rule([AnyRequest], Authenticated) ],
      Stateless, None, [JwtFilter], None, None)
  }

  /** `uiSecurityFilterChain` */
  function UiChain(): Chain
  {
    Chain(2, [Subtree("/ui"), Exact("/"), Exact("/home"), Exact("/login"), Exact("/register")],
      [ Rule([Subtree("/ui/auth")], PermitAll),
        Rule(StaticAssets, PermitAll),
        Rule([Subtree("/ui/admin")], HasRole("ADMIN")),
        Rule([AnyRequest], Authenticated) ],
      Always, Some(1), [SessionCookieFilter],
      Some(FormLogin("/ui/auth/redis/login", "/ui/auth/redis/login", "/ui/auth/redis/dashboard", "/ui/auth/redis/login?error=true")),
      Some(Logout("/ui/auth/redis/logout", "/ui/auth/redis/login?logout=true", ["SESSION_ID", "JSESSIONID"], true)))
  }

  /** The chains, lowest `@Order` first. */
  function Chains(): seq<Chain>
  {
    [ApiChain(), UiChain()]
  }

  /** The first chain, from index `k` on, whose matcher accepts `path`. */
  function SelectFrom(chains: seq<Chain>, path: string, k: nat): (r: Option<nat>)
    requires k <= |chains|
    ensures r.Some? ==> k <= r.value < |chains| && MatchesAny(chains[r.value].matchers, path)
    ensures r.Some? ==> forall j | k <= j < r.value :: !MatchesAny(chains[j].matchers, path)
    ensures r.None? ==> forall j | k <= j < |chains| :: !MatchesAny(chains[j].matchers, path)
    decreases |chains| - k
  {
    if k == |chains| then None
    else if MatchesAny(chains[k].matchers, path) then Some(k)
    else SelectFrom(chains, path, k + 1)
  }

  /** The chain that handles `path`, if any. */
  function SelectChain(path: string): Option<Chain>
  {
    match SelectFrom(Chains(), path, 0)
    case None => None
    case Some(k) => Some(Chains()[k])
  }

  /** The index of the first rule, from index `k` on, that matches `path`. */
  function FirstMatchFrom(rules: seq<Rule>, path: string, k: nat): (r: Option<nat>)
    requires k <= |rules|
    ensures r.Some? ==> k <= r.value < |rules| && MatchesAny(rules[r.value].patterns, path)
    ensures r.Some? ==> forall j | k <= j < r.value :: !MatchesAny(rules[j].patterns, path)
    ensures r.None? ==> forall j | k <= j < |rules| :: !MatchesAny(rules[j].patterns, path)
    decreases |rules| - k
  {
    if k == |rules| then None
    else if MatchesAny(rules[k].patterns, path) then Some(k)
    else FirstMatchFrom(rules, path, k + 1)
  }

  function FirstMatch(rules: seq<Rule>, path: string): Option<nat>
  {
    FirstMatchFrom(rules, path, 0)
  }

  /** What `chain` demands of a request for `path`: the first matching rule's requirement. */
  function RequirementIn(chain: Chain, path: string): Option<Requirement>
  {
    match FirstMatch(chain.rules, path)
    case None => None
    case Some(k) => Some(chain.rules[k].requirement)
  }

  /** The authenticated principal, with its granted authorities. */
  datatype Principal = Principal(name: string, authorities: set<string>)

  /** Whether the principal (None: anonymous) meets the requirement; `hasRole(r)` checks authority `ROLE_r`. */
  predicate Meets(who: Option<Principal>, req: Requirement)
  {
    match req
    case PermitAll => true
    case Authenticated => who.Some?
    case HasRole(role) => who.Some? && "ROLE_" + role in who.value.authorities
  }

  datatype Decision = Unsecured | Granted | Denied

  /** The whole decision for one request: pick the chain, then the rule. */
  function Access(path: string, who: Option<Principal>): Decision
  {
    match SelectChain(path)
    case None => Unsecured
    case Some(chain) =>
      match RequirementIn(chain, path)
      case None => Denied
      case Some(req) => if Meets(who, req) then Granted else Denied
  }

  /**
   * The authentication filters the chain configuration adds for `path`:
   * those of the chain that handles it, none when no chain does.
   */
  function FiltersFor(path: string): seq<AuthFilter>
  {
    match SelectChain(path)
    case None => []
    case Some(chain) => chain.filters
  }

  // ---------------------------------------------------------------------
  // Matching facts

  lemma MatchesSingle(p: Pattern, path: string)
    ensures MatchesAny([p], path) <==> Matches(p, path)
  {
    if Matches(p, path) {
      assert Matches([p][0], path);
    }
  }

  // A path under `base/**` agrees with `base` on its characters.
  lemma SubtreeAgrees(base: string, path: string, i: int)
    requires Matches(Subtree(base), path) && 0 <= i < |base|
    ensures i < |path| && path[i] == base[i]
  {
    if path != base {
      StartsWithAt(path, base + "/", i);
    }
  }

  /** Two subtrees whose bases differ at some common index share no path. */
  lemma SubtreesDisjoint(a: string, b: string, i: int, path: string)
    requires 0 <= i < |a| && i < |b| && a[i] != b[i]
    ensures !(Matches(Subtree(a), path) && Matches(Subtree(b), path))
  {
    if Matches(Subtree(a), path) && Matches(Subtree(b), path) {
      SubtreeAgrees(a, path, i);
      SubtreeAgrees(b, path, i);
    }
  }

  // A subtree below `a/` lies inside `a/**`.
  lemma SubtreeNested(a: string, b: string, path: string)
    requires StartsWith(b, a + "/")
    requires Matches(Subtree(b), path)
    ensures Matches(Subtree(a), path)
  {
    if path != b {
      StartsWithPrefix(path, b, "/");
      StartsWithTransitive(path, b, a + "/");
    }
  }

  predicate IsApiPath(path: string)
  {
    Matches(Subtree("/api"), path)
  }

  predicate IsUiPath(path: string)
  {
    MatchesAny(UiChain().matchers, path)
  }

  /** No path is accepted by both chains' matchers. */
  lemma MatchersDisjoint(path: string)
    ensures !(IsApiPath(path) && IsUiPath(path))
  {
    SubtreesDisjoint("/api", "/ui", 1, path);
    if IsApiPath(path) {
      SubtreeAgrees("/api", path, 3);
    }
  }

  // Paths under `/api/**` never reach the static-asset or `/admin/**` patterns.
  lemma ApiPathsMissForeignRules(path: string)
    requires IsApiPath(path)
    ensures !MatchesAny(StaticAssets, path)
    ensures !Matches(Subtree("/admin"), path)
  {
    SubtreesDisjoint("/api", "/css", 1, path);
    SubtreesDisjoint("/api", "/js", 1, path);
    SubtreesDisjoint("/api", "/images", 1, path);
    SubtreesDisjoint("/api", "/admin", 2, path);
  }

  /** Paths the UI chain handles never reach the static-asset patterns. */
  lemma UiPathsMissStaticAssets(path: string)
    requires IsUiPath(path)
    ensures !MatchesAny(StaticAssets, path)
  {
    if Matches(Subtree("/ui"), path) {
      SubtreesDisjoint("/ui", "/css", 1, path);
      SubtreesDisjoint("/ui", "/js", 1, path);
      SubtreesDisjoint("/ui", "/images", 1, path);
    } else {
      forall i | 0 <= i < |StaticAssets| ensures !Matches(StaticAssets[i], path) {
        if Matches(StaticAssets[i], path) {
          SubtreeAgrees(StaticAssets[i].base, path, 1);
          SubtreeAgrees(StaticAssets[i].base, path, 2);
        }
      }
    }
  }

  // ---------------------------------------------------------------------
  // Chain dispatch

  // `@Order(1)` wins: every `/api/**` path goes to the API chain.
  lemma {:induction false} ApiChainHandlesApiPaths(path: string)
    ensures SelectChain(path) == Some(ApiChain()) <==> IsApiPath(path)
  {
    assert MatchesAny(ApiChain().matchers, path) <==> IsApiPath(path) by {
      if IsApiPath(path) {
        assert Matches(ApiChain().matchers[0], path);
      }
    }
    MatchersDisjoint(path);
  }

  /** The UI chain handles exactly the paths its matcher accepts; a path neither accepts gets no chain. */
  lemma {:induction false} UiChainHandlesUiPaths(path: string)
    ensures SelectChain(path) == Some(UiChain()) <==> IsUiPath(path)
    ensures SelectChain(path) == None <==> !IsApiPath(path) && !IsUiPath(path)
  {
    assert MatchesAny(ApiChain().matchers, path) <==> IsApiPath(path) by {
      if IsApiPath(path) {
        assert Matches(ApiChain().matchers[0], path);
      }
    }
    MatchersDisjoint(path);
    assert ApiChain() != UiChain();
  }

  // ---------------------------------------------------------------------
  // Rule tables

  // In the API chain `/api/v1/auth/**` is public and every other path
  // needs authentication: the `/api/v1/**` rule shadows the ADMIN rule for
  // `/api/v1/admin/**`, and the static-asset and `/admin/**` rules never fire.
  lemma {:induction false} ApiChainRules(path: string)
    requires IsApiPath(path)
    ensures FirstMatch(ApiChain().rules, path) in {Some(0), Some(2), Some(5)}
    ensures RequirementIn(ApiChain(), path) ==
      Some(if Matches(Subtree("/api/v1/auth"), path) then PermitAll else Authenticated)
  {
    var rules := ApiChain().rules;
    ApiPathsMissForeignRules(path);
    assert !MatchesAny(rules[1].patterns, path);
    assert !MatchesAny(rules[3].patterns, path) by {
      assert rules[3].patterns == [Subtree("/admin")];
    }
    if Matches(Subtree("/api/v1/admin"), path) {
      SubtreeNested("/api/v1", "/api/v1/admin", path);
      assert MatchesAny(rules[2].patterns, path) by {
        assert Matches(rules[2].patterns[0], path);
      }
    }
    assert MatchesAny(rules[4].patterns, path) ==> MatchesAny(rules[2].patterns, path) by {
      if MatchesAny(rules[4].patterns, path) {
        assert rules[4].patterns == [Subtree("/api/v1/admin")];
      }
    }
    assert MatchesAny(rules[5].patterns, path) by {
      assert Matches(rules[5].patterns[0], path);
    }
    MatchesSingle(Subtree("/api/v1/auth"), path);
  }

  // Under `/api/v1/admin/**` the earlier `/api/v1/**` rule decides first: any
  // signed-in principal is granted, whatever its roles, and the ADMIN rule
  // never decides; an anonymous request is denied.
  lemma ApiAdminRuleShadowed(path: string, who: Option<Principal>)
    requires Matches(Subtree("/api/v1/admin"), path)
    ensures Access(path, who) == (if who.Some? then Granted else Denied)
  {
    SubtreeNested("/api", "/api/v1/admin", path);
    SubtreesDisjoint("/api/v1/admin", "/api/v1/auth", 9, path);
    ApiChainHandlesApiPaths(path);
    ApiChainRules(path);
  }

  // In the UI chain `/ui/auth/**` is public, `/ui/admin/**` needs ADMIN and
  // everything else needs authentication; the static-asset rule never fires.
  lemma {:induction false} UiChainRules(path: string)
    requires IsUiPath(path)
    ensures FirstMatch(UiChain().rules, path) != Some(1)
    ensures RequirementIn(UiChain(), path) ==
      Some(if Matches(Subtree("/ui/auth"), path) then PermitAll
           else if Matches(Subtree("/ui/admin"), path) then HasRole("ADMIN")
           else Authenticated)
  {
    var rules := UiChain().rules;
    UiPathsMissStaticAssets(path);
    assert !MatchesAny(rules[1].patterns, path);
    MatchesSingle(Subtree("/ui/auth"), path);
    MatchesSingle(Subtree("/ui/admin"), path);
    assert MatchesAny(rules[3].patterns, path) by {
      assert Matches(rules[3].patterns[0], path);
    }
  }

  /** Everything under `/ui/auth/` is granted to anyone, signed in or not. */
  lemma UiAuthIsPublic(path: string, who: Option<Principal>)
    requires Matches(Subtree("/ui/auth"), path)
    ensures Access(path, who) == Granted
  {
    SubtreeNested("/ui", "/ui/auth", path);
    assert Matches(UiChain().matchers[0], path);
    UiChainHandlesUiPaths(path);
    UiChainRules(path);
  }

  /** So the Redis-session pages reach their controller without any chain-level check. */
  lemma SessionPagesArePublic(who: Option<Principal>)
    ensures Access("/ui/auth/redis/dashboard", who) == Granted
    ensures Access("/ui/auth/redis/profile", who) == Granted
    ensures Access("/ui/auth/redis/login", who) == Granted
    ensures Access("/ui/auth/redis/logout", who) == Granted
  {
    assert StartsWith("/ui/auth/redis/dashboard", "/ui/auth" + "/");
    UiAuthIsPublic("/ui/auth/redis/dashboard", who);
    assert StartsWith("/ui/auth/redis/profile", "/ui/auth" + "/");
    UiAuthIsPublic("/ui/auth/redis/profile", who);
    assert StartsWith("/ui/auth/redis/login", "/ui/auth" + "/");
    UiAuthIsPublic("/ui/auth/redis/login", who);
    assert StartsWith("/ui/auth/redis/logout", "/ui/auth" + "/");
    UiAuthIsPublic("/ui/auth/redis/logout", who);
  }

  // ---------------------------------------------------------------------
  // Per-chain session handling

  // The chain configuration adds the JWT filter exactly for `/api/**` paths,
  // in a stateless chain, and the session-cookie filter exactly for UI
  // paths, in a chain that always creates sessions and allows one per
  // principal. No chain adds both.
  lemma {:induction false} FiltersByChain(path: string)
    ensures JwtFilter in FiltersFor(path) <==> IsApiPath(path)
    ensures SessionCookieFilter in FiltersFor(path) <==> IsUiPath(path)
    ensures !(JwtFilter in FiltersFor(path) && SessionCookieFilter in FiltersFor(path))
    ensures IsApiPath(path) ==> SelectChain(path).value.sessions == Stateless
    ensures IsUiPath(path) ==> SelectChain(path).value.sessions == Always && SelectChain(path).value.maximumSessions == Some(1)
  {
    ApiChainHandlesApiPaths(path);
    UiChainHandlesUiPaths(path);
  }
}
