/**
 * `SessionRegistry`: session id -> username, kept in Redis (the durable
 * store) and, while Redis is unreachable, in the process-wide `SESSIONS`
 * map (the fallback store).
 *
 * Every Redis call takes a `storeUp` flag: true when the call succeeds,
 * false when it throws. Registration and lookup catch the failure and use
 * the fallback map; invalidation and refresh let it escape and never touch
 * the fallback map.
 */
module SessionStore {
  import opened Wrappers
  import Base64

  /** What the registry throws: a null username, or an uncaught Redis failure. */
  datatype RegistryError = UsernameMissing | StoreUnavailable

  /**
   * A snapshot of both stores: the Redis keyspace, the Redis keys that
   * carry the 24-hour expiry of `SESSION_TIMEOUT_HOURS`, and the `SESSIONS` map.
   */
  datatype Stores = Stores(durable: map<string, string>, expiring: set<string>, fallback: map<string, string>)

  /**
   * Redis keeps an expiry only on a key it holds. This is a sanity
   * invariant of the model: every operation keeps it, and it makes the
   * expiry set describe real keys; no registry behaviour depends on it.
   */
  predicate WellFormed(st: Stores)
  {
    st.expiring <= st.durable.Keys
  }

  /** `map.get(key)`, with null for a missing key. */
  function Lookup(m: map<string, string>, key: string): (r: Option<string>)
    ensures r.Some? <==> key in m
    ensures r.Some? ==> r.value == m[key]
  {
    if key in m then Some(m[key]) else None
  }

  /** Java's `s == null || s.isEmpty()` */
  predicate NullOrEmpty(s: Option<string>)
  {
    s.None? || s.value == ""
  }

  /**
   * The stores after `registerSession(username)` chose `id`: a plain Redis
   * SET (which sets no expiry and drops any earlier one on that key), or,
   * when the SET throws, a `SESSIONS.put` instead.
   */
  function AfterRegister(st: Stores, id: string, username: string, storeUp: bool): (r: Stores)
    ensures WellFormed(st) ==> WellFormed(r)
    ensures storeUp ==> id !in r.expiring
    ensures forall k | k != id :: (k in r.expiring <==> k in st.expiring)
    ensures storeUp ==> r.fallback == st.fallback && id in r.durable && r.durable[id] == username
    ensures storeUp ==> forall k | k != id :: (k in r.durable <==> k in st.durable)
    ensures !storeUp ==> r.durable == st.durable && r.expiring == st.expiring
    ensures !storeUp ==> id in r.fallback && r.fallback[id] == username
  {
    if storeUp then st.(durable := st.durable[id := username], expiring := st.expiring - {id})
    else st.(fallback := st.fallback[id := username])
  }

  /** `getUsernameForSession(id)`: Redis's answer when the read succeeds, `SESSIONS`'s only when it throws. */
  function Resolve(st: Stores, id: string, storeUp: bool): Option<string>
  {
    if storeUp then Lookup(st.durable, id) else Lookup(st.fallback, id)
  }

  /** Invalidate and refresh: nothing for a null or empty id; otherwise a Redis failure escapes. */
  function UncaughtOutcome(id: Option<string>, storeUp: bool): (r: Outcome<RegistryError>)
    ensures r.Raised? <==> !NullOrEmpty(id) && !storeUp
  {
    if NullOrEmpty(id) || storeUp then Done else Raised(StoreUnavailable)
  }

  /** `invalidateSession(id)`: a Redis DEL of a non-empty id, when Redis answers; `SESSIONS` is never touched. */
  function AfterInvalidate(st: Stores, id: Option<string>, storeUp: bool): (r: Stores)
    ensures WellFormed(st) ==> WellFormed(r)
    ensures r.fallback == st.fallback
    ensures NullOrEmpty(id) || !storeUp ==> r == st
    ensures !NullOrEmpty(id) && storeUp ==> id.value !in r.durable && id.value !in r.expiring
    ensures forall k | !(id.Some? && k == id.value) ::
      (k in r.durable <==> k in st.durable) && (k in r.expiring <==> k in st.expiring)
    ensures forall k | k in r.durable :: r.durable[k] == st.durable[k]
  {
    if NullOrEmpty(id) || !storeUp then st
    else st.(durable := st.durable - {id.value}, expiring := st.expiring - {id.value})
  }

  /**
   * `refreshSession(id)`: for a non-empty id that Redis answers for and
   * holds, an EXPIRE of 24 hours on that key.
   */
  function AfterRefresh(st: Stores, id: Option<string>, storeUp: bool): (r: Stores)
    ensures WellFormed(st) ==> WellFormed(r)
    ensures r.durable == st.durable && r.fallback == st.fallback
    ensures NullOrEmpty(id) || !storeUp ==> r == st
    ensures r.expiring == if !NullOrEmpty(id) && storeUp && id.value in st.durable then st.expiring + {id.value} else st.expiring
  {
    if NullOrEmpty(id) || !storeUp || id.value !in st.durable then st
    else st.(expiring := st.expiring + {id.value})
  }

  /**
   * Not a registry operation: what Redis itself does once the timeout
   * passes with no further refresh. Every key carrying an expiry is evicted.
   */
  function AfterTimeout(st: Stores): (r: Stores)
    ensures WellFormed(r)
    ensures r.fallback == st.fallback
    ensures r.expiring == {}
    ensures forall k :: k in r.durable <==> k in st.durable && k !in st.expiring
    ensures forall k | k in r.durable :: r.durable[k] == st.durable[k]
  {
    st.(durable := st.durable - st.expiring, expiring := {})
  }

  class SessionRegistry {
    /** The Redis keyspace used for sessions. */
    var durable: map<string, string>
    /** The keys on which Redis holds the 24-hour expiry. */
    var expiring: set<string>
    /** The static `SESSIONS` map. */
    var fallback: map<string, string>

    function State(): Stores
      reads this
    {
      Stores(durable, expiring, fallback)
    }

    ghost predicate Valid()
      reads this
    {
      WellFormed(State())
    }

    /** A registry over a Redis store that already holds some keys; `SESSIONS` starts empty. */
    constructor (durable0: map<string, string>, expiring0: set<string>)
      requires expiring0 <= durable0.Keys
      ensures Valid()
      ensures State() == Stores(durable0, expiring0, map[])
    {
      durable, expiring, fallback := durable0, expiring0, map[];
    }

    /**
     * `registerSession`: a null username throws before anything is written;
     * otherwise the id is `generateSessionId()` for the UUID drawn, and the
     * pair is written to exactly one store.
     */
    method RegisterSession(username: Option<string>, uuid: string, storeUp: bool) returns (r: Result<string, RegistryError>)
      requires Valid()
      requires Base64.IsUuidText(uuid)
      modifies this
      ensures Valid()
      ensures username.None? ==> r == Failure(UsernameMissing) && State() == old(State())
      ensures username.Some? ==> r == Success(Base64.SessionIdOf(uuid))
      ensures username.Some? ==> State() == AfterRegister(old(State()), r.value, username.value, storeUp)
    {
      if username.None? {
        return Failure(UsernameMissing);
      }
      var sessionId := Base64.SessionIdOf(uuid);
      if storeUp {
        durable := durable[sessionId := username.value];
        expiring := expiring - {sessionId};
      } else {
        fallback := fallback[sessionId := username.value];
      }
      return Success(sessionId);
    }

    /** `getUsernameForSession`: reads one store, never changes either. */
    method GetUsernameForSession(sessionId: string, storeUp: bool) returns (username: Option<string>)
      ensures storeUp ==> (username.Some? <==> sessionId in durable)
      ensures storeUp && username.Some? ==> username.value == durable[sessionId]
      ensures !storeUp ==> (username.Some? <==> sessionId in fallback)
      ensures !storeUp && username.Some? ==> username.value == fallback[sessionId]
      ensures username == Resolve(State(), sessionId, storeUp)
    {
      if storeUp {
        username := Lookup(durable, sessionId);
      } else {
        username := Lookup(fallback, sessionId);
      }
    }

    /** `invalidateSession` */
    method InvalidateSession(sessionId: Option<string>, storeUp: bool) returns (r: Outcome<RegistryError>)
      requires Valid()
      modifies this
      ensures Valid()
      ensures r == UncaughtOutcome(sessionId, storeUp)
      ensures State() == AfterInvalidate(old(State()), sessionId, storeUp)
    {
      if NullOrEmpty(sessionId) {
        return Done;
      }
      if !storeUp {
        return Raised(StoreUnavailable);
      }
      durable := durable - {sessionId.value};
      expiring := expiring - {sessionId.value};
      return Done;
    }

    /** `refreshSession`: a Redis GET, then an EXPIRE only when the GET found a username. */
    method RefreshSession(sessionId: Option<string>, storeUp: bool) returns (r: Outcome<RegistryError>)
      requires Valid()
      modifies this
      ensures Valid()
      ensures r == UncaughtOutcome(sessionId, storeUp)
      ensures State() == AfterRefresh(old(State()), sessionId, storeUp)
    {
      if NullOrEmpty(sessionId) {
        return Done;
      }
      if !storeUp {
        return Raised(StoreUnavailable);
      }
      var username := Lookup(durable, sessionId.value);
      if username.Some? {
        expiring := expiring + {sessionId.value};
      }
      return Done;
    }

    /** Redis evicting the keys whose expiry has run out (see `AfterTimeout`). */
    method TimeoutElapses()
      requires Valid()
      modifies this
      ensures Valid()
      ensures State() == AfterTimeout(old(State()))
    {
      durable := durable - expiring;
      expiring := {};
    }
  }

  // ---------------------------------------------------------------------
  // Lifecycle properties of the two-store policy

  /** A registered session resolves to its username when the lookup takes the same path as the write. */
  lemma ResolveAfterRegister(st: Stores, id: string, username: string, storeUp: bool)
    ensures Resolve(AfterRegister(st, id, username, storeUp), id, storeUp) == Some(username)
  {
  }

  /** A fresh id lands in exactly one store, and no other session changes. */
  lemma RegisterWritesOneStore(st: Stores, id: string, username: string, storeUp: bool, other: string, up: bool)
    requires id !in st.durable && id !in st.fallback
    requires other != id
    ensures var r := AfterRegister(st, id, username, storeUp);
      (id in r.durable) == storeUp && (id in r.fallback) == !storeUp
    ensures Resolve(AfterRegister(st, id, username, storeUp), other, up) == Resolve(st, other, up)
  {
  }

  /** The number of sessions held across both stores. */
  function EntryCount(st: Stores): nat
  {
    |st.durable| + |st.fallback|
  }

  /** Registering under an id neither store holds adds exactly one entry. */
  lemma RegisterAddsOneEntry(st: Stores, id: string, username: string, storeUp: bool)
    requires id !in st.durable && id !in st.fallback
    ensures EntryCount(AfterRegister(st, id, username, storeUp)) == EntryCount(st) + 1
  {
  }

  /** After a successful invalidate, a successful Redis read of that id finds nothing. */
  lemma ResolveAfterInvalidate(st: Stores, id: string)
    requires id != ""
    ensures Resolve(AfterInvalidate(st, Some(id), true), id, true) == None
  {
  }

  /** Invalidating one id changes no other id's resolution, on either path. */
  lemma InvalidateKeepsOthers(st: Stores, id: Option<string>, storeUp: bool, key: string, up: bool)
    requires id.Some? ==> key != id.value
    ensures Resolve(AfterInvalidate(st, id, storeUp), key, up) == Resolve(st, key, up)
  {
  }

  /**
   * Invalidation never reaches `SESSIONS`: a session written there during an
   * outage still resolves through it after being invalidated.
   */
  lemma {:induction false} FallbackSessionOutlivesInvalidate(st: Stores, id: string, username: string, up: bool)
    requires id != ""
    ensures var st1 := AfterInvalidate(AfterRegister(st, id, username, false), Some(id), up);
      Resolve(st1, id, false) == Some(username)
  {
    var st0 := AfterRegister(st, id, username, false);
    assert AfterInvalidate(st0, Some(id), up).fallback == st0.fallback;
  }

  /** A session registered and never refreshed carries no expiry, so the timeout never evicts it. */
  lemma UnrefreshedSessionNeverExpires(st: Stores, id: string, username: string)
    ensures Resolve(AfterTimeout(AfterRegister(st, id, username, true)), id, true) == Some(username)
  {
  }

  /** A refreshed session is evicted once the timeout passes without another refresh. */
  lemma RefreshedSessionExpires(st: Stores, id: string)
    requires id != "" && id in st.durable
    ensures Resolve(AfterTimeout(AfterRefresh(st, Some(id), true)), id, true) == None
  {
  }

  /** Refresh never changes who a session belongs to, on either path. */
  lemma RefreshKeepsUsernames(st: Stores, id: Option<string>, storeUp: bool, key: string, up: bool)
    ensures Resolve(AfterRefresh(st, id, storeUp), key, up) == Resolve(st, key, up)
  {
  }

  /** Refreshing an id Redis does not hold changes nothing and, with Redis up, raises nothing. */
  lemma RefreshUnknownIsNoOp(st: Stores, id: string)
    requires id !in st.durable
    ensures AfterRefresh(st, Some(id), true) == st
    ensures UncaughtOutcome(Some(id), true) == Done
  {
  }
}
