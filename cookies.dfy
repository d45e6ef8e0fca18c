/** The `SESSION_ID` cookie that carries a session id between browser and server. */
module Cookies {
  import opened Wrappers

  const SessionCookieName: string := "SESSION_ID"

  /** Lifetime of the issued cookie, in seconds: 24 hours. */
  const SessionCookieMaxAge: int := 24 * 60 * 60

  /** A cookie as a request carries it; its value may be null. */
  datatype RequestCookie = RequestCookie(name: string, value: Option<string>)

  /** A cookie a response adds with `addCookie`. */
  datatype SetCookie = SetCookie(name: string, value: Option<string>, path: string, httpOnly: bool, maxAge: int)

  /** The cookie written on login and registration. */
  function SessionCookie(id: string): SetCookie
  {
    SetCookie(SessionCookieName, Some(id), "/", true, SessionCookieMaxAge)
  }

  /** `clearSessionCookie`: a null-valued `SESSION_ID` with max-age 0, which deletes it. */
  function DeletionCookie(): SetCookie
  {
    SetCookie(SessionCookieName, None, "/", true, 0)
  }

  /** Cookie `i` is the first one named `SESSION_ID`. */
  predicate IsFirstSessionCookie(cookies: seq<RequestCookie>, i: int)
  {
    0 <= i < |cookies| && cookies[i].name == SessionCookieName &&
    forall j | 0 <= j < i :: cookies[j].name != SessionCookieName
  }

  /** The value of the first `SESSION_ID` cookie of a cookie array; null when there is none. */
  function FirstSessionCookieValue(cookies: seq<RequestCookie>): Option<string>
  {
    if cookies == [] then None
    else if cookies[0].name == SessionCookieName then cookies[0].value
    else FirstSessionCookieValue(cookies[1..])
  }

  /** The session id a request carries; null when the request has no cookie array. */
  function CarriedSessionId(cookies: Option<seq<RequestCookie>>): Option<string>
  {
    match cookies
    case None => None
    case Some(cs) => FirstSessionCookieValue(cs)
  }

  /** `FirstSessionCookieValue` is the first match: no later cookie of the same name counts. */
  lemma {:induction false} FirstSessionCookieValueIsFirstMatch(cookies: seq<RequestCookie>)
    ensures (forall i | 0 <= i < |cookies| :: cookies[i].name != SessionCookieName) ==> FirstSessionCookieValue(cookies) == None
    ensures forall i | IsFirstSessionCookie(cookies, i) :: FirstSessionCookieValue(cookies) == cookies[i].value
  {
    if cookies != [] && cookies[0].name != SessionCookieName {
      var tail := cookies[1..];
      FirstSessionCookieValueIsFirstMatch(tail);
      forall i | IsFirstSessionCookie(cookies, i) ensures FirstSessionCookieValue(cookies) == cookies[i].value {
        assert IsFirstSessionCookie(tail, i - 1);
      }
      if forall i | 0 <= i < |cookies| :: cookies[i].name != SessionCookieName {
        assert forall i | 0 <= i < |tail| :: tail[i].name == cookies[i + 1].name;
      }
    }
  }

  /**
   * `extractSessionIdFromCookie` / `getSessionIdFromCookie`: a scan of the
   * cookie array that stops at the first cookie named `SESSION_ID`.
   */
  method SessionIdFromCookies(cookies: Option<seq<RequestCookie>>) returns (id: Option<string>)
    ensures cookies.None? ==> id == None
    ensures cookies.Some? && (forall i | 0 <= i < |cookies.value| :: cookies.value[i].name != SessionCookieName) ==> id == None
    ensures cookies.Some? ==> forall i | IsFirstSessionCookie(cookies.value, i) :: id == cookies.value[i].value
    ensures id == CarriedSessionId(cookies)
  {
    if cookies.None? {
      return None;
    }
    var cs := cookies.value;
    FirstSessionCookieValueIsFirstMatch(cs);
    var k := 0;
    while k < |cs|
      invariant 0 <= k <= |cs|
      invariant forall j | 0 <= j < k :: cs[j].name != SessionCookieName
      invariant FirstSessionCookieValue(cs[k..]) == FirstSessionCookieValue(cs)
    {
      if cs[k].name == SessionCookieName {
        return cs[k].value;
      }
      assert cs[k..][1..] == cs[k + 1..];
      k := k + 1;
    }
    return None;
  }
}
