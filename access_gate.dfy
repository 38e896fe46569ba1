/**
 * The token gate installed with `authenticateAccessTokensUsing`: a token
 * Sanctum found valid is accepted only on the routes meant for its type.
 */
module AccessGate {
  import opened Wrappers
  import opened PersonalAccessTokens

  const REFRESH_ROUTE_SUFFIX: string := "token-refresh"

  predicate EndsWith(s: string, suffix: string) {
    |suffix| <= |s| && s[|s| - |suffix|..] == suffix
  }

  /** `str_ends_with($routeName, 'token-refresh')`; a route without a name reads as the empty string. */
  predicate IsRefreshRoute(routeName: Option<string>) {
    routeName.Some? && EndsWith(routeName.value, REFRESH_ROUTE_SUFFIX)
  }

  /** The gate closure: Sanctum's verdict, and the token type the route asks for. */
  predicate Gate(routeName: Option<string>, t: Token, isValid: bool) {
    isValid && (if IsRefreshRoute(routeName) then IsRefreshToken(t) else IsAuthToken(t))
  }

  /**
   * The gate never accepts what Sanctum rejected; on a refresh route it
   * accepts exactly the refresh tokens, on any other route exactly the auth
   * tokens.
   */
  lemma {:induction false} GateDecision(routeName: Option<string>, t: Token, isValid: bool)
    ensures !isValid ==> !Gate(routeName, t, isValid)
    ensures IsRefreshRoute(routeName) ==> (Gate(routeName, t, isValid) <==> isValid && IsRefreshToken(t))
    ensures !IsRefreshRoute(routeName) ==> (Gate(routeName, t, isValid) <==> isValid && IsAuthToken(t))
  {
  }

  /** No token passes the gate both on a refresh route and on another route. */
  lemma {:induction false} NoTokenOpensBoth(refreshRoute: Option<string>, otherRoute: Option<string>, t: Token, v1: bool, v2: bool)
    requires IsRefreshRoute(refreshRoute) && !IsRefreshRoute(otherRoute)
    ensures !(Gate(refreshRoute, t, v1) && Gate(otherRoute, t, v2))
  {
  }

  /**
   * The refresh endpoint is named `auth.token-refresh` (the group prefix
   * `auth.` before the route's own name) and counts as a refresh route;
   * `auth.login`, `auth.logout` and `auth.who-am-i` do not.
   */
  lemma {:induction false} RouteNames()
    ensures IsRefreshRoute(Some("auth." + "token-refresh"))
    ensures !IsRefreshRoute(Some("auth.login")) && !IsRefreshRoute(Some("auth.logout"))
    ensures !IsRefreshRoute(Some("auth.who-am-i")) && !IsRefreshRoute(None)
  {
    assert ("auth." + "token-refresh")[5..] == "token-refresh";
    assert "auth.who-am-i"[0..] != "token-refresh" by { assert "auth.who-am-i"[0] != 't'; }
  }

  /** Every name ending in the suffix is a refresh route, whatever precedes it. */
  lemma {:induction false} SuffixIsEnough(prefix: string)
    ensures IsRefreshRoute(Some(prefix + REFRESH_ROUTE_SUFFIX))
  {
    assert (prefix + REFRESH_ROUTE_SUFFIX)[|prefix|..] == REFRESH_ROUTE_SUFFIX;
  }
}
