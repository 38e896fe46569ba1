/**
 * The authentication endpoints of `AuthController`: the login decision, the
 * refresh endpoint and the token response they both return.
 */
module AuthController {
  import opened Wrappers
  import opened PersonalAccessTokens
  import opened AuthTokens
  import opened TokenService
  import opened ApiResponse
  import opened Exceptions

  /** A row of the users table as the login reads it: id, email and stored password hash. */
  datatype User = User(id: nat, email: string, password: string)

  /** `User::where('email', $email)->first()`. */
  function FirstWithEmail(users: seq<User>, email: string): (r: Option<User>)
    ensures r.Some? ==> r.value in users && r.value.email == email
    ensures r.None? ==> forall i :: 0 <= i < |users| ==> users[i].email != email
  {
    if users == [] then None
    else if users[0].email == email then Some(users[0])
    else
      var r := FirstWithEmail(users[1..], email);
      assert forall i :: 1 <= i < |users| ==> users[i] == users[1..][i - 1];
      r
  }

  /**
   * The credential check of `login`: the first user with the email, provided
   * `Hash::check` accepts the password against their stored hash.
   */
  function LoginDecision(users: seq<User>, check: (string, string) -> bool, email: string, password: string)
    : Result<User, ApiException>
  {
    var user := FirstWithEmail(users, email);
    if user.None? || !check(password, user.value.password) then Err(New(InvalidCredentials)) else Ok(user.value)
  }

  /**
   * The login gives one and the same rejection for an unknown email and for a
   * wrong password, INVALID_CREDENTIALS with status 401; it accepts exactly
   * a known email whose first user's hash the password matches.
   */
  lemma {:induction false} LoginRejection(users: seq<User>, check: (string, string) -> bool, email: string, password: string)
    ensures var d := LoginDecision(users, check, email, password);
      && (d.Err? <==> (forall i :: 0 <= i < |users| ==> users[i].email != email)
                      || !check(password, FirstWithEmail(users, email).value.password))
      && (d.Err? ==> d == Err(ApiException("Invalid credentials provided.", InvalidCredentials, 401, [])))
      && (d.Ok? ==> d.value in users && d.value.email == email && check(password, d.value.password))
  {
    var user := FirstWithEmail(users, email);
    if user.Some? {
      assert user.value in users;
    }
  }

  // ---------------------------------------------------------------------
  // responseWithToken
  // ---------------------------------------------------------------------

  /** `floor(now()->diffInMilliseconds($token->expires_at))`: milliseconds left, nothing without an expiry. */
  function ExpiresIn(t: Token, now: int): int {
    if t.expiresAt.Some? then t.expiresAt.value - now else 0
  }

  /** The three fields every token response has. */
  function BaseTokenData(access: NewAccessToken, now: int): seq<Entry> {
    [S("access_token", Text(access.plainTextToken)),
     S("token_type", Text("Bearer")),
     S("expires_in", Prim(Int(ExpiresIn(access.accessToken, now))))]
  }

  /** The `$responseData` of `responseWithToken`: the base fields, then `refresh_token` when a refresh token is given. */
  function TokenData(access: NewAccessToken, refresh: Option<NewAccessToken>, now: int): seq<Entry> {
    BaseTokenData(access, now) + (if refresh.Some? then [S("refresh_token", Text(refresh.value.plainTextToken))] else [])
  }

  /**
   * The token response names the access text and the Bearer type, gives the
   * milliseconds left, and has `refresh_token` exactly when a refresh token
   * is given, holding its text.
   */
  lemma {:induction false} TokenDataFields(access: NewAccessToken, refresh: Option<NewAccessToken>, now: int)
    ensures var d := TokenData(access, refresh, now);
      && DistinctKeys(d)
      && Lookup(d, StrKey("access_token")) == Some(Text(access.plainTextToken))
      && Lookup(d, StrKey("token_type")) == Some(Text("Bearer"))
      && Lookup(d, StrKey("expires_in")) == Some(Prim(Int(ExpiresIn(access.accessToken, now))))
      && (StrKey("refresh_token") in KeysOf(d) <==> refresh.Some?)
      && (refresh.Some? ==> Lookup(d, StrKey("refresh_token")) == Some(Text(refresh.value.plainTextToken)))
  {
    var d := TokenData(access, refresh, now);
    IndexOfFirst(d, StrKey("token_type"), 1);
    IndexOfFirst(d, StrKey("expires_in"), 2);
    if refresh.Some? {
      IndexOfFirst(d, StrKey("refresh_token"), 3);
    } else {
      assert |d| == 3;
    }
  }

  /**
   * For an access token issued at issuedAt by `issueTokenPair` and answered
   * at respondedAt, `expires_in` is the fifteen minutes in milliseconds less
   * the time elapsed: 900000 when answered at once.
   */
  lemma {:induction false} ExpiresInAfterIssue(hash: string -> Digest, rows: Rows, a: nat, user: nat, abilities: seq<string>,
                            issuedAt: int, respondedAt: int, accessSecret: string, refreshSecret: string)
    ensures var r := WithPair(hash, rows, a, user, abilities, issuedAt, accessSecret, refreshSecret);
      ExpiresIn(r[a], respondedAt) == 900_000 - (respondedAt - issuedAt)
  {
  }

  /**
   * After the envelope's transform, with `Str::camel` doing what its unit
   * tests show, the keys are `accessToken`, `tokenType`, `expiresIn` and,
   * with a refresh token, `refreshToken`, in that order.
   */
  lemma {:induction false} TokenResponseKeys(camel: string -> string, access: NewAccessToken, refresh: Option<NewAccessToken>, now: int)
    requires camel("access_token") == "accessToken" && camel("token_type") == "tokenType"
    requires camel("expires_in") == "expiresIn" && camel("refresh_token") == "refreshToken"
    ensures var out := Transform(camel, Arr(TokenData(access, refresh, now)));
      out == Arr([S("accessToken", Text(access.plainTextToken)),
                  S("tokenType", Text("Bearer")),
                  S("expiresIn", Prim(Int(ExpiresIn(access.accessToken, now))))]
                 + (if refresh.Some? then [S("refreshToken", Text(refresh.value.plainTextToken))] else []))
  {
    var at := access.plainTextToken;
    var ex := ExpiresIn(access.accessToken, now);
    var d := TokenData(access, refresh, now);
    var baseOut := [S("accessToken", Text(at)), S("tokenType", Text("Bearer")), S("expiresIn", Prim(Int(ex)))];
    assert Transform(camel, Arr(d)) == Arr(TransformEntries(camel, d));
    if refresh.Some? {
      var rt := refresh.value.plainTextToken;
      assert d == [S("access_token", Text(at)), S("token_type", Text("Bearer")),
                   S("expires_in", Prim(Int(ex))), S("refresh_token", Text(rt))];
      FourTokenKeys(camel, at, ex, rt);
      assert baseOut + [S("refreshToken", Text(rt))] == [S("accessToken", Text(at)), S("tokenType", Text("Bearer")),
                                                          S("expiresIn", Prim(Int(ex))), S("refreshToken", Text(rt))];
    } else {
      assert d == [S("access_token", Text(at)), S("token_type", Text("Bearer")), S("expires_in", Prim(Int(ex)))];
      ThreeTokenKeys(camel, at, ex);
      assert baseOut + [] == baseOut;
    }
  }

  lemma {:induction false} ThreeTokenKeys(camel: string -> string, at: string, ex: int)
    requires camel("access_token") == "accessToken" && camel("token_type") == "tokenType"
    requires camel("expires_in") == "expiresIn"
    ensures TransformEntries(camel, [S("access_token", Text(at)), S("token_type", Text("Bearer")), S("expires_in", Prim(Int(ex)))])
         == [S("accessToken", Text(at)), S("tokenType", Text("Bearer")), S("expiresIn", Prim(Int(ex)))]
  {
    CamelKey(camel, "access_token", "accessToken");
    CamelKey(camel, "token_type", "tokenType");
    CamelKey(camel, "expires_in", "expiresIn");
    TransformEntriesPointwise(camel, [S("access_token", Text(at)), S("token_type", Text("Bearer")), S("expires_in", Prim(Int(ex)))]);
  }

  lemma {:induction false} FourTokenKeys(camel: string -> string, at: string, ex: int, rt: string)
    requires camel("access_token") == "accessToken" && camel("token_type") == "tokenType"
    requires camel("expires_in") == "expiresIn" && camel("refresh_token") == "refreshToken"
    ensures TransformEntries(camel, [S("access_token", Text(at)), S("token_type", Text("Bearer")),
                                     S("expires_in", Prim(Int(ex))), S("refresh_token", Text(rt))])
         == [S("accessToken", Text(at)), S("tokenType", Text("Bearer")),
             S("expiresIn", Prim(Int(ex))), S("refreshToken", Text(rt))]
  {
    var es := [S("access_token", Text(at)), S("token_type", Text("Bearer")),
               S("expires_in", Prim(Int(ex))), S("refresh_token", Text(rt))];
    FourTokenKeysDistinct(camel, es);
    TransformEntriesPointwise(camel, es);
    var out := TransformEntries(camel, es);
    assert out[0] == S("accessToken", Text(at));
    assert out[1] == S("tokenType", Text("Bearer"));
    assert out[2] == S("expiresIn", Prim(Int(ex)));
    assert out[3] == S("refreshToken", Text(rt));
  }

  /** The four field names rewrite to four distinct camelCase keys. */
  lemma {:induction false} FourTokenKeysDistinct(camel: string -> string, es: seq<Entry>)
    requires camel("access_token") == "accessToken" && camel("token_type") == "tokenType"
    requires camel("expires_in") == "expiresIn" && camel("refresh_token") == "refreshToken"
    requires |es| == 4 && es[0].key == StrKey("access_token") && es[1].key == StrKey("token_type")
    requires es[2].key == StrKey("expires_in") && es[3].key == StrKey("refresh_token")
    ensures NoCollision(camel, es)
    ensures KeyOf(camel, es[0].key) == StrKey("accessToken") && KeyOf(camel, es[1].key) == StrKey("tokenType")
    ensures KeyOf(camel, es[2].key) == StrKey("expiresIn") && KeyOf(camel, es[3].key) == StrKey("refreshToken")
  {
    CamelKey(camel, "access_token", "accessToken");
    CamelKey(camel, "token_type", "tokenType");
    CamelKey(camel, "expires_in", "expiresIn");
    CamelKey(camel, "refresh_token", "refreshToken");
    // the four camelCase keys start with four different letters
    var firsts := ['a', 't', 'e', 'r'];
    assert forall i :: 0 <= i < 4 ==> KeyOf(camel, es[i].key).s[0] == firsts[i];
  }

  /** The keys the token response sends through the key cache: the field names of the data. */
  lemma {:induction false} TokenDataRewrittenKeys(access: NewAccessToken, refresh: Option<NewAccessToken>, now: int)
    ensures RewrittenKeys(Arr(TokenData(access, refresh, now))) ==
            {"access_token", "token_type", "expires_in"} + (if refresh.Some? then {"refresh_token"} else {})
  {
    var d := TokenData(access, refresh, now);
    assert d[..0] == [];
    RewrittenEntryKeysSnoc(d, 0);
    RewrittenEntryKeysSnoc(d, 1);
    RewrittenEntryKeysSnoc(d, 2);
    if refresh.Some? {
      RewrittenEntryKeysSnoc(d, 3);
      assert d[..4] == d;
    } else {
      assert d[..3] == d;
    }
  }

  /** `responseWithToken`: build the data, add the refresh text when there is one, wrap it in a success envelope. */
  method ResponseWithToken(svc: ApiResponseService, access: NewAccessToken, refresh: Option<NewAccessToken>, now: int)
    returns (response: JsonResponse)
    requires svc.Valid()
    modifies svc`keyCache
    ensures svc.Valid()
    ensures response == SuccessEnvelope(svc.camel, Arr(TokenData(access, refresh, now)))
    ensures svc.keyCache.Keys == old(svc.keyCache).Keys + {"access_token", "token_type", "expires_in"}
                                 + (if refresh.Some? then {"refresh_token"} else {})
  {
    var data := BaseTokenData(access, now);
    if refresh.Some? {
      assert StrKey("refresh_token") !in KeysOf(data);
      AssignFacts(data, StrKey("refresh_token"), Text(refresh.value.plainTextToken));
      data := Assign(data, StrKey("refresh_token"), Text(refresh.value.plainTextToken));
    } else {
      assert data + [] == data;
    }
    assert data == TokenData(access, refresh, now);
    response := svc.SuccessResponse(Arr(data));
    TokenDataRewrittenKeys(access, refresh, now);
    assert RewrittenEntryKeys([]) == {};
  }

  // ---------------------------------------------------------------------
  // login and refresh
  // ---------------------------------------------------------------------

  /**
   * `login`: reject unknown emails and wrong passwords alike, leaving the
   * store as it was; otherwise issue one pair with the default abilities
   * and answer with both tokens.
   */
  method Login(table: TokenTable, svc: ApiResponseService, users: seq<User>, check: (string, string) -> bool,
               email: string, password: string, issuedAt: int, respondedAt: int,
               accessSecret: string, refreshSecret: string)
    returns (result: Result<JsonResponse, ApiException>)
    requires table.Valid() && svc.Valid()
    modifies table, svc`keyCache
    ensures table.Valid() && svc.Valid()
    ensures match LoginDecision(users, check, email, password)
      case Err(e) =>
        && result == Err(e) && table.rows == old(table.rows) && table.nextId == old(table.nextId)
        && svc.keyCache == old(svc.keyCache)
      case Ok(user) =>
        var a := old(table.nextId);
        && table.rows == WithPair(table.hash, old(table.rows), a, user.id, DEFAULT_ABILITIES,
                                  issuedAt, accessSecret, refreshSecret)
        && table.nextId == a + 2
        && result == Ok(SuccessEnvelope(svc.camel, Arr(TokenData(
             NewAccessToken(a, table.rows[a], PlainText(a, accessSecret)),
             Some(NewAccessToken(a + 1, table.rows[a + 1], PlainText(a + 1, refreshSecret))),
             respondedAt))))
        && svc.keyCache.Keys == old(svc.keyCache).Keys + {"access_token", "token_type", "expires_in", "refresh_token"}
    ensures Paired(old(table.rows)) ==> Paired(table.rows)
  {
    var user := FirstWithEmail(users, email);
    if user.None? || !check(password, user.value.password) {
      return Err(New(InvalidCredentials));
    }
    var tokens := IssueTokenPair(table, user.value.id, issuedAt, accessSecret, refreshSecret);
    var response := ResponseWithToken(svc, tokens.access, Some(tokens.refresh), respondedAt);
    result := Ok(response);
  }

  /**
   * `refresh`: rotate the pair of the bearer refresh token and answer with
   * the new tokens in the login's shape; a failed rotation escapes.
   */
  method Refresh(table: TokenTable, svc: ApiResponseService, bearer: string, issuedAt: int, respondedAt: int,
                 accessSecret: string, refreshSecret: string)
    returns (result: Result<JsonResponse, Failure>)
    requires table.Valid() && svc.Valid()
    modifies table, svc`keyCache
    ensures table.Valid() && svc.Valid()
    ensures match PlanRotation(table.hash, old(table.rows), bearer, issuedAt)
      case Err(e) =>
        && result == Err(e) && table.rows == old(table.rows) && table.nextId == old(table.nextId)
        && svc.keyCache == old(svc.keyCache)
      case Ok(p) =>
        var a := old(table.nextId);
        && p.id in old(table.rows)
        && table.rows == Rotated(table.hash, old(table.rows), p, a, issuedAt, accessSecret, refreshSecret)
        && table.nextId == a + 2
        && result == Ok(SuccessEnvelope(svc.camel, Arr(TokenData(
             NewAccessToken(a, table.rows[a], PlainText(a, accessSecret)),
             Some(NewAccessToken(a + 1, table.rows[a + 1], PlainText(a + 1, refreshSecret))),
             respondedAt))))
        && svc.keyCache.Keys == old(svc.keyCache).Keys + {"access_token", "token_type", "expires_in", "refresh_token"}
    ensures Paired(old(table.rows)) ==> Paired(table.rows)
  {
    var tokens := RefreshTokenPair(table, bearer, issuedAt, accessSecret, refreshSecret);
    if tokens.Err? {
      return Err(tokens.error);
    }
    var response := ResponseWithToken(svc, tokens.value.access, Some(tokens.value.refresh), respondedAt);
    result := Ok(response);
  }
}
