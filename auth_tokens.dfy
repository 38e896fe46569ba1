/** The user side of token issuing (the `HasAuthTokens` trait of a user). */
module AuthTokens {
  import opened Wrappers
  import opened PersonalAccessTokens

  /** Abilities an auth token gets when none are given: full access. */
  const DEFAULT_ABILITIES: seq<string> := ["*"]

  /** The row `issueAuthToken` stores for a user; only the hash of the secret is kept. */
  function AuthRecord(hash: string -> Digest, user: nat, secret: string, abilities: seq<string>, expiresAt: Option<int>): (t: Token)
    ensures IsAuthToken(t) && !IsRefreshToken(t) && t.tokenType in TYPES
    ensures t.owner == OwnerUser(user) && t.authTokenId.None?
    ensures t.tokenHash == hash(secret) && t.abilities == abilities && t.expiresAt == expiresAt
  {
    Token(OwnerUser(user), hash(secret), TYPE_AUTH, abilities, None, expiresAt)
  }

  /**
   * `$user->issueAuthToken($abilities, $expiresAt)`: insert one auth row owned
   * by the user and return it with its plain text `<id>|<secret>`. The
   * secret stands for Sanctum's generated token string.
   */
  method IssueAuthToken(table: TokenTable, user: nat, secret: string,
                        abilities: seq<string> := DEFAULT_ABILITIES, expiresAt: Option<int> := None)
    returns (issued: NewAccessToken)
    requires table.Valid()
    modifies table
    ensures table.Valid()
    ensures issued.id == old(table.nextId) && issued.id !in old(table.rows)
    ensures issued.accessToken == AuthRecord(table.hash, user, secret, abilities, expiresAt)
    ensures table.rows == old(table.rows)[issued.id := issued.accessToken]
    ensures table.nextId == old(table.nextId) + 1
    ensures issued.plainTextToken == PlainText(issued.id, secret)
  {
    var token := AuthRecord(table.hash, user, secret, abilities, expiresAt);
    var id := table.Create(token);
    issued := NewAccessToken(id, token, PlainText(id, secret));
  }
}
