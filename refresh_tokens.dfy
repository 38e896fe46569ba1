/** The token side of token issuing (the `HasRefreshTokens` trait of an access token). */
module RefreshTokens {
  import opened Wrappers
  import opened PersonalAccessTokens

  /** The only ability a refresh token ever carries. */
  const REFRESH_TOKEN_ABILITY: string := "refresh-auth-token"

  /**
   * The row `issueRefreshToken` stores for the token with id parent: owned by
   * that token, pointing at it, with the single refresh ability.
   */
  function RefreshRecord(hash: string -> Digest, parent: nat, secret: string, expiresAt: Option<int>): (t: Token)
    ensures IsRefreshToken(t) && !IsAuthToken(t) && t.tokenType in TYPES
    ensures t.owner == OwnerToken(parent) && t.authTokenId == Some(parent)
    ensures t.abilities == [REFRESH_TOKEN_ABILITY]
    ensures t.tokenHash == hash(secret) && t.expiresAt == expiresAt
  {
    Token(OwnerToken(parent), hash(secret), TYPE_REFRESH, [REFRESH_TOKEN_ABILITY], Some(parent), expiresAt)
  }

  /**
   * `$token->issueRefreshToken($expiresAt)` on the token stored under
   * parent: insert one refresh row linked to it and return it with its plain
   * text `<id>|<secret>`.
   */
  method IssueRefreshToken(table: TokenTable, parent: nat, secret: string, expiresAt: Option<int> := None)
    returns (issued: NewAccessToken)
    requires table.Valid()
    modifies table
    ensures table.Valid()
    ensures issued.id == old(table.nextId) && issued.id !in old(table.rows)
    ensures issued.accessToken == RefreshRecord(table.hash, parent, secret, expiresAt)
    ensures table.rows == old(table.rows)[issued.id := issued.accessToken]
    ensures table.nextId == old(table.nextId) + 1
    ensures issued.plainTextToken == PlainText(issued.id, secret)
  {
    var token := RefreshRecord(table.hash, parent, secret, expiresAt);
    var id := table.Create(token);
    issued := NewAccessToken(id, token, PlainText(id, secret));
  }
}
