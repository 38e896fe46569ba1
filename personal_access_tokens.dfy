/**
 * The `personal_access_tokens` table and its records: the token types, the
 * expiry and type predicates, Sanctum's lookup of a presented `<id>|<secret>`
 * text, and the table as a mutable store with its cascading delete.
 */
module PersonalAccessTokens {
  import opened Wrappers
  import Decimal

  const TYPE_AUTH: string := "auth"
  const TYPE_REFRESH: string := "refresh"
  /** The values the `type` column may take. */
  const TYPES: seq<string> := [TYPE_AUTH, TYPE_REFRESH]

  /** A SHA-256 digest as stored in the `token` column; the hash itself is a parameter of the table. */
  type Digest = string

  /**
   * The polymorphic `tokenable` owner of a record: an auth record is owned by
   * a user, a refresh record by the auth token it was issued from.
   */
  datatype Owner = OwnerUser(uid: nat) | OwnerToken(tid: nat)

  /** One row of the table, without its id (the id is the key of the store). */
  datatype Token = Token(
    owner: Owner,
    tokenHash: Digest,
    tokenType: string,
    abilities: seq<string>,
    authTokenId: Option<nat>,
    expiresAt: Option<int>)

  /** The table: record id to record. */
  type Rows = map<nat, Token>

  /** Sanctum's `NewAccessToken`: the stored record and the plain text handed to the client once. */
  datatype NewAccessToken = NewAccessToken(id: nat, accessToken: Token, plainTextToken: string)

  /** A token is expired when it has an expiry and the clock has reached it. */
  predicate IsExpired(t: Token, now: int) {
    t.expiresAt.Some? && now >= t.expiresAt.value
  }

  predicate IsAuthToken(t: Token) {
    t.tokenType == TYPE_AUTH
  }

  predicate IsRefreshToken(t: Token) {
    t.tokenType == TYPE_REFRESH
  }

  /** The `authToken` relation: the record a token's `auth_token_id` names, if it exists. */
  function AuthTokenOf(rows: Rows, t: Token): (r: Option<nat>)
    ensures r.Some? <==> t.authTokenId.Some? && t.authTokenId.value in rows
    ensures r.Some? ==> r.value == t.authTokenId.value
  {
    if t.authTokenId.Some? && t.authTokenId.value in rows then Some(t.authTokenId.value) else None
  }

  /** The ids the `refreshToken` relation of record `id` ranges over: every row naming it as auth token. */
  function RefreshTokensOf(rows: Rows, id: nat): (s: set<nat>)
    ensures forall k :: k in s <==> k in rows && rows[k].authTokenId == Some(id)
  {
    set k | k in rows && rows[k].authTokenId == Some(id)
  }

  lemma {:induction false} TypesAreAuthAndRefresh()
    ensures TYPES == ["auth", "refresh"]
    ensures forall t: Token :: !(IsAuthToken(t) && IsRefreshToken(t))
    ensures forall t: Token :: t.tokenType in TYPES ==> IsAuthToken(t) != IsRefreshToken(t)
  {
  }

  /** A token expiring exactly now is expired, a token without expiry never is, and expiry is permanent. */
  lemma {:induction false} ExpiryBoundary(t: Token, now: int, later: int)
    requires now <= later
    ensures t.expiresAt == Some(now) ==> IsExpired(t, now)
    ensures t.expiresAt.None? ==> !IsExpired(t, now)
    ensures t.expiresAt.Some? && now < t.expiresAt.value ==> !IsExpired(t, now)
    ensures IsExpired(t, now) ==> IsExpired(t, later)
  {
  }

  // ---------------------------------------------------------------------
  // The plain-text token `<id>|<secret>` and Sanctum's findToken
  // ---------------------------------------------------------------------

  /** The text returned to the client: the record id in decimal, a bar, the secret. */
  function PlainText(id: nat, secret: string): string {
    Decimal.FormatNat(id) + "|" + secret
  }

  /** Index of the first `|` in s. */
  function FirstBar(s: string): (r: Option<nat>)
    ensures r.Some? ==> r.value < |s| && s[r.value] == '|' && '|' !in s[..r.value]
    ensures r.None? ==> '|' !in s
  {
    if s == [] then None
    else if s[0] == '|' then Some(0)
    else
      var rest := FirstBar(s[1..]);
      if rest.None? then
        assert s == [s[0]] + s[1..];
        None
      else
        assert s[..rest.value + 1] == [s[0]] + s[1..][..rest.value];
        Some(rest.value + 1)
  }

  /** `explode('|', $token, 2)`: the text before the first bar and the text after it. */
  function SplitToken(plain: string): (r: Option<(string, string)>)
    ensures r.Some? ==> plain == r.value.0 + "|" + r.value.1 && '|' !in r.value.0
    ensures r.None? <==> '|' !in plain
  {
    match FirstBar(plain)
    case None => None
    case Some(i) =>
      assert plain == plain[..i] + "|" + plain[i + 1..];
      Some((plain[..i], plain[i + 1..]))
  }

  /**
   * Sanctum's `findToken` for a `<id>|<secret>` text: the record with that id,
   * provided its stored digest is the hash of the secret.
   */
  function FindToken(hash: string -> Digest, rows: Rows, plain: string): (r: Option<nat>)
    ensures r.Some? ==> r.value in rows
    ensures r.Some? ==> SplitToken(plain).Some?
    ensures r.Some? ==> Decimal.ParseNat(SplitToken(plain).value.0) == Some(r.value)
    ensures r.Some? ==> rows[r.value].tokenHash == hash(SplitToken(plain).value.1)
  {
    match SplitToken(plain)
    case None => None
    case Some((idText, secret)) =>
      match Decimal.ParseNat(idText)
      case None => None
      case Some(id) =>
        if id in rows && rows[id].tokenHash == hash(secret) then Some(id) else None
  }

  lemma {:induction false} SplitPlainText(id: nat, secret: string)
    ensures SplitToken(PlainText(id, secret)) == Some((Decimal.FormatNat(id), secret))
  {
    var idText := Decimal.FormatNat(id);
    var plain := PlainText(id, secret);
    assert '|' !in idText by {
      forall i | 0 <= i < |idText| ensures idText[i] != '|' {
        assert Decimal.IsDigit(idText[i]);
      }
    }
    assert plain[|idText|] == '|';
    assert plain[..|idText|] == idText;
    var bar := FirstBar(plain);
    assert bar.Some?;
    assert bar.value == |idText|;
    assert plain[|idText| + 1..] == secret;
  }

  /** The text issued for a record resolves to it exactly when the record is still there with that secret's hash. */
  lemma {:induction false} FindTokenOfPlainText(hash: string -> Digest, rows: Rows, id: nat, secret: string)
    ensures FindToken(hash, rows, PlainText(id, secret)) ==
            if id in rows && rows[id].tokenHash == hash(secret) then Some(id) else None
  {
    SplitPlainText(id, secret);
  }

  /** A plain text resolves to at most one id, whatever the table holds. */
  lemma {:induction false} FindTokenNamesOneId(hash: string -> Digest, rows: Rows, rows': Rows, plain: string)
    requires FindToken(hash, rows, plain).Some? && FindToken(hash, rows', plain).Some?
    ensures FindToken(hash, rows, plain) == FindToken(hash, rows', plain)
  {
  }

  /** A text whose secret hashes differently from the record's secret does not resolve. */
  lemma {:induction false} FindTokenRejectsWrongSecret(hash: string -> Digest, rows: Rows, id: nat, secret: string, guess: string)
    requires id in rows && rows[id].tokenHash == hash(secret)
    requires hash(guess) != hash(secret)
    ensures FindToken(hash, rows, PlainText(id, guess)).None?
  {
    FindTokenOfPlainText(hash, rows, id, guess);
  }

  /** A text without a bar, like `invalid-token`, never resolves. */
  lemma {:induction false} FindTokenNeedsBar(hash: string -> Digest, rows: Rows, plain: string)
    requires '|' !in plain
    ensures FindToken(hash, rows, plain).None?
  {
  }

  // ---------------------------------------------------------------------
  // invalidateWithCascade, as a function of the rows
  // ---------------------------------------------------------------------

  /** `$this->refreshToken()->delete()`: every row the relation ranges over goes. */
  function DeleteRefreshTokensOf(rows: Rows, id: nat): (r: Rows)
    ensures forall k :: k in r <==> k in rows && rows[k].authTokenId != Some(id)
    ensures forall k :: k in r ==> r[k] == rows[k]
  {
    rows - RefreshTokensOf(rows, id)
  }

  /** `$this->authToken()->delete()`: the row the token's `auth_token_id` names goes, if any. */
  function DeleteAuthTokenOf(rows: Rows, t: Token): (r: Rows)
    ensures forall k :: k in r <==> k in rows && Some(k) != t.authTokenId
    ensures forall k :: k in r ==> r[k] == rows[k]
  {
    if t.authTokenId.Some? then rows - {t.authTokenId.value} else rows
  }

  /** The rows left after `invalidateWithCascade` on record t stored under id. */
  function Cascade(rows: Rows, id: nat, t: Token): (r: Rows)
    ensures forall k :: k in r ==> k in rows && r[k] == rows[k]
    ensures id !in r
  {
    (if IsAuthToken(t) then DeleteRefreshTokensOf(rows, id) else DeleteAuthTokenOf(rows, t)) - {id}
  }

  /** On an auth record the cascade takes the record and every row pointing at it, and nothing else. */
  lemma {:induction false} CascadeOfAuth(rows: Rows, id: nat, t: Token)
    requires IsAuthToken(t)
    ensures forall k :: k in Cascade(rows, id, t) <==> k in rows && k != id && rows[k].authTokenId != Some(id)
    ensures Cascade(rows, id, t).Keys == rows.Keys - ({id} + RefreshTokensOf(rows, id))
  {
  }

  /** On any other record it takes the record and the row its `auth_token_id` names, and nothing else. */
  lemma {:induction false} CascadeOfOther(rows: Rows, id: nat, t: Token)
    requires !IsAuthToken(t)
    ensures forall k :: k in Cascade(rows, id, t) <==> k in rows && k != id && Some(k) != t.authTokenId
  {
  }

  // ---------------------------------------------------------------------
  // An owner's records, as a query lists them
  // ---------------------------------------------------------------------

  /** The ids below n that owner owns, except the one given, in ascending order. */
  function OwnedIds(rows: Rows, owner: Owner, except: Option<nat>, n: nat): (ids: seq<nat>)
    ensures forall i :: 0 <= i < |ids| ==> ids[i] in rows && ids[i] < n
  {
    if n == 0 then []
    else
      var k := n - 1;
      OwnedIds(rows, owner, except, k) +
        (if k in rows && rows[k].owner == owner && Some(k) != except then [k] else [])
  }

  /** OwnedIds lists, in strictly ascending order, exactly the owner's ids below n other than the excepted one. */
  lemma {:induction false} OwnedIdsMembers(rows: Rows, owner: Owner, except: Option<nat>, n: nat)
    ensures var ids := OwnedIds(rows, owner, except, n);
      && (forall i, j :: 0 <= i < j < |ids| ==> ids[i] < ids[j])
      && (forall i :: 0 <= i < |ids| ==> ids[i] < n)
      && (forall k :: k in ids <==> k < n && k in rows && rows[k].owner == owner && Some(k) != except)
  {
    OwnedIdsAscending(rows, owner, except, n);
    OwnedIdsMembership(rows, owner, except, n);
  }

  lemma {:induction false} OwnedIdsAscending(rows: Rows, owner: Owner, except: Option<nat>, n: nat)
    ensures forall i, j :: 0 <= i < j < |OwnedIds(rows, owner, except, n)| ==>
      OwnedIds(rows, owner, except, n)[i] < OwnedIds(rows, owner, except, n)[j]
  {
    if n > 0 {
      var k := n - 1;
      var prev := OwnedIds(rows, owner, except, k);
      var ids := OwnedIds(rows, owner, except, n);
      OwnedIdsAscending(rows, owner, except, k);
      if k in rows && rows[k].owner == owner && Some(k) != except {
        assert ids == prev + [k];
        forall i, j | 0 <= i < j < |ids| ensures ids[i] < ids[j] {
          assert ids[i] == prev[i] && prev[i] < k;
          if j < |prev| { assert ids[j] == prev[j]; } else { assert ids[j] == k; }
        }
      } else {
        assert ids == prev;
      }
    }
  }

  lemma {:induction false} OwnedIdsMembership(rows: Rows, owner: Owner, except: Option<nat>, n: nat)
    ensures forall k :: k in OwnedIds(rows, owner, except, n) <==>
      k < n && k in rows && rows[k].owner == owner && Some(k) != except
  {
    if n > 0 {
      var k := n - 1;
      var prev := OwnedIds(rows, owner, except, k);
      var ids := OwnedIds(rows, owner, except, n);
      OwnedIdsMembership(rows, owner, except, k);
      if k in rows && rows[k].owner == owner && Some(k) != except {
        assert ids == prev + [k];
      } else {
        assert ids == prev;
      }
    }
  }

  // ---------------------------------------------------------------------
  // The table
  // ---------------------------------------------------------------------

  /**
   * The `personal_access_tokens` table: its rows and the next auto-increment
   * id. The hash applied to secrets is fixed for the life of the table.
   */
  class TokenTable {
    const hash: string -> Digest
    var rows: Rows
    var nextId: nat

    /** Every id was handed out by the auto-increment counter and every type is one of TYPES. */
    ghost predicate Valid()
      reads this
    {
      forall k :: k in rows ==> k < nextId && rows[k].tokenType in TYPES
    }

    constructor (hash: string -> Digest)
      ensures Valid()
      ensures this.hash == hash && rows == map[] && nextId == 1
    {
      this.hash := hash;
      rows := map[];
      nextId := 1;
    }

    /** `tokens()->create([...])`: insert a row under the next auto-increment id. */
    method Create(t: Token) returns (id: nat)
      requires Valid() && t.tokenType in TYPES
      modifies this
      ensures Valid()
      ensures id == old(nextId) && id !in old(rows)
      ensures rows == old(rows)[id := t] && nextId == old(nextId) + 1
    {
      id := nextId;
      rows := rows[id := t];
      nextId := nextId + 1;
    }

    /**
     * `invalidateWithCascade` on the in-memory record t loaded under id: an
     * auth token deletes every row pointing at it, any other token deletes
     * the row it points at; then the token deletes itself.
     */
    method InvalidateWithCascade(id: nat, t: Token)
      requires Valid()
      modifies this`rows
      ensures Valid()
      ensures rows == Cascade(old(rows), id, t)
    {
      if IsAuthToken(t) {
        rows := DeleteRefreshTokensOf(rows, id);
      } else {
        rows := DeleteAuthTokenOf(rows, t);
      }
      rows := rows - {id};
    }

    /** `setLastUsedAtAttribute` is overridden to do nothing, so the stored rows never change through it. */
    method SetLastUsedAt(id: nat, value: int)
      requires Valid()
      modifies this
      ensures rows == old(rows) && nextId == old(nextId)
    {
    }

    /**
     * `$owner->tokens()`, optionally `->where('id', '!=', except)`, in
     * ascending id order as `each()` walks it: the ids of the rows the owner
     * owns.
     */
    method TokensOf(owner: Owner, except: Option<nat>) returns (ids: seq<nat>)
      requires Valid()
      ensures ids == OwnedIds(rows, owner, except, nextId)
      ensures forall i, j :: 0 <= i < j < |ids| ==> ids[i] < ids[j]
      ensures forall k :: k in ids <==> k in rows && rows[k].owner == owner && Some(k) != except
    {
      ids := [];
      var i := 0;
      while i < nextId
        invariant 0 <= i <= nextId
        invariant ids == OwnedIds(rows, owner, except, i)
      {
        if i in rows && rows[i].owner == owner && Some(i) != except {
          ids := ids + [i];
        }
        i := i + 1;
      }
      OwnedIdsMembers(rows, owner, except, nextId);
    }
  }
}
