/**
 * The token pair engine (`TokenService`): issuing, rotating and revoking
 * access/refresh pairs against the token table, and the pairing invariant
 * those operations keep.
 */
module TokenService {
  import opened Wrappers
  import opened PersonalAccessTokens
  import opened AuthTokens
  import opened RefreshTokens

  /** Access token lifetime in minutes. */
  const ACCESS_TOKEN_EXPIRY_IN_MINUTES: nat := 15
  /** Refresh token lifetime in minutes: 30 days. */
  const REFRESH_TOKEN_EXPIRY_IN_MINUTES: nat := 30 * 24 * 60
  /** The clock counts milliseconds (the `expires_at` column keeps three fractional digits). */
  const MILLISECONDS_PER_MINUTE: nat := 60_000

  /** `now()->addMinutes(minutes)` on the millisecond clock. */
  function AddMinutes(now: int, minutes: nat): int {
    now + minutes * MILLISECONDS_PER_MINUTE
  }

  /** `['access' => ..., 'refresh' => ...]` as returned by issueTokenPair. */
  datatype TokenPair = TokenPair(access: NewAccessToken, refresh: NewAccessToken)

  /** What the service lets escape. */
  datatype Failure =
    | InvalidArgument(message: string)  // \InvalidArgumentException thrown on purpose
    | BrokenRelation                    // a relation that is null (or not a user) was dereferenced

  const INVALID_REFRESH_TOKEN: Failure := InvalidArgument("Invalid refresh token")

  // ---------------------------------------------------------------------
  // The pairing invariant
  // ---------------------------------------------------------------------

  /**
   * Record k is one half of a complete pair: an auth record is owned by a
   * user, points nowhere and has a refresh record pointing at it; a refresh
   * record points at an existing auth record, is owned by it and carries only
   * the refresh ability.
   */
  ghost predicate HalfOfPair(rows: Rows, k: nat)
    requires k in rows
  {
    var t := rows[k];
    if IsAuthToken(t) then
      && t.authTokenId.None?
      && t.owner.OwnerUser?
      && exists c :: c in rows && IsRefreshToken(rows[c]) && rows[c].authTokenId == Some(k)
    else
      && IsRefreshToken(t)
      && t.authTokenId.Some?
      && t.authTokenId.value in rows
      && IsAuthToken(rows[t.authTokenId.value])
      && t.owner == OwnerToken(t.authTokenId.value)
      && t.abilities == [REFRESH_TOKEN_ABILITY]
  }

  /** No two records point at the same auth record. */
  ghost predicate OneRefreshPerAuth(rows: Rows) {
    forall c1, c2 ::
      (c1 in rows && c2 in rows && rows[c1].authTokenId.Some? && rows[c1].authTokenId == rows[c2].authTokenId)
      ==> c1 == c2
  }

  /** The store holds complete pairs only, linked one to one. */
  ghost predicate Paired(rows: Rows) {
    && (forall k :: k in rows ==> HalfOfPair(rows, k))
    && OneRefreshPerAuth(rows)
  }

  /** The other half of the pair record id belongs to. */
  ghost function Partner(rows: Rows, id: nat): (p: nat)
    requires Paired(rows) && id in rows
    ensures p in rows && p != id
    ensures IsAuthToken(rows[id]) ==> IsRefreshToken(rows[p]) && rows[p].authTokenId == Some(id)
    ensures !IsAuthToken(rows[id]) ==> IsRefreshToken(rows[id]) && IsAuthToken(rows[p]) && rows[id].authTokenId == Some(p)
  {
    assert HalfOfPair(rows, id);
    if IsAuthToken(rows[id]) then
      var c :| c in rows && IsRefreshToken(rows[c]) && rows[c].authTokenId == Some(id); c
    else
      rows[id].authTokenId.value
  }

  /** The auth half of the pair record id belongs to. */
  ghost function PairAuth(rows: Rows, id: nat): (a: nat)
    requires Paired(rows) && id in rows
    ensures a in rows && IsAuthToken(rows[a])
    ensures a == id || a == Partner(rows, id)
  {
    if IsAuthToken(rows[id]) then id else Partner(rows, id)
  }

  lemma {:induction false} EmptyTableIsPaired()
    ensures Paired(map[])
  {
  }

  // ---------------------------------------------------------------------
  // Removing whole pairs
  // ---------------------------------------------------------------------

  /** The rows left once the auth records in s and every record pointing at one of them are gone. */
  function RemovePairs(rows: Rows, s: set<nat>): (r: Rows)
    ensures forall k :: k in r <==> k in rows && k !in s && !PointsInto(rows[k], s)
    ensures forall k :: k in r ==> r[k] == rows[k]
  {
    map k | k in rows && k !in s && !PointsInto(rows[k], s) :: rows[k]
  }

  predicate PointsInto(t: Token, s: set<nat>) {
    t.authTokenId.Some? && t.authTokenId.value in s
  }

  /** Taking away whole pairs leaves only whole pairs. */
  lemma {:induction false} RemovePairsKeepsPaired(rows: Rows, s: set<nat>)
    requires Paired(rows)
    requires forall k :: k in s && k in rows ==> IsAuthToken(rows[k])
    ensures Paired(RemovePairs(rows, s))
  {
    var r := RemovePairs(rows, s);
    forall k | k in r ensures HalfOfPair(r, k) {
      assert HalfOfPair(rows, k);
      var t := rows[k];
      if IsAuthToken(t) {
        var c :| c in rows && IsRefreshToken(rows[c]) && rows[c].authTokenId == Some(k);
        assert c in r;
      } else {
        var p := t.authTokenId.value;
        assert p in r;
      }
    }
  }

  /** Under the invariant, removing the pair of auth record a removes exactly a and its refresh record. */
  lemma {:induction false} RemoveOnePair(rows: Rows, a: nat)
    requires Paired(rows) && a in rows && IsAuthToken(rows[a])
    ensures RemovePairs(rows, {a}) == rows - {a, Partner(rows, a)}
  {
    var p := Partner(rows, a);
    forall k | k in rows && k != a && PointsInto(rows[k], {a}) ensures k == p {
    }
    assert RemovePairs(rows, {a}).Keys == (rows - {a, p}).Keys;
  }

  /**
   * `invalidateWithCascade` on either half of a pair removes both halves and
   * no other record, and the store still holds whole pairs only.
   */
  lemma {:induction false} CascadeRemovesPair(rows: Rows, id: nat)
    requires Paired(rows) && id in rows
    ensures Cascade(rows, id, rows[id]) == rows - {id, Partner(rows, id)}
    ensures Cascade(rows, id, rows[id]) == RemovePairs(rows, {PairAuth(rows, id)})
    ensures Paired(Cascade(rows, id, rows[id]))
  {
    var a := PairAuth(rows, id);
    RemoveOnePair(rows, a);
    if IsAuthToken(rows[id]) {
      CascadeRemovesAuthPair(rows, id);
    } else {
      CascadeRemovesRefreshPair(rows, id);
    }
    RemovePairsKeepsPaired(rows, {a});
  }

  lemma {:induction false} CascadeRemovesAuthPair(rows: Rows, id: nat)
    requires Paired(rows) && id in rows && IsAuthToken(rows[id])
    ensures Cascade(rows, id, rows[id]) == rows - {id, Partner(rows, id)}
  {
    var p := Partner(rows, id);
    var c := Cascade(rows, id, rows[id]);
    CascadeOfAuth(rows, id, rows[id]);
    forall k | k in rows && k != id && rows[k].authTokenId == Some(id) ensures k == p {
    }
    assert c.Keys == (rows - {id, p}).Keys;
  }

  lemma {:induction false} CascadeRemovesRefreshPair(rows: Rows, id: nat)
    requires Paired(rows) && id in rows && !IsAuthToken(rows[id])
    ensures Cascade(rows, id, rows[id]) == rows - {id, Partner(rows, id)}
    ensures Partner(rows, PairAuth(rows, id)) == id
  {
    var p := Partner(rows, id);
    var c := Cascade(rows, id, rows[id]);
    CascadeOfOther(rows, id, rows[id]);
    assert c.Keys == (rows - {id, p}).Keys;
  }

  // ---------------------------------------------------------------------
  // issueTokenPair
  // ---------------------------------------------------------------------

  /** The rows after issuing a pair whose auth record gets id a and whose refresh record gets a + 1. */
  function WithPair(hash: string -> Digest, rows: Rows, a: nat, user: nat, abilities: seq<string>,
                    now: int, accessSecret: string, refreshSecret: string): Rows
  {
    rows[a := AuthRecord(hash, user, accessSecret, abilities, Some(AddMinutes(now, ACCESS_TOKEN_EXPIRY_IN_MINUTES)))]
        [a + 1 := RefreshRecord(hash, a, refreshSecret, Some(AddMinutes(now, REFRESH_TOKEN_EXPIRY_IN_MINUTES)))]
  }

  /**
   * Issuing into fresh ids adds exactly two records and changes nothing else:
   * an auth record for the user with the abilities, expiring in 15 minutes,
   * and a refresh record pointing at it, expiring in 30 days; whole pairs stay whole.
   */
  lemma {:induction false} IssuedPair(hash: string -> Digest, rows: Rows, a: nat, user: nat, abilities: seq<string>,
                                      now: int, accessSecret: string, refreshSecret: string)
    requires forall k :: k in rows ==> k < a
    ensures var r := WithPair(hash, rows, a, user, abilities, now, accessSecret, refreshSecret);
      && r.Keys == rows.Keys + {a, a + 1}
      && a !in rows && a + 1 !in rows
      && (forall k :: k in rows ==> r[k] == rows[k])
      && IsAuthToken(r[a]) && r[a].owner == OwnerUser(user) && r[a].authTokenId.None?
      && r[a].abilities == abilities && r[a].tokenHash == hash(accessSecret)
      && r[a].expiresAt == Some(now + 15 * 60_000)
      && IsRefreshToken(r[a + 1]) && r[a + 1].owner == OwnerToken(a) && r[a + 1].authTokenId == Some(a)
      && r[a + 1].abilities == ["refresh-auth-token"] && r[a + 1].tokenHash == hash(refreshSecret)
      && r[a + 1].expiresAt == Some(now + 30 * 24 * 60 * 60_000)
      && (Paired(rows) ==> Paired(r) && Partner(r, a) == a + 1)
  {
    var r := WithPair(hash, rows, a, user, abilities, now, accessSecret, refreshSecret);
    if Paired(rows) {
      forall k | k in r ensures HalfOfPair(r, k) {
        if k == a {
          assert IsRefreshToken(r[a + 1]) && r[a + 1].authTokenId == Some(a);
        } else if k != a + 1 {
          assert HalfOfPair(rows, k);
          if IsAuthToken(rows[k]) {
            var c :| c in rows && IsRefreshToken(rows[c]) && rows[c].authTokenId == Some(k);
            assert r[c] == rows[c];
          }
        }
      }
      forall c1, c2 | c1 in r && c2 in r && r[c1].authTokenId.Some? && r[c1].authTokenId == r[c2].authTokenId
        ensures c1 == c2
      {
        if c1 in rows && c2 in rows {
          assert OneRefreshPerAuth(rows);
        }
      }
      assert Paired(r);
      assert OneRefreshPerAuth(r);
    }
  }

  /**
   * `issueTokenPair($user, $abilities)`: in one transaction, an auth token
   * with the abilities expiring in 15 minutes, then a refresh token issued
   * through it expiring in 30 days.
   */
  method IssueTokenPair(table: TokenTable, user: nat, now: int, accessSecret: string, refreshSecret: string,
                        abilities: seq<string> := DEFAULT_ABILITIES)
    returns (pair: TokenPair)
    requires table.Valid()
    modifies table
    ensures table.Valid()
    ensures pair.access.id == old(table.nextId) && pair.refresh.id == old(table.nextId) + 1
    ensures table.nextId == old(table.nextId) + 2
    ensures table.rows == WithPair(table.hash, old(table.rows), old(table.nextId), user, abilities,
                                   now, accessSecret, refreshSecret)
    ensures pair.access.accessToken == table.rows[pair.access.id]
    ensures pair.refresh.accessToken == table.rows[pair.refresh.id]
    ensures pair.access.plainTextToken == PlainText(pair.access.id, accessSecret)
    ensures pair.refresh.plainTextToken == PlainText(pair.refresh.id, refreshSecret)
    ensures Paired(old(table.rows)) ==> Paired(table.rows)
  {
    var access := IssueAuthToken(table, user, accessSecret, abilities,
                                 Some(AddMinutes(now, ACCESS_TOKEN_EXPIRY_IN_MINUTES)));
    var refresh := IssueRefreshToken(table, access.id, refreshSecret,
                                     Some(AddMinutes(now, REFRESH_TOKEN_EXPIRY_IN_MINUTES)));
    pair := TokenPair(access, refresh);
    IssuedPair(table.hash, old(table.rows), access.id, user, abilities, now, accessSecret, refreshSecret);
  }

  // ---------------------------------------------------------------------
  // refreshTokenPair
  // ---------------------------------------------------------------------

  /** What a rotation will do: the refresh record it consumes, the abilities it carries over, the user. */
  datatype Rotation = Rotation(id: nat, abilities: seq<string>, user: nat)

  /**
   * The decisions `refreshTokenPair` takes before writing: the presented text
   * must resolve to an unexpired refresh record; its `authToken` gives the
   * abilities and its `tokenable->tokenable` the user.
   */
  function PlanRotation(hash: string -> Digest, rows: Rows, plain: string, now: int): Result<Rotation, Failure> {
    match FindToken(hash, rows, plain)
    case None => Err(INVALID_REFRESH_TOKEN)
    case Some(id) =>
      var t := rows[id];
      if !IsRefreshToken(t) || IsExpired(t, now) then Err(INVALID_REFRESH_TOKEN)
      else
        match AuthTokenOf(rows, t)
        case None => Err(BrokenRelation)
        case Some(a) =>
          if !t.owner.OwnerToken? || t.owner.tid !in rows || !rows[t.owner.tid].owner.OwnerUser? then
            Err(BrokenRelation)
          else
            Ok(Rotation(id, rows[a].abilities, rows[t.owner.tid].owner.uid))
  }

  /** The rows after a planned rotation: the old pair cascaded away, a new pair issued at a. */
  function Rotated(hash: string -> Digest, rows: Rows, p: Rotation, a: nat, now: int,
                   accessSecret: string, refreshSecret: string): Rows
    requires p.id in rows
  {
    WithPair(hash, Cascade(rows, p.id, rows[p.id]), a, p.user, p.abilities, now, accessSecret, refreshSecret)
  }

  /**
   * Under the invariant a rotation fails exactly when the text does not
   * resolve, or resolves to a record that is not a refresh token or is
   * expired, and then with InvalidArgument("Invalid refresh token"); it never
   * trips over a missing relation. A successful plan carries the abilities
   * of the consumed pair's auth record and the user owning it.
   */
  lemma {:induction false} PlanRotationOfPaired(hash: string -> Digest, rows: Rows, plain: string, now: int)
    requires Paired(rows)
    ensures var found := FindToken(hash, rows, plain);
      var valid := found.Some? && IsRefreshToken(rows[found.value]) && !IsExpired(rows[found.value], now);
      && (!valid <==> PlanRotation(hash, rows, plain, now) == Err(INVALID_REFRESH_TOKEN))
      && (valid ==> PlanRotation(hash, rows, plain, now).Ok?)
      && (valid ==>
            var p := PlanRotation(hash, rows, plain, now).value;
            var auth := Partner(rows, found.value);
            && p.id == found.value
            && p.abilities == rows[auth].abilities
            && rows[auth].owner == OwnerUser(p.user))
  {
    var found := FindToken(hash, rows, plain);
    if found.Some? {
      assert HalfOfPair(rows, found.value);
      if IsRefreshToken(rows[found.value]) {
        var a := rows[found.value].authTokenId.value;
        assert HalfOfPair(rows, a);
      }
    }
  }

  /**
   * A successful rotation removes both records of the consumed pair, issues a
   * new whole pair with the same abilities for the same user, and keeps
   * every other record.
   */
  lemma {:induction false} RotationReplacesPair(hash: string -> Digest, rows: Rows, plain: string, now: int, a: nat,
                                                accessSecret: string, refreshSecret: string)
    requires Paired(rows) && forall k :: k in rows ==> k < a
    requires PlanRotation(hash, rows, plain, now).Ok?
    ensures var p := PlanRotation(hash, rows, plain, now).value;
      var auth := Partner(rows, p.id);
      var r := Rotated(hash, rows, p, a, now, accessSecret, refreshSecret);
      && p.id !in r && auth !in r
      && r.Keys == rows.Keys - {p.id, auth} + {a, a + 1}
      && (forall k :: k in rows && k != p.id && k != auth ==> r[k] == rows[k])
      && r[a].abilities == rows[auth].abilities
      && rows[auth].owner == r[a].owner
      && Paired(r) && Partner(r, a) == a + 1
  {
    var p := PlanRotation(hash, rows, plain, now).value;
    PlanRotationOfPaired(hash, rows, plain, now);
    var auth := Partner(rows, p.id);
    CascadeRemovesPair(rows, p.id);
    var left := Cascade(rows, p.id, rows[p.id]);
    IssuedPair(hash, left, a, p.user, p.abilities, now, accessSecret, refreshSecret);
  }

  /**
   * Rotation is single use: once a rotation has consumed a refresh text, the
   * same text is rejected as an invalid refresh token, at any time.
   */
  lemma {:induction false} RotationIsSingleUse(hash: string -> Digest, rows: Rows, plain: string, now: int, later: int,
                                               a: nat, accessSecret: string, refreshSecret: string)
    requires forall k :: k in rows ==> k < a
    requires PlanRotation(hash, rows, plain, now).Ok?
    ensures var r := Rotated(hash, rows, PlanRotation(hash, rows, plain, now).value, a, now, accessSecret, refreshSecret);
      PlanRotation(hash, r, plain, later) == Err(INVALID_REFRESH_TOKEN)
  {
    var p := PlanRotation(hash, rows, plain, now).value;
    var r := Rotated(hash, rows, p, a, now, accessSecret, refreshSecret);
    var again := FindToken(hash, r, plain);
    if again.Some? {
      FindTokenNamesOneId(hash, rows, r, plain);
    }
  }

  /**
   * `refreshTokenPair($refreshToken)`: reject a text that does not resolve to
   * an unexpired refresh token; otherwise, in one transaction, read the
   * abilities of its auth token and its user, cascade the old pair away and
   * issue a new pair. A failure leaves the store as it was.
   */
  method RefreshTokenPair(table: TokenTable, plain: string, now: int, accessSecret: string, refreshSecret: string)
    returns (result: Result<TokenPair, Failure>)
    requires table.Valid()
    modifies table
    ensures table.Valid()
    ensures var plan := PlanRotation(table.hash, old(table.rows), plain, now);
      match plan
      case Err(e) =>
        result == Err(e) && table.rows == old(table.rows) && table.nextId == old(table.nextId)
      case Ok(p) =>
        && p.id in old(table.rows)
        && result.Ok?
        && table.rows == Rotated(table.hash, old(table.rows), p, old(table.nextId), now, accessSecret, refreshSecret)
        && table.nextId == old(table.nextId) + 2
        && result.value.access.id == old(table.nextId) && result.value.refresh.id == old(table.nextId) + 1
        && result.value.access.plainTextToken == PlainText(old(table.nextId), accessSecret)
        && result.value.refresh.plainTextToken == PlainText(old(table.nextId) + 1, refreshSecret)
        && result.value.access.accessToken == table.rows[old(table.nextId)]
    ensures Paired(old(table.rows)) ==> Paired(table.rows)
  {
    var found := FindToken(table.hash, table.rows, plain);
    if found.None? || !IsRefreshToken(table.rows[found.value]) || IsExpired(table.rows[found.value], now) {
      return Err(INVALID_REFRESH_TOKEN);
    }
    var id := found.value;
    var token := table.rows[id];
    // $token->authToken->abilities
    var auth := AuthTokenOf(table.rows, token);
    if auth.None? {
      return Err(BrokenRelation);
    }
    var abilities := table.rows[auth.value].abilities;
    // $token->tokenable->tokenable
    if !token.owner.OwnerToken? || token.owner.tid !in table.rows || !table.rows[token.owner.tid].owner.OwnerUser? {
      return Err(BrokenRelation);
    }
    var user := table.rows[token.owner.tid].owner.uid;
    ghost var plan := Rotation(id, abilities, user);
    assert PlanRotation(table.hash, old(table.rows), plain, now) == Ok(plan);

    table.InvalidateWithCascade(id, token);
    var pair := IssueTokenPair(table, user, now, accessSecret, refreshSecret, abilities);
    result := Ok(pair);

    if Paired(old(table.rows)) {
      RotationReplacesPair(table.hash, old(table.rows), plain, now, old(table.nextId), accessSecret, refreshSecret);
    }
  }

  // ---------------------------------------------------------------------
  // revokeTokenPair
  // ---------------------------------------------------------------------

  /**
   * `revokeTokenPair($token)`: resolve the text and cascade its record away.
   * A text that does not resolve makes the source call a method on null.
   */
  method RevokeTokenPair(table: TokenTable, plain: string) returns (outcome: Outcome<Failure>)
    requires table.Valid()
    modifies table
    ensures table.Valid() && table.nextId == old(table.nextId)
    ensures var found := FindToken(table.hash, old(table.rows), plain);
      match found
      case None => outcome == Fail(BrokenRelation) && table.rows == old(table.rows)
      case Some(id) =>
        && outcome == Pass
        && table.rows == Cascade(old(table.rows), id, old(table.rows)[id])
        && (Paired(old(table.rows)) ==>
              && table.rows == old(table.rows) - {id, Partner(old(table.rows), id)}
              && Paired(table.rows))
  {
    var found := FindToken(table.hash, table.rows, plain);
    if found.None? {
      return Fail(BrokenRelation);
    }
    table.InvalidateWithCascade(found.value, table.rows[found.value]);
    outcome := Pass;
    if Paired(old(table.rows)) {
      CascadeRemovesPair(old(table.rows), found.value);
    }
  }

  // ---------------------------------------------------------------------
  // Walking an owner's tokens with each()
  // ---------------------------------------------------------------------

  /** The rows left after `invalidateWithCascade` on each listed record, in order, as loaded beforehand. */
  function CascadeEach(rows: Rows, ids: seq<nat>, loaded: Rows): Rows
    requires forall i :: 0 <= i < |ids| ==> ids[i] in loaded
  {
    if ids == [] then rows
    else
      var last := ids[|ids| - 1];
      Cascade(CascadeEach(rows, ids[..|ids| - 1], loaded), last, loaded[last])
  }

  /** Cascading each listed record leaves none of them and changes no surviving row. */
  lemma {:induction false} CascadeEachRemovesListed(rows: Rows, ids: seq<nat>, loaded: Rows)
    requires forall i :: 0 <= i < |ids| ==> ids[i] in loaded
    ensures forall k :: k in CascadeEach(rows, ids, loaded) ==> k in rows && CascadeEach(rows, ids, loaded)[k] == rows[k]
    ensures forall i :: 0 <= i < |ids| ==> ids[i] !in CascadeEach(rows, ids, loaded)
  {
    if ids != [] {
      var init := ids[..|ids| - 1];
      CascadeEachRemovesListed(rows, init, loaded);
      forall i | 0 <= i < |ids| - 1 ensures ids[i] !in CascadeEach(rows, ids, loaded) {
        assert ids[i] == init[i];
      }
    }
  }

  /** The ids a list holds. */
  function IdSet(ids: seq<nat>): set<nat> {
    set i | 0 <= i < |ids| :: ids[i]
  }

  lemma {:induction false} IdSetInit(ids: seq<nat>)
    requires ids != []
    ensures IdSet(ids) == IdSet(ids[..|ids| - 1]) + {ids[|ids| - 1]}
  {
    var init := ids[..|ids| - 1];
    forall k | k in IdSet(ids) ensures k in IdSet(init) + {ids[|ids| - 1]} {
      var i :| 0 <= i < |ids| && ids[i] == k;
      if i < |init| { assert init[i] == k; }
    }
    forall k | k in IdSet(init) ensures k in IdSet(ids) {
      var i :| 0 <= i < |init| && init[i] == k;
      assert ids[i] == k;
    }
  }

  /** Cascading one more auth record after removing the pairs of s removes the pairs of s and that record. */
  lemma {:induction false} CascadeAfterRemove(rows: Rows, s: set<nat>, last: nat)
    requires last in rows && IsAuthToken(rows[last])
    ensures Cascade(RemovePairs(rows, s), last, rows[last]) == RemovePairs(rows, s + {last})
  {
    var before := RemovePairs(rows, s);
    CascadeOfAuth(before, last, rows[last]);
    assert Cascade(before, last, rows[last]).Keys == RemovePairs(rows, s + {last}).Keys;
  }

  /** Cascading a list of auth records removes exactly their pairs, whatever the order. */
  lemma {:induction false} CascadeEachOfAuth(rows: Rows, ids: seq<nat>)
    requires forall i :: 0 <= i < |ids| ==> ids[i] in rows && IsAuthToken(rows[ids[i]])
    ensures CascadeEach(rows, ids, rows) == RemovePairs(rows, IdSet(ids))
  {
    if ids == [] {
      assert IdSet(ids) == {};
      assert RemovePairs(rows, {}) == rows;
    } else {
      var init := ids[..|ids| - 1];
      var last := ids[|ids| - 1];
      CascadeEachOfAuth(rows, init);
      IdSetInit(ids);
      CascadeAfterRemove(rows, IdSet(init), last);
    }
  }

  /**
   * Laravel's `each(fn ($token) => $token->invalidateWithCascade())` over the
   * listed ids: the records are loaded first, then cascaded one after the
   * other.
   */
  method InvalidateEach(table: TokenTable, ids: seq<nat>)
    requires table.Valid()
    requires forall i :: 0 <= i < |ids| ==> ids[i] in table.rows
    modifies table
    ensures table.Valid() && table.nextId == old(table.nextId)
    ensures table.rows == CascadeEach(old(table.rows), ids, old(table.rows))
  {
    var loaded := table.rows;
    var i := 0;
    while i < |ids|
      invariant 0 <= i <= |ids|
      invariant table.Valid() && table.nextId == old(table.nextId)
      invariant table.rows == CascadeEach(loaded, ids[..i], loaded)
    {
      table.InvalidateWithCascade(ids[i], loaded[ids[i]]);
      assert ids[..i + 1][..i] == ids[..i];
      i := i + 1;
    }
    assert ids[..i] == ids;
  }

  // ---------------------------------------------------------------------
  // revokeOtherTokenPairs and revokeAllUserTokenPairs
  // ---------------------------------------------------------------------

  /**
   * The auth record whose pair `revokeOtherTokenPairs` keeps: the resolved
   * record itself, or its auth token when it is a refresh token, with the
   * owner whose tokens are walked.
   */
  function KeptPair(hash: string -> Digest, rows: Rows, plain: string): (r: Result<(nat, Owner), Failure>)
    ensures r.Ok? ==> r.value.0 in rows && r.value.1 == rows[r.value.0].owner
  {
    match FindToken(hash, rows, plain)
    case None => Err(BrokenRelation)
    case Some(id) =>
      if IsRefreshToken(rows[id]) then
        match AuthTokenOf(rows, rows[id])
        case None => Err(BrokenRelation)
        case Some(a) => Ok((a, rows[a].owner))
      else Ok((id, rows[id].owner))
  }

  /**
   * Under the invariant, revoking the other pairs of the owner of auth record
   * keep removes exactly those pairs: keep and its refresh record survive,
   * no other record of that owner survives, nor a refresh record of one of
   * them, and everything else is left alone.
   */
  lemma {:induction false} RevokeOthersMeaning(rows: Rows, keep: nat, n: nat)
    requires Paired(rows) && forall k :: k in rows ==> k < n
    requires keep in rows && IsAuthToken(rows[keep])
    ensures var owner := rows[keep].owner;
      var ids := OwnedIds(rows, owner, Some(keep), n);
      var gone := set k | k in rows && k != keep && rows[k].owner == owner;
      var r := CascadeEach(rows, ids, rows);
      && r == RemovePairs(rows, gone)
      && Paired(r)
      && keep in r && Partner(rows, keep) in r
      && (forall k :: k in r && k != keep ==> r[k].owner != owner)
      && (forall k :: k in rows && k !in gone && !PointsInto(rows[k], gone) ==> k in r)
  {
    var owner := rows[keep].owner;
    var ids := OwnedIds(rows, owner, Some(keep), n);
    var gone := set k | k in rows && k != keep && rows[k].owner == owner;
    OwnedIdsMembers(rows, owner, Some(keep), n);
    assert HalfOfPair(rows, keep);
    forall i | 0 <= i < |ids| ensures ids[i] in rows && IsAuthToken(rows[ids[i]]) {
      assert ids[i] in ids;
      assert HalfOfPair(rows, ids[i]);
    }
    assert IdSet(ids) == gone by {
      forall k | k in gone ensures k in ids {}
    }
    CascadeEachOfAuth(rows, ids);
    RemovePairsKeepsPaired(rows, gone);
    var p := Partner(rows, keep);
    assert HalfOfPair(rows, p);
  }

  /**
   * Under the invariant, revoking all pairs of a user leaves that user owning
   * nothing, no refresh record of theirs behind, and every other record.
   */
  lemma {:induction false} RevokeAllMeaning(rows: Rows, user: nat, n: nat)
    requires Paired(rows) && forall k :: k in rows ==> k < n
    ensures var ids := OwnedIds(rows, OwnerUser(user), None, n);
      var gone := set k | k in rows && rows[k].owner == OwnerUser(user);
      var r := CascadeEach(rows, ids, rows);
      && r == RemovePairs(rows, gone)
      && Paired(r)
      && (forall k :: k in r ==> r[k].owner != OwnerUser(user) && !PointsInto(r[k], gone))
      && (forall k :: k in rows && k !in gone && !PointsInto(rows[k], gone) ==> k in r)
  {
    var ids := OwnedIds(rows, OwnerUser(user), None, n);
    var gone := set k | k in rows && rows[k].owner == OwnerUser(user);
    OwnedIdsMembers(rows, OwnerUser(user), None, n);
    forall i | 0 <= i < |ids| ensures ids[i] in rows && IsAuthToken(rows[ids[i]]) {
      assert ids[i] in ids;
      assert HalfOfPair(rows, ids[i]);
    }
    assert IdSet(ids) == gone by {
      forall k | k in gone ensures k in ids {}
    }
    CascadeEachOfAuth(rows, ids);
    RemovePairsKeepsPaired(rows, gone);
  }

  /**
   * `revokeOtherTokenPairs($token)`: walk from a refresh token to its auth
   * token, then cascade away every other token of that token's owner.
   */
  method RevokeOtherTokenPairs(table: TokenTable, plain: string) returns (outcome: Outcome<Failure>)
    requires table.Valid()
    modifies table
    ensures table.Valid() && table.nextId == old(table.nextId)
    ensures match KeptPair(table.hash, old(table.rows), plain)
      case Err(e) => outcome == Fail(e) && table.rows == old(table.rows)
      case Ok((keep, owner)) =>
        && outcome == Pass
        && table.rows == CascadeEach(old(table.rows), OwnedIds(old(table.rows), owner, Some(keep), table.nextId), old(table.rows))
        && (forall k :: k in table.rows && k != keep ==> table.rows[k].owner != owner)
        && (Paired(old(table.rows)) ==>
              && table.rows == RemovePairs(old(table.rows), set k | k in old(table.rows) && k != keep && old(table.rows)[k].owner == owner)
              && Paired(table.rows)
              && keep in table.rows && Partner(old(table.rows), keep) in table.rows)
  {
    var found := FindToken(table.hash, table.rows, plain);
    if found.None? {
      return Fail(BrokenRelation);
    }
    var id := found.value;
    if IsRefreshToken(table.rows[id]) {
      var auth := AuthTokenOf(table.rows, table.rows[id]);
      if auth.None? {
        return Fail(BrokenRelation);
      }
      id := auth.value;
    }
    var ids := table.TokensOf(table.rows[id].owner, Some(id));
    InvalidateEach(table, ids);
    outcome := Pass;
    CascadeEachRemovesListed(old(table.rows), ids, old(table.rows));
    forall k | k in table.rows && k != id ensures table.rows[k].owner != old(table.rows)[id].owner {
      assert k !in ids;
    }
    if Paired(old(table.rows)) {
      assert HalfOfPair(old(table.rows), found.value);
      RevokeOthersMeaning(old(table.rows), id, table.nextId);
    }
  }

  /** `revokeAllUserTokenPairs($user)`: cascade away every token the user owns. */
  method RevokeAllUserTokenPairs(table: TokenTable, user: nat)
    requires table.Valid()
    modifies table
    ensures table.Valid() && table.nextId == old(table.nextId)
    ensures table.rows == CascadeEach(old(table.rows), OwnedIds(old(table.rows), OwnerUser(user), None, table.nextId), old(table.rows))
    ensures forall k :: k in table.rows ==> table.rows[k].owner != OwnerUser(user)
    ensures Paired(old(table.rows)) ==>
      && table.rows == RemovePairs(old(table.rows), set k | k in old(table.rows) && old(table.rows)[k].owner == OwnerUser(user))
      && Paired(table.rows)
  {
    var ids := table.TokensOf(OwnerUser(user), None);
    InvalidateEach(table, ids);
    CascadeEachRemovesListed(old(table.rows), ids, old(table.rows));
    forall k | k in table.rows ensures table.rows[k].owner != OwnerUser(user) {
      assert k !in ids;
    }
    if Paired(old(table.rows)) {
      RevokeAllMeaning(old(table.rows), user, table.nextId);
    }
  }

  // ---------------------------------------------------------------------
  // each() as Laravel pages it
  // ---------------------------------------------------------------------

  /** The page size `each()` hands to `chunk`. */
  const EACH_CHUNK_SIZE: nat := 1000

  /** Cascading at least one listed record of the table shrinks it. */
  lemma {:induction false} CascadeEachShrinks(rows: Rows, ids: seq<nat>)
    requires ids != [] && forall i :: 0 <= i < |ids| ==> ids[i] in rows
    ensures |CascadeEach(rows, ids, rows)| < |rows|
  {
    var r := CascadeEach(rows, ids, rows);
    CascadeEachRemovesListed(rows, ids, rows);
    var gone := rows.Keys - r.Keys;
    assert ids[0] in gone;
    assert rows.Keys == r.Keys + gone;
    assert r.Keys * gone == {};
    assert |rows.Keys| == |r.Keys| + |gone|;
  }

  /**
   * `each($callback, size)` as `chunk` runs it: ordered by id, the page is
   * fetched from the query as it stands, at offset page * size; an empty
   * page ends the walk, and a short page is the last one. Pages are fetched
   * from a table the previous pages have cascaded rows out of.
   */
  function ChunkedEach(rows: Rows, owner: Owner, except: Option<nat>, n: nat, size: nat, page: nat): Rows
    requires size > 0
    decreases |rows|
  {
    var ids := OwnedIds(rows, owner, except, n);
    var lo := page * size;
    if lo >= |ids| then rows
    else
      var hi := if lo + size <= |ids| then lo + size else |ids|;
      var chunk := ids[lo..hi];
      assert forall i :: 0 <= i < |chunk| ==> chunk[i] == ids[lo + i];
      var r := CascadeEach(rows, chunk, rows);
      if |chunk| < size then r
      else
        CascadeEachShrinks(rows, chunk);
        ChunkedEach(r, owner, except, n, size, page + 1)
  }

  /** When x is the only record owner may list, OwnedIds lists x alone, or nothing if x is excepted or not below n. */
  lemma {:induction false} OwnedIdsOfOne(rows: Rows, owner: Owner, except: Option<nat>, n: nat, x: nat)
    requires forall k :: k in rows && rows[k].owner == owner && Some(k) != except ==> k == x
    ensures OwnedIds(rows, owner, except, n) ==
      if x < n && x in rows && rows[x].owner == owner && Some(x) != except then [x] else []
  {
    if n > 0 {
      OwnedIdsOfOne(rows, owner, except, n - 1, x);
    }
  }

  /** Under the invariant every record a user owns is an auth record that points nowhere. */
  lemma {:induction false} UserRowsAreAuth(rows: Rows, user: nat)
    requires Paired(rows)
    ensures forall k :: k in rows && rows[k].owner == OwnerUser(user) ==> IsAuthToken(rows[k]) && rows[k].authTokenId.None?
  {
    forall k | k in rows && rows[k].owner == OwnerUser(user) ensures IsAuthToken(rows[k]) && rows[k].authTokenId.None? {
      assert HalfOfPair(rows, k);
    }
  }

  /**
   * With the owner's records all auth records that point nowhere, cascading
   * the first size of size + 1 listed records leaves the last one, unchanged,
   * as the only record the owner still has.
   */
  lemma {:induction false} FirstPageLeavesLast(rows: Rows, owner: Owner, n: nat, size: nat)
    requires forall k :: k in rows ==> k < n
    requires forall k :: k in rows && rows[k].owner == owner ==> IsAuthToken(rows[k]) && rows[k].authTokenId.None?
    requires |OwnedIds(rows, owner, None, n)| == size + 1
    ensures var ids := OwnedIds(rows, owner, None, n);
      var r1 := CascadeEach(rows, ids[0..size], rows);
      && ids[size] in r1 && r1[ids[size]] == rows[ids[size]]
      && forall k :: k in r1 && r1[k].owner == owner ==> k == ids[size]
  {
    var ids := OwnedIds(rows, owner, None, n);
    OwnedIdsMembers(rows, owner, None, n);
    var last := ids[size];
    var chunk := ids[0..size];
    assert forall i :: 0 <= i < |chunk| ==> chunk[i] == ids[i];
    forall i | 0 <= i < |chunk| ensures chunk[i] in rows && IsAuthToken(rows[chunk[i]]) {
      assert ids[i] in ids;
    }
    CascadeEachOfAuth(rows, chunk);
    var r1 := CascadeEach(rows, chunk, rows);
    assert ids[size] in ids;
    assert last !in IdSet(chunk) by {
      forall i | 0 <= i < |chunk| ensures chunk[i] != last {
        assert ids[i] < ids[size];
      }
    }
    assert last in r1;
    forall k | k in r1 && r1[k].owner == owner ensures k == last {
      assert k in rows && rows[k].owner == owner && k !in IdSet(chunk);
      assert forall i :: 0 <= i < size ==> ids[i] != k;
      assert k in ids;
      var j :| 0 <= j < |ids| && ids[j] == k;
      assert j == size;
    }
  }

  /** A full first page is cascaded and the walk goes on at the next page. */
  lemma {:induction false} ChunkedEachFullFirstPage(rows: Rows, owner: Owner, except: Option<nat>, n: nat, size: nat)
    requires size > 0 && |OwnedIds(rows, owner, except, n)| >= size
    ensures var ids := OwnedIds(rows, owner, except, n);
      ChunkedEach(rows, owner, except, n, size, 0) == ChunkedEach(CascadeEach(rows, ids[0..size], rows), owner, except, n, size, 1)
  {
    var ids := OwnedIds(rows, owner, except, n);
    assert ids[0..size] == ids[0 * size .. 0 * size + size];
  }

  /** A page that starts past the end of the list ends the walk. */
  lemma {:induction false} ChunkedEachPastEnd(rows: Rows, owner: Owner, except: Option<nat>, n: nat, size: nat, page: nat)
    requires size > 0 && page * size >= |OwnedIds(rows, owner, except, n)|
    ensures ChunkedEach(rows, owner, except, n, size, page) == rows
  {
  }

  /** The walk over size + 1 records that point nowhere stops after one page and leaves the last. */
  lemma {:induction false} ChunkedEachLeavesLast(rows: Rows, owner: Owner, n: nat, size: nat)
    requires size > 0 && forall k :: k in rows ==> k < n
    requires forall k :: k in rows && rows[k].owner == owner ==> IsAuthToken(rows[k]) && rows[k].authTokenId.None?
    requires |OwnedIds(rows, owner, None, n)| == size + 1
    ensures var last := OwnedIds(rows, owner, None, n)[size];
      var r := ChunkedEach(rows, owner, None, n, size, 0);
      last in r && r[last] == rows[last] && r[last].owner == owner
  {
    var ids := OwnedIds(rows, owner, None, n);
    FirstPageLeavesLast(rows, owner, n, size);
    OwnedIdsMembers(rows, owner, None, n);
    var last := ids[size];
    assert last in ids;
    var r1 := CascadeEach(rows, ids[0..size], rows);
    OwnedIdsOfOne(r1, owner, None, n, last);
    ChunkedEachFullFirstPage(rows, owner, None, n, size);
    ChunkedEachPastEnd(r1, owner, None, n, size, 1);
  }

  /**
   * `revokeAllUserTokenPairs` paged as Laravel pages it misses the newest
   * auth token of a user who holds EACH_CHUNK_SIZE + 1 of them: the first
   * page cascades EACH_CHUNK_SIZE pairs away, and the second page, fetched
   * at offset EACH_CHUNK_SIZE from the single token the user still owns, is
   * empty. RevokeAllMeaning is the walk the method evidently intends.
   */
  lemma {:induction false} ChunkedRevokeAllMissesLast(rows: Rows, user: nat, n: nat)
    requires Paired(rows) && forall k :: k in rows ==> k < n
    requires |OwnedIds(rows, OwnerUser(user), None, n)| == EACH_CHUNK_SIZE + 1
    ensures var last := OwnedIds(rows, OwnerUser(user), None, n)[EACH_CHUNK_SIZE];
      var r := ChunkedEach(rows, OwnerUser(user), None, n, EACH_CHUNK_SIZE, 0);
      last in r && r[last] == rows[last] && r[last].owner == OwnerUser(user)
  {
    UserRowsAreAuth(rows, user);
    ChunkedEachLeavesLast(rows, OwnerUser(user), n, EACH_CHUNK_SIZE);
  }
}
