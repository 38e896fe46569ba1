# larang-api token pairs, response envelope and error table in Dafny

This project models the authentication core of the larang-api Laravel
application and proves properties of that model.

**Tokens.** Sign-in issues a *token pair*:
- a short-lived **auth** token, which expires after 15 minutes;
- a long-lived **refresh** token, which expires after 30 days, carries only the `refresh-auth-token` ability and points at its auth token through `auth_token_id`.

Both are rows of Sanctum's `personal_access_tokens` table. A refresh token can be exchanged exactly once for a new pair. Revoking a token cascades to the other half of its pair.

**Responses.** Every response is wrapped in a fixed JSON envelope `{success, data, meta, error}`. Before it is sent, `ApiResponseService` rewrites every array key to camelCase, and does so recursively through arrays, models, collections, resources, dates and enums. Exceptions are rendered by a table in the application bootstrap, and the `ApiExceptions` enum maps its backing values to HTTP statuses.

**Modules,** one per file:

- `Wrappers` — `Option`, `Result` and `Outcome`.
- `Decimal` — PHP's int-to-string, a zero-padded `sprintf`, and the `(int)` cast of a string, on unbounded integers.
- `PersonalAccessTokens` — the token row.
  - Its type predicates, expiry and relations.
  - The plain text `<id>|<secret>` and its lookup (`findToken`).
  - The `invalidateWithCascade` deletion, as a function of the rows.
  - A `TokenTable` class holding the rows and the auto-increment counter. Its methods insert, cascade away, and list an owner's tokens.
- `AuthTokens`, `RefreshTokens` — `issueAuthToken` and `issueRefreshToken`, the user side and the token side of issuing.
- `TokenService` — issuing, rotating and revoking pairs, as methods on the table.
  - Each method is proved against a function of the old rows.
  - Each method is proved to keep the store invariant `Paired`: every row is one half of a complete pair, and the pairs are linked one to one.
- `ApiResponse` — the PHP value tree.
  - Ordered arrays with PHP's integer-key normalisation and last-write-wins assignment.
  - The camelCase transform as a specification function, with the key rewrite `Str::camel` as a parameter.
  - The envelopes.
  - The `ApiResponseService` class, whose key cache is its only state.
- `Exceptions` — the `ApiExceptions` enum and the `ApiException` value.
- `ExceptionRendering` — the render table of `bootstrap/app.php`.
- `AccessGate` — the gate that accepts a token only on routes meant for its type.
- `AuthController` — `login`, `refresh` and `responseWithToken`.

**Parameters.** The clock (milliseconds), the random secrets and the SHA-256 hash are parameters. `Str::camel` and the password check `Hash::check` are also parameters. Lemmas that depend on a particular key rewrite state it as a precondition, for example `camel("user_name") == "userName"`.

## Model

| member | source | states |
|---|---|---|
| `PersonalAccessTokens.TypesAreAuthAndRefresh` | app/Models/PersonalAccessToken.php:43-58 | The types are exactly `auth` and `refresh`. No token is both. A token with a listed type is exactly one of the two. |
| `PersonalAccessTokens.ExpiryBoundary` | app/Models/PersonalAccessToken.php:99-102 | A token expiring now is already expired. A token without an expiry never expires. A token expires only once its time is reached, and then stays expired. |
| `PersonalAccessTokens.AuthTokenOf` | app/Models/PersonalAccessToken.php:76-79 | The `authToken` relation yields a record exactly when `auth_token_id` is set and names an existing row, and then yields that row. |
| `PersonalAccessTokens.RefreshTokensOf` | app/Models/PersonalAccessToken.php:89-92 | The `refreshToken` relation ranges over exactly the rows whose `auth_token_id` is the record. Deleting the relation removes exactly this set. |
| `PersonalAccessTokens.SplitPlainText` | app/Support/HasAuthTokens.php:49 | Splitting an issued plain text at its first bar gives back the id's decimal text and the secret. |
| `PersonalAccessTokens.FindToken` | app/Services/TokenService.php:80 | A text resolves only to an existing row. That row's id is the number before the first bar, and its stored hash is the hash of the text after the bar. |
| `PersonalAccessTokens.FindTokenOfPlainText` | app/Services/TokenService.php:80 | An issued text resolves to its record exactly when that record is still stored with the hash of that secret. |
| `PersonalAccessTokens.FindTokenNamesOneId` | app/Services/TokenService.php:80 | A text that resolves in two tables resolves to the same id in both. |
| `PersonalAccessTokens.FindTokenRejectsWrongSecret` | app/Services/TokenService.php:80-84 | A text for a real id with a secret whose hash differs does not resolve. |
| `PersonalAccessTokens.FindTokenNeedsBar` | app/Services/TokenService.php:80-84 | A text without a bar, like `invalid-token`, never resolves. |
| `PersonalAccessTokens.DeleteRefreshTokensOf` | app/Models/PersonalAccessToken.php:133-135 | Deleting the `refreshToken` relation removes exactly the rows that point at the record and keeps every other row unchanged. |
| `PersonalAccessTokens.DeleteAuthTokenOf` | app/Models/PersonalAccessToken.php:136-138 | Deleting the `authToken` relation removes exactly the row named by `auth_token_id` and keeps every other row unchanged. |
| `PersonalAccessTokens.Cascade` | app/Models/PersonalAccessToken.php:131-142 | The cascade only deletes rows, leaves the surviving rows unchanged, and always deletes the record itself. |
| `PersonalAccessTokens.CascadeOfAuth` | app/Models/PersonalAccessToken.php:131-142 | On an auth token the cascade deletes exactly the record and the rows its `refreshToken` relation ranges over. |
| `PersonalAccessTokens.CascadeOfOther` | app/Models/PersonalAccessToken.php:131-142 | On any other token the cascade deletes exactly the record and the auth row it points at. |
| `PersonalAccessTokens.OwnedIdsMembers` | app/Services/TokenService.php:128-130 | The owner's id list is strictly ascending. It holds exactly the owner's ids, minus the excepted one. |
| `PersonalAccessTokens.TokenTable.constructor` | app/Models/PersonalAccessToken.php:43-58 | An empty table whose counter starts at 1. |
| `PersonalAccessTokens.TokenTable.Create` | app/Support/HasAuthTokens.php:42-47 | The row is stored under the next auto-increment id, which was unused, and the counter advances. No other row changes. |
| `PersonalAccessTokens.TokenTable.InvalidateWithCascade` | app/Models/PersonalAccessToken.php:131-142 | The new rows are the cascade of the old rows, and the counter is unchanged. |
| `PersonalAccessTokens.TokenTable.SetLastUsedAt` | app/Models/PersonalAccessToken.php:150 | Recording a last use changes nothing stored. |
| `PersonalAccessTokens.TokenTable.TokensOf` | app/Services/TokenService.php:128-130 | The owner's tokens, minus the excepted one, in ascending id order. Exactly those ids and no others. |
| `AuthTokens.AuthRecord` | app/Support/HasAuthTokens.php:42-47 | An issued auth row has type `auth`, is owned by the user, points nowhere, and stores the secret's hash, the abilities and the expiry. |
| `AuthTokens.IssueAuthToken` | app/Support/HasAuthTokens.php:38-50 | Inserts that row under the next id and returns the row and the text made of the id, a bar and the secret. |
| `RefreshTokens.RefreshRecord` | app/Support/HasRefreshTokens.php:50-56 | An issued refresh row has type `refresh`, is owned by and points at its parent token, carries only `refresh-auth-token`, and stores the hash and the expiry. |
| `RefreshTokens.IssueRefreshToken` | app/Support/HasRefreshTokens.php:46-59 | Inserts that row under the next id and returns the row and its plain text. |
| `TokenService.Partner` | app/Models/PersonalAccessToken.php:76-92 | Under `Paired`, every row has a distinct partner. The partner of an auth row is the refresh row pointing at it, and the partner of a refresh row is the auth row it points at. |
| `TokenService.PairAuth` | app/Models/PersonalAccessToken.php:76-79 | Under `Paired`, every row belongs to a pair whose auth row is either itself or its partner. |
| `TokenService.EmptyTableIsPaired` | app/Models/PersonalAccessToken.php:43-58 | An empty table satisfies the invariant. |
| `TokenService.RemovePairs` | app/Models/PersonalAccessToken.php:131-142 | Exactly the rows that neither are in the set nor point into it survive, and they are unchanged. |
| `TokenService.RemovePairsKeepsPaired` | app/Models/PersonalAccessToken.php:131-142 | Removing whole pairs by their auth rows keeps the invariant. |
| `TokenService.RemoveOnePair` | app/Models/PersonalAccessToken.php:131-142 | Removing the pair of one auth row deletes exactly that row and its partner. |
| `TokenService.CascadeRemovesPair` | app/Models/PersonalAccessToken.php:131-142 | Under the invariant, cascading from either half deletes exactly the pair and keeps the invariant. |
| `TokenService.CascadeRemovesAuthPair` | app/Models/PersonalAccessToken.php:131-142 | Cascading from an auth row deletes exactly it and its refresh row. |
| `TokenService.CascadeRemovesRefreshPair` | app/Models/PersonalAccessToken.php:131-142 | Cascading from a refresh row deletes exactly it and its auth row, and it is its auth row's partner. |
| `TokenService.IssuedPair` | app/Services/TokenService.php:49-63 | Issuing into fresh ids adds exactly two rows and changes nothing else: (1) an auth row for the user, with the abilities, expiring at now + 900000 ms; (2) a refresh row pointing at it, expiring at now + 30 days. Whole pairs stay whole, and the two new rows are partners. |
| `TokenService.IssueTokenPair` | app/Services/TokenService.php:49-63 | The two rows are stored under consecutive fresh ids, each text is its id, a bar and its secret, and the invariant is kept. |
| `TokenService.PlanRotationOfPaired` | app/Services/TokenService.php:78-97 | Under the invariant a rotation fails with the "Invalid refresh token" error exactly when the text does not resolve to an unexpired refresh row. Otherwise it carries over the abilities and the user of that row's auth row. |
| `TokenService.RotationReplacesPair` | app/Services/TokenService.php:86-96 | A rotation deletes both halves of the consumed pair and issues a new whole pair for the same owner with the same abilities. Every other row is unchanged. |
| `TokenService.RotationIsSingleUse` | app/Services/TokenService.php:78-97 | After a rotation, the same refresh text is rejected at any later time. |
| `TokenService.RefreshTokenPair` | app/Services/TokenService.php:78-97 | A rejection leaves the table as it was. A success makes the rows the rotation of the old rows and returns the new texts. The invariant is kept either way. |
| `TokenService.RevokeTokenPair` | app/Services/TokenService.php:107-111 | A resolved text cascades its record away, which under the invariant removes exactly its pair. An unresolved text fails and changes nothing. |
| `TokenService.IdSetInit` | app/Services/TokenService.php:128-130 | The set of a non-empty id list is the set of its prefix plus its last id. |
| `TokenService.CascadeAfterRemove` | app/Models/PersonalAccessToken.php:131-142 | Cascading one more auth row after removing some pairs is the same as removing the pairs of the larger set. |
| `TokenService.CascadeEachRemovesListed` | app/Services/TokenService.php:128-130 | Cascading each listed record leaves none of them, and every surviving row is unchanged. |
| `TokenService.CascadeEachOfAuth` | app/Services/TokenService.php:128-130 | Cascading a list of auth rows one after another removes exactly their pairs. |
| `TokenService.InvalidateEach` | app/Services/TokenService.php:128-130 | The loop leaves the rows that cascading each listed record in turn gives. |
| `TokenService.KeptPair` | app/Services/TokenService.php:122-127 | The kept record is the resolved record, or the auth row of a refresh record. The owner walked is that record's owner. |
| `TokenService.RevokeOthersMeaning` | app/Services/TokenService.php:122-131 | Under the invariant, revoking the other pairs deletes exactly every other token of the owner, together with its refresh row. The kept pair survives, and the invariant is kept. |
| `TokenService.RevokeAllMeaning` | app/Services/TokenService.php:141-144 | Under the invariant, revoking all of a user's pairs leaves the user owning nothing, with no refresh row of theirs behind. Everything else stays, and the invariant is kept. |
| `TokenService.RevokeOtherTokenPairs` | app/Services/TokenService.php:122-131 | Fails, changing nothing, when the text or the relation does not resolve. Otherwise it cascades each other token of the owner away, so the owner keeps only the kept record. Under the invariant the rows are exactly the store without the other pairs, the invariant is kept, and the kept pair survives. |
| `TokenService.RevokeAllUserTokenPairs` | app/Services/TokenService.php:141-144 | Cascades each of the user's tokens away, so the user owns nothing afterwards. Under the invariant the rows are exactly the store without the user's pairs, and the invariant is kept. |
| `TokenService.CascadeEachShrinks` | app/Services/TokenService.php:141-144 | Cascading at least one listed record leaves fewer rows, so the paged walk ends. |
| `TokenService.OwnedIdsOfOne` | app/Services/TokenService.php:141-144 | When one record is all the owner may list, the query lists that record alone. |
| `TokenService.UserRowsAreAuth` | app/Services/TokenService.php:141-144 | Under the invariant every record a user owns is an auth record that points nowhere. |
| `TokenService.FirstPageLeavesLast` | app/Services/TokenService.php:141-144 | Cascading the first `size` of `size + 1` listed auth records leaves the last one unchanged, and it is the only record the owner still has. |
| `TokenService.ChunkedEachFullFirstPage` | app/Services/TokenService.php:141-144 | A full first page is cascaded, and the walk goes on at the next page. |
| `TokenService.ChunkedEachLeavesLast` | app/Services/TokenService.php:141-144 | With `size + 1` records, the paged walk stops after the first page and leaves the last record, still the owner's. |
| `TokenService.ChunkedRevokeAllMissesLast` | app/Services/TokenService.php:141-144 | Paged by 1000, revoking all the pairs of a user with 1001 auth tokens leaves the newest one, still the user's. |
| `AccessGate.GateDecision` | app/Providers/AppServiceProvider.php:31-34 | Never accepts what Sanctum rejected. On a refresh route it accepts exactly refresh tokens, and elsewhere exactly auth tokens. |
| `AccessGate.NoTokenOpensBoth` | app/Providers/AppServiceProvider.php:31-34 | No token opens both a refresh route and another route. |
| `AccessGate.RouteNames` | routes/api/v1.php:10-24 | `auth.token-refresh` is a refresh route. Login, logout, who-am-i and an unnamed route are not. |
| `AccessGate.SuffixIsEnough` | app/Providers/AppServiceProvider.php:32 | Any route name ending in `token-refresh` is treated as a refresh route. |
| `Decimal.FormatNat` | app/Support/HasAuthTokens.php:49 | The decimal text of an id is a non-empty digit string with no leading zero, and its value is the id. |
| `Decimal.FormatInt` | app/Services/ApiResponseService.php:199 | An int's text is its digits, after a minus sign for a negative number. |
| `Decimal.ParseNat` | app/Services/TokenService.php:80 | A text is read as an id exactly when it is non-empty and all digits, and then its value is read. |
| `Decimal.ZeroPad` | app/Services/ApiResponseService.php:199 | The padded text has the number's value, and exactly the width when the number fits. |
| `Decimal.LeadingDigits` | app/Services/ApiResponseService.php:199 | The length of the longest digit prefix. |
| `Decimal.DigitsValueConcat` | app/Services/ApiResponseService.php:199 | Appending digits shifts the value by a power of ten. |
| `Decimal.FormatDigitsValue` | app/Support/HasAuthTokens.php:49 | Formatting and reading back a canonical digit string is the identity. |
| `Decimal.IntCastOfDigits` | app/Services/ApiResponseService.php:199 | The `(int)` cast of a digit string, with or without a minus sign, is its value. |
| `ApiResponse.IndexOf` | app/Services/ApiResponseService.php:137-147 | Gives the first position holding the key, and none exactly when no entry has it. |
| `ApiResponse.Lookup` | app/Services/ApiResponseService.php:172-183 | Gives a value exactly when the key is present. |
| `ApiResponse.AssignFacts` | app/Services/ApiResponseService.php:143 | `$result[$k] = $v` makes the key present with that value and changes no other key's value. It keeps keys distinct, appends a new key, and overwrites an existing one in place. |
| `ApiResponse.AssignAppends` | app/Services/ApiResponseService.php:143 | A new key goes to the end. |
| `ApiResponse.AssignOverwrites` | app/Services/ApiResponseService.php:143 | An existing key keeps its position. |
| `ApiResponse.ArrayKey` | app/Services/ApiResponseService.php:143 | A key becomes an integer key only when it is that integer's canonical text. |
| `ApiResponse.WordIsStringKey` | app/Services/ApiResponseService.php:143 | A key containing a letter stays a string key. |
| `ApiResponse.PaginationMeta` | app/Services/ApiResponseService.php:171-180 | Pagination info is empty exactly when one of `current_page`, `per_page` and `total` is not set. |
| `ApiResponse.TransformEntriesSnoc` | app/Services/ApiResponseService.php:141-144 | One more loop step assigns the rewritten key and the transformed value. |
| `ApiResponse.TransformItemsSnoc` | app/Services/ApiResponseService.php:209 | One more mapped item keeps its key and transforms its value. |
| `ApiResponse.DateTimeIsMicroseconds` | app/Services/ApiResponseService.php:198-200 | A date becomes seconds × 10⁶ + microseconds, and seconds × 10⁶ − microseconds before the epoch. |
| `ApiResponse.DateTimeMicrosValue` | app/Services/ApiResponseService.php:199 | The `(int)` cast of the `Uu` text has that value. |
| `ApiResponse.TransformDate` | app/Services/ApiResponseService.php:198-200 | A date is transformed into the cast of its `Uu` text. |
| `ApiResponse.DigitsThenMicros` | app/Services/ApiResponseService.php:199 | Casting the seconds' digits followed by six microsecond digits gives seconds × 10⁶ + micros, negated after a minus sign. |
| `ApiResponse.SixDigitMicros` | app/Services/ApiResponseService.php:199 | Microseconds pad to exactly six digits. |
| `ApiResponse.TransformLeaves` | app/Services/ApiResponseService.php:116-128 | null and scalars pass through. A backed enum becomes its value, and a unit enum its name. |
| `ApiResponse.TransformResolvedAsArray` | app/Services/ApiResponseService.php:193-226 | A JsonResource, a Model and any other object are transformed as their array form. A JsonSerializable is transformed as what it serialises to. |
| `ApiResponse.TransformUnpaginatedResource` | app/Services/ApiResponseService.php:166-190 | A resource collection without `data` is transformed as its resolved array. |
| `ApiResponse.TransformEntriesKeys` | app/Services/ApiResponseService.php:137-147 | The transformed array has distinct keys, and they are exactly the rewritten keys. |
| `ApiResponse.MappedKeysInit` | app/Services/ApiResponseService.php:141-144 | The rewritten keys of an array are those of its prefix plus the last key rewritten. |
| `ApiResponse.TransformEntriesLastWins` | app/Services/ApiResponseService.php:141-144 | When two keys rewrite to the same key, the later one's transformed value is the one kept. |
| `ApiResponse.TransformEntriesPointwise` | app/Services/ApiResponseService.php:137-147 | Without collisions, entry i of the output is entry i of the input with its key rewritten and its value transformed. |
| `ApiResponse.TransformItemsPointwise` | app/Services/ApiResponseService.php:208-210 | A collection keeps its keys and order and transforms each item. |
| `ApiResponse.PaginatedCollection` | app/Services/ApiResponseService.php:166-187 | A paginated collection becomes exactly `data` transformed beside `meta`. `meta` holds the raw pagination fields when all three are set, and is empty otherwise. |
| `ApiResponse.CamelKey` | app/Services/ApiResponseService.php:143 | A key the rewrite sends to a non-numeric word becomes that string key. |
| `ApiResponse.NestedArraysExample` | tests/Unit/ApiResponseServiceTest.php:74-100 | Nested arrays are rewritten at every depth, and values are left alone. |
| `ApiResponse.CollectionExample` | tests/Unit/ApiResponseServiceTest.php:127-143 | A collection's items are rewritten. |
| `ApiResponse.CollisionExample` | app/Services/ApiResponseService.php:141-144 | `first_name` and a later `firstName` collapse into one key in the first one's position, holding the later value. |
| `ApiResponse.SuccessEnvelopeShape` | app/Services/ApiResponseService.php:65-73 | The four keys in order, `success` true, `error` null, the transformed data and meta, and the given status (200 by default). |
| `ApiResponse.ErrorEnvelopeShape` | app/Services/ApiResponseService.php:84-96 | The four keys in order, `success` false, `data` null and `meta` empty. `error` holds the code and message as given and the transformed details. The defaults are `ERROR` and 500. |
| `ApiResponse.EnvelopesDiffer` | app/Services/ApiResponseService.php:65-96 | A success envelope never equals an error envelope. |
| `ApiResponse.SuccessExample` | tests/Unit/ApiResponseServiceTest.php:26-41 | `test_key` comes back as `testKey` in a 200 success envelope. |
| `ApiResponse.ErrorExample` | tests/Unit/ApiResponseServiceTest.php:44-66 | The code and message are as given, and the details key is rewritten. |
| `ApiResponse.ApiResponseService.constructor` | app/Services/ApiResponseService.php:55 | The key cache starts empty. |
| `ApiResponse.ApiResponseService.TransformKey` | app/Services/ApiResponseService.php:235-242 | Returns the rewrite of the key. The cache remembers it and does not change for a cached key. |
| `ApiResponse.ApiResponseService.ClearCache` | app/Services/ApiResponseService.php:252-255 | The cache is empty afterwards. |
| `ApiResponse.ApiResponseService.TransformToCamelCase` | app/Services/ApiResponseService.php:114-129 | Returns the transform of the value. The key cache gains exactly the keys the transform rewrites, at any depth. |
| `ApiResponse.ApiResponseService.TransformArray` | app/Services/ApiResponseService.php:137-147 | The loop returns the transform of the array. The key cache gains exactly the array's string keys and the keys rewritten inside its values. |
| `ApiResponse.ApiResponseService.TransformCollection` | app/Services/ApiResponseService.php:208-210 | The map returns the transform of the collection. The key cache gains exactly the keys rewritten inside the items; the collection's own keys are not rewritten. |
| `ApiResponse.ApiResponseService.TransformObject` | app/Services/ApiResponseService.php:163-227 | Returns the transform of the object. The key cache gains exactly the keys rewritten in its array form. |
| `ApiResponse.ApiResponseService.SuccessResponse` | app/Services/ApiResponseService.php:65-73 | Returns the success envelope. The key cache gains exactly the keys rewritten in the data and the meta. |
| `ApiResponse.ApiResponseService.ErrorResponse` | app/Services/ApiResponseService.php:84-96 | Returns the error envelope. The key cache gains exactly the keys rewritten in the details. |
| `Exceptions.AsWrittenNever429` | app/Exceptions/ApiExceptions.php:18-35 | As written, no value maps to 429. Every value from 429000 to 499999 maps to 422. |
| `Exceptions.StatusForValueBlocks` | app/Exceptions/ApiExceptions.php:18-35 | With the thresholds in descending order, 429 is exactly the 429xxx block and 422 exactly 422000-428999. Values outside 400000-499999 give 500, and a status never exceeds the value's thousands. |
| `Exceptions.MappingsAgreeOutside429` | app/Exceptions/ApiExceptions.php:7-35 | The two orders differ exactly on 429xxx values. They agree on every case of the enum, so `getStatusCode()` as written gives each case the corrected status. |
| `Exceptions.Catalogue` | app/Exceptions/ApiExceptions.php:7-35 | INVALID_CREDENTIALS is 401001, "Invalid credentials provided.", 401. UNKNOWN is 500999, "An unknown error occurred.", 500. |
| `Exceptions.NewDefaults` | app/Exceptions/ApiException.php:12-44 | `new` defaults to UNKNOWN with no details, takes a missing message or status from the type, and keeps whatever is given. |
| `ExceptionRendering.CatchAllDeclines` | bootstrap/app.php:72-83 | As written, an unexpected exception never gets the envelope, in production or not. |
| `ExceptionRendering.CatchAllRenders` | bootstrap/app.php:72-83 | With the catch-all returning, every exception is rendered in production, an unexpected one as UNEXPECTED_ERROR, 500, with no details. Outside production, only unexpected ones are left to the framework. |
| `ExceptionRendering.TablesAgreeOnKnown` | bootstrap/app.php:28-70 | The two tables agree on every named exception kind. |
| `ExceptionRendering.RenderedEnvelope` | bootstrap/app.php:28-83 | Every rendering is an error envelope with the kind's status and code. Only ApiException and validation failures carry details. |
| `ExceptionRendering.InvalidCredentialsRendering` | bootstrap/app.php:28-36 | The login rejection renders as INVALID_CREDENTIALS, 401, with its message and no details. |
| `AuthController.FirstWithEmail` | app/Http/Controllers/V1/AuthController.php:43 | Finds a user with the email, and none exactly when no user has it. |
| `AuthController.LoginRejection` | app/Http/Controllers/V1/AuthController.php:42-51 | An unknown email and a wrong password give the same INVALID_CREDENTIALS 401 rejection. A login is accepted exactly for a known email whose password checks. |
| `AuthController.TokenDataFields` | app/Http/Controllers/V1/AuthController.php:168-181 | The response data has distinct keys: the access text, `Bearer` and the milliseconds left. `refresh_token` is present exactly when a refresh token is given. |
| `AuthController.ExpiresInAfterIssue` | app/Http/Controllers/V1/AuthController.php:175 | For a freshly issued pair, `expires_in` is 900000 minus the time elapsed. |
| `AuthController.TokenResponseKeys` | app/Http/Controllers/V1/AuthController.php:168-183 | After the envelope's transform, the keys are `accessToken`, `tokenType`, `expiresIn` and, with a refresh token, `refreshToken`, in that order. |
| `AuthController.ThreeTokenKeys` | app/Http/Controllers/V1/AuthController.php:172-176 | The three base fields come out under their camelCase keys. |
| `AuthController.FourTokenKeysDistinct` | app/Http/Controllers/V1/AuthController.php:172-180 | The four field names rewrite to four distinct camelCase keys, so none overwrites another. |
| `AuthController.FourTokenKeys` | app/Http/Controllers/V1/AuthController.php:172-180 | The four fields come out under their camelCase keys. |
| `AuthController.TokenDataRewrittenKeys` | app/Http/Controllers/V1/AuthController.php:172-180 | The keys the transform of the token data rewrites are its three or four snake_case field names. |
| `AuthController.ResponseWithToken` | app/Http/Controllers/V1/AuthController.php:168-183 | Returns the success envelope of the token data. The key cache gains exactly `access_token`, `token_type`, `expires_in` and, with a refresh token, `refresh_token`. |
| `AuthController.Login` | app/Http/Controllers/V1/AuthController.php:40-56 | A rejected login changes nothing and returns the rejection. An accepted one issues one pair with `*` abilities for that user, answers with both texts, and keeps the invariant. The key cache gains exactly the four token keys. |
| `AuthController.Refresh` | app/Http/Controllers/V1/AuthController.php:88-93 | The rotation's error escapes and changes nothing, the key cache included. Otherwise the rows are the rotation, the new pair is returned, the invariant is kept, and the key cache gains exactly the four token keys. |

## Left out

- I/O and side effects. The database, the clock and the random secret generator are not modelled: the clock and the secrets are parameters. SHA-256 is the table's `hash` parameter, `Str::camel` the service's `camel` parameter and `Hash::check` a parameter of the login. The `Log::alert` of a failed login and the `report($e)` of the catch-all are left out.
- Transactions. `DB::transaction` is modelled as an atomic sequence of steps. Database failures and concurrent requests are not modelled.
- Sanctum's `findToken` branch for a text without a bar (a lookup by hash alone) is not part of this model. In the model such a text is not found.
- `TokenService.RevokeAllMeaning`, `TokenService.RevokeOthersMeaning`, `TokenService.RevokeOtherTokenPairs` and `TokenService.RevokeAllUserTokenPairs` model `each()` as one full walk over a snapshot of the owner's ids in ascending order. Laravel's `each()` is `chunk(1000)`, which fetches page after page by offset from a query whose rows the previous pages deleted. With more than 1000 tokens the source therefore skips later pages. `TokenService.ChunkedEach` models that paging as written, and the first row under `## Findings` shows the loss for `revokeAllUserTokenPairs`. `revokeOtherTokenPairs` at app/Services/TokenService.php:128-130 pages the same way.
- Numbers. Floats are not among the modelled scalars, so a float value is not modelled. PHP integers are 64-bit and an `(int)` cast saturates on overflow; the model's integers are unbounded, including the `(int)` of a date.
- The JSON encoding of the envelope. The model stops at the PHP value handed to `response()->json`.
- Floating point. `diffInMilliseconds` is modelled as the signed integer difference. `floor` is modelled as the identity on that integer, giving an int where PHP gives a float.
- `ApiException::getStatusCode` is declared to return a string. The status is modelled as the int it was given.
- `ApiException::getDetails` may return null. The property defaults to null (app/Exceptions/ApiException.php:10), and the constructor accepts a nullable array (line 16) and stores whatever it is given (line 25). No call site passes null or builds the exception without `new`, so details are modelled as an array.
- `request()->route()` being null in the gate is modelled as a route without a name. `str_ends_with` on an empty name is false.
- A missing bearer token in `refresh` is modelled as a text that does not resolve.
- The `me`, `logout`, `logoutOtherDevices`, `logoutAllDevices` and register endpoints are not modelled, nor the other controllers, form requests, User model and migrations.
- `TokenService.RevokeTokenPair`: when the text does not resolve, the source calls a method on null and throws. The model returns `Fail(BrokenRelation)` and changes nothing.
- `TokenService.RefreshTokenPair`: a dangling `authToken` or `tokenable` relation makes the source throw on null. The model returns `Err(BrokenRelation)`, which under the `Paired` invariant is proved never to happen.
- Where the documentation and the code disagree, the model follows the code:
  - The INVALID_CREDENTIALS rejection renders its details as `[]`, the `new` default, not as null.
  - Pagination meta of a resource collection ends up inside the envelope's `data` and does not replace the envelope's `meta`.
  - A date becomes `(int)` of the concatenated `Uu` text. Before the epoch this is seconds × 10⁶ − micros, not the signed microsecond count.

## Findings

| source | as written | input that shows it | evidently intended | confidence | as-written member | corrected member |
|---|---|---|---|---|---|---|
| app/Services/TokenService.php:141-144 | `each()` pages by offset (`chunk(1000)`) while the callback deletes the rows of earlier pages, so the second page starts past the rows still left | a user holding 1001 auth tokens keeps the newest one after revoking all pairs | every token of the user is revoked | not executed | `TokenService.ChunkedRevokeAllMissesLast` | `TokenService.RevokeAllMeaning` |
| app/Exceptions/ApiExceptions.php:24-25 | the 422 threshold is tested before the 429 threshold, so the 429 arm is unreachable | backing value 429001 maps to 422 | thresholds in descending order, so 429xxx values map to 429 | not executed | `Exceptions.AsWrittenNever429` | `Exceptions.StatusForValueBlocks` |
| bootstrap/app.php:75-81 | the production catch-all builds the error envelope but does not return it, so the callback declines | any unexpected exception in production is rendered by the framework's default page | return the UNEXPECTED_ERROR envelope with status 500 | not executed | `ExceptionRendering.CatchAllDeclines` | `ExceptionRendering.CatchAllRenders` |
