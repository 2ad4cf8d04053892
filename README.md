# Chirpy server, modelled in Dafny

Chirpy is a small Go HTTP service for short posts ("chirps"). This project
models its request handlers and its authentication helpers with the I/O
stripped away:

- password hashing and checking through bcrypt;
- access tokens: JSON Web Tokens (RFC 7519) signed with HS256 (section 3.2
  of RFC 7518). The registered claims of section 4.1 of RFC 7519 are `iss` = "chirpy",
  `sub` = the user's UUID, `iat` and `exp`. Validation goes through a fixed
  ladder of rejections;
- the login, refresh and revoke session flows over a store of users and
  refresh-token rows;
- account creation and update;
- the Polka payment webhook, which upgrades a user to Chirpy Red;
- chirps:
  - creation, with a 140-byte limit and a word-wise profanity filter;
  - listing, filtered by author and sorted by creation time;
  - lookup by id;
  - deletion by the chirp's author only;
- the standalone chirp validator of the root package;
- the file-server hit counter, which the metrics middleware raises and the
  admin handler reports and resets.

Files and modules:

| file | module | models |
|---|---|---|
| `wrappers.dfy` | `Wrappers` | `Option`, `Result`, and `GoResult` (Go's `(value, error)` pair) |
| `uuids.dfy` | `Uuids` | UUIDs as 16 bytes, `String` and `Parse` in the 36-character form of section 3 of RFC 4122 |
| `text.dfy` | `Text` | `strings.Split`/`strings.Join` on `" "`, ASCII `ToLower`, UTF-8 byte length |
| `profanity.dfy` | `Profanity` | `replaceProfaneWords` |
| `auth.dfy` | `Auth` | internal/auth/auth.go |
| `database.dfy` | `Database` | the store the handlers query: the `Store` class with users, refresh tokens and chirps |
| `http.dfy` | `Http` | status codes, response bodies, the public `models.User` |
| `sessions.dfy` | `Sessions` | internal/api/handlers/auth.go (`AuthHandler`) |
| `users.dfy` | `Users` | internal/api/handlers/user.go (`UserHandler`) |
| `webhooks.dfy` | `Webhooks` | internal/api/handlers/webhook.go (`WebhookHandler`) |
| `chirps.dfy` | `Chirps` | internal/api/handlers/chirps.go (`ChirpsHandler`, the in-place sort) |
| `validate.dfy` | `Validate` | validate.go |
| `metrics.dfy` | `Metrics` | the `atomic.Int32` counter and internal/api/middlewares/metrics.go |
| `admin.dfy` | `Admin` | internal/api/handlers/admin.go (`AdminHandler`) |
| `server.dfy` | `Server` | internal/api/router.go, plus three end-to-end scenarios |

How the model is built:

- **Handlers as classes.** Each handler is a class holding the same
  configuration as its Go struct: the shared `Store` and the JWT secret, the
  Polka key, or the platform and the counter.
- **Handlers that write the store are methods.** They name the table they
  may change in `modifies` and state the response and the new table
  outright.
- **Handlers that only read and do not loop are functions.** `RefreshToken`
  and `GetByID` are functions over the store. `GetAll` only reads the store
  but stays a method, because the source sorts in place and appends in a loop.
- **Loops stay loops.** The profanity filter rewrites its word array in a
  `for` loop. `GetAll` sorts an array in place and then appends in a loop,
  building a slice that stays nil when there is nothing to append.
- **What the server receives is a parameter.** The wall clock (`now`, in
  seconds), the fresh ids the database generates and the bcrypt salt are
  parameters. So are the outcomes of JSON decoding, `GetBearerToken`,
  `GetAPIKey` and `MakeRefreshToken` (an `Option`, `None` for their error
  return), and a database error (`fault`).
- **bcrypt and golang-jwt are values of the handlers' configuration.** They
  are records of functions (`Bcrypt`, `JwtLibrary`). The proofs use
  idealised laws, stated as predicates that the lemmas require:
  - `SoundBcrypt`: a hash verifies against its password;
  - `BindingBcrypt`: a hash verifies against no other password (an idealisation, see "## Left out");
  - `LawfulJwt`: a signed token decodes to its header, its claims and their MAC;
  - `KeyedMac`: different keys give different MACs (an idealisation, see "## Left out").

Behaviours of the code a reader might not expect:

- The signing-method check at internal/auth/auth.go:47 accepts the whole HMAC
  family. A token signed with HS384 or HS512 under the secret is accepted
  (`Auth.ValidateAcceptsHmacFamily`), though only HS256 is issued.
- Whether refresh refuses an expired or revoked token is decided in SQL that
  is not part of this model. The store carries that condition as
  `refreshTokenUsable`, and no lemma claims that revoked tokens are refused.
  Likewise, whether revoking an unknown token reports an error is left to
  the query. In the model it changes no row, and an error of the query is
  `fault`.
- A failure to sign in `RefreshToken` answers 401 "Couldn't validate token",
  not 500.
- The webhook answers an ignored event with `RespondWithError(204, "Invalid
  event")`. net/http writes no body under 204, so this answer is
  indistinguishable from a successful upgrade. `Http.Respond` models that
  rule.
- `ValidateJWT`'s "invalid token" and "invalid claims format" rungs are
  unreachable. golang-jwt returns an error for every token it does not mark
  valid, and it fills the `RegisteredClaims` it is given
  (`Auth.ValidateNeverInvalidTokenRungs`).

## Model

| member | source | states |
|---|---|---|
| Auth.HashPassword | internal/auth/auth.go:12-18 | an error exactly when bcrypt fails, and then the empty string; otherwise bcrypt's hash |
| Auth.HashPasswordEmptyIffError | internal/auth/auth.go:12-18 | with a sound bcrypt, the hash is empty exactly when an error is returned |
| Auth.CheckPasswordHash | internal/auth/auth.go:20-22 | nil exactly when bcrypt accepts the password for the hash |
| Auth.CheckHashedPassword | internal/auth/auth.go:12-22 | a hash from HashPassword checks against its own password and, for a binding bcrypt, against no other |
| Auth.MakeJWT | internal/auth/auth.go:24-40 | succeeds exactly when HS256 signing of the new claims under the secret succeeds; on failure returns "" with an error |
| Auth.MakeJWTClaims | internal/auth/auth.go:25-34 | the token decodes to HS256, issuer "chirpy", subject the user's UUID string, iat = now, exp = now + expiresIn, and the MAC under the secret |
| Auth.KeyFunc | internal/auth/auth.go:46-51 | releases the secret exactly for an HMAC-family method, and otherwise "unexpected signing method" |
| Auth.ParseWithClaims | internal/auth/auth.go:43-56 | a token it returns without error is valid and holds registered claims |
| Auth.ValidateJWT | internal/auth/auth.go:42-73 | every failure returns the nil UUID; success means an HMAC method, a matching MAC under the secret, an unexpired exp, and a subject that parses to the returned UUID |
| Auth.ValidateRejectsNonHmac | internal/auth/auth.go:46-51 | a non-HMAC token is refused with "unexpected signing method" whatever the secret |
| Auth.ValidateRejectsNonUuidSubject | internal/auth/auth.go:67-70 | a well-signed, unexpired token whose subject is not a UUID is refused with "invalid user ID in token" |
| Auth.ValidateNeverInvalidTokenRungs | internal/auth/auth.go:58-65 | neither the "invalid token" nor the "invalid claims format" error is ever returned |
| Auth.ValidateMakeJWT | internal/auth/auth.go:24-73 | round trip: a token made for a user validates to that user under the same secret before it expires |
| Auth.ValidateMakeJWTExpired | internal/auth/auth.go:54-56 | the same token is refused as expired from its exp on |
| Auth.ValidateMakeJWTOtherSecret | internal/auth/auth.go:54-56 | under the idealised KeyedMac law, the token is refused for its signature under any other secret |
| Auth.ValidateAcceptsHmacFamily | internal/auth/auth.go:47 | HS384 and HS512 tokens signed under the secret are accepted too |
| Uuids.ToString | internal/auth/auth.go:29 | 36 characters with dashes at positions 8, 13, 18 and 23 |
| Uuids.Parse | internal/auth/auth.go:67 | accepts only 36-character strings with dashes at 8, 13, 18 and 23 |
| Uuids.ParseToString | internal/auth/auth.go:29 | parsing the string form of a UUID gives the UUID back |
| Uuids.ToStringInjective | internal/auth/auth.go:29 | two UUIDs with the same string form are equal |
| Text.Split | internal/api/handlers/chirps.go:215 | at least one piece, and no piece contains a space |
| Text.JoinSplit | internal/api/handlers/chirps.go:215-222 | joining the pieces of a split gives the text back |
| Text.SplitJoin | internal/api/handlers/chirps.go:215-222 | splitting a join of at least one space-free piece gives the pieces back |
| Text.Join | internal/api/handlers/chirps.go:222 | the result begins with the first piece, followed by a space when there are more; the empty list joins to "" (inverse of Split: see JoinSplit, SplitJoin) |
| Text.ToLower | internal/api/handlers/chirps.go:217 | same length, no upper-case ASCII letter remains, and every other character is kept |
| Text.Utf8Len | internal/api/handlers/chirps.go:62 | the UTF-8 byte length lies between the number of characters and four times it |
| Text.Utf8LenAscii | internal/api/handlers/chirps.go:62 | for ASCII text the byte length is the number of characters |
| Profanity.ReplaceProfaneWords | internal/api/handlers/chirps.go:211-223 | the in-place loop over the split words returns the filtered text |
| Profanity.CleanedPieces | internal/api/handlers/chirps.go:215-222 | the pieces of the filtered text are the filtered pieces of the body |
| Profanity.CleanedWordCount | internal/api/handlers/chirps.go:215-222 | the filter keeps the number of space-separated words |
| Profanity.OnlyProfaneWordsReplaced | validate.go:36-44 | word by word: "****" exactly when the lower-case word is kerfuffle, sharbert or fornax, otherwise the word unchanged |
| Profanity.CleanWithoutProfanity | validate.go:39-46 | a body with no listed word comes back unchanged |
| Profanity.CleanedIdempotent | internal/api/handlers/chirps.go:211-223 | filtering twice is filtering once |
| Profanity.ExampleMixedCase | internal/api/handlers/chirps.go:217 | "This is a Kerfuffle opinion" becomes "This is a **** opinion" |
| Profanity.ExampleAttachedPunctuation | internal/api/handlers/chirps.go:217 | "Sharbert!" is kept: punctuation makes it a different word |
| Database.ByAuthor | internal/api/handlers/chirps.go:105 | exactly the author's chirps, a sub-multiset of the table |
| Database.WithoutChirp | internal/api/handlers/chirps.go:201 | exactly the chirps with another id remain, and ids stay unique |
| Database.WithoutChirpRemovesOne | internal/api/handlers/chirps.go:201-205 | deleting a stored chirp by id removes that one chirp and nothing else |
| Database.Store.GetUserByEmail | internal/api/handlers/auth.go:49 | a row with that email, and sql.ErrNoRows only when there is none |
| Database.Store.GetUserFromRefreshToken | internal/api/handlers/auth.go:108 | a user only for a stored, usable token, and that user is the row's owner; without a fault, a stored usable token whose owner exists yields that owner |
| Database.Store.GetChirp | internal/api/handlers/chirps.go:190 | without a fault, found exactly when a chirp has the id, and then that chirp |
| Database.Store.GetChirpsByAuthorID | internal/api/handlers/chirps.go:105 | exactly the author's chirps |
| Database.Store.RevokeRefreshToken | internal/api/handlers/auth.go:136 | marks only the named row revoked now, or fails and changes nothing |
| Database.Store.UpgradeUserToChirpyRed | internal/api/handlers/webhook.go:58 | sets the flag on the one row with the id, or sql.ErrNoRows when there is none |
| Http.Respond | internal/api/handlers/webhook.go:54 | under 204 the body the handler encodes is not sent |
| Database.Store.CreateUser | internal/api/handlers/user.go:51-54 | a new non-Chirpy-Red row with the given email and hash is appended, or the insert fails (fault or taken id) and nothing changes |
| Database.Store.UpdateUser | internal/api/handlers/user.go:109-113 | only the row with the id gets the new email, hash and update time, or sql.ErrNoRows / a failure with nothing changed |
| Database.Store.CreateRefreshToken | internal/api/handlers/auth.go:73-78 | one unrevoked row is added under the new token, or the insert fails and nothing changes |
| Database.Store.CreateChirp | internal/api/handlers/chirps.go:69-72 | the new chirp is appended, or the insert fails and nothing changes |
| Database.Store.GetChirps | internal/api/handlers/chirps.go:107 | every chirp in table order, exactly when there is no fault |
| Database.Store.DeleteChirp | internal/api/handlers/chirps.go:201 | the chirps with the id are removed, or a fault changes nothing |
| Database.Store.Reset | internal/api/handlers/admin.go:52 | all three tables are emptied, or a fault changes nothing |
| Http.Error | internal/api/handlers/chirps.go:197 | utils.RespondWithError: the given status with `{"error": msg}` (no body under 204) |
| Sessions.AuthHandler.Login | internal/api/handlers/auth.go:26-95 | an unknown email and a wrong password get the same 401 "Incorrect email or password". After authentication, a signing failure, a refresh-token failure and a failed insert each get their own 500 message. On 200: public user fields, the one-hour token for that user, the minted refresh token, and exactly one new row expiring in 60 days. Otherwise no row is added and no login body is returned |
| Sessions.AuthHandler.RefreshToken | internal/api/handlers/auth.go:97-127 | 400 "Couldn't find token" without a bearer token, 401 on a lookup failure; after a successful lookup, 200 with the one-hour token for the row's owner, or 401 "Couldn't validate token" when signing fails; 200 only for a stored usable token; it reads the store and cannot change it |
| Sessions.RefreshedTokenValidates | internal/api/handlers/auth.go:108-126 | the refreshed token validates to the refresh-token row's owner within the hour |
| Sessions.AuthHandler.RevokeToken | internal/api/handlers/auth.go:129-143 | 400 without a bearer token and the store untouched, 500 when the update fails, otherwise 204 with no body and only that row revoked |
| Users.UserHandler.Create | internal/api/handlers/user.go:27-71 | 201 exactly when decoding, hashing and the insert succeed; the row stores bcrypt's output, not the password; 201 carries only public fields; every other answer is 500 ("Couldn't hash password" for a hash failure, "Something went wrong" otherwise) and adds no row |
| Users.UserHandler.Update | internal/api/handlers/user.go:73-130 | the token is checked before the body (401 "Missing or malformed token", 401 "Invalid token"); after a valid token, a decode failure and a store error get 500 "Something went wrong" and a hash failure 500 "Couldn't hash password"; on 200 only the token subject's row gets the new email and hash; any other answer changes no row |
| Webhooks.WebhookHandler.HandlePolkaWebhooks | internal/api/handlers/webhook.go:27-70 | both key checks come before decoding; another event gets 204 and changes nothing; an unknown user gets 404 and other store errors 500; only the named user is upgraded |
| Chirps.SortChirps | internal/api/handlers/chirps.go:117-125 | the array ends sorted by creation time (newest first when descending) and is a permutation of what it held |
| Chirps.ChirpsHandler.Create | internal/api/handlers/chirps.go:39-87 | 401 without a valid token; 400 "Chirp is too long" exactly for more than 140 bytes (140 is accepted) and nothing stored; a store error gets 500 "Something went wrong"; on 201 the stored chirp holds the filtered body and the token subject as author |
| Chirps.ChirpsHandler.Fetched | internal/api/handlers/chirps.go:97-108 | every chirp, or exactly the chirps of the author named by author_id |
| Chirps.ChirpsHandler.GetAll | internal/api/handlers/chirps.go:90-139 | 400 for a non-UUID author_id, 500 on a store error; on 200 a permutation of the fetched chirps sorted descending exactly when sort is "desc", and JSON null when there are none |
| Chirps.ChirpsHandler.GetByID | internal/api/handlers/chirps.go:142-165 | 400 for a bad id, 404 when absent; on 200 a stored chirp with that id |
| Chirps.GetByIDFindsStored | internal/api/handlers/chirps.go:145-164 | every stored chirp is found under the string form of its id |
| Chirps.ChirpsHandler.Delete | internal/api/handlers/chirps.go:168-208 | 400 for a bad id before any token check, then 401; 404 "Chirp not found" exactly when the lookup fails; 403 exactly for a chirp of another author, with the store unchanged; 500 when the delete fails; on 204 exactly that chirp is removed |
| Validate.ValidateChirpHandler | validate.go:11-33 | 500 when the body does not decode, 400 "Chirp is too long" over 140 bytes, otherwise 200 with the filtered body |
| Metrics.Wrap | internal/api/middlewares/metrics.go:20 | int32 wrap-around: in-range values are kept and every result is congruent modulo 2^32 |
| Metrics.WrapIncrement | main_test.go:15-24 | adding one raises every value below the int32 maximum by exactly one (0 to 1, 100 to 101), and the maximum wraps to the minimum |
| Metrics.HitCounter.Load | internal/api/handlers/admin.go:40 | reads the counter's current value without changing it |
| Metrics.HitCounter.Store | internal/api/handlers/admin.go:60 | the counter becomes the stored value |
| Metrics.HitCounter.Add | internal/api/middlewares/metrics.go:20 | the counter becomes the wrapped sum, and that value is returned |
| Metrics.MetricsMiddleware.MetricsInc | internal/api/middlewares/metrics.go:19-24 | the counter goes up by one (wrapping at the int32 maximum) and the wrapped handler's response passes through unchanged |
| Admin.AdminHandler.GetMetrics | internal/api/handlers/admin.go:27-41 | 200 with the counter's current value; a function, so it cannot change the counter |
| Admin.AdminHandler.Reset | internal/api/handlers/admin.go:43-64 | off "dev": 403 with store and counter unchanged; a failing store reset: 500 with both unchanged; otherwise the store is emptied and the counter set to 0 |
| Server.Router.constructor | internal/api/router.go:31-38 | every handler shares the one store, and the admin handler and the metrics middleware share the one counter |
| Server.HitsReportedThenReset | internal/api/router.go:36-38 | two requests through the middleware are reported as 2, and a "dev" reset brings the report to 0 |
| Server.LogInThenRefresh | internal/api/handlers/auth.go:97-127 | a refresh token handed out at login refreshes, while its row is admitted, to an access token that validates to the user |
| Server.SignUpThenLogIn | internal/api/handlers/auth.go:49-65 | a user who signs up can log in with the same credentials; the login returns the created public user, and its token validates to the new id within the hour |

## Left out

- Routing, startup, static file serving and the health check are not modelled: the route table, `main.go` and the `http.FileServer` behind the middleware (which is a parameter, `next`).
- JSON encoding and decoding are not modelled. A decode outcome is an `Option` parameter, and a response body names the object that would be encoded. The HTML of the metrics page is reduced to the counter value.
- `GetBearerToken`, `GetAPIKey` and `MakeRefreshToken` are not part of this model. Their outcomes are parameters, and no header or prefix rule is assumed.
- The SQL queries of `internal/database` are not part of this model. `Store` gives each query the effect its name and the handlers' use imply. Ids are primary keys, so an insert that reuses one fails. `GetUserByEmail` returns the first match, since no uniqueness of emails is assumed. Which refresh tokens the lookup admits is the store's `refreshTokenUsable`. Revoking an unknown token changes nothing. The effect of `Reset` on users, tokens and chirps is taken to be a full clear. Any other database error is the `fault` input.
- bcrypt and the golang-jwt encoding (HMAC-SHA256, base64url compact form) are not modelled. They are functions constrained by the laws `SoundBcrypt`, `BindingBcrypt`, `LawfulJwt` and `KeyedMac`. The library's own claim check is modelled as "exp absent or now before exp".
- Auth.CheckHashedPassword and Auth.ValidateMakeJWTOtherSecret: their "no other password" and "no other secret" halves rest on the idealised laws `BindingBcrypt` and `KeyedMac`, which the real libraries do not meet. bcrypt keys Blowfish with only the first 72 bytes of the password followed by a NUL byte, so "a" and "a\x00a" check alike, and a 72-byte password accepts every extension of itself. HMAC zero-pads short keys and hashes keys longer than its block, so "k" and "k\x00" give the same MAC, and so do a long key and its SHA-256 digest.
- Auth.MakeJWT: reads the clock once, where the source reads it twice, so iat and exp come from one instant.
- Uuids.Parse: accepts only the canonical 36-character form. The 32-digit, braced and `urn:uuid:` forms that uuid.Parse also accepts are left out.
- Text.ToLower: lower-cases ASCII letters only, where strings.ToLower folds all of Unicode.
- Chirps.SortChirps: is an insertion sort; sort.Slice is another algorithm. Both promise only a sorted permutation, and the order of chirps created at the same instant is not modelled.
- Metrics.MetricsMiddleware.MetricsInc: requests are handled one at a time. The atomicity of the counter under concurrent requests, and the order of the increment relative to the wrapped handler's work, are not modelled, because the file server does not read the counter.
- Logging (`log.Printf`) and response headers (Content-Type) are left out.
- The superseded root-package copies of the handlers (chirp.go, chrip.go, login.go, refresh.go, user.go, webhook.go, reset.go) are not modelled, except validate.go's validator. Its `replaceProfaneWords` is identical to the one in chirps.go and is modelled once.
