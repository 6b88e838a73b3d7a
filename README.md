# Token bridge of the flood-risk-assessment backend, in Dafny

This project models the token bridge of the flood-risk-assessment API backend. The bridge mirrors users of an external identity provider (Clerk) into a local `users` table. It issues opaque, expiring bearer tokens that the backend stores in a `user_tokens` table and checks without the provider. The model covers:

- **`DatabaseService`** (`Database` module, `database.dfy`): a class over two tables held as sequences of rows. Its invariant `Valid()` is the SQL UNIQUE constraints: `users.id`, `users.clerkId`, `users.email`, `user_tokens.id` and `user_tokens.token`. Each method is proved against a pure function on table values (`CreateSpec`, `UpdateSpec`, `UpsertSpec`, `InsertTokenSpec`, `LatestValid`, `VerifiedOwner`, `Unexpired`). The lemmas are stated about those functions.
- **The `/auth` endpoints** (`UserEndpoints`, `user_endpoints.dfy`): `sync_user`, `generate_token` with its lifetime clamp, `get_existing_token` and `verify_token_endpoint`. Each acts on the store.
- **The identity-provider service** (`ClerkService`, `clerk_service.dfy`): `extract_user_data`'s primary e-mail search, and the checks `verify_jwt_token` makes around an abstract decoder.
- **Request authentication** (`Auth`, `auth.dfy`): the app token is tried first, then the provider token, which may create the local user.
- **The `allowed_origins` setting parser** (`Config`, `config.dfy`).

Time is an integer count of seconds since 1970-01-01 UTC, passed in as `now`. Token expiry is `now + minutes * 60`, and an expiry outside the range of Python's `datetime` (years 1 to 9999) fails token creation. Random user ids, token ids and token values are parameters. A collision with a stored value is not excluded: it takes the UNIQUE-constraint failure path. Decoding a JWT and fetching a provider user record are function-valued parameters.

## Model

| member | source | states |
|---|---|---|
| Database.DatabaseService.constructor | backend/app/services/database.py:26-57 | both tables start empty and satisfy the uniqueness constraints |
| Database.CreateSpec | backend/app/services/database.py:73-105 | creation fails exactly when the id, clerkId or e-mail is already stored, leaving the table unchanged; otherwise exactly one row is appended with the given fields and createdAt = updatedAt = now; uniqueness is preserved |
| Database.DatabaseService.CreateUser | backend/app/services/database.py:73-105 | the users table and result are those of CreateSpec; tokens are untouched; the store invariant is kept |
| Database.UserByClerkId | backend/app/services/database.py:107-120 | a found user is stored and carries the clerkId; None exactly when no row has that clerkId |
| Database.DatabaseService.GetUserByClerkId | backend/app/services/database.py:107-120 | same lookup over the store's users field |
| Database.LookupFindsStoredUser | backend/app/services/database.py:33-35 | under the uniqueness constraints, looking up a stored user by clerkId or by id yields exactly that user |
| Database.SettableFields | backend/app/services/database.py:130-133 | the SET clause holds every non-None entry of the update except clerkId, and nothing else: every column it names is in the update with the same, non-None value |
| Database.SetFields | backend/app/services/database.py:145-146 | every column named in the SET clause takes the new value, every other column and the id and createdAt are kept |
| Database.UpdateSpec | backend/app/services/database.py:122-153 | no settable field: returns the stored user, table unchanged; otherwise only that user's row changes: clerkId, id and createdAt are kept, updatedAt = now, and a None entry leaves its column untouched; None exactly when the clerkId is unknown or the new e-mail belongs to another user; uniqueness is preserved |
| Database.UpdatedRowKeepsUnique | backend/app/services/database.py:33-35 | replacing a row by one with the same id and clerkId and an e-mail no other row holds keeps the constraints |
| Database.DatabaseService.UpdateUser | backend/app/services/database.py:122-153 | the loop builds exactly SettableFields; users and result are those of UpdateSpec; tokens untouched |
| Database.UpsertChanges | backend/app/services/database.py:160-166 | the update dictionary of an upsert is well typed for the columns |
| Database.UpsertSpec | backend/app/services/database.py:155-171 | unknown clerkId: exactly the outcome and table of CreateSpec, i.e. one row with all the given fields and createdAt = updatedAt = now, failing iff id or e-mail is taken; known clerkId: adds no row, keeps id and createdAt, sets updatedAt = now, replaces optional fields only when given, fails iff another user holds the e-mail; a failure leaves the table unchanged; uniqueness is preserved |
| Database.UpsertedRowFields | backend/app/services/database.py:160-166 | the row an upsert rewrites carries the new e-mail and keeps each profile field and lastSignInAt for which None was passed |
| Database.UpsertIdempotent | backend/app/services/database.py:155-171 | for data carrying a lastSignInAt key, upserting the same data a second time succeeds, adds no row and changes only updatedAt |
| Database.DatabaseService.UpsertUser | backend/app/services/database.py:155-171 | users and result are those of UpsertSpec; tokens untouched |
| Database.InsertTokenSpec | backend/app/services/database.py:173-204 | fails exactly when the expiry now + minutes·60 is outside the `datetime` range (years 1 to 9999) or the token id or value is already stored, leaving the table unchanged; otherwise appends one row bound to the given userId and clerkId with expiresAt = now + minutes·60 and createdAt = now; uniqueness is preserved |
| Database.DatabaseService.CreateUserToken | backend/app/services/database.py:173-204 | tokens and result are those of InsertTokenSpec; users untouched |
| Database.LatestValid | backend/app/services/database.py:206-225 | None exactly when no row of that clerkId is unexpired; otherwise an unexpired row of that clerkId with maximal createdAt |
| Database.DatabaseService.GetValidToken | backend/app/services/database.py:206-225 | same selection over the store's tokens, reading but not changing the store |
| Database.VerifiedOwner | backend/app/services/database.py:227-251 | a user exactly when some unexpired row holds the value and its userId resolves to a stored user, and then that owner; unknown and expired values alike give None |
| Database.DatabaseService.VerifyToken | backend/app/services/database.py:227-251 | same over the store, reading but not changing either table |
| Database.VerifiedOwnerAsWritten | backend/app/services/database.py:236-246 | as written, an accepted token yields a user whose id and createdAt are the token row's |
| Database.VerifiedOwnerAsWrittenReturnsTokenId | backend/app/services/database.py:242-246 | a concrete store where the as-written lookup returns the token's id instead of the owner's |
| Database.ExpiredTokenRejected | backend/app/services/database.py:227-251 | a stored token whose expiry has passed verifies to nothing |
| Database.NewTokenIsCurrentAndAccepted | backend/app/services/database.py:173-221 | a newest, unexpired, unique token row is both the user's current token and verifies to its owner |
| Database.Unexpired | backend/app/services/database.py:253-263 | exactly the rows with expiresAt > now remain |
| Database.UnexpiredAppend | backend/app/services/database.py:253-263 | the sweep distributes over concatenation, so surviving rows keep their order |
| Database.UnexpiredKeepsUnique | backend/app/services/database.py:253-263 | sweeping keeps the token uniqueness constraints |
| Database.SweepKeepsCurrentToken | backend/app/services/database.py:253-263 | the sweep never changes which token is current, now or later |
| Database.SweepKeepsVerification | backend/app/services/database.py:253-263 | the sweep never changes what a token value verifies to, now or later |
| Database.DatabaseService.CleanupExpiredTokens | backend/app/services/database.py:253-263 | tokens become Unexpired of the old tokens; users untouched |
| ClerkService.PrimaryIndex | backend/app/services/clerk_service.py:85-88 | the first address whose id equals the primary id, None exactly when there is none |
| ClerkService.Extracted | backend/app/services/clerk_service.py:78-100 | the first matching address with an e-mail is chosen; with no match the first address's e-mail, or "" when it has none; an empty list gives ""; any e-mail returned is one from the list; id and profile fields are copied |
| ClerkService.EmptyPrimaryFallsBack | backend/app/services/clerk_service.py:85-95 | a primary address with no e-mail falls back to the first address's e-mail, or "" when it has none |
| ClerkService.ExtractUserData | backend/app/services/clerk_service.py:78-100 | the search loop with its break returns Extracted |
| ClerkService.VerifyJwtToken | backend/app/services/clerk_service.py:20-48 | a payload exactly when the token is non-empty, decodes and has a non-empty sub, and then the decoded payload |
| Auth.ProfileData | backend/app/core/auth.py:33-36 | the provider record becomes upsert data with the same fields and an explicit lastSignInAt; a record without id cannot be stored |
| Auth.Subject | backend/app/core/auth.py:20-26 | a subject exactly when the provider token verifies, and then its non-empty sub |
| Auth.ClerkTokenEffect | backend/app/core/auth.py:14-42 | no verified sub: None, store unchanged; a locally known sub: that user, store unchanged; an unknown sub whose fetch fails: store unchanged; an unknown sub whose fetch succeeds: store unchanged and None for a record without id, otherwise the table of the upsert of the fetched profile and its user exactly when the upsert succeeds; the store changes only through that upsert; a returned user is stored; uniqueness is preserved |
| Auth.VerifyClerkToken | backend/app/core/auth.py:14-42 | the result and users table are those of ClerkTokenEffect; tokens untouched |
| Auth.VerifyAppToken | backend/app/core/auth.py:44-52 | a returned user is stored and owns an unexpired row with the token; None only when no such row resolves to a user |
| Auth.Authenticate | backend/app/core/auth.py:54-72 | a valid app token authenticates its owner without consulting the provider or changing the store; otherwise the provider path decides the store, and its user, when there is one, is the user returned; 401 "Invalid authentication credentials" exactly when both paths fail; an authenticated user is stored |
| Auth.UnknownTokenRefused | backend/app/core/auth.py:54-72 | a token that matches no stored row and does not decode is refused with 401 and the store is unchanged |
| Auth.GetCurrentUser | backend/app/core/auth.py:54-72 | result and users table are those of Authenticate; tokens untouched |
| Auth.GetCurrentUserOptional | backend/app/core/auth.py:74-79 | None exactly where GetCurrentUser fails, the same user otherwise, with the same effect on the store |
| UserEndpoints.SyncData | backend/app/api/user_endpoints.py:56-63 | the request's clerkId, e-mail, profile fields and lastSignInAt go to the upsert unchanged, the lastSignInAt key always present |
| UserEndpoints.SyncErrorResponseAsWritten | backend/app/api/user_endpoints.py:74-79 | as written every sync failure, the missing-field check included, is a 500 |
| UserEndpoints.SyncErrorResponse | backend/app/api/user_endpoints.py:49-53 | 400 exactly for a blank clerkId or e-mail, 500 exactly for a store failure |
| UserEndpoints.SyncMissingFieldsAsWrittenIs500 | backend/app/api/user_endpoints.py:49-79 | the missing-field error is a 500 as written and a 400 as intended |
| UserEndpoints.SyncOutcome | backend/app/api/user_endpoints.py:39-79 | a blank clerkId or e-mail fails with 400 before any upsert and leaves users unchanged; otherwise the table is that of one upsert, success iff it succeeds, and the user returned is stored with the request's clerkId, e-mail and any given lastSignInAt; uniqueness is preserved |
| UserEndpoints.UpsertKeepsGivenSignIn | backend/app/services/database.py:155-171 | a sign-in time passed to an upsert is the one the row holds |
| UserEndpoints.SyncTwice | backend/app/api/user_endpoints.py:39-79 | syncing the same request twice succeeds with the same user, adds no row and moves only updatedAt |
| UserEndpoints.SyncUser | backend/app/api/user_endpoints.py:39-79 | response and users table are those of SyncOutcome; tokens untouched |
| UserEndpoints.EffectiveTtl | backend/app/api/user_endpoints.py:101 | 1440 for a missing or zero request, the request itself up to 10080, 10080 above; never above 10080; positive exactly when the request is not negative |
| UserEndpoints.IssueOutcome | backend/app/api/user_endpoints.py:81-129 | 404 exactly for an unknown clerkId, creating no token; otherwise the token table is the sweep followed by one insert for that user's id with the clamped lifetime, and a failed insert is a 500 carrying its message, including "date value out of range" when the expiry leaves the `datetime` range (the sweep stays done); a success returns the user looked up by clerkId, the new token value and expiry now + clamped minutes·60 (at most seven days ahead), with the token table being the swept rows plus exactly that row |
| UserEndpoints.GenerateToken | backend/app/api/user_endpoints.py:81-129 | response and token table are those of IssueOutcome; users untouched |
| UserEndpoints.IssuedTokenAuthenticates | backend/app/api/user_endpoints.py:81-129 | until it expires a freshly issued token is its user's current token and authenticates that user through the store alone, with the store unchanged |
| UserEndpoints.GetExistingToken | backend/app/api/user_endpoints.py:131-165 | 404 "No valid token found" exactly when the user has no unexpired token; otherwise the user's newest unexpired token and its expiry; reads only |
| UserEndpoints.VerifyTokenEndpoint | backend/app/api/user_endpoints.py:178-203 | success exactly when verification yields a user, returning exactly that user (the owner of the unexpired token row), which is stored; otherwise "Invalid or expired token" and no data |
| Config.TrimStart | backend/app/core/config.py:34 | the result is no longer than the input and does not start with whitespace |
| Config.TrimEnd | backend/app/core/config.py:34 | the result is no longer than the input and does not end with whitespace |
| Config.TrimStartDropsSpace | backend/app/core/config.py:34 | what is removed at the front is a prefix made only of whitespace |
| Config.TrimEndDropsSpace | backend/app/core/config.py:34 | what is removed at the end is a suffix made only of whitespace |
| Config.Strip | backend/app/core/config.py:34 | the stripped piece neither starts nor ends with whitespace |
| Config.StripDropsLeadingSpace | backend/app/core/config.py:34 | only whitespace precedes the kept stretch, and the stretch starts at the first non-whitespace character |
| Config.StripIsInnerStretch | backend/app/core/config.py:34 | the stripped piece is the stretch of the input after its leading whitespace |
| Config.StripDropsTrailingSpace | backend/app/core/config.py:34 | only whitespace follows that stretch |
| Config.StripBlank | backend/app/core/config.py:34 | a piece strips to "" exactly when it is all whitespace |
| Config.StripIdempotent | backend/app/core/config.py:34 | stripping twice is stripping once |
| Config.StripNoComma | backend/app/core/config.py:34 | stripping a comma-free piece leaves it comma-free |
| Config.Split | backend/app/core/config.py:34 | at least one piece, none containing a comma |
| Config.JoinSplit | backend/app/core/config.py:34 | joining the pieces with commas gives back the string |
| Config.SplitAfterPiece | backend/app/core/config.py:34 | a comma-free piece followed by a comma splits off as the first piece |
| Config.SplitSingle | backend/app/core/config.py:34 | a comma-free string is one piece |
| Config.SplitJoin | backend/app/core/config.py:34 | splitting the comma-join of comma-free pieces gives the pieces back |
| Config.PieceCount | backend/app/core/config.py:34 | a string has one more piece than commas |
| Config.StripAll | backend/app/core/config.py:34 | one result per piece, the k-th being the k-th piece stripped |
| Config.NonBlank | backend/app/core/config.py:34 | no more results than inputs, holding exactly the non-empty inputs |
| Config.Cleaned | backend/app/core/config.py:34 | no more results than pieces |
| Config.CleanedMembers | backend/app/core/config.py:34 | cleaning keeps exactly the non-blank stripped pieces |
| Config.StripAllAppend | backend/app/core/config.py:34 | stripping distributes over concatenation of piece lists |
| Config.NonBlankAppend | backend/app/core/config.py:34 | dropping blanks distributes over concatenation, keeping the order |
| Config.NonBlankKeepsAll | backend/app/core/config.py:34 | a list with no blank string is kept as it is |
| Config.CleanedAppend | backend/app/core/config.py:34 | cleaning distributes over concatenation, so the kept pieces keep their order |
| Config.CleanedKeepsStripped | backend/app/core/config.py:34 | a list of non-blank stripped pieces is left as it is |
| Config.ParseAllowedOrigins | backend/app/core/config.py:28-35 | a list is returned unchanged; a string yields Cleaned of its comma-separated pieces, so exactly the non-blank stripped pieces between its commas, at most commas + 1 of them, none empty, padded or containing a comma |
| Config.OriginsRoundTrip | backend/app/core/config.py:28-35 | a list of clean origins joined with commas parses back to the same list |

## Left out

- Persistence plumbing is not modelled: aiosqlite connections, SQL text, commits, indexes and logging. The tables are sequences of rows.
- The singleton `DatabaseService.__new__` and the module-level service instances are not modelled. Callers pass one store object.
- `secrets.token_urlsafe` is not modelled. Ids and token values are caller-supplied parameters, and a collision follows the UNIQUE-constraint failure path.
- Wall-clock time and ISO-8601 strings are not modelled. Each request gets one integer `now` in whole seconds since 1970-01-01 UTC (the microseconds of `utcnow()` are dropped; they never move an expiry across the `datetime` range limits), and the string comparison `expiresAt > ?` becomes integer comparison. The source reads the clock separately in each store call of a request.
- The Clerk HTTP fetch (`get_user_from_clerk`) and `jwt.decode` are abstract function parameters. Signature verification is absent in the source as well.
- `HTTPBearer` header parsing, FastAPI dependency injection, the `/me` endpoint, response-model serialisation and the `WWW-Authenticate` header are not modelled.
- Concurrency is not modelled: every operation is one sequential step, so the check-then-insert race in `upsert_user` is absent.
- Failures of the database itself are not modelled. The `except` clauses that turn a broken connection into None in `get_user_by_clerk_id`, `get_valid_token`, `verify_token` and `cleanup_expired_tokens` are absent. The only failures modelled are constraint violations.
- A missing `clerkId` in `create_user` data is not modelled. The NOT NULL constraint on `users.clerkId` only matters for provider records without an id, and Auth.ProfileData models that as an upsert failure.
- Auth.ClerkTokenEffect: the second check for a missing `sub` (auth.py:24-26) is merged with the first, because `verify_jwt_token` already refuses such payloads and the check can never fire.
- Database.InsertTokenSpec: a lifetime below about -1.44·10^12 minutes already overflows `timedelta` itself, whose error text ("days=…; must have magnitude <= 999999999") differs from the modelled "date value out of range"; only the failure and its 500 status are modelled for it.
- Database.LatestValid: when two unexpired rows share the newest createdAt, SQL leaves the order open. The model picks the earlier-stored row, and only maximality of createdAt is promised.
- UserEndpoints.IssuedTokenAuthenticates assumes every stored token was created strictly before `now`. In the source, createdAt carries microseconds.
- Database.VerifiedOwner models `verify_token` as intended, and the rest of the model uses it. The as-written behaviour is under Findings.
- UserEndpoints.SyncOutcome and UserEndpoints.SyncUser model the intended 400 for blank fields. The as-written 500 is under Findings.

## Findings

| source | as written | input that shows it | evidently intended | confidence | as-written member | corrected member |
|---|---|---|---|---|---|---|
| backend/app/services/database.py:236-246 | `SELECT ut.*, u.*` is read by column name, and a name present in both tables yields the token table's column, so the returned user's `id` and `createdAt` (and `clerkId`) are the token row's | a user with id "user_a" holding token row "token_b" with value "secret", verified before expiry: the user returned has id "token_b" | the owner's own row | high (sqlite3.Row returns the first column of a repeated name), not executed | Database.VerifiedOwnerAsWritten, Database.VerifiedOwnerAsWrittenReturnsTokenId | Database.VerifiedOwner |
| backend/app/api/user_endpoints.py:49-53, 74-79 | the 400 raised for a blank clerkId or e-mail is caught by `except Exception` and re-raised as a 500 "Failed to sync user: 400: ClerkId and email are required" | a sync request with email "" | 400 "ClerkId and email are required", as `generate_token` keeps its HTTP errors with `except HTTPException: raise` | high, not executed | UserEndpoints.SyncErrorResponseAsWritten, UserEndpoints.SyncMissingFieldsAsWrittenIs500 | UserEndpoints.SyncErrorResponse |
