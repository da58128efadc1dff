# Purple-team tabletop API: a Dafny model of its security core

This project models the security core of the purple-team tabletop Express
service (`purple_team_app`) and proves properties of it. The parts modelled are:

- the JWT key registry;
- signing and verification of access tokens;
- the revocation list of token ids (jti) in Redis;
- the refresh-token families with rotation and reuse detection;
- the `authenticate`/`authorize` middleware;
- the Joi validation and angle-bracket scrubbing of request bodies;
- the hash-chained audit trail with redaction of its details;
- the two rate limiters;
- the account routes (`/register`, `/login`, `/logout`);
- the scenario routes and the scenario document.

One module per source file:

| module | file | source |
|---|---|---|
| `Common`, `Json`, `KvStore` | `common.dfy`, `json.dfy`, `kv_store.dfy` | shared: JavaScript truthiness, `split`, JSON values and `JSON.stringify`, the Redis commands used |
| `JwtKeys` | `jwt_keys.dfy` | `config/jwtKeys.js` |
| `Security` | `security.dfy` | `utils/security.js` |
| `AuthMiddleware` | `auth_middleware.dfy` | `middleware/auth.js` |
| `Validate` | `validate.dfy` | `middleware/validate.js` |
| `AuditModel` | `audit_model.dfy` | `models/audit.js` |
| `AuditLog` | `audit_log.dfy` | `utils/audit.js` |
| `FallbackRateLimit` | `rate_limiter_redis.dfy` | `middleware/rateLimiterRedis.js`, in-memory path |
| `SlidingWindow` | `rate_limiter.dfy` | `middleware/rateLimiter.js` |
| `AuthRoutes` | `auth_routes.dfy` | `routes/auth.js`: register, login, logout |
| `ScenarioModel` | `scenario_model.dfy` | `models/scenario.js` |
| `ScenarioRoutes` | `scenario_routes.dfy` | `routes/scenarios.js` |

## Conventions

- **One clock.** Every time is a millisecond count. Redis stores an absolute
  expiry in milliseconds, and `EX n` at time `t` expires at `t + 1000 n`.
- **Libraries as parameters.** Library code is passed in as a function-typed
  parameter: `jsonwebtoken`'s `sign`, `decode` and `verify`; SHA-256; the
  parse of `JWT_KEYS_JSON`; the ISO rendering of a date; and a Joi schema.
- **Library promises as preconditions.** Where a property depends on what the
  library promises, that promise is a ghost predicate in a lemma's `requires`:
  - `HonoursAlgorithms`: `jwt.verify` honours its `algorithms` list;
  - `Enforces`: a Joi schema hands on only values within its bounds;
  - `DigestInjective`: the audit digest is collision-free.
- **Fresh values and outcomes as inputs.** Random uuids, the zxcvbn score,
  bcrypt's and speakeasy's answers, and whether a database write succeeds are
  all inputs.
- **Imperative code keeps its shape.** Code that mutates state is modelled as
  classes and methods:
  - the Redis store;
  - the audit collection;
  - the bucket table and the limiters;
  - the scenario collection;
  - the walk of `redact` and the `forEach` of `loadKeys`.

  Each method is proved against a function that specifies it. The properties
  are lemmas about those functions.

## Observations about the code as written

The model follows the code, and several of its lemmas state consequences the
authors may not expect:

- **Logout and clock tolerance.** `/logout` revokes a jti for
  `max(1, exp - floor(now/1000))` seconds. `authenticate` verifies with a clock
  tolerance of 90 seconds. A logged-out token is therefore accepted again from
  one second after its `exp` until its tolerance runs out
  (`AuthRoutes.LoggedOutTokenOutcome`).
- **Issuer and audience.** `authenticate` passes `JWT_ISSUER`/`JWT_AUDIENCE` to
  `verify`, while `signJwt` signs with `JWT_ISS`/`JWT_AUD`. The names differ,
  so the model keeps them as separate settings.
- **Dead bucket reset.** In the fallback limiter, `cleanOld` removes stale
  buckets just before the reset check, so the reset at
  `rateLimiterRedis.js:34` can never fire (`FallbackRateLimit.StepOutcome`).
- **Shared buckets.** Every fallback limiter of the process shares one bucket
  table keyed by address only. A request counted by a generous limiter counts
  against a strict one (`FallbackRateLimit.LimitersShareCounts`).
- **Scrubbing breaks minimum lengths.** Scrubbing runs after validation, so the
  minimum lengths are not kept. A title `<>` passes `scenarioSchema` and
  reaches the handler empty (`Validate.ScrubCanBreakMinimumLength`). Creating
  a scenario with that title then fails in Mongoose validation with 500
  (`ScenarioRoutes.CreateOutcomeSpec`).
- **Unknown keys are stripped.** `stripUnknown` strips unknown keys instead of
  rejecting them. The bounds predicates say only that no other key remains.
- **Dead `PROVISIONED` branch.** In `/register`, `user.toJSON()` already
  deletes `mfaSecret`, so the `PROVISIONED` replacement never runs. The answer
  never carries the secret.
- **Admin MFA.** `mfaSecret` is `select: false` in the user schema, so the
  plain lookup in `/login` does not load it. `LoadedUser.mfaSecret` is
  whatever the lookup loaded. With the field unloaded, an admin under MFA
  enforcement always gets the 403 (`AuthRoutes.LoginGateOrder`).
- **Equal times are not ordered.** MongoDB does not say in which order it
  returns documents with equal sort keys. The list sort on `updatedAt` and
  the audit lookup on `ts` both leave that order open. The model has to pick
  one: it keeps collection order in the list and takes the document inserted
  last in the audit lookup. The two lemmas below assume inputs where that
  choice makes no difference:
  - A scenario created in the same millisecond as 200 others can be missing
    from its owner's list, so `ScenarioRoutes.CreatedIsVisible` assumes that
    every other document is strictly older.
  - Two audit entries written in the same millisecond leave the next append
    free to link to either of them, which forks the chain. So
    `AuditLog.AppendKeepsChain` assumes strictly increasing times.
- **Ids are compared in two ways.** The list and get-by-id routes cast the
  caller's id to an ObjectId, which ignores the case of hex digits. The
  ownership check in get-by-id instead compares the printed owner with the
  raw id of the token. A token carrying its own id with upper-case digits
  lists its scenarios but gets 403 for each of them
  (`ScenarioRoutes.MixedCaseOwner`). An id that cannot be cast makes the list
  answer 500 (`ScenarioRoutes.ListMembers`).
- **`/logout` does not check the scheme.** It checks only that the header has
  two parts, not that its scheme is `Bearer`.
- **The e-mail mask looks at the original string.** It is applied to the
  original string even after the bearer mask matched.
  `AuditLog.MaskOutcome` proves the two cannot both apply.

## Model

| member | source | states |
|---|---|---|
| JwtKeys.EntriesMapKeys | purple_team_app/config/jwtKeys.js:10-13 | every kid of the parsed JWT_KEYS_JSON entries is a key of the map, and nothing else is |
| JwtKeys.EntriesMapLast | purple_team_app/config/jwtKeys.js:12 | a kid maps to the secret of its last occurrence, as repeated assignments leave it |
| JwtKeys.CollectEntries | purple_team_app/config/jwtKeys.js:12 | the `forEach` loop builds exactly the entries map |
| JwtKeys.Keys | purple_team_app/config/jwtKeys.js:7-22 | JWT_SECRET always lands under `default`; with neither setting the map is empty; an unparseable JWT_KEYS_JSON contributes nothing |
| JwtKeys.JsonEntriesLoaded | purple_team_app/config/jwtKeys.js:9-21 | every parsed kid is loaded, with its last secret unless JWT_SECRET overrides `default` |
| JwtKeys.KeysExactly | purple_team_app/config/jwtKeys.js:7-22 | the map holds exactly `default` when JWT_SECRET is set and the kids of a parseable JWT_KEYS_JSON, and no other kid |
| JwtKeys.EnvAfterLoad | purple_team_app/config/jwtKeys.js:17-20 | the environment changes only when JWT_SECRET is set and ACTIVE_JWT_KID is not |
| JwtKeys.LoadKeys | purple_team_app/config/jwtKeys.js:7-22 | returns the key map and writes ACTIVE_JWT_KID=`default` only in that case |
| JwtKeys.GetActiveKid | purple_team_app/config/jwtKeys.js:24-26 | ACTIVE_JWT_KID when truthy, else `default`; never empty |
| JwtKeys.GetSecretByKid | purple_team_app/config/jwtKeys.js:28-31 | a secret exactly for the kids in the reloaded map, and it is that map's value |
| JwtKeys.LoadIsStable | purple_team_app/config/jwtKeys.js:7-31 | reloading after `loadKeys` wrote the environment yields the same map and active kid; loading twice equals loading once |
| Security.SignJwt | purple_team_app/utils/security.js:8-25 | fails iff the active kid has no secret; otherwise signs the payload plus jti with that secret, HS256, 1 h, issuer/audience defaults and the kid header |
| Security.KeyLayout | purple_team_app/utils/security.js:44-46 | refresh keys are injective in the user id and never collide with revocation keys |
| Security.BlacklistJti | purple_team_app/utils/security.js:27-33 | no store gives false; otherwise `SET jwt:blacklist:<jti> 1 EX n`, 3600 by default, and a non-positive n throws without writing |
| Security.IsJtiBlacklisted | purple_team_app/utils/security.js:35-41 | true iff a store exists and holds a non-empty live value under the jti's key |
| Security.BlacklistWindow | purple_team_app/utils/security.js:27-41 | a revoked jti reads as revoked for exactly n seconds, other jtis are unaffected, and revoking again replaces the window |
| Security.IssueData | purple_team_app/utils/security.js:57-58 | the HSET plus EXPIRE touches only the user's refresh key and keeps the store well typed |
| Security.IssueRefreshToken | purple_team_app/utils/security.js:48-60 | no store gives null; otherwise stores `{tokenId, sha256(token)}` with a 30-day expiry and returns token, id and ttl |
| Security.RotateRefreshToken | purple_team_app/utils/security.js:62-76 | no store gives `no_redis`; otherwise the outcome and new store are those of the rotation function |
| Security.IssuedFamilyLives | purple_team_app/utils/security.js:48-60 | an issued family is readable for 30 days and gone afterwards |
| Security.RotateOutcomes | purple_team_app/utils/security.js:62-76 | `missing` iff no complete family (store unchanged); `reuse_detected` iff the hash differs, after which the family is gone; otherwise the new token becomes the family |
| Security.TokenIdIgnored | purple_team_app/utils/security.js:66-68 | the outcome depends on the stored hash, not on the stored token id |
| Security.OtherKeysUntouched | purple_team_app/utils/security.js:62-76 | rotation never changes another user's family or any revocation |
| Security.StaleTokenRevokesFamily | purple_team_app/utils/security.js:62-76 | replaying a rotated-out token revokes the family, so the current token then fails as `missing` |
| AuthMiddleware.NormalizeUser | purple_team_app/middleware/auth.js:41 | `req.user` takes `id \|\| sub`, a truthy role claim as it is, and `observer` otherwise |
| AuthMiddleware.Authenticate | purple_team_app/middleware/auth.js:11-46 | every rejection is a 401 with one of the five messages, and "No token provided" exactly for a missing header |
| AuthMiddleware.HeaderParse | purple_team_app/middleware/auth.js:14-19 | the split-on-space checks accept exactly one space with a case-insensitive `Bearer` before it and a non-empty token after it |
| AuthMiddleware.FormatRejection | purple_team_app/middleware/auth.js:14-19 | a present header is refused as "Invalid token format" iff it is not well formed |
| AuthMiddleware.UnknownKidRejected | purple_team_app/middleware/auth.js:21-24 | a kid without a secret is refused as "Invalid token" before verification or revocation are consulted |
| AuthMiddleware.OnlyHs256Accepted | purple_team_app/middleware/auth.js:2-25 | under a verifier honouring `algorithms`, only HS256 tokens are accepted and any other declared algorithm gets 401 |
| AuthMiddleware.VerifiedTokenOutcome | purple_team_app/middleware/auth.js:25-42 | a verified token is accepted when it has no jti or is not revoked, refused "Token revoked" when revoked, "Token error" when the lookup fails |
| AuthMiddleware.VerifyFailureRejected | purple_team_app/middleware/auth.js:21-45 | a missing secret or failed verification ends in 401 "Invalid token" |
| AuthMiddleware.AllowedRoles | purple_team_app/middleware/auth.js:49 | a single role becomes a one-element list |
| AuthMiddleware.Authorize | purple_team_app/middleware/auth.js:50-55 | no user is always forbidden |
| AuthMiddleware.AuthorizeRoles | purple_team_app/middleware/auth.js:48-56 | an empty list admits everyone; otherwise a user proceeds iff their role is listed |
| Validate.StripAngles | purple_team_app/middleware/validate.js:40 | the result has no `<` or `>`, holds exactly the other characters of the input and is no longer |
| Validate.StripAnglesAppend | purple_team_app/middleware/validate.js:40 | stripping a concatenation concatenates the stripped parts, in order |
| Validate.StripAnglesChar | purple_team_app/middleware/validate.js:40 | an angle bracket is removed and any other character is kept |
| Validate.StripAnglesIdentity | purple_team_app/middleware/validate.js:40 | a string without angle brackets is unchanged |
| Validate.Scrub | purple_team_app/middleware/validate.js:35-42 | no string in the result holds an angle bracket, and the shape (keys, lengths, kinds) is kept |
| Validate.ScrubIdentity | purple_team_app/middleware/validate.js:35-42 | a value without angle brackets is returned as it is |
| Validate.ScrubIdempotent | purple_team_app/middleware/validate.js:35-42 | scrubbing twice equals scrubbing once |
| Validate.ValidateBody | purple_team_app/middleware/validate.js:30-46 | 400 with Joi's message iff the schema rejects; otherwise the scrubbed value, free of angle brackets and of the same shape |
| Validate.ScrubField | purple_team_app/middleware/validate.js:37-38 | a scrubbed object's property is the scrubbed property |
| Validate.ScrubKeys | purple_team_app/middleware/validate.js:32-43 | scrubbing adds no key, so stripped bodies stay stripped |
| Validate.ScrubStringField | purple_team_app/middleware/validate.js:35-43 | a bounded string field stays a string field within its maximum, but its minimum is not kept |
| Validate.ScrubbedScenario | purple_team_app/middleware/validate.js:23-43 | a scenario within bounds keeps its keys, maxima, steps and retention after scrubbing |
| Validate.ScrubCleanField | purple_team_app/middleware/validate.js:35-43 | a property without angle brackets passes through unchanged |
| Validate.ValidatedRegistration | purple_team_app/middleware/validate.js:3-46 | behind the registration validator the body has a username of at most 64, a password of at most 128, and a role among the four |
| Validate.RoleClean | purple_team_app/middleware/validate.js:7 | no role name holds an angle bracket |
| Validate.ScrubRoleField | purple_team_app/middleware/validate.js:7-43 | a valid role is unchanged by scrubbing |
| Validate.ValidatedLogin | purple_team_app/middleware/validate.js:10-46 | behind the login validator a TOTP, if any, is still six decimal digits |
| Validate.ValidatedScenario | purple_team_app/middleware/validate.js:23-46 | behind the scenario validator `steps` has at most 200 items and `retentionDays` lies in 1..3650 |
| Validate.ScrubCanBreakMinimumLength | purple_team_app/middleware/validate.js:24-43 | a title `<>` passes the schema but reaches the handler empty |
| AuditModel.Payload | purple_team_app/models/audit.js:15-17 | the hashed object lists ts, userId, action, target, details, prevHash in that order, with an undefined target omitted |
| AuditModel.Seal | purple_team_app/models/audit.js:14-20 | the hook changes only `hash`, which becomes the digest of the other six fields |
| AuditModel.SealIgnoresHash | purple_team_app/models/audit.js:14-20 | the hash does not cover itself: resealing changes nothing |
| AuditModel.HashDeterminesContent | purple_team_app/models/audit.js:14-20 | with a collision-free digest, equal hashes mean equal documents and any field change changes the hash |
| AuditModel.NewEntry | purple_team_app/utils/audit.js:31 | a new document takes `ts = now` and its given fields, with no hash yet |
| AuditModel.TamperBreaksChain | purple_team_app/models/audit.js:14-20 | changing any document but the last breaks the chain, resealed or not |
| AuditModel.LastEntryResealable | purple_team_app/models/audit.js:14-20 | the last document can be replaced and resealed without breaking the chain |
| AuditLog.EmailSplit | purple_team_app/utils/audit.js:13 | an address splits at its `@` into local part and domain |
| AuditLog.EmailMask | purple_team_app/utils/audit.js:12-14 | an address becomes its first character, `***@` and its domain |
| AuditLog.NoSpaceNoToken | purple_team_app/utils/audit.js:11 | a string without white space never matches the bearer pattern |
| AuditLog.EmailHasNoSpace | purple_team_app/utils/audit.js:12 | an address holds no white space |
| AuditLog.MaskOutcome | purple_team_app/utils/audit.js:10-15 | the two masks never both apply; a bearer string becomes `[REDACTED_TOKEN]`, an address is masked, anything else is kept |
| AuditLog.RedactedTokenIsInert | purple_team_app/utils/audit.js:11-12 | the replacement text matches neither pattern |
| AuditLog.EmailMaskIsFixed | purple_team_app/utils/audit.js:12-14 | a masked address is still an address and masks to itself |
| AuditLog.MaskStringSettles | purple_team_app/utils/audit.js:10-15 | no masked string holds a bearer token, and masking twice equals masking once |
| AuditLog.MaskValue | purple_team_app/utils/audit.js:6-17 | the walk keeps the shape of the value |
| AuditLog.MaskValueSettles | purple_team_app/utils/audit.js:6-17 | after the walk no nested string holds a bearer token, and a second walk changes nothing |
| AuditLog.Walk | purple_team_app/utils/audit.js:6-17 | the loop over keys, recursing into objects, computes the walk; a top-level string is left alone |
| AuditLog.TruncatedTextIsNotJson | purple_team_app/utils/audit.js:19-22 | a text cut at 4000 characters and ending in `...` is not the serialisation of any value, so parsing it fails |
| AuditLog.Redact | purple_team_app/utils/audit.js:3-23 | the method computes the redaction: the walked details, or `{}` when they are falsy or too long |
| AuditLog.RedactedBounds | purple_team_app/utils/audit.js:3-23 | falsy details give `{}`; the serialised result never exceeds 4000 characters; no nested string holds a bearer token |
| AuditLog.RedactIdempotent | purple_team_app/utils/audit.js:3-23 | redacting redacted details changes nothing |
| AuditLog.Latest | purple_team_app/utils/audit.js:30 | `findOne().sort({ts: -1})` returns a document of the trail with the greatest ts, or none for an empty trail |
| AuditLog.LatestIsLast | purple_team_app/utils/audit.js:30 | in a trail with strictly increasing times the last document is the only one with the greatest time, so the lookup returns it however ties are broken |
| AuditLog.AppendOutcome | purple_team_app/utils/audit.js:25-37 | exactly one document is added when saving succeeds and the action is non-empty: sealed, at `now`, redacted details, `userId \|\| null`, linked to the latest hash; otherwise the trail is unchanged |
| AuditLog.AppendKeepsChain | purple_team_app/utils/audit.js:25-37 | appending at a time later than every entry keeps the hash chain valid and the times strictly increasing |
| AuditLog.AuditCollection.FindLatest | purple_team_app/utils/audit.js:30 | the scan returns the document `Latest` picks |
| AuditLog.AuditCollection.AppendAudit | purple_team_app/utils/audit.js:25-37 | the collection becomes the specified trail after the append |
| FallbackRateLimit.CeilDiv | purple_team_app/middleware/rateLimiterRedis.js:38 | `Math.ceil(n / d)`: the least q with n ≤ q·d |
| FallbackRateLimit.ClientKey | purple_team_app/middleware/rateLimiterRedis.js:30 | `req.ip`, else the remote address, else `unknown` |
| FallbackRateLimit.CleanedExactly | purple_team_app/middleware/rateLimiterRedis.js:6-10 | `cleanOld` removes exactly the buckets older than the window and keeps the others as they were |
| FallbackRateLimit.StepOutcome | purple_team_app/middleware/rateLimiterRedis.js:27-44 | the client's count rises by one whether or not it passes, other buckets are only cleaned, and the request is refused iff the count exceeds the points, with the rounded-up rest of the window |
| FallbackRateLimit.RetryAfterInWindow | purple_team_app/middleware/rateLimiterRedis.js:37-39 | Retry-After lies between 0 and the window length |
| FallbackRateLimit.FourthRequestRefused | purple_team_app/middleware/rateLimiterRedis.js:27-44 | with 3 points, three requests in one window pass and the fourth is refused |
| FallbackRateLimit.LimitersShareCounts | purple_team_app/middleware/rateLimiterRedis.js:4-36 | a request passed by one limiter counts against another |
| FallbackRateLimit.BucketTable.CleanOld | purple_team_app/middleware/rateLimiterRedis.js:6-10 | the loop leaves exactly the cleaned table |
| FallbackRateLimit.FallbackLimiter.Handle | purple_team_app/middleware/rateLimiterRedis.js:29-43 | the verdict and table are those of one step |
| SlidingWindow.Prune | purple_team_app/middleware/rateLimiter.js:8 | the loop leaves a suffix of the log whose first time is within the window |
| SlidingWindow.PruneKeepsWindow | purple_team_app/middleware/rateLimiter.js:8 | in an ascending log only out-of-window times are dropped and every kept time is inside the window |
| SlidingWindow.RecordedInvariant | purple_team_app/middleware/rateLimiter.js:8-9 | with a clock that does not go back, the log stays ascending, ends with now and holds only times within the window |
| SlidingWindow.SlidingWindowLimiter.Handle | purple_team_app/middleware/rateLimiter.js:3-14 | only the client's log changes, to the pruned log plus now, refused ones included; refused iff it then holds more than the maximum; the log invariant is kept |
| AuthRoutes.LogoutTtl | purple_team_app/routes/auth.js:180 | at least one second, and the token's remaining seconds when positive |
| AuthRoutes.LogoutTarget | purple_team_app/routes/auth.js:173-179 | a revocation target needs a header of two space-separated parts and a payload with a truthy jti and non-zero exp |
| AuthRoutes.Logout | purple_team_app/routes/auth.js:171-187 | always answers ok; the store changes only by the revocation of the target, if any |
| AuthRoutes.RevocationEndsBeforeTolerance | purple_team_app/routes/auth.js:180-181 | the revocation lives from logout until less than a second after exp, strictly inside the 90-second tolerance |
| AuthRoutes.LoggedOutTokenOutcome | purple_team_app/routes/auth.js:171-187 | a logged-out token is refused as revoked while the entry lives, and accepted again from exp + 1 s when verification passes |
| AuthRoutes.NewUser | purple_team_app/routes/auth.js:26-29 | the role defaults to observer, and a TOTP secret is drawn iff admin under MFA_ENFORCE_ADMIN=true |
| AuthRoutes.RegisterOrder | purple_team_app/routes/auth.js:13-39 | 409 iff taken; 400 iff free but weak; a user is stored iff 201, returned without its secret |
| AuthRoutes.Register | purple_team_app/routes/auth.js:13-39 | the decision, plus a `register` audit entry exactly on 201 |
| AuthRoutes.LoginGateOrder | purple_team_app/routes/auth.js:49-60 | unknown user and wrong password look alike; MFA checks apply only to an admin under enforcement, in the order provisioned, present, valid |
| AuthRoutes.Login | purple_team_app/routes/auth.js:46-70 | a refusal or signing failure changes nothing; otherwise a signed token, a refresh family when a store exists, and a `login` audit entry |
| ScenarioModel.RetentionDays | purple_team_app/models/scenario.js:25 | `retentionDays \|\| 30` |
| ScenarioModel.PreSave | purple_team_app/models/scenario.js:23-28 | the hook sets updatedAt to now and expireAt to now plus the retention in days, nothing else |
| ScenarioModel.ExpiryFollowsRetention | purple_team_app/models/scenario.js:10-28 | a valid document expires 1 to 3650 days (30 by default) after its last save, and saving again only moves the times |
| ScenarioRoutes.CanonicalId | purple_team_app/routes/scenarios.js:48 | an ObjectId prints as its hex digits in lower case |
| ScenarioRoutes.CastObjectId | purple_team_app/routes/scenarios.js:30-31 | the cast succeeds iff the string is 24 hex digits or 12 one-byte characters, and gives a printed id |
| ScenarioRoutes.CastRoundTrip | purple_team_app/routes/scenarios.js:46-48 | the cast ignores the case of hex digits, and a printed id casts back to itself |
| ScenarioRoutes.ListFilter | purple_team_app/routes/scenarios.js:30-31 | `{}` iff admin; for anyone else the cast id as owner, or a failed query when the id does not cast |
| ScenarioRoutes.FilteredCounts | purple_team_app/routes/scenarios.js:31 | the query keeps every copy of a matching document and nothing else |
| ScenarioRoutes.SortOrders | purple_team_app/routes/scenarios.js:31 | the sort orders by updatedAt, newest first |
| ScenarioRoutes.SortPermutes | purple_team_app/routes/scenarios.js:31 | the sort is a permutation |
| ScenarioRoutes.ListMembers | purple_team_app/routes/scenarios.js:28-37 | 500 iff a non-admin's id does not cast; otherwise only stored documents, no more copies than stored, and for a non-admin only those owned by the cast id |
| ScenarioRoutes.ListIgnoresIdCase | purple_team_app/routes/scenarios.js:30-31 | a hex id lists the same scenarios whatever the case of its digits |
| ScenarioRoutes.ListOrder | purple_team_app/routes/scenarios.js:31 | the list is newest first and holds min(200, matches) documents |
| ScenarioRoutes.ListTopK | purple_team_app/routes/scenarios.js:31 | a matching document is left out only when the list is full, and then it is no newer than the last listed |
| ScenarioRoutes.FirstWithId | purple_team_app/routes/scenarios.js:46 | a document found has the cast id; none found means none has it |
| ScenarioRoutes.GetByIdOutcome | purple_team_app/routes/scenarios.js:40-56 | 400 iff the id is malformed, whatever is stored; 500 iff it has 12 characters that are not all one byte; 404 iff no document has the cast id; 403 iff the caller is neither the owner (raw id against printed owner) nor an admin; otherwise the document |
| ScenarioRoutes.MixedCaseOwner | purple_team_app/routes/scenarios.js:30-48 | a hex id finds the same document in any case; an owner whose token id has upper-case digits is matched by the list filter but refused by get-by-id |
| ScenarioRoutes.CreateOutcomeSpec | purple_team_app/routes/scenarios.js:12-25 | created iff the caller's id casts to an ObjectId, the document meets the schema and the insert succeeds; then owned by the caller, new id, expiry after retention; an empty title always gives 500 |
| ScenarioRoutes.ScenarioStore.Create | purple_team_app/routes/scenarios.js:12-25 | on success exactly one document is added and a `scenario_create` entry targeting its id with the title is appended; on failure nothing changes |
| ScenarioRoutes.CreatedIsVisible | purple_team_app/routes/scenarios.js:12-56 | a new scenario is returned to its owner by get-by-id and appears in their list, when the token carries the printed id and every other document is older |

## Left out

- The `/refresh` route and the other account routes of `routes/auth.js` (change password, reset request) are not part of this model.
- The Redis-backed limiter path of `useRateLimit` (`rate-limiter-flexible`) is a library and is not part of this model. Only the in-memory fallback is modelled.
- The logger, `app.js`, and the database and Redis connection setup are not part of this model.
- Concurrency is not modelled. Every handler runs to completion in one step, so the interleavings of the async `await`s are not captured.
- The synchronous branch of `authenticate` for a non-promise revocation check (`middleware/auth.js:37-39`) is not modelled, because `isJtiBlacklisted` is always async.
- Issuer and audience checking is not modelled. It belongs to the verifier oracle.
- Joi itself is not modelled: e-mail syntax, number coercion, and the error texts. A schema is an oracle bounded by `Enforces`.
- `JSON.parse` is not modelled. A short redacted text is taken to parse back to the walked value.
- Lengths are counted in characters, not UTF-16 code units.
- Bcrypt, zxcvbn, speakeasy and uuid are inputs, not models.
- The e-mail lower-casing in the user schema is not modelled.
- The kid lookup does not model keys inherited from `Object.prototype`.
- FallbackRateLimit.FallbackLimiter.Handle: the bucket is a value reassigned in the map, not a shared object updated in place. Nothing else holds the object, so no behaviour is lost.
- The ObjectId rules follow the Mongoose releases whose `isValidObjectId` accepts any 12-character string and whose cast accepts 24 hex digits or 12 one-byte characters. Other releases differ in the 12-character case.
- ScenarioRoutes.ListFilter: a token without an id is taken to match no scenario. With Mongoose or driver settings that drop an `undefined` condition, such a caller would list every scenario.
- AuditLog.AppendKeepsChain: it assumes at most one audit entry per millisecond. Entries with equal `ts` leave the predecessor of the next entry unspecified, and the chain may fork.
- ScenarioRoutes.CreatedIsVisible: it assumes every other document was last saved strictly before the new one.
- ScenarioModel.PreSave: both clock reads of the hook are the same `now`.
- Mongoose runs validation before the hook; the model assumes that order.
- A database error other than the insert result (lookups, the audit lookup) is not modelled.
