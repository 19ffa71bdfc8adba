# Eden Map back end: authentication core in Dafny

This project models the security-sensitive core of the Eden Map back end:

- **the in-memory rate limiter** (`RateLimiting`). It keeps one counter per (client address, route) pair. Each counter's one-hour window starts at its first request. Before every check, windows that closed strictly before the cleanup's clock reading are evicted. A window that ends exactly at that reading is kept, although the decision treats it as closed. The limiter is a `class` whose `requests` map is updated in place.
- **the refresh-token lifecycle** (`AuthService`). This covers access-token claims, issuing, revoking and redeeming stored refresh tokens, and the login and refresh flows built from those steps.
- **the three-step password recovery** (`PasswordRecovery`): request a four-digit code, verify it, reset the password with it.
- **the field validators of the profile-update bodies** (`UserUpdateSchemas`).

`Store` holds the two tables the services change, users and refresh tokens, as a `Database` class with `seq` fields. `Crypto` stands in for bcrypt, and `Common` holds `Option`, `Result`, the time units and the first-match lookup.

Every state-changing service is a method. Its `ensures` ties the response and the new tables to a pure function of the old tables: `Check`, `Issue`, `RevokeAll`, `Redeem`, `Login`, `Refresh`, `Request`, `Verify` or `Reset`. Lemmas then prove what the system promises about those functions.

Time is counted in whole seconds. Every random draw is a parameter, and so is the clock:
- the rate-limiter check gets two clock readings, one for the cleanup and one for the decision;
- a login or a refresh gets a single `now`, which stands for all of its clock readings;
- the refresh token gets a `candidate` string;
- the recovery code gets the drawn digit positions `picks`;
- the bcrypt salt is passed in;
- the outcome of sending the recovery email is a `delivered` flag.

Some behaviour of the code that a reader might not expect, which the model keeps:

- **Expiry instant.** A refresh token whose expiry equals the current instant is still accepted, because the code tests `expires_at < now`. A recovery code is likewise accepted at its expiry instant, because the code tests `now > expires`.
- **Refresh does not rotate.** A successful refresh does not rotate the presented token. It stays active with its expiry renewed, and a second active token is issued beside it (`RefreshAddsActiveToken`).
- **Expiry extension is not always strict.** Redemption lengthens a token's validity strictly only when the redemption happens later than the token's last issue or renewal. At the same clock reading, the expiry stays equal (`RedeemExtendsExpiry`).
- **Ceiling of zero or less.** With a ceiling of zero or less, the first call of a window is still allowed; only later calls are denied.
- **Recovery request replies differ.** The reply to a recovery request is not uniform: a registered email gets a different message from an unknown one (see Findings).

## Model

| member | source | states |
|---|---|---|
| Common.IndexOfFirst | app/services/auth_service.py:137 | the row `.first()` returns is the first that matches the filter: it matches, no earlier row matches, and there is none exactly when no row matches |
| Crypto.HashSecret | app/services/password_recovery_service.py:22-24 | the hash of a secret verifies that secret |
| Crypto.VerifiesOnlyPreimage | app/services/password_recovery_service.py:27-29 | a plain text verifies against a hash exactly when it is the hashed secret, whatever the salt |
| Store.UserById | app/models/refresh_token.py:29 | the owner of a token record is a user with that id, and there is none only when no user has that id |
| RateLimiting.ClientIp | app/auth/rate_limiter.py:45 | the check is keyed on the client's host, or on "unknown" when the request has no client |
| RateLimiting.IdentifierInjective | app/auth/rate_limiter.py:18-20 | for colon-free route names, equal keys mean the same address and the same route |
| RateLimiting.IdentifierInjectiveOnRoute | app/auth/rate_limiter.py:18-20 | two addresses on the same route never share a key |
| RateLimiting.FirstCallAllowed | app/auth/rate_limiter.py:51-59 | a pair without a record is allowed, gets count 1 and a window ending one hour after the decision, and max-1 remaining |
| RateLimiting.ClosedWindowRestarts | app/auth/rate_limiter.py:63-70 | once the window has closed, the call behaves exactly as if the pair had no record |
| RateLimiting.CeilingReachedDenied | app/auth/rate_limiter.py:72-78 | in an open window at the ceiling, the call is denied with 0 remaining, the window end, and a positive retry-after equal to the time left; only cleanup changes the table |
| RateLimiting.BelowCeilingCounted | app/auth/rate_limiter.py:80-86 | in an open window below the ceiling, the count rises by one, the window end is kept, and remaining is max minus the new count |
| RateLimiting.CheckTouchesOnlyItsKey | app/auth/rate_limiter.py:22-27 | a check writes only its own key; any other record survives unchanged exactly when its window had not closed before the cleanup reading |
| RateLimiting.DenialRetryAfterBounded | app/auth/rate_limiter.py:73-78 | a denial always carries a retry-after between 1 and 3600 whole seconds (on the model's whole-second clock) |
| RateLimiting.CheckKeepsIssuedBy | app/auth/rate_limiter.py:51-70 | every stored window ends at most one hour after the latest clock reading |
| RateLimiting.CheckKeepsCeiling | app/auth/rate_limiter.py:51-86 | for a ceiling of at least 1, every stored count on the route stays between 1 and the ceiling |
| RateLimiting.CheckKeepsOtherRoutes | app/auth/rate_limiter.py:46-86 | a check on one route never changes a record of another route: each such record survives as it was or was evicted, so that route's counts stay within its ceiling |
| RateLimiting.ChecksInOpenWindow | app/auth/rate_limiter.py:61-86 | successive checks in an open window starting from count c: call i is allowed exactly when c+i is below the ceiling, with the matching remaining and retry-after |
| RateLimiting.BurstWithinWindow | app/auth/rate_limiter.py:29-86 | from no record, within the hour opened by the first call, exactly the first max calls are allowed (remaining max-1 down to 0); every later call is denied until the window ends |
| RateLimiting.SeventhLoginDenied | app/auth/dependencies.py:28-46 | with the login ceiling of 6, six logins in an hour pass and the seventh is refused with a positive retry-after |
| RateLimiting.RunChecks | app/auth/rate_limiter.py:29-86 | successive checks give one verdict per call |
| RateLimiting.RateLimiter.constructor | app/auth/rate_limiter.py:14-16 | the limiter starts with an empty table |
| RateLimiting.RateLimiter.CleanExpired | app/auth/rate_limiter.py:22-27 | exactly the records whose window closed strictly before now are removed; the rest are kept unchanged |
| RateLimiting.RateLimiter.CheckRateLimit | app/auth/rate_limiter.py:29-86 | the verdict and new table are those of `Check` on the old table (cleanup, then the four-way decision) |
| RateLimiting.RateLimiter.GetInfo | app/auth/rate_limiter.py:88-96 | reports the stored count and window end of the pair, or count 0 and no end, without changing anything |
| AuthService.CreateAccessToken | app/services/auth_service.py:22-33 | the claims are the caller's, plus `exp` 30 minutes after now and `type` = "access"; all other claims are unchanged |
| AuthService.SparedToken | app/services/auth_service.py:85-86 | an absent or empty exception spares no token; otherwise it spares exactly that token |
| AuthService.RevokeAll | app/services/auth_service.py:80-88 | only the revoked flag changes; it becomes set exactly for the user's records other than the spared token |
| AuthService.Authenticate | app/services/auth_service.py:130-145 | a returned user has that login and a verifying password; an unknown login, or a wrong password for the first account with that login, yields nothing |
| AuthService.IssueAddsOneFreshRecord | app/services/auth_service.py:49-68 | issuing appends exactly one active record with a 30-day lifetime and a token no record had, keeping tokens unique; a clashing token is refused and changes nothing |
| AuthService.RevokeAllEffect | app/services/auth_service.py:71-89 | afterwards the user has no active record except the spared one; other users' records and the spared record are untouched; a second run changes nothing |
| AuthService.RevokeAllKeepsUnique | app/services/auth_service.py:80-88 | revocation keeps tokens unique |
| AuthService.RedeemInactive | app/services/auth_service.py:103-110 | an unknown or revoked token yields no user and changes nothing |
| AuthService.RedeemExpired | app/services/auth_service.py:112-116 | an active token whose expiry is strictly before now is revoked and yields no user; nothing else changes |
| AuthService.RedeemRenews | app/services/auth_service.py:118-127 | a valid token yields its owner and is marked used now; its expiry becomes 30 days after now; nothing else changes |
| AuthService.RedeemExtendsExpiry | app/services/auth_service.py:121-122 | redemption never shortens validity, and lengthens it strictly when now is later than the last issue or renewal |
| AuthService.RedeemKeepsUnique | app/services/auth_service.py:92-127 | redemption adds or removes no record and keeps tokens unique |
| AuthService.GenerateTokensKeepsUnique | app/services/auth_service.py:172-201 | issuing a token pair keeps tokens unique |
| AuthService.LoginDeniedChangesNothing | app/services/auth_service.py:211-214 | a failed authentication revokes nothing and issues nothing |
| AuthService.LoginLeavesOneActiveToken | app/services/auth_service.py:204-219 | after a login, the new refresh token is the user's only active record and has the full lifetime. The response carries that user and type "bearer". The access token holds exactly `sub` (the user id), `login`, `tag`, `exp` (now + 30 minutes) and `type` = "access" |
| AuthService.ReloginRevokesEarlierToken | app/services/auth_service.py:216-217 | after a second login, the first login's refresh token no longer redeems |
| AuthService.RefreshDeniedIssuesNothing | app/services/auth_service.py:235-238 | a refresh with a token that does not redeem is denied and issues no token. The tokens afterwards are either unchanged, or have the expired presented token revoked, or have the presented token renewed when its owner is missing |
| AuthService.RefreshDeniedOnlyRevokes | app/models/refresh_token.py:13 | when every token's owner exists, as the foreign key guarantees, a denied refresh changes nothing except revoking the presented token if it had expired |
| AuthService.RefreshAddsActiveToken | app/services/auth_service.py:222-241 | a successful refresh keeps the presented token active and renewed, leaves every other record unchanged, and appends one more active token for the same user. The access token holds exactly the owner's `sub`, `login` and `tag`, plus `exp` (now + 30 minutes) and `type` = "access" |
| AuthService.CreateRefreshToken | app/services/auth_service.py:36-68 | the store afterwards is `Issue` of the old store; tokens stay unique |
| AuthService.RevokeUserTokens | app/services/auth_service.py:71-89 | the token table afterwards is `RevokeAll` of the old one, with the spared token per `SparedToken` |
| AuthService.ValidateRefreshToken | app/services/auth_service.py:92-127 | the user returned and the tables afterwards are `Redeem` of the old tables |
| AuthService.GenerateTokensForUser | app/services/auth_service.py:172-201 | the outcome and tables afterwards are `GenerateTokens` of the old tables |
| AuthService.LoginService | app/services/auth_service.py:204-219 | the outcome and tables afterwards are `Login` of the old tables |
| AuthService.RefreshAccessTokenService | app/services/auth_service.py:222-241 | the outcome and tables afterwards are `Refresh` of the old tables |
| PasswordRecovery.GenerateRecoveryCode | app/services/password_recovery_service.py:17-19 | the code is four decimal digits, each the one drawn at that position |
| PasswordRecovery.EveryCodeDrawable | app/services/password_recovery_service.py:17-19 | every four-digit string, leading zeros included, can be drawn |
| PasswordRecovery.RequestUnknownEmail | app/services/password_recovery_service.py:43-53 | an unknown email gets success and the neutral message, and no user changes |
| PasswordRecovery.RequestDelivered | app/services/password_recovery_service.py:55-93 | a delivered request stores a hash that the drawn code and no other verifies, valid 15 minutes; no other field of that user and no other user changes |
| PasswordRecovery.RequestUndelivered | app/services/password_recovery_service.py:77-87 | an undelivered request reports failure and leaves the user with no code at all |
| PasswordRecovery.VerifyCases | app/services/password_recovery_service.py:108-151 | the checks run in order (unknown email, no code, expired, wrong code, success), and only the expired case changes state |
| PasswordRecovery.VerifySucceedsTwice | app/services/password_recovery_service.py:147-151 | a successful verification changes nothing and gives the same answer again while the code is valid |
| PasswordRecovery.ResetFailurePropagates | app/services/password_recovery_service.py:167-171 | a failed verification is returned unchanged by the reset, and no password changes |
| PasswordRecovery.ResetSucceeds | app/services/password_recovery_service.py:183-196 | the reset stores a hash that the new password verifies and clears both recovery fields; no other user changes; the same code is then rejected |
| PasswordRecovery.StepsKeepFieldsPaired | app/services/password_recovery_service.py:65-66 | every step keeps the code hash and its expiry both set or both empty |
| PasswordRecovery.ExpiredCodeIsDiscarded | app/services/password_recovery_service.py:126-137 | verifying too late reports expiry and discards the code, so a retry reports that no code was requested |
| PasswordRecovery.RecoveryThenLogin | app/services/password_recovery_service.py:154-196 | request, wrong code, right code, reset: afterwards the old password fails to log in and the new one succeeds |
| PasswordRecovery.RequestReply | app/controllers/password_recovery_controller.py:28-34 | the request endpoint answers with the service's message and the email |
| PasswordRecovery.RequestReplyRevealsAccount | app/controllers/password_recovery_controller.py:28-34 | as written, the answers for a registered and an unregistered email differ |
| PasswordRecovery.NeutralRequestReply | app/services/password_recovery_service.py:46-53 | corrected answer: every successful request gets the neutral message |
| PasswordRecovery.NeutralReplyHidesAccount | app/services/password_recovery_service.py:46-53 | with the corrected answer, a delivered request's reply depends only on the email, not on which accounts exist |
| PasswordRecovery.RequestPasswordRecovery | app/services/password_recovery_service.py:32-93 | the response and users afterwards are `Request` of the old users; tokens are untouched |
| PasswordRecovery.VerifyRecoveryCode | app/services/password_recovery_service.py:96-151 | the response and users afterwards are `Verify` of the old users; tokens are untouched |
| PasswordRecovery.ResetPassword | app/services/password_recovery_service.py:154-196 | the response and users afterwards are `Reset` of the old users; tokens are untouched |
| UserUpdateSchemas.ValidatePath | app/schemas/user_update_schemas.py:11-17 | accepted exactly when the value is one of the five paths; the value is kept unchanged; otherwise the listing message |
| UserUpdateSchemas.ValidateScore | app/schemas/user_update_schemas.py:28-33 | accepted exactly when 0 <= score <= 100, unchanged; otherwise the score message |
| UserUpdateSchemas.ValidateSemana | app/schemas/user_update_schemas.py:57-62 | accepted exactly when 1 <= week <= 12, unchanged; otherwise the week message |
| UserUpdateSchemas.ValidateDia | app/schemas/user_update_schemas.py:64-69 | accepted exactly when 1 <= day <= 7, unchanged; otherwise the day message |
| UserUpdateSchemas.ToDict | app/schemas/user_update_schemas.py:35-43 | the dictionary's keys are exactly the five path names, each holding the matching score |

## Left out

- JWT encoding and signing: an access token is represented by its claims. The secret key and the algorithm are not modelled.
- bcrypt internals:
  - the hash is a value that records its secret and salt;
  - one-wayness is not modelled;
  - the 72-byte truncation of long secrets is not modelled.
- `secrets.token_urlsafe(64)` and `random.choices`: their outputs are parameters, so the model says nothing about their length, alphabet or distribution.
- Email delivery (`send_recovery_code_email`) is reduced to its boolean result `delivered`. The email service itself is not part of this model.
- Database sessions:
  - `commit`, `refresh` and rollback are not modelled; every write takes effect at once.
  - Primary keys and the server-side `created_at` default are not modelled; `createdAt` is the issuing instant.
- The unique constraint on the token column is modelled as a `DuplicateToken` store error, which a login or refresh reports as `StoreFailure`. The HTTP layers that turn it into a response are not modelled.
- `serialize_user_data`: the `user` of a token response is the stored `User` record, not its serialized dictionary.
- Clock readings:
  - `validate_refresh_token` reads the clock up to three times; the model uses one reading.
  - A login or refresh reads the clock separately for the access-token expiry, for the new refresh token's expiry and inside `validate_refresh_token`; the model uses one `now` for all of them.
  - `check_rate_limit` reads it twice (cleanup, decision); the model passes both.
  - Sub-second precision is dropped.
- RateLimiting.DenialRetryAfterBounded: the source truncates the retry delay with `int(...)` on a sub-second clock, so it is 0 when less than a second of the window remains. On the model's whole-second clock it is always at least 1, so that case is not modelled.
- Concurrency: the global limiter instance and simultaneous requests are not modelled. The SHA-256 digest of the key is taken to be collision-free, and the key is its input text.
- RateLimiting.RateLimiter.GetInfo returns a copy of the stored record; the source returns the live dictionary, so aliasing is not modelled.
- Routers, controllers and `dependencies.py` are not modelled, except:
  - the route names and ceilings;
  - the recovery-request reply, which is used for the finding below.
- Pydantic aggregates validation errors and checks e-mail syntax (`EmailStr`). Each validator is modelled on its own, and e-mail syntax is not checked.
- PasswordRecovery.ResetPassword keeps the source's "User not found" branch. In a sequential model that branch cannot be reached, because verification has just found the user.
- RateLimiting.RunChecks: its own contract states only the number of verdicts; the counting behaviour is stated by ChecksInOpenWindow and BurstWithinWindow.

## Findings

| source | as written | input that shows it | evidently intended | confidence | as-written member | corrected member |
|---|---|---|---|---|---|---|
| app/services/password_recovery_service.py:46-53 | the request endpoint answers "Recovery code sent to your email" for a registered email but "If this email exists, a recovery code has been sent" for an unknown one, and the controller passes that message through | a delivered request for the email of an existing account, compared with the same request against a table without that account | the reply should not reveal whether the email is registered (the comments at lines 47-48 of the service and line 30 of the controller say so) | medium, not executed | PasswordRecovery.RequestReplyRevealsAccount | PasswordRecovery.NeutralReplyHidesAccount |
