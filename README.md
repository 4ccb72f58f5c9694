# Session and token lifecycle of the backend-go authentication service

This project models, in Dafny, the part of the authentication service that
decides who holds a valid session:

- the JWT token manager (HS256 access and refresh tokens, algorithm pinning,
  expiry);
- the session repository, a database table of sessions fronted by a
  write-through cache keyed `session:id:<id>`;
- the users table, as the gorm wrapper uses it (first match by primary key,
  unique username and email);
- the five flows built on them: login by username and password, login with a
  Google ID token, refresh-token rotation, access-token introspection, logout,
  and the older registration command;
- the pagination helper and the `Authorization: Bearer` header parser.

Every store operation and every flow is written twice. First it is a
function from a state value to a `Step` (the result and the next state);
these functions carry the contracts and the lemmas. Then it is a method of a
class that holds the same state in fields and updates them in place
(`SessionRepo.SessionStore`, `UserRepo.UserStore`, `Pageable.ListQuery`), or
a flow method over those classes; each method is proved to take exactly the
step its function describes.

Whether the database answers, whether a cache client is configured and
whether the cache answers are part of the store state. The clock, the uuids
and nanoids, bcrypt salts and the Google tokeninfo reply are parameters.

The cross-flow results are in `SessionLifecycle`:

- a refresh token is accepted exactly while its jti is the one on its
  session's table row;
- replaying a rotated refresh token fails and changes nothing;
- after a logout, no token of that session is accepted by any flow;
- no flow re-activates a retired session;
- a fresh login's access token verifies and its refresh token rotates.

Tokens are symbolic: a token is its algorithm, its claims and its
signature, and a signature is valid when it equals `Mac(alg, secret,
claims)`. Distinct arguments give distinct MACs, which stands for HMAC
unforgeability. bcrypt is symbolic in the same way: a digest records the
cost, the salt and the 72-byte Blowfish key bcrypt derives from the
password (its UTF-8 bytes and a NUL, repeated cyclically), so two passwords
compare equal exactly when their keys agree.

## Model

| member | source | states |
|---|---|---|
| Token.NewJwtTokenManager | internal/infras/security/token.go:41-62 | an empty secret is an error and yields no manager; a zero TTL becomes 15 minutes (access) or 30 days (refresh), any other TTL is kept |
| Token.ManagerIsFixpoint | internal/infras/security/token.go:47-61 | building a manager from a built manager's settings gives the same manager |
| Token.SignToken | internal/infras/security/token.go:82-95 | HS256 token whose claims carry the session id, the token id, the expiry, the issue time and the subject as the canonical decimal of the subject id, signed with the manager's secret |
| Token.VerifyToken | internal/infras/security/token.go:97-113 | accepted exactly when the token parses, its algorithm is HMAC, the signature is the MAC of its claims under the secret, and now is before the expiry; then the claims are returned unchanged; malformed and non-HMAC tokens get their own errors |
| Token.GenerateTokens | internal/infras/security/token.go:64-80 | access expiry now + access TTL is returned; each token verifies with exactly its claims (same subject and session, refresh jti the caller's, access jti the drawn one) before its own expiry and is expired from then on |
| Token.SignThenVerify | internal/infras/security/token.go:82-113 | a signed token verifies exactly before its expiry, giving back the claims it was signed with |
| Token.TamperedTokenFails | internal/infras/security/token.go:99-110 | changing the claims of a signed token, or signing with another key, makes verification fail |
| Token.SubjectIsDecimal | internal/infras/security/token.go:86 | the subject of both tokens is FormatUint of the subject id, and parses back to it |
| Token.AccessAndRefreshJtiDiffer | internal/infras/security/token.go:69-74 | when the drawn access jti differs from the refresh jti, the two tokens carry different jtis |
| Strconv.FormatUint | internal/infras/security/token.go:86 | the canonical decimal digit string whose value is n, starting with 0 only for zero |
| Strconv.FormatOfCanonical | internal/infras/security/token.go:86 | rendering the value of a canonical digit string gives the string back, so rendering is injective |
| Strconv.ParseUint32 | pkgs/utils/pageable/pageable.go:41-44 | succeeds exactly on non-empty ASCII digit strings whose value fits in 32 bits, giving that value; it is a range error exactly when the leading run of digits already exceeds 32 bits, even if a non-digit follows; every other failure is a syntax error |
| Strconv.ParseIsScan | pkgs/utils/pageable/pageable.go:41-44 | the parse agrees on every input with a left-to-right scan that stops at the first non-digit (syntax error) or at the first digit that takes the value past 32 bits (range error) |
| Strconv.OverflowBeforeLetter | pkgs/utils/pageable/pageable.go:41-44 | "4294967296x" is a range error and "12x" a syntax error |
| Strconv.ParseFormatRoundTrip | pkgs/utils/pageable/pageable.go:41 | parsing the rendering of a 32-bit value gives the value |
| Strconv.FormatParseRoundTrip | pkgs/utils/pageable/pageable.go:41 | rendering what a canonical string parses to gives the string |
| Strings.TrimSpace | internal/application/auth/command/register_cmd.go:37 | the result is the infix of the input left after dropping only white space at both ends, has no white space at its ends, is empty exactly when the input is all white space, and is the input itself when it has none at its ends |
| Strings.TrimSpaceIdempotent | internal/application/auth/command/register_cmd.go:47-61 | trimming twice is trimming once |
| Strings.TrimSpaceOfPadded | internal/tranport/http/handler/auth_handler.go:101 | TrimSpace removes exactly the white-space padding around a string with no white space at its ends |
| Password.HashPassword | internal/infras/security/password.go:7-18 | a cost below bcrypt's minimum of 4 (non-positive here, 1 to 3 inside bcrypt) becomes the default 10; hashing fails exactly when the password exceeds 72 UTF-8 bytes or the cost exceeds 31, and a too-long password is its own error; the digest holds the salt and the bcrypt key of the password's UTF-8 bytes |
| Password.Utf8Injective | internal/infras/security/password.go:7-22 | distinct strings have distinct UTF-8 encodings, so the bytes bcrypt sees determine the password |
| Password.BcryptKey | internal/infras/security/password.go:7-22 | the key is 72 bytes: the password bytes, then a NUL, then the same pattern again, period one more than the password length |
| Password.HashThenCompare | internal/infras/security/password.go:20-22 | a successful hash compares equal to its password, and to another password exactly when the two give the same bcrypt key |
| Password.ShortPasswordsCompareExactly | internal/infras/security/password.go:20-22 | among passwords of at most 71 bytes without NUL, a hash compares equal to its own password and to no other |
| Password.LongerPasswordMatches | internal/infras/security/password.go:20-22 | the hash of a 72-byte password also compares equal to that password with anything appended |
| Password.NulRepetitionMatches | internal/infras/security/password.go:20-22 | the hash of "a" compares equal to "a\0a" |
| Password.DefaultCostFailsOnlyOnLength | internal/infras/security/password.go:7-18 | at the default cost, hashing fails only on a password longer than 72 bytes, so never on one of at most 18 characters |
| Models.ProfileOf | internal/application/auth/query/login_by_user_pass_qry.go:87-97 | the profile copies the account's id, names, email and username |
| SessionRepo.CacheKey | internal/infras/repository/session/repos_impl.go:137-139 | the key is exactly the prefix "session:id:" followed by the id |
| SessionRepo.CacheKeyInjective | internal/infras/repository/session/repos_impl.go:137-139 | two sessions share a cache key exactly when they share an id |
| SessionRepo.GetCache | internal/infras/repository/session/repos_impl.go:141-157 | a hit exactly when a cache is configured, answers and holds the key; with no cache configured it fails |
| SessionRepo.SetCacheAsWritten | internal/infras/repository/session/repos_impl.go:159-166 | as written, writing with no cache configured panics |
| SessionRepo.SetCache | internal/infras/repository/session/repos_impl.go:159-166 | with a cache configured it is setCache as written: overwrite the session's own entry, or the cache error; with none it does nothing; the table is never touched |
| SessionRepo.WriteThroughKeepsCoherent | internal/infras/repository/session/repos_impl.go:88-97 | with unique ids and a coherent cache that is absent or answering, saving a row and writing it through keeps every cache entry equal to its table row |
| SessionRepo.CreateStep | internal/infras/repository/session/repos_impl.go:30-43 | a supplied id is kept, an empty one replaced by the generated id; refused on a taken id or refresh jti; the row is inserted, then the cache is written, and a cache error is returned with the row already stored; with the database up and the id and jti free the new state is exactly the insert followed by the cache write, and on success the cache holds the row under its key when a cache is configured; the database, cache-configured and cache-up flags never change; unique jtis and cache coherence are preserved |
| SessionRepo.FindStep | internal/infras/repository/session/repos_impl.go:45-58 | a cache hit is returned with nothing changed; on a miss the table row is returned and written to the cache, a missing row is record-not-found and a down database an error; only the cache may change, unique jtis and coherence are kept, and with a coherent cache the row returned is the table row |
| SessionRepo.FindByRefreshJtiStep | internal/infras/repository/session/repos_impl.go:60-71 | found exactly when some row holds the jti; the row returned holds it, and is the only one when jtis are unique |
| SessionRepo.UpdateStep | internal/infras/repository/session/repos_impl.go:88-97 | with the database up and no other row holding its refresh jti, the row is written under its id and the new state is that write followed by the cache write; on success a configured cache holds the row under its key; the flags never change |
| SessionRepo.RotateStep | internal/infras/repository/session/repos_impl.go:99-118 | compare-and-swap on the table row: succeeds only when the row holds the old jti, and then sets the new jti and last-used time, leaving every other field, and writes the rotated row to the cache under its key; a missing row or another jti is record-not-found with nothing changed; the flags never change |
| SessionRepo.DeactivateStep | internal/infras/repository/session/repos_impl.go:120-135 | a found row is saved inactive with a fresh last-used time and written to the cache under its key, the new state being exactly that save and cache write; a missing row is record-not-found; the flags never change |
| SessionRepo.SessionStore.Create | internal/infras/repository/session/repos_impl.go:30-43 | takes exactly the step CreateStep describes on the store's fields |
| SessionRepo.SessionStore.FindByID | internal/infras/repository/session/repos_impl.go:45-58 | takes exactly the step FindStep describes |
| SessionRepo.SessionStore.FindBySessionID | internal/infras/repository/session/repos_impl.go:73-86 | takes exactly the step FindStep describes |
| SessionRepo.SessionStore.FindByRefreshJTI | internal/infras/repository/session/repos_impl.go:60-71 | takes exactly the step FindByRefreshJtiStep describes |
| SessionRepo.SessionStore.Update | internal/infras/repository/session/repos_impl.go:88-97 | takes exactly the step UpdateStep describes |
| SessionRepo.SessionStore.RotateRefreshJTI | internal/infras/repository/session/repos_impl.go:99-118 | takes exactly the step RotateStep describes |
| SessionRepo.SessionStore.Deactivate | internal/infras/repository/session/repos_impl.go:120-135 | takes exactly the step DeactivateStep describes |
| UserRepo.Find | internal/infras/repository/user/repos_impl.go:39-76 | with the database down it fails; otherwise it returns the matching row with the least id, and finds one exactly when some row matches |
| UserRepo.FindUnique | internal/infras/repository/user/repos_impl.go:39-63 | with unique usernames and emails, a lookup by username or email returns the one row holding it |
| UserRepo.CreateStep | internal/infras/repository/user/repos_impl.go:21-25 | inserted under the next id unless the username or email is taken; the unique indexes and id bounds are preserved |
| UserRepo.UpdateStep | internal/infras/repository/user/repos_impl.go:99-103 | a zero id is an insert; any other id is written in place unless another row holds the username or email |
| UserRepo.UserStore.FindByUsername | internal/infras/repository/user/repos_impl.go:39-50 | returns Find by username on the current table |
| UserRepo.UserStore.FindByEmail | internal/infras/repository/user/repos_impl.go:52-63 | returns Find by email on the current table |
| UserRepo.UserStore.FindByOIDC | internal/infras/repository/user/repos_impl.go:65-76 | returns Find by (provider, subject) on the current table |
| UserRepo.UserStore.Create | internal/infras/repository/user/repos_impl.go:21-25 | takes exactly the step CreateStep describes |
| UserRepo.UserStore.Update | internal/infras/repository/user/repos_impl.go:99-103 | takes exactly the step UpdateStep describes |
| LoginCommon.StartSessionStep | internal/application/auth/query/login_by_user_pass_qry.go:61-85 | on success exactly one active row is added for the account under a new id, holding the jti the refresh token carries, and both tokens verify with the session id and the account id in decimal; a create failure returns its error and issues no token |
| LoginCommon.StartSession | internal/application/auth/query/login_by_user_pass_qry.go:61-85 | takes exactly the step StartSessionStep describes |
| LoginByUserPass.LoginStep | internal/application/auth/query/login_by_user_pass_qry.go:41-99 | unknown username is ErrUserNotFound, other lookup errors propagate, a wrong password is ErrInvalidUserOrPwd with no session; success means the password matched and exactly one active session for the account was added |
| LoginByUserPass.Handle | internal/application/auth/query/login_by_user_pass_qry.go:41-99 | takes exactly the step LoginStep describes |
| LoginByGoogle.VerifyIdTokenAsWritten | internal/infras/httpclient/oidc/google.go:44-64 | as written, an error status returns neither info nor error |
| LoginByGoogle.CheckIdTokenAsWritten | internal/application/auth/query/login_by_google_qry.go:50-58 | as written, a nil info with no error is dereferenced |
| LoginByGoogle.RejectedTokenPanics | internal/application/auth/query/login_by_google_qry.go:50-56 | a token rejected with an error status crashes the handler as written, and is ErrInvalidToken with the corrected verifier |
| LoginByGoogle.VerifyIdToken | internal/infras/httpclient/oidc/google.go:44-64 | any reply other than a decoded answer is an error |
| LoginByGoogle.CheckClaims | internal/application/auth/query/login_by_google_qry.go:56-58 | passes exactly when the email is non-empty, email_verified is "true" and the audience is the client id |
| LoginByGoogle.CheckIdToken | internal/application/auth/query/login_by_google_qry.go:50-58 | a verifier failure or a failed claim check is ErrInvalidToken |
| LoginByGoogle.FirstNameOf | internal/application/auth/query/login_by_google_qry.go:139-146 | the trimmed given name, else the trimmed full name, else "Google"; never empty, no white space at its ends |
| LoginByGoogle.LastNameOf | internal/application/auth/query/login_by_google_qry.go:140-149 | the trimmed family name, else "User" |
| LoginByGoogle.CreateUserStep | internal/application/auth/query/login_by_google_qry.go:138-178 | the new row has username and email the Google email, is linked to ("google", subject), active, named by FirstNameOf/LastNameOf, with a hash of the random password, under the next id |
| LoginByGoogle.ResolveStep | internal/application/auth/query/login_by_google_qry.go:60-85 | by (provider, subject) first, then by email, and a new account only when both are record-not-found; other lookup errors propagate; the users table changes only when an account is created |
| LoginByGoogle.LinkStep | internal/application/auth/query/login_by_google_qry.go:87-97 | an account with an empty provider or subject is linked to ("google", subject) and saved; a linked account is left as it is |
| LoginByGoogle.LoginStep | internal/application/auth/query/login_by_google_qry.go:49-136 | failed verification or claims is ErrInvalidToken and touches no store; success means the returned profile is that of a stored, linked account and exactly one active session for it was added |
| LoginByGoogle.CreateUserFromGoogle | internal/application/auth/query/login_by_google_qry.go:138-178 | takes exactly the step CreateUserStep describes |
| LoginByGoogle.ResolveAccount | internal/application/auth/query/login_by_google_qry.go:60-85 | takes exactly the step ResolveStep describes |
| LoginByGoogle.LinkAccount | internal/application/auth/query/login_by_google_qry.go:87-97 | takes exactly the step LinkStep describes |
| LoginByGoogle.Handle | internal/application/auth/query/login_by_google_qry.go:49-136 | takes exactly the step LoginStep describes |
| RefreshTokenQuery.RefreshStep | internal/application/auth/query/refresh_token_qry.go:32-89 | an unverified token is ErrInvalidToken before any store access; success requires the table row to hold the presented jti and leaves it rotated to the fresh one; failures are only invalid-token, store or cache errors, and only a cache error can follow a write |
| RefreshTokenQuery.RefreshIssuesTokens | internal/application/auth/query/refresh_token_qry.go:51-88 | with a coherent cache, a successful refresh was for an active session, and both new tokens name it and its user, the refresh token with the fresh jti, each verifying until its own expiry |
| RefreshTokenQuery.Handle | internal/application/auth/query/refresh_token_qry.go:32-89 | takes exactly the step RefreshStep describes |
| VerifyTokenQuery.VerifyStep | internal/application/auth/query/verify_token_qry.go:30-60 | the table is never written; success exactly when the token verifies, the session is found and active and the subject non-empty, and then the claims are echoed unchanged |
| VerifyTokenQuery.Handle | internal/application/auth/query/verify_token_qry.go:30-60 | takes exactly the step VerifyStep describes |
| LogoutCommand.LogoutStep | internal/application/auth/command/logout_cmd.go:30-64 | an unverified token is ErrInvalidToken and nothing is deactivated; success means exactly the session the claims name was retired; Deactivate's error is returned unchanged |
| LogoutCommand.Handle | internal/application/auth/command/logout_cmd.go:30-64 | takes exactly the step LogoutStep describes |
| RegisterCommand.CreateStep | internal/application/auth/command/register_cmd.go:47-68 | the inserted row sits under the next id, has the trimmed first name and username, the trimmed username as email, the trimmed last name or "User", is active and holds a hash of the password |
| RegisterCommand.IssueStep | internal/application/auth/command/register_cmd.go:70-98 | on success the row holds a hash of the returned refresh token, the tokens are those issued for the row's id, and the profile is the row's |
| RegisterCommand.CreateAndIssueStep | internal/application/auth/command/register_cmd.go:47-98 | on success exactly one row is added under the next id, made from the request and holding a hash of the returned refresh token, and the profile and tokens are that row's; the users-table invariant is preserved |
| RegisterCommand.CreateAndIssueOk | internal/application/auth/command/register_cmd.go:47-98 | the success facts of CreateAndIssueStep, and that a registration succeeds only with the database up, which it leaves up |
| RegisterCommand.RegisterStep | internal/application/auth/command/register_cmd.go:33-100 | a missing request and a blank required field are errors before any store access; an existing username is ErrUserAlreadyExists and creates nothing; other lookup errors propagate; the table changes only after a not-found lookup |
| RegisterCommand.LongRefreshTokenFailsAfterCreate | internal/application/auth/command/register_cmd.go:66-78 | a refresh token over 72 bytes makes registration fail with the user row already created |
| RegisterCommand.FingerprintIssueStep | internal/application/auth/command/register_cmd.go:70-98 | lines 70-98 with the refresh token fingerprinted before bcrypt: once tokens are issued it succeeds exactly when the database is up and no other row holds the username or email, and the row then holds a hash of the fingerprint |
| RegisterCommand.FingerprintCreateAndIssueStep | internal/application/auth/command/register_cmd.go:47-98 | a failed insert returns its error and changes nothing |
| RegisterCommand.FingerprintRegistrationSucceeds | internal/application/auth/command/register_cmd.go:47-98 | with the fingerprint, registration succeeds exactly when the insert and the token generation do, whatever the refresh token's length |
| RegisterCommand.RegisterTwiceFails | internal/application/auth/command/register_cmd.go:41-68 | registering the same request again fails with ErrUserAlreadyExists or a duplicate key and changes nothing, and with ErrUserAlreadyExists when the username has no surrounding white space |
| RegisterCommand.Handle | internal/application/auth/command/register_cmd.go:33-100 | takes exactly the step RegisterStep describes |
| RegisterCommand.CreateAndIssue | internal/application/auth/command/register_cmd.go:47-98 | takes exactly the step CreateAndIssueStep describes |
| RegisterCommand.CreateUser | internal/application/auth/command/register_cmd.go:47-68 | takes exactly the step CreateStep describes |
| RegisterCommand.IssueFor | internal/application/auth/command/register_cmd.go:70-98 | takes exactly the step IssueStep describes |
| SessionLifecycle.StaleRefreshTokenFails | internal/application/auth/query/refresh_token_qry.go:51-82 | a verified refresh token whose jti is not on its session's table row is refused and the table is unchanged, even with a stale cache |
| SessionLifecycle.CurrentRefreshTokenRotates | internal/application/auth/query/refresh_token_qry.go:51-88 | with the stores up and the new jti free, the refresh token whose jti is on its live session's row is rotated |
| SessionLifecycle.ReplayedRefreshTokenFails | internal/application/auth/query/refresh_token_qry.go:52-72 | after a rotation to a different jti, presenting the old refresh token again at any time fails and changes nothing |
| SessionLifecycle.RotatedTokenIsCurrent | internal/application/auth/query/refresh_token_qry.go:62-88 | the refresh token a rotation returns is the current token of a live session |
| SessionLifecycle.RetiredSessionRejected | internal/application/auth/query/verify_token_qry.go:47-52 | a token naming an inactive session is refused by verify, refresh and logout, and the table is unchanged |
| SessionLifecycle.LogoutRetires | internal/application/auth/command/logout_cmd.go:56 | a successful logout leaves the token's session stored and inactive |
| SessionLifecycle.NoTokenWorksAfterLogout | internal/application/auth/command/logout_cmd.go:56 | in the state a logout leaves, every token of that session is refused by verify, refresh and logout at any time; with RetiredStaysRetired and RetiredSessionRejected this extends to every later coherent state |
| SessionLifecycle.RetiredStaysRetired | internal/infras/repository/session/repos_impl.go:99-135 | no flow re-activates an inactive session |
| SessionLifecycle.LoginThenVerify | internal/application/auth/query/verify_token_qry.go:30-60 | a login's access token verifies until its expiry, naming the new session and the account in decimal |
| SessionLifecycle.LoginThenRefresh | internal/application/auth/query/refresh_token_qry.go:32-89 | a login's refresh token rotates before its expiry while the stores answer |
| SessionLifecycle.PasswordLoginThenVerify | internal/application/auth/query/login_by_user_pass_qry.go:41-99 | the password login's access token verifies, naming the account found by username |
| Pageable.ParsedSize | pkgs/utils/pageable/pageable.go:35-52 | empty text is 15; otherwise the parse error, or the value clamped to 100 |
| Pageable.ParsedPage | pkgs/utils/pageable/pageable.go:55-67 | empty text is 1; otherwise the parse error, or the value |
| Pageable.ParsedSizeOfDecimal | pkgs/utils/pageable/pageable.go:41-49 | a decimal size is read back as itself up to 100 and as 100 above |
| Pageable.ParsedPageOfDecimal | pkgs/utils/pageable/pageable.go:60-64 | a decimal page is read back as itself |
| Pageable.ListQuery.SetSize | pkgs/utils/pageable/pageable.go:35-52 | stores the parsed size, or returns the parse error and keeps the size; the page is untouched |
| Pageable.ListQuery.SetPage | pkgs/utils/pageable/pageable.go:55-67 | stores the parsed page, or returns the parse error and keeps the page; the size is untouched |
| Pageable.ListQuery.GetOffset | pkgs/utils/pageable/pageable.go:70-75 | 0 on page 0; with positive page and size it is the start of the page |
| Pageable.ListQuery.GetLimit | pkgs/utils/pageable/pageable.go:77-82 | at least 1, and the size exactly when the size is positive |
| Pageable.ListQuery.GetPage | pkgs/utils/pageable/pageable.go:83-88 | at least 1, and the page exactly when the page is positive |
| Pageable.ListQuery.GetSize | pkgs/utils/pageable/pageable.go:90-95 | equals GetLimit |
| Pageable.ListQuery.PageStart | pkgs/utils/pageable/pageable.go:70-88 | the offset of the current page under the defaulted page and limit: non-negative and inside the first GetPage() pages |
| Pageable.ListQuery.GetTotalPages | pkgs/utils/pageable/pageable.go:97-100 | the ceiling of totalCount over GetLimit |
| Pageable.TotalPagesUnique | pkgs/utils/pageable/pageable.go:97-100 | the page count is the only count meeting the ceiling bounds |
| Pageable.HasMoreIffRowsBeyondPage | pkgs/utils/pageable/pageable.go:102-104 | more pages follow exactly when some row lies beyond the current page |
| Pageable.PagesAreAdjacent | pkgs/utils/pageable/pageable.go:70-88 | the next page starts exactly one page further on |
| Pageable.ZeroSizeOffsetRepeatsFirstPage | pkgs/utils/pageable/pageable.go:70-82 | with page 2 and size 0, GetOffset is 0 while the limit is 15 and the page actually starts at 15 |
| AuthHandler.ExtractBearerToken | internal/tranport/http/handler/auth_handler.go:88-108 | empty header is ErrMissingAuthHeader; no exact "Bearer " prefix, or a blank remainder, is ErrInvalidAuthHeader; otherwise the trimmed remainder, non-empty with no white space at its ends |
| AuthHandler.BearerRoundTrip | internal/tranport/http/handler/auth_handler.go:95-107 | "Bearer " followed by a token with any white-space padding gives the token back |
| AuthHandler.LowerCaseSchemeRefused | internal/tranport/http/handler/auth_handler.go:95-99 | the scheme is case-sensitive: a "bearer " header is refused |

## Left out

- Concurrency: the rotation transaction reads and then saves without a row lock; every operation is one atomic sequential step, and replay rejection is stated sequentially.
- HTTP transport, routing, request binding and validation, and the rest of the auth handler; the bearer parser takes the header value as input.
- Infrastructure I/O: configuration, the Postgres and Redis clients, health checks and logging. The table and the cache are maps; a failing database or cache is a flag in the state.
- Cache TTL and eviction: a cache entry stays until overwritten; eviction is a cache miss, which the model already allows.
- gorm's inline condition `First(item, id)` with a string id (FindByID and FindBySessionID at lines 51 and 79 of internal/infras/repository/session/repos_impl.go, and Deactivate at line 123) is modelled as the primary-key lookup the code intends. gorm reads a string that is not a number as a raw SQL condition (`WHERE <id>`), so with nanoid session ids every Deactivate, and so every logout, and every FindByID that misses the cache would fail or match the wrong rows in the code as written. LogoutRetires and NoTokenWorksAfterLogout are stated for the intended lookup.
- Token signing failures (lines 70-71 and 75-76 of token.go) cannot happen with HS256 and a byte-slice key, so GenerateTokens is total and the flows' branches for a generation error are not modelled.
- JWT serialisation, JSON and base64 are not modelled: a token is its algorithm, claims and signature, and HMAC is a free constructor.
- `ExpiresIn` is read off the wall clock with floating point; the flows return the access expiry instead.
- Time is whole seconds; JWT NumericDate truncation is not modelled. signToken reads the clock a second time for the issue time (line 89 of internal/infras/security/token.go); the model uses the caller's `now` for the issue time as well.
- bcrypt is symbolic: the cost, the salt and the 72-byte key are kept; the Blowfish key schedule, the salt mixing and the hash text format are not modelled, so distinct keys never collide.
- Password.ComparePassword: does not model that a stored hash of a password over 72 bytes cannot arise, nor bcrypt's check of the cost encoded in the hash.
- uuid and nanoid generation are parameters of the flows; freshness is an explicit hypothesis where a lemma needs it.
- The Google tokeninfo call is a reply parameter (a decoded answer, a transport failure or an error status).
- The configured Google client id is a parameter.
- Go's uint64 and int widths are unbounded here: user ids, page arithmetic and the decimal rendering have no overflow.
- Pageable.ListQuery.GetTotalPages: the source divides in float64 and takes the ceiling; the model takes the exact ceiling, which agrees while counts stay below 2^53.
- The Search, SortField, SortDirection, FromDate and ToDate fields of the list query are not read by the modelled helpers and are left out.
- Token.NewJwtTokenManager: os.Exit on an empty secret is modelled as an error result with no manager.
- UserRepo.CreateStep: gorm would keep a non-zero id set on the row before Create; every modelled caller passes id 0, so the model always assigns the next id.
- UserRepo.UpdateStep: saving a new id above the sequence moves the sequence past it, a simplification of Postgres's separate sequence.
- SessionRepo.SessionStore.FindByRefreshJTI: requires the store invariant (unique refresh jtis) so the row found is determined; the source relies on the unique index for the same thing.
- The token generation used by the registration command is a parameter (a function from the user id to the issued tokens or an error), because that command calls an older one-argument GenerateTokens.
- The unrelated task repository and models, the decorators, the mappers, the datetime and validator wrappers, and the mocks are not part of this model.

## Findings

| source | as written | input that shows it | evidently intended | confidence | as-written member | corrected member |
|---|---|---|---|---|---|---|
| internal/infras/repository/session/repos_impl.go:159-166 | setCache calls Set on the cache client without the nil check getCache makes, so a repository built without a cache panics on every write-through | a repository created with a nil cache client, then any Create, Update, RotateRefreshJTI, Deactivate, or a FindByID miss | no cache configured means no cache write, as getCache treats it | medium, not executed | SessionRepo.SetCacheAsWritten | SessionRepo.SetCache |
| internal/infras/httpclient/oidc/google.go:55-60 | on an error status, VerifyIDToken returns the transport error, which is nil there, beside a nil info; the Google login then reads info.Email through the nil pointer | an ID token that the tokeninfo endpoint rejects with status 400 | an error status is a verification failure, answered with ErrInvalidToken | high, not executed | LoginByGoogle.CheckIdTokenAsWritten | LoginByGoogle.CheckIdToken |
| internal/application/auth/command/register_cmd.go:66-78 | the user row is inserted first, then the refresh token is hashed with bcrypt, which refuses more than 72 bytes; every HS256 refresh JWT is longer, so registration returns an error and leaves the row behind | any valid request with a free username and the stores up: the signed refresh token is over 72 bytes | hash a fixed-length fingerprint of the refresh token, so a registration whose insert succeeds fails only when token generation does | high, not executed | RegisterCommand.LongRefreshTokenFailsAfterCreate | RegisterCommand.FingerprintRegistrationSucceeds |
| pkgs/utils/pageable/pageable.go:70-75 | GetOffset multiplies the raw Page and Size, while GetLimit and GetPage default a non-positive size to 15 and page to 1 | SetSize("0") then Page 2: offset 0 with limit 15, so page 2 repeats page 1 | the offset of page GetPage() under GetLimit() rows per page | low, not executed | Pageable.ZeroSizeOffsetRepeatsFirstPage | Pageable.ListQuery.PageStart |
