# OraBank user service: accounts, lockout and tokens in Dafny

This project models the authentication core of the OraBank user service.

- **`UserServiceImpl`** handles sign-up, sign-in with account lockout, and the two account lookups.
- **`User`** is the entity behind the `users` table.
- **`JWTService`** issues and checks the HS256-signed JSON Web Tokens.
- **`JWTAuthenticationFilter`** turns a `Bearer` header into an authenticated principal.

The model follows the source's form:

- **Service.** `UserServiceImpl.UserService` is a class. Its `users` field is a map from id to row; it stands in for the JPA repository. A second field, `welcomeTopic`, records the messages handed to the broker. `SignUp` builds a new `User` entity and persists it through `Insert` (JPA persist). `SignIn` loads a fresh `User` entity, changes its counter and lock flag in place, and writes it back through `Update` (JPA merge), as the Java does.
  - Each service method is proved equal to a function on the table: `SignUpSpec`, `SignInSpec`, or `GuardAttempt` for one account.
  - The lockout invariant is proved about those functions, and so is the path from sign-up through sign-in to an authenticated request.
- **Entity.** `User` is a class with the two lifecycle hooks. `UserRecord` is the row value, and `WellFormed` is the bean-validation constraint set.
- **Token service.** `Jwt` is pure. It is a configuration value (secret, lifetime, and the opaque JWS primitives) plus functions of the token and the current instant.
  - A token is in the compact serialisation of section 7.1 of RFC 7515: `header.payload.signature`.
  - Signing, verification and payload encoding are parameters. They are constrained only by the laws in `Jwt.Lawful`.
- **Filter.** `AuthenticationFilter.JwtAuthenticationFilter.DoFilterInternal` updates a `SecurityContext` object. It returns how often the rest of the chain ran and what escaped.

These values from outside the service are parameters:

- the clock (`now`, in milliseconds);
- BCrypt's random salt;
- the id the database generates;
- how the Kafka send ends;
- how the rest of the filter chain ends.

### Token lifetime as the code has it

A token is commonly read as valid strictly before issue time + lifetime. The code differs in two ways, and the model follows the code:

- jjwt stores `exp` in whole seconds, truncating the milliseconds.
- The parser rejects a token only once `exp` is strictly before now.

So a token issued at `t` with lifetime `T` seconds is valid up to and including `Seconds(t + 1000·T)·1000`, where `Seconds` divides by 1000 truncating toward zero (the floor for non-negative instants). For a non-negative instant that is up to 999 ms before `t + 1000·T`, and still valid exactly at that instant (`Jwt.ExpiryInstant`, `Jwt.IssuedTokenValidity`).

## Model

Source paths are relative to the repository root.

| member | source | states |
|---|---|---|
| UserServiceImpl.UserService.SignUp | src/main/java/com/jayatheerth/userservice/service/UserServiceImpl.java:60-107 | The table ends as `SignUpSpec` says and the result is the one `SignUpSpec` gives. A welcome message is added to the topic only when sign-up succeeded and the broker accepted it. The store invariant is kept. |
| UserServiceImpl.SignUpSpec | src/main/java/com/jayatheerth/userservice/service/UserServiceImpl.java:64-105 | A taken email gives CONFLICT and changes nothing. Sign-up succeeds exactly when the email is free, the id is new and the row passes validation. On success the table gains exactly that row, and the answer is that row's sign-up response: the new id, active and unlocked. Any error leaves the table unchanged. |
| UserServiceImpl.NewAccount | src/main/java/com/jayatheerth/userservice/service/UserServiceImpl.java:70-80 | A new account is active and unlocked, has no failures, and satisfies the lockout invariant. |
| UserServiceImpl.UserService.NewEntity | src/main/java/com/jayatheerth/userservice/service/UserServiceImpl.java:70-80 | The new entity carries the request's profile, the encoded password (not the raw one) and the defaults. It has no id and no timestamps yet. |
| UserServiceImpl.SignUpKeepsInvariant | src/main/java/com/jayatheerth/userservice/service/UserServiceImpl.java:64-83 | Sign-up keeps the store invariant: rows filed under their own id, valid, satisfying the lockout invariant, and emails unique. |
| UserServiceImpl.UserService.SendWelcomeNotification | src/main/java/com/jayatheerth/userservice/service/UserServiceImpl.java:116-130 | `{recipient, name}` is appended to the topic only when publishing works. A serialisation or send failure leaves the topic as it was, and nothing is raised. |
| UserServiceImpl.UserService.SignIn | src/main/java/com/jayatheerth/userservice/service/UserServiceImpl.java:144-196 | Performed step by step on a loaded entity, sign-in leaves exactly the table and result that `SignInSpec` gives, and keeps the store invariant. |
| UserServiceImpl.GuardAttempt | src/main/java/com/jayatheerth/userservice/service/UserServiceImpl.java:155-177 | The lock is checked before the password. A locked account changes nothing. A wrong password adds exactly one failure and locks the account at 5. A right one clears the failures. Only the counter and the lock flag change. The verdict is Authenticated exactly when the account is unlocked and the password matches. The lockout invariant is preserved. |
| UserServiceImpl.SignInSpec | src/main/java/com/jayatheerth/userservice/service/UserServiceImpl.java:148-185 | An unknown email gives NOT_FOUND and changes no record. A successful sign-in answers with the id of the account that has that email. |
| UserServiceImpl.SignInOnAccount | src/main/java/com/jayatheerth/userservice/service/UserServiceImpl.java:148-185 | For a stored account, under the store invariant:<br>• Locked: FORBIDDEN and nothing changes, whatever the password.<br>• Not locked: the save cannot fail, and only that account's counter, lock flag and updatedAt change (createdAt kept). A wrong password gives FORBIDDEN at the threshold and UNAUTHORIZED below it. A right password gives a token for that account with `expiresIn` equal to the configured lifetime; it fails only with the signing-key error. |
| UserServiceImpl.SignInKeepsInvariant | src/main/java/com/jayatheerth/userservice/service/UserServiceImpl.java:155-178 | Sign-in keeps the store invariant. |
| UserServiceImpl.ExistsByEmail | src/main/java/com/jayatheerth/userservice/service/UserServiceImpl.java:64 | `existsByEmail` holds exactly when the email is among the stored rows' emails. |
| UserServiceImpl.SignUpResponseOf | src/main/java/com/jayatheerth/userservice/service/UserServiceImpl.java:90-97 | The sign-up answer carries the saved row's id, email, names, active and locked flags, and createdAt. |
| UserServiceImpl.UserResponseOf | src/main/java/com/jayatheerth/userservice/service/UserServiceImpl.java:219-229 | The profile answer carries the row's id, email, phone, names, date of birth, address, flags and createdAt. |
| UserServiceImpl.StatusOf | src/main/java/com/jayatheerth/userservice/service/UserServiceImpl.java:263-267 | The status answer carries the row's id, active and locked flags, and failure counter. |
| UserServiceImpl.ResponsesHideSecrets | src/main/java/com/jayatheerth/userservice/service/UserServiceImpl.java:90-267 | No answer depends on the password hash or updatedAt. The status answer does not depend on the profile columns either. |
| UserServiceImpl.FindByEmail | src/main/java/com/jayatheerth/userservice/service/UserServiceImpl.java:148-152 | A row comes back exactly when one has that email, and it is a stored row with that email. |
| UserServiceImpl.FindByEmailUnique | src/main/java/com/jayatheerth/userservice/entity/User.java:55 | Under the unique email column, the lookup by an account's email returns that account. |
| UserServiceImpl.Merge | src/main/java/com/jayatheerth/userservice/entity/User.java:131-156 | Saving an unchanged entity writes nothing. Otherwise:<br>• created_at keeps its stored value;<br>• updated_at is stamped;<br>• every other column comes from the entity;<br>• the save fails only when validation does;<br>• a valid stored row stays valid. |
| UserServiceImpl.UserService.LoadByEmail | src/main/java/com/jayatheerth/userservice/service/UserServiceImpl.java:148-152 | Returns a fresh, persisted entity holding exactly the row with that email, or nothing when no row has it. |
| UserServiceImpl.UserService.Insert | src/main/java/com/jayatheerth/userservice/service/UserServiceImpl.java:83 | Persisting sets the generated id and runs @PrePersist. The insert succeeds exactly when the id is new and the row is valid, and only then does the table gain the row. |
| UserServiceImpl.UserService.Update | src/main/java/com/jayatheerth/userservice/service/UserServiceImpl.java:167-178 | Saving a loaded entity changes the table exactly as `Merge` says. The entity's own updatedAt is stamped with the instant when it differs from the stored row (@PreUpdate ran), and is left as it was otherwise. |
| UserServiceImpl.UserService.GetUser | src/main/java/com/jayatheerth/userservice/service/UserServiceImpl.java:206-239 | Succeeds exactly when the id is stored, with the stored profile fields and that id. Otherwise NOT_FOUND. Nothing changes. |
| UserServiceImpl.UserService.GetStatus | src/main/java/com/jayatheerth/userservice/service/UserServiceImpl.java:250-276 | Succeeds exactly when the id is stored, with that id and the stored flags and counter. Otherwise NOT_FOUND. Nothing changes. |
| UserServiceImpl.UserService.constructor | src/main/java/com/jayatheerth/userservice/service/UserServiceImpl.java:35-46 | The service starts with an empty table and topic, and satisfies the store invariant. |
| UserServiceImpl.Replay | src/main/java/com/jayatheerth/userservice/service/UserServiceImpl.java:155-178 | A run of password checks never changes an account's id, email or password. |
| UserServiceImpl.ReplayKeepsLockout | src/main/java/com/jayatheerth/userservice/service/UserServiceImpl.java:155-171 | After any run of password checks, the counter stays in 0..5 and is 5 exactly when the account is locked. |
| UserServiceImpl.LockedStaysLocked | src/main/java/com/jayatheerth/userservice/service/UserServiceImpl.java:155-158 | No sign-in unlocks an account. A locked account is left exactly as it is. |
| UserServiceImpl.ConsecutiveFailures | src/main/java/com/jayatheerth/userservice/service/UserServiceImpl.java:161-168 | After n wrong passwords in a row, the counter is `min(k + n, 5)` and the account is locked exactly when `k + n >= 5`. |
| UserServiceImpl.SuccessClearsFailures | src/main/java/com/jayatheerth/userservice/service/UserServiceImpl.java:177-178 | A right password on an unlocked account clears the failures, whatever came before. |
| UserServiceImpl.ReplayIgnoresUpdatedAt | src/main/java/com/jayatheerth/userservice/service/UserServiceImpl.java:155-178 | The lockout guard neither reads nor writes updatedAt. |
| UserServiceImpl.ReplayAppend | src/main/java/com/jayatheerth/userservice/service/UserServiceImpl.java:155-178 | Checks run one after another: replaying `checks + [c]` is replaying `checks`, then `c`. |
| Scenarios.RunKeepsInvariant | src/main/java/com/jayatheerth/userservice/service/UserServiceImpl.java:60-276 | Every sequence of sign-ups, sign-ins and lookups keeps the store invariant. |
| Scenarios.LockoutInvariantFromEmpty | src/main/java/com/jayatheerth/userservice/service/UserServiceImpl.java:80-171 | From an empty table, after any calls:<br>• every counter lies in 0..5;<br>• a counter is 5 exactly when the account is locked;<br>• every row is valid;<br>• emails are unique. |
| Scenarios.WrongPasswordAttempt | src/main/java/com/jayatheerth/userservice/service/UserServiceImpl.java:161-173 | A wrong password on an unlocked account adds one failure and saves. The account locks and the answer is FORBIDDEN at 5; below 5 the answer is UNAUTHORIZED. |
| Scenarios.ConsecutiveWrongSignIns | src/main/java/com/jayatheerth/userservice/service/UserServiceImpl.java:161-173 | Up to the threshold, each wrong password in a row adds one saved failure. The account locks, and the answer turns from UNAUTHORIZED to FORBIDDEN, exactly when the count reaches 5. The store invariant is kept. |
| Scenarios.FiveFailuresLockAccount | src/main/java/com/jayatheerth/userservice/service/UserServiceImpl.java:155-173 | From no failures:<br>• each of the first four wrong passwords gives UNAUTHORIZED;<br>• the fifth gives FORBIDDEN and locks the account;<br>• the right password then gives FORBIDDEN and changes nothing. |
| Scenarios.SignInsFollowReplay | src/main/java/com/jayatheerth/userservice/service/UserServiceImpl.java:148-178 | Any run of sign-ins on one stored account, with any passwords at any instants, leaves that account exactly as `Replay` of the password checks says, apart from updatedAt. The store invariant is kept. So the `Replay` lemmas hold of real sign-in runs. |
| Scenarios.SignInStep | src/main/java/com/jayatheerth/userservice/service/UserServiceImpl.java:148-178 | One sign-in on a stored account moves it exactly one step of `GuardAttempt`, apart from updatedAt, and keeps the store invariant. |
| Scenarios.SignUpThenSignIn | src/main/java/com/jayatheerth/userservice/service/UserServiceImpl.java:60-185 | After a successful sign-up, signing in with the same email and password succeeds for the new id. The counter stays 0, and `expiresIn` is the lifetime. The token, sent as a Bearer header before it expires, resolves to the new id. On a request with no authentication yet, the context then holds an authentication with the new id as principal and the token as credentials. |
| UserEntity.WellFormed | src/main/java/com/jayatheerth/userservice/entity/User.java:53-126 | The entity's column constraints. A validated row has:<br>• a non-empty email;<br>• a password of at least 8 characters;<br>• a phone of 7..26 characters;<br>• names of 2..50 characters;<br>• an address of 5..255 characters;<br>• a non-negative counter. |
| UserEntity.NotBlankIsTrimmedNonEmpty | src/main/java/com/jayatheerth/userservice/entity/User.java:53-101 | `NotBlank` (some character above U+0020) holds exactly when the trimmed text is not empty, which is @NotBlank's own test. |
| UserEntity.Trim | src/main/java/com/jayatheerth/userservice/entity/User.java:53-101 | `String.trim()` is empty exactly when every character is at most U+0020. Otherwise it starts and ends with a character above U+0020. |
| UserEntity.TrimStart | src/main/java/com/jayatheerth/userservice/entity/User.java:53-101 | Dropping the leading white space leaves a suffix, empty exactly when every character is at most U+0020, else starting above U+0020. |
| UserEntity.TrimEnd | src/main/java/com/jayatheerth/userservice/entity/User.java:53-101 | Dropping the trailing white space leaves a prefix, empty exactly when every character is at most U+0020, else ending above U+0020. |
| UserEntity.PhonePattern | src/main/java/com/jayatheerth/userservice/entity/User.java:70 | `^\+?[0-9. ()-]{7,25}$` admits lengths 7..26 only, and needs the '+' at length 26. |
| UserEntity.PhonePatternShape | src/main/java/com/jayatheerth/userservice/entity/User.java:70 | An accepted phone number has no '+' after its first character. |
| UserEntity.PhoneCharsMatch | src/main/java/com/jayatheerth/userservice/entity/User.java:70 | Any 7 to 25 characters of `[0-9. ()-]` are accepted, with or without a leading '+'. |
| UserEntity.User.OnCreate | src/main/java/com/jayatheerth/userservice/entity/User.java:144-148 | @PrePersist stamps createdAt and updatedAt with the current instant. Nothing else changes. |
| UserEntity.User.OnUpdate | src/main/java/com/jayatheerth/userservice/entity/User.java:153-156 | @PreUpdate stamps updatedAt only. |
| UserEntity.User.Record | src/main/java/com/jayatheerth/userservice/entity/User.java:45-138 | The row a persisted entity writes carries its id, timestamps, counter and lock flag. |
| UserEntity.User.Load | src/main/java/com/jayatheerth/userservice/entity/User.java:45-138 | An entity loaded from a row is persisted, and writes back exactly that row. |
| UserEntity.User.constructor | src/main/java/com/jayatheerth/userservice/entity/User.java:45-138 | `new User()` has no id and no timestamps. |
| Uuids.ToString | src/main/java/com/jayatheerth/userservice/security/JWTService.java:75-81 | `UUID.toString()` is 36 characters, with dashes exactly at positions 8, 13, 18 and 23. |
| Uuids.FromString | src/main/java/com/jayatheerth/userservice/security/JWTService.java:104 | `UUID.fromString` accepts only the 36-character form with dashes in place. |
| Uuids.FromStringToString | src/main/java/com/jayatheerth/userservice/security/JWTService.java:75-104 | Parsing the text form of an id gives the id back. |
| Uuids.ToStringInjective | src/main/java/com/jayatheerth/userservice/security/JWTService.java:75-81 | Distinct ids have distinct subjects. |
| Uuids.Hex | src/main/java/com/jayatheerth/userservice/security/JWTService.java:75 | Each digit written reads back as the nibble it came from. |
| Uuids.UnHex | src/main/java/com/jayatheerth/userservice/security/JWTService.java:104 | Succeeds exactly when every character is a hex digit of either case, and returns their values. |
| Uuids.UnHexHex | src/main/java/com/jayatheerth/userservice/security/JWTService.java:75-104 | Reading hex digits back gives the nibbles. |
| Uuids.HexValue | src/main/java/com/jayatheerth/userservice/security/JWTService.java:104 | A character has a value exactly when it is a hex digit of either case, and the value is the nibble whose lower- or upper-case digit it is. |
| Jwt.GetSigningKey | src/main/java/com/jayatheerth/userservice/security/JWTService.java:53-60 | A key is made exactly when the secret has at least 256 bits. Otherwise the error is "Failed to generate JWT signing key" (500). |
| Jwt.GenerateToken | src/main/java/com/jayatheerth/userservice/security/JWTService.java:72-93 | Issues a token exactly when the signing key can be made, and fails only with the signing-key error. A token is at least 10 characters long. |
| Jwt.Compact | src/main/java/com/jayatheerth/userservice/security/JWTService.java:79-85 | The compact form is longer than its header. |
| Jwt.IssuedClaims | src/main/java/com/jayatheerth/userservice/security/JWTService.java:74-81 | Until expiry, an issued token's claims have `sub = userId` claim = the id's canonical text (`UUID.toString()`), which parses back to the id, plus the email and first name. |
| Jwt.Seconds | src/main/java/com/jayatheerth/userservice/security/JWTService.java:82-83 | Milliseconds to whole seconds truncating toward zero, as jjwt stores a `Date` claim: the seconds times 1000 lie within the 999 ms at or below a non-negative instant, and at or above a negative one. |
| Jwt.IssueClaims | src/main/java/com/jayatheerth/userservice/security/JWTService.java:74-83 | The claims signed for a user: `sub` and `userId` are both the id's canonical text, which parses back to the id; the email and first name are as given; `iat` is the issue instant in whole seconds. |
| Jwt.ExpiredIsFinal | src/main/java/com/jayatheerth/userservice/security/JWTService.java:142 | `Expired` is the parser's rule with no clock skew: expired once `exp`·1000 is strictly before now. Once expired, a token stays expired at every later instant. |
| Jwt.FreshClaimsLive | src/main/java/com/jayatheerth/userservice/security/JWTService.java:82-83 | Fresh claims are not expired at the issue instant when the lifetime is at least one second. With a lifetime of 0 they are expired at once unless the instant is a whole second. |
| Jwt.GetExpirationTime | src/main/java/com/jayatheerth/userservice/security/JWTService.java:204-206 | Returns the configured lifetime in seconds, unchanged. Sign-in reports it as `expiresIn` (`UserServiceImpl.SignInOnAccount`). |
| Jwt.ExpiryArithmetic | src/main/java/com/jayatheerth/userservice/security/JWTService.java:82-83 | `exp = iat + lifetime` in seconds. `exp` lies within the last second before issue time + lifetime·1000. |
| Jwt.ParseClaims | src/main/java/com/jayatheerth/userservice/security/JWTService.java:137-148 | Claims come back only with a signing key, exactly three parts, a non-empty signature that verifies over `header.payload` under the key, a payload that decodes to them, and not expired. |
| Jwt.UnverifiedTokenIsRejected | src/main/java/com/jayatheerth/userservice/security/JWTService.java:137-165 | A token that is not three parts with a non-empty signature that verifies under the key does not parse, is never valid, and extracting its user raises the 500 error. |
| Jwt.IssuedTokenParses | src/main/java/com/jayatheerth/userservice/security/JWTService.java:72-148 | An issued token parses back to exactly the signed claims up to its expiry instant, and not at all after it. |
| Jwt.IsTokenExpired | src/main/java/com/jayatheerth/userservice/security/JWTService.java:174-181 | Raises "Failed to check if JWT token is expired" exactly when the token does not parse. |
| Jwt.IsTokenValid | src/main/java/com/jayatheerth/userservice/security/JWTService.java:157-166 | Never raises. It is true exactly when the token has at least 10 characters and parses unexpired, so a token under 10 characters is always invalid. |
| Jwt.IssuedTokenValidity | src/main/java/com/jayatheerth/userservice/security/JWTService.java:157-181 | An issued token is valid exactly up to and including its expiry instant. |
| Jwt.ExtractUserId | src/main/java/com/jayatheerth/userservice/security/JWTService.java:101-109 | Succeeds exactly when the token parses and its subject is a UUID, and returns that UUID. Otherwise the error is "Failed to extract userId from JWT token" (500). |
| Jwt.ExtractUserIdOfIssued | src/main/java/com/jayatheerth/userservice/security/JWTService.java:72-109 | `extractUserId(generateToken(id, e, f)) = id` while the token is unexpired. |
| Jwt.Split | src/main/java/com/jayatheerth/userservice/security/JWTService.java:142 | The parts of a compact token contain no '.'. There is a single part exactly when the text has no '.'. |
| Jwt.SplitDotFreePrefix | src/main/java/com/jayatheerth/userservice/security/JWTService.java:142 | A dot-free prefix joins the first part of what follows. |
| Jwt.SplitJoin | src/main/java/com/jayatheerth/userservice/security/JWTService.java:85-142 | Splitting dot-free parts joined with '.' gives the parts back. |
| AuthenticationFilter.BearerToken | src/main/java/com/jayatheerth/userservice/security/JWTAuthenticationFilter.java:58-59 | A token is taken exactly when the header is present and starts with "Bearer ". The token is the rest of the header. |
| AuthenticationFilter.BearerTokenOfHeader | src/main/java/com/jayatheerth/userservice/security/JWTAuthenticationFilter.java:58-59 | Whatever follows "Bearer " is the token, unchanged. |
| AuthenticationFilter.ResolvePrincipal | src/main/java/com/jayatheerth/userservice/security/JWTAuthenticationFilter.java:54-70 | With both token checks at one instant: there is no user exactly when there is no bearer token or it is invalid. A user found is `extractUserId` of a valid token. The only exception is the extraction failure on a valid token whose subject is not a UUID. |
| AuthenticationFilter.AuthenticationAfter | src/main/java/com/jayatheerth/userservice/security/JWTAuthenticationFilter.java:72-78 | An existing authentication is never overwritten. With none present, a user found is set, with that user as principal and the header's token as credentials. With no user found, none is set. |
| AuthenticationFilter.ChainOutcome | src/main/java/com/jayatheerth/userservice/security/JWTAuthenticationFilter.java:81-85 | The chain runs twice exactly when the first run raises a servlet or I/O exception. Nothing escapes exactly when the first run completes, or the retry completes after a servlet or I/O exception. |
| AuthenticationFilter.JwtAuthenticationFilter.DoFilterInternal | src/main/java/com/jayatheerth/userservice/security/JWTAuthenticationFilter.java:49-86 | When extracting the user raises, the context is unchanged, the chain does not run and the exception escapes. Otherwise the context holds `AuthenticationAfter`, and the chain runs and fails as `ChainOutcome` says. |
| AuthenticationFilter.SecurityContext.constructor | src/main/java/com/jayatheerth/userservice/security/JWTAuthenticationFilter.java:72 | A fresh context holds no authentication. |
| AuthenticationFilter.JwtAuthenticationFilter.constructor | src/main/java/com/jayatheerth/userservice/security/JWTAuthenticationFilter.java:49-52 | The filter uses the given token service. |
| AuthenticationFilter.IssuedTokenAuthenticates | src/main/java/com/jayatheerth/userservice/security/JWTAuthenticationFilter.java:58-77 | A token the service issued, sent as a Bearer header before it expires, resolves to the user it was issued for. On a request with no authentication yet, the context then holds that user and the token. |
| AuthenticationFilter.UnverifiedTokenIsIgnored | src/main/java/com/jayatheerth/userservice/security/JWTAuthenticationFilter.java:58-66 | A bearer token whose signature does not verify resolves to no user, without raising. |
| AuthenticationFilter.ExpiredTokenIsIgnored | src/main/java/com/jayatheerth/userservice/security/JWTAuthenticationFilter.java:61-66 | After expiry the same header resolves to no user, without raising. |

## Left out

- Concurrency. Two sign-ins racing on one counter (a lost update) and two sign-ups racing on one email come from parallel requests. The model runs one call at a time and claims nothing about them.
- Logging is dropped. The one log call with an effect, `substring(0, 10)` in `isTokenValid`, is modelled.
- `@Size` counts UTF-16 code units, but `WellFormed` counts characters (Unicode scalar values). A first name of 26 characters outside the Basic Multilingual Plane passes `WellFormed`'s 2..50 bound and fails `@Size(max = 50)`. The same holds for the last name, address and password lengths.
- `@Email` syntax and `@Past` are not modelled. `WellFormed` does not check the email's form, and the date of birth is an unconstrained day number.
- The `@NotNull` columns are always present, because Dafny values cannot be null.
- BCrypt is not modelled inside. The encoder is a pair of functions with the law that an encoding matches its own password (`Sound`). Encoding is not assumed deterministic: the salt is a parameter.
- jjwt internals are not modelled: HMAC-SHA256, Base64URL and JSON. They are opaque functions constrained by `Jwt.Lawful`. A signed token whose payload lacks a claim is not modelled either: the payload decodes to a full `Claims` record or not at all.
- Kafka I/O and JSON serialisation are not modelled. Their outcome is the `Delivery` parameter, and the topic is a sequence the service appends to.
- Clock reads are not modelled. Each operation takes one `now` for all of its clock reads:
  - `onCreate` reads the clock twice (User.java:146-147); the model stamps both timestamps with one instant.
  - `generateToken` reads it twice (JWTService.java:82-83), once for `iat` and once for `exp`. `Jwt.ExpiryArithmetic`'s `exp == iat + lifetime` holds for that single instant. With two reads on either side of a second boundary, the code gives `iat + lifetime + 1`.
  - The parser's own expiry check and `isTokenExpired`'s `new Date()` (JWTService.java:142, 176) read the clock separately; the model uses one `now` for both.
  - The filter parses the token twice (JWTAuthenticationFilter.java:61-62): once in `isTokenValid` and again in `extractUserId`, each with its own clock read. `AuthenticationFilter.ResolvePrincipal` gives both calls the same `now`. In the code, a token that expires between the two calls passes `isTokenValid` and then makes `extractUserId` raise "Failed to extract userId from JWT token". That exception escapes `doFilterInternal`, which catches only servlet and I/O exceptions. So `ResolvePrincipal`'s "the only exception is a subject that is not a UUID" holds only for a single instant.
- `WebAuthenticationDetails` (JWTAuthenticationFilter.java:76) is not modelled; it only records the request's address and session.
- Java `long` and `int` overflow is not modelled: the clock, the lifetime and the counter are unbounded integers. The counter never exceeds 5 in any case.
- `Uuids.FromString` does not model `UUID.fromString`'s lenient forms: groups shorter than usual, and 36-character text with a signed group (such as `+0000000-0000-…`) that its fallback parser accepts. It accepts only the canonical 36-character hex form, which is the only form `generateToken` writes.
- Errors from the repository are not modelled, apart from an id collision and a validation failure on save. Both become the service's generic 500.
- `generateToken`'s `InvalidKeyException` branch (JWTService.java:89-92) is not modelled. A weak secret is already refused by `getSigningKey`, which raises its own exception.
- The controller, the exception handler and the DTO mapping to HTTP are not part of this model. For example, the controller turns every sign-up failure into BAD_REQUEST. The error statuses here are the service's own.
- `extractClaim`'s re-wrapping (JWTService.java:121-129) is not modelled on its own. Every failure it can raise is caught again by `extractUserId` or `isTokenExpired`, so only their messages can be observed.
- The configuration beans (Kafka, password encoder, security chain) and the Spring application class are not part of this model.
