# JWT service of ArsamBackend, modelled in Dafny

This project models `JWTService` of the ArsamBackend web API. The service issues signed JSON Web
Tokens, reads claims back out of the tokens sent in the `Authorization` header, and resolves a
request's user and event role from those claims. It also keeps a Redis-backed revocation list of
raw token strings per user email. The model has three parts:

- **Tokens** (`Tokens.dfy`): claims, the payload `GenerateToken` builds (`nameid` = user name,
  `UserId` = user id, nothing else), `GetClaim`, and `ValidateToken`. The JSON Web Token library
  is a `TokenHandler` value with three oracles: `write` is CreateToken plus WriteToken, `read` is
  ReadToken, and `validate` is ValidateToken. The ghost predicate `WellBehaved` states what the
  model assumes of it, and only for the two-claim payload `GenerateToken` writes: that token is a
  compact base64url string, and reading it back yields the two claims in order, possibly followed
  by the `exp`, `nbf` and `iat` claims the library adds itself. Neither claim type is renamed by
  the library's outbound claim map, and neither is one the library overwrites.
  The `TokenSignKey` configuration value is a parameter. When it is null or empty, building the
  signing key throws in both `GenerateToken` and `ValidateToken` (`MissingSigningKey`). A key the
  library refuses to sign with, such as one below its minimum key size, makes CreateToken throw:
  `write` gives None and `GenerateToken` fails with `KeyRejected`. `WellBehaved` says nothing about
  such keys.
- **Header parsing and resolution** (`AuthHeader.dfy`, `Lookup.dfy`, `Resolver.dfy`):
  - a simplified `AuthenticationHeaderValue.TryParse` and `GetRawJTW`;
  - the `SingleOrDefault` query over a table held as a sequence of rows;
  - `FindEmailByToken`, `FindUserByTokenAsync` (as `FindUserByToken`) and `FindRoleByTokenAsync`
    (as `FindRoleByToken`).

  A C# string that may be null is `Option<string>`. Every exception these operations let escape
  is a `Failure` value in a `Result`.
- **Revocation list** (`Blocklist.dfy`): the class `JwtService` holds the Redis database as a
  field `redis: map<string, set<string>>`. Like Redis, the map holds no empty set. `BlockToken`
  and `RemoveExpiredTokens` are methods that update the field. `RemoveExpiredTokens` loops over a
  snapshot of the email's set. `IsTokenBlocked` is an exact-string membership test.

Behaviour of the code that its names do not suggest:

- A non-empty `Authorization` value that does not parse gives the token `""`. `ReadToken("")`
  then throws, so `FindEmailByToken`, `FindUserByToken` and `FindRoleByToken` fail with
  `EmptyToken`. They do not return null. Only a null or empty value returns null.
- A value that is a scheme alone (`"Bearer"`) parses with no parameter, so `GetRawJTW` returns
  null, not `""` (`GetRawJTWOfSchemeOnly`).
- `FindUserByTokenAsync` compares the users' `Email` with the `nameid` claim, which carries the
  user NAME. It finds the token's user only when that user's name is its email
  (`IssuedTokenResolvesUser`).
- `ValidateToken` configures only the signing-key check and switches audience and issuer checks
  off. Whatever else the library checks is inside the `validate` oracle. It turns every library
  exception into `false`, but it builds the signing key before its `try` block, so a missing key
  throws. In `RemoveExpiredTokens` that exception escapes at the first member, before anything is
  removed.

## Model

| member | source | states |
|---|---|---|
| `Tokens.FirstClaim` | ArsamBackend/ArsamBackend/Security/JWTService.cs:143 | None exactly when no claim has the type; otherwise the value of a claim of that type with no claim of that type before it |
| `Tokens.FirstClaimOfPrefix` | ArsamBackend/ArsamBackend/Security/JWTService.cs:143 | claims the library appends after a payload that already holds the requested type do not change the value found |
| `Tokens.ReadToken` | ArsamBackend/ArsamBackend/Security/JWTService.cs:142 | a null or empty token fails with EmptyToken (and only those); a token the library decodes gives its claims; one it cannot decode gives MalformedToken |
| `Tokens.GetClaim` | ArsamBackend/ArsamBackend/Security/JWTService.cs:139-145 | a read failure is passed on; for a decoded token, success iff it holds a claim of the type, and the value is that of the first such claim; ClaimNotFound exactly when it holds none |
| `Tokens.SigningKey` | ArsamBackend/ArsamBackend/Security/JWTService.cs:45 | the key is the configured value; a null or empty value fails with MissingSigningKey, and only those |
| `Tokens.IssuedClaimsReadBack` | ArsamBackend/ArsamBackend/Security/JWTService.cs:48-52 | any payload that starts with the issued claims has the user name as its first `nameid` and the user id as its first `UserId` |
| `Tokens.GenerateToken` | ArsamBackend/ArsamBackend/Security/JWTService.cs:43-66 | fails with MissingSigningKey iff the key is not configured, and with KeyRejected iff the key is configured but the library refuses to sign with it; a returned token is the library's signature of exactly the two claims `nameid` = user name and `UserId` = user id; when the library keeps the payload, the token is compact and reads back those two values as the first claims of their types |
| `Tokens.ValidateToken` | ArsamBackend/ArsamBackend/Security/JWTService.cs:118-137 | throws MissingSigningKey iff the key is not configured; otherwise returns true exactly when the library's validation under that key returns, false when it throws |
| `Tokens.GeneratedTokenCarriesUser` | ArsamBackend/ArsamBackend/Security/JWTService.cs:43-66 | a token GenerateToken returned is compact, and GetClaim reads back `nameid` = the user name and `UserId` = the user id |
| `AuthHeader.TryParse` | ArsamBackend/ArsamBackend/Security/JWTService.cs:112 | a parsed value has a non-empty scheme of token characters and, when present, a non-empty parameter with no whitespace at either end |
| `AuthHeader.ParseFormatted` | ArsamBackend/ArsamBackend/Security/JWTService.cs:112-115 | `scheme + " " + parameter` parses back into exactly that scheme and parameter |
| `AuthHeader.GetRawJTW` | ArsamBackend/ArsamBackend/Security/JWTService.cs:109-117 | a value that does not parse (null and empty included) gives `""`; a value that parses gives its parameter, null when it has none; a non-empty result is a trimmed parameter |
| `AuthHeader.GetRawJTWOfFormatted` | ArsamBackend/ArsamBackend/Security/JWTService.cs:109-117 | the raw token of `scheme + " " + parameter` is exactly the parameter |
| `AuthHeader.GetRawJTWOfSchemeOnly` | ArsamBackend/ArsamBackend/Security/JWTService.cs:112-115 | a value that is only a scheme yields a null raw token |
| `Lookup.SingleOrDefault` | ArsamBackend/ArsamBackend/Security/JWTService.cs:103 | no row exactly when none matches; a found row is the only matching row; failure (MoreThanOneMatch) exactly when two rows match |
| `Lookup.SingleOrDefaultOfUnique` | ArsamBackend/ArsamBackend/Security/JWTService.cs:86 | when exactly one row matches, that row is returned |
| `Resolver.FindEmailByToken` | ArsamBackend/ArsamBackend/Security/JWTService.cs:68-79 | a header that yields no token (null or `""`) fails with EmptyToken; a token that cannot be read fails with the reading failure (EmptyToken or MalformedToken); for a decoded token, success iff it holds a `nameid` claim, with the first one's value, and ClaimNotFound("nameid") when it holds none |
| `Resolver.FindUserByToken` | ArsamBackend/ArsamBackend/Security/JWTService.cs:80-87 | null for a null or empty value; EmptyToken for one that yields no token; a failure to read the email is passed on; otherwise null iff no user has the email, the one user when exactly one has it, and a failure iff two have it, that failure being MoreThanOneMatch |
| `Resolver.FindRoleByToken` | ArsamBackend/ArsamBackend/Security/JWTService.cs:88-105 | null for a null or empty value; EmptyToken for one that yields no token; a failure to read `UserId` is passed on; otherwise null iff no Accepted row for the event and user, the role of the row when exactly one matches, and a failure iff two match, that failure being MoreThanOneMatch |
| `Resolver.IssuedTokenIsParameter` | ArsamBackend/ArsamBackend/Security/JWTService.cs:109-117 | `GetRawJTW` of `scheme + " " + token` gives back an issued token unchanged |
| `Resolver.IssuedTokenEmail` | ArsamBackend/ArsamBackend/Security/JWTService.cs:68-79 | FindEmailByToken of a header carrying an issued token gives the user name it was issued for |
| `Resolver.IssuedTokenQueriesUserId` | ArsamBackend/ArsamBackend/Security/JWTService.cs:93-104 | for an issued token, the role query runs with the user id the token was issued for |
| `Resolver.IssuedTokenResolvesRole` | ArsamBackend/ArsamBackend/Security/JWTService.cs:88-105 | for an issued token: null iff the user has no accepted assignment on the event, its role when it has exactly one, MoreThanOneMatch iff it has two |
| `Resolver.IssuedTokenQueriesEmail` | ArsamBackend/ArsamBackend/Security/JWTService.cs:80-87 | for an issued token, the user query looks for the email equal to the user name in the token |
| `Resolver.UniqueEmailFound` | ArsamBackend/ArsamBackend/Security/JWTService.cs:86 | with unique emails, the lookup by a user's email returns that user |
| `Resolver.IssuedTokenResolvesUser` | ArsamBackend/ArsamBackend/Security/JWTService.cs:80-87 | for an issued token, the user is found when its user name is its email and emails are unique |
| `Blocklist.SetAdd` | ArsamBackend/ArsamBackend/Security/JWTService.cs:151 | the key's set gains the member; every other key is unchanged; no empty set appears |
| `Blocklist.SetRemove` | ArsamBackend/ArsamBackend/Security/JWTService.cs:160 | the key's set loses the member; every other key is unchanged; no empty set appears |
| `Blocklist.Swept` | ArsamBackend/ArsamBackend/Security/JWTService.cs:154-162 | the key keeps exactly its members that the library validates under the signing key; every other key is unchanged |
| `Blocklist.SetAddIdempotent` | ArsamBackend/ArsamBackend/Security/JWTService.cs:149-152 | blocking the same token twice leaves the store as blocking it once |
| `Blocklist.SweptIdempotent` | ArsamBackend/ArsamBackend/Security/JWTService.cs:154-162 | a second sweep with the same library and key changes nothing |
| `Blocklist.SweepAfterBlock` | ArsamBackend/ArsamBackend/Security/JWTService.cs:149-162 | a blocked token survives a sweep iff it still validates |
| `Blocklist.JwtService.constructor` | ArsamBackend/ArsamBackend/Security/JWTService.cs:36-41 | the service starts on the database's current sets, the library and the configured `TokenSignKey` |
| `Blocklist.JwtService.IsTokenBlocked` | ArsamBackend/ArsamBackend/Security/JWTService.cs:164-168 | true exactly when the email has a set and the token string is a member of it |
| `Blocklist.JwtService.BlockToken` | ArsamBackend/ArsamBackend/Security/JWTService.cs:149-152 | the store becomes SetAdd of the old one; afterwards IsTokenBlocked(email, token) holds and no other (email, token) answer changes |
| `Blocklist.JwtService.RemoveExpiredTokens` | ArsamBackend/ArsamBackend/Security/JWTService.cs:154-162 | with a signing key, the store becomes Swept of the old one: IsTokenBlocked(email, t) holds afterwards iff it held before and t validates; without one, nothing changes and MissingSigningKey is thrown iff the set is non-empty |

## Left out

- JSON Web Token serialisation and HMAC-SHA-512 signing and verification (RFC 7519, RFC 7515) are foreign library code. They are the `write`, `read` and `validate` oracles. `WellBehaved` states what the model assumes of them for the payload `GenerateToken` writes; it is not proved of any concrete implementation. Payloads with other claims, which the library may rename or overwrite, are not described. Which keys the library refuses (its minimum key size for HMAC-SHA-512, measured on the key's UTF-8 bytes) is decided inside `write`; the model only says that a refused key fails with `KeyRejected`.
- The model does not decide which checks the library's validation makes beyond the signing key. The validator is a fixed function of the key and the token string with no clock. So the lifetime check the library applies by default is not modelled as time passing, and `SweptIdempotent` holds for one library and key, not across a change of time.
- Concurrency: `RemoveExpiredTokens` is one scan followed by one `SetRemove` per rejected token, each a separate Redis call. A `BlockToken` from another request can run in between. `RemoveExpiredTokens` is specified as if nothing interleaves, and `redis == Swept(old(redis), ...)` holds only then.
- `Tokens.GenerateToken`: a null user name or id makes the `Claim` constructor throw. Strings in the model are never null, so that exception is not modelled.
- `AuthHeader.TryParse`: a simplified grammar. Leading and trailing whitespace is skipped, the scheme is a run of token characters, and the parameter is everything after the following whitespace. Quoted strings and comma-separated parameters are not modelled.
- The one-year expiry taken from the clock is inside `write`.
- The Redis connection and its network failures: the database is the `redis` field, and every command succeeds.
- Entity Framework Core: `Include(x => x.InEvents)`, query translation and `async`/`Task` are not modelled. Tables are sequences of rows queried synchronously. `x.Email == userEmail` and `x.AppUserId == userId` are compared by the database under its collation, which may be case-insensitive. The model compares strings exactly.
- The `userId == null` check in `FindRoleByTokenAsync` is dead code: `First` throws before it can see null. A missing `UserId` claim is `ClaimNotFound`.
- The `as JwtSecurityToken` cast that could yield null for another token kind is not modelled: `read` returns the claims of a JSON Web Token or nothing.
- The order in which `SetScan` lists a set is not modelled. The sweep takes members from the snapshot in an arbitrary order, and its postcondition shows that the result does not depend on that order.
- Reading configuration: `TokenSignKey` is a parameter. The Redis connection string is not modelled.
