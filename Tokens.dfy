/** Issuing tokens and reading claims back out of them (JWTService.GenerateToken, GetClaim,
    ValidateToken). The JSON Web Token library itself is an oracle: a TokenHandler value. */
module Tokens {
  import opened Wrappers
  import opened Failures

  /** One claim of a token's payload: its type (the JSON member name) and its value. */
  datatype Claim = Claim(claimType: string, value: string)

  /** The registered claim `nameid` (JwtRegisteredClaimNames.NameId), which carries the user name. */
  const NameIdClaim: string := "nameid"

  /** The application's own claim that carries the user's id. */
  const UserIdClaim: string := "UserId"

  /** The identity-store record a token is issued for. */
  datatype AppUser = AppUser(id: string, userName: string, email: string)

  /** What ValidateToken's call into the library does: it returns, or it throws. */
  datatype ValidationOutcome = Validated | Threw(exceptionType: string)

  /** The JSON Web Token library. `write` signs a payload with an HMAC-SHA-512 key and serialises it
      into a compact token (CreateToken followed by WriteToken; the expiry it adds is fixed by the
      clock at the moment of issue; None where CreateToken throws because it refuses the key); `read` decodes a non-empty token's payload without checking
      it (ReadToken; None where it throws); `validate` is the library's ValidateToken with the
      given signing key checked and audience and issuer not checked. */
  datatype TokenHandler = TokenHandler(
    write: (string, seq<Claim>) -> Option<string>,
    read: string -> Option<seq<Claim>>,
    validate: (string, string) -> ValidationOutcome)

  /** A character of the compact serialisation: the base64url alphabet and the '.' separator. */
  predicate IsCompactChar(c: char) {
    ('A' <= c <= 'Z') || ('a' <= c <= 'z') || ('0' <= c <= '9') || c == '-' || c == '_' || c == '.'
  }

  predicate IsCompactToken(s: string) {
    |s| > 0 && forall i :: 0 <= i < |s| ==> IsCompactChar(s[i])
  }

  /** What the library does with one payload it signs with `secret`: the token is a compact
      string, and reading it back yields the claims written, in order, followed by the registered
      claims the library adds itself (exp, nbf, iat). */
  predicate Issues(h: TokenHandler, secret: string, claims: seq<Claim>) {
    h.write(secret, claims).Some? &&
    IsCompactToken(h.write(secret, claims).value) &&
    h.read(h.write(secret, claims).value).Some? &&
    claims <= h.read(h.write(secret, claims).value).value
  }

  /** The library keeps the payload GenerateToken writes, for every non-empty key it accepts.
      That payload holds only `nameid` and `UserId`, which the library neither renames nor
      overwrites. */
  ghost predicate WellBehaved(h: TokenHandler) {
    forall secret: string, user: AppUser ::
      secret != "" && h.write(secret, IssuedClaims(user)).Some? ==> Issues(h, secret, IssuedClaims(user))
  }

  /** The signing key built from the configured `TokenSignKey`: null or empty throws. */
  function SigningKey(configured: Option<string>): (r: Result<string, Failure>)
    ensures r.Success? <==> configured.Some? && configured.value != ""
    ensures r.Success? ==> r.value == configured.value
    ensures r.Failure? ==> r.error == MissingSigningKey
  {
    if configured.None? || configured.value == "" then Failure(MissingSigningKey)
    else Success(configured.value)
  }

  /** The value of the first claim of type `claimType` (LINQ `First` over the token's claims). */
  function FirstClaim(claims: seq<Claim>, claimType: string): (r: Option<string>)
    ensures r.None? <==> forall i :: 0 <= i < |claims| ==> claims[i].claimType != claimType
    ensures r.Some? ==>
      exists i :: 0 <= i < |claims| && claims[i] == Claim(claimType, r.value) &&
        forall j :: 0 <= j < i ==> claims[j].claimType != claimType
  {
    if claims == [] then None
    else if claims[0].claimType == claimType then Some(claims[0].value)
    else FirstClaim(claims[1..], claimType)
  }

  /** Appending claims after a payload that already holds a claim of the requested type does not
      change which value is found first. */
  lemma {:induction false} FirstClaimOfPrefix(claims: seq<Claim>, more: seq<Claim>, claimType: string)
    requires FirstClaim(claims, claimType).Some?
    ensures FirstClaim(claims + more, claimType) == FirstClaim(claims, claimType)
  {
    if claims[0].claimType != claimType {
      assert (claims + more)[1..] == claims[1..] + more;
      FirstClaimOfPrefix(claims[1..], more, claimType);
    }
  }

  /** The payload GenerateToken builds: exactly `nameid` and `UserId`, no role. */
  function IssuedClaims(user: AppUser): seq<Claim> {
    [Claim(NameIdClaim, user.userName), Claim(UserIdClaim, user.id)]
  }

  /** Any payload that starts with the issued claims yields the user name as its first `nameid`
      and the user id as its first `UserId`. */
  lemma IssuedClaimsReadBack(user: AppUser, read: seq<Claim>)
    requires IssuedClaims(user) <= read
    ensures FirstClaim(read, NameIdClaim) == Some(user.userName)
    ensures FirstClaim(read, UserIdClaim) == Some(user.id)
  {
    var claims := IssuedClaims(user);
    assert read == claims + read[|claims|..];
    FirstClaimOfPrefix(claims, read[|claims|..], NameIdClaim);
    FirstClaimOfPrefix(claims, read[|claims|..], UserIdClaim);
  }

  /** A token for `user`, signed with the configured key; a missing key throws first, and a key
      the library refuses throws in CreateToken. The token is the library's signature of exactly
      the two claims `nameid` and `UserId`; when the library keeps the payload, the token's first
      `nameid` is the user name and its first `UserId` the user id. */
  function GenerateToken(h: TokenHandler, configured: Option<string>, user: AppUser): (r: Result<string, Failure>)
    ensures r == Failure(MissingSigningKey) <==> SigningKey(configured).Failure?
    ensures r == Failure(KeyRejected) <==>
      SigningKey(configured).Success? && h.write(configured.value, IssuedClaims(user)).None?
    ensures r.Failure? ==> r.error in {MissingSigningKey, KeyRejected}
    ensures r.Success? ==> Some(r.value) == h.write(configured.value, IssuedClaims(user))
    ensures r.Success? && Issues(h, configured.value, IssuedClaims(user)) ==>
      IsCompactToken(r.value) && h.read(r.value).Some? &&
      FirstClaim(h.read(r.value).value, NameIdClaim) == Some(user.userName) &&
      FirstClaim(h.read(r.value).value, UserIdClaim) == Some(user.id)
  {
    match SigningKey(configured)
    case Failure(e) => Failure(e)
    case Success(secret) =>
      match h.write(secret, IssuedClaims(user))
      case None => Failure(KeyRejected)
      case Some(token) =>
        if Issues(h, secret, IssuedClaims(user)) then
          IssuedClaimsReadBack(user, h.read(token).value);
          Success(token)
        else Success(token)
  }

  /** ReadToken on a C# string that may be null. */
  function ReadToken(h: TokenHandler, token: Option<string>): (r: Result<seq<Claim>, Failure>)
    ensures token.None? || token.value == "" <==> r == Failure(EmptyToken)
    ensures r.Success? ==> token.Some? && h.read(token.value) == Some(r.value)
    ensures token.Some? && token.value != "" && h.read(token.value).Some? ==> r == Success(h.read(token.value).value)
    ensures token.Some? && token.value != "" && h.read(token.value).None? ==> r == Failure(MalformedToken)
  {
    if token.None? || token.value == "" then Failure(EmptyToken)
    else match h.read(token.value)
      case None => Failure(MalformedToken)
      case Some(claims) => Success(claims)
  }

  /** The value of the first claim of the given type in the (unchecked) token. */
  function GetClaim(h: TokenHandler, token: Option<string>, claimType: string): (r: Result<string, Failure>)
    ensures r.Success? ==>
      exists claims :: ReadToken(h, token) == Success(claims) && Claim(claimType, r.value) in claims
    ensures r == Failure(ClaimNotFound(claimType)) <==>
      exists claims: seq<Claim> :: ReadToken(h, token) == Success(claims) && forall c :: c in claims ==> c.claimType != claimType
    ensures ReadToken(h, token).Failure? ==> r == Failure(ReadToken(h, token).error)
    ensures ReadToken(h, token).Success? ==>
      (r.Success? <==> FirstClaim(ReadToken(h, token).value, claimType).Some?) &&
      (r.Success? ==> FirstClaim(ReadToken(h, token).value, claimType) == Some(r.value))
  {
    match ReadToken(h, token)
    case Failure(e) => Failure(e)
    case Success(claims) =>
      match FirstClaim(claims, claimType)
      case None => Failure(ClaimNotFound(claimType))
      case Some(v) => Success(v)
  }

  /** The signing key is built outside the try block, so a missing key throws; inside it, any
      exception the library raises becomes `false`. */
  function ValidateToken(h: TokenHandler, configured: Option<string>, token: string): (r: Result<bool, Failure>)
    ensures r.Failure? <==> SigningKey(configured).Failure?
    ensures r.Failure? ==> r.error == MissingSigningKey
    ensures r.Success? ==> (r.value <==> h.validate(configured.value, token) == Validated)
  {
    match SigningKey(configured)
    case Failure(e) => Failure(e)
    case Success(secret) =>
      match h.validate(secret, token)
      case Validated => Success(true)
      case Threw(_) => Success(false)
  }

  /** A token GenerateToken issues is compact and carries the user's name and id in the claims that
      GetClaim, FindEmailByToken and FindRoleByToken look for. */
  lemma GeneratedTokenCarriesUser(h: TokenHandler, configured: Option<string>, user: AppUser, token: string)
    requires WellBehaved(h) && GenerateToken(h, configured, user) == Success(token)
    ensures IsCompactToken(token)
    ensures GetClaim(h, Some(token), NameIdClaim) == Success(user.userName)
    ensures GetClaim(h, Some(token), UserIdClaim) == Success(user.id)
  {
    assert Issues(h, configured.value, IssuedClaims(user));
  }
}
