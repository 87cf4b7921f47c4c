/** Who a request's Authorization value belongs to and what role it holds on an event
    (JWTService.FindEmailByToken, FindUserByTokenAsync, FindRoleByTokenAsync). Tables are sequences
    of rows and the queries run synchronously. */
module Resolver {
  import opened Wrappers
  import opened Failures
  import opened Tokens
  import opened AuthHeader
  import opened Lookup

  /** The state of a user's role assignment on an event; only `Accepted` is ever queried. */
  datatype UserRoleStatus = Accepted | Other(code: int)

  /** A row of the EventUserRole table; `R` is the application's role enumeration. */
  datatype EventUserRole<R> = EventUserRole(eventId: int, appUserId: string, role: R, status: UserRoleStatus)

  /** `IsNullOrEmpty` on a C# string that may be null. */
  predicate IsNullOrEmpty(s: Option<string>) {
    s.None? || s.value == ""
  }

  predicate IsAcceptedAssignment<R>(row: EventUserRole<R>, eventId: int, userId: string) {
    row.eventId == eventId && row.appUserId == userId && row.status == Accepted
  }

  function AcceptedFor<R>(eventId: int, userId: string): EventUserRole<R> -> bool {
    (row: EventUserRole<R>) => IsAcceptedAssignment(row, eventId, userId)
  }

  function HasEmail(email: string): AppUser -> bool {
    (user: AppUser) => user.email == email
  }

  /** The `nameid` claim of the token carried by the Authorization value. */
  function FindEmailByToken(h: TokenHandler, authorization: Option<string>): (r: Result<string, Failure>)
    ensures GetRawJTW(authorization) in {None, Some("")} ==> r == Failure(EmptyToken)
    ensures r.Success? ==>
      exists claims :: h.read(GetRawJTW(authorization).value) == Some(claims) && Claim(NameIdClaim, r.value) in claims
    ensures ReadToken(h, GetRawJTW(authorization)).Success? ==>
      var claims := ReadToken(h, GetRawJTW(authorization)).value;
      (r.Success? <==> FirstClaim(claims, NameIdClaim).Some?) &&
      (r.Success? ==> FirstClaim(claims, NameIdClaim) == Some(r.value))
    ensures ReadToken(h, GetRawJTW(authorization)).Failure? ==>
      r == Failure(ReadToken(h, GetRawJTW(authorization)).error)
    ensures ReadToken(h, GetRawJTW(authorization)).Success? ==>
      FirstClaim(ReadToken(h, GetRawJTW(authorization)).value, NameIdClaim).None? ==>
      r == Failure(ClaimNotFound(NameIdClaim))
  {
    GetClaim(h, GetRawJTW(authorization), NameIdClaim)
  }

  /** The user whose email equals the token's `nameid` claim; null for a null or empty value. */
  function FindUserByToken(h: TokenHandler, authorization: Option<string>, users: seq<AppUser>)
    : (r: Result<Option<AppUser>, Failure>)
    ensures IsNullOrEmpty(authorization) ==> r == Success(None)
    ensures !IsNullOrEmpty(authorization) && GetRawJTW(authorization) in {None, Some("")} ==> r == Failure(EmptyToken)
    ensures r.Success? && r.value.Some? ==>
      r.value.value in users && FindEmailByToken(h, authorization) == Success(r.value.value.email)
    ensures !IsNullOrEmpty(authorization) && FindEmailByToken(h, authorization).Failure? ==>
      r == Failure(FindEmailByToken(h, authorization).error)
    ensures !IsNullOrEmpty(authorization) && FindEmailByToken(h, authorization).Success? ==>
      var email := FindEmailByToken(h, authorization).value;
      (r == Success(None) <==> forall i :: 0 <= i < |users| ==> users[i].email != email) &&
      (r.Failure? <==>
        exists i, j :: 0 <= i < j < |users| && users[i].email == email && users[j].email == email) &&
      (r.Failure? ==> r.error == MoreThanOneMatch) &&
      (r.Success? && r.value.Some? ==>
        exists i :: 0 <= i < |users| && users[i] == r.value.value && users[i].email == email &&
          forall j :: 0 <= j < |users| && j != i ==> users[j].email != email) &&
      (forall k :: 0 <= k < |users| && users[k].email == email ==>
        (forall j :: 0 <= j < |users| && j != k ==> users[j].email != email) ==>
        r == Success(Some(users[k])))
  {
    if IsNullOrEmpty(authorization) then Success(None)
    else
      match FindEmailByToken(h, authorization)
      case Failure(e) => Failure(e)
      case Success(email) => SingleOrDefault(users, HasEmail(email))
  }

  /** The role of the one accepted assignment of the token's `UserId` on the event; null for a null
      or empty value, and null when the user holds no accepted assignment there. */
  function FindRoleByToken<R>(h: TokenHandler, authorization: Option<string>, eventId: int,
                              roles: seq<EventUserRole<R>>): (r: Result<Option<R>, Failure>)
    ensures IsNullOrEmpty(authorization) ==> r == Success(None)
    ensures !IsNullOrEmpty(authorization) && GetRawJTW(authorization) in {None, Some("")} ==> r == Failure(EmptyToken)
    ensures r.Success? && r.value.Some? ==>
      exists i :: 0 <= i < |roles| && roles[i].role == r.value.value &&
        roles[i].eventId == eventId && roles[i].status == Accepted &&
        GetClaim(h, GetRawJTW(authorization), UserIdClaim) == Success(roles[i].appUserId)
    ensures !IsNullOrEmpty(authorization) && GetClaim(h, GetRawJTW(authorization), UserIdClaim).Failure? ==>
      r == Failure(GetClaim(h, GetRawJTW(authorization), UserIdClaim).error)
    ensures !IsNullOrEmpty(authorization) && GetClaim(h, GetRawJTW(authorization), UserIdClaim).Success? ==>
      var userId := GetClaim(h, GetRawJTW(authorization), UserIdClaim).value;
      (r == Success(None) <==> forall i :: 0 <= i < |roles| ==> !IsAcceptedAssignment(roles[i], eventId, userId)) &&
      (r.Failure? <==>
        exists i, j :: 0 <= i < j < |roles| &&
          IsAcceptedAssignment(roles[i], eventId, userId) && IsAcceptedAssignment(roles[j], eventId, userId)) &&
      (r.Failure? ==> r.error == MoreThanOneMatch) &&
      (r.Success? && r.value.Some? ==>
        exists i :: 0 <= i < |roles| && roles[i].role == r.value.value &&
          IsAcceptedAssignment(roles[i], eventId, userId) &&
          forall j :: 0 <= j < |roles| && j != i ==> !IsAcceptedAssignment(roles[j], eventId, userId)) &&
      (forall k :: 0 <= k < |roles| && IsAcceptedAssignment(roles[k], eventId, userId) ==>
        (forall j :: 0 <= j < |roles| && j != k ==> !IsAcceptedAssignment(roles[j], eventId, userId)) ==>
        r == Success(Some(roles[k].role)))
  {
    if IsNullOrEmpty(authorization) then Success(None)
    else
      match GetClaim(h, GetRawJTW(authorization), UserIdClaim)
      case Failure(e) => Failure(e)
      case Success(userId) => RoleOfRow(SingleOrDefault(roles, AcceptedFor(eventId, userId)))
  }

  /** The role carried by the row a lookup found, exceptions passed through. */
  function RoleOfRow<R>(found: Result<Option<EventUserRole<R>>, Failure>): Result<Option<R>, Failure> {
    match found
    case Failure(e) => Failure(e)
    case Success(None) => Success(None)
    case Success(Some(row)) => Success(Some(row.role))
  }

  /** The Authorization value a client sends with a token the service issued. */
  function BearerHeader(scheme: string, token: string): string {
    scheme + " " + token
  }

  /** GetRawJTW gives back an issued token from the header that carries it. */
  lemma IssuedTokenIsParameter(h: TokenHandler, configured: Option<string>, user: AppUser, token: string,
                               scheme: string)
    requires WellBehaved(h) && GenerateToken(h, configured, user) == Success(token) && IsScheme(scheme)
    ensures GetRawJTW(Some(BearerHeader(scheme, token))) == Some(token)
  {
    GeneratedTokenCarriesUser(h, configured, user, token);
    assert IsCompactChar(token[0]) && IsCompactChar(token[|token| - 1]);
    GetRawJTWOfFormatted(scheme, token);
  }

  /** FindEmailByToken reads the user name out of a header carrying a token issued to that user. */
  lemma IssuedTokenEmail(h: TokenHandler, configured: Option<string>, user: AppUser, token: string,
                         scheme: string)
    requires WellBehaved(h) && GenerateToken(h, configured, user) == Success(token) && IsScheme(scheme)
    ensures FindEmailByToken(h, Some(BearerHeader(scheme, token))) == Success(user.userName)
  {
    IssuedTokenIsParameter(h, configured, user, token, scheme);
    GeneratedTokenCarriesUser(h, configured, user, token);
  }

  /** With a token issued to `user`, FindRoleByToken runs the accepted-assignment query for `user.id`. */
  lemma IssuedTokenQueriesUserId<R>(h: TokenHandler, configured: Option<string>, user: AppUser, token: string,
                                    scheme: string, eventId: int, roles: seq<EventUserRole<R>>)
    requires WellBehaved(h) && GenerateToken(h, configured, user) == Success(token) && IsScheme(scheme)
    ensures FindRoleByToken(h, Some(BearerHeader(scheme, token)), eventId, roles)
      == RoleOfRow(SingleOrDefault(roles, AcceptedFor(eventId, user.id)))
  {
    IssuedTokenIsParameter(h, configured, user, token, scheme);
    GeneratedTokenCarriesUser(h, configured, user, token);
  }

  /** With a token issued to `user`, FindRoleByToken answers for `user.id`: the role of its single
      accepted assignment on the event, null when it has none, an exception when it has several. */
  lemma IssuedTokenResolvesRole<R>(h: TokenHandler, configured: Option<string>, user: AppUser, token: string,
                                   scheme: string, eventId: int, roles: seq<EventUserRole<R>>)
    requires WellBehaved(h) && GenerateToken(h, configured, user) == Success(token) && IsScheme(scheme)
    ensures var r := FindRoleByToken(h, Some(BearerHeader(scheme, token)), eventId, roles);
      (r == Success(None) <==> forall i :: 0 <= i < |roles| ==> !IsAcceptedAssignment(roles[i], eventId, user.id)) &&
      (r == Failure(MoreThanOneMatch) <==>
        exists i, j :: 0 <= i < j < |roles| &&
          IsAcceptedAssignment(roles[i], eventId, user.id) && IsAcceptedAssignment(roles[j], eventId, user.id)) &&
      (forall k :: 0 <= k < |roles| && IsAcceptedAssignment(roles[k], eventId, user.id) &&
        (forall j :: 0 <= j < |roles| && j != k ==> !IsAcceptedAssignment(roles[j], eventId, user.id))
        ==> r == Success(Some(roles[k].role)))
  {
    IssuedTokenQueriesUserId(h, configured, user, token, scheme, eventId, roles);
    var matches := AcceptedFor<R>(eventId, user.id);
    var found := SingleOrDefault(roles, matches);
    assert forall i :: 0 <= i < |roles| ==> matches(roles[i]) == IsAcceptedAssignment(roles[i], eventId, user.id);
    forall k | 0 <= k < |roles| && IsAcceptedAssignment(roles[k], eventId, user.id) &&
        (forall j :: 0 <= j < |roles| && j != k ==> !IsAcceptedAssignment(roles[j], eventId, user.id))
      ensures found == Success(Some(roles[k]))
    {
      SingleOrDefaultOfUnique(roles, matches, k);
    }
  }

  /** With a token issued to `user`, FindUserByToken looks up the user whose email is `user.userName`. */
  lemma IssuedTokenQueriesEmail(h: TokenHandler, configured: Option<string>, user: AppUser, token: string,
                                scheme: string, users: seq<AppUser>)
    requires WellBehaved(h) && GenerateToken(h, configured, user) == Success(token) && IsScheme(scheme)
    ensures FindUserByToken(h, Some(BearerHeader(scheme, token)), users)
      == SingleOrDefault(users, HasEmail(user.userName))
  {
    IssuedTokenEmail(h, configured, user, token, scheme);
  }

  /** No two rows of the user table share an email. */
  predicate UniqueEmails(users: seq<AppUser>) {
    forall i, j :: 0 <= i < |users| && 0 <= j < |users| && i != j ==> users[i].email != users[j].email
  }

  /** Looking a user up by its email finds it when emails are unique. */
  lemma UniqueEmailFound(users: seq<AppUser>, user: AppUser)
    requires user in users && UniqueEmails(users)
    ensures SingleOrDefault(users, HasEmail(user.email)) == Success(Some(user))
  {
    var k :| 0 <= k < |users| && users[k] == user;
    SingleOrDefaultOfUnique(users, HasEmail(user.email), k);
  }

  /** FindUserByToken finds the very user a token was issued to, provided its user name is its email
      and emails are unique in the table. */
  lemma IssuedTokenResolvesUser(h: TokenHandler, configured: Option<string>, user: AppUser, token: string,
                                scheme: string, users: seq<AppUser>)
    requires WellBehaved(h) && GenerateToken(h, configured, user) == Success(token) && IsScheme(scheme)
    requires user in users && UniqueEmails(users) && user.email == user.userName
    ensures FindUserByToken(h, Some(BearerHeader(scheme, token)), users) == Success(Some(user))
  {
    IssuedTokenQueriesEmail(h, configured, user, token, scheme, users);
    UniqueEmailFound(users, user);
  }
}
