/**
 * The access gate of `thinga/dependencies.py`: the cookie must carry a
 * token, the token must verify against the fingerprint of the current
 * request, and the session's user must exist; some endpoints further require
 * an admin or a moderator. `get_db` is the `Db` object passed in.
 */
module Dependencies {
  import opened Wrappers
  import opened Http
  import Enums
  import Utils
  import opened Models
  import opened Crud
  import CrudProperties

  /** An incoming request: its headers (names in lower case) and its cookies. */
  datatype Request = Request(headers: map<string, string>, cookies: map<string, string>)

  /** The name of the cookie that carries the session token. */
  const AccessTokenCookie: string := "access_token"

  const NotAuthenticated: HttpError := HttpError(Unauthorized, "Not authenticated.")
  const UserNotFound: HttpError := HttpError(Unauthorized, "User not found.")
  const StaffOnly: HttpError := HttpError(Forbidden, "Only admins and moderators can perform this action.")

  /** `get_access_token`: the cookie's value, or 401 when it is absent. */
  function GetAccessToken(request: Request): (r: Result<string>)
    ensures r.Ok? <==> AccessTokenCookie in request.cookies
    ensures r.Ok? ==> r.value == request.cookies[AccessTokenCookie]
    ensures r.Err? ==> r.error == NotAuthenticated
  {
    if AccessTokenCookie !in request.cookies then Err(NotAuthenticated)
    else Ok(request.cookies[AccessTokenCookie])
  }

  /** The session table after an authentication step and the user it resolved. */
  datatype AuthOutcome = AuthOutcome(sessions: SessionTable, user: Result<User>)

  /** `get_current_user` on the tables, with the request's fingerprint already computed. */
  function CurrentUser(sessions: SessionTable, users: map<int, User>, accessToken: Token,
                       clientFingerprint: string, now: Instant): AuthOutcome
  {
    var verified := Verify(sessions, accessToken, clientFingerprint, now);
    if verified.found.None? then AuthOutcome(verified.sessions, Err(NotAuthenticated))
    else if verified.found.value.userId !in users then AuthOutcome(verified.sessions, Err(UserNotFound))
    else AuthOutcome(verified.sessions, Ok(users[verified.found.value.userId]))
  }

  /** `Depends(get_current_user)`: first `get_access_token`, then `get_current_user`. */
  function Authenticate(sessions: SessionTable, users: map<int, User>, request: Request,
                        crypto: Utils.Crypto, now: Instant): AuthOutcome
  {
    var token := GetAccessToken(request);
    if token.Err? then AuthOutcome(sessions, Err(token.error))
    else CurrentUser(sessions, users, token.value, Utils.GenerateClientFingerprint(crypto, request.headers), now)
  }

  /** `get_admin_or_moderator`: 403 unless the role is ADMIN or MODERATOR; the user passes through unchanged. */
  function GetAdminOrModerator(user: User): (r: Result<User>)
    ensures r.Err? <==> user.role != Enums.Admin && user.role != Enums.Moderator
    ensures r.Ok? ==> r.value == user
    ensures r.Err? ==> r.error == StaffOnly
  {
    if user.role !in {Enums.Admin, Enums.Moderator} then Err(StaffOnly) else Ok(user)
  }

  /** `Depends(get_admin_or_moderator)`: authentication, then the role check. */
  function AuthenticateStaff(sessions: SessionTable, users: map<int, User>, request: Request,
                             crypto: Utils.Crypto, now: Instant): AuthOutcome
  {
    var auth := Authenticate(sessions, users, request, crypto, now);
    if auth.user.Err? then auth else AuthOutcome(auth.sessions, GetAdminOrModerator(auth.user.value))
  }

  /** `get_current_user`, which may mark the session EXPIRED. */
  method GetCurrentUser(db: Db, request: Request, accessToken: Token, crypto: Utils.Crypto, now: Instant)
    returns (r: Result<User>)
    requires db.Valid()
    modifies db`sessions
    ensures db.Valid()
    ensures AuthOutcome(db.sessions, r)
         == CurrentUser(old(db.sessions), db.users, accessToken, Utils.GenerateClientFingerprint(crypto, request.headers), now)
  {
    var clientFingerprint := Utils.GenerateClientFingerprint(crypto, request.headers);
    var dbSession := db.VerifySession(accessToken, clientFingerprint, now);
    if dbSession.None? {
      return Err(NotAuthenticated);
    }
    var dbUser := UserById(db.users, dbSession.value.userId);
    if dbUser.None? {
      return Err(UserNotFound);
    }
    r := Ok(dbUser.value);
  }

  /** The dependency chain behind an endpoint that needs a logged-in user. */
  method RequireUser(db: Db, request: Request, crypto: Utils.Crypto, now: Instant) returns (r: Result<User>)
    requires db.Valid()
    modifies db`sessions
    ensures db.Valid()
    ensures AuthOutcome(db.sessions, r) == Authenticate(old(db.sessions), db.users, request, crypto, now)
  {
    var accessToken := GetAccessToken(request);
    if accessToken.Err? {
      return Err(accessToken.error);
    }
    r := GetCurrentUser(db, request, accessToken.value, crypto, now);
  }

  /** The dependency chain behind an endpoint reserved to admins and moderators. */
  method RequireAdminOrModerator(db: Db, request: Request, crypto: Utils.Crypto, now: Instant) returns (r: Result<User>)
    requires db.Valid()
    modifies db`sessions
    ensures db.Valid()
    ensures AuthOutcome(db.sessions, r) == AuthenticateStaff(old(db.sessions), db.users, request, crypto, now)
  {
    var currentUser := RequireUser(db, request, crypto, now);
    if currentUser.Err? {
      return currentUser;
    }
    r := GetAdminOrModerator(currentUser.value);
  }

  // ------------------------------------------------------------- properties

  /** Whenever `verify_session` finds nothing, the answer is 401 and no session changes. */
  lemma UnverifiedIsUnauthenticated(sessions: SessionTable, users: map<int, User>, accessToken: Token,
                                    fp: string, now: Instant)
    requires Verify(sessions, accessToken, fp, now).found.None?
    ensures CurrentUser(sessions, users, accessToken, fp, now) == AuthOutcome(sessions, Err(NotAuthenticated))
  {
    CrudProperties.VerifyRejects(sessions, accessToken, fp, now);
  }

  /** A verified session whose user no longer exists is refused with 401. */
  lemma OrphanSessionIsUnauthenticated(sessions: SessionTable, users: map<int, User>, accessToken: Token,
                                       fp: string, now: Instant)
    requires Verify(sessions, accessToken, fp, now).found.Some?
    requires Verify(sessions, accessToken, fp, now).found.value.userId !in users
    ensures CurrentUser(sessions, users, accessToken, fp, now).user == Err(UserNotFound)
    ensures UserNotFound.statusCode == Unauthorized
  {
  }

  /** A user is resolved only through a verified session, and it is that session's owner. */
  lemma CurrentUserIsSessionOwner(sessions: SessionTable, users: map<int, User>, accessToken: Token,
                                  fp: string, now: Instant)
    requires forall id :: id in users ==> users[id].id == id
    requires CurrentUser(sessions, users, accessToken, fp, now).user.Ok?
    ensures var found := Verify(sessions, accessToken, fp, now).found;
      && found.Some?
      && found.value.clientFingerprint == fp
      && CurrentUser(sessions, users, accessToken, fp, now).user.value.id == found.value.userId
  {
    var found := Verify(sessions, accessToken, fp, now).found;
    assert found.value.userId in users;
  }

  /**
   * A request sent after a login, with the login's cookie and the same two
   * headers as the login request, resolves to the user who logged in as
   * long as the session has not expired; nothing changes.
   */
  lemma LoginThenAuthenticate(sessions: SessionTable, users: map<int, User>, crypto: Utils.Crypto,
                              loginHeaders: map<string, string>, request: Request, token: Token,
                              userId: int, loginTime: Instant, days: int, now: Instant)
    requires token !in sessions && userId in users
    requires AccessTokenCookie in request.cookies && request.cookies[AccessTokenCookie] == token
    requires Utils.HeaderOrUnknown(request.headers, "user-agent") == Utils.HeaderOrUnknown(loginHeaders, "user-agent")
    requires Utils.HeaderOrUnknown(request.headers, "accept-language") == Utils.HeaderOrUnknown(loginHeaders, "accept-language")
    requires now < loginTime + days * MicrosPerDay
    ensures var table := sessions[token := NewSession(token, Utils.GenerateClientFingerprint(crypto, loginHeaders),
                                                      userId, loginTime, days)];
      Authenticate(table, users, request, crypto, now) == AuthOutcome(table, Ok(users[userId]))
  {
    Utils.FingerprintDeterministic(crypto, request.headers, loginHeaders);
  }

  /**
   * The request that discovers a session's expiry is still let through: the
   * session is marked EXPIRED and its user returned. The next request with
   * the same token is refused.
   */
  lemma ExpiryDiscoveryStillAuthenticates(sessions: SessionTable, users: map<int, User>, accessToken: Token,
                                          fp: string, now: Instant, later: Instant)
    requires accessToken in sessions && sessions[accessToken].userId in users
    requires sessions[accessToken].status == Enums.Active && sessions[accessToken].clientFingerprint == fp
    requires sessions[accessToken].expiresAt <= now
    ensures var first := CurrentUser(sessions, users, accessToken, fp, now);
      && first.user == Ok(users[sessions[accessToken].userId])
      && first.sessions[accessToken].status == Enums.Expired
      && CurrentUser(first.sessions, users, accessToken, fp, later) == AuthOutcome(first.sessions, Err(NotAuthenticated))
  {
  }

  /** Only an admin or a moderator gets past the staff gate. */
  lemma StaffGateAdmitsOnlyStaff(sessions: SessionTable, users: map<int, User>, request: Request,
                                 crypto: Utils.Crypto, now: Instant)
    ensures var staff := AuthenticateStaff(sessions, users, request, crypto, now);
      var auth := Authenticate(sessions, users, request, crypto, now);
      && staff.sessions == auth.sessions
      && (staff.user.Ok? <==> auth.user.Ok? && auth.user.value.role in {Enums.Admin, Enums.Moderator})
      && (staff.user.Ok? ==> staff.user == auth.user)
  {
  }
}
