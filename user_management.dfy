/**
 * The account endpoints of `thinga/routers/user_management.py`: login,
 * logout, registration and the gate on role changes. An endpoint that
 * raises sends no cookie change; a successful one reports the change it
 * makes to the `access_token` cookie.
 */
module UserManagement {
  import opened Wrappers
  import opened Http
  import Enums
  import Utils
  import Config
  import opened Models
  import opened Schemas
  import opened Crud
  import opened Dependencies

  /** What a response does to the `access_token` cookie. */
  datatype CookieChange = SetAccessToken(value: string) | DeleteAccessToken

  /** A successful response: its body and its cookie change, if any. */
  datatype Response<T> = Response(body: T, cookie: Option<CookieChange>)

  /** The same message for an unknown user and for a wrong password. */
  const IncorrectCredentials: HttpError := HttpError(Unauthorized, "Incorrect username or password.")
  const CreateUserFailed: HttpError := HttpError(BadRequest, "Failed to create user.")
  const LoggedOutMessage: string := "Successfully logged out."

  /**
   * `login`: check the credentials, then open a session bound to the
   * request's fingerprint and set its token as the cookie. `uuidHex` is the
   * uuid4 drawn for the token. An expiry beyond `datetime`'s range is a 500.
   */
  method Login(db: Db, request: Request, username: string, password: string, crypto: Utils.Crypto,
               uuidHex: string, now: Instant)
    returns (r: Result<Response<User>>)
    requires db.Valid() && Utils.IsUuidHex(uuidHex) && uuidHex !in db.sessions
    modifies db`sessions
    ensures db.Valid()
    ensures var found := UserByUsername(db.users, username);
      if found.None? || !Utils.VerifyPassword(crypto, password, found.value.hashedPassword) then
        r == Err(IncorrectCredentials) && db.sessions == old(db.sessions)
      else if !ExpiryRepresentable(now, db.config.sessionExpireDays) then
        r == Err(ServerError) && db.sessions == old(db.sessions)
      else
        var s := NewSession(uuidHex, Utils.GenerateClientFingerprint(crypto, request.headers),
                            found.value.id, now, db.config.sessionExpireDays);
        && r == Ok(Response(found.value, Some(SetAccessToken(uuidHex))))
        && db.sessions == old(db.sessions)[uuidHex := s]
  {
    var dbUser := UserByUsername(db.users, username);
    if dbUser.None? || !Utils.VerifyPassword(crypto, password, dbUser.value.hashedPassword) {
      return Err(IncorrectCredentials);
    }
    var clientFingerprint := Utils.GenerateClientFingerprint(crypto, request.headers);
    var dbSession := db.CreateSession(dbUser.value.id, clientFingerprint, uuidHex, now);
    if dbSession.Err? {
      return Err(dbSession.error);
    }
    r := Ok(Response(dbUser.value, Some(SetAccessToken(dbSession.value.accessToken))));
  }

  /** `logout`: 401 without a cookie; otherwise deactivate its token (if known) and delete the cookie. */
  method Logout(db: Db, request: Request) returns (r: Result<Response<string>>)
    requires db.Valid()
    modifies db`sessions
    ensures db.Valid()
    ensures AccessTokenCookie !in request.cookies ==>
      r == Err(NotAuthenticated) && db.sessions == old(db.sessions)
    ensures AccessTokenCookie in request.cookies ==>
      && r == Ok(Response(LoggedOutMessage, Some(DeleteAccessToken)))
      && db.sessions == Deactivate(old(db.sessions), request.cookies[AccessTokenCookie])
  {
    var accessToken := GetAccessToken(request);
    if accessToken.Err? {
      return Err(accessToken.error);
    }
    db.DeactivateSession(accessToken.value);
    r := Ok(Response(LoggedOutMessage, Some(DeleteAccessToken)));
  }

  /**
   * `create_user` (the endpoint): validate the form, then register the form
   * with its normalised address. Duplicates are looked up by, and the user
   * stored with, that normalised address.
   */
  method CreateUser(db: Db, form: UserCreate, emailStr: string -> Option<string>, crypto: Utils.Crypto,
                    salt: string, guessType: string -> Option<string>, avatarUuid: string, now: Instant)
    returns (r: Result<User>)
    requires db.Valid() && Utils.IsUuidHex(avatarUuid)
    modifies db`users, db`profiles, db`files, db`nextUserId, db`nextProfileId
    ensures db.Valid()
    ensures !ValidUserCreate(form, emailStr) ==>
      && r == Err(CreateUserFailed)
      && db.users == old(db.users) && db.profiles == old(db.profiles) && db.files == old(db.files)
      && db.nextUserId == old(db.nextUserId) && db.nextProfileId == old(db.nextProfileId)
    ensures ValidUserCreate(form, emailStr) ==>
      var user := NormalizedUserCreate(form, emailStr);
      && (UsernameTaken(old(db.users), user.username) ==>
            && r == Err(UsernameRegistered(user.username))
            && db.users == old(db.users) && db.profiles == old(db.profiles) && db.files == old(db.files)
            && db.nextUserId == old(db.nextUserId) && db.nextProfileId == old(db.nextProfileId))
      && (!UsernameTaken(old(db.users), user.username) && EmailTaken(old(db.users), user.email) ==>
            && r == Err(EmailRegistered(user.email))
            && db.users == old(db.users) && db.profiles == old(db.profiles) && db.files == old(db.files)
            && db.nextUserId == old(db.nextUserId) && db.nextProfileId == old(db.nextProfileId))
    ensures ValidUserCreate(form, emailStr) ==>
      var user := NormalizedUserCreate(form, emailStr);
      !UsernameTaken(old(db.users), user.username) && !EmailTaken(old(db.users), user.email) ==>
        var created := NewUser(old(db.nextUserId), user.username, user.email,
                               Utils.GetPasswordHash(crypto, user.password, salt), now);
        var avatar := if user.avatarFile.Some?
                      then Some(CheckedFileName(user.avatarFile.value, guessType, db.config.maxImageSizeBytes, avatarUuid))
                      else None;
        && db.users == old(db.users)[created.id := created]
        && db.nextUserId == old(db.nextUserId) + 1
        && (avatar.Some? && avatar.value.Err? ==>
              && r == Err(avatar.value.error) && db.profiles == old(db.profiles) && db.files == old(db.files)
              && db.nextProfileId == old(db.nextProfileId))
        && (avatar.None? || avatar.value.Ok? ==>
              && r == Ok(created)
              && db.nextProfileId == old(db.nextProfileId) + 1
              && db.profiles == old(db.profiles)[old(db.nextProfileId) :=
                   NewProfile(old(db.nextProfileId), user.displayName,
                              if avatar.Some? then Some(avatar.value.value) else None, user.bio, created.id)]
              && (forall id :: id in db.profiles && db.profiles[id].userId == created.id ==> id == old(db.nextProfileId))
              && db.files == if avatar.Some? then old(db.files) + {StoredFile(Avatars, avatar.value.value)} else old(db.files))
  {
    if !ValidUserCreate(form, emailStr) {
      return Err(CreateUserFailed);
    }
    r := db.CreateUser(NormalizedUserCreate(form, emailStr), crypto, salt, guessType, avatarUuid, now);
  }

  /**
   * The gate of `update_user_role`: only an admin or a moderator gets
   * through, and the acting user is returned.
   */
  method AuthorizeRoleUpdate(db: Db, request: Request, crypto: Utils.Crypto, now: Instant)
    returns (r: Result<User>)
    requires db.Valid()
    modifies db`sessions
    ensures db.Valid()
    ensures AuthOutcome(db.sessions, r) == AuthenticateStaff(old(db.sessions), db.users, request, crypto, now)
    ensures r.Ok? ==> r.value.role == Enums.Admin || r.value.role == Enums.Moderator
  {
    r := RequireAdminOrModerator(db, request, crypto, now);
  }

  /** A fresh store in which "johndoe" registered without avatar or bio. */
  method RegisterJohnDoe(config: Config.Config, crypto: Utils.Crypto, salt: string,
                         guessType: string -> Option<string>, avatarUuid: string, now: Instant)
    returns (db: Db, user: User, profile: Profile)
    requires Utils.IsUuidHex(avatarUuid)
    ensures fresh(db) && db.Valid() && db.config == config && db.sessions == map[]
    ensures db.users == map[user.id := user] && db.profiles == map[profile.id := profile]
    ensures user == NewUser(user.id, "johndoe", "johndoe@example.com",
                            Utils.GetPasswordHash(crypto, "password123", salt), now)
    ensures profile == NewProfile(profile.id, "John Doe", None, None, user.id)
  {
    db := new Db(config);
    var form := UserCreate("johndoe", "johndoe@example.com", "password123", "John Doe", None, None);
    var profileId := db.nextProfileId;
    assert !UsernameTaken(db.users, form.username) && !EmailTaken(db.users, form.email);
    var created := db.CreateUser(form, crypto, salt, guessType, avatarUuid, now);
    assert created.Ok?;
    user := created.value;
    profile := NewProfile(profileId, "John Doe", None, None, user.id);
  }

  /**
   * Register "johndoe", log in, and read the current user with the login's
   * cookie and headers: the user has role USER, and the profile the default
   * avatar and no bio.
   */
  method RegisterLoginReadMe(config: Config.Config, crypto: Utils.Crypto, salt: string,
                             guessType: string -> Option<string>, avatarUuid: string, token: string,
                             headers: map<string, string>, now: Instant)
    returns (me: Result<User>, profile: Option<Profile>)
    requires Utils.Sound(crypto) && Utils.IsUuidHex(avatarUuid) && Utils.IsUuidHex(token)
    requires config.sessionExpireDays >= 1 && ExpiryRepresentable(now, config.sessionExpireDays)
    ensures me.Ok? && me.value.username == "johndoe" && me.value.role == Enums.User
    ensures profile.Some? && profile.value.userId == me.value.id
    ensures profile.value.displayName == "John Doe"
    ensures profile.value.avatarFile == "default.jpg" && profile.value.bio == None
  {
    var db, user, registered := RegisterJohnDoe(config, crypto, salt, guessType, avatarUuid, now);
    assert db.users[user.id].username == "johndoe";
    assert UserByUsername(db.users, "johndoe") == Some(user);
    Utils.HashThenVerify(crypto, "password123", salt);

    var login := Login(db, Request(headers, map[]), "johndoe", "password123", crypto, token, now);
    assert login.Ok?;
    me := RequireUser(db, Request(headers, map[AccessTokenCookie := token]), crypto, now);
    assert me == Ok(user) && registered.id in db.profiles;
    profile := Some(db.profiles[registered.id]);
  }
}
