/**
 * The store operations of `thinga/crud.py`. The database session is the
 * class `Db`, whose fields are the tables (maps keyed by primary key, and the
 * session table keyed by access token), the set of files written to the media
 * directories, and the next primary key of each table. The session table's
 * transitions are also given as functions, so that properties relating
 * several calls can be stated as lemmas (module CrudProperties).
 */
module Crud {
  import opened Wrappers
  import opened Http
  import Enums
  import Utils
  import opened Models
  import opened Schemas
  import Config

  type Token = string
  type SessionTable = map<Token, Session>

  // ---------------------------------------------------------------- lookups

  ghost predicate UniqueUsernames(users: map<int, User>) {
    forall a, b :: a in users && b in users && users[a].username == users[b].username ==> a == b
  }

  ghost predicate UniqueEmails(users: map<int, User>) {
    forall a, b :: a in users && b in users && users[a].email == users[b].email ==> a == b
  }

  ghost predicate UsernameTaken(users: map<int, User>, username: string) {
    exists id :: id in users && users[id].username == username
  }

  ghost predicate EmailTaken(users: map<int, User>, email: string) {
    exists id :: id in users && users[id].email == email
  }

  /** `get_user_by_id`: the row under that primary key, or None when there is none. */
  function UserById(users: map<int, User>, userId: int): (r: Option<User>)
    ensures r.Some? <==> userId in users
    ensures r.Some? ==> r.value == users[userId]
  {
    if userId in users then Some(users[userId]) else None
  }

  /** `get_user_by_username`; the unique index leaves at most one candidate. */
  function UserByUsername(users: map<int, User>, username: string): (r: Option<User>)
    requires UniqueUsernames(users)
    ensures r.Some? <==> UsernameTaken(users, username)
    ensures r.Some? ==> r.value.username == username && exists id :: id in users && users[id] == r.value
  {
    if exists id :: id in users && users[id].username == username then
      var id :| id in users && users[id].username == username;
      Some(users[id])
    else
      None
  }

  /** `get_user_by_email`; the unique index leaves at most one candidate. */
  function UserByEmail(users: map<int, User>, email: string): (r: Option<User>)
    requires UniqueEmails(users)
    ensures r.Some? <==> EmailTaken(users, email)
    ensures r.Some? ==> r.value.email == email && exists id :: id in users && users[id] == r.value
  {
    if exists id :: id in users && users[id].email == email then
      var id :| id in users && users[id].email == email;
      Some(users[id])
    else
      None
  }

  /** `get_image_by_id`: the row under that primary key, or None when there is none. */
  function ImageById(images: map<int, Image>, imageId: int): (r: Option<Image>)
    ensures r.Some? <==> imageId in images
    ensures r.Some? ==> r.value == images[imageId]
  {
    if imageId in images then Some(images[imageId]) else None
  }

  /** `get_session_by_access_token`: the session under that token, whatever its status, or None. */
  function SessionByAccessToken(sessions: SessionTable, accessToken: Token): (r: Option<Session>)
    ensures r.Some? <==> accessToken in sessions
    ensures r.Some? ==> r.value == sessions[accessToken]
  {
    if accessToken in sessions then Some(sessions[accessToken]) else None
  }

  // ------------------------------------------------------ errors raised here

  function UsernameRegistered(username: string): HttpError {
    HttpError(BadRequest, "Username `" + username + "` already registered.")
  }

  function EmailRegistered(email: string): HttpError {
    HttpError(BadRequest, "Email `" + email + "` already registered.")
  }

  const ImageNotFound: HttpError := HttpError(NotFound, "Image not found.")
  const NotAnImage: HttpError := HttpError(BadRequest, "The file must be an image.")
  /** The message also gives the limit in megabytes as a float, which is not modelled. */
  const ImageTooLarge: HttpError := HttpError(PayloadTooLarge, "Image file size exceeds the limit of ")

  // ------------------------------------------------------- upload validation

  /** The media types `save_image_file` accepts. */
  const AllowedImageTypes: set<string> := {"image/jpeg", "image/png", "image/gif", "image/bmp"}

  /** `mime_type in (...)` where `mime_type` may be `None`. */
  predicate IsAllowedImageType(mimeType: Option<string>) {
    mimeType.Some? && mimeType.value in AllowedImageTypes
  }

  /** The two media directories. */
  datatype StorageDir = Gallery | Avatars

  /** A file written into a media directory. */
  datatype StoredFile = StoredFile(dir: StorageDir, name: string)

  /**
   * The checks of `save_image_file` and the name it writes under.
   * `guessType` is `mimetypes.guess_type` (type from the file name's
   * extension); `uuidHex` is the uuid4 drawn for the name.
   */
  function CheckedFileName(file: Upload, guessType: string -> Option<string>, maxImageSizeBytes: int, uuidHex: string): (r: Result<string>)
    requires Utils.IsUuidHex(uuidHex)
    ensures r.Ok? <==> IsAllowedImageType(guessType(file.filename)) && file.size <= maxImageSizeBytes
    ensures !IsAllowedImageType(guessType(file.filename)) ==> r == Err(NotAnImage)
    ensures IsAllowedImageType(guessType(file.filename)) && file.size > maxImageSizeBytes ==> r == Err(ImageTooLarge)
    ensures r.Ok? ==> Utils.Extension(r.value) == Utils.Extension(file.filename)
    ensures r.Ok? ==> |r.value| == Utils.UniqueIdLength + |Utils.Extension(file.filename)|
  {
    if !IsAllowedImageType(guessType(file.filename)) then Err(NotAnImage)
    else if file.size > maxImageSizeBytes then Err(ImageTooLarge)
    else
      Utils.UniqueNameKeepsExtension(uuidHex, file.filename);
      Ok(Utils.GenerateUniqueFileName(uuidHex, file.filename))
  }

  // ------------------------------------------------------------ random pairs

  /** `order` lists every key of `images` exactly once: the order `func.random()` drew. */
  ghost predicate IsPermutationOf(order: seq<int>, keys: set<int>) {
    && (forall i, j :: 0 <= i < j < |order| ==> order[i] != order[j])
    && (forall i :: 0 <= i < |order| ==> order[i] in keys)
    && (forall k :: k in keys ==> k in order)
  }

  ghost predicate KeysAreIds(images: map<int, Image>) {
    forall id :: id in images ==> images[id].id == id
  }

  /** A duplicate-free sequence has as many elements as the set of its elements. */
  lemma {:induction false} DistinctCardinality(s: seq<int>)
    requires forall i, j :: 0 <= i < j < |s| ==> s[i] != s[j]
    ensures |set x | x in s| == |s|
  {
    if s != [] {
      DistinctCardinality(s[1..]);
      assert (set x | x in s) == (set x | x in s[1..]) + {s[0]};
      assert s[0] !in s[1..];
    }
  }

  /** `get_two_random_images`: the first two images in a random order of the table. */
  function GetTwoRandomImages(images: map<int, Image>, order: seq<int>): (r: seq<Image>)
    requires IsPermutationOf(order, images.Keys) && KeysAreIds(images)
    ensures |r| == if |images| < 2 then |images| else 2
    ensures forall i :: 0 <= i < |r| ==> r[i].id in images && images[r[i].id] == r[i]
    ensures forall i, j :: 0 <= i < j < |r| ==> r[i] != r[j]
  {
    DistinctCardinality(order);
    forall k ensures k in images.Keys <==> k in (set x | x in order) {
      if k in images.Keys { assert k in order; }
    }
    assert (set x | x in order) == images.Keys;
    var n := if |order| < 2 then |order| else 2;
    seq(n, i requires 0 <= i < n => images[order[i]])
  }

  // ---------------------------------------------------------- session table

  /** `deactivate_session` on the table: the session, if any, becomes INACTIVE. */
  function Deactivate(sessions: SessionTable, accessToken: Token): SessionTable {
    if accessToken in sessions then sessions[accessToken := sessions[accessToken].(status := Enums.Inactive)]
    else sessions
  }

  /** The table after `verify_session` and the session it returns. */
  datatype VerifyOutcome = VerifyOutcome(sessions: SessionTable, found: Option<Session>)

  /**
   * `verify_session` on the table. A session that passes the checks but has
   * reached its expiry is marked EXPIRED and still returned.
   */
  function Verify(sessions: SessionTable, accessToken: Token, clientFingerprint: string, now: Instant): VerifyOutcome {
    if accessToken !in sessions
       || sessions[accessToken].status in {Enums.Inactive, Enums.Expired}
       || sessions[accessToken].clientFingerprint != clientFingerprint
    then
      VerifyOutcome(sessions, None)
    else if sessions[accessToken].expiresAt <= now then
      var expired := sessions[accessToken].(status := Enums.Expired);
      VerifyOutcome(sessions[accessToken := expired], Some(expired))
    else
      VerifyOutcome(sessions, Some(sessions[accessToken]))
  }

  /** `update_image_score` on the table. */
  function ScoreIncremented(images: map<int, Image>, imageId: int): map<int, Image>
    requires imageId in images
  {
    images[imageId := images[imageId].(score := images[imageId].score + 1)]
  }

  // ------------------------------------------------------- table invariants

  ghost predicate UsersValid(users: map<int, User>, nextUserId: int) {
    && nextUserId >= 1
    && (forall id :: id in users ==> 1 <= id < nextUserId && users[id].id == id)
    && UniqueUsernames(users)
    && UniqueEmails(users)
  }

  /** Every profile belongs to an existing user. */
  ghost predicate ProfilesValid(profiles: map<int, Profile>, users: map<int, User>, nextProfileId: int) {
    && nextProfileId >= 1
    && (forall id :: id in profiles ==> 1 <= id < nextProfileId && profiles[id].id == id && profiles[id].userId in users)
  }

  /** Scores never go below zero. */
  ghost predicate ImagesValid(images: map<int, Image>, nextImageId: int) {
    && nextImageId >= 1
    && (forall id :: id in images ==> 1 <= id < nextImageId && images[id].id == id && images[id].score >= 0)
  }

  ghost predicate SessionsValid(sessions: SessionTable) {
    forall k :: k in sessions ==> sessions[k].accessToken == k
  }

  /** Registering a free username and email keeps the user table valid. */
  lemma AddUserKeepsUsersValid(users: map<int, User>, nextUserId: int, u: User)
    requires UsersValid(users, nextUserId) && u.id == nextUserId
    requires !UsernameTaken(users, u.username) && !EmailTaken(users, u.email)
    ensures UsersValid(users[u.id := u], nextUserId + 1)
  {
    assert forall b :: b in users ==> users[b].username != u.username && users[b].email != u.email;
    assert u.id !in users;
  }

  // ---------------------------------------------------------------- the store

  class Db {
    const config: Config.Config
    var users: map<int, User>
    var profiles: map<int, Profile>
    var images: map<int, Image>
    var sessions: SessionTable
    var files: set<StoredFile>
    var nextUserId: int
    var nextProfileId: int
    var nextImageId: int

    /** Keys are primary keys below the next one, and the unique indexes hold. */
    ghost predicate Valid()
      reads this
    {
      && UsersValid(users, nextUserId)
      && ProfilesValid(profiles, users, nextProfileId)
      && ImagesValid(images, nextImageId)
      && SessionsValid(sessions)
    }

    constructor (config: Config.Config)
      ensures Valid() && this.config == config
      ensures users == map[] && profiles == map[] && images == map[] && sessions == map[] && files == {}
    {
      this.config := config;
      users, profiles, images, sessions, files := map[], map[], map[], map[], {};
      nextUserId, nextProfileId, nextImageId := 1, 1, 1;
    }

    /** `save_image_file`: check the upload, then write it under a generated name. */
    method SaveImageFile(file: Upload, dir: StorageDir, guessType: string -> Option<string>, uuidHex: string)
      returns (r: Result<string>)
      requires Utils.IsUuidHex(uuidHex)
      modifies this`files
      ensures r == CheckedFileName(file, guessType, config.maxImageSizeBytes, uuidHex)
      ensures files == if r.Ok? then old(files) + {StoredFile(dir, r.value)} else old(files)
    {
      var mimeType := guessType(file.filename);
      if !IsAllowedImageType(mimeType) {
        return Err(NotAnImage);
      } else if file.size > config.maxImageSizeBytes {
        return Err(ImageTooLarge);
      }
      var fileName := Utils.GenerateUniqueFileName(uuidHex, file.filename);
      files := files + {StoredFile(dir, fileName)};
      r := Ok(fileName);
    }

    /**
     * `create_user`. The user row is committed before the avatar is saved,
     * so a rejected avatar leaves the user without a profile.
     */
    method CreateUser(user: UserCreate, crypto: Utils.Crypto, salt: string, guessType: string -> Option<string>,
                      avatarUuid: string, now: Instant)
      returns (r: Result<User>)
      requires Valid() && Utils.IsUuidHex(avatarUuid)
      modifies this`users, this`profiles, this`files, this`nextUserId, this`nextProfileId
      ensures Valid()
      ensures UsernameTaken(old(users), user.username) ==>
        && r == Err(UsernameRegistered(user.username))
        && users == old(users) && profiles == old(profiles) && files == old(files)
        && nextUserId == old(nextUserId) && nextProfileId == old(nextProfileId)
      ensures !UsernameTaken(old(users), user.username) && EmailTaken(old(users), user.email) ==>
        && r == Err(EmailRegistered(user.email))
        && users == old(users) && profiles == old(profiles) && files == old(files)
        && nextUserId == old(nextUserId) && nextProfileId == old(nextProfileId)
      ensures !UsernameTaken(old(users), user.username) && !EmailTaken(old(users), user.email) ==>
        var created := NewUser(old(nextUserId), user.username, user.email,
                               Utils.GetPasswordHash(crypto, user.password, salt), now);
        var avatar := if user.avatarFile.Some?
                      then Some(CheckedFileName(user.avatarFile.value, guessType, config.maxImageSizeBytes, avatarUuid))
                      else None;
        && users == old(users)[created.id := created]
        && nextUserId == old(nextUserId) + 1
        && (avatar.Some? && avatar.value.Err? ==>
              && r == Err(avatar.value.error) && profiles == old(profiles) && files == old(files)
              && nextProfileId == old(nextProfileId))
        && (avatar.None? || avatar.value.Ok? ==>
              && r == Ok(created)
              && nextProfileId == old(nextProfileId) + 1
              && profiles == old(profiles)[old(nextProfileId) :=
                   NewProfile(old(nextProfileId), user.displayName,
                              if avatar.Some? then Some(avatar.value.value) else None, user.bio, created.id)]
              && (forall id :: id in profiles && profiles[id].userId == created.id ==> id == old(nextProfileId))
              && files == if avatar.Some? then old(files) + {StoredFile(Avatars, avatar.value.value)} else old(files))
    {
      if UserByUsername(users, user.username).Some? {
        return Err(UsernameRegistered(user.username));
      } else if UserByEmail(users, user.email).Some? {
        return Err(EmailRegistered(user.email));
      }

      var hashedPassword := Utils.GetPasswordHash(crypto, user.password, salt);
      var dbUser := AddUser(user.username, user.email, hashedPassword, now);
      var saved := AddProfileWithAvatar(user, guessType, avatarUuid, dbUser.id);
      r := if saved.Err? then Err(saved.error) else Ok(dbUser);
    }

    /**
     * The second half of `create_user`: save the avatar if one was sent, then
     * insert the profile. A rejected avatar stops before the profile.
     */
    method AddProfileWithAvatar(user: UserCreate, guessType: string -> Option<string>, avatarUuid: string, userId: int)
      returns (r: Result<()>)
      requires Valid() && Utils.IsUuidHex(avatarUuid) && userId in users
      requires forall id :: id in profiles ==> profiles[id].userId != userId
      modifies this`profiles, this`files, this`nextProfileId
      ensures Valid()
      ensures var avatar := if user.avatarFile.Some?
                            then Some(CheckedFileName(user.avatarFile.value, guessType, config.maxImageSizeBytes, avatarUuid))
                            else None;
        && (avatar.Some? && avatar.value.Err? ==>
              && r == Err(avatar.value.error) && profiles == old(profiles) && files == old(files)
              && nextProfileId == old(nextProfileId))
        && (avatar.None? || avatar.value.Ok? ==>
              && r == Ok(())
              && nextProfileId == old(nextProfileId) + 1
              && profiles == old(profiles)[old(nextProfileId) :=
                   NewProfile(old(nextProfileId), user.displayName,
                              if avatar.Some? then Some(avatar.value.value) else None, user.bio, userId)]
              && (forall id :: id in profiles && profiles[id].userId == userId ==> id == old(nextProfileId))
              && files == if avatar.Some? then old(files) + {StoredFile(Avatars, avatar.value.value)} else old(files))
    {
      var avatarFileName: Option<string> := None;
      if user.avatarFile.Some? {
        var saved := SaveImageFile(user.avatarFile.value, Avatars, guessType, avatarUuid);
        if saved.Err? {
          return Err(saved.error);
        }
        avatarFileName := Some(saved.value);
      }
      var dbProfile := AddProfile(user.displayName, avatarFileName, user.bio, userId);
      r := Ok(());
    }

    /** The user row of `create_user`, under the next id; the unique indexes must let it in. */
    method AddUser(username: string, email: string, hashedPassword: string, now: Instant) returns (u: User)
      requires Valid() && !UsernameTaken(users, username) && !EmailTaken(users, email)
      modifies this`users, this`nextUserId
      ensures Valid()
      ensures u == NewUser(old(nextUserId), username, email, hashedPassword, now)
      ensures u.id !in old(users) && users == old(users)[u.id := u]
      ensures nextUserId == old(nextUserId) + 1
    {
      u := NewUser(nextUserId, username, email, hashedPassword, now);
      AddUserKeepsUsersValid(users, nextUserId, u);
      users := users[u.id := u];
      nextUserId := nextUserId + 1;
    }

    /** The profile row of `create_user`, under the next id, for an existing user. */
    method AddProfile(displayName: string, avatarFile: Option<string>, bio: Option<string>, userId: int)
      returns (p: Profile)
      requires Valid() && userId in users
      modifies this`profiles, this`nextProfileId
      ensures Valid()
      ensures p == NewProfile(old(nextProfileId), displayName, avatarFile, bio, userId)
      ensures p.id !in old(profiles) && profiles == old(profiles)[p.id := p]
      ensures nextProfileId == old(nextProfileId) + 1
    {
      p := NewProfile(nextProfileId, displayName, avatarFile, bio, userId);
      profiles := profiles[p.id := p];
      nextProfileId := nextProfileId + 1;
    }

    /** `create_image`: save the upload to the gallery, then insert the row. */
    method CreateImage(image: ImageCreate, guessType: string -> Option<string>, uuidHex: string, now: Instant)
      returns (r: Result<Image>)
      requires Valid() && Utils.IsUuidHex(uuidHex)
      modifies this`images, this`files, this`nextImageId
      ensures Valid()
      ensures var saved := CheckedFileName(image.mediaFile, guessType, config.maxImageSizeBytes, uuidHex);
        if saved.Err? then
          r == Err(saved.error) && images == old(images) && files == old(files)
        else
          var created := NewImage(old(nextImageId), saved.value, image.altText, now);
          && r == Ok(created)
          && images == old(images)[created.id := created]
          && files == old(files) + {StoredFile(Gallery, saved.value)}
    {
      var fileName := SaveImageFile(image.mediaFile, Gallery, guessType, uuidHex);
      if fileName.Err? {
        return Err(fileName.error);
      }
      var dbImage := AddImage(fileName.value, image.altText, now);
      r := Ok(dbImage);
    }

    /** The image row of `create_image`, under the next id, with score 0. */
    method AddImage(mediaFile: string, altText: Option<string>, now: Instant) returns (img: Image)
      requires Valid()
      modifies this`images, this`nextImageId
      ensures Valid()
      ensures img == NewImage(old(nextImageId), mediaFile, altText, now)
      ensures img.id !in old(images) && images == old(images)[img.id := img]
    {
      img := NewImage(nextImageId, mediaFile, altText, now);
      images := images[img.id := img];
      nextImageId := nextImageId + 1;
    }

    /** `update_image_score`: one more point for the image. */
    method UpdateImageScore(imageId: int) returns (r: Result<Image>)
      requires Valid()
      modifies this`images
      ensures Valid()
      ensures imageId !in old(images) ==> r == Err(ImageNotFound) && images == old(images)
      ensures imageId in old(images) ==>
        && images == ScoreIncremented(old(images), imageId)
        && r == Ok(images[imageId])
    {
      var dbImage := ImageById(images, imageId);
      if dbImage.None? {
        return Err(ImageNotFound);
      }
      var scored := dbImage.value.(score := dbImage.value.score + 1);
      images := images[imageId := scored];
      r := Ok(scored);
    }

    /** `delete_image`: the row goes, the stored file stays. */
    method DeleteImage(imageId: int) returns (r: Result<()>)
      requires Valid()
      modifies this`images
      ensures Valid()
      ensures imageId !in old(images) ==> r == Err(ImageNotFound) && images == old(images)
      ensures imageId in old(images) ==> r == Ok(()) && images == old(images) - {imageId}
      ensures files == old(files)
    {
      var dbImage := ImageById(images, imageId);
      if dbImage.None? {
        return Err(ImageNotFound);
      }
      images := images - {imageId};
      r := Ok(());
    }

    /**
     * `create_session`: a new ACTIVE session under a fresh uuid4 token. When
     * the expiry default overflows `datetime`, the commit raises and nothing
     * is inserted.
     */
    method CreateSession(userId: int, clientFingerprint: string, uuidHex: string, now: Instant)
      returns (r: Result<Session>)
      requires Valid() && Utils.IsUuidHex(uuidHex) && uuidHex !in sessions
      modifies this`sessions
      ensures Valid()
      ensures !ExpiryRepresentable(now, config.sessionExpireDays) ==>
        r == Err(ServerError) && sessions == old(sessions)
      ensures ExpiryRepresentable(now, config.sessionExpireDays) ==>
        && r == Ok(NewSession(uuidHex, clientFingerprint, userId, now, config.sessionExpireDays))
        && sessions == old(sessions)[uuidHex := r.value]
    {
      if !ExpiryRepresentable(now, config.sessionExpireDays) {
        return Err(ServerError);
      }
      var s := NewSession(uuidHex, clientFingerprint, userId, now, config.sessionExpireDays);
      sessions := sessions[s.accessToken := s];
      r := Ok(s);
    }

    /** `deactivate_session`. */
    method DeactivateSession(accessToken: Token)
      requires Valid()
      modifies this`sessions
      ensures Valid()
      ensures sessions == Deactivate(old(sessions), accessToken)
    {
      var dbSession := SessionByAccessToken(sessions, accessToken);
      if dbSession.Some? {
        sessions := sessions[accessToken := dbSession.value.(status := Enums.Inactive)];
      }
    }

    /** `verify_session`. */
    method VerifySession(accessToken: Token, clientFingerprint: string, now: Instant)
      returns (r: Option<Session>)
      requires Valid()
      modifies this`sessions
      ensures Valid()
      ensures VerifyOutcome(sessions, r) == Verify(old(sessions), accessToken, clientFingerprint, now)
    {
      var dbSession := SessionByAccessToken(sessions, accessToken);
      if dbSession.None?
         || dbSession.value.status in {Enums.Inactive, Enums.Expired}
         || dbSession.value.clientFingerprint != clientFingerprint
      {
        return None;
      } else if dbSession.value.expiresAt <= now {
        var expired := dbSession.value.(status := Enums.Expired);
        sessions := sessions[accessToken := expired];
        return Some(expired);
      }
      r := dbSession;
    }
  }
}
