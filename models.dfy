/**
 * The rows of `thinga/models.py` and the values their columns default to
 * when a row is inserted. Time is a whole number of microseconds since the
 * Unix epoch in UTC, the resolution of Python's `datetime`.
 */
module Models {
  import opened Wrappers
  import Enums
  import Utils

  type Instant = int

  /** `timedelta(days=1)` in microseconds. */
  const MicrosPerDay: int := 86_400_000_000

  /** `datetime.min` (0001-01-01) and `datetime.max` (9999-12-31 23:59:59.999999). */
  const MinInstant: int := -62_135_596_800_000_000
  const MaxInstant: int := 253_402_300_799_999_999

  /** `timedelta` refuses more days than this, either way. */
  const MaxTimedeltaDays: int := 999_999_999

  /**
   * Whether the expiry default `now + timedelta(days=days)` can be computed.
   * Otherwise `timedelta` or the addition raises `OverflowError`.
   */
  predicate ExpiryRepresentable(now: Instant, days: int) {
    && -MaxTimedeltaDays <= days <= MaxTimedeltaDays
    && MinInstant <= now + days * MicrosPerDay <= MaxInstant
  }

  /** Column widths (`String(n)`). */
  const UsernameWidth: nat := 35
  const EmailWidth: nat := 100
  const HashedPasswordWidth: nat := 65
  const DisplayNameWidth: nat := 50
  const AvatarFileWidth: nat := 35
  const BioWidth: nat := 300
  const MediaFileWidth: nat := 35
  const AltTextWidth: nat := 250
  const AccessTokenWidth: nat := 32
  const FingerprintWidth: nat := 64

  /** The avatar a profile gets when none is uploaded. */
  const DefaultAvatarFile: string := "default.jpg"

  datatype User = User(
    id: int,
    username: string,
    email: string,
    hashedPassword: string,
    role: Enums.UserRole,
    createdAt: Instant)

  datatype Profile = Profile(
    id: int,
    displayName: string,
    avatarFile: string,
    bio: Option<string>,
    userId: int)

  datatype Image = Image(
    id: int,
    mediaFile: string,
    altText: Option<string>,
    score: int,
    createdAt: Instant)

  datatype Rating = Rating(
    id: int,
    userId: int,
    imageId: int,
    createdAt: Instant)

  /** A session row; the access token is its lookup key. */
  datatype Session = Session(
    accessToken: string,
    clientFingerprint: string,
    status: Enums.SessionStatus,
    expiresAt: Instant,
    userId: int)

  /** A user as inserted by registration: the role and creation time take their defaults. */
  function NewUser(id: int, username: string, email: string, hashedPassword: string, now: Instant): User {
    User(id, username, email, hashedPassword, Enums.User, now)
  }

  /**
   * A profile as inserted by registration. An avatar given as `None` is left
   * out of the INSERT, so the column default applies.
   */
  function NewProfile(id: int, displayName: string, avatarFile: Option<string>, bio: Option<string>, userId: int): Profile {
    Profile(id, displayName, if avatarFile.Some? then avatarFile.value else DefaultAvatarFile, bio, userId)
  }

  /** An image as inserted by an upload: the score starts at its default. */
  function NewImage(id: int, mediaFile: string, altText: Option<string>, now: Instant): Image {
    Image(id, mediaFile, altText, 0, now)
  }

  /** A session as inserted at login: status, token and expiry take their defaults. */
  function NewSession(accessToken: string, clientFingerprint: string, userId: int, now: Instant, sessionExpireDays: int): Session {
    Session(accessToken, clientFingerprint, Enums.Active, now + sessionExpireDays * MicrosPerDay, userId)
  }

  /** The defaults each new row starts with. */
  lemma CreationDefaults(id: int, name: string, text: string, token: string, userId: int, now: Instant, days: int)
    ensures NewUser(id, name, text, text, now).role == Enums.User
    ensures NewUser(id, name, text, text, now).createdAt == now
    ensures NewImage(id, name, None, now).score == 0
    ensures NewProfile(id, name, None, None, userId).avatarFile == "default.jpg"
    ensures NewProfile(id, name, Some(text), None, userId).avatarFile == text
    ensures NewSession(token, text, userId, now, days).status == Enums.Active
    ensures NewSession(token, text, userId, now, days).expiresAt == now + days * MicrosPerDay
  {
  }

  /**
   * A session opened under a uuid4 token with a generated fingerprint fills
   * both of its string columns exactly.
   */
  lemma GeneratedValuesFitColumns(token: string, c: Utils.Crypto, headers: map<string, string>,
                                  userId: int, now: Instant, days: int)
    requires Utils.IsUuidHex(token)
    ensures var s := NewSession(token, Utils.GenerateClientFingerprint(c, headers), userId, now, days);
      |s.accessToken| == AccessTokenWidth && |s.clientFingerprint| == FingerprintWidth
  {
  }

  /**
   * Any lifetime up to a century, counted from any instant between 1970
   * and 9000, gives an expiry `datetime` can hold.
   */
  lemma CenturyLifetimeRepresentable(now: Instant, days: int)
    requires 0 <= now <= 221_845_392_000_000_000
    requires 0 <= days <= 36_525
    ensures ExpiryRepresentable(now, days)
  {
  }
}
