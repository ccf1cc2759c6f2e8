/**
 * The request and response schemas of `thinga/schemas.py`, as validation
 * predicates over their fields. Pydantic measures string length in
 * characters. `EmailStr` is an external validator and enters as the
 * parameter `emailStr`: it refuses an address (None) or returns its
 * normalised form, which is what the validated model holds from then on.
 */
module Schemas {
  import opened Wrappers
  import Models

  /** An uploaded file as `UploadFile` presents it: the client's file name and the byte size. */
  datatype Upload = Upload(filename: string, size: int)

  const UsernameMin: nat := 3
  const UsernameMax: nat := 35
  const PasswordMin: nat := 8
  const PasswordMax: nat := 65
  const DisplayNameMin: nat := 3
  const DisplayNameMax: nat := 50
  const BioMax: nat := 300
  const AvatarFileMax: nat := 35
  const MediaFileMax: nat := 35
  const AltTextMax: nat := 250

  predicate LengthBetween(s: string, lo: nat, hi: nat) {
    lo <= |s| <= hi
  }

  /** An optional string field with a maximum length only. */
  predicate OptionalAtMost(s: Option<string>, hi: nat) {
    s.None? || |s.value| <= hi
  }

  /** An optional string field that, when present, has both bounds. */
  predicate OptionalBetween(s: Option<string>, lo: nat, hi: nat) {
    s.None? || LengthBetween(s.value, lo, hi)
  }

  /** `UserCreate`: the registration form. */
  datatype UserCreate = UserCreate(
    username: string,
    email: string,
    password: string,
    displayName: string,
    bio: Option<string>,
    avatarFile: Option<Upload>)

  predicate ValidUserCreate(u: UserCreate, emailStr: string -> Option<string>) {
    && LengthBetween(u.username, UsernameMin, UsernameMax)
    && emailStr(u.email).Some?
    && LengthBetween(u.password, PasswordMin, PasswordMax)
    && LengthBetween(u.displayName, DisplayNameMin, DisplayNameMax)
    && OptionalAtMost(u.bio, BioMax)
  }

  /** A valid registration form as the endpoint receives it: the address replaced by its normalised form. */
  function NormalizedUserCreate(u: UserCreate, emailStr: string -> Option<string>): UserCreate
    requires ValidUserCreate(u, emailStr)
  {
    u.(email := emailStr(u.email).value)
  }

  /** `UserProfileUpdate`: every field is optional. */
  datatype UserProfileUpdate = UserProfileUpdate(
    username: Option<string>,
    email: Option<string>,
    password: Option<string>,
    displayName: Option<string>,
    bio: Option<string>,
    avatarFile: Option<Upload>)

  predicate ValidUserProfileUpdate(u: UserProfileUpdate, emailStr: string -> Option<string>) {
    && OptionalBetween(u.username, UsernameMin, UsernameMax)
    && (u.email.None? || emailStr(u.email.value).Some?)
    && OptionalBetween(u.password, PasswordMin, PasswordMax)
    && OptionalBetween(u.displayName, DisplayNameMin, DisplayNameMax)
    && OptionalAtMost(u.bio, BioMax)
  }

  /** `ImageCreate`: the uploaded file replaces the string `media_file` field and its bound. */
  datatype ImageCreate = ImageCreate(mediaFile: Upload, altText: Option<string>)

  predicate ValidImageCreate(i: ImageCreate) {
    OptionalAtMost(i.altText, AltTextMax)
  }

  /** `schemas.Image`: what an image row must satisfy to be serialised. */
  predicate ValidImageOut(img: Models.Image) {
    && img.id >= 1
    && img.score >= 0
    && |img.mediaFile| <= MediaFileMax
    && OptionalAtMost(img.altText, AltTextMax)
  }

  /** `RatingCreate`: both ids are positive. */
  predicate ValidRatingCreate(userId: int, imageId: int) {
    userId >= 1 && imageId >= 1
  }

  /** The update form with every field present accepts exactly what registration accepts. */
  lemma UpdateBoundsMatchCreate(u: UserCreate, emailStr: string -> Option<string>)
    ensures ValidUserProfileUpdate(
              UserProfileUpdate(Some(u.username), Some(u.email), Some(u.password),
                                Some(u.displayName), u.bio, u.avatarFile), emailStr)
        <==> ValidUserCreate(u, emailStr)
  {
  }

  /** Leaving a field out of an update never makes it invalid. */
  lemma EmptyUpdateIsValid(emailStr: string -> Option<string>)
    ensures ValidUserProfileUpdate(UserProfileUpdate(None, None, None, None, None, None), emailStr)
  {
  }

  /** Every string a valid form accepts fits its database column. */
  lemma SchemaMaximaFitColumns(u: UserCreate, emailStr: string -> Option<string>)
    requires ValidUserCreate(u, emailStr)
    ensures |u.username| <= Models.UsernameWidth
    ensures |u.displayName| <= Models.DisplayNameWidth
    ensures u.bio.Some? ==> |u.bio.value| <= Models.BioWidth
    ensures MediaFileMax == Models.MediaFileWidth && AvatarFileMax == Models.AvatarFileWidth
    ensures AltTextMax == Models.AltTextWidth
  {
  }
}
