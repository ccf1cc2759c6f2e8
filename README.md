# thinga: the session store, access gate and upload rules

thinga is a small web service for rating images. Users register and log in.
A login opens a server-side session, and the session's token travels in the
`access_token` cookie. Logged-in users rate images. Admins and moderators
upload and delete them. A separate script fills the gallery from an image
search.

This project models the core of that service in Dafny and proves properties
of the model:

- the session table: login, logout, and lazy expiry on verification;
- the access gate in front of the endpoints;
- registration with its unique username and email;
- image scoring and deletion;
- the checks and generated names for uploaded files;
- the string enumerations and the schema bounds;
- the pure helpers of the collector script.

The database session is the class `Crud.Db`. Its fields are the tables (maps
keyed by primary key; sessions keyed by token), the set of files written to
the two media directories, and the next primary key of each table.
`Db.Valid()` holds the primary-key and unique-index invariants, and every
method keeps it. Each state-changing method states its new state through a
pure function of the old one (`Crud.Deactivate`, `Crud.Verify`,
`Crud.ScoreIncremented`, `Crud.CheckedFileName`). The lemmas in
`CrudProperties` prove what holds after any sequence of logins, logouts and
verifications. An endpoint method runs its authentication dependency first,
as FastAPI does, and its contract is written in terms of
`Dependencies.Authenticate` or `Dependencies.AuthenticateStaff`.

Foreign code enters as parameters:

- bcrypt's `hashpw`/`checkpw` and SHA-256 form the record `Utils.Crypto`.
  `Utils.Sound` is the one property of bcrypt the model relies on.
- `uuid4().hex` is a 32-digit hex string argument. A session token must also
  be fresh in the table.
- `mimetypes.guess_type` is a function from file names to optional MIME
  types.
- Pydantic's `EmailStr` is a function from strings to optional strings: it
  refuses an address or returns its normalised form (display name dropped,
  domain lower-cased), which the endpoint then stores and looks up.
- `func.random()` is a permutation of the image ids.
- The clock is an integer count of microseconds (`now`).

In these places the model follows the code as written:

- `verify_session` marks a session EXPIRED and still returns it on the call
  that discovers the expiry. Only later calls are refused
  (`Dependencies.ExpiryDiscoveryStillAuthenticates`).
- Deleting an image removes the row but not the stored file.
- A duplicate username or email and a non-image upload are all answered with
  400.
- A profile registered without an avatar gets the column default
  "default.jpg". SQLAlchemy leaves a `None` out of the INSERT for a column
  that has a default.
- `create_user` commits the user before it saves the avatar. A rejected
  avatar therefore leaves a registered user without a profile.

## Model

| member | source | states |
|---|---|---|
| Enums.RoleValues | thinga/enums.py:4-7 | the values of ADMIN, MODERATOR and USER are "admin", "moderator" and "user" |
| Enums.StatusValues | thinga/enums.py:10-13 | the values of ACTIVE, INACTIVE and EXPIRED are "active", "inactive" and "expired" |
| Enums.RoleFromValue | thinga/enums.py:4-7 | `UserRole(s)` finds the member whose value is `s`, and fails exactly when no member has that value |
| Enums.StatusFromValue | thinga/enums.py:10-13 | `SessionStatus(s)` finds the member whose value is `s`, and fails exactly when no member has that value |
| Enums.ExactlyThreeMembers | thinga/enums.py:4-13 | each enumeration has exactly its three declared members, and they are distinct |
| Enums.RoleRoundTrip | thinga/enums.py:4-7 | converting a role to its string and back gives the role |
| Enums.StatusRoundTrip | thinga/enums.py:10-13 | converting a status to its string and back gives the status |
| Enums.RoleValueInjective | thinga/enums.py:4-7 | distinct roles have distinct string values |
| Enums.StatusValueInjective | thinga/enums.py:10-13 | distinct statuses have distinct string values |
| Utils.HashThenVerify | thinga/utils.py:9-20 | a password verifies against its own bcrypt hash, whatever salt was drawn |
| Utils.GetPasswordHash | thinga/utils.py:9-13 | `hashpw` of the password under a drawn salt; specified by `Utils.HashThenVerify` |
| Utils.VerifyPassword | thinga/utils.py:16-20 | `checkpw` of the password against the stored hash; specified by `Utils.HashThenVerify` |
| Utils.GenerateClientFingerprint | thinga/utils.py:23-27 | SHA-256 hex of user-agent, "-", accept-language, each defaulting to "unknown"; specified by `Utils.FingerprintDeterministic`, `Utils.MissingHeaderIsUnknown` and `Models.GeneratedValuesFitColumns` |
| Utils.FingerprintDeterministic | thinga/utils.py:23-27 | two requests that agree on user-agent and accept-language get the same fingerprint |
| Utils.MissingHeaderIsUnknown | thinga/utils.py:24-25 | a missing header gives the same fingerprint as the header sent with the value "unknown" |
| Utils.PreimageCollision | thinga/utils.py:26 | the "-" separator is not escaped, so ("a-b", "c") and ("a", "b-c") hash the same string |
| Utils.SplitExt | thinga/utils.py:33 | `os.path.splitext`: the root and the extension concatenate to the path; the extension is non-empty exactly when the last path component has a dot with a non-dot before it, and then it runs from the last dot, with no further dot or slash |
| Utils.GenerateUniqueFileName | thinga/utils.py:30-34 | the name is the first 15 hex digits of the uuid followed by the uploaded name's extension |
| Utils.StemDoesNotSurvive | thinga/utils.py:30-34 | two uploaded names with the same extension get the same generated name, so nothing of the stem survives |
| Utils.NoExtensionGivesBareId | thinga/utils.py:33-34 | a name without an extension yields the 15-digit id alone |
| Utils.UniqueNameKeepsExtension | thinga/utils.py:30-34 | `splitext` of a generated name gives back the 15-digit id and the uploaded extension |
| Models.CreationDefaults | thinga/models.py:19-93 | a new user has role USER; a new image has score 0; a new profile without avatar has "default.jpg"; a new session is ACTIVE and expires `SESSION_EXPIRE_DAYS` days after its creation |
| Models.NewUser | thinga/models.py:19-27 | the inserted user row; its defaults are stated by `Models.CreationDefaults` |
| Models.NewProfile | thinga/models.py:34-41 | the inserted profile row; its avatar default is stated by `Models.CreationDefaults` |
| Models.NewImage | thinga/models.py:46-53 | the inserted image row; its score default is stated by `Models.CreationDefaults` |
| Models.NewSession | thinga/models.py:70-90 | the inserted session row; its status and expiry are stated by `Models.CreationDefaults` and `CrudProperties.NewSessionLifetime` |
| Models.CenturyLifetimeRepresentable | thinga/models.py:85-90 | a lifetime of up to a century counted from any instant between 1970 and 9000 never overflows `datetime` |
| Models.ExpiryRepresentable | thinga/models.py:85-90 | the `expires_at` default can be computed exactly when the lifetime is within `timedelta`'s 999999999 days and the sum lies between `datetime.min` and `datetime.max`; otherwise `OverflowError` |
| Models.GeneratedValuesFitColumns | thinga/models.py:74-80 | a session opened under a uuid4 token with a generated fingerprint fills the 32-character token column and the 64-character fingerprint column exactly |
| Schemas.UpdateBoundsMatchCreate | thinga/schemas.py:10-51 | an update form with every field present is valid exactly when the registration form with the same values is valid |
| Schemas.ValidUserCreate | thinga/schemas.py:10-33 | username 3 to 35 characters, an address `EmailStr` accepts, password 8 to 65, display name 3 to 50, bio at most 300 when present |
| Schemas.NormalizedUserCreate | thinga/schemas.py:29 | a validated form holds the address in the normalised form `EmailStr` returns, all other fields as sent |
| Schemas.ValidUserProfileUpdate | thinga/schemas.py:45-51 | every field optional; a present field obeys the registration bound of that field |
| Schemas.ValidImageCreate | thinga/schemas.py:54-60 | the alt text, when present, is at most 250 characters; the media file is an upload with no length bound |
| Schemas.ValidImageOut | thinga/schemas.py:54-68 | a returned image has id at least 1, score at least 0, a media name of at most 35 characters and an alt text of at most 250 |
| Schemas.ValidRatingCreate | thinga/schemas.py:71-77 | both the user id and the image id are at least 1 |
| Schemas.EmptyUpdateIsValid | thinga/schemas.py:45-51 | every field of an update is optional |
| Schemas.SchemaMaximaFitColumns | thinga/schemas.py:10-56 | every username, display name and bio a valid form accepts fits its column, and the media, avatar and alt-text maxima equal their column widths |
| Crud.UserByUsername | thinga/crud.py:23-30 | a user is found exactly when the username is taken, and the one found is a stored user with that username |
| Crud.UserById | thinga/crud.py:19-20 | a user is found exactly when one is stored under that id, and it is that row |
| Crud.UserByEmail | thinga/crud.py:33-34 | a user is found exactly when the email is taken, and the one found is a stored user with that email |
| Crud.CheckedFileName | thinga/crud.py:213-234 | an upload passes exactly when its guessed MIME type is jpeg, png, gif or bmp and its size is at most the limit; the MIME check comes first (400), then the strict size check (413); an accepted name keeps the upload's extension |
| Crud.IsAllowedImageType | thinga/crud.py:214-223 | the guessed MIME type is present and one of image/jpeg, image/png, image/gif and image/bmp |
| Crud.ImageById | thinga/crud.py:100-101 | an image is found exactly when one is stored under that id, and it is that row |
| Crud.SessionByAccessToken | thinga/crud.py:152-161 | a session is found exactly when one is stored under that token, whatever its status, and it is that row |
| Crud.Deactivate | thinga/crud.py:180-184 | the table after logout; specified by `CrudProperties.DeactivateForcesInactive` and `CrudProperties.DeactivateIdempotent` |
| Crud.Verify | thinga/crud.py:187-210 | the table and answer of verification; specified by `CrudProperties.VerifyRejects`, `CrudProperties.VerifyDiscoversExpiry` and `CrudProperties.VerifyLiveSession` |
| Crud.ScoreIncremented | thinga/crud.py:116-126 | the table after one rating; specified by `CrudProperties.ScoreIncrementedAddsOne` |
| Crud.GetTwoRandomImages | thinga/crud.py:96-97 | min(2, number of images) distinct stored images, each equal to the stored row with its id |
| Crud.Db.SaveImageFile | thinga/crud.py:213-238 | the answer is `CheckedFileName`, and a file is added to the directory only when the upload is accepted |
| Crud.Db.CreateUser | thinga/crud.py:37-77 | a taken username gives 400 and changes nothing, not even the next ids; the email is checked only when the username is free, and a taken one gives 400 and changes nothing; otherwise exactly one user is added under the next user id, with the bcrypt hash of the password and role USER; then a rejected avatar ends the call with its error, and an accepted or absent avatar adds exactly one profile for that user under the next profile id |
| Crud.Db.AddUser | thinga/crud.py:49-57 | the user row goes in under the next id, the counter moves by one, and the unique indexes still hold |
| Crud.Db.AddProfileWithAvatar | thinga/crud.py:59-75 | the avatar is checked and saved before the profile is inserted; a rejected avatar inserts no profile |
| Crud.Db.AddProfile | thinga/crud.py:67-75 | the profile row goes in under the next id, for an existing user, and the counter moves by one |
| Crud.Db.CreateImage | thinga/crud.py:104-113 | a rejected upload adds no image and no file; an accepted one adds one image with score 0 and one gallery file |
| Crud.Db.AddImage | thinga/crud.py:109-113 | the image row goes in under a new id with score 0 |
| Crud.Db.UpdateImageScore | thinga/crud.py:116-126 | an unknown id gives 404 and changes nothing; otherwise the table is `ScoreIncremented` and the updated image is returned |
| Crud.Db.DeleteImage | thinga/crud.py:129-137 | an unknown id gives 404 and changes nothing; otherwise exactly that row is removed, and the stored files are untouched |
| Crud.Db.CreateSession | thinga/crud.py:164-177 | one new ACTIVE session under the fresh token, for the given user and fingerprint, expiring the configured number of days later, and no other session changes; an expiry `datetime` cannot hold gives 500 and no session |
| Crud.Db.DeactivateSession | thinga/crud.py:180-184 | the table becomes `Deactivate` of the old one |
| Crud.Db.VerifySession | thinga/crud.py:187-210 | the table and the answer are `Verify` of the old table |
| CrudProperties.DeactivateForcesInactive | thinga/crud.py:180-184 | logout sets INACTIVE whatever the status was, changes no other session, and ignores an unknown token |
| CrudProperties.DeactivateIdempotent | thinga/crud.py:180-184 | logging out twice leaves the same table as logging out once |
| CrudProperties.VerifyRejects | thinga/crud.py:193-203 | verification returns nothing exactly when the token is unknown, the session is INACTIVE or EXPIRED, or the fingerprint differs; and then nothing changes |
| CrudProperties.VerifyDiscoversExpiry | thinga/crud.py:204-210 | an ACTIVE, matching session past its expiry is marked EXPIRED and still returned on that call |
| CrudProperties.VerifyLiveSession | thinga/crud.py:204-210 | an ACTIVE, matching session before its expiry is returned and nothing changes |
| CrudProperties.NewSessionLifetime | thinga/models.py:81-90 | a new session verifies with its own fingerprint until it expires, is found EXPIRED from then on, and never verifies with another fingerprint |
| CrudProperties.ApplyEvolves | thinga/crud.py:164-210 | one login (refused on a taken token or an overflowing expiry), logout or verification keeps every session, its token, fingerprint, expiry and owner, and never makes a status ACTIVE again |
| CrudProperties.EvolvesTransitive | thinga/crud.py:164-210 | two allowed evolutions of the table in a row make one |
| CrudProperties.ReplayEvolves | thinga/crud.py:164-210 | any sequence of logins, logouts and verifications removes no session, rebinds none, and moves statuses only away from ACTIVE or to INACTIVE |
| CrudProperties.NeverReactivated | thinga/crud.py:180-210 | an INACTIVE or EXPIRED session never becomes ACTIVE again, whatever calls follow |
| CrudProperties.ExpiredNeverVerifiesAgain | thinga/crud.py:204-210 | once a verification has found a session expired, every later verification of that token fails |
| CrudProperties.LoggedOutNeverVerifies | thinga/crud.py:180-203 | after a logout the token never verifies again |
| CrudProperties.ScoreIncrementedAddsOne | thinga/crud.py:116-126 | scoring adds exactly 1 to that image and changes no other image |
| CrudProperties.StoredImageMeetsSchema | thinga/schemas.py:63-68 | every stored image has id at least 1 and score at least 0, so it serialises exactly when its strings fit the schema |
| CrudProperties.RatedTimes | thinga/crud.py:116-126 | repeated scoring keeps the set of images |
| CrudProperties.StoredRowsMakeValidRating | thinga/schemas.py:71-73 | a rating between a stored user and a stored image always passes `RatingCreate`'s two bounds |
| CrudProperties.RatingsAccumulate | thinga/crud.py:116-126 | n ratings of one image raise its score by exactly n and touch no other image |
| Dependencies.GetAccessToken | thinga/dependencies.py:18-25 | 401 "Not authenticated." exactly when the cookie is absent; otherwise its value unchanged |
| Dependencies.GetAdminOrModerator | thinga/dependencies.py:54-65 | 403 exactly when the role is neither ADMIN nor MODERATOR; otherwise the same user |
| Dependencies.CurrentUser | thinga/dependencies.py:28-51 | verification with the request's fingerprint, then the session owner's lookup; specified by `Dependencies.UnverifiedIsUnauthenticated`, `Dependencies.OrphanSessionIsUnauthenticated` and `Dependencies.CurrentUserIsSessionOwner` |
| Dependencies.Authenticate | thinga/dependencies.py:18-51 | the cookie first, then `CurrentUser`; specified by `Dependencies.LoginThenAuthenticate` and `RankingSystem.NoCookieFailsStaffGate` |
| Dependencies.AuthenticateStaff | thinga/dependencies.py:54-65 | `Authenticate`, then the role check; specified by `Dependencies.StaffGateAdmitsOnlyStaff` |
| Dependencies.GetCurrentUser | thinga/dependencies.py:28-51 | the new session table and the answer are those of `CurrentUser`: verify with the request's fingerprint, then look up the session's user |
| Dependencies.RequireUser | thinga/dependencies.py:18-51 | the cookie is read first, then `get_current_user` runs; the result is `Authenticate` |
| Dependencies.RequireAdminOrModerator | thinga/dependencies.py:54-65 | authentication first, then the role check; the result is `AuthenticateStaff` |
| Dependencies.UnverifiedIsUnauthenticated | thinga/dependencies.py:33-43 | whenever verification finds nothing, the answer is 401 and no session changes |
| Dependencies.OrphanSessionIsUnauthenticated | thinga/dependencies.py:45-50 | a verified session whose user no longer exists gives 401 "User not found." |
| Dependencies.CurrentUserIsSessionOwner | thinga/dependencies.py:45-51 | a user is resolved only through a verified session with the request's fingerprint, and it is that session's owner |
| Dependencies.LoginThenAuthenticate | thinga/dependencies.py:28-51 | a request with the login's cookie and the same two headers as the login request resolves to the user who logged in, until the session expires |
| Dependencies.ExpiryDiscoveryStillAuthenticates | thinga/dependencies.py:33-51 | the request that discovers the expiry still gets the user, and the next request with that token gets 401 |
| Dependencies.StaffGateAdmitsOnlyStaff | thinga/dependencies.py:54-65 | the staff gate admits exactly the authenticated admins and moderators, and changes the sessions as authentication does |
| UserManagement.Login | thinga/routers/user_management.py:32-62 | an unknown username and a wrong password give the same 401 and create no session; an expiry `datetime` cannot hold gives 500 and no session; otherwise exactly one session for that user, bound to the request's fingerprint, and the cookie is set to its token |
| UserManagement.Logout | thinga/routers/user_management.py:65-73 | without a cookie, 401 and nothing changes; otherwise the cookie's token is deactivated (an unknown token is ignored) and the cookie is deleted |
| UserManagement.CreateUser | thinga/routers/user_management.py:76-100 | a form that fails the schema gives 400 "Failed to create user." and changes nothing; otherwise the form with its normalised address is registered: a taken username, then a taken normalised address, gives 400 and changes nothing, the next ids included; otherwise one user is stored with the normalised address, and the avatar outcome decides between its error and one profile with its file |
| UserManagement.AuthorizeRoleUpdate | thinga/routers/user_management.py:140-147 | the role change is reachable only by an admin or a moderator |
| UserManagement.RegisterJohnDoe | thinga/crud.py:37-77 | registering into an empty store adds exactly one user with role USER and one profile with the default avatar |
| UserManagement.RegisterLoginReadMe | thinga/tests/test_apis.py:38-55 | register, log in, and read the current user with the login's cookie: the user has role USER and its profile has "default.jpg" and no bio |
| RankingSystem.GetRandomImages | thinga/routers/ranking_system.py:12-16 | no authentication; min(2, number of images) distinct stored images, answered exactly when every one passes `schemas.Image`, and 500 otherwise |
| RankingSystem.ImageResponse | thinga/routers/ranking_system.py:19 | the response check of `schemas.Image`: the row is answered exactly when the schema accepts it, and otherwise the answer is 500 |
| RankingSystem.ReadImage | thinga/routers/ranking_system.py:19-30 | 404 exactly when the id is unknown; 500 when the stored row fails `schemas.Image`; otherwise that image |
| RankingSystem.UploadImage | thinga/routers/ranking_system.py:33-41 | only admins and moderators get past the gate; then a missing file or a too-long alt text gives 500; then the upload checks give 400 or 413, or one new image with score 0 and its file, answered through the `schemas.Image` check, so a generated name over 35 characters is stored and answered with 500 |
| RankingSystem.DeleteImage | thinga/routers/ranking_system.py:44-51 | only admins and moderators get past the gate; an unknown id gives 404; otherwise the row goes, the answer is "Image deleted successfully.", and no file is removed |
| RankingSystem.RateImage | thinga/routers/ranking_system.py:54-60 | any authenticated user raises the image's score by exactly 1, and the updated row goes through the `schemas.Image` check; an unknown id gives 404 and changes nothing |
| RankingSystem.NoCookieFailsStaffGate | thinga/dependencies.py:18-25 | a request without the cookie is refused with 401 before the staff check |
| RankingSystem.ReadAfterRate | thinga/routers/ranking_system.py:54-60 | an image that reads before a rating reads after it too, with the score one higher |
| RankingSystem.FirstRatingScoresOne | thinga/tests/test_apis.py:169-184 | the first rating of a new image gives it score 1, and it reads after the rating exactly when it read before |
| RankingSystem.ReadAfterDelete | thinga/routers/ranking_system.py:44-51 | after a deletion the image reads as 404 |
| RankingSystem.LongExtensionAnswers500 | thinga/utils.py:30-34 | an accepted upload whose extension is over 20 characters gets a generated name the `schemas.Image` check refuses, so the answer is 500 |
| ImageCollector.CorrectImageUrl | scripts/image_collector.py:16-19 | a URL beginning with "//" gets the "https:" scheme; any other URL is unchanged |
| ImageCollector.GetFileExtensionFromMime | scripts/image_collector.py:43-50 | jpeg, png and gif map to ".jpg", ".png" and ".gif"; every other and a missing content type give none |
| ImageCollector.SavedImageName | scripts/image_collector.py:53-65 | no name exactly when the content type has no extension; otherwise 15 digits of the uuid followed by the mapped extension |
| ImageCollector.SaveImage | scripts/image_collector.py:58-69 | a skipped image writes nothing; a saved one adds exactly its name to the directory |
| ImageCollector.CorrectImageUrlIdempotent | scripts/image_collector.py:16-19 | correcting a corrected URL changes nothing more |
| ImageCollector.CorrectedUrlIsAbsolute | scripts/image_collector.py:18 | a corrected URL never begins with "//", and what followed the two slashes is kept |
| ImageCollector.CollectedTypesAreAccepted | scripts/image_collector.py:43-50 | every type the collector saves is one the server accepts; "image/bmp" is accepted by the server and skipped by the collector |
| ImageCollector.SavedNameMatchesServerNaming | scripts/image_collector.py:64-65 | the collector names a file as the server names an upload with the same extension, and `splitext` gives the extension back |

## Left out

- SQLAlchemy: queries, commits, refreshes, lazy relationships and `get_db`. The store is the maps of `Crud.Db`. Primary keys are counters, so the model does not reuse ids.
- The `id` column of a session and the `created_at` of a rating: they are never read.
- bcrypt, SHA-256, uuid4, `mimetypes.guess_type` and the clock: these are foreign code and enter as parameters. The model does not know that a bcrypt hash differs from the plain password. It knows only that the stored value is `hashpw` of it.
- bcrypt's 72-byte limit and the UTF-8 encoding of strings: strings are sequences of characters.
- The bytes of uploaded and downloaded files, `shutil.copyfileobj` and the aiofiles chunk loop: the model records only which names are written to which directory.
- The media and avatar column widths (35): the store does not check that a generated name fits, since SQLite does not enforce `String(n)`. A name is 15 characters plus whatever extension the upload carried. For images the response check then answers 500 (`RankingSystem.ImageResponse`).
- The 32-bit integer columns: ids and scores are unbounded integers.
- The MB figure in the 413 message: it is a float. `Crud.ImageTooLarge` carries only the fixed prefix.
- The scraping and downloading in `scripts/image_collector.py` (Playwright, aiohttp, `asyncio.sleep`, argparse, `download_images`, `main`): these are browser, network and async code.
- Which addresses `EmailStr` accepts and how it normalises them: the validator is foreign code and enters as the function `emailStr`.
- Cookie attributes (httponly, secure, samesite), CORS, the static mount and the environment loading of `thinga/main.py` and `thinga/config.py`: `SESSION_EXPIRE_DAYS` and `MAX_IMAGE_SIZE_BYTES` are the fields of `Config.Config`.
- `update_user_profile` and the role change itself: `crud.update_user_profile` and `crud.update_user_role` are called but not defined in `thinga/crud.py`. Only the gate of `update_user_role` is modelled.
- `create_rating`, `get_images` and `get_profile_by_user_id`: no modelled endpoint calls them. `rate_image` writes no rating row, and the model follows it.
- `read_users_me`: it returns the user of `get_current_user`. `Dependencies.RequireUser` is that chain.
- UserManagement.Login, UserManagement.CreateUser: the response check against `schemas.User` and its nested `schemas.Profile` is not modelled. The model answers with the stored row where the source answers 500 for a row the schema refuses, such as an avatar name over 35 characters.
- Concurrency: requests are modelled one at a time. Two simultaneous ratings can lose one increment through the read-modify-write `score += 1` of `update_image_score`. Two simultaneous registrations of one username can both pass the lookup; the unique index then makes the second commit fail with 500.
- I/O and database failures: a failing `open` or `copyfileobj`, a failing commit, and an `IntegrityError` from a uuid4 token that is already stored all give 500. The model treats the file write as always succeeding, and `Crud.Db.CreateSession` requires a fresh token. In `create_user` the user is already committed when the avatar is written, so such a failure would leave a user without a profile.
- The `print` calls in `_save_image` (scripts/image_collector.py:61 and 71): console output only.
- An `UploadFile` whose `size` or `filename` is None: `Schemas.Upload` always carries both. With None, `guess_type` or the size comparison raises a `TypeError`, and the server answers 500.
- Pydantic errors other than a failed field bound: in `upload_image`, any validation error inside the body is the generic 500.
