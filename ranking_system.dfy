/**
 * The image endpoints of `thinga/routers/ranking_system.py`. The
 * authentication dependencies run before the endpoint body, so a refused
 * request changes nothing but what verification itself marks EXPIRED.
 */
module RankingSystem {
  import opened Wrappers
  import opened Http
  import Utils
  import opened Models
  import opened Schemas
  import opened Crud
  import opened Dependencies

  const ImageDeletedMessage: string := "Image deleted successfully."

  /**
   * FastAPI's check of a returned row against `response_model=schemas.Image`:
   * a row the schema refuses is answered with 500, after whatever the
   * endpoint has already committed.
   */
  function ImageResponse(img: Image): (r: Result<Image>)
    ensures r.Ok? <==> ValidImageOut(img)
    ensures r.Ok? ==> r.value == img
    ensures r.Err? ==> r.error == ServerError
  {
    if ValidImageOut(img) then Ok(img) else Err(ServerError)
  }

  /**
   * `get_random_images`: no authentication; at most two distinct stored
   * images, in the order `func.random()` drew (the parameter `order`). The
   * list is checked against `list[schemas.Image]`: one refused row makes
   * the answer 500.
   */
  method GetRandomImages(db: Db, order: seq<int>) returns (r: Result<seq<Image>>)
    requires db.Valid() && IsPermutationOf(order, db.images.Keys)
    ensures r.Ok? <==> forall i :: 0 <= i < |GetTwoRandomImages(db.images, order)| ==>
                         ValidImageOut(GetTwoRandomImages(db.images, order)[i])
    ensures r.Err? ==> r.error == ServerError
    ensures r.Ok? ==> |r.value| == if |db.images| < 2 then |db.images| else 2
    ensures r.Ok? ==> forall i :: 0 <= i < |r.value| ==> r.value[i].id in db.images && db.images[r.value[i].id] == r.value[i]
    ensures r.Ok? ==> forall i, j :: 0 <= i < j < |r.value| ==> r.value[i] != r.value[j]
  {
    var images := GetTwoRandomImages(db.images, order);
    if forall i :: 0 <= i < |images| ==> ValidImageOut(images[i]) {
      r := Ok(images);
    } else {
      r := Err(ServerError);
    }
  }

  /** `read_image`: the image with that id, or 404; a row the response schema refuses is a 500. */
  function ReadImage(images: map<int, Image>, imageId: int): (r: Result<Image>)
    ensures r.Ok? <==> imageId in images && ValidImageOut(images[imageId])
    ensures r.Ok? ==> r.value == images[imageId]
    ensures imageId !in images ==> r == Err(ImageNotFound) && r.error.statusCode == NotFound
    ensures imageId in images && !ValidImageOut(images[imageId]) ==> r == Err(ServerError)
  {
    var dbImage := ImageById(images, imageId);
    if dbImage.None? then Err(ImageNotFound) else ImageResponse(dbImage.value)
  }

  /**
   * `upload_image`: the staff gate; then the form (a missing file or an
   * over-long alt text is a 500); then `create_image`, whose file checks
   * answer 400 or 413. An accepted upload is committed even when the
   * response schema then refuses the row (a generated name over 35
   * characters) and the answer is 500.
   */
  method UploadImage(db: Db, request: Request, mediaFile: Option<Upload>, altText: Option<string>,
                     crypto: Utils.Crypto, guessType: string -> Option<string>, uuidHex: string, now: Instant)
    returns (r: Result<Image>)
    requires db.Valid() && Utils.IsUuidHex(uuidHex)
    modifies db`sessions, db`images, db`files, db`nextImageId
    ensures db.Valid()
    ensures var gate := AuthenticateStaff(old(db.sessions), db.users, request, crypto, now);
      && db.sessions == gate.sessions
      && (gate.user.Err? ==>
            r == Err(gate.user.error) && db.images == old(db.images) && db.files == old(db.files))
    ensures AuthenticateStaff(old(db.sessions), db.users, request, crypto, now).user.Ok? ==>
      if mediaFile.None? || !ValidImageCreate(ImageCreate(mediaFile.value, altText)) then
        r == Err(ServerError) && db.images == old(db.images) && db.files == old(db.files)
      else
        var saved := CheckedFileName(mediaFile.value, guessType, db.config.maxImageSizeBytes, uuidHex);
        if saved.Err? then
          r == Err(saved.error) && db.images == old(db.images) && db.files == old(db.files)
        else
          var created := NewImage(old(db.nextImageId), saved.value, altText, now);
          && r == ImageResponse(created)
          && db.images == old(db.images)[created.id := created]
          && db.files == old(db.files) + {StoredFile(Gallery, saved.value)}
  {
    var user := RequireAdminOrModerator(db, request, crypto, now);
    if user.Err? {
      return Err(user.error);
    }
    if mediaFile.None? || !ValidImageCreate(ImageCreate(mediaFile.value, altText)) {
      return Err(ServerError);
    }
    var created := db.CreateImage(ImageCreate(mediaFile.value, altText), guessType, uuidHex, now);
    if created.Err? {
      return Err(created.error);
    }
    r := ImageResponse(created.value);
  }

  /** `delete_image` (the endpoint): the staff gate, then the row goes; the stored file stays. */
  method DeleteImage(db: Db, request: Request, imageId: int, crypto: Utils.Crypto, now: Instant)
    returns (r: Result<string>)
    requires db.Valid()
    modifies db`sessions, db`images
    ensures db.Valid()
    ensures db.files == old(db.files)
    ensures var gate := AuthenticateStaff(old(db.sessions), db.users, request, crypto, now);
      && db.sessions == gate.sessions
      && (gate.user.Err? ==> r == Err(gate.user.error) && db.images == old(db.images))
      && (gate.user.Ok? && imageId !in old(db.images) ==>
            r == Err(ImageNotFound) && db.images == old(db.images))
      && (gate.user.Ok? && imageId in old(db.images) ==>
            r == Ok(ImageDeletedMessage) && db.images == old(db.images) - {imageId})
  {
    var user := RequireAdminOrModerator(db, request, crypto, now);
    if user.Err? {
      return Err(user.error);
    }
    var deleted := db.DeleteImage(imageId);
    if deleted.Err? {
      return Err(deleted.error);
    }
    r := Ok(ImageDeletedMessage);
  }

  /**
   * `rate_image`: any logged-in user adds one to the score. No rating row is
   * written, so the same user may rate the same image again and again.
   * The increment is committed even when the response schema then refuses
   * the row.
   */
  method RateImage(db: Db, request: Request, imageId: int, crypto: Utils.Crypto, now: Instant)
    returns (r: Result<Image>)
    requires db.Valid()
    modifies db`sessions, db`images
    ensures db.Valid()
    ensures var auth := Authenticate(old(db.sessions), db.users, request, crypto, now);
      && db.sessions == auth.sessions
      && (auth.user.Err? ==> r == Err(auth.user.error) && db.images == old(db.images))
      && (auth.user.Ok? && imageId !in old(db.images) ==>
            r == Err(ImageNotFound) && db.images == old(db.images))
      && (auth.user.Ok? && imageId in old(db.images) ==>
            && db.images == ScoreIncremented(old(db.images), imageId)
            && r == ImageResponse(old(db.images)[imageId].(score := old(db.images)[imageId].score + 1)))
  {
    var user := RequireUser(db, request, crypto, now);
    if user.Err? {
      return Err(user.error);
    }
    var updated := db.UpdateImageScore(imageId);
    if updated.Err? {
      return Err(updated.error);
    }
    r := ImageResponse(updated.value);
  }

  // ------------------------------------------------------------- properties

  /** A request without the cookie is refused by the staff gate with 401 before anything else runs. */
  lemma NoCookieFailsStaffGate(sessions: SessionTable, users: map<int, User>, request: Request,
                                crypto: Utils.Crypto, now: Instant)
    requires AccessTokenCookie !in request.cookies
    ensures AuthenticateStaff(sessions, users, request, crypto, now) == AuthOutcome(sessions, Err(NotAuthenticated))
  {
  }

  /** An image that reads before a rating reads after it too, with the score one higher. */
  lemma ReadAfterRate(images: map<int, Image>, imageId: int)
    requires imageId in images
    ensures ReadImage(images, imageId).Ok? ==>
      && ReadImage(ScoreIncremented(images, imageId), imageId).Ok?
      && ReadImage(ScoreIncremented(images, imageId), imageId).value.score
         == ReadImage(images, imageId).value.score + 1
  {
  }

  /** The first rating of a newly uploaded image gives it score 1. */
  lemma FirstRatingScoresOne(images: map<int, Image>, imageId: int, mediaFile: string,
                             altText: Option<string>, now: Instant)
    requires imageId in images && images[imageId] == NewImage(imageId, mediaFile, altText, now)
    ensures ReadImage(ScoreIncremented(images, imageId), imageId).Ok? <==> ReadImage(images, imageId).Ok?
    ensures ReadImage(ScoreIncremented(images, imageId), imageId).Ok? ==>
      ReadImage(ScoreIncremented(images, imageId), imageId).value.score == 1
  {
  }

  /**
   * An upload whose extension is longer than 20 characters is accepted by
   * the file checks, but its generated name overflows the 35 characters of
   * `schemas.Image`, so the answer is 500 although the row is stored.
   */
  lemma LongExtensionAnswers500(file: Upload, guessType: string -> Option<string>, maxImageSizeBytes: int,
                                uuidHex: string, id: int, altText: Option<string>, now: Instant)
    requires Utils.IsUuidHex(uuidHex)
    requires CheckedFileName(file, guessType, maxImageSizeBytes, uuidHex).Ok?
    requires |Utils.Extension(file.filename)| > MediaFileMax - Utils.UniqueIdLength
    ensures ImageResponse(NewImage(id, CheckedFileName(file, guessType, maxImageSizeBytes, uuidHex).value, altText, now))
         == Err(ServerError)
  {
  }

  /** After a deletion the image reads as 404. */
  lemma ReadAfterDelete(images: map<int, Image>, imageId: int)
    ensures ReadImage(images - {imageId}, imageId) == Err(ImageNotFound)
  {
  }
}
