/**
 * The pure helpers of `scripts/image_collector.py`, the script that fills
 * the gallery: the URL fix-up, the MIME-to-extension map, and the rule that
 * decides whether and under which name a downloaded image is saved. The
 * directory the script writes to is the set of names it holds.
 */
module ImageCollector {
  import opened Wrappers
  import Utils
  import Crud

  /** `_correct_image_url`: a protocol-relative URL ("//host/...") gets the https scheme. */
  function CorrectImageUrl(url: string): (r: string)
    ensures |url| >= 2 && url[..2] == "//" ==> r == "https:" + url
    ensures !(|url| >= 2 && url[..2] == "//") ==> r == url
  {
    if |url| >= 2 && url[..2] == "//" then "https://" + url[2..] else url
  }

  /** The script's three MIME types and their extensions. */
  const MimeToExtension: map<string, string> :=
    map["image/jpeg" := ".jpg", "image/png" := ".png", "image/gif" := ".gif"]

  /** `_get_file_extension_from_mime`: the mapped extension, or None for any other or a missing content type. */
  function GetFileExtensionFromMime(mime: Option<string>): (r: Option<string>)
    ensures r.Some? <==> mime.Some? && mime.value in {"image/jpeg", "image/png", "image/gif"}
    ensures mime == Some("image/jpeg") ==> r == Some(".jpg")
    ensures mime == Some("image/png") ==> r == Some(".png")
    ensures mime == Some("image/gif") ==> r == Some(".gif")
  {
    if mime.Some? && mime.value in MimeToExtension then Some(MimeToExtension[mime.value]) else None
  }

  /**
   * The naming rule of `_save_image`: no name (the image is skipped) when the
   * content type has no extension, otherwise the first 15 digits of a fresh
   * uuid followed by the extension.
   */
  function SavedImageName(contentType: Option<string>, uuidHex: string): (r: Option<string>)
    requires Utils.IsUuidHex(uuidHex)
    ensures r.None? <==> GetFileExtensionFromMime(contentType).None?
    ensures r.Some? ==> |r.value| == Utils.UniqueIdLength + 4
    ensures r.Some? ==> r.value[..Utils.UniqueIdLength] == uuidHex[..Utils.UniqueIdLength]
    ensures r.Some? ==> r.value[Utils.UniqueIdLength..] == GetFileExtensionFromMime(contentType).value
  {
    var fileExtension := GetFileExtensionFromMime(contentType);
    if fileExtension.None? then None else Some(uuidHex[..Utils.UniqueIdLength] + fileExtension.value)
  }

  /** `_save_image` on the output directory: a skipped image writes nothing, a saved one adds its name. */
  function SaveImage(outputDir: set<string>, contentType: Option<string>, uuidHex: string): (r: set<string>)
    requires Utils.IsUuidHex(uuidHex)
    ensures GetFileExtensionFromMime(contentType).None? ==> r == outputDir
    ensures GetFileExtensionFromMime(contentType).Some? ==>
      r == outputDir + {SavedImageName(contentType, uuidHex).value}
  {
    var name := SavedImageName(contentType, uuidHex);
    if name.None? then outputDir else outputDir + {name.value}
  }

  // ------------------------------------------------------------- properties

  /** Correcting a corrected URL changes nothing more. */
  lemma CorrectImageUrlIdempotent(url: string)
    ensures CorrectImageUrl(CorrectImageUrl(url)) == CorrectImageUrl(url)
  {
    var r := CorrectImageUrl(url);
    if |url| >= 2 && url[..2] == "//" {
      assert r[..2] == "ht";
    }
  }

  /** A corrected URL never starts with "//", and what followed the two slashes is kept. */
  lemma CorrectedUrlIsAbsolute(url: string)
    ensures var r := CorrectImageUrl(url);
      && !(|r| >= 2 && r[..2] == "//")
      && (|url| >= 2 && url[..2] == "//" ==> r == "https://" + url[2..])
  {
    var r := CorrectImageUrl(url);
    if |url| >= 2 && url[..2] == "//" {
      assert r[..2] == "ht";
      assert "https:" + url == "https://" + url[2..] by {
        assert url == "//" + url[2..];
      }
    }
  }

  /**
   * Every type the collector saves is one the server accepts; "image/bmp" is
   * the one the server accepts and the collector skips.
   */
  lemma CollectedTypesAreAccepted(mime: Option<string>)
    ensures GetFileExtensionFromMime(mime).Some? ==> Crud.IsAllowedImageType(mime)
    ensures Crud.IsAllowedImageType(Some("image/bmp")) && GetFileExtensionFromMime(Some("image/bmp")).None?
  {
  }

  /**
   * The collector names a file as the server would name an upload called
   * "image" plus the same extension, and `splitext` gives that extension back.
   */
  lemma {:induction false} SavedNameMatchesServerNaming(contentType: Option<string>, uuidHex: string)
    requires Utils.IsUuidHex(uuidHex)
    requires GetFileExtensionFromMime(contentType).Some?
    ensures var ext := GetFileExtensionFromMime(contentType).value;
      && SavedImageName(contentType, uuidHex) == Some(Utils.GenerateUniqueFileName(uuidHex, "image" + ext))
      && Utils.Extension(SavedImageName(contentType, uuidHex).value) == ext
  {
    var ext := GetFileExtensionFromMime(contentType).value;
    var upload := "image" + ext;
    assert Utils.Extension(upload) == ext by {
      assert |ext| == 4 && ext[0] == '.';
      assert forall j :: 0 < j < 4 ==> ext[j] != '.' && ext[j] != '/';
      assert upload[5] == '.' && upload[0] == 'i';
      assert Utils.RFind(upload, '.') == 5;
      assert Utils.RFind(upload, '/') == -1;
      assert upload[..5] + upload[5..] == upload && upload[5..] == ext;
    }
    Utils.UniqueNameKeepsExtension(uuidHex, upload);
  }
}
