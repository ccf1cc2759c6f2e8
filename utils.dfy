/**
 * Helpers of `thinga/utils.py`: password hashing, the client fingerprint and
 * the generated file name for stored images. bcrypt, SHA-256 and uuid4 are
 * foreign: they enter as function-valued parameters (`Crypto`) and as the
 * random hex string a call to uuid4 would have produced.
 */
module Utils {

  predicate IsHexChar(c: char) {
    '0' <= c <= '9' || 'a' <= c <= 'f'
  }

  predicate IsHex(s: string) {
    forall i :: 0 <= i < |s| ==> IsHexChar(s[i])
  }

  /** The value of `hashlib.sha256(...).hexdigest()`: 64 lower-case hex digits. */
  type HexDigest = s: string | |s| == 64 && IsHex(s)
    witness seq(64, _ => '0')

  /** The value of `uuid.uuid4().hex`: 32 lower-case hex digits. */
  predicate IsUuidHex(s: string) {
    |s| == 32 && IsHex(s)
  }

  /**
   * The foreign one-way functions: bcrypt's `hashpw` (the salt that
   * `gensalt()` draws at random is its second argument), bcrypt's `checkpw`,
   * and SHA-256 as a hex digest.
   */
  datatype Crypto = Crypto(
    hashpw: (string, string) -> string,
    checkpw: (string, string) -> bool,
    sha256: string -> HexDigest)

  /** What bcrypt guarantees: a password checks against every hash made of it. */
  ghost predicate Sound(c: Crypto) {
    forall password, salt :: c.checkpw(password, c.hashpw(password, salt))
  }

  /** `get_password_hash`: a salted bcrypt hash of the password. */
  function GetPasswordHash(c: Crypto, password: string, salt: string): string {
    c.hashpw(password, salt)
  }

  /** `verify_password`. */
  function VerifyPassword(c: Crypto, plainPassword: string, hashedPassword: string): bool {
    c.checkpw(plainPassword, hashedPassword)
  }

  /** A password verifies against its own hash, whatever salt was drawn. */
  lemma HashThenVerify(c: Crypto, password: string, salt: string)
    requires Sound(c)
    ensures VerifyPassword(c, password, GetPasswordHash(c, password, salt))
  {
  }

  /** The value a missing request header is read as. */
  const Unknown: string := "unknown"

  /** `request.headers.get(name, "unknown")`; header names are held in lower case. */
  function HeaderOrUnknown(headers: map<string, string>, name: string): string {
    if name in headers then headers[name] else Unknown
  }

  /** The string that is hashed into a fingerprint. */
  function FingerprintPreimage(userAgent: string, acceptLanguage: string): string {
    userAgent + "-" + acceptLanguage
  }

  /** `generate_client_fingerprint`: SHA-256 of the user agent and accept-language headers. */
  function GenerateClientFingerprint(c: Crypto, headers: map<string, string>): HexDigest {
    c.sha256(FingerprintPreimage(
      HeaderOrUnknown(headers, "user-agent"),
      HeaderOrUnknown(headers, "accept-language")))
  }

  /** Requests that agree on the two headers get the same fingerprint, whatever else they carry. */
  lemma FingerprintDeterministic(c: Crypto, h1: map<string, string>, h2: map<string, string>)
    requires HeaderOrUnknown(h1, "user-agent") == HeaderOrUnknown(h2, "user-agent")
    requires HeaderOrUnknown(h1, "accept-language") == HeaderOrUnknown(h2, "accept-language")
    ensures GenerateClientFingerprint(c, h1) == GenerateClientFingerprint(c, h2)
  {
  }

  /** A missing header is the same as the header sent with the value "unknown". */
  lemma MissingHeaderIsUnknown(c: Crypto, headers: map<string, string>, name: string)
    requires name == "user-agent" || name == "accept-language"
    requires name !in headers
    ensures GenerateClientFingerprint(c, headers) == GenerateClientFingerprint(c, headers[name := "unknown"])
  {
  }

  /**
   * The separator is not escaped: moving a dash from one header to the other
   * gives the same pre-image, hence the same fingerprint.
   */
  lemma PreimageCollision(x: string, y: string, z: string)
    ensures FingerprintPreimage(x + "-" + y, z) == FingerprintPreimage(x, y + "-" + z)
    ensures FingerprintPreimage("a-b", "c") == FingerprintPreimage("a", "b-c")
  {
    assert (x + "-" + y) + "-" + z == x + "-" + (y + "-" + z);
  }

  /** `str.rfind(c)`: the last index of `c` in `s`, or -1. */
  function RFind(s: string, c: char): (i: int)
    ensures -1 <= i < |s|
    ensures i >= 0 ==> s[i] == c
    ensures forall j :: i < j < |s| ==> s[j] != c
  {
    if s == [] then -1
    else if s[|s| - 1] == c then |s| - 1
    else RFind(s[..|s| - 1], c)
  }

  /**
   * POSIX `os.path.splitext`: the extension starts at the last dot of the
   * final path component, unless every character before that dot in the
   * component is itself a dot (".bashrc" has no extension).
   */
  function SplitExt(p: string): (parts: (string, string))
    ensures parts.0 + parts.1 == p
    ensures parts.1 != [] ==> parts.1[0] == '.'
    ensures forall j :: 0 < j < |parts.1| ==> parts.1[j] != '.' && parts.1[j] != '/'
    ensures parts.1 != [] <==>
      exists i, j :: 0 <= j < i < |p| && p[i] == '.' && p[j] != '.' && (forall k :: j <= k < |p| ==> p[k] != '/')
    ensures parts.1 != [] ==> |parts.0| == RFind(p, '.')
  {
    var sepIndex := RFind(p, '/');
    var dotIndex := RFind(p, '.');
    if dotIndex > sepIndex && exists j :: sepIndex < j < dotIndex && p[j] != '.' then
      (p[..dotIndex], p[dotIndex..])
    else
      (p, "")
  }

  /** The extension `splitext` reports. */
  function Extension(p: string): string {
    SplitExt(p).1
  }

  /** How many hex digits of a uuid a generated name keeps. */
  const UniqueIdLength: nat := 15

  /** `generate_unique_file_name`: the first 15 digits of a fresh uuid, then the original extension. */
  function GenerateUniqueFileName(uuidHex: string, fileName: string): (name: string)
    requires IsUuidHex(uuidHex)
    ensures |name| == UniqueIdLength + |Extension(fileName)|
    ensures name[..UniqueIdLength] == uuidHex[..UniqueIdLength]
    ensures IsHex(name[..UniqueIdLength])
    ensures name[UniqueIdLength..] == Extension(fileName)
  {
    uuidHex[..UniqueIdLength] + Extension(fileName)
  }

  /** The generated name depends on the uploaded name only through its extension. */
  lemma StemDoesNotSurvive(uuidHex: string, f1: string, f2: string)
    requires IsUuidHex(uuidHex)
    requires Extension(f1) == Extension(f2)
    ensures GenerateUniqueFileName(uuidHex, f1) == GenerateUniqueFileName(uuidHex, f2)
  {
  }

  /** A name without extension yields the 15-digit id alone. */
  lemma NoExtensionGivesBareId(uuidHex: string, fileName: string)
    requires IsUuidHex(uuidHex)
    requires Extension(fileName) == ""
    ensures GenerateUniqueFileName(uuidHex, fileName) == uuidHex[..UniqueIdLength]
    ensures |GenerateUniqueFileName(uuidHex, fileName)| == UniqueIdLength
  {
  }

  /** `splitext` of a generated name gives back the uploaded name's extension. */
  lemma {:induction false} UniqueNameKeepsExtension(uuidHex: string, fileName: string)
    requires IsUuidHex(uuidHex)
    ensures SplitExt(GenerateUniqueFileName(uuidHex, fileName))
         == (uuidHex[..UniqueIdLength], Extension(fileName))
  {
    var id, ext := uuidHex[..UniqueIdLength], Extension(fileName);
    var name := GenerateUniqueFileName(uuidHex, fileName);
    assert name == id + ext;
    var sepIndex := RFind(name, '/');
    var dotIndex := RFind(name, '.');
    assert forall j :: 0 <= j < UniqueIdLength ==> name[j] == id[j] && IsHexChar(id[j]);
    if ext == [] {
      assert sepIndex == -1 && dotIndex == -1;
    } else {
      assert sepIndex == -1;
      assert name[UniqueIdLength] == '.';
      assert dotIndex == UniqueIdLength;
      assert name[0] != '.';
      assert name[..dotIndex] == id && name[dotIndex..] == ext;
    }
  }
}
