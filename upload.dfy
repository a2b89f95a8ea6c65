/** The upload middleware's naming rules: the object key used with S3 storage, the file
    name used with local disk storage and its sanitiser, and the size limit. The clock
    (`Date.now()`) and the random suffix are parameters. */
module Upload {
  import opened Common

  /** `limits.fileSize`: 5 MiB. */
  const MaxFileSize: nat := 5 * 1024 * 1024

  /** multer refuses a file larger than the limit. */
  predicate WithinLimit(size: nat)
  {
    size <= MaxFileSize
  }

  /** The file object multer hands a route handler as `req.file`: its size, and the
      `location` URL, which only S3 storage sets (disk storage leaves it undefined). */
  datatype IncomingFile = IncomingFile(size: nat, location: Option<string>)

  /** A file over the limit: multer passes the error to the application's error handler
      (`backend/app.js`), which answers 500 before the route handler runs. */
  predicate TooLarge(file: Option<IncomingFile>)
  {
    file.Some? && !WithinLimit(file.value.size)
  }

  /** The JSON `{ success, message, error }` of that error handler, by its message. */
  function ErrorHandlerReply<T>(): (r: Reply<T>)
    ensures r.Message? && r.status == 500
  {
    Message(500, "Something went wrong!")
  }

  /** The characters `[a-zA-Z0-9.-]` the sanitiser keeps. */
  predicate Allowed(c: char)
  {
    ('a' <= c <= 'z') || ('A' <= c <= 'Z') || ('0' <= c <= '9') || c == '.' || c == '-'
  }

  function SanitizeChar(c: char): char
  {
    if Allowed(c) then c else '_'
  }

  /** `originalname.replace(/[^a-zA-Z0-9.-]/g, '_')`. */
  function Sanitize(name: string): (r: string)
    ensures |r| == |name|
    ensures forall i :: 0 <= i < |name| ==> (Allowed(name[i]) ==> r[i] == name[i])
    ensures forall i :: 0 <= i < |name| ==> (!Allowed(name[i]) ==> r[i] == '_')
  {
    if name == [] then [] else [SanitizeChar(name[0])] + Sanitize(name[1..])
  }

  /** Every character of a sanitised name is allowed or the replacement `_`. */
  predicate Safe(s: string)
  {
    forall i :: 0 <= i < |s| ==> Allowed(s[i]) || s[i] == '_'
  }

  lemma SanitizeIsSafe(name: string)
    ensures Safe(Sanitize(name))
  {
  }

  /** Sanitising twice is sanitising once. */
  lemma SanitizeIdempotent(name: string)
    ensures Sanitize(Sanitize(name)) == Sanitize(name)
  {
    var once := Sanitize(name);
    var twice := Sanitize(once);
    forall i | 0 <= i < |once| ensures twice[i] == once[i] {
      if !Allowed(once[i]) {
        assert once[i] == '_';
      }
    }
  }

  /** A name made only of allowed characters is kept as it is. */
  lemma SanitizeKeepsAllowedNames(name: string)
    requires forall i :: 0 <= i < |name| ==> Allowed(name[i])
    ensures Sanitize(name) == name
  {
  }

  /** `Date.now() + '-' + Math.round(Math.random() * 1E9)`. */
  function UniqueSuffix(now: nat, random: nat): string
  {
    NatToString(now) + "-" + NatToString(random)
  }

  /** The disk storage file name: `uniqueSuffix + '-' + sanitizedName`. */
  function DiskFilename(now: nat, random: nat, original: string): (r: string)
    ensures |r| > |original|
    ensures r[|r| - |original|..] == Sanitize(original)
  {
    UniqueSuffix(now, random) + "-" + Sanitize(original)
  }

  /** A disk file name never holds a path separator or any other character outside the
      allowed set and `_`, whatever the uploaded name was. */
  lemma DiskFilenameIsSafe(now: nat, random: nat, original: string)
    ensures Safe(DiskFilename(now, random, original))
    ensures '/' !in DiskFilename(now, random, original)
  {
    var r := DiskFilename(now, random, original);
    DigitsSafe(NatToString(now));
    DigitsSafe(NatToString(random));
    SanitizeIsSafe(original);
    SafeConcat(NatToString(now), "-");
    SafeConcat(NatToString(now) + "-", NatToString(random));
    SafeConcat(NatToString(now) + "-" + NatToString(random), "-");
    SafeConcat(UniqueSuffix(now, random) + "-", Sanitize(original));
  }

  lemma DigitsSafe(s: string)
    requires forall i :: 0 <= i < |s| ==> IsDigit(s[i])
    ensures Safe(s)
  {
  }

  lemma SafeConcat(a: string, b: string)
    requires Safe(a) && Safe(b)
    ensures Safe(a + b)
  {
    forall i | 0 <= i < |a + b| ensures Allowed((a + b)[i]) || (a + b)[i] == '_' {
      if i >= |a| {
        assert (a + b)[i] == b[i - |a|];
      }
    }
  }

  const KeyPrefix: string := "bookings/"

  /** The S3 object key: `bookings/<Date.now()>_<originalname>`, the name unsanitised. */
  function S3Key(now: nat, original: string): (r: string)
    ensures |r| > |KeyPrefix| + |original|
    ensures r[..|KeyPrefix|] == KeyPrefix
    ensures r[|r| - |original|..] == original
  {
    KeyPrefix + NatToString(now) + "_" + original
  }

  /** The position of the first `_` at or after `from`, if any. */
  function FirstUnderscore(s: string, from: nat): (r: Option<nat>)
    requires from <= |s|
    ensures r.Some? ==>
      from <= r.value < |s| && s[r.value] == '_' && forall i :: from <= i < r.value ==> s[i] != '_'
    ensures r.None? ==> forall i :: from <= i < |s| ==> s[i] != '_'
    decreases |s| - from
  {
    if from == |s| then None
    else if s[from] == '_' then Some(from)
    else FirstUnderscore(s, from + 1)
  }

  /** Reads a key back into its timestamp and original name. */
  function ParseS3Key(key: string): Option<(nat, string)>
  {
    if |key| < |KeyPrefix| || key[..|KeyPrefix|] != KeyPrefix then None
    else
      match FirstUnderscore(key, |KeyPrefix|)
      case None => None
      case Some(u) =>
        var digits := key[|KeyPrefix|..u];
        if digits != [] && forall i :: 0 <= i < |digits| ==> IsDigit(digits[i]) then
          Some((DigitsValue(digits), key[u + 1..]))
        else None
  }

  /** The key determines the timestamp and the original name, even when the name itself
      holds `_` or `/`: the timestamp's digits end at the first `_`. */
  lemma ParseS3KeyRoundTrip(now: nat, original: string)
    ensures ParseS3Key(S3Key(now, original)) == Some((now, original))
  {
    var key := S3Key(now, original);
    var d := NatToString(now);
    var u := |KeyPrefix| + |d|;
    assert key == KeyPrefix + d + "_" + original;
    assert key[u] == '_';
    assert forall i :: |KeyPrefix| <= i < u ==> key[i] == d[i - |KeyPrefix|];
    assert FirstUnderscore(key, |KeyPrefix|) == Some(u) by {
      FirstUnderscoreAt(key, |KeyPrefix|, u);
    }
    assert key[|KeyPrefix|..u] == d;
    assert key[u + 1..] == original;
    DigitsValueOfNatToString(now);
  }

  lemma {:induction false} FirstUnderscoreAt(s: string, from: nat, u: nat)
    requires from <= u < |s| && s[u] == '_'
    requires forall i :: from <= i < u ==> s[i] != '_'
    ensures FirstUnderscore(s, from) == Some(u)
    decreases u - from
  {
    if from < u {
      FirstUnderscoreAt(s, from + 1, u);
    }
  }
}
