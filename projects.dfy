/** Cover-photo validation and naming, the project row mapping and the
    Cloudinary-settings update rule of the pxel projects library. */
module Projects {
  import opened Strings

  const AllowedMimeTypes: seq<string> := ["image/jpeg", "image/png", "image/webp", "image/gif"]
  const MaxCoverSizeBytes: nat := 5 * 1024 * 1024
  const MaxFilenameLength: nat := 100
  const DefaultBasename: string := "cover"

  const WrongTypeMessage: string := "Please choose an image file (JPEG, PNG, WebP, or GIF)."
  const TooLargeMessage: string := "Cover image must be 5 MB or smaller."
  const NotSignedInCoverMessage: string := "You must be signed in to upload a cover photo."

  /** The storage extension for an allowed MIME type. */
  function MimeToExt(mime: string): Option<string> {
    if mime == "image/jpeg" then Some("jpg")
    else if mime == "image/png" then Some("png")
    else if mime == "image/webp" then Some("webp")
    else if mime == "image/gif" then Some("gif")
    else None
  }

  /** What a template literal prints for the member `MIME_TO_EXT` inherits under an
      `Object.prototype` name: the object's text for `__proto__`, else the native source text of
      the inherited function (as V8 prints it; `constructor` is `Object`). */
  function InheritedMemberText(key: string): (t: string)
    requires key in PrototypeKeys
  {
    if key == "__proto__" then "[object Object]"
    else if key == "constructor" then "function Object() { [native code] }"
    else "function " + key + "() { [native code] }"
  }

  /** `MIME_TO_EXT[file.type] ?? "jpg"`, as it is interpolated into the path: an allowed type's
      extension, the inherited member for an `Object.prototype` name, else "jpg". */
  function CoverExtension(mime: string): (ext: string)
    ensures ext in ["jpg", "png", "webp", "gif"] <==> mime !in PrototypeKeys
    ensures mime in AllowedMimeTypes ==> MimeToExt(mime) == Some(ext)
    ensures mime !in AllowedMimeTypes && mime !in PrototypeKeys ==> ext == "jpg"
    ensures mime in PrototypeKeys ==> ext == InheritedMemberText(mime)
  {
    match MimeToExt(mime)
    case Some(e) => e
    case None => if mime in PrototypeKeys then InheritedMemberText(mime) else "jpg"
  }

  /** `file.type` "toString" puts the function's source text into the path, and "__proto__"
      the text "[object Object]". */
  lemma InheritedMimeExtensions()
    ensures CoverExtension("toString") == "function toString() { [native code] }"
    ensures CoverExtension("__proto__") == "[object Object]"
  {
    assert "toString" in PrototypeKeys;
  }

  predicate IsImageExtension(ext: string) {
    ext == "jpg" || ext == "jpeg" || ext == "png" || ext == "webp" || ext == "gif"
  }

  predicate IsSeparator(c: char) {
    c == '/' || c == '\\'
  }

  /** Index of the first line terminator, or |s|. */
  function FirstLineTerminator(s: string): (k: nat)
    ensures k <= |s| && forall i :: 0 <= i < k ==> !IsLineTerminator(s[i])
    ensures k < |s| ==> IsLineTerminator(s[k])
  {
    if s == [] || IsLineTerminator(s[0]) then 0 else 1 + FirstLineTerminator(s[1..])
  }

  /** Index of the last '/' or '\' among the first `n` code units, or -1. */
  function LastSeparatorBefore(s: string, n: nat): (k: int)
    requires n <= |s|
    ensures -1 <= k < n
    ensures k >= 0 ==> IsSeparator(s[k])
    ensures forall j :: k < j < n ==> !IsSeparator(s[j])
  {
    if n == 0 then -1
    else if IsSeparator(s[n - 1]) then n - 1
    else LastSeparatorBefore(s, n - 1)
  }

  /** `name.replace(/^.*[/\\]/, "")`: drops the longest prefix that ends in a path
      separator and contains no line terminator. */
  function StripDirectory(name: string): string {
    name[LastSeparatorBefore(name, FirstLineTerminator(name)) + 1..]
  }

  /** What is removed is a directory prefix ending in a separator; on a one-line name,
      no separator is left, and a name without separators is kept whole. */
  lemma StripDirectoryShape(name: string)
    ensures var r := StripDirectory(name);
      && |r| <= |name| && r == name[|name| - |r|..]
      && (|r| < |name| ==> IsSeparator(name[|name| - |r| - 1]))
      && (NoLineTerminator(name) ==> forall i :: 0 <= i < |r| ==> !IsSeparator(r[i]))
      && ((forall i :: 0 <= i < |name| ==> !IsSeparator(name[i])) ==> r == name)
  {
    var limit := FirstLineTerminator(name);
    var k := LastSeparatorBefore(name, limit);
    var r := StripDirectory(name);
    if NoLineTerminator(name) {
      assert limit == |name|;
      forall i | 0 <= i < |r| ensures !IsSeparator(r[i]) {
        assert r[i] == name[k + 1 + i];
      }
    }
  }

  /** The basename still ends in an image extension that the loop would strip:
      its last '.' is not the first character and what follows it, lower-cased,
      is jpg, jpeg, png, webp or gif. */
  predicate HasStrippableExtension(b: string) {
    var lastDot := LastIndexOf(b, '.');
    lastDot > 0 && IsImageExtension(ToLower(b[lastDot + 1..]))
  }

  /** The trailing-extension loop of `getBasenameWithoutExtension`, stated as a function. */
  function StripImageExtensions(b: string): (r: string)
    ensures r <= b
    ensures b != [] ==> r != []
    decreases |b|
  {
    if HasStrippableExtension(b) then StripImageExtensions(b[..LastIndexOf(b, '.')]) else b
  }

  predicate IsBasenameChar(c: char) {
    IsWordChar(c) || c == '.' || c == '-'
  }

  predicate AllBasenameChars(s: string) {
    forall i :: 0 <= i < |s| ==> IsBasenameChar(s[i])
  }

  /** `s.replace(/[^\w.\-]/g, "_")`. */
  function Sanitize(s: string): (r: string)
    ensures |r| == |s| && AllBasenameChars(r)
    ensures forall i :: 0 <= i < |s| ==> r[i] == if IsBasenameChar(s[i]) then s[i] else '_'
  {
    if s == [] then [] else [if IsBasenameChar(s[0]) then s[0] else '_'] + Sanitize(s[1..])
  }

  /** The text the extension loop starts from: the trimmed name without its directory, or "cover". */
  function BasenameStart(name: string): (b: string)
    ensures b != []
  {
    var t := Trim(StripDirectory(name));
    if t == [] then DefaultBasename else t
  }

  /** `s.slice(0, n)`. */
  function Slice(s: string, n: nat): (r: string)
    ensures |r| <= n && r <= s
    ensures |s| <= n ==> r == s
    ensures |s| >= n ==> |r| == n
  {
    if |s| <= n then s else s[..n]
  }

  /** "cover" has no extension and only basename characters. */
  lemma DefaultBasenameIsFixed()
    ensures StripImageExtensions(DefaultBasename) == DefaultBasename
    ensures Sanitize(DefaultBasename) == DefaultBasename
  {
    assert LastIndexOf(DefaultBasename, '.') == -1;
    assert !HasStrippableExtension(DefaultBasename);
  }

  lemma PrefixKeepsBasenameChars(a: string, b: string)
    requires AllBasenameChars(b) && a <= b
    ensures AllBasenameChars(a)
  {
    forall i | 0 <= i < |a| ensures IsBasenameChar(a[i]) {
      assert a[i] == b[i];
    }
  }

  /** The last steps of `getBasenameWithoutExtension`: sanitize, cut to 100 code
      units, fall back to "cover". */
  function FinishBasename(stripped: string): (r: string)
    ensures 0 < |r| <= MaxFilenameLength
    ensures AllBasenameChars(r)
    ensures stripped != [] && |stripped| <= MaxFilenameLength ==> |r| == |stripped|
  {
    var sanitized := Sanitize(stripped);
    var cut := Slice(sanitized, MaxFilenameLength);
    PrefixKeepsBasenameChars(cut, sanitized);
    assert AllBasenameChars(DefaultBasename);
    if cut == [] then DefaultBasename else cut
  }

  /** What `getBasenameWithoutExtension` returns. */
  function CoverBasename(name: string): (r: string)
    ensures 0 < |r| <= MaxFilenameLength
    ensures AllBasenameChars(r)
    ensures IsBlank(StripDirectory(name)) ==> r == DefaultBasename
  {
    var r := FinishBasename(StripImageExtensions(BasenameStart(name)));
    assert IsBlank(StripDirectory(name)) ==> r == DefaultBasename by {
      if IsBlank(StripDirectory(name)) {
        TrimEmptyIffBlank(StripDirectory(name));
        DefaultBasenameIsFixed();
      }
    }
    r
  }

  /** The `while (true)` loop of `getBasenameWithoutExtension`: strips trailing
      image extensions one at a time. */
  method StripExtensionsLoop(start: string) returns (basename: string)
    ensures basename == StripImageExtensions(start)
  {
    basename := start;
    while true
      invariant StripImageExtensions(basename) == StripImageExtensions(start)
      decreases |basename|
    {
      var lastDot := LastIndexOf(basename, '.');
      if lastDot <= 0 {
        StripStep(basename);
        break;
      }
      var ext := ToLower(basename[lastDot + 1..]);
      if !IsImageExtension(ext) {
        StripStep(basename);
        break;
      }
      StripStep(basename);
      basename := basename[..lastDot];
    }
  }

  /** One turn of the extension loop. */
  lemma StripStep(b: string)
    ensures HasStrippableExtension(b) ==>
      StripImageExtensions(b) == StripImageExtensions(b[..LastIndexOf(b, '.')])
    ensures !HasStrippableExtension(b) ==> StripImageExtensions(b) == b
  {
  }

  /** `getBasenameWithoutExtension`. */
  method GetBasenameWithoutExtension(name: string) returns (r: string)
    ensures r == CoverBasename(name)
  {
    var basename := BasenameStart(name);
    basename := StripExtensionsLoop(basename);
    var sanitized := Sanitize(basename);
    r := Slice(sanitized, MaxFilenameLength);
    if r == [] {
      r := DefaultBasename;
    }
  }

  /** Stripping goes on until no image extension is left. */
  lemma {:induction false} StripLeavesNoImageExtension(b: string)
    ensures !HasStrippableExtension(StripImageExtensions(b))
    decreases |b|
  {
    if HasStrippableExtension(b) {
      StripLeavesNoImageExtension(b[..LastIndexOf(b, '.')]);
    }
  }

  /** An image extension, in any letter case, is stripped; what remains is stripped further. */
  lemma StripsTrailingImageExtension(b: string, ext: string)
    requires b != [] && '.' !in ext && IsImageExtension(ToLower(ext))
    ensures StripImageExtensions(b + "." + ext) == StripImageExtensions(b)
  {
    var s := b + "." + ext;
    assert s[|b|] == '.';
    assert LastIndexOf(s, '.') == |b|;
    assert s[|b| + 1..] == ext;
    assert s[..|b|] == b;
  }

  /** Stripping stops at the first extension that is not an image extension. */
  lemma StopsAtOtherExtension(b: string, ext: string)
    requires b != [] && '.' !in ext && !IsImageExtension(ToLower(ext))
    ensures StripImageExtensions(b + "." + ext) == b + "." + ext
  {
    var s := b + "." + ext;
    assert s[|b|] == '.';
    assert LastIndexOf(s, '.') == |b|;
    assert s[|b| + 1..] == ext;
  }

  /** A dot in first position is not an extension separator: ".jpg" stays ".jpg". */
  lemma LeadingDotIsKept(ext: string)
    requires '.' !in ext
    ensures StripImageExtensions("." + ext) == "." + ext
  {
    var s := "." + ext;
    assert s[0] == '.';
    assert LastIndexOf(s, '.') == 0;
  }

  /** `validateCoverFile`: the MIME type is checked before the size. */
  function ValidateCoverFile(mime: string, size: int): (r: Outcome)
    ensures r == Pass <==> mime in AllowedMimeTypes && size <= MaxCoverSizeBytes
    ensures mime !in AllowedMimeTypes ==> r == Fail(WrongTypeMessage)
    ensures mime in AllowedMimeTypes && size > MaxCoverSizeBytes ==> r == Fail(TooLargeMessage)
  {
    if mime !in AllowedMimeTypes then Fail(WrongTypeMessage)
    else if size > MaxCoverSizeBytes then Fail(TooLargeMessage)
    else Pass
  }

  /** The file part of a cover path: `timestamp-basename.ext`. */
  function CoverFileName(stamp: string, basename: string, ext: string): string {
    stamp + ("-" + (basename + ("." + ext)))
  }

  /** The storage path `userId/timestamp-basename.ext` of `uploadCoverPhoto`; the timestamp
      (`Date.now()`) is a parameter. Without a signed-in user the upload is refused. */
  function CoverPath(userId: Option<string>, timestamp: nat, fileName: string, mime: string): (r: Result<string>)
    ensures userId.None? <==> r == Err(NotSignedInCoverMessage)
    ensures userId.Some? ==> r.Ok? && userId.value + "/" <= r.value
  {
    match userId
    case None => Err(NotSignedInCoverMessage)
    case Some(user) =>
      Ok((user + "/") + CoverFileName(NatToString(timestamp), CoverBasename(fileName), CoverExtension(mime)))
  }

  predicate NoSlash(s: string) {
    forall i :: 0 <= i < |s| ==> s[i] != '/'
  }

  lemma NoSlashConcat(a: string, b: string)
    requires NoSlash(a) && NoSlash(b)
    ensures NoSlash(a + b)
  {
    forall i | 0 <= i < |a + b| ensures (a + b)[i] != '/' {
      if i >= |a| {
        assert (a + b)[i] == b[i - |a|];
      }
    }
  }

  lemma ExtensionHasNoSlash(mime: string)
    ensures NoSlash(CoverExtension(mime))
  {
    match MimeToExt(mime)
    case Some(e) => assert NoSlash(e);
    case None =>
      if mime in PrototypeKeys {
        if mime == "__proto__" {
          assert NoSlash("[object Object]");
        } else if mime == "constructor" {
          assert NoSlash("function Object() { [native code] }");
        } else {
          assert NoSlash(mime) by {
            assert mime in {"hasOwnProperty", "isPrototypeOf", "propertyIsEnumerable", "toLocaleString",
                            "toString", "valueOf", "__defineGetter__", "__defineSetter__",
                            "__lookupGetter__", "__lookupSetter__"};
          }
          NoSlashConcat("function ", mime);
          NoSlashConcat("function " + mime, "() { [native code] }");
        }
      } else {
        assert NoSlash("jpg");
      }
  }

  lemma BasenameHasNoSlash(b: string)
    requires AllBasenameChars(b)
    ensures NoSlash(b)
  {
    forall i | 0 <= i < |b| ensures b[i] != '/' {
      assert IsBasenameChar(b[i]);
    }
  }

  lemma DigitsHaveNoSlash(d: string)
    requires AllDigits(d)
    ensures NoSlash(d)
  {
    forall i | 0 <= i < |d| ensures d[i] != '/' {
      assert IsDigit(d[i]);
    }
  }

  lemma CoverFileNameHasNoSlash(stamp: string, basename: string, ext: string)
    requires NoSlash(stamp) && NoSlash(basename) && NoSlash(ext)
    ensures NoSlash(CoverFileName(stamp, basename, ext))
  {
    NoSlashConcat(".", ext);
    NoSlashConcat(basename, "." + ext);
    NoSlashConcat("-", basename + ("." + ext));
    NoSlashConcat(stamp, "-" + (basename + ("." + ext)));
  }

  /** In `dir/file` with no '/' in `file`, the last '/' is the one after `dir`. */
  lemma LastSlashOfPath(dir: string, file: string)
    requires NoSlash(file)
    ensures LastIndexOf((dir + "/") + file, '/') == |dir|
  {
    var path := (dir + "/") + file;
    assert path[|dir|] == '/';
  }

  lemma EndsWithExtension(dir: string, stamp: string, basename: string, ext: string)
    ensures var path := (dir + "/") + CoverFileName(stamp, basename, ext);
      path[|path| - |ext| - 1..] == "." + ext
  {
    var front := (dir + "/") + (stamp + ("-" + basename));
    assert (dir + "/") + CoverFileName(stamp, basename, ext) == front + ("." + ext);
  }

  /** The file part of a cover path holds no separator, so the object lands in the
      user's own folder, and it ends in the extension of the MIME type. */
  lemma CoverPathShape(userId: string, timestamp: nat, fileName: string, mime: string)
    ensures var path := CoverPath(Some(userId), timestamp, fileName, mime).value;
      && LastIndexOf(path, '/') == |userId|
      && path[|path| - |CoverExtension(mime)| - 1..] == "." + CoverExtension(mime)
  {
    var stamp := NatToString(timestamp);
    var basename := CoverBasename(fileName);
    var ext := CoverExtension(mime);
    ExtensionHasNoSlash(mime);
    BasenameHasNoSlash(basename);
    DigitsHaveNoSlash(stamp);
    var file := CoverFileName(stamp, basename, ext);
    CoverFileNameHasNoSlash(stamp, basename, ext);
    LastSlashOfPath(userId, file);
    EndsWithExtension(userId, stamp, basename, ext);
  }

  // ---- Project rows

  /** The em dash U+2014 that stands for a missing value. */
  const EmDash: string := "\U{2014}"

  /** How a date is rendered: a fixed text for a missing or empty date, otherwise the
      browser's locale rendering of the ISO date. */
  datatype DateText = NoDate(text: string) | LocaleDate(iso: string)

  datatype ProjectStatus = Published | InReview | Draft

  datatype ProjectRow = ProjectRow(
    id: nat,
    createdAt: string,
    clientName: Option<string>,
    projectName: Option<string>,
    projectDate: Option<string>,
    coverUrl: Option<string>,
    userId: Option<string>,
    albumSize: Option<int>,
    cloudName: Option<string>,
    uploadPreset: Option<string>,
    accountEmail: Option<string>)

  datatype Project = Project(
    id: string,
    title: string,
    client: string,
    date: DateText,
    status: ProjectStatus,
    thumbnail: string,
    photoCount: nat,
    category: string,
    albumSize: Option<int>,
    cloudName: Option<string>,
    uploadPreset: Option<string>,
    accountEmail: Option<string>)

  /** The inline SVG shown for a project without a cover. */
  const PlaceholderThumbnail: string := "data:image/svg+xml,placeholder-no-cover"

  /** `formatProjectDate`: the em dash for a missing or empty date. */
  function FormatProjectDate(iso: Option<string>): (d: DateText)
    ensures d.NoDate? <==> iso.None? || iso.value == []
    ensures d.NoDate? ==> d.text == EmDash
    ensures d.LocaleDate? ==> iso == Some(d.iso)
  {
    match iso
    case None => NoDate(EmDash)
    case Some(s) => if s == [] then NoDate(EmDash) else LocaleDate(s)
  }

  /** `x ?? fallback`. */
  function OrDefault(x: Option<string>, fallback: string): string {
    match x
    case Some(v) => v
    case None => fallback
  }

  /** `mapRowToProject`. */
  function MapRowToProject(row: ProjectRow): (p: Project)
    ensures p.title == (if row.projectName.Some? then row.projectName.value else "Untitled")
    ensures p.client == (if row.clientName.Some? then row.clientName.value else EmDash)
    ensures p.thumbnail == (if row.coverUrl.Some? then row.coverUrl.value else PlaceholderThumbnail)
    ensures p.date == NoDate(EmDash) <==> row.projectDate.None? || row.projectDate.value == []
    ensures p.date.LocaleDate? ==> row.projectDate == Some(p.date.iso)
    ensures p.status == Draft && p.photoCount == 0 && p.category == "Weddings"
    ensures p.albumSize == row.albumSize && p.cloudName == row.cloudName
    ensures p.uploadPreset == row.uploadPreset && p.accountEmail == row.accountEmail
  {
    Project(
      NatToString(row.id),
      OrDefault(row.projectName, "Untitled"),
      OrDefault(row.clientName, EmDash),
      FormatProjectDate(row.projectDate),
      Draft,
      OrDefault(row.coverUrl, PlaceholderThumbnail),
      0,
      "Weddings",
      row.albumSize,
      row.cloudName,
      row.uploadPreset,
      row.accountEmail)
  }

  /** `String(row.id)` reads back as the row id, so rows with distinct ids map to
      projects with distinct ids. */
  lemma MappedProjectIdRoundTrip(row: ProjectRow, other: ProjectRow)
    ensures DigitsValue(MapRowToProject(row).id) == row.id
    ensures row.id != other.id ==> MapRowToProject(row).id != MapRowToProject(other).id
  {
    DigitsValueOfNatToString(row.id);
    DigitsValueOfNatToString(other.id);
  }

  // ---- updateProjectCloudinary

  datatype CloudinarySettings = CloudinarySettings(
    cloudName: Option<string>, uploadPreset: Option<string>, accountEmail: Option<string>)

  /** The update parameters; an absent optional email is `None`. */
  datatype CloudinaryParams = CloudinaryParams(
    cloudName: Option<string>, uploadPreset: Option<string>, accountEmail: Option<string>)

  /** `value || null`. */
  function OrNull(value: Option<string>): (r: Option<string>)
    ensures r.Some? ==> r.value != [] && value == r
    ensures r.None? ==> value.None? || value.value == []
  {
    match value
    case Some(v) => if v == [] then None else Some(v)
    case None => None
  }

  /** `value?.trim() || null`. */
  function TrimmedOrNull(value: Option<string>): (r: Option<string>)
    ensures r.Some? ==> value.Some? && r.value == Trim(value.value) && r.value != []
    ensures r.None? ==> value.None? || IsBlank(value.value)
  {
    match value
    case Some(v) =>
      TrimEmptyIffBlank(v);
      if Trim(v) == [] then None else Some(Trim(v))
    case None => None
  }

  const NotSignedInSettingsMessage: string := "You must be signed in to update project settings."
  const CountFailedMessage: string := "Failed to check project photos."
  const UpdateFailedMessage: string := "Failed to update Cloudinary settings."

  /** `updateProjectCloudinary` on the stored settings of one project. The photo count query
      returns an error message or a count (or null); `ownsProject` says whether the
      `user_id` filter matches the row (when it does not, the update silently changes nothing);
      `updateError` is the message of a failed update, if any. */
  function UpdateProjectCloudinary(
    signedIn: bool, photoCount: Result<Option<int>>, ownsProject: bool,
    updateError: Option<string>, params: CloudinaryParams, stored: CloudinarySettings): (r: Result<CloudinarySettings>)
    ensures !signedIn ==> r == Err(NotSignedInSettingsMessage)
    ensures signedIn && photoCount.Err? ==> r == Err(MessageOr(photoCount.message, CountFailedMessage))
    ensures signedIn && photoCount.Ok? && updateError.Some? ==> r == Err(MessageOr(updateError.value, UpdateFailedMessage))
    ensures r.Ok? ==> signedIn && photoCount.Ok? && updateError.None?
    ensures r.Ok? && !ownsProject ==> r.value == stored
    ensures r.Ok? && ownsProject ==> r.value.accountEmail == TrimmedOrNull(params.accountEmail)
    ensures r.Ok? && ownsProject && HasPhotos(photoCount.value) ==>
      r.value.cloudName == stored.cloudName && r.value.uploadPreset == stored.uploadPreset
    ensures r.Ok? && ownsProject && !HasPhotos(photoCount.value) ==>
      r.value.cloudName == OrNull(params.cloudName) && r.value.uploadPreset == OrNull(params.uploadPreset)
  {
    if !signedIn then Err(NotSignedInSettingsMessage)
    else match photoCount
      case Err(m) => Err(MessageOr(m, CountFailedMessage))
      case Ok(count) =>
        if updateError.Some? then Err(MessageOr(updateError.value, UpdateFailedMessage))
        else if !ownsProject then Ok(stored)
        else if HasPhotos(count) then Ok(stored.(accountEmail := TrimmedOrNull(params.accountEmail)))
        else Ok(CloudinarySettings(OrNull(params.cloudName), OrNull(params.uploadPreset), TrimmedOrNull(params.accountEmail)))
  }

  /** `count != null && count > 0`. */
  predicate HasPhotos(count: Option<int>) {
    count.Some? && count.value > 0
  }

  /** Once a project has photos, no successful update changes its cloud name or preset. */
  lemma CredentialsLockedOnceUsed(
    photoCount: Option<int>, ownsProject: bool, params: CloudinaryParams, stored: CloudinarySettings)
    requires HasPhotos(photoCount)
    ensures var r := UpdateProjectCloudinary(true, Ok(photoCount), ownsProject, None, params, stored);
      r.Ok? && r.value.cloudName == stored.cloudName && r.value.uploadPreset == stored.uploadPreset
  {
  }
}
