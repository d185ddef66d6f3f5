# Pxel micro-frontend rules, in Dafny

This project models the decision logic of a React micro-frontend made of three apps:

- **pxel**, a photo-delivery app. A photographer (the *creator*) creates projects, uploads photos to Cloudinary and shares an event link. A *client* opens the event, picks favourites into an album up to the project's album size, bookmarks photos and submits the album.
- **auth**, the shared sign-in page.
- **portfolio**, a personal site. Only its job-duration text is modelled.

Network and storage calls (Supabase tables and RPCs, Cloudinary, `fetch`) are not modelled as calls. What they return is a parameter of the operation that uses it. The tables `user_albums` and `user_album_photos` are an in-memory store (`UserAlbums.AlbumStore`).

Code that changes state step by step is imperative Dafny:

- the upload batch of the upload page (`Uploads.UploadState`);
- the photo selection (`Selection.SelectionState`);
- the delete flow (`DeleteFlow.DeleteState`);
- the event gallery's album ids (`EventGallery.GalleryState`);
- the preview state of the gallery and bookmarks pages;
- the loops of `getBasenameWithoutExtension`, `buildPhotosZip`, `getMyEvents` and `getMyBookmarkedSections`.

Each of these is a class or method proved against a specification function. The rest is functions and lemmas.

Modelling conventions:

- Strings are sequences of UTF-16 code units (`seq<char>`).
- `trim` and `\s` use JavaScript's whitespace and line-terminator set.
- `\w` and the case mappings are ASCII.
- Dafny's integer division by a positive number is the floor, which matches `Math.floor(a / b)`. JavaScript's `%` is written out as `Experience.JsRem`.

Files, one module per source file (with a few shared helpers):

| file | modules |
|---|---|
| strings.dfy | `Strings`: Option/Result, JS whitespace, trim, ASCII case mapping, decimal text, split on whitespace |
| photos.dfy | `Photos`: the photo record and list filters shared by several views |
| projects.dfy | `Projects` (`lib/projects.ts`) |
| submissions.dfy | `Submissions` (`views/Submissions/utils.ts`) |
| routing.dfy | `UserRoles`, `AppGuard`, `ChooseRole` |
| authquery.dfy | `AuthQuery` (pxel), `AuthAppQuery` (auth) |
| signin.dfy | `SignIn` |
| cloudinary.dfy | `Cloudinary` |
| albums.dfy | `UserAlbums` |
| events.dfy | `EventAccess` |
| bookmarks.dfy | `Bookmarks` |
| upload.dfy | `Uploads` (`useUploadState.ts`), `ProgressCard` |
| grid.dfy | `DisplayPhotos`, `Selection`, `DeleteFlow` |
| gallery.dfy | `PreviewModal`, `EventGallery`, `GalleryView`, `AlbumBar`, `GalleryBar`, `BookmarksPage` |
| shell.dfy | `Dashboard`, `Notifications`, `NotificationRoutes`, `HeaderBar` |
| experience.dfy | `Experience` |

## Model

| member | source | states |
|---|---|---|
| Strings.Trim | pxel/src/lib/auth-query.ts:17 | `trim()` leaves neither end as JavaScript whitespace or a line terminator, and never lengthens the string. |
| Strings.TrimStartRemovesBlankPrefix | pxel/src/lib/auth-query.ts:17 | The start of the trim removes a blank prefix and nothing else: the result is a suffix of the input. |
| Strings.TrimEndRemovesBlankSuffix | pxel/src/lib/auth-query.ts:17 | The end of the trim removes a blank suffix and nothing else: the result is a prefix of the input. |
| Strings.TrimEmptyIffBlank | pxel/src/lib/auth-query.ts:26 | A trimmed string is empty iff the string is blank, so `if (name.trim())` tests for a non-blank name. |
| Strings.TrimOfTrimmed | pxel/src/lib/auth-query.ts:17 | Trimming is idempotent. |
| Strings.SplitTrimmedWords | pxel/src/lib/auth-query.ts:27 | `split(/\s+/)` of a non-blank trimmed string gives at least one word; words are non-empty, hold no whitespace, and the first starts the string. |
| Strings.LastIndexOf | pxel/src/lib/projects.ts:28 | `lastIndexOf`: the last position of the character, or -1 iff it does not occur. |
| Strings.NatToStringInjective | pxel/src/lib/projects.ts:164 | Distinct numbers print as distinct decimal strings. |
| Projects.CoverExtension | pxel/src/lib/projects.ts:68 | An allowed MIME type gets its own extension. A name `Object.prototype` provides ("constructor", "toString", "__proto__" and the rest) gets the text of the inherited member: "[object Object]" or the native function's source. Any other type gets "jpg". |
| Projects.InheritedMimeExtensions | pxel/src/lib/projects.ts:68-69 | `file.type` "toString" puts "function toString() { [native code] }" into the path, and "__proto__" puts "[object Object]". |
| Projects.StripDirectoryShape | pxel/src/lib/projects.ts:25 | Only a prefix ending in '/' or '\' is removed. A one-line name keeps no separator. A name without separators is kept whole. |
| Projects.BasenameStart | pxel/src/lib/projects.ts:25 | The text the extension loop starts from is never empty: a blank name becomes "cover". |
| Projects.StripExtensionsLoop | pxel/src/lib/projects.ts:27-33 | The `while (true)` loop returns exactly what repeated stripping of image extensions gives. |
| Projects.StripStep | pxel/src/lib/projects.ts:27-33 | One turn of the loop: drop the last image extension and go on, or stop. |
| Projects.StripLeavesNoImageExtension | pxel/src/lib/projects.ts:27-33 | After the loop, the basename no longer ends in a strippable image extension. |
| Projects.StripsTrailingImageExtension | pxel/src/lib/projects.ts:27-33 | An image extension in any letter case ("a.jpg.JPG") is stripped, and stripping goes on below it. |
| Projects.StopsAtOtherExtension | pxel/src/lib/projects.ts:27-33 | Stripping stops at the first extension that is not an image extension. |
| Projects.LeadingDotIsKept | pxel/src/lib/projects.ts:28-29 | A dot at position 0 is never an extension separator, so ".jpg" stays ".jpg". |
| Projects.Sanitize | pxel/src/lib/projects.ts:34 | Same length; every character outside word characters, '.' and '-' becomes '_', and every other character is kept. |
| Projects.Slice | pxel/src/lib/projects.ts:35 | `slice(0, n)` keeps a prefix of at most n characters, the whole string when it is shorter. |
| Projects.FinishBasename | pxel/src/lib/projects.ts:34-35 | The result is non-empty, has at most 100 characters and uses only the basename alphabet. A short non-empty name keeps its length. |
| Projects.CoverBasename | pxel/src/lib/projects.ts:24-40 | The basename is non-empty, at most 100 characters long and uses only the basename alphabet. A blank name gives "cover". |
| Projects.DefaultBasenameIsFixed | pxel/src/lib/projects.ts:25-35 | The fallback "cover" survives stripping and sanitising unchanged. |
| Projects.GetBasenameWithoutExtension | pxel/src/lib/projects.ts:24-40 | The method returns `CoverBasename` of its input. |
| Projects.ValidateCoverFile | pxel/src/lib/projects.ts:42-51 | Passes iff the MIME type is allowed and the size is at most 5·1024·1024, so exactly 5 MB passes. The type error comes before the size error. |
| Projects.CoverPath | pxel/src/lib/projects.ts:62-70 | Signed out is an error. Otherwise the path starts with "userId/". |
| Projects.CoverPathShape | pxel/src/lib/projects.ts:68-70 | The last '/' of the path ends the user folder, so the file part has no separator. The path ends in "." plus the MIME map's extension. |
| Projects.FormatProjectDate | pxel/src/lib/projects.ts:152-160 | A missing or empty date shows the em dash "—" (U+2014), and nothing else does. Any other date is shown as the locale rendering of that date. |
| Projects.MapRowToProject | pxel/src/lib/projects.ts:162-177 | The title is the project name or "Untitled", the client the client name or "—", and the thumbnail the cover URL or the placeholder. The date is the em dash exactly when the row has no date. A mapped project is a draft with 0 photos in "Weddings", and it carries the row's album size and Cloudinary fields. |
| Projects.MappedProjectIdRoundTrip | pxel/src/lib/projects.ts:164 | `String(row.id)` reads back as the row id, so distinct rows get distinct project ids. |
| Projects.OrNull | pxel/src/lib/projects.ts:275-276 | `value \|\| null`: an empty or missing value becomes null, and anything else is kept. |
| Projects.TrimmedOrNull | pxel/src/lib/projects.ts:261 | `value?.trim() \|\| null`: a blank or missing value becomes null, and anything else is trimmed. |
| Projects.UpdateProjectCloudinary | pxel/src/lib/projects.ts:232-285 | Error cases: signed out, then a count error, then an update error. With photos, only the email changes (trimmed, blank becomes null). Without photos, all three fields are set. A row the user does not own is unchanged. |
| Projects.CredentialsLockedOnceUsed | pxel/src/lib/projects.ts:254-269 | Once a project has photos, a successful update never changes its cloud name or preset. |
| Submissions.DropUnsafe | pxel/src/views/Submissions/utils.ts:8 | Only word characters, whitespace and '-' survive, and the result is never longer. |
| Submissions.DropUnsafeConcat | pxel/src/views/Submissions/utils.ts:8 | The filter works one character at a time: filtering a concatenation concatenates the filtered parts. |
| Submissions.DropUnsafeChar | pxel/src/views/Submissions/utils.ts:8 | A single character is kept iff it is a word character, whitespace or '-'. With the concatenation lemma, the result is exactly the safe characters of the input, in order. |
| Submissions.DashRuns | pxel/src/views/Submissions/utils.ts:8 | The result holds only word characters and '-', is never longer, and is non-empty for a non-empty input. |
| Submissions.DashRunsOfBlankRun | pxel/src/views/Submissions/utils.ts:8 | A whole whitespace run, followed by the end or a non-space, becomes one '-'. |
| Submissions.DashRunsOfChar | pxel/src/views/Submissions/utils.ts:8 | A character that is not whitespace is kept, and the replacement goes on after it. |
| Submissions.SafeFilenameSegment | pxel/src/views/Submissions/utils.ts:7-9 | The segment is never empty and holds no whitespace: only word characters and '-'. |
| Submissions.SegmentCharsAreTrimmed | pxel/src/views/Submissions/utils.ts:8 | The final `trim()` has nothing left to remove. |
| Submissions.SafeSegmentOfSafe | pxel/src/views/Submissions/utils.ts:7-9 | A name that is already a safe segment is returned unchanged (idempotence). |
| Submissions.DropUnsafeKeepsSafe | pxel/src/views/Submissions/utils.ts:8 | Removing unsafe characters keeps a safe name as it is. |
| Submissions.DashRunsKeepsSafe | pxel/src/views/Submissions/utils.ts:8 | Collapsing whitespace keeps a safe name as it is. |
| Submissions.SuggestedZipFilename | pxel/src/views/Submissions/utils.ts:57-63 | The file name is the safe project segment followed by "-date.zip", so it ends in ".zip". |
| Submissions.EmptyProjectNameIsSubmission | pxel/src/views/Submissions/utils.ts:57-63 | An empty project name gives "submission-date.zip". |
| Submissions.ParseNumbered | pxel/src/views/Submissions/utils.ts:30 | A regex match has a stem of at least one non-line-terminator code unit and an extension that is a dot followed by non-dots. |
| Submissions.ParseNumberedName | pxel/src/views/Submissions/utils.ts:30-33 | `stem-N.ext` matches the pattern and reads back as its stem, N and extension. |
| Submissions.NumberedNameOfParse | pxel/src/views/Submissions/utils.ts:30-33 | A matching name is its stem, a dash, digits that read as its number, and its extension. |
| Submissions.DefaultName | pxel/src/views/Submissions/utils.ts:26 | An empty filename becomes "image.jpg". |
| Submissions.BaseOf | pxel/src/views/Submissions/utils.ts:27 | The base without the final extension is never empty ("image" as fallback). |
| Submissions.ExtOf | pxel/src/views/Submissions/utils.ts:28 | The extension starts with '.' (".jpg" without a dot in the name). |
| Submissions.RemainingDecreases | pxel/src/views/Submissions/utils.ts:29-37 | A taken name that matches the pattern moves to a name with a larger number, so the taken names above it shrink. This is the loop's termination measure. |
| Submissions.FreeName | pxel/src/views/Submissions/utils.ts:29-37 | With numbers as unbounded integers: where the loop ends, the name is not taken, and a name that is not taken is kept unchanged. |
| Submissions.FreeNameOfUnnumbered | pxel/src/views/Submissions/utils.ts:34-36 | A taken name that does not match the pattern is replaced by `base-\|used\|ext`, and the loop goes on from there. An untaken fallback is the result. |
| Submissions.FreeNameKeepsFamily | pxel/src/views/Submissions/utils.ts:30-33 | A colliding `stem-N.ext` ends as `stem-M.ext` with M greater than N. |
| Submissions.UniqueName | pxel/src/views/Submissions/utils.ts:26-37 | On inputs where the loop ends and every bumped number is below 2^53, the `while (usedNames.has(name))` loop returns `FreeName` of the default name and the fallback `base-\|used\|ext`. The result is not in `used`. |
| Submissions.PrecisionLimitExample | pxel/src/views/Submissions/utils.ts:32-33 | A taken "x-9007199254740992.jpg" (2^53) is no plain hang, but its bump is not exact: in JavaScript 2^53 + 1 rounds to 2^53, so the name never changes. |
| Submissions.PrecisionLimitPhotos | pxel/src/views/Submissions/utils.ts:16-52 | Two photos both named "x-9007199254740992.jpg" are outside the inputs the model covers. |
| Submissions.HangingExample | pxel/src/views/Submissions/utils.ts:29-37 | With "a." and "a.-2." taken, the name "a." loops forever: its fallback "a.-2." is taken and never matches the increment pattern. |
| Submissions.HangingPhotos | pxel/src/views/Submissions/utils.ts:16-52 | The photo list "a.", "a.-2.", "a." makes the loop of `buildPhotosZip` hang. |
| Submissions.TwoPhotosNamed | pxel/src/views/Submissions/utils.ts:26-38 | Unused names are kept unchanged: "a." then "a.-2." keep their names. |
| Submissions.ReservedBy | pxel/src/views/Submissions/utils.ts:22-38 | A photo without a url reserves no name. Any other photo reserves a name not reserved before. |
| Submissions.EntryNames | pxel/src/views/Submissions/utils.ts:19-39 | One entry per photo. |
| Submissions.EntryNamesSkipMissing | pxel/src/views/Submissions/utils.ts:22-25 | A photo has no entry name exactly when it has no url. |
| Submissions.UsedByIsReserved | pxel/src/views/Submissions/utils.ts:29-38 | After the loop, `usedNames` holds exactly the reserved names. |
| Submissions.EntryNamesDistinct | pxel/src/views/Submissions/utils.ts:29-38 | No two photos reserve the same name. |
| Submissions.ArchiveEntries | pxel/src/views/Submissions/utils.ts:38-47 | There are no more archive entries than photos. |
| Submissions.FailedCount | pxel/src/views/Submissions/utils.ts:22-47 | `failedCount` is the number of photos that did not reach the archive. |
| Submissions.ArchiveEntriesDistinct | pxel/src/views/Submissions/utils.ts:29-38 | Archive entry names are pairwise distinct, and each is the reserved name of one photo. |
| Submissions.ArchiveStep | pxel/src/views/Submissions/utils.ts:38-47 | One more photo adds its entry or one failure. A failed fetch keeps its reserved name. |
| Submissions.NamePhoto | pxel/src/views/Submissions/utils.ts:26-38 | Naming one photo reserves its name and adds it to the taken names. |
| Submissions.BuildPhotosZip | pxel/src/views/Submissions/utils.ts:16-52 | On every photo list the naming loop gets through with exact numbers, the `for` loop yields `ArchiveEntries` of the reserved names and `FailedCount`, and entries plus failures equal the photo count. |
| UserRoles.CreatorAndClientRoutesDisjoint | pxel/src/lib/user-roles.ts:61-73 | No path is both a creator route and a client route. |
| UserRoles.BareUploadIsNotCreatorRoute | pxel/src/lib/user-roles.ts:56-66 | "/upload" is not a creator route although the list names it; "/upload/x" is one. |
| UserRoles.ChooseRoleBelongsToNoRole | pxel/src/lib/user-roles.ts:61-77 | "/choose-role" is neither a creator nor a client route. |
| AppGuard.PathOrRoot | pxel/src/App.tsx:129 | `pathname \|\| "/"` is never empty and keeps a non-empty path. |
| AppGuard.CreatorRouteIsCreatorPath | pxel/src/App.tsx:134-143 | Every creator route is a creator path of the layout. The client paths are exactly the client routes. |
| AppGuard.CreatorPathsWiderThanRoutes | pxel/src/App.tsx:134-139 | "/submissions" and "/project/…" are creator paths but not creator routes; the two lists disagree. |
| AppGuard.CreatorAndClientPathsDisjoint | pxel/src/App.tsx:134-143 | No path is both a creator path and a client path. |
| AppGuard.LayoutScreen | pxel/src/App.tsx:134-152 | Redirects iff a client is on a creator path (to "/user/events") or a creator is on a client path (to "/"). Otherwise the page is laid out for the role, and its catch-all route goes to the role's home: "/" for a creator, "/user/events" for a client. |
| AppGuard.GuardScreen | pxel/src/App.tsx:98-122 | Loading while the session loads. No session goes to /signin. Loading while the role loads. A null role goes to /choose-role, or shows it when already there. Any other settled role gives the layout's screen for that role on `pathname \|\| "/"`, a missing role counting as client. |
| AppGuard.HomesAreNotRedirected | pxel/src/App.tsx:145-152 | Each role's home is laid out for that role. |
| AppGuard.CatchAllLands | pxel/src/App.tsx:152-179 | On a laid-out page, the catch-all redirect to the default path lands on a page that is laid out, not redirected again. |
| AppGuard.NoRedirectLoop | pxel/src/App.tsx:98-152 | Following any guard redirect other than /signin once reaches a laid-out page or the role-choice page. |
| AppGuard.ChooseRoleRedirectLands | pxel/src/App.tsx:112-120 | A role-less user is redirected to /choose-role and shown it there. |
| ChooseRole.RoleChosenTarget | pxel/src/views/ChooseRole/ChooseRoleView.tsx:17-24 | `from` is kept when it is a route of the chosen role; otherwise the target is the role's home. |
| ChooseRole.TargetFitsRole | pxel/src/views/ChooseRole/ChooseRoleView.tsx:17-24 | The target always satisfies the chosen role's route predicate. |
| ChooseRole.TargetIsNotRedirected | pxel/src/views/ChooseRole/ChooseRoleView.tsx:17-24 | The route guard lays the target out instead of redirecting again. |
| AuthQuery.ChosenName | pxel/src/lib/auth-query.ts:16 | `full_name` takes precedence over `name`, and "" without metadata. |
| AuthQuery.DisplayFor | pxel/src/lib/auth-query.ts:17-18 | A non-blank name is returned trimmed. A blank one falls back to the email or "". |
| AuthQuery.DisplayName | pxel/src/lib/auth-query.ts:14-19 | Without a session the name is ""; otherwise it is `DisplayFor` of the chosen name and email. |
| AuthQuery.Initials | pxel/src/lib/auth-query.ts:23-38 | Without a session the initials are "?"; otherwise they are `InitialsFor` of the chosen name and email. |
| AuthQuery.WordInitialsShape | pxel/src/lib/auth-query.ts:27-33 | Two or more words give the upper-cased first characters of the first and last word. One word gives the upper-cased first character of the untrimmed name. |
| AuthQuery.InitialsLength | pxel/src/lib/auth-query.ts:23-37 | Initials are never longer than 2 characters, never empty, and contain no lower-case letter. |
| AuthQuery.InitialsOfSeveralWords | pxel/src/lib/auth-query.ts:27-32 | Several words: the first character of the trimmed name and of the last word, upper-cased. |
| AuthQuery.InitialsWithoutName | pxel/src/lib/auth-query.ts:35-37 | Without a name, the upper-cased first character of the email, else "?". |
| AuthQuery.UntrimmedSingleWord | pxel/src/lib/auth-query.ts:33 | As written, the single word " ada" gives the initial " ". |
| AuthQuery.TrimmedInitialsAreNotBlank | pxel/src/lib/auth-query.ts:27-33 | Taken from the trimmed name, no initial drawn from a name is whitespace. |
| AuthQuery.TrimmedInitialsAgree | pxel/src/lib/auth-query.ts:27-37 | The corrected initials agree with the source's whenever the name does not start with whitespace. |
| AuthAppQuery.ChosenName | auth/src/lib/auth-query.js:12 | `full_name` first; "" without metadata. |
| AuthAppQuery.DisplayName | auth/src/lib/auth-query.js:10-16 | No user gives "". |
| AuthAppQuery.Initials | auth/src/lib/auth-query.js:18-31 | No user gives "?". |
| AuthAppQuery.SameAsPhotoApp | auth/src/lib/auth-query.js:10-32 | For every typed session, both functions return what the pxel versions return. |
| AuthAppQuery.SameForEveryJsSession | auth/src/lib/auth-query.js:10-32 | For every untyped session, `null` fields included, both functions return what the pxel versions return for that session with `null` and `undefined` read as missing. |
| SignIn.RedirectUrl | auth/src/views/SignIn.js:16-20 | "pxel" maps to "/pxel" and "expense-tracker" to "/expense-tracker/dashboard", both iff; anything else maps to "/". |
| SignIn.KnownLabel | auth/src/views/SignIn.js:6-9 | The object lookup finds something iff the key is "pxel", "expense-tracker" or a name inherited from `Object.prototype`. It finds text iff the key is one of the two apps. |
| SignIn.AppLabel | auth/src/views/SignIn.js:34 | None iff returnTo is empty. Otherwise the lookup's value when it finds one, inherited members included, else returnTo as text. |
| SignIn.HeadingOf | auth/src/views/SignIn.js:70-72 | Text is shown iff the label is text. An inherited method shows nothing, and `Object.prototype` makes rendering throw. |
| SignIn.InheritedKeyHeadings | auth/src/views/SignIn.js:34 | `returnTo=toString` shows an empty heading, and `returnTo=__proto__` makes rendering throw. |
| SignIn.OwnLabel | auth/src/views/SignIn.js:34 | The lookup over own keys only: the two app labels, else returnTo, and none iff it is empty. |
| SignIn.OwnLabelAgrees | auth/src/views/SignIn.js:34 | The own-key label is never empty and agrees with the source on every returnTo that is not an inherited name. |
| SignIn.SessionRedirect | auth/src/views/SignIn.js:37-47 | Nothing while loading. A session redirects to `RedirectUrl(returnTo)`. No session without returnTo redirects to "/". |
| SignIn.FormOrRedirect | auth/src/views/SignIn.js:37-64 | Once loaded, the page shows the form iff it does not redirect. |
| SignIn.FormHasLabel | auth/src/views/SignIn.js:62-72 | A shown form always has a label. Its heading shows text iff returnTo is not an inherited name, and that text is never empty. |
| Cloudinary.CloudinaryConfig | pxel/src/lib/cloudinary.ts:14-32 | Overrides are used, trimmed, only when both are non-blank. Otherwise the environment values are returned unchanged, or the error when either is missing or empty. |
| Cloudinary.ConfigValuesAreNotEmpty | pxel/src/lib/cloudinary.ts:14-32 | A chosen cloud name and preset are never empty. |
| Cloudinary.SingleOverrideIgnored | pxel/src/lib/cloudinary.ts:15-31 | A single usable override is ignored in favour of the environment. |
| Cloudinary.InstanceCloudName | pxel/src/lib/cloudinary.ts:38-47 | A non-blank argument, trimmed, else the configured cloud name. |
| Cloudinary.InstanceOrNull | pxel/src/lib/cloudinary.ts:50-59 | Null exactly where `getCloudinaryInstance` would throw; otherwise the same cloud name. |
| Cloudinary.NoInstanceIff | pxel/src/lib/cloudinary.ts:38-59 | Null exactly when the argument is blank and an environment value is missing. |
| Cloudinary.UploadOverrides | pxel/src/lib/cloudinary.ts:83-89 | The options are passed, untrimmed, iff both are usable. |
| Cloudinary.UploadAccount | pxel/src/lib/cloudinary.ts:83-90 | The upload goes to the account the options select as overrides. |
| Cloudinary.StatusFailureMessage | pxel/src/lib/cloudinary.ts:126-133 | A non-empty `error.message` of the body, else "Failed to upload photo.". |
| Cloudinary.XhrUpload | pxel/src/lib/cloudinary.ts:113-138 | Resolves iff the status is 2xx and the body has both `secure_url` and `public_id`, and returns those. A non-2xx status fails with `StatusFailureMessage`. |
| Cloudinary.FetchUpload | pxel/src/lib/cloudinary.ts:144-164 | The upload throws iff `fetch` rejects or a 2xx body is not JSON. Every other response ends as the XHR path ends on it. |
| Cloudinary.PathsAgreeOnSuccess | pxel/src/lib/cloudinary.ts:113-164 | Both paths resolve with a photo on exactly the same responses. A failed request rejects on both paths: the XHR path with "Network error during upload.", the fetch path with what `fetch` threw. |
| UserAlbums.GetOrCreateSpec | pxel/src/lib/user-albums.ts:101-131 | Signed out is an error. A failed album read fails with its message or "Failed to load album.". An existing album is returned with the tables unchanged. A failed insert fails with its message or "Failed to create album.". Otherwise a new "draft" album is stored and returned. No failure stores anything. |
| UserAlbums.GetOrCreateIdempotent | pxel/src/lib/user-albums.ts:111-130 | After a call that returned an album, a second call whose album read succeeds returns the same album and stores nothing. |
| UserAlbums.GetOrCreateKeepsOthers | pxel/src/lib/user-albums.ts:111-130 | Albums of other users or projects are untouched. |
| UserAlbums.CapacityCheck | pxel/src/lib/user-albums.ts:150-156 | Fails with "Album is full (max N photos)." iff a size is set, the photo is absent and the album already holds at least N photos. |
| UserAlbums.AddSpec | pxel/src/lib/user-albums.ts:140-168 | A project-lookup error fails with its message. With a size limit, a failed read of the album's photo ids fails with its message or "Failed to load album photos.", and then the capacity rule applies. A failed upsert fails with its message or "Failed to add photo to album.". Otherwise the pair is added. Every failure leaves the pairs unchanged. |
| UserAlbums.AlbumPhotosAdd | pxel/src/lib/user-albums.ts:158-164 | The upsert adds the photo to that album and to no other. |
| UserAlbums.AddKeepsLimit | pxel/src/lib/user-albums.ts:150-168 | An album within its limit stays within it after any add, whichever read or write fails. |
| UserAlbums.ReAddIsNoOp | pxel/src/lib/user-albums.ts:153-168 | Re-adding a photo already in the album, with no read or write failing, is never refused and adds no pair. |
| UserAlbums.UnlimitedAlwaysAdds | pxel/src/lib/user-albums.ts:150-168 | With no album size the photo ids are not read, so their read cannot fail the add, and every add whose upsert succeeds goes through. |
| UserAlbums.AlbumStore.GetOrCreate | pxel/src/lib/user-albums.ts:101-131 | The album table and the result are `GetOrCreateSpec`'s, read and insert failures included. The photo pairs are unchanged. |
| UserAlbums.AlbumStore.AddPhoto | pxel/src/lib/user-albums.ts:137-169 | The album is created first and stays created. If the album cannot be had, the add fails with that error and the pairs are unchanged. Otherwise the result and the pairs are `AddSpec`'s, with the project lookup, photo-id read and upsert failures. |
| UserAlbums.AlbumStore.RemovePhoto | pxel/src/lib/user-albums.ts:174-184 | A failed delete fails with its message or "Failed to remove photo from album." and removes nothing. Otherwise it deletes exactly that (album, photo) pair. The album table is unchanged. |
| UserAlbums.RemoveKeepsOthers | pxel/src/lib/user-albums.ts:174-179 | Every other pair stays, and the photo has left the album. |
| EventAccess.RpcErrorMessage | pxel/src/lib/event-access.ts:20-25 | The thrown message is never empty. |
| EventAccess.InvalidLinkIff | pxel/src/lib/event-access.ts:20-25 | "Invalid or expired link." is thrown exactly for errors whose message contains "invalid" in any case or whose code is PGRST116. Other errors keep their non-empty message or get the default. |
| EventAccess.ExpiredLinkExamples | pxel/src/lib/event-access.ts:20-23 | A PGRST116 code and an "INVALID" message both give the invalid-link message. |
| EventAccess.PhotoOfRow | pxel/src/lib/event-access.ts:33-40 | The id, url, filename and public id are copied (a missing public id stays missing). Size and dimensions are empty. |
| EventAccess.PhotosOfRows | pxel/src/lib/event-access.ts:33-40 | One photo per row, in row order. |
| EventAccess.GetEventByToken | pxel/src/lib/event-access.ts:15-43 | Error mapping first. Missing data or project gives "Event not found.". Otherwise the project with one photo per row, in order: its id, url, filename and public id copied, size and dimensions empty. An absent list gives no photos. |
| EventAccess.FirstTokens | pxel/src/lib/event-access.ts:108-113 | A project has a token iff some link row names it. |
| EventAccess.FirstTokenWins | pxel/src/lib/event-access.ts:108-113 | A project's token is that of its first link row. |
| EventAccess.LaterLinkIgnored | pxel/src/lib/event-access.ts:110-112 | A later row for the same project changes nothing. |
| EventAccess.TokenByProject | pxel/src/lib/event-access.ts:108-113 | The `for` loop builds exactly `FirstTokens`. |
| EventAccess.TokenIsSomeRow | pxel/src/lib/event-access.ts:108-113 | Each token in the map comes from a row of that project. |
| EventAccess.FormatEventDateAsWritten | pxel/src/lib/event-access.ts:58-66 | A missing or empty date shows the garbled dash "â€”" (U+00E2 U+20AC U+201D), and nothing else does. Any other date is its locale rendering. |
| EventAccess.EventItemAsWritten | pxel/src/lib/event-access.ts:117-123 | The item as `getMyEvents` builds it: the project's id and token, the title or "Untitled", the cover or the placeholder, and the date of `FormatEventDateAsWritten`. |
| EventAccess.UndatedEventAsWritten | pxel/src/lib/event-access.ts:59 | An undated project's item shows the garbled dash, which differs from the projects list's em dash. |
| EventAccess.EventItem | pxel/src/lib/event-access.ts:117-123 | The corrected item: the project's id and token, the title or "Untitled", the cover or the placeholder. An undated project shows the em dash "—", and a dated one its locale date. |
| EventAccess.EventItemAgrees | pxel/src/lib/event-access.ts:117-123 | The corrected item's date is `Projects.FormatProjectDate`'s. It differs from the item as written only in the date, and not at all for a dated project. |
| EventAccess.EventItems | pxel/src/lib/event-access.ts:115-123 | Only projects with a token are listed, each with its own token. The items are the corrected `EventItem`, so `GetMyEvents` shows the em dash for an undated project. |
| EventAccess.EventItemsConcat | pxel/src/lib/event-access.ts:115-123 | Items follow project order. |
| EventAccess.EventItemsCover | pxel/src/lib/event-access.ts:115-123 | A project is listed iff it has a token. |
| EventAccess.MyEventsSpec | pxel/src/lib/event-access.ts:71-124 | Signed out is an error. An access error or no access rows gives []. A projects error fails with its message or "Failed to load events.". Otherwise the result is the items of the projects that have a token, with each project's first token (`EventItems` of `FirstTokens`). There are never more events than projects. |
| EventAccess.ListedEventsHaveFirstToken | pxel/src/lib/event-access.ts:103-123 | Every listed event carries a token from one of its project's link rows. |
| EventAccess.GetMyEvents | pxel/src/lib/event-access.ts:71-124 | The method returns `MyEventsSpec`. |
| Bookmarks.EventIndex | pxel/src/lib/bookmarks.ts:27-29 | A project is in the map iff some event names it. |
| Bookmarks.LastEventWins | pxel/src/lib/bookmarks.ts:27-29 | A project's entry is its last event's title and token (`new Map`). |
| Bookmarks.IdSet | pxel/src/lib/bookmarks.ts:44 | The set holds exactly the album's photo ids. |
| Bookmarks.SectionFor | pxel/src/lib/bookmarks.ts:33-54 | No section iff the album's project has no event or the album has no photo ids. |
| Bookmarks.Sections | pxel/src/lib/bookmarks.ts:33-54 | There are at most as many sections as albums. |
| Bookmarks.SectionsCome | pxel/src/lib/bookmarks.ts:33-54 | Each section comes from one album: its project id, title and token. Its photos are exactly the project photos whose id is in the album, in project order. |
| Bookmarks.SkippedAlbum | pxel/src/lib/bookmarks.ts:35-42 | An album without an event or photo ids adds no section. |
| Bookmarks.KeptAlbum | pxel/src/lib/bookmarks.ts:44-54 | Any other album adds its one section at the end, so sections are in album order. |
| Bookmarks.GetMyBookmarkedSections | pxel/src/lib/bookmarks.ts:21-57 | The loop returns `Sections` of the albums joined with the event index. |
| Uploads.WorkerCount | pxel/src/views/UploadPhotos/hooks/useUploadState.ts:119-122 | min(5, n) workers: at least one for a non-empty batch. |
| Uploads.NewItems | pxel/src/views/UploadPhotos/hooks/useUploadState.ts:69-73 | One item per file, with its temporary id, its name and progress 0. |
| Uploads.WithoutTempMembers | pxel/src/views/UploadPhotos/hooks/useUploadState.ts:114 | The filter drops exactly the items with that id. |
| Uploads.WithoutAbsentTemp | pxel/src/views/UploadPhotos/hooks/useUploadState.ts:114 | Filtering out a temporary id that no item has keeps the list. |
| Uploads.WithoutTempConcat | pxel/src/views/UploadPhotos/hooks/useUploadState.ts:114 | The filter keeps list order. |
| Uploads.RemoveFinished | pxel/src/views/UploadPhotos/hooks/useUploadState.ts:114 | Removing a batch's first item leaves the older items and the rest of the batch. |
| Uploads.FailureOf | pxel/src/views/UploadPhotos/hooks/useUploadState.ts:107-110 | A failure is recorded iff the upload threw. It holds the file, its name and the message, or "Upload failed.". |
| Uploads.FailuresAndStoredAddUp | pxel/src/views/UploadPhotos/hooks/useUploadState.ts:77-116 | Failures plus stored photos equal the batch size. |
| Uploads.FailureHasItsFile | pxel/src/views/UploadPhotos/hooks/useUploadState.ts:107-110 | Each failure carries the file that failed. |
| Uploads.CacheGrowsInFront | pxel/src/views/UploadPhotos/hooks/useUploadState.ts:103-106 | Each stored photo is put in front of the cached list, and the cached photos are kept behind them. |
| Uploads.StoredPhotoIsCached | pxel/src/views/UploadPhotos/hooks/useUploadState.ts:103-106 | Every stored photo is in the cache afterwards. |
| Uploads.BatchError | pxel/src/views/UploadPhotos/hooks/useUploadState.ts:138-145 | No error iff no failures. One failure shows its own message. k > 1 failures show "k upload(s) failed.". |
| Uploads.FlushItemShape | pxel/src/views/UploadPhotos/hooks/useUploadState.ts:45-51 | A flush changes an item iff its recorded progress differs, and then only its progress. |
| Uploads.Flushed | pxel/src/views/UploadPhotos/hooks/useUploadState.ts:45-52 | One flushed item per item. |
| Uploads.FlushWithoutStaleIsSame | pxel/src/views/UploadPhotos/hooks/useUploadState.ts:41-55 | With nothing stale the list is unchanged, and a second flush changes nothing. |
| Uploads.ProgressSumBounds | pxel/src/views/UploadPhotos/hooks/useUploadState.ts:199 | The progress sum lies between 0 and 100 per item. |
| Uploads.TotalForDisplay | pxel/src/views/UploadPhotos/hooks/useUploadState.ts:195 | 0 once nothing is in flight, else the batch size. |
| Uploads.OverallPercent | pxel/src/views/UploadPhotos/hooks/useUploadState.ts:196-203 | 0 when nothing is uploading. |
| Uploads.ShownPercent | pxel/src/views/UploadPhotos/hooks/useUploadState.ts:211 | Never above 100, and 0 when nothing is uploading. |
| Uploads.OverallPercentInRange | pxel/src/views/UploadPhotos/hooks/useUploadState.ts:196-203 | Within a consistent batch, the percent lies between 0 and 100. |
| Uploads.UploadState.RecordProgress | pxel/src/views/UploadPhotos/hooks/useUploadState.ts:88-90 | The percent is recorded under the temporary id. Nothing else changes. |
| Uploads.RecordedProgressShows | pxel/src/views/UploadPhotos/hooks/useUploadState.ts:45-52 | After a percent is recorded, the next flush shows it on that id's items and leaves the other items as they would have been. |
| Uploads.UploadState.FlushProgress | pxel/src/views/UploadPhotos/hooks/useUploadState.ts:41-55 | The in-flight list becomes `Flushed`. It is reported changed iff some item was stale, and otherwise stays as it was. Nothing else changes. |
| Uploads.UploadState.DoOne | pxel/src/views/UploadPhotos/hooks/useUploadState.ts:85-115 | One upload: its failure or its cached photo, the counter +1, its progress entry deleted and its item removed. |
| Uploads.UploadState.ClaimNext | pxel/src/views/UploadPhotos/hooks/useUploadState.ts:80-116 | A worker claims the next index and moves the batch one file on. |
| Uploads.UploadState.StartBatch | pxel/src/views/UploadPhotos/hooks/useUploadState.ts:65-75 | The batch size is set, the counter reset, the new items appended and their progress entries set to 0. |
| Uploads.UploadState.EndBatch | pxel/src/views/UploadPhotos/hooks/useUploadState.ts:123-126 | After the batch, the in-flight list and progress map are as before, completed = n and the batch size is 0. |
| Uploads.UploadState.WorkQueue | pxel/src/views/UploadPhotos/hooks/useUploadState.ts:78-123 | Each index is claimed exactly once, in order, and the failures are `Failures`. |
| Uploads.UploadState.RunUploadQueue | pxel/src/views/UploadPhotos/hooks/useUploadState.ts:62-129 | Each file is claimed once and the failures are collected. Every temporary item leaves again, so the in-flight list equals its contents before the batch. The cache gains the stored photos. |
| Uploads.UploadState.HandleFiles | pxel/src/views/UploadPhotos/hooks/useUploadState.ts:131-151 | No files, or an invalid project, is a no-op. Otherwise a batch runs, and its failures and `BatchError` are stored. |
| Uploads.UploadState.RetryFailedUploads | pxel/src/views/UploadPhotos/hooks/useUploadState.ts:153-170 | Nothing without failures. Otherwise the failed files run again as a new batch. |
| Uploads.UploadState.DismissFailedUploads | pxel/src/views/UploadPhotos/hooks/useUploadState.ts:172-175 | Clears the failures and the error, and nothing else. |
| Uploads.ClaimInOrder | pxel/src/views/UploadPhotos/hooks/useUploadState.ts:81-82 | The shared `index++` hands out the next index. |
| Uploads.FinishedTempIsGone | pxel/src/views/UploadPhotos/hooks/useUploadState.ts:113 | Finishing file i removes its id from the zeroed progress map. |
| Uploads.FinishedItemIsGone | pxel/src/views/UploadPhotos/hooks/useUploadState.ts:114 | Finishing file i removes its item from the in-flight list. |
| ProgressCard.CardFor | pxel/src/views/UploadPhotos/components/UploadProgressCard.tsx:17-43 | No card iff nothing is uploading. The total is the batch size, or the in-flight count when the size is 0. Completed = total minus in-flight. The count shows iff total > 1. The bar is capped at 100. |
| ProgressCard.CompletedInRange | pxel/src/views/UploadPhotos/components/UploadProgressCard.tsx:18-19 | Within a batch, completed lies between 0 and total − 1. |
| Photos.WithIds | pxel/src/lib/bookmarks.ts:44-45 | The order-preserving sublist of photos whose id is in the set. |
| Photos.Without | pxel/src/views/MyBookmarks/MyBookmarksView.tsx:172 | The order-preserving sublist without that id. |
| Photos.WithoutAbsentIsSame | pxel/src/views/MyBookmarks/MyBookmarksView.tsx:172 | Filtering out an id that no photo has keeps the list. |
| Photos.WithoutPresentIsShorter | pxel/src/views/MyBookmarks/MyBookmarksView.tsx:172 | Filtering out a present id shortens the list. |
| Photos.IndexOf | pxel/src/components/PhotoPreviewModal.tsx:40 | `findIndex` by id: the first match, or -1 iff absent. |
| Photos.IndexOfOwnId | pxel/src/components/PhotoPreviewModal.tsx:40 | With distinct ids, a photo's index is its position. |
| DisplayPhotos.UploadingEntry | pxel/src/views/UploadPhotos/hooks/useDisplayPhotos.ts:12-20 | An uploading item shows with id = tempId, url "", status uploading and its progress. |
| DisplayPhotos.Merge | pxel/src/views/UploadPhotos/hooks/useDisplayPhotos.ts:9-22 | Its length is persisted plus uploading. |
| DisplayPhotos.MergeShape | pxel/src/views/UploadPhotos/hooks/useDisplayPhotos.ts:9-22 | The persisted photos come first, in order and done. The uploading entries follow in order. |
| DisplayPhotos.MergeWithoutUploads | pxel/src/views/UploadPhotos/hooks/useDisplayPhotos.ts:10-21 | With nothing uploading, the result is the persisted photos marked done. |
| Selection.Toggled | pxel/src/views/UploadPhotos/hooks/useSelection.ts:7-14 | Flips one id, and every other id is unchanged. |
| Selection.ToggleTwice | pxel/src/views/UploadPhotos/hooks/useSelection.ts:7-14 | Toggling twice restores the set. |
| Selection.SelectableIds | pxel/src/views/UploadPhotos/hooks/useSelection.ts:16-21 | Exactly the ids of non-uploading displayed photos. |
| Selection.SelectedPhotos | pxel/src/views/UploadPhotos/hooks/useSelection.ts:25-31 | A displayed photo is in the result iff it is not uploading and its id is selected. |
| Selection.SelectedPhotosConcat | pxel/src/views/UploadPhotos/hooks/useSelection.ts:25-31 | The result keeps display order. |
| Selection.StaleIdsIgnored | pxel/src/views/UploadPhotos/hooks/useSelection.ts:25-31 | A selected id that no selectable photo has changes nothing. |
| Selection.SelectAllSelectsEverything | pxel/src/views/UploadPhotos/hooks/useSelection.ts:16-36 | After select-all, every selectable photo is selected. `hasSelectablePhotos` holds iff some id is selectable. |
| Selection.SelectAllIsPersisted | pxel/src/views/UploadPhotos/hooks/useSelection.ts:16-21 | On the merged grid, select-all picks exactly the ids of the persisted photos. |
| Selection.SelectionState.ToggleSelect | pxel/src/views/UploadPhotos/hooks/useSelection.ts:7-14 | The selection becomes `Toggled`. |
| Selection.SelectionState.SelectAll | pxel/src/views/UploadPhotos/hooks/useSelection.ts:16-21 | The loop sets the selection to exactly `SelectableIds`. |
| Selection.SelectionState.ClearSelection | pxel/src/views/UploadPhotos/hooks/useSelection.ts:23 | The selection is empty. |
| DeleteFlow.BulkMessage | pxel/src/views/UploadPhotos/hooks/useDeleteFlow.ts:40-45 | "Deleting photo…" iff one id. Otherwise "Deleting ", then a decimal number that reads back as the count, then " photos…". |
| DeleteFlow.SettledMessage | pxel/src/views/UploadPhotos/hooks/useDeleteFlow.ts:26-27 | Cleared only while it is still "Deleting photo…". |
| DeleteFlow.Removed | pxel/src/views/UploadPhotos/hooks/useDeleteFlow.ts:48-54 | The ids whose delete succeeded. |
| DeleteFlow.DeleteState.ConfirmDelete | pxel/src/views/UploadPhotos/hooks/useDeleteFlow.ts:30-36 | Without a pending photo nothing changes. Otherwise the pending photo is cleared, "Deleting photo…" is shown and exactly that id is deleted. |
| DeleteFlow.DeleteState.SettleDelete | pxel/src/views/UploadPhotos/hooks/useDeleteFlow.ts:22-28 | A successful delete removes the id, and the message follows `SettledMessage`. |
| DeleteFlow.DeleteState.HandleBulkDelete | pxel/src/views/UploadPhotos/hooks/useDeleteFlow.ts:38-64 | Closes the dialog, clears the selection and shows `BulkMessage`. Each id is tried once, in order, and a failure does not stop later ids. The succeeded ids leave the store. The message is null afterwards. |
| DeleteFlow.RemovedStep | pxel/src/views/UploadPhotos/hooks/useDeleteFlow.ts:48-54 | One more try removes its id iff it succeeded. |
| DeleteFlow.FailedDeleteKeepsPhoto | pxel/src/views/UploadPhotos/hooks/useDeleteFlow.ts:50-53 | A photo whose every delete failed stays stored. |
| PreviewModal.ModalIndex | pxel/src/components/PhotoPreviewModal.tsx:40 | The position of the photo in the list, or -1. |
| PreviewModal.NeighboursOfPhoto | pxel/src/components/PhotoPreviewModal.tsx:40-42 | An absent photo has neither neighbour. With distinct ids, a photo at k has a previous iff k > 0 and a next iff k < len − 1. |
| PreviewModal.KeyCallbacks | pxel/src/components/PhotoPreviewModal.tsx:44-51 | Escape always closes. The arrows call `onPrev`/`onNext` iff `hasPrev`/`hasNext`. |
| PreviewModal.FullAlbumStillRemoves | pxel/src/components/PhotoPreviewModal.tsx:80 | In a full album, the bookmark button is disabled iff the photo is not in the album. |
| PreviewModal.ImageSourceFor | pxel/src/components/PhotoPreviewModal.tsx:135-148 | Preference: a url, then Cloudinary with a public id, then the fallback. |
| PreviewModal.Counter | pxel/src/components/PhotoPreviewModal.tsx:153-157 | Shown iff the list is non-empty, as (index+1)/len. |
| PreviewModal.CounterInRange | pxel/src/components/PhotoPreviewModal.tsx:153-157 | A listed photo counts 1..len. An absent one shows 0. |
| EventGallery.ValidTokenIff | pxel/src/views/EventGallery/hooks/useEventGallery.ts:24 | A token is valid iff it is non-blank after trimming. |
| EventGallery.WithoutId | pxel/src/views/EventGallery/hooks/useEventGallery.ts:76-79 | Drops exactly that id from the cached ids. |
| EventGallery.WithoutOnceHeld | pxel/src/views/EventGallery/hooks/useEventGallery.ts:76-79 | An id held once leaves the list one shorter. |
| EventGallery.WithoutAbsentId | pxel/src/views/EventGallery/hooks/useEventGallery.ts:76-79 | An absent id leaves the list unchanged. |
| EventGallery.RemovalFreesOneSlot | pxel/src/views/EventGallery/hooks/useEventGallery.ts:76-114 | `isAlbumFull` holds iff a limit is set and the count reaches it, so removing from a full album frees it. |
| EventGallery.GalleryState.ToggleAlbumPhoto | pxel/src/views/EventGallery/hooks/useEventGallery.ts:95-105 | Removes the photo if it is in the album, else adds it. The toggling id is set. |
| EventGallery.GalleryState.RemoveSucceeded | pxel/src/views/EventGallery/hooks/useEventGallery.ts:73-79 | The cached ids lose exactly that id. |
| EventGallery.GalleryState.Settled | pxel/src/views/EventGallery/hooks/useEventGallery.ts:84 | The toggling id is cleared. |
| EventGallery.RemoveThenToggleAdds | pxel/src/views/EventGallery/hooks/useEventGallery.ts:76-79 | After a remove, the photo is not in the album, so the next toggle adds it. The other ids stay. |
| GalleryView.PreviewIndex | pxel/src/views/EventGallery/EventGalleryView.tsx:24-27 | -1 without a preview or photos; otherwise the modal's index. |
| GalleryView.AlbumPhotoCount | pxel/src/views/EventGallery/EventGalleryView.tsx:76 | 0 for a submitted album, else the number of album ids. |
| GalleryView.GalleryViewState.GoToPrev | pxel/src/views/EventGallery/EventGalleryView.tsx:28-32 | Moves to the previous photo only when one exists. |
| GalleryView.GalleryViewState.GoToNext | pxel/src/views/EventGallery/EventGalleryView.tsx:33-37 | Moves to the next photo only when one exists. |
| GalleryView.StepsMatchModal | pxel/src/views/EventGallery/EventGalleryView.tsx:28-37 | The page steps exactly when the modal offers `hasPrev`/`hasNext`. |
| GalleryView.StepMovesByOne | pxel/src/views/EventGallery/EventGalleryView.tsx:28-37 | With distinct ids, a step moves by exactly one. |
| AlbumBar.Photos | pxel/src/views/EventGallery/components/AlbumBar.tsx:25-27 | "photo" iff the count is 1. |
| AlbumBar.Label | pxel/src/views/EventGallery/components/AlbumBar.tsx:23-27 | "Album submitted"; or "My album (c / m photo[s])" pluralised by m; or "My album (c photo[s])" pluralised by c. |
| AlbumBar.LabelPlural | pxel/src/views/EventGallery/components/AlbumBar.tsx:25-27 | The label ends in "photo)" iff the pluralising number is 1. |
| GalleryBar.BarForAlbum | pxel/src/views/EventGallery/EventGalleryView.tsx:130-132 | A submitted album shows "Album submitted" and no submit button. Submit is disabled iff the count is 0 or a submit is running. |
| BookmarksPage.NextIndexAsWritten | pxel/src/views/MyBookmarks/MyBookmarksView.tsx:177-178 | `Math.min(currentIndex, remaining − 1)`. |
| BookmarksPage.AbsentPhotoGivesNoIndex | pxel/src/views/MyBookmarks/MyBookmarksView.tsx:177-179 | A photo absent from the section gives the index -1. |
| BookmarksPage.NextIndex | pxel/src/views/MyBookmarks/MyBookmarksView.tsx:177-179 | Always in bounds, and the source's value whenever the photo was found. |
| BookmarksPage.RemovalPreview | pxel/src/views/MyBookmarks/MyBookmarksView.tsx:168-183 | No preview stays none. The preview closes iff no photo remains. Otherwise the section's photos lose that id, and the new photo is one of them. |
| BookmarksPage.RemovalAgreesWhenPresent | pxel/src/views/MyBookmarks/MyBookmarksView.tsx:172-183 | For a removed photo that was in the section, the preview shows the photo at min(old index, remaining − 1). |
| BookmarksPage.AllPhotosSnoc | pxel/src/views/MyBookmarks/MyBookmarksView.tsx:222 | The photos of the sections, in order. |
| BookmarksPage.TotalIsAllPhotos | pxel/src/views/MyBookmarks/MyBookmarksView.tsx:222 | `totalPhotos` is the sum of section sizes, and it is 0 iff every section is empty. |
| BookmarksPage.BookmarksPageState.OpenPreview | pxel/src/views/MyBookmarks/MyBookmarksView.tsx:274 | Opens the preview on that photo and section. |
| BookmarksPage.BookmarksPageState.ClosePreview | pxel/src/views/MyBookmarks/MyBookmarksView.tsx:286 | Closes the preview. |
| BookmarksPage.BookmarksPageState.RemoveStarted | pxel/src/views/MyBookmarks/MyBookmarksView.tsx:156 | Sets the toggling id. |
| BookmarksPage.BookmarksPageState.RemoveSucceeded | pxel/src/views/MyBookmarks/MyBookmarksView.tsx:158-184 | The preview becomes `RemovalPreview`. |
| BookmarksPage.BookmarksPageState.RemoveSettled | pxel/src/views/MyBookmarks/MyBookmarksView.tsx:157 | Clears the toggling id. |
| BookmarksPage.BookmarksPageState.SubmitStarted | pxel/src/views/MyBookmarks/MyBookmarksView.tsx:189 | Sets the submitting album. |
| BookmarksPage.BookmarksPageState.SubmitSettled | pxel/src/views/MyBookmarks/MyBookmarksView.tsx:193 | Clears the submitting album only if it is still the settled one. |
| BookmarksPage.BookmarksPageState.GoToPrev | pxel/src/views/MyBookmarks/MyBookmarksView.tsx:196-207 | Moves to the previous photo of the section, or does nothing at the start. |
| BookmarksPage.BookmarksPageState.GoToNext | pxel/src/views/MyBookmarks/MyBookmarksView.tsx:209-220 | Moves to the next photo of the section, or does nothing at the end. |
| Dashboard.FilteredProjects | pxel/src/views/Dashboard.tsx:40-50 | A project is shown iff it matches the category filter ("All" matches any) and its lower-cased title, client or category contains the lower-cased trimmed query. |
| Dashboard.FilteredConcat | pxel/src/views/Dashboard.tsx:40 | The result is an order-preserving sublist. |
| Dashboard.BlankQueryIsEmpty | pxel/src/views/Dashboard.tsx:43-45 | The normalised query is empty iff the query is blank. |
| Dashboard.AllWithBlankQueryShowsEverything | pxel/src/views/Dashboard.tsx:41-45 | "All" with a blank query shows every project. |
| Dashboard.NarrowerQueryShowsFewer | pxel/src/views/Dashboard.tsx:43-49 | If query q′ contains q, every result for q′ is a result for q. |
| Notifications.UnreadCount | pxel/src/components/Header.tsx:50 | At most the number of notifications. |
| Notifications.UnreadCountShape | pxel/src/components/Header.tsx:50 | The count adds up over concatenation. It is 0 iff all are read and the length iff all are unread. |
| Notifications.TimeBucket | pxel/src/components/NotificationDropdown.tsx:11-23 | Mutually exclusive buckets that cover every difference. Under a minute, negatives included, is "Just now". N with N·unit ≤ diff < (N+1)·unit is "Nm"/"Nh"/"Nd ago". A week or more shows the date. |
| Notifications.NotificationTime | pxel/src/components/NotificationDropdown.tsx:11-22 | Under a minute, negatives included: "Just now". Under an hour: "Nm ago" with N = ⌊diff / 1 min⌋. Under a day: "Nh ago" with N = ⌊diff / 1 h⌋. Under a week: "Nd ago" with N = ⌊diff / 1 day⌋. A week or more: the locale date. |
| Notifications.MarksAllReadIff | pxel/src/components/NotificationDropdown.tsx:44-51 | The open list marks everything read exactly when at least one of its notifications is unread. |
| Notifications.ClickTarget | pxel/src/components/NotificationDropdown.tsx:54-58 | A target iff the notification is "album_submitted" with a project id and a non-empty album id. The target is /project/{p}/submissions/{a}. |
| NotificationRoutes.ClickLandsOnCreatorPage | pxel/src/components/NotificationDropdown.tsx:55-58 | The target is a creator path that a creator's layout shows without redirecting. |
| HeaderBar.HomeLink | pxel/src/components/Header.tsx:82-86 | "/" and "Galleries" for a creator; "/user/events" and "My events" otherwise. |
| HeaderBar.BadgeText | pxel/src/components/Header.tsx:123-126 | No badge iff the count is 0. "99+" iff above 99. Otherwise the decimal count, which reads back, in 1 to 3 characters. |
| HeaderBar.ShortNumberText | pxel/src/components/Header.tsx:125 | A count up to 99 prints in one or two digits, never as "99+". |
| HeaderBar.PartsFromShape | pxel/src/components/Header.tsx:53 | Path parts are non-empty and slash-free, and together spell the path without its slashes. |
| HeaderBar.ConcatAppend | pxel/src/components/Header.tsx:53 | Joining parts distributes over concatenation. |
| HeaderBar.DashesToSpaces | pxel/src/components/Header.tsx:91 | Each '-' becomes ' ', and every other character is kept. |
| HeaderBar.Breadcrumb | pxel/src/components/Header.tsx:87-93 | None iff there are no parts or one is "choose-role". It is the last part with dashes as spaces. |
| HeaderBar.BreadcrumbShape | pxel/src/components/Header.tsx:87-93 | A shown breadcrumb has the last part's length and no '-'. |
| HeaderBar.BreadcrumbExamples | pxel/src/components/Header.tsx:87-93 | "/a-b" shows "a b"; "/" shows nothing. |
| HeaderBar.Badge | pxel/src/components/Header.tsx:123-126 | Only a creator sees a badge, and it is `BadgeText` of the unread count. |
| Experience.JsRem | portfolio/src/pages/Home/Experience/index.js:63 | JavaScript's `%`: Euclidean for non-negative dividends, and always within (−12, 12). |
| Experience.SplitIsExact | portfolio/src/pages/Home/Experience/index.js:62-63 | For m ≥ 0, years·12 + remaining = m with 0 ≤ remaining < 12. |
| Experience.DurationCases | portfolio/src/pages/Home/Experience/index.js:65-70 | Under a year: "r mos", "0 mos" included. Whole years: "y yrs". Otherwise "y yrs r mos". |
| Experience.LeadingNumberReadsBack | portfolio/src/pages/Home/Experience/index.js:65-70 | The text starts with the decimal count, which reads back, followed by a space. |
| Experience.NegativeExamples | portfolio/src/pages/Home/Experience/index.js:61-66 | −5 months prints "-5 mos"; −12 prints "0 mos". |

## Left out

- Network and storage: Supabase queries, RPCs, storage uploads and sign-in are not modelled as calls. So are the Cloudinary XHR and `fetch` calls, the ZIP fetch and JSZip, and downloads. What they return (rows, errors, HTTP status and body, a rejected `fetch`) is a parameter. In the album store each read and write has its own error input.
- Server-side effects of RPCs such as `submit_album` are invisible here, and submitting an album is not modelled beyond the page's submitting id.
- `getMyAlbums`, `submitAlbum` and `mapRowToAlbum` in `user-albums.ts` are plain reads or calls. They are not modelled as operations. `getUserAlbum` and `getAlbumPhotoIds` appear inside the store's operations, each as its answer or its error.
- Bookmarks.GetMyBookmarkedSections: takes the successful answers of `getMyAlbums`, `getMyEvents`, `getAlbumPhotoIds` and `fetchProjectPhotos`. When any of them fails the source rejects the whole call; the model does not cover that path.
- Concurrency: the 5-worker upload pool runs as one sequential loop over the shared index. Claiming each index once does not depend on the interleaving.
- Timing and caching are not modelled:
  - React render and effect timing;
  - the 200 ms progress interval (a flush is a method call);
  - query-cache invalidation and refetch, including the refetch after a successful add in the event gallery;
  - the realtime channel.
- Floating point:
  - the XHR percent `Math.round(loaded/total*100)` (the progress values are given);
  - the one-decimal rounding of the overall percent (reals and the cap only);
  - the fractional dayjs month difference (the model starts from the month count after `Math.ceil`).
- Experience.DurationText: has no contract of its own; its lemmas `DurationCases`, `LeadingNumberReadsBack` and `NegativeExamples` state what it returns.
- BookmarksPage.TotalPhotos: has no contract of its own; `TotalIsAllPhotos` states its meaning.
- Dates and locale are parameters:
  - `toLocaleDateString` (`Projects.FormatProjectDate` returns an opaque locale date, and the week-old notification bucket is `OnDate`);
  - the ISO date part of the zip file name;
  - an invalid notification date, whose difference is NaN.
- Randomness and clocks: `Date.now()` and `Math.random()` in cover paths and temporary upload ids are parameters. Temporary ids are required distinct and unused.
- `URLSearchParams` parsing on the sign-in page: `returnTo` is given as a string.
- Unicode: `\w`, `\s`, `toLowerCase` and `toUpperCase` are restricted to ASCII. Characters outside the Basic Multilingual Plane are two code units, as in JavaScript, but are not treated specially.
- Files are identified by name only; their contents and sizes (beyond `validateCoverFile`'s size) are not modelled.
- `Projects.PlaceholderThumbnail` stands for the inline SVG data URL as one opaque string.
- Submissions.UniqueName: requires that the loop ends (`!Hangs`) and that every number it bumps is below 2^53 (`ExactBumps`). The source demands neither. Without the first it loops forever, as `HangingExample` and `HangingPhotos` show.
- Submissions.BuildPhotosZip: requires both conditions for every photo (`NamingEnds`). JavaScript numbers are doubles, and the model's integers are unbounded. At 2^53 the bump rounds back to the same number, so the source loops forever (`PrecisionLimitExample`, `PrecisionLimitPhotos`). Above 2^53 `parseInt` rounds, and from 10^21 numbers print as "1e+21". The model does not cover any of these inputs.
- Submissions.FreeName: computes with unbounded integers, so it states the source's result only under `ExactBumps`.
- The breadcrumb's CSS `capitalize` is presentation only and is not modelled.
- JSX markup and styling, the portfolio's presentational components, build and module-federation configuration, and the AI assistant are not modelled.
- Share-token generation (`generateToken`, random bytes in base64url as section 5 of RFC 4648 defines it) is not modelled.
- Duplicated rules are modelled once: the prev/next rule of the submitted-album and upload views, the bookmark-disabled rule of the event photo card, and the form trimming in the settings and create-project views.

## Findings

| source | as written | input that shows it | evidently intended | confidence | as-written member | corrected member |
|---|---|---|---|---|---|---|
| pxel/src/lib/auth-query.ts:33 | A single-word name takes the first code unit of the untrimmed name. | `full_name` = " ada" gives the initial " ". | The first letter of the trimmed word, "A". | not executed; high that the output is blank, medium that it matters (names are rarely stored with leading spaces) | AuthQuery.UntrimmedSingleWord | AuthQuery.TrimmedInitialsAreNotBlank |
| pxel/src/views/MyBookmarks/MyBookmarksView.tsx:177-179 | `Math.min(currentIndex, remaining − 1)` with `currentIndex` = -1 when the removed photo is not in the previewed section. | A section holding only photo "a", removing photo id "b": the index is -1 and the preview photo becomes `remainingPhotos[-1]`, which is undefined. | An index inside the remaining photos (0 when the photo was not found). | not executed; low, since the page only removes the photo it previews | BookmarksPage.AbsentPhotoGivesNoIndex | BookmarksPage.NextIndex |
| auth/src/views/SignIn.js:34 | `RETURN_TO_LABELS[returnTo] \|\| returnTo` also finds the members every object inherits. | `?returnTo=toString` gives a function, so the heading is empty. `?returnTo=__proto__` gives `Object.prototype`, and rendering it throws. | The app label for the two known apps, else returnTo as text. | not executed; high that the lookup finds inherited members, low impact because only a hand-edited link reaches it | SignIn.InheritedKeyHeadings | SignIn.OwnLabelAgrees |
| pxel/src/lib/event-access.ts:59 | The copy of `formatProjectDate` in `event-access.ts` returns "â€”" for a missing date: the em dash's UTF-8 bytes read back as Windows-1252. | A project row with `project_date` null or "" opened through a share link: its My Events item shows the date "â€”". | The em dash "—" that `projects.ts:153` returns. | not executed; high, the bytes of the literal are C3 A2 E2 82 AC E2 80 9D | EventAccess.UndatedEventAsWritten | EventAccess.EventItem |
