/** Download naming for submitted albums: the safe filename segment, the
    suggested archive name, and the per-photo entry names that
    `buildPhotosZip` picks so that no two entries of the archive collide. */
module Submissions {
  import opened Strings

  // ---- safeFilenameSegment and suggestedZipFilename

  const DefaultSegment: string := "submission"

  /** Kept by `replace(/[^\w\s-]/g, "")`. */
  predicate IsSegmentSourceChar(c: char) {
    IsWordChar(c) || IsSpace(c) || c == '-'
  }

  /** Allowed in a finished segment. */
  predicate IsSegmentChar(c: char) {
    IsWordChar(c) || c == '-'
  }

  predicate AllSegmentChars(s: string) {
    forall i :: 0 <= i < |s| ==> IsSegmentChar(s[i])
  }

  /** `s.replace(/[^\w\s-]/g, "")`. */
  function DropUnsafe(s: string): (r: string)
    ensures |r| <= |s|
    ensures forall i :: 0 <= i < |r| ==> IsSegmentSourceChar(r[i])
  {
    if s == [] then []
    else if IsSegmentSourceChar(s[0]) then [s[0]] + DropUnsafe(s[1..])
    else DropUnsafe(s[1..])
  }

  /** `s.replace(/\s+/g, "-")` on a string that holds only segment characters and whitespace. */
  function DashRuns(s: string): (r: string)
    requires forall i :: 0 <= i < |s| ==> IsSegmentSourceChar(s[i])
    ensures AllSegmentChars(r)
    ensures |r| <= |s|
    ensures s != [] ==> r != []
    decreases |s|
  {
    if s == [] then []
    else if IsSpace(s[0]) then
      var rest := TrimStart(s);
      TrimStartRemovesBlankPrefix(s);
      assert forall i :: 0 <= i < |rest| ==> rest[i] == s[|s| - |rest| + i];
      SegmentCharsConcat("-", DashRuns(rest));
      "-" + DashRuns(rest)
    else
      assert forall i :: 0 <= i < |s| - 1 ==> s[1..][i] == s[i + 1];
      assert IsSegmentSourceChar(s[0]) && !IsSpace(s[0]);
      assert IsSegmentChar(s[0]);
      assert AllSegmentChars([s[0]]);
      SegmentCharsConcat([s[0]], DashRuns(s[1..]));
      [s[0]] + DashRuns(s[1..])
  }

  /** The filter works character by character: each safe character is kept, in order, and
      each other one dropped. */
  lemma {:induction false} DropUnsafeConcat(a: string, b: string)
    ensures DropUnsafe(a + b) == DropUnsafe(a) + DropUnsafe(b)
    decreases |a|
  {
    if a != [] {
      assert (a + b)[0] == a[0];
      assert (a + b)[1..] == a[1..] + b;
      DropUnsafeConcat(a[1..], b);
    } else {
      assert a + b == b;
    }
  }

  lemma DropUnsafeChar(c: char)
    ensures DropUnsafe([c]) == if IsSegmentSourceChar(c) then [c] else []
  {
    assert [c][1..] == [];
  }

  /** A blank prefix of a string that then goes on with a non-space is exactly what
      `trimStart` removes. */
  lemma {:induction false} TrimStartOfBlankPrefix(w: string, t: string)
    requires IsBlank(w) && (t == [] || !IsSpace(t[0]))
    ensures TrimStart(w + t) == t
    decreases |w|
  {
    if w == [] {
      assert w + t == t;
    } else {
      assert (w + t)[0] == w[0];
      assert (w + t)[1..] == w[1..] + t;
      TrimStartOfBlankPrefix(w[1..], t);
    }
  }

  /** A whitespace run becomes one dash. */
  lemma DashRunsOfBlankRun(w: string, t: string)
    requires w != [] && IsBlank(w) && (t == [] || !IsSpace(t[0]))
    requires forall i :: 0 <= i < |w + t| ==> IsSegmentSourceChar((w + t)[i])
    ensures forall i :: 0 <= i < |t| ==> IsSegmentSourceChar(t[i])
    ensures DashRuns(w + t) == "-" + DashRuns(t)
  {
    forall i | 0 <= i < |t| ensures IsSegmentSourceChar(t[i]) {
      assert t[i] == (w + t)[|w| + i];
    }
    assert (w + t)[0] == w[0];
    TrimStartOfBlankPrefix(w, t);
  }

  /** A character that is not whitespace is kept, and the rest goes on. */
  lemma DashRunsOfChar(c: char, t: string)
    requires !IsSpace(c)
    requires forall i :: 0 <= i < |[c] + t| ==> IsSegmentSourceChar(([c] + t)[i])
    ensures forall i :: 0 <= i < |t| ==> IsSegmentSourceChar(t[i])
    ensures DashRuns([c] + t) == [c] + DashRuns(t)
  {
    forall i | 0 <= i < |t| ensures IsSegmentSourceChar(t[i]) {
      assert t[i] == ([c] + t)[1 + i];
    }
    assert ([c] + t)[0] == c;
    assert ([c] + t)[1..] == t;
  }

  lemma SegmentCharsConcat(a: string, b: string)
    requires AllSegmentChars(a) && AllSegmentChars(b)
    ensures AllSegmentChars(a + b)
  {
    forall i | 0 <= i < |a + b| ensures IsSegmentChar((a + b)[i]) {
      if i >= |a| {
        assert (a + b)[i] == b[i - |a|];
      }
    }
  }

  /** `safeFilenameSegment`. The final `trim()` has nothing left to remove. */
  function SafeFilenameSegment(s: string): (r: string)
    ensures r != [] && AllSegmentChars(r)
  {
    var dashed := DashRuns(DropUnsafe(s));
    SegmentCharsAreTrimmed(dashed);
    var trimmed := Trim(dashed);
    if trimmed == [] then DefaultSegment else trimmed
  }

  /** Nothing a segment may hold is whitespace, so `trim()` keeps it. */
  lemma SegmentCharsAreTrimmed(s: string)
    requires AllSegmentChars(s)
    ensures Trim(s) == s
  {
    if |s| > 0 {
      assert IsSegmentChar(s[0]) && IsSegmentChar(s[|s| - 1]);
    }
    TrimOfTrimmed(s);
  }

  /** A segment made of word characters and single dashes is left as it is. */
  lemma SafeSegmentOfSafe(s: string)
    requires s != [] && AllSegmentChars(s)
    ensures SafeFilenameSegment(s) == s
  {
    assert DropUnsafe(s) == s by {
      DropUnsafeKeepsSafe(s);
    }
    DashRunsKeepsSafe(s);
    SegmentCharsAreTrimmed(s);
  }

  lemma {:induction false} DropUnsafeKeepsSafe(s: string)
    requires AllSegmentChars(s)
    ensures DropUnsafe(s) == s
    decreases |s|
  {
    if s != [] {
      assert AllSegmentChars(s[1..]) by {
        forall i | 0 <= i < |s[1..]| ensures IsSegmentChar(s[1..][i]) {
          assert s[1..][i] == s[i + 1];
        }
      }
      DropUnsafeKeepsSafe(s[1..]);
      assert IsSegmentChar(s[0]);
    }
  }

  lemma {:induction false} DashRunsKeepsSafe(s: string)
    requires AllSegmentChars(s)
    ensures DashRuns(s) == s
    decreases |s|
  {
    if s != [] {
      assert IsSegmentChar(s[0]);
      assert AllSegmentChars(s[1..]) by {
        forall i | 0 <= i < |s[1..]| ensures IsSegmentChar(s[1..][i]) {
          assert s[1..][i] == s[i + 1];
        }
      }
      DashRunsKeepsSafe(s[1..]);
    }
  }

  /** `suggestedZipFilename`; `datePart` is the `YYYY-MM-DD` prefix of the ISO date (the
      date conversion itself is not modelled). The name is a non-empty safe segment followed
      by `-`, the date and `.zip`. */
  function SuggestedZipFilename(projectName: string, datePart: string): (r: string)
    ensures var tail := "-" + datePart + ".zip";
      |r| > |tail| && r[|r| - |tail|..] == tail && AllSegmentChars(r[..|r| - |tail|])
  {
    var segment := SafeFilenameSegment(if projectName == [] then DefaultSegment else projectName);
    var tail := "-" + datePart + ".zip";
    assert (segment + tail)[..|segment|] == segment;
    segment + tail
  }

  lemma SubmissionIsSafe()
    ensures SafeFilenameSegment(DefaultSegment) == DefaultSegment
  {
    assert AllSegmentChars(DefaultSegment);
    SafeSegmentOfSafe(DefaultSegment);
  }

  /** An empty project name reads as "submission". */
  lemma EmptyProjectNameIsSubmission(datePart: string)
    ensures SuggestedZipFilename([], datePart) == DefaultSegment + ("-" + datePart + ".zip")
  {
    SubmissionIsSafe();
  }

  // ---- The numbered-name pattern /^(.+)-(\d+)(\.[^.]+)$/

  /** The three groups of a match: stem, the number read from the digits, extension. */
  datatype Numbered = Numbered(stem: string, n: nat, ext: string)

  /** A string `\.[^.]+` matches: a dot, then at least one code unit that is not a dot. */
  predicate IsDotExtension(ext: string) {
    |ext| >= 2 && ext[0] == '.' && forall i :: 1 <= i < |ext| ==> ext[i] != '.'
  }

  /** Group 1, `.+`: at least one code unit, none a line terminator. */
  predicate IsStem(stem: string) {
    stem != [] && NoLineTerminator(stem)
  }

  /** `name.match(/^(.+)-(\d+)(\.[^.]+)$/)`. The third group cannot contain a dot, so it starts
      at the last dot; the digits cannot contain a dash, so the second group follows the last
      dash before that dot; the first group is everything before. */
  function ParseNumbered(name: string): (r: Option<Numbered>)
    ensures r.Some? ==> IsStem(r.value.stem) && IsDotExtension(r.value.ext)
  {
    var dot := LastIndexOf(name, '.');
    if dot < 0 then None
    else
      var ext := name[dot..];
      var front := name[..dot];
      var dash := LastIndexOf(front, '-');
      if dash < 1 then None
      else
        var stem := front[..dash];
        var digits := front[dash + 1..];
        if |ext| < 2 || digits == [] || !AllDigits(digits) || !NoLineTerminator(stem) then None
        else Some(Numbered(stem, DigitsValue(digits), ext))
  }

  /** `${stem}-${n}${ext}`. */
  function NumberedName(stem: string, n: nat, ext: string): string {
    stem + "-" + NatToString(n) + ext
  }

  lemma LastIndexOfConcatFound(a: string, b: string, c: char)
    requires c in b
    ensures LastIndexOf(a + b, c) == |a| + LastIndexOf(b, c)
  {
    var k := LastIndexOf(b, c);
    var s := a + b;
    assert s[|a| + k] == b[k];
    forall j | |a| + k < j < |s| ensures s[j] != c {
      assert s[j] == b[j - |a|];
    }
  }

  lemma LastIndexOfConcatMissing(a: string, b: string, c: char)
    requires c !in b
    ensures LastIndexOf(a + b, c) == LastIndexOf(a, c)
  {
    var s := a + b;
    var m := LastIndexOf(s, c);
    var k := LastIndexOf(a, c);
    if k >= 0 {
      assert s[k] == a[k];
    }
    if m >= 0 {
      assert a[m] == s[m];
    }
  }

  lemma DigitsHaveNoDotOrDash(d: string)
    requires AllDigits(d)
    ensures '.' !in d && '-' !in d
  {
  }

  /** A name built from a stem, a number and an extension matches the pattern and gives
      back the same three parts. */
  lemma ParseNumberedName(stem: string, n: nat, ext: string)
    requires IsStem(stem) && IsDotExtension(ext)
    ensures ParseNumbered(NumberedName(stem, n, ext)) == Some(Numbered(stem, n, ext))
  {
    var digits := NatToString(n);
    var front := stem + "-" + digits;
    var name := front + ext;
    assert name == NumberedName(stem, n, ext);
    DigitsHaveNoDotOrDash(digits);
    assert LastIndexOf(ext, '.') == 0;
    LastIndexOfConcatFound(front, ext, '.');
    assert name[..|front|] == front;
    assert name[|front|..] == ext;
    assert LastIndexOf(stem + "-", '-') == |stem|;
    LastIndexOfConcatMissing(stem + "-", digits, '-');
    assert front[..|stem|] == stem;
    assert front[|stem| + 1..] == digits;
    DigitsValueOfNatToString(n);
  }

  /** A matching name is its stem, a dash, digits that read as its number, and its extension. */
  lemma NumberedNameOfParse(name: string)
    requires ParseNumbered(name).Some?
    ensures var p := ParseNumbered(name).value;
      exists digits :: AllDigits(digits) && digits != [] && DigitsValue(digits) == p.n
        && name == p.stem + "-" + digits + p.ext
  {
    var dot := LastIndexOf(name, '.');
    var front := name[..dot];
    var dash := LastIndexOf(front, '-');
    var digits := front[dash + 1..];
    assert front == front[..dash] + "-" + digits;
    assert name == front + name[dot..];
  }

  // ---- Picking an unused entry name

  /** `photo.filename || "image.jpg"`. */
  function DefaultName(filename: string): (r: string)
    ensures r != []
  {
    if filename == [] then "image.jpg" else filename
  }

  /** `name.replace(/\.[^.]+$/, "") || "image"`: the name without a final dot extension. */
  function BaseOf(name: string): (r: string)
    ensures r != []
  {
    var dot := LastIndexOf(name, '.');
    var stripped := if 0 <= dot < |name| - 1 then name[..dot] else name;
    if stripped == [] then "image" else stripped
  }

  /** `name.includes(".") ? name.slice(name.lastIndexOf(".")) : ".jpg"`. */
  function ExtOf(name: string): (r: string)
    ensures r != [] && r[0] == '.'
  {
    var dot := LastIndexOf(name, '.');
    if dot < 0 then ".jpg" else name[dot..]
  }

  /** The replacement tried when a taken name does not match the pattern:
      `${base}-${usedNames.size}${ext}`. `usedNames.size` does not change inside the loop. */
  function Fallback(original: string, usedCount: nat): string {
    BaseOf(original) + "-" + NatToString(usedCount) + ExtOf(original)
  }

  /** One turn of the `while (usedNames.has(name))` loop. */
  function NextName(name: string, fallback: string): string {
    match ParseNumbered(name)
    case Some(p) => NumberedName(p.stem, p.n + 1, p.ext)
    case None => fallback
  }

  /** The loop never ends: the name is taken and does not match, and neither does the
      fallback, which is taken as well, so the fallback is tried again and again. */
  predicate Hangs(used: set<string>, name: string, fallback: string) {
    name in used && ParseNumbered(name).None? && fallback in used && ParseNumbered(fallback).None?
  }

  /** Taken names with the same stem and extension and a number at least `p.n`. */
  function TakenFrom(used: set<string>, p: Numbered): set<string> {
    set u | u in used && ParseNumbered(u).Some? && ParseNumbered(u).value.stem == p.stem
      && ParseNumbered(u).value.ext == p.ext && ParseNumbered(u).value.n >= p.n
  }

  /** The termination measure of the loop: first whether the name is taken without matching,
      then how many taken numbered names remain above the current number. */
  function Stage(used: set<string>, name: string): nat {
    if name in used && ParseNumbered(name).None? then 1 else 0
  }

  function Remaining(used: set<string>, name: string): nat {
    match ParseNumbered(name)
    case Some(p) => |TakenFrom(used, p)|
    case None => 0
  }

  lemma RemainingDecreases(used: set<string>, name: string, fallback: string)
    requires name in used && ParseNumbered(name).Some?
    ensures Stage(used, NextName(name, fallback)) == 0
    ensures Remaining(used, NextName(name, fallback)) < Remaining(used, name)
  {
    var p := ParseNumbered(name).value;
    var q := Numbered(p.stem, p.n + 1, p.ext);
    ParseNumberedName(p.stem, p.n + 1, p.ext);
    assert ParseNumbered(NextName(name, fallback)) == Some(q);
    var before := TakenFrom(used, p);
    var after := TakenFrom(used, q);
    assert after <= before;
    assert name in before && name !in after;
    assert after < before;
    SubsetCardinality(after, before);
  }

  lemma SubsetCardinality(a: set<string>, b: set<string>)
    requires a < b
    ensures |a| < |b|
  {
    var x :| x in b && x !in a;
    assert a <= b - {x};
    assert |b - {x}| == |b| - 1;
    SubsetCardinalityWeak(a, b - {x});
  }

  lemma SubsetCardinalityWeak(a: set<string>, b: set<string>)
    requires a <= b
    ensures |a| <= |b|
  {
    assert b == a + (b - a);
  }

  /** 2^53: from here on a JavaScript number no longer holds every integer. */
  const ExactLimit: nat := 0x20_0000_0000_0000

  /** Every number the loop bumps is below 2^53, so `parseInt(match[2], 10) + 1` is the exact
      successor and prints as its decimal digits. At 2^53 the sum rounds back to 2^53 and the
      name never changes; above it `parseInt` itself rounds. */
  predicate ExactBumps(used: set<string>, name: string, fallback: string)
    requires !Hangs(used, name, fallback)
    decreases Stage(used, name), Remaining(used, name)
  {
    name !in used ||
    match ParseNumbered(name)
    case Some(p) =>
      RemainingDecreases(used, name, fallback);
      p.n < ExactLimit && ExactBumps(used, NextName(name, fallback), fallback)
    case None => ExactBumps(used, fallback, fallback)
  }

  /** The name the loop settles on, from `name`, when the fallback is `fallback`, with
      numbers as unbounded integers. */
  function FreeName(used: set<string>, name: string, fallback: string): (r: string)
    requires !Hangs(used, name, fallback)
    ensures r !in used
    ensures name !in used ==> r == name
    decreases Stage(used, name), Remaining(used, name)
  {
    if name !in used then name
    else
      var next := NextName(name, fallback);
      if ParseNumbered(name).Some? then
        RemainingDecreases(used, name, fallback);
        FreeName(used, next, fallback)
      else
        FreeName(used, next, fallback)
  }

  /** A taken name that matches the pattern moves to the first free number above its own,
      keeping its stem and extension. */
  lemma {:induction false} FreeNameKeepsFamily(used: set<string>, name: string, fallback: string)
    requires name in used && ParseNumbered(name).Some?
    ensures var p := ParseNumbered(name).value;
      var q := ParseNumbered(FreeName(used, name, fallback));
      q.Some? && q.value.stem == p.stem && q.value.ext == p.ext && q.value.n > p.n
    decreases Remaining(used, name)
  {
    var p := ParseNumbered(name).value;
    var next := NextName(name, fallback);
    RemainingDecreases(used, name, fallback);
    ParseNumberedName(p.stem, p.n + 1, p.ext);
    assert ParseNumbered(next) == Some(Numbered(p.stem, p.n + 1, p.ext));
    assert FreeName(used, name, fallback) == FreeName(used, next, fallback);
    if next in used {
      FreeNameKeepsFamily(used, next, fallback);
    } else {
      assert FreeName(used, next, fallback) == next;
    }
  }

  /** A taken name that does not match the pattern is replaced by the fallback, and the
      loop goes on from there; an untaken fallback is the result. */
  lemma FreeNameOfUnnumbered(used: set<string>, name: string, fallback: string)
    requires name in used && ParseNumbered(name).None? && !Hangs(used, name, fallback)
    ensures !Hangs(used, fallback, fallback)
    ensures FreeName(used, name, fallback) == FreeName(used, fallback, fallback)
    ensures fallback !in used ==> FreeName(used, name, fallback) == fallback
  {
  }

  /** The `while (usedNames.has(name))` loop of `buildPhotosZip` for one photo. */
  method UniqueName(used: set<string>, filename: string) returns (name: string)
    requires !Hangs(used, DefaultName(filename), Fallback(DefaultName(filename), |used|))
    requires ExactBumps(used, DefaultName(filename), Fallback(DefaultName(filename), |used|))
    ensures name == FreeName(used, DefaultName(filename), Fallback(DefaultName(filename), |used|))
    ensures name !in used
  {
    name := DefaultName(filename);
    var base := BaseOf(name);
    var ext := ExtOf(name);
    ghost var fallback := Fallback(name, |used|);
    ghost var original := name;
    while name in used
      invariant !Hangs(used, name, fallback)
      invariant FreeName(used, name, fallback) == FreeName(used, original, fallback)
      decreases Stage(used, name), Remaining(used, name)
    {
      var groups := ParseNumbered(name);
      if groups.Some? {
        RemainingDecreases(used, name, fallback);
        name := groups.value.stem + "-" + NatToString(groups.value.n + 1) + groups.value.ext;
      } else {
        name := base + "-" + NatToString(|used|) + ext;
      }
    }
  }

  /** The loop does hang: with "a." and "a.-2." taken, a second "a." gets the fallback
      "a.-2.", which is taken and, ending in a bare dot, never matches. */
  lemma HangingExample()
    ensures Hangs({"a.", "a.-2."}, "a.", Fallback("a.", 2))
  {
    var used: set<string> := {"a.", "a.-2."};
    assert LastIndexOf("a.", '.') == 1;
    assert ParseNumbered("a.").None?;
    assert BaseOf("a.") == "a.";
    assert ExtOf("a.") == ".";
    assert NatToString(2) == "2";
    assert Fallback("a.", 2) == "a.-2.";
    assert LastIndexOf("a.-2.", '.') == 4;
    assert ParseNumbered("a.-2.").None?;
  }

  // ---- buildPhotosZip

  /** The parts of a photo the archive uses; an empty `url` is a missing one. */
  datatype ZipPhoto = ZipPhoto(url: string, filename: string)

  /** The naming loop gets past this photo when `used` are the names taken before it. */
  predicate CanName(photo: ZipPhoto, used: set<string>) {
    var name := DefaultName(photo.filename);
    photo.url != [] ==> !Hangs(used, name, Fallback(name, |used|)) && ExactBumps(used, name, Fallback(name, |used|))
  }

  /** The name one photo reserves, `None` for a photo without a url (it is skipped
      before a name is picked). */
  function ReservedBy(photo: ZipPhoto, used: set<string>): (r: Option<string>)
    requires CanName(photo, used)
    ensures r.None? <==> photo.url == []
    ensures r.Some? ==> r.value !in used
  {
    if photo.url == [] then None
    else Some(FreeName(used, DefaultName(photo.filename), Fallback(DefaultName(photo.filename), |used|)))
  }

  /** The names taken once one photo has been named. */
  function UsedAfter(photo: ZipPhoto, used: set<string>): set<string>
    requires CanName(photo, used)
  {
    match ReservedBy(photo, used)
    case None => used
    case Some(name) => used + {name}
  }

  /** The loop gets past every photo, starting with no name taken. */
  predicate NamingEnds(photos: seq<ZipPhoto>)
    decreases |photos|, 0
  {
    photos == [] ||
    var n := |photos| - 1;
    NamingEnds(photos[..n]) && CanName(photos[n], UsedBy(photos[..n]))
  }

  /** `usedNames` once the loop has been through `photos`. */
  function UsedBy(photos: seq<ZipPhoto>): set<string>
    requires NamingEnds(photos)
    decreases |photos|, 1
  {
    if photos == [] then {}
    else
      var n := |photos| - 1;
      UsedAfter(photos[n], UsedBy(photos[..n]))
  }

  /** The entry name each photo reserves, in photo order. */
  function EntryNames(photos: seq<ZipPhoto>): (names: seq<Option<string>>)
    requires NamingEnds(photos)
    ensures |names| == |photos|
    decreases |photos|
  {
    if photos == [] then []
    else
      var n := |photos| - 1;
      EntryNames(photos[..n]) + [ReservedBy(photos[n], UsedBy(photos[..n]))]
  }

  /** A photo has no entry name exactly when it has no url. */
  lemma {:induction false} EntryNamesSkipMissing(photos: seq<ZipPhoto>)
    requires NamingEnds(photos)
    ensures var names := EntryNames(photos);
      forall i :: 0 <= i < |photos| ==> (names[i].None? <==> photos[i].url == [])
    decreases |photos|
  {
    if photos != [] {
      var n := |photos| - 1;
      EntryNamesSkipMissing(photos[..n]);
      var names := EntryNames(photos);
      var r := ReservedBy(photos[n], UsedBy(photos[..n]));
      assert names == EntryNames(photos[..n]) + [r];
      assert r.None? <==> photos[n].url == [];
      forall i | 0 <= i < |photos| ensures names[i].None? <==> photos[i].url == [] {
        if i < n {
          assert names[i] == EntryNames(photos[..n])[i] && photos[i] == photos[..n][i];
        } else {
          assert i == n;
          assert names[i] == r;
        }
      }
    }
  }

  /** The taken names are exactly the names reserved so far. */
  lemma {:induction false} UsedByIsReserved(photos: seq<ZipPhoto>)
    requires NamingEnds(photos)
    ensures forall x :: x in UsedBy(photos) <==> Some(x) in EntryNames(photos)
    decreases |photos|
  {
    if photos != [] {
      var n := |photos| - 1;
      UsedByIsReserved(photos[..n]);
    }
  }

  predicate DistinctNames(names: seq<Option<string>>) {
    forall i, j :: 0 <= i < j < |names| && names[i].Some? && names[j].Some? ==>
      names[i].value != names[j].value
  }

  /** No two photos reserve the same name. */
  lemma {:induction false} EntryNamesDistinct(photos: seq<ZipPhoto>)
    requires NamingEnds(photos)
    ensures DistinctNames(EntryNames(photos))
    decreases |photos|
  {
    if photos != [] {
      var n := |photos| - 1;
      var front := EntryNames(photos[..n]);
      var names := EntryNames(photos);
      EntryNamesDistinct(photos[..n]);
      UsedByIsReserved(photos[..n]);
      assert names == front + [names[n]];
      forall i, j | 0 <= i < j < |names| && names[i].Some? && names[j].Some?
        ensures names[i].value != names[j].value
      {
        assert names[i] == front[i];
        if j == n {
          assert names[i].value in UsedBy(photos[..n]);
        } else {
          assert names[j] == front[j];
        }
      }
    }
  }

  /** The archive entry, if any, that one photo contributes. */
  function EntryOf(name: Option<string>, fetched: bool): seq<string> {
    if name.Some? && fetched then [name.value] else []
  }

  /** What reaches the archive: the entry names whose photo was fetched, in photo order. */
  function ArchiveEntries(names: seq<Option<string>>, fetched: seq<bool>): (entries: seq<string>)
    requires |fetched| == |names|
    ensures |entries| <= |names|
    decreases |names|
  {
    if names == [] then []
    else
      var n := |names| - 1;
      ArchiveEntries(names[..n], fetched[..n]) + EntryOf(names[n], fetched[n])
  }

  /** Photos without a url, plus photos whose fetch failed. */
  function FailedCount(names: seq<Option<string>>, fetched: seq<bool>): (n: nat)
    requires |fetched| == |names|
    ensures n == |names| - |ArchiveEntries(names, fetched)|
    decreases |names|
  {
    if names == [] then 0
    else
      var n := |names| - 1;
      FailedCount(names[..n], fetched[..n]) + (if names[n].Some? && fetched[n] then 0 else 1)
  }

  predicate NoDuplicates(s: seq<string>) {
    forall i, j :: 0 <= i < j < |s| ==> s[i] != s[j]
  }

  /** Every archive entry has a distinct name, and each is the name of one of the photos. */
  lemma {:induction false} ArchiveEntriesDistinct(names: seq<Option<string>>, fetched: seq<bool>)
    requires |fetched| == |names| && DistinctNames(names)
    ensures NoDuplicates(ArchiveEntries(names, fetched))
    ensures forall x :: x in ArchiveEntries(names, fetched) ==> Some(x) in names
    decreases |names|
  {
    if names != [] {
      var n := |names| - 1;
      var front := names[..n];
      assert names == front + [names[n]];
      assert DistinctNames(front) by {
        forall i, j | 0 <= i < j < |front| && front[i].Some? && front[j].Some?
          ensures front[i].value != front[j].value
        {
          assert front[i] == names[i] && front[j] == names[j];
        }
      }
      ArchiveEntriesDistinct(front, fetched[..n]);
      var prev := ArchiveEntries(front, fetched[..n]);
      var e := ArchiveEntries(names, fetched);
      assert e == prev + EntryOf(names[n], fetched[n]);
      forall x | x in e ensures Some(x) in names {
        if x in prev {
          var k :| 0 <= k < |front| && front[k] == Some(x);
          assert names[k] == front[k];
        } else {
          assert names[n] == Some(x);
        }
      }
      if names[n].Some? && fetched[n] {
        forall i, j | 0 <= i < j < |e| ensures e[i] != e[j] {
          if j == |prev| {
            assert prev[i] in prev;
            var k :| 0 <= k < |front| && front[k] == Some(prev[i]);
            assert names[k] == front[k] && k < n;
            assert names[k].value != names[n].value;
            assert e[i] == prev[i] && e[j] == names[n].value;
          } else {
            assert e[i] == prev[i] && e[j] == prev[j];
          }
        }
      } else {
        assert e == prev;
      }
    }
  }

  /** A photo the loop has been through stays as it was named. */
  lemma {:induction false} NamingEndsPrefix(photos: seq<ZipPhoto>, i: nat)
    requires NamingEnds(photos) && i <= |photos|
    ensures NamingEnds(photos[..i])
    decreases |photos|
  {
    if i < |photos| {
      var n := |photos| - 1;
      assert photos[..n][..i] == photos[..i];
      NamingEndsPrefix(photos[..n], i);
    } else {
      assert photos[..i] == photos;
    }
  }

  /** What one turn of the photo loop reserves. */
  lemma ZipStep(photos: seq<ZipPhoto>, i: nat)
    requires i < |photos| && NamingEnds(photos[..i + 1])
    ensures NamingEnds(photos[..i]) && CanName(photos[i], UsedBy(photos[..i]))
    ensures UsedBy(photos[..i + 1]) == UsedAfter(photos[i], UsedBy(photos[..i]))
    ensures EntryNames(photos[..i + 1]) == EntryNames(photos[..i]) + [ReservedBy(photos[i], UsedBy(photos[..i]))]
  {
    assert photos[..i + 1][..i] == photos[..i];
  }

  /** One more photo adds its entry, or one failure. */
  lemma ArchiveStep(names: seq<Option<string>>, fetched: seq<bool>, name: Option<string>, ok: bool)
    requires |names| == |fetched|
    ensures ArchiveEntries(names + [name], fetched + [ok]) == ArchiveEntries(names, fetched) + EntryOf(name, ok)
    ensures FailedCount(names + [name], fetched + [ok])
      == FailedCount(names, fetched) + (if name.Some? && ok then 0 else 1)
  {
    assert (names + [name])[..|names|] == names && (fetched + [ok])[..|names|] == fetched;
  }

  /** `uniqueName` for a photo with a url, and the name added to the taken ones. */
  method NamePhoto(used: set<string>, photo: ZipPhoto) returns (name: string)
    requires photo.url != [] && CanName(photo, used)
    ensures ReservedBy(photo, used) == Some(name)
    ensures UsedAfter(photo, used) == used + {name}
  {
    name := UniqueName(used, photo.filename);
  }

  /** `buildPhotosZip` over the photos; `fetched[i]` says whether the fetch of photo `i`
      returned an OK response whose body was read. Returns the archive's entry names, in
      order, and the failure count. */
  method BuildPhotosZip(photos: seq<ZipPhoto>, fetched: seq<bool>) returns (entries: seq<string>, failedCount: nat)
    requires |fetched| == |photos|
    requires NamingEnds(photos)
    ensures entries == ArchiveEntries(EntryNames(photos), fetched)
    ensures failedCount == FailedCount(EntryNames(photos), fetched)
    ensures failedCount + |entries| == |photos|
  {
    var usedNames: set<string> := {};
    entries := [];
    failedCount := 0;
    var i := 0;
    while i < |photos|
      invariant 0 <= i <= |photos|
      invariant NamingEnds(photos[..i])
      invariant usedNames == UsedBy(photos[..i])
      invariant entries == ArchiveEntries(EntryNames(photos[..i]), fetched[..i])
      invariant failedCount == FailedCount(EntryNames(photos[..i]), fetched[..i])
    {
      var photo := photos[i];
      NamingEndsPrefix(photos, i + 1);
      ZipStep(photos, i);
      ghost var reserved := ReservedBy(photo, usedNames);
      ghost var next := UsedAfter(photo, usedNames);
      ArchiveStep(EntryNames(photos[..i]), fetched[..i], reserved, fetched[i]);
      TakeOneMore(fetched, i);
      if photo.url == [] {
        failedCount := failedCount + 1;
      } else {
        var name := NamePhoto(usedNames, photo);
        usedNames := usedNames + {name};
        if fetched[i] {
          entries := entries + [name];
        } else {
          failedCount := failedCount + 1;
        }
      }
      assert usedNames == next;
      i := i + 1;
    }
    assert photos[..i] == photos && fetched[..i] == fetched;
  }

  /** Two photos named "a." then "a.-2." keep their names. */
  lemma TwoPhotosNamed(two: seq<ZipPhoto>)
    requires two == [ZipPhoto("u", "a."), ZipPhoto("u", "a.-2.")]
    ensures NamingEnds(two) && UsedBy(two) == {"a.", "a.-2."}
  {
    var one := [ZipPhoto("u", "a.")];
    assert two[..1] == one && one[..0] == [];
    assert UsedBy(one) == {"a."};
    assert "a.-2." !in {"a."};
    assert ReservedBy(two[1], {"a."}) == Some("a.-2.");
  }

  /** A taken name numbered 2^53: the loop would bump it, but 2^53 + 1 rounds back to 2^53
      in JavaScript, so the source never leaves it. No plain hang is involved. */
  lemma PrecisionLimitExample()
    ensures var name := NumberedName("x", ExactLimit, ".jpg");
      ParseNumbered(name) == Some(Numbered("x", ExactLimit, ".jpg"))
      && !Hangs({name}, name, Fallback(name, 1))
      && !ExactBumps({name}, name, Fallback(name, 1))
  {
    ParseNumberedName("x", ExactLimit, ".jpg");
  }

  /** Two photos both named "x-9007199254740992.jpg" (the number is 2^53) are past what the
      model covers: the second one's bump is not exact. */
  lemma PrecisionLimitPhotos()
    ensures var name := NumberedName("x", ExactLimit, ".jpg");
      !NamingEnds([ZipPhoto("u", name), ZipPhoto("u", name)])
  {
    var name := NumberedName("x", ExactLimit, ".jpg");
    var photos := [ZipPhoto("u", name), ZipPhoto("u", name)];
    var one := [ZipPhoto("u", name)];
    assert photos[..1] == one && one[..0] == [];
    assert name != [];
    assert UsedBy(one) == {name};
    PrecisionLimitExample();
  }

  /** Three photos that make the loop hang: the third "a." finds "a." and "a.-2." taken. */
  lemma HangingPhotos()
    ensures !NamingEnds([ZipPhoto("u", "a."), ZipPhoto("u", "a.-2."), ZipPhoto("u", "a.")])
  {
    var photos := [ZipPhoto("u", "a."), ZipPhoto("u", "a.-2."), ZipPhoto("u", "a.")];
    var two := photos[..2];
    assert two == [ZipPhoto("u", "a."), ZipPhoto("u", "a.-2.")];
    TwoPhotosNamed(two);
    HangingExample();
  }
}
