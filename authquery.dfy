/** Display name and avatar initials of the signed-in user, as the photo app's
    `auth-query.ts` derives them from the session. */
module AuthQuery {
  import opened Strings

  /** The two metadata fields that are read; a missing key is `None`. */
  datatype Metadata = Metadata(fullName: Option<string>, name: Option<string>)

  /** The session's user: its metadata object, which may be absent, and its email. */
  datatype AuthUser = AuthUser(meta: Option<Metadata>, email: Option<string>)

  /** A string field that is present and non-empty, the way `||` tests it. */
  predicate Truthy(field: Option<string>) {
    field.Some? && field.value != []
  }

  /** `meta?.full_name || meta?.name || ""`. */
  function ChosenName(meta: Option<Metadata>): (r: string)
    ensures meta.Some? && Truthy(meta.value.fullName) ==> r == meta.value.fullName.value
    ensures meta.Some? && !Truthy(meta.value.fullName) && Truthy(meta.value.name) ==> r == meta.value.name.value
    ensures meta.None? ==> r == []
  {
    if meta.Some? && Truthy(meta.value.fullName) then meta.value.fullName.value
    else if meta.Some? && Truthy(meta.value.name) then meta.value.name.value
    else []
  }

  /** `email ?? ""`. */
  function EmailOrEmpty(email: Option<string>): string {
    if email.Some? then email.value else []
  }

  /** The display name once the name has been chosen: the trimmed name if it is not blank,
      otherwise the email or "". */
  function DisplayFor(chosen: string, email: Option<string>): (r: string)
    ensures !IsBlank(chosen) ==> r == Trim(chosen) && r != [] && IsTrimmed(r)
    ensures IsBlank(chosen) ==> r == EmailOrEmpty(email)
  {
    TrimEmptyIffBlank(chosen);
    if Trim(chosen) != [] then Trim(chosen) else EmailOrEmpty(email)
  }

  /** The initials drawn from a name: with two or more words, the first code units of the
      first and last word; with one word, the first code unit of `single`. */
  function WordInitials(parts: seq<string>, single: string): string
    requires |parts| >= 1
  {
    if |parts| >= 2 then ToUpper(CharAt0(parts[0]) + CharAt0(parts[|parts| - 1]))
    else ToUpper(CharAt0(single))
  }

  /** The initials once the name has been chosen: drawn from the words of the trimmed name, a
      single word giving the first code unit of the name as it was chosen, before trimming;
      without a name, the first code unit of the email; else "?". */
  function InitialsFor(chosen: string, email: Option<string>): (r: string)
  {
    var trimmed := Trim(chosen);
    if trimmed != [] then WordInitials(SplitWhitespace(trimmed), chosen)
    else if Truthy(email) then ToUpper(CharAt0(email.value))
    else "?"
  }

  /** `getDisplayName`: "" without a user. */
  function DisplayName(session: Option<AuthUser>): (r: string)
    ensures session.None? ==> r == []
    ensures session.Some? ==> r == DisplayFor(ChosenName(session.value.meta), session.value.email)
  {
    if session.None? then [] else DisplayFor(ChosenName(session.value.meta), session.value.email)
  }

  /** `getInitials`: "?" without a user. */
  function Initials(session: Option<AuthUser>): (r: string)
    ensures session.None? ==> r == "?"
    ensures session.Some? ==> r == InitialsFor(ChosenName(session.value.meta), session.value.email)
  {
    if session.None? then "?" else InitialsFor(ChosenName(session.value.meta), session.value.email)
  }

  /** Drawn from words, the initials are one or two code units: the words' first ones. */
  lemma WordInitialsShape(parts: seq<string>, single: string)
    requires |parts| >= 1 && AreWords(parts) && single != []
    ensures var r := WordInitials(parts, single);
      1 <= |r| <= 2 && (forall i :: 0 <= i < |r| ==> !('a' <= r[i] <= 'z'))
    ensures |parts| >= 2 ==> WordInitials(parts, single) == [UpperChar(parts[0][0]), UpperChar(parts[|parts| - 1][0])]
    ensures |parts| == 1 ==> WordInitials(parts, single) == [UpperChar(single[0])]
  {
    assert parts[0] != [] && parts[|parts| - 1] != [];
  }

  /** Initials are one or two code units, upper-cased. */
  lemma InitialsLength(chosen: string, email: Option<string>)
    ensures 1 <= |InitialsFor(chosen, email)| <= 2
    ensures var r := InitialsFor(chosen, email);
      forall i :: 0 <= i < |r| ==> !('a' <= r[i] <= 'z')
  {
    var trimmed := Trim(chosen);
    TrimEmptyIffBlank(chosen);
    if trimmed != [] {
      SplitTrimmedWords(trimmed);
      WordInitialsShape(SplitWhitespace(trimmed), chosen);
    }
  }

  /** With two or more words, the initials are the first code unit of the trimmed name and the
      first one of the last word, upper-cased. */
  lemma InitialsOfSeveralWords(chosen: string, email: Option<string>)
    requires Trim(chosen) != [] && |SplitWhitespace(Trim(chosen))| >= 2
    ensures var parts := SplitWhitespace(Trim(chosen));
      parts[|parts| - 1] != [] &&
      InitialsFor(chosen, email) == [UpperChar(Trim(chosen)[0]), UpperChar(parts[|parts| - 1][0])]
  {
    var trimmed := Trim(chosen);
    SplitTrimmedWords(trimmed);
    TrimEmptyIffBlank(chosen);
    WordInitialsShape(SplitWhitespace(trimmed), chosen);
  }

  /** Without a name, the initials come from the email, else "?". */
  lemma InitialsWithoutName(chosen: string, email: Option<string>)
    requires IsBlank(chosen)
    ensures InitialsFor(chosen, email) == if Truthy(email) then [UpperChar(email.value[0])] else "?"
  {
    TrimEmptyIffBlank(chosen);
  }

  /** A single word with leading whitespace gives a blank initial: the untrimmed name's first
      code unit is taken. */
  lemma UntrimmedSingleWord()
    ensures InitialsFor(" ada", None) == " "
  {
    var trimmed := Trim(" ada");
    TrimStartRemovesBlankPrefix(" ada");
    TrimEndRemovesBlankSuffix(TrimStart(" ada"));
    assert trimmed == "ada" by {
      assert TrimStart(" ada") == "ada";
      assert TrimEnd("ada") == "ada";
    }
    assert FirstSpace("ada") == 3;
    assert SplitWhitespace("ada") == ["ada"];
  }

  /** The initials with the single-word case taken from the trimmed name. */
  function InitialsTrimmedFor(chosen: string, email: Option<string>): (r: string)
  {
    var trimmed := Trim(chosen);
    if trimmed != [] then WordInitials(SplitWhitespace(trimmed), trimmed)
    else if Truthy(email) then ToUpper(CharAt0(email.value))
    else "?"
  }

  /** Upper-casing never turns a code unit into whitespace. */
  lemma UpperKeepsNonSpace(c: char)
    requires !IsSpace(c)
    ensures !IsSpace(UpperChar(c))
  {
  }

  /** Taken from the trimmed name, an initial drawn from the name is never whitespace. */
  lemma TrimmedInitialsAreNotBlank(chosen: string, email: Option<string>)
    requires !IsBlank(chosen)
    ensures var r := InitialsTrimmedFor(chosen, email);
      forall i :: 0 <= i < |r| ==> !IsSpace(r[i])
  {
    var trimmed := Trim(chosen);
    TrimEmptyIffBlank(chosen);
    SplitTrimmedWords(trimmed);
    var parts := SplitWhitespace(trimmed);
    WordInitialsShape(parts, trimmed);
    var last := parts[|parts| - 1];
    assert NoSpace(parts[0]) && NoSpace(last) && !IsSpace(trimmed[0]);
    assert !IsSpace(parts[0][0]) && !IsSpace(last[0]);
    UpperKeepsNonSpace(parts[0][0]);
    UpperKeepsNonSpace(last[0]);
    UpperKeepsNonSpace(trimmed[0]);
  }

  /** Both agree whenever the name does not start with whitespace. */
  lemma TrimmedInitialsAgree(chosen: string, email: Option<string>)
    requires chosen != [] && !IsSpace(chosen[0])
    ensures InitialsTrimmedFor(chosen, email) == InitialsFor(chosen, email)
  {
    var trimmed := Trim(chosen);
    TrimEmptyIffBlank(chosen);
    TrimStartRemovesBlankPrefix(chosen);
    var start := TrimStart(chosen);
    assert start[0] == chosen[0];
    TrimEndRemovesBlankSuffix(start);
    assert trimmed[0] == chosen[0];
    SplitTrimmedWords(trimmed);
    WordInitialsShape(SplitWhitespace(trimmed), trimmed);
    WordInitialsShape(SplitWhitespace(trimmed), chosen);
  }
}

/** The same two functions in the sign-in app's `auth-query.js`, over untyped metadata whose
    fields may be missing, `null` or a string. */
module AuthAppQuery {
  import opened Strings
  import AuthQuery

  datatype JsValue = Undefined | Null | Str(s: string)

  datatype JsMetadata = JsMetadata(fullName: JsValue, name: JsValue)

  /** The session's user; a missing or `null` metadata object is `None`. */
  datatype JsUser = JsUser(meta: Option<JsMetadata>, email: JsValue)

  predicate Truthy(v: JsValue) {
    v.Str? && v.s != []
  }

  /** `meta?.full_name || meta?.name || ''`. */
  function ChosenName(meta: Option<JsMetadata>): (r: string)
    ensures meta.Some? && Truthy(meta.value.fullName) ==> r == meta.value.fullName.s
    ensures meta.None? ==> r == []
  {
    if meta.Some? && Truthy(meta.value.fullName) then meta.value.fullName.s
    else if meta.Some? && Truthy(meta.value.name) then meta.value.name.s
    else []
  }

  /** `session.user.email`, with `undefined` and `null` as a missing email. */
  function Email(v: JsValue): Option<string> {
    if v.Str? then Some(v.s) else None
  }

  function DisplayName(session: Option<JsUser>): (r: string)
    ensures session.None? ==> r == []
  {
    if session.None? then []
    else AuthQuery.DisplayFor(ChosenName(session.value.meta), Email(session.value.email))
  }

  function Initials(session: Option<JsUser>): (r: string)
    ensures session.None? ==> r == "?"
  {
    if session.None? then "?"
    else AuthQuery.InitialsFor(ChosenName(session.value.meta), Email(session.value.email))
  }

  /** A typed session as the untyped code sees it: a missing field is `undefined`. */
  function FromTyped(s: Option<AuthQuery.AuthUser>): Option<JsUser> {
    match s
    case None => None
    case Some(u) =>
      var meta := match u.meta
        case None => None
        case Some(m) => Some(JsMetadata(FieldOf(m.fullName), FieldOf(m.name)));
      Some(JsUser(meta, FieldOf(u.email)))
  }

  function FieldOf(f: Option<string>): JsValue {
    if f.Some? then Str(f.value) else Undefined
  }

  /** An untyped session read the typed way: `null` and `undefined` fields are both missing. */
  function ToTyped(s: Option<JsUser>): Option<AuthQuery.AuthUser> {
    match s
    case None => None
    case Some(u) =>
      var meta := match u.meta
        case None => None
        case Some(m) => Some(AuthQuery.Metadata(Email(m.fullName), Email(m.name)));
      Some(AuthQuery.AuthUser(meta, Email(u.email)))
  }

  /** For every untyped session, `null` fields included, the sign-in app shows what the photo
      app shows for the same session read the typed way. */
  lemma SameForEveryJsSession(s: Option<JsUser>)
    ensures DisplayName(s) == AuthQuery.DisplayName(ToTyped(s))
    ensures Initials(s) == AuthQuery.Initials(ToTyped(s))
  {
    if s.Some? {
      var u := s.value;
      var t := ToTyped(s).value;
      assert ChosenName(u.meta) == AuthQuery.ChosenName(t.meta);
    }
  }

  /** For every typed session the two apps show the same display name and initials. */
  lemma SameAsPhotoApp(s: Option<AuthQuery.AuthUser>)
    ensures DisplayName(FromTyped(s)) == AuthQuery.DisplayName(s)
    ensures Initials(FromTyped(s)) == AuthQuery.Initials(s)
  {
    if s.Some? {
      var u := s.value;
      var js := FromTyped(s).value;
      assert ChosenName(js.meta) == AuthQuery.ChosenName(u.meta);
      assert Email(js.email) == u.email;
    }
  }
}
