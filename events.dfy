/** The client's side of shared events, as `event-access.ts` reads them: opening an event by
    its share token, and listing the events the user has opened before. The Supabase answers
    are parameters. */
module EventAccess {
  import opened Strings
  import opened Photos
  import Projects

  const InvalidLinkMessage: string := "Invalid or expired link."
  const LoadEventFailedMessage: string := "Failed to load event."
  const EventNotFoundMessage: string := "Event not found."
  const NotFoundCode: string := "PGRST116"
  const NotSignedInMessage: string := "You must be signed in."
  const LoadEventsFailedMessage: string := "Failed to load events."
  const UntitledTitle: string := "Untitled"

  /** An error of the `get_event_by_token` call; a missing field is `None`. */
  datatype RpcError = RpcError(message: Option<string>, code: Option<string>)

  /** A photo row as the call returns it. */
  datatype PhotoRow = PhotoRow(id: string, url: string, filename: string, publicId: Option<string>)

  /** The event's project: the row fields the event pages read. */
  datatype EventProject = EventProject(id: int, projectName: Option<string>, projectDate: Option<string>,
                                       coverUrl: Option<string>)

  /** The call's `data`: its project and photo list, either of which may be missing. */
  datatype RpcData = RpcData(project: Option<EventProject>, photos: Option<seq<PhotoRow>>)

  /** How the call ends: an error, or data that may itself be `null`. */
  datatype RpcAnswer = RpcFailed(error: RpcError) | RpcReturned(data: Option<RpcData>)

  datatype EventView = EventView(project: EventProject, photos: seq<Photo>)

  /** The error says the link is bad: its message contains "invalid" in any case, or its code is
      the no-row code. */
  predicate MarksInvalidLink(e: RpcError) {
    (e.message.Some? && Contains(ToLower(e.message.value), "invalid")) || e.code == Some(NotFoundCode)
  }

  /** The message `getEventByToken` throws for an error of the call. */
  function RpcErrorMessage(e: RpcError): (m: string)
    ensures m != []
  {
    if MarksInvalidLink(e) then InvalidLinkMessage
    else MessageOr(if e.message.Some? then e.message.value else [], LoadEventFailedMessage)
  }

  /** Lower-casing keeps prefixes. */
  lemma LowerKeepsPrefix(p: string, s: string)
    requires p <= s
    ensures ToLower(p) <= ToLower(s)
  {
    assert forall i :: 0 <= i < |p| ==> ToLower(p)[i] == ToLower(s)[i];
  }

  lemma InvalidInLowerCase()
    ensures Contains(ToLower(InvalidLinkMessage), "invalid")
  {
    assert "Invalid" <= InvalidLinkMessage;
    LowerKeepsPrefix("Invalid", InvalidLinkMessage);
    LowerInvalid();
  }

  lemma LowerInvalid()
    ensures ToLower("Invalid") == "invalid"
  {
    var s := "Invalid";
    assert s[1..] == "nvalid";
    assert ToLower(s[1..]) == s[1..];
    assert LowerChar('I') == 'i';
  }

  /** The invalid-link message is thrown exactly for the errors that mark the link invalid; the
      others throw their own message, or the default when it is empty. */
  lemma {:induction false} InvalidLinkIff(e: RpcError)
    ensures RpcErrorMessage(e) == InvalidLinkMessage <==> MarksInvalidLink(e)
    ensures !MarksInvalidLink(e) ==>
      RpcErrorMessage(e) == (if e.message.Some? && e.message.value != [] then e.message.value else LoadEventFailedMessage)
  {
    if !MarksInvalidLink(e) && e.message.Some? && e.message.value == InvalidLinkMessage {
      InvalidInLowerCase();
      assert false;
    }
    assert LoadEventFailedMessage[0] != InvalidLinkMessage[0];
  }

  /** The row mapping of `getEventByToken`: a missing public id stays missing, size and
      dimensions are empty. */
  function PhotoOfRow(row: PhotoRow): (p: Photo)
    ensures (p.id, p.url, p.filename, p.publicId) == (row.id, row.url, row.filename, row.publicId)
  {
    Photo(row.id, row.url, row.filename, row.publicId, "", "")
  }

  function PhotosOfRows(rows: seq<PhotoRow>): (photos: seq<Photo>)
    ensures |photos| == |rows|
    ensures forall i :: 0 <= i < |rows| ==> photos[i] == PhotoOfRow(rows[i])
  {
    if rows == [] then [] else [PhotoOfRow(rows[0])] + PhotosOfRows(rows[1..])
  }

  /** `getEventByToken`: the error mapping, then a missing project, then the photos, an absent
      list counting as empty. */
  function GetEventByToken(answer: RpcAnswer): (r: Result<EventView>)
    ensures answer.RpcFailed? ==> r == Err(RpcErrorMessage(answer.error))
    ensures answer.RpcReturned? && (answer.data.None? || answer.data.value.project.None?) ==>
      r == Err(EventNotFoundMessage)
    ensures r.Ok? <==> answer.RpcReturned? && answer.data.Some? && answer.data.value.project.Some?
    ensures r.Ok? ==> r.value.project == answer.data.value.project.value
    ensures r.Ok? ==> var rows := if answer.data.value.photos.Some? then answer.data.value.photos.value else [];
      |r.value.photos| == |rows| &&
      forall i :: 0 <= i < |rows| ==>
        r.value.photos[i].id == rows[i].id && r.value.photos[i].url == rows[i].url
        && r.value.photos[i].filename == rows[i].filename && r.value.photos[i].publicId == rows[i].publicId
        && r.value.photos[i].size == [] && r.value.photos[i].dimensions == []
  {
    match answer
    case RpcFailed(e) => Err(RpcErrorMessage(e))
    case RpcReturned(data) =>
      if data.None? || data.value.project.None? then Err(EventNotFoundMessage)
      else
        var rows := if data.value.photos.Some? then data.value.photos.value else [];
        Ok(EventView(data.value.project.value, PhotosOfRows(rows)))
  }

  /** A link that is just gone, or an upper-case "INVALID" message, gives the invalid-link
      message. */
  lemma ExpiredLinkExamples()
    ensures GetEventByToken(RpcFailed(RpcError(None, Some(NotFoundCode)))) == Err(InvalidLinkMessage)
    ensures GetEventByToken(RpcFailed(RpcError(Some("INVALID"), None))) == Err(InvalidLinkMessage)
  {
    assert Contains(ToLower("INVALID"), "invalid") by {
      assert ToLower("INVALID") == "invalid";
    }
  }

  /** A `project_share_links` row. */
  datatype LinkRow = LinkRow(projectId: int, token: string)

  /** The rows of `projects` that are read. */
  datatype ProjectRow = ProjectRow(id: int, projectName: Option<string>, projectDate: Option<string>,
                                   coverUrl: Option<string>)

  datatype MyEventItem = MyEventItem(projectId: int, title: string, date: Projects.DateText,
                                     thumbnail: string, token: string)

  /** The token map `getMyEvents` builds, as each prefix of the link rows leaves it: a project
      already in the map keeps its token. */
  function FirstTokens(links: seq<LinkRow>): (m: map<int, string>)
    ensures forall p :: p in m <==> exists i :: 0 <= i < |links| && links[i].projectId == p
  {
    if links == [] then map[]
    else
      var m := FirstTokens(links[..|links| - 1]);
      var row := links[|links| - 1];
      assert forall i :: 0 <= i < |links| - 1 ==> links[..|links| - 1][i] == links[i];
      if row.projectId in m then m else m[row.projectId := row.token]
  }

  /** For each project the token is that of its first link row. */
  lemma {:induction false} FirstTokenWins(links: seq<LinkRow>, i: nat)
    requires i < |links|
    requires forall j :: 0 <= j < i ==> links[j].projectId != links[i].projectId
    ensures links[i].projectId in FirstTokens(links)
    ensures FirstTokens(links)[links[i].projectId] == links[i].token
  {
    var n := |links| - 1;
    var front := links[..n];
    if i < n {
      assert forall j :: 0 <= j < i ==> front[j].projectId != front[i].projectId;
      FirstTokenWins(front, i);
    } else {
      assert forall j :: 0 <= j < n ==> front[j].projectId != links[i].projectId;
    }
  }

  /** A later row for the same project changes nothing. */
  lemma LaterLinkIgnored(links: seq<LinkRow>, row: LinkRow)
    requires row.projectId in FirstTokens(links)
    ensures FirstTokens(links + [row]) == FirstTokens(links)
  {
    assert (links + [row])[..|links|] == links;
  }

  /** The `for` loop over the link rows of `getMyEvents`. */
  method TokenByProject(links: seq<LinkRow>) returns (tokens: map<int, string>)
    ensures tokens == FirstTokens(links)
  {
    tokens := map[];
    for k := 0 to |links|
      invariant tokens == FirstTokens(links[..k])
    {
      assert links[..k + 1][..k] == links[..k];
      if links[k].projectId !in tokens {
        tokens := tokens[links[k].projectId := links[k].token];
      }
    }
    assert links[..|links|] == links;
  }

  /** The text `event-access.ts` returns for a missing date: the bytes of the em dash in UTF-8
      read back as Windows-1252, that is U+00E2 U+20AC U+201D. */
  const GarbledDash: string := "\U{00E2}\U{20AC}\U{201D}"

  /** The `formatProjectDate` of `event-access.ts`, as written: the garbled dash for a missing or
      empty date. */
  function FormatEventDateAsWritten(iso: Option<string>): (d: Projects.DateText)
    ensures d.NoDate? <==> iso.None? || iso.value == []
    ensures d.NoDate? ==> d.text == GarbledDash
    ensures d.LocaleDate? ==> iso == Some(d.iso)
  {
    match iso
    case None => Projects.NoDate(GarbledDash)
    case Some(s) => if s == [] then Projects.NoDate(GarbledDash) else Projects.LocaleDate(s)
  }

  /** The item of one project that has a token, as `getMyEvents` builds it. */
  function EventItemAsWritten(p: ProjectRow, token: string): (item: MyEventItem)
    ensures item.projectId == p.id && item.token == token
    ensures item.title == (if p.projectName.Some? then p.projectName.value else UntitledTitle)
    ensures item.thumbnail == (if p.coverUrl.Some? then p.coverUrl.value else Projects.PlaceholderThumbnail)
    ensures item.date == FormatEventDateAsWritten(p.projectDate)
  {
    MyEventItem(p.id, if p.projectName.Some? then p.projectName.value else UntitledTitle,
                FormatEventDateAsWritten(p.projectDate),
                if p.coverUrl.Some? then p.coverUrl.value else Projects.PlaceholderThumbnail, token)
  }

  /** An undated project shows the garbled dash in My Events, where the project list shows the
      em dash. */
  lemma UndatedEventAsWritten(p: ProjectRow, token: string)
    requires p.projectDate.None? || p.projectDate.value == []
    ensures EventItemAsWritten(p, token).date == Projects.NoDate(GarbledDash)
    ensures EventItemAsWritten(p, token).date != Projects.FormatProjectDate(p.projectDate)
  {
  }

  /** The item of one project that has a token, with the em dash of the project list for a
      missing date: the item the rest of this model uses. */
  function EventItem(p: ProjectRow, token: string): (item: MyEventItem)
    ensures item.projectId == p.id && item.token == token
    ensures item.title == (if p.projectName.Some? then p.projectName.value else UntitledTitle)
    ensures item.thumbnail == (if p.coverUrl.Some? then p.coverUrl.value else Projects.PlaceholderThumbnail)
    ensures item.date.NoDate? <==> p.projectDate.None? || p.projectDate.value == []
    ensures item.date.NoDate? ==> item.date.text == Projects.EmDash
    ensures item.date.LocaleDate? ==> p.projectDate == Some(item.date.iso)
  {
    MyEventItem(p.id, if p.projectName.Some? then p.projectName.value else UntitledTitle,
                Projects.FormatProjectDate(p.projectDate),
                if p.coverUrl.Some? then p.coverUrl.value else Projects.PlaceholderThumbnail, token)
  }

  /** The corrected item renders its date as the project list does, and differs from the item
      as written in nothing else: for a dated project the two are the same. */
  lemma EventItemAgrees(p: ProjectRow, token: string)
    ensures EventItem(p, token).date == Projects.FormatProjectDate(p.projectDate)
    ensures EventItem(p, token).(date := Projects.NoDate([])) == EventItemAsWritten(p, token).(date := Projects.NoDate([]))
    ensures p.projectDate.Some? && p.projectDate.value != [] ==> EventItem(p, token) == EventItemAsWritten(p, token)
  {
  }

  /** The projects that have a token, in project order, each with its token. */
  function EventItems(projects: seq<ProjectRow>, tokens: map<int, string>): (items: seq<MyEventItem>)
    ensures |items| <= |projects|
    ensures forall it :: it in items ==> it.projectId in tokens && it.token == tokens[it.projectId]
  {
    if projects == [] then []
    else
      var p := projects[0];
      (if p.id in tokens then [EventItem(p, tokens[p.id])] else []) + EventItems(projects[1..], tokens)
  }

  /** The item list follows the order of the projects. */
  lemma {:induction false} EventItemsConcat(a: seq<ProjectRow>, b: seq<ProjectRow>, tokens: map<int, string>)
    ensures EventItems(a + b, tokens) == EventItems(a, tokens) + EventItems(b, tokens)
  {
    if a == [] {
      assert a + b == b;
    } else {
      assert (a + b)[1..] == a[1..] + b;
      EventItemsConcat(a[1..], b, tokens);
    }
  }

  /** Every project with a token has an item, and none without. */
  lemma {:induction false} EventItemsCover(projects: seq<ProjectRow>, tokens: map<int, string>, p: ProjectRow)
    requires p in projects
    ensures p.id in tokens <==> EventItem(p, if p.id in tokens then tokens[p.id] else []) in EventItems(projects, tokens)
  {
    if projects[0] != p {
      EventItemsCover(projects[1..], tokens, p);
    }
  }

  /** `getMyEvents` as a value: signed out is an error; an access error or no access rows give
      no events; a projects error is an error; else the projects with a token. An absent
      project or link list counts as empty. */
  function MyEventsSpec(user: Option<string>, access: Result<seq<int>>, projects: Result<seq<ProjectRow>>,
                        links: seq<LinkRow>): (r: Result<seq<MyEventItem>>)
    ensures user.None? ==> r == Err(NotSignedInMessage)
    ensures user.Some? && (access.Err? || access.value == []) ==> r == Ok([])
    ensures user.Some? && access.Ok? && access.value != [] && projects.Err? ==>
      r == Err(MessageOr(projects.message, LoadEventsFailedMessage))
    ensures user.Some? && access.Ok? && access.value != [] && projects.Ok? ==>
      r == Ok(EventItems(projects.value, FirstTokens(links)))
    ensures r.Ok? && projects.Ok? ==> |r.value| <= |projects.value|
  {
    if user.None? then Err(NotSignedInMessage)
    else if access.Err? || access.value == [] then Ok([])
    else if projects.Err? then Err(MessageOr(projects.message, LoadEventsFailedMessage))
    else Ok(EventItems(projects.value, FirstTokens(links)))
  }

  /** Every listed event carries its project's first token. */
  lemma ListedEventsHaveFirstToken(user: Option<string>, access: Result<seq<int>>,
                                   projects: Result<seq<ProjectRow>>, links: seq<LinkRow>, it: MyEventItem)
    requires MyEventsSpec(user, access, projects, links).Ok?
    requires it in MyEventsSpec(user, access, projects, links).value
    ensures exists i :: 0 <= i < |links| && links[i] == LinkRow(it.projectId, it.token)
  {
    var tokens := FirstTokens(links);
    assert it.projectId in tokens;
    TokenIsSomeRow(links, it.projectId);
  }

  /** Each token in the map comes from a row of that project. */
  lemma {:induction false} TokenIsSomeRow(links: seq<LinkRow>, p: int)
    requires p in FirstTokens(links)
    ensures exists i :: 0 <= i < |links| && links[i] == LinkRow(p, FirstTokens(links)[p])
  {
    var n := |links| - 1;
    var front := links[..n];
    if p in FirstTokens(front) {
      TokenIsSomeRow(front, p);
      var i :| 0 <= i < n && front[i] == LinkRow(p, FirstTokens(front)[p]);
      assert links[i] == front[i];
    } else {
      assert links[n] == LinkRow(p, FirstTokens(links)[p]);
    }
  }

  /** `getMyEvents`. */
  method GetMyEvents(user: Option<string>, access: Result<seq<int>>, projects: Result<seq<ProjectRow>>,
                     links: seq<LinkRow>) returns (r: Result<seq<MyEventItem>>)
    ensures r == MyEventsSpec(user, access, projects, links)
  {
    if user.None? {
      return Err(NotSignedInMessage);
    }
    if access.Err? || access.value == [] {
      return Ok([]);
    }
    if projects.Err? {
      return Err(MessageOr(projects.message, LoadEventsFailedMessage));
    }
    var tokens := TokenByProject(links);
    r := Ok(EventItems(projects.value, tokens));
  }
}
