/** The creator's project list on the dashboard (`Dashboard.tsx`): a category tab and a search
    box narrow it. */
module Dashboard {
  import opened Strings
  import Projects

  const AllCategories: string := "All"

  predicate MatchesFilter(p: Projects.Project, activeFilter: string) {
    activeFilter == AllCategories || p.category == activeFilter
  }

  /** The query as compared: trimmed, then lower-cased. */
  function NormalQuery(searchQuery: string): string {
    ToLower(Trim(searchQuery))
  }

  /** An empty query matches everything; else the title, the client or the category, lower-cased,
      must contain it. */
  predicate MatchesQuery(p: Projects.Project, query: string) {
    query == [] || Contains(ToLower(p.title), query) || Contains(ToLower(p.client), query)
    || Contains(ToLower(p.category), query)
  }

  predicate Shown(p: Projects.Project, activeFilter: string, searchQuery: string) {
    MatchesFilter(p, activeFilter) && MatchesQuery(p, NormalQuery(searchQuery))
  }

  /** `filteredProjects`. */
  function FilteredProjects(projects: seq<Projects.Project>, activeFilter: string, searchQuery: string)
    : (r: seq<Projects.Project>)
    ensures |r| <= |projects|
    ensures forall p :: p in r <==> p in projects && Shown(p, activeFilter, searchQuery)
  {
    if projects == [] then []
    else
      (if Shown(projects[0], activeFilter, searchQuery) then [projects[0]] else [])
      + FilteredProjects(projects[1..], activeFilter, searchQuery)
  }

  /** The list keeps the projects' order: filtering a concatenation concatenates the parts'
      results. */
  lemma {:induction false} FilteredConcat(a: seq<Projects.Project>, b: seq<Projects.Project>,
                                          activeFilter: string, searchQuery: string)
    ensures FilteredProjects(a + b, activeFilter, searchQuery)
         == FilteredProjects(a, activeFilter, searchQuery) + FilteredProjects(b, activeFilter, searchQuery)
  {
    if a == [] {
      assert a + b == b;
    } else {
      assert (a + b)[1..] == a[1..] + b;
      FilteredConcat(a[1..], b, activeFilter, searchQuery);
    }
  }

  /** A blank query is an empty one once trimmed. */
  lemma BlankQueryIsEmpty(searchQuery: string)
    ensures NormalQuery(searchQuery) == [] <==> IsBlank(searchQuery)
  {
    TrimEmptyIffBlank(searchQuery);
  }

  /** The "All" tab with a blank query shows every project, in order. */
  lemma {:induction false} AllWithBlankQueryShowsEverything(projects: seq<Projects.Project>, searchQuery: string)
    requires IsBlank(searchQuery)
    ensures FilteredProjects(projects, AllCategories, searchQuery) == projects
  {
    BlankQueryIsEmpty(searchQuery);
    if projects != [] {
      AllWithBlankQueryShowsEverything(projects[1..], searchQuery);
      assert projects == [projects[0]] + projects[1..];
    }
  }

  /** Typing more narrows the list: a query that contains another one shows only projects the
      other one shows too. */
  lemma NarrowerQueryShowsFewer(projects: seq<Projects.Project>, activeFilter: string, q: string, longer: string)
    requires Contains(NormalQuery(longer), NormalQuery(q))
    ensures forall p :: p in FilteredProjects(projects, activeFilter, longer) ==>
                        p in FilteredProjects(projects, activeFilter, q)
  {
    var nq := NormalQuery(q);
    var nl := NormalQuery(longer);
    forall p | p in FilteredProjects(projects, activeFilter, longer)
      ensures MatchesQuery(p, nq)
    {
      if nl == [] {
        ContainedInEmpty(nq);
      } else if nq != [] {
        if Contains(ToLower(p.title), nl) {
          ContainsTransitive(ToLower(p.title), nl, nq);
        } else if Contains(ToLower(p.client), nl) {
          ContainsTransitive(ToLower(p.client), nl, nq);
        } else {
          ContainsTransitive(ToLower(p.category), nl, nq);
        }
      }
    }
  }
}

/** The notification list of the creator's header (`NotificationDropdown.tsx`). */
module Notifications {
  import opened Strings

  const AlbumSubmittedType: string := "album_submitted"

  const MinuteMs: int := 60000
  const HourMs: int := 60 * MinuteMs
  const DayMs: int := 24 * HourMs
  const WeekMs: int := 7 * DayMs

  /** A notification as far as the list reads it; `readAt` is `None` for `null`, and the payload
      fields are `None` when missing. */
  datatype Notification = Notification(id: string, kind: string, readAt: Option<string>,
                                       projectId: Option<int>, albumId: Option<string>)

  /** `!n.read_at`. */
  predicate IsUnread(n: Notification) {
    n.readAt.None? || n.readAt.value == []
  }

  /** `notifications.filter((n) => !n.read_at).length`. */
  function UnreadCount(ns: seq<Notification>): (k: nat)
    ensures k <= |ns|
  {
    if ns == [] then 0 else (if IsUnread(ns[0]) then 1 else 0) + UnreadCount(ns[1..])
  }

  /** The count adds up over a concatenation, is 0 exactly when everything is read, and is the
      length exactly when nothing is. */
  lemma {:induction false} UnreadCountShape(ns: seq<Notification>, ms: seq<Notification>)
    ensures UnreadCount(ns + ms) == UnreadCount(ns) + UnreadCount(ms)
    ensures UnreadCount(ns) == 0 <==> forall i :: 0 <= i < |ns| ==> !IsUnread(ns[i])
    ensures UnreadCount(ns) == |ns| <==> forall i :: 0 <= i < |ns| ==> IsUnread(ns[i])
  {
    if ns == [] {
      assert ns + ms == ms;
    } else {
      assert (ns + ms)[1..] == ns[1..] + ms;
      UnreadCountShape(ns[1..], ms);
      assert forall i :: 1 <= i < |ns| ==> ns[1..][i - 1] == ns[i];
    }
  }

  /** How long ago, in buckets. */
  datatype Ago = JustNow | MinutesAgo(minutes: int) | HoursAgo(hours: int) | DaysAgo(days: int) | OnDate

  /** `formatNotificationTime`, from the difference in milliseconds between now and the
      notification's time: floor divisions into minutes, hours and days. Dafny's division by a
      positive number is the floor, as `Math.floor` of the quotient is. */
  function TimeBucket(diffMs: int): (a: Ago)
    ensures a == JustNow <==> diffMs < MinuteMs
    ensures a.MinutesAgo? <==> MinuteMs <= diffMs < HourMs
    ensures a.HoursAgo? <==> HourMs <= diffMs < DayMs
    ensures a.DaysAgo? <==> DayMs <= diffMs < WeekMs
    ensures a == OnDate <==> WeekMs <= diffMs
    ensures a.MinutesAgo? ==> 1 <= a.minutes < 60 && a.minutes * MinuteMs <= diffMs < (a.minutes + 1) * MinuteMs
    ensures a.HoursAgo? ==> 1 <= a.hours < 24 && a.hours * HourMs <= diffMs < (a.hours + 1) * HourMs
    ensures a.DaysAgo? ==> 1 <= a.days < 7 && a.days * DayMs <= diffMs < (a.days + 1) * DayMs
  {
    var diffMins := diffMs / 60000;
    if diffMins < 1 then JustNow
    else if diffMins < 60 then MinutesAgo(diffMins)
    else
      var diffHours := diffMins / 60;
      if diffHours < 24 then
        HoursAgo(diffHours)
      else
        var diffDays := diffHours / 24;
        if diffDays < 7 then DaysAgo(diffDays) else OnDate
  }

  /** The text of a bucket; `localeDate` is what `toLocaleDateString` prints. */
  function AgoText(a: Ago, localeDate: string): string {
    match a
    case JustNow => "Just now"
    case MinutesAgo(m) => IntToString(m) + "m ago"
    case HoursAgo(h) => IntToString(h) + "h ago"
    case DaysAgo(d) => IntToString(d) + "d ago"
    case OnDate => localeDate
  }

  /** The whole text `formatNotificationTime` shows for a difference of `diffMs` milliseconds:
      each bucket counts whole units of its own size. */
  function NotificationTime(diffMs: int, localeDate: string): (t: string)
    ensures diffMs < MinuteMs ==> t == "Just now"
    ensures MinuteMs <= diffMs < HourMs ==> t == IntToString(diffMs / MinuteMs) + "m ago"
    ensures HourMs <= diffMs < DayMs ==> t == IntToString(diffMs / HourMs) + "h ago"
    ensures DayMs <= diffMs < WeekMs ==> t == IntToString(diffMs / DayMs) + "d ago"
    ensures WeekMs <= diffMs ==> t == localeDate
  {
    var a := TimeBucket(diffMs);
    match a
    case MinutesAgo(m) => assert diffMs / MinuteMs == m; AgoText(a, localeDate)
    case HoursAgo(h) => assert diffMs / HourMs == h; AgoText(a, localeDate)
    case DaysAgo(k) => assert diffMs / DayMs == k; AgoText(a, localeDate)
    case _ => AgoText(a, localeDate)
  }

  /** A notification opens something only when it is an album submission naming its project and
      a non-empty album. */
  predicate IsClickable(n: Notification) {
    n.kind == AlbumSubmittedType && n.projectId.Some? && n.albumId.Some? && n.albumId.value != []
  }

  /** Where a click goes (`handleNotificationClick`): the album's submission page; nothing for a
      notification that is not clickable. */
  function ClickTarget(n: Notification): (target: Option<string>)
    ensures target.Some? <==> IsClickable(n)
    ensures target.Some? ==>
      target.value == "/project/" + IntToString(n.projectId.value) + "/submissions/" + n.albumId.value
  {
    if IsClickable(n) then Some("/project/" + IntToString(n.projectId.value) + "/submissions/" + n.albumId.value)
    else None
  }

  /** Opening the list marks everything read when something is unread. */
  predicate MarksAllRead(isOpen: bool, unreadCount: nat) {
    isOpen && unreadCount > 0
  }

  /** The open list marks everything read exactly when one of its notifications is unread. */
  lemma MarksAllReadIff(isOpen: bool, ns: seq<Notification>)
    ensures MarksAllRead(isOpen, UnreadCount(ns)) <==> isOpen && exists i :: 0 <= i < |ns| && IsUnread(ns[i])
  {
    UnreadCountShape(ns, []);
  }
}

/** Notifications are only for creators, and a click lands on a creator page. */
module NotificationRoutes {
  import opened Strings
  import UserRoles
  import AppGuard
  import Notifications

  /** The click target is a project page, which the route guard lays out for a creator. */
  lemma ClickLandsOnCreatorPage(n: Notifications.Notification)
    requires Notifications.IsClickable(n)
    ensures var t := Notifications.ClickTarget(n).value;
      AppGuard.IsCreatorPath(t) && AppGuard.LayoutScreen(UserRoles.Creator, t).Layout?
  {
    var t := Notifications.ClickTarget(n).value;
    assert t == "/project/" + (IntToString(n.projectId.value) + "/submissions/" + n.albumId.value);
    assert "/project/" <= t;
    AppGuard.CreatorAndClientPathsDisjoint(t);
  }
}

/** The header bar (`Header.tsx`): the home link, the notification badge and the breadcrumb. */
module HeaderBar {
  import opened Strings
  import opened UserRoles
  import Notifications

  /** The home link: target and text by role. */
  function HomeLink(role: Role): (link: (string, string))
    ensures role == Creator ==> link == ("/", "Galleries")
    ensures role == Client ==> link == ("/user/events", "My events")
  {
    if role == Creator then ("/", "Galleries") else ("/user/events", "My events")
  }

  /** Notifications are shown, and fetched, only for a creator. */
  predicate ShowsNotifications(role: Role) {
    role == Creator
  }

  /** The unread badge: none at zero, `99+` above 99, else the number. */
  function BadgeText(unread: nat): (b: Option<string>)
    ensures b.None? <==> unread == 0
    ensures b == Some("99+") <==> unread > 99
    ensures b.Some? ==> 1 <= |b.value| <= 3
    ensures b.Some? && unread <= 99 ==> b.value == NatToString(unread) && DigitsValue(b.value) == unread
  {
    if unread == 0 then None
    else if unread > 99 then Some("99+")
    else
      ShortNumberText(unread);
      DigitsValueOfNatToString(unread);
      Some(NatToString(unread))
  }

  /** A number under 100 prints in one or two digits, none of which is `+`. */
  lemma ShortNumberText(n: nat)
    requires n <= 99
    ensures 1 <= |NatToString(n)| <= 2
    ensures NatToString(n) != "99+"
  {
  }

  /** `pathname.split("/").filter(Boolean)`, scanning with the current segment `cur`. */
  function PartsFrom(s: string, cur: string): (parts: seq<string>)
    decreases |s|
  {
    if s == [] then (if cur == [] then [] else [cur])
    else if s[0] == '/' then (if cur == [] then [] else [cur]) + PartsFrom(s[1..], [])
    else PartsFrom(s[1..], cur + [s[0]])
  }

  function PathParts(pathname: string): seq<string> {
    PartsFrom(pathname, [])
  }

  predicate SlashFree(s: string) {
    forall i :: 0 <= i < |s| ==> s[i] != '/'
  }

  /** The path with its slashes taken out. */
  function WithoutSlashes(s: string): (r: string)
    ensures SlashFree(r)
  {
    if s == [] then [] else (if s[0] == '/' then [] else [s[0]]) + WithoutSlashes(s[1..])
  }

  function Concat(parts: seq<string>): string {
    if parts == [] then [] else parts[0] + Concat(parts[1..])
  }

  /** The parts are non-empty and slash-free, and together they are the path without its
      slashes: nothing is lost and nothing is added. */
  lemma {:induction false} PartsFromShape(s: string, cur: string)
    requires SlashFree(cur)
    ensures forall i :: 0 <= i < |PartsFrom(s, cur)| ==> PartsFrom(s, cur)[i] != [] && SlashFree(PartsFrom(s, cur)[i])
    ensures Concat(PartsFrom(s, cur)) == cur + WithoutSlashes(s)
    decreases |s|
  {
    if s == [] {
      if cur != [] {
        assert Concat([cur]) == cur + Concat([]);
      }
    } else if s[0] == '/' {
      PartsFromShape(s[1..], []);
      var front: seq<string> := if cur == [] then [] else [cur];
      var rest := PartsFrom(s[1..], []);
      ConcatAppend(front, rest);
      if cur != [] {
        assert Concat([cur]) == cur + Concat([]);
      }
      assert WithoutSlashes(s) == WithoutSlashes(s[1..]);
    } else {
      PartsFromShape(s[1..], cur + [s[0]]);
      assert WithoutSlashes(s) == [s[0]] + WithoutSlashes(s[1..]);
    }
  }

  lemma {:induction false} ConcatAppend(a: seq<string>, b: seq<string>)
    ensures Concat(a + b) == Concat(a) + Concat(b)
  {
    if a == [] {
      assert a + b == b;
    } else {
      assert (a + b)[1..] == a[1..] + b;
      ConcatAppend(a[1..], b);
    }
  }

  const ChooseRoleSegment: string := "choose-role"

  /** `segment.replace(/-/g, " ")`. */
  function DashesToSpaces(s: string): (r: string)
    ensures |r| == |s|
    ensures forall i :: 0 <= i < |s| ==> r[i] == if s[i] == '-' then ' ' else s[i]
  {
    if s == [] then [] else [if s[0] == '-' then ' ' else s[0]] + DashesToSpaces(s[1..])
  }

  /** The breadcrumb after the home link: the last path segment with dashes as spaces, unless
      there is no segment or one of them is `choose-role`. */
  function Breadcrumb(pathname: string): (b: Option<string>)
    ensures var parts := PathParts(pathname);
      b.Some? <==> parts != [] && ChooseRoleSegment !in parts
    ensures b.Some? ==> b.value == DashesToSpaces(PathParts(pathname)[|PathParts(pathname)| - 1])
  {
    var parts := PathParts(pathname);
    if |parts| > 0 && ChooseRoleSegment !in parts then Some(DashesToSpaces(parts[|parts| - 1])) else None
  }

  /** The breadcrumb is a non-empty text without dashes or slashes. */
  lemma BreadcrumbShape(pathname: string)
    ensures var b := Breadcrumb(pathname);
      b.Some? ==> b.value != [] && forall i :: 0 <= i < |b.value| ==> b.value[i] != '-' && b.value[i] != '/'
  {
    PartsFromShape(pathname, []);
  }

  /** Examples: `/a-b` shows `a b`, the root shows none. */
  lemma BreadcrumbExamples()
    ensures PathParts("/a-b") == ["a-b"] && Breadcrumb("/a-b") == Some("a b")
    ensures Breadcrumb("/") == None
  {
    assert PartsFrom("", "a-b") == ["a-b"];
    assert "b"[1..] == "" && "a-" + ['b'] == "a-b";
    assert PartsFrom("b", "a-") == PartsFrom("", "a-b");
    assert "-b"[1..] == "b" && "a" + ['-'] == "a-";
    assert PartsFrom("-b", "a") == PartsFrom("b", "a-");
    assert "a-b"[1..] == "-b" && [] + ['a'] == "a";
    assert PartsFrom("a-b", "") == PartsFrom("-b", "a");
    assert PartsFrom("/", "") == [] + PartsFrom("", []);
    assert DashesToSpaces("a-b") == "a b";
  }

  /** The badge counts the unread notifications a creator has and shows for no one else. */
  function Badge(role: Role, ns: seq<Notifications.Notification>): (b: Option<string>)
    ensures role != Creator ==> b.None?
    ensures role == Creator ==> b == BadgeText(Notifications.UnreadCount(ns))
  {
    if ShowsNotifications(role) then BadgeText(Notifications.UnreadCount(ns)) else None
  }
}
