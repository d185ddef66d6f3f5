/** Which paths belong to which role, as `user-roles.ts` classifies them. */
module UserRoles {
  /** The two roles a signed-in account can hold. */
  datatype Role = Creator | Client

  const ChooseRolePath: string := "/choose-role"
  const ClientHome: string := "/user/events"
  const CreatorHome: string := "/"

  /** `/`, or a path under `/create-project` or `/upload/`. */
  predicate IsCreatorRoute(pathname: string) {
    pathname == "/" || "/create-project" <= pathname || "/upload/" <= pathname
  }

  /** A path under `/user/events`, `/user/bookmarks` or `/event/`. */
  predicate IsClientRoute(pathname: string) {
    "/user/events" <= pathname || "/user/bookmarks" <= pathname || "/event/" <= pathname
  }

  predicate IsChooseRoleRoute(pathname: string) {
    pathname == ChooseRolePath
  }

  /** Two prefixes that differ at some index cannot both start one path. */
  lemma PrefixesDiffer(p: string, a: string, b: string, k: nat)
    requires k < |a| && k < |b| && a[k] != b[k]
    ensures !(a <= p && b <= p)
  {
  }

  /** No path is both a creator route and a client route. */
  lemma CreatorAndClientRoutesDisjoint(pathname: string)
    ensures !(IsCreatorRoute(pathname) && IsClientRoute(pathname))
  {
    PrefixesDiffer(pathname, "/create-project", "/user/events", 1);
    PrefixesDiffer(pathname, "/create-project", "/user/bookmarks", 1);
    PrefixesDiffer(pathname, "/create-project", "/event/", 1);
    PrefixesDiffer(pathname, "/upload/", "/user/events", 2);
    PrefixesDiffer(pathname, "/upload/", "/user/bookmarks", 2);
    PrefixesDiffer(pathname, "/upload/", "/event/", 1);
    if pathname == "/" {
      assert !("/user/events" <= pathname) && !("/user/bookmarks" <= pathname) && !("/event/" <= pathname);
    }
  }

  /** `/upload` is listed among the creator routes, but the test wants `/upload/`, so the bare
      path is not one. */
  lemma BareUploadIsNotCreatorRoute()
    ensures !IsCreatorRoute("/upload")
    ensures "/upload/x" == "/upload" + "/x" && IsCreatorRoute("/upload/x")
  {
    assert !("/create-project" <= "/upload") by {
      PrefixesDiffer("/upload", "/create-project", "/upload", 1);
    }
  }

  /** The role-choice page belongs to neither role. */
  lemma ChooseRoleBelongsToNoRole()
    ensures !IsCreatorRoute(ChooseRolePath) && !IsClientRoute(ChooseRolePath)
  {
    PrefixesDiffer(ChooseRolePath, "/create-project", ChooseRolePath, 2);
    PrefixesDiffer(ChooseRolePath, "/upload/", ChooseRolePath, 1);
    PrefixesDiffer(ChooseRolePath, "/user/events", ChooseRolePath, 1);
    PrefixesDiffer(ChooseRolePath, "/user/bookmarks", ChooseRolePath, 1);
    PrefixesDiffer(ChooseRolePath, "/event/", ChooseRolePath, 1);
  }
}

/** The route guard of the photo app: `ProtectedRoutes` and `AuthenticatedLayout` in `App.tsx`. */
module AppGuard {
  import opened Strings
  import opened UserRoles

  /** What the role query holds once it has settled: no data, an explicit `null` (no role
      chosen yet), or a role. */
  datatype RoleData = NoData | NullRole | HasRole(role: Role)

  /** What the guard renders. */
  datatype Screen =
    | Loading
    | RedirectTo(target: string)
    | ChooseRoleScreen
    | Layout(role: Role, defaultPath: string)

  /** `location.pathname || "/"`. */
  function PathOrRoot(pathname: string): (r: string)
    ensures r != []
    ensures pathname != [] ==> r == pathname
  {
    if pathname == [] then "/" else pathname
  }

  /** The layout's own creator paths: wider than the creator routes, adding `/submissions` and
      everything under `/project/`. */
  predicate IsCreatorPath(pathname: string) {
    pathname == "/" || pathname == "/submissions" || "/create-project" <= pathname
    || "/upload/" <= pathname || "/project/" <= pathname
  }

  predicate IsClientPath(pathname: string) {
    "/user/events" <= pathname || "/user/bookmarks" <= pathname || "/event/" <= pathname
  }

  /** Every creator route is a creator path of the layout; the converse fails. */
  lemma CreatorRouteIsCreatorPath(pathname: string)
    ensures IsCreatorRoute(pathname) ==> IsCreatorPath(pathname)
    ensures IsClientPath(pathname) <==> IsClientRoute(pathname)
  {
  }

  /** The two lists disagree on `/submissions` and on project pages. */
  lemma CreatorPathsWiderThanRoutes()
    ensures IsCreatorPath("/submissions") && !IsCreatorRoute("/submissions")
    ensures IsCreatorPath("/project/p/settings") && !IsCreatorRoute("/project/p/settings")
  {
    PrefixesDiffer("/submissions", "/create-project", "/submissions", 1);
    PrefixesDiffer("/submissions", "/upload/", "/submissions", 1);
    PrefixesDiffer("/project/p/settings", "/create-project", "/project/p/settings", 1);
    PrefixesDiffer("/project/p/settings", "/upload/", "/project/p/settings", 1);
    assert "/project/" <= "/project/p/settings";
  }

  /** No path is both a creator path and a client path. */
  lemma CreatorAndClientPathsDisjoint(pathname: string)
    ensures !(IsCreatorPath(pathname) && IsClientPath(pathname))
  {
    CreatorAndClientRoutesDisjoint(pathname);
    PrefixesDiffer(pathname, "/project/", "/user/events", 1);
    PrefixesDiffer(pathname, "/project/", "/user/bookmarks", 1);
    PrefixesDiffer(pathname, "/project/", "/event/", 1);
    if pathname == "/submissions" {
      PrefixesDiffer(pathname, "/user/events", pathname, 1);
      PrefixesDiffer(pathname, "/user/bookmarks", pathname, 1);
      PrefixesDiffer(pathname, "/event/", pathname, 1);
    }
  }

  /** `AuthenticatedLayout`: a client on a creator path goes to the client home, a creator on a
      client path goes to `/`, anything else is laid out for the role. */
  function LayoutScreen(role: Role, pathname: string): (s: Screen)
    ensures s.RedirectTo? <==>
      (role == Client && IsCreatorPath(pathname)) || (role == Creator && IsClientPath(pathname))
    ensures s.RedirectTo? ==> s.target == (if role == Client then ClientHome else CreatorHome)
    ensures s.Layout? ==> s.role == role
    ensures s.Layout? ==> s.defaultPath == (if role == Creator then CreatorHome else ClientHome)
  {
    if role == Client && IsCreatorPath(pathname) then RedirectTo(ClientHome)
    else if role == Creator && IsClientPath(pathname) then RedirectTo(CreatorHome)
    else Layout(role, if role == Creator then CreatorHome else ClientHome)
  }

  /** `ProtectedRoutes`: the session first, then the role, then the layout. A settled role query
      without data counts as the client role (`role || "client"`). */
  function GuardScreen(sessionLoading: bool, hasSession: bool, roleLoading: bool, roleData: RoleData,
                       pathname: string): (s: Screen)
    ensures sessionLoading ==> s == Loading
    ensures !sessionLoading && !hasSession ==> s == RedirectTo("/signin")
    ensures !sessionLoading && hasSession && roleData == NullRole && !roleLoading ==>
      s == (if PathOrRoot(pathname) == ChooseRolePath then ChooseRoleScreen else RedirectTo(ChooseRolePath))
    ensures !sessionLoading && hasSession && roleLoading ==> s == Loading
    ensures !sessionLoading && hasSession && !roleLoading && roleData != NullRole ==>
      s == LayoutScreen(if roleData.HasRole? then roleData.role else Client, PathOrRoot(pathname))
    ensures s.Layout? ==> s.role == (if roleData.HasRole? then roleData.role else Client)
    ensures s == ChooseRoleScreen ==> roleData == NullRole
  {
    var path := PathOrRoot(pathname);
    if sessionLoading then Loading
    else if !hasSession then RedirectTo("/signin")
    else if roleLoading then Loading
    else if roleData == NullRole then
      if IsChooseRoleRoute(path) then ChooseRoleScreen else RedirectTo(ChooseRolePath)
    else LayoutScreen(if roleData.HasRole? then roleData.role else Client, path)
  }

  /** Each role's home is laid out for that role, not redirected again. */
  lemma HomesAreNotRedirected()
    ensures LayoutScreen(Creator, CreatorHome).Layout?
    ensures LayoutScreen(Client, ClientHome).Layout?
  {
    assert !IsClientPath(CreatorHome);
    PrefixesDiffer(ClientHome, "/create-project", ClientHome, 1);
    PrefixesDiffer(ClientHome, "/upload/", ClientHome, 2);
    PrefixesDiffer(ClientHome, "/project/", ClientHome, 1);
  }

  /** The catch-all route of a laid-out page sends the user to the role's home, which is laid
      out in turn. */
  lemma CatchAllLands(role: Role, pathname: string)
    requires LayoutScreen(role, pathname).Layout?
    ensures LayoutScreen(role, LayoutScreen(role, pathname).defaultPath).Layout?
  {
    HomesAreNotRedirected();
  }

  /** There is no redirect loop: following a layout redirect once reaches a laid-out page, and a
      role-less user sent to the role-choice page is shown it there. */
  lemma NoRedirectLoop(sessionLoading: bool, hasSession: bool, roleLoading: bool, roleData: RoleData,
                       pathname: string)
    ensures var s := GuardScreen(sessionLoading, hasSession, roleLoading, roleData, pathname);
      s.RedirectTo? && s.target != "/signin" ==>
        GuardScreen(sessionLoading, hasSession, roleLoading, roleData, s.target).Layout?
        || GuardScreen(sessionLoading, hasSession, roleLoading, roleData, s.target) == ChooseRoleScreen
  {
    HomesAreNotRedirected();
  }

  /** A role-less user is shown the role-choice page once redirected there. */
  lemma ChooseRoleRedirectLands(pathname: string)
    ensures GuardScreen(false, true, false, NullRole, pathname) == RedirectTo(ChooseRolePath)
      || GuardScreen(false, true, false, NullRole, pathname) == ChooseRoleScreen
    ensures GuardScreen(false, true, false, NullRole, ChooseRolePath) == ChooseRoleScreen
  {
  }
}

/** Where `ChooseRoleView` sends a user once the role is saved. */
module ChooseRole {
  import opened UserRoles
  import AppGuard

  /** `from` is the path the user was sent away from, if any; an empty path counts as none. */
  function RoleChosenTarget(from: string, role: Role): (target: string)
    ensures role == Creator && from != [] && IsCreatorRoute(from) ==> target == from
    ensures role == Client && from != [] && IsClientRoute(from) ==> target == from
    ensures target != from ==> target == (if role == Creator then CreatorHome else ClientHome)
  {
    if from != [] && role == Creator && IsCreatorRoute(from) then from
    else if from != [] && role == Client && IsClientRoute(from) then from
    else if role == Creator then CreatorHome
    else ClientHome
  }

  /** The target always belongs to the chosen role. */
  lemma TargetFitsRole(from: string, role: Role)
    ensures role == Creator ==> IsCreatorRoute(RoleChosenTarget(from, role))
    ensures role == Client ==> IsClientRoute(RoleChosenTarget(from, role))
  {
    assert "/user/events" <= ClientHome;
  }

  /** The route guard lays the target out for the role instead of redirecting again. */
  lemma TargetIsNotRedirected(from: string, role: Role)
    ensures AppGuard.LayoutScreen(role, RoleChosenTarget(from, role)).Layout?
  {
    var target := RoleChosenTarget(from, role);
    TargetFitsRole(from, role);
    AppGuard.CreatorRouteIsCreatorPath(target);
    CreatorAndClientRoutesDisjoint(target);
    if role == Client {
      PrefixesDiffer(target, "/project/", "/user/events", 1);
      PrefixesDiffer(target, "/project/", "/user/bookmarks", 1);
      PrefixesDiffer(target, "/project/", "/event/", 1);
    }
  }
}
