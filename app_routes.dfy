/**
 * The application's route table and the admin area's entry component: which page a path
 * shows, which guard wraps it, and when entering `/admin` restores the last admin page.
 */
module AppRoutes {
  import opened Wrappers
  import opened CinemaTypes
  import opened JsText
  import opened Collections
  import ProtectedRoute

  /** The pages nested under `/admin`. */
  datatype AdminPage = Dashboard | MoviesAdmin | HallsAdmin | SessionsAdmin | UsersAdmin | StatisticsAdmin

  /** What a path shows; `RedirectToRoot` is the catch-all route. */
  datatype Page =
    | LoginPage
    | RegisterPage
    | HomePage
    | MovieDetailsPage(movieId: string)
    | SeatSelectionPage(sessionId: string)
    | ProfilePage
    | AdminArea(page: AdminPage)
    | RedirectToRoot

  /** The guard a route element is wrapped in. */
  datatype Protection = Public | SignedIn | AdminOnly

  /** The non-empty `/`-separated segments of a path. */
  function PathSegments(path: string): (segments: seq<string>)
    ensures forall i :: 0 <= i < |segments| ==> segments[i] != "" && '/' !in segments[i]
  {
    Filter(Split(path, '/'), NonEmpty)
  }

  /** `/admin` is the single segment `admin`. */
  lemma AdminRootSegments(path: string)
    requires path == "/admin"
    ensures PathSegments(path) == ["admin"]
  {
    var parts := Split(path, '/');
    assert path == "" + ['/'] + "admin";
    SplitAround("", "admin", '/');
    assert parts == ["", "admin"];
    DropEmptyHead("admin");
  }

  /** `/admin/x` for a non-empty name `x` without a slash is `admin` followed by `x`. */
  lemma AdminChildSegments(child: string)
    requires '/' !in child && child != ""
    ensures PathSegments("/admin/" + child) == ["admin", child]
  {
    var rest := "admin" + ['/'] + child;
    assert "/admin/" + child == "" + ['/'] + rest;
    SplitAround("", rest, '/');
    SplitAround("admin", child, '/');
    assert Split("/admin/" + child, '/') == ["", "admin", child];
    DropEmptyHead2("admin", child);
  }

  /** `/a/b` for non-empty names `a` and `b` without a slash is the segments `a`, `b`. */
  lemma TwoSegmentPath(first: string, second: string)
    requires first != "" && second != "" && '/' !in first && '/' !in second
    ensures PathSegments("/" + first + "/" + second) == [first, second]
  {
    var rest := first + ['/'] + second;
    assert "/" + first + "/" + second == "" + ['/'] + rest;
    SplitAround("", rest, '/');
    SplitAround(first, second, '/');
    assert Split("/" + first + "/" + second, '/') == ["", first, second];
    DropEmptyHead2(first, second);
  }

  lemma DropEmptyHead(a: string)
    requires a != ""
    ensures Filter(["", a], NonEmpty) == [a]
  {
    assert ["", a][1..] == [a];
    assert [a][1..] == [];
  }

  lemma DropEmptyHead2(a: string, b: string)
    requires a != "" && b != ""
    ensures Filter(["", a, b], NonEmpty) == [a, b]
  {
    assert [b][1..] == [];
    assert Filter([b], NonEmpty) == [b];
    assert [a, b][1..] == [b];
    assert Filter([a, b], NonEmpty) == [a] + Filter([b], NonEmpty);
    assert ["", a, b][1..] == [a, b];
    assert Filter(["", a, b], NonEmpty) == Filter([a, b], NonEmpty);
  }

  /** A child path of `/admin` resolves to the child page the router lists for it. */
  lemma ResolveAdminChild(child: string)
    requires AdminChild(child).Some?
    ensures '/' !in child
    ensures Resolve(PathSegments("/admin/" + child)) == AdminArea(AdminChild(child).value)
  {
    AdminChildSegments(child);
  }

  predicate NonEmpty(segment: string) {
    segment != ""
  }

  /** The child routes of `/admin`, by their path segment. */
  function AdminChild(segment: string): (p: Option<AdminPage>)
    ensures p.Some? <==> segment in ["movies", "halls", "sessions", "users", "statistics"]
  {
    match segment
    case "movies" => Some(MoviesAdmin)
    case "halls" => Some(HallsAdmin)
    case "sessions" => Some(SessionsAdmin)
    case "users" => Some(UsersAdmin)
    case "statistics" => Some(StatisticsAdmin)
    case _ => None
  }

  /**
   * The route patterns of the table: `/`, `/login`, `/register`, `/movies/:id`,
   * `/sessions/:sessionId/seats`, `/profile`, `/admin` and its five children.
   */
  predicate Matches(segments: seq<string>) {
    || segments == []
    || segments == ["login"]
    || segments == ["register"]
    || (|segments| == 2 && segments[0] == "movies")
    || (|segments| == 3 && segments[0] == "sessions" && segments[2] == "seats")
    || segments == ["profile"]
    || segments == ["admin"]
    || (|segments| == 2 && segments[0] == "admin"
        && segments[1] in ["movies", "halls", "sessions", "users", "statistics"])
  }

  /** The page a path (given by its segments) resolves to; a path no pattern matches goes to "/". */
  function Resolve(segments: seq<string>): (p: Page)
    ensures p == RedirectToRoot <==> !Matches(segments)
    ensures segments == [] ==> p == HomePage
    ensures segments == ["login"] ==> p == LoginPage
    ensures segments == ["register"] ==> p == RegisterPage
    ensures segments == ["profile"] ==> p == ProfilePage
    ensures |segments| == 2 && segments[0] == "movies" ==> p == MovieDetailsPage(segments[1])
    ensures |segments| == 3 && segments[0] == "sessions" && segments[2] == "seats" ==> p == SeatSelectionPage(segments[1])
    ensures p.AdminArea? ==> |segments| >= 1 && segments[0] == "admin"
    ensures |segments| > 3 ==> p == RedirectToRoot
    ensures p.MovieDetailsPage? ==> segments == ["movies", p.movieId]
    ensures p.SeatSelectionPage? ==> segments == ["sessions", p.sessionId, "seats"]
  {
    if segments == [] then HomePage
    else if segments == ["login"] then LoginPage
    else if segments == ["register"] then RegisterPage
    else if segments == ["profile"] then ProfilePage
    else if segments == ["admin"] then AdminArea(Dashboard)
    else if |segments| == 2 && segments[0] == "movies" then MovieDetailsPage(segments[1])
    else if |segments| == 2 && segments[0] == "admin" && AdminChild(segments[1]).Some? then
      AdminArea(AdminChild(segments[1]).value)
    else if |segments| == 3 && segments[0] == "sessions" && segments[2] == "seats" then SeatSelectionPage(segments[1])
    else RedirectToRoot
  }

  /** The guard around each route: seat selection and profile need a user, the admin area an admin. */
  function ProtectionOf(p: Page): (g: Protection)
    ensures g == SignedIn <==> p.SeatSelectionPage? || p.ProfilePage?
    ensures g == AdminOnly <==> p.AdminArea?
  {
    match p
    case SeatSelectionPage(_) => SignedIn
    case ProfilePage => SignedIn
    case AdminArea(_) => AdminOnly
    case _ => Public
  }

  /** The seat page and the profile page, reached by their paths, sit behind the sign-in guard. */
  lemma GuardedPathsNeedSignIn(sessionId: string)
    ensures ProtectionOf(Resolve(["sessions", sessionId, "seats"])) == SignedIn
    ensures ProtectionOf(Resolve(["profile"])) == SignedIn
    ensures ProtectionOf(Resolve(["movies", sessionId])) == Public
  {
  }

  /** The admin area has exactly the index and five child pages. */
  lemma AdminChildrenExactly(segment: string)
    ensures Resolve(["admin"]) == AdminArea(Dashboard)
    ensures Resolve(["admin", segment]).AdminArea? <==>
              segment in ["movies", "halls", "sessions", "users", "statistics"]
    ensures !Resolve(["admin", segment]).AdminArea? ==> Resolve(["admin", segment]) == RedirectToRoot
  {
  }

  /** A path whose first segment names no route is sent to "/". */
  lemma UnknownPathRedirects(segments: seq<string>)
    requires |segments| >= 1
    requires segments[0] !in ["login", "register", "profile", "admin", "movies", "sessions"]
    ensures Resolve(segments) == RedirectToRoot
  {
  }

  /** `AdminRoutes`: anyone but an admin is sent home; an admin gets the admin layout. */
  datatype AdminView = NavigateHome | ShowAdminLayout

  function AdminRoutesView(user: Option<User>): (v: AdminView)
    ensures v == NavigateHome <==> !ProtectedRoute.IsAdmin(user)
  {
    if user.Some? && user.value.role == "admin" then ShowAdminLayout else NavigateHome
  }

  /**
   * The restore rule of `AdminRoutes`: on `/admin`, for an admin, navigate (replacing the entry)
   * to the stored `lastAdminPath` when it is truthy and not `/admin` itself.
   */
  function RestoreTarget(pathname: string, user: Option<User>, stored: Option<string>): (target: Option<string>)
    ensures target.Some? <==>
              pathname == "/admin" && ProtectedRoute.IsAdmin(user) && stored.Some? && stored.value != ""
              && stored.value != "/admin"
    ensures target.Some? ==> target == stored
  {
    if pathname == "/admin" && user.Some? && user.value.role == "admin" then
      if stored.Some? && stored.value != "" && stored.value != "/admin" then stored else None
    else None
  }

  /**
   * Once the admin guard lets a user through, `AdminRoutes` never sends them home: its own role
   * check only matters when it is reached without the guard.
   */
  lemma GuardedAdminRoutesShowLayout(loading: bool, user: Option<User>, hasToken: bool, location: string)
    requires ProtectedRoute.Guard(loading, user, hasToken, true, location) == ProtectedRoute.RenderChildren
    ensures AdminRoutesView(user) == ShowAdminLayout
  {
  }
}
