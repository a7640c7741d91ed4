/**
 * The admin layout: its side menu, the header title looked up from it, menu navigation, and
 * the `lastAdminPath` entry it keeps in local storage for `AdminRoutes` to restore.
 */
module AdminLayout {
  import opened Wrappers
  import opened CinemaTypes
  import opened JsText
  import opened Collections
  import AppRoutes

  /** The side menu, as (key, label) pairs; statistics is not in it. */
  const MenuItems: seq<(string, string)> := [
    ("/admin", "Обзор"),
    ("/admin/movies", "Фильмы"),
    ("/admin/halls", "Залы"),
    ("/admin/sessions", "Сеансы"),
    ("/admin/users", "Пользователи")
  ]

  const FallbackTitle := "Панель управления"

  /** The header title: the label of the menu item whose key is the path, else the fallback. */
  function HeaderTitle(pathname: string): (title: string)
    ensures forall i :: 0 <= i < |MenuItems| && MenuItems[i].0 == pathname ==> title == MenuItems[i].1
    ensures (forall i :: 0 <= i < |MenuItems| ==> MenuItems[i].0 != pathname) ==> title == FallbackTitle
  {
    var found := Lookup(MenuItems, pathname);
    assert forall i, j :: 0 <= i < j < |MenuItems| ==> MenuItems[i].0 != MenuItems[j].0;
    if TruthyString(found) then found.value else FallbackTitle
  }

  /** The statistics page is routed but not in the menu, so its header falls back. */
  lemma StatisticsHasFallbackTitle(path: string)
    requires path == "/admin/statistics"
    ensures AppRoutes.Resolve(AppRoutes.PathSegments(path)) == AppRoutes.AdminArea(AppRoutes.StatisticsAdmin)
    ensures HeaderTitle(path) == FallbackTitle
  {
    StatisticsRouted(path);
    NotAMenuKey(path);
  }

  lemma StatisticsRouted(path: string)
    requires path == "/admin/statistics"
    ensures AppRoutes.Resolve(AppRoutes.PathSegments(path)) == AppRoutes.AdminArea(AppRoutes.StatisticsAdmin)
  {
    var child := "statistics";
    assert path == "/admin/" + child;
    ChildKeyResolves(path, child);
  }

  lemma NotAMenuKey(path: string)
    requires path == "/admin/statistics"
    ensures forall i :: 0 <= i < |MenuItems| ==> MenuItems[i].0 != path
  {
    forall i | 0 <= i < |MenuItems| ensures MenuItems[i].0 != path {
      assert MenuItems[i].0 != "/admin/statistics";
    }
  }

  /** The admin page each menu item stands for, in menu order. */
  const MenuPages: seq<AppRoutes.AdminPage> := [
    AppRoutes.Dashboard, AppRoutes.MoviesAdmin, AppRoutes.HallsAdmin, AppRoutes.SessionsAdmin, AppRoutes.UsersAdmin
  ]

  /** Every menu key is a path the router resolves to the matching page of the admin area. */
  lemma MenuKeysAreAdminRoutes(i: int)
    requires 0 <= i < |MenuItems|
    ensures AppRoutes.Resolve(AppRoutes.PathSegments(MenuItems[i].0)) == AppRoutes.AdminArea(MenuPages[i])
  {
    MenuKeyResolves(MenuItems[i].0, i);
  }

  lemma MenuKeyResolves(key: string, i: int)
    requires 0 <= i < |MenuItems| && key == MenuItems[i].0
    ensures AppRoutes.Resolve(AppRoutes.PathSegments(key)) == AppRoutes.AdminArea(MenuPages[i])
  {
    if i == 0 {
      AppRoutes.AdminRootSegments(key);
    } else {
      MenuKeyIsChildPath(i);
      ChildKeyResolves(key, MenuChild(i));
    }
  }

  /** The child segment of a menu key below `/admin`. */
  function MenuChild(i: int): string
    requires 1 <= i < |MenuItems|
  {
    ["movies", "halls", "sessions", "users"][i - 1]
  }

  lemma MenuKeyIsChildPath(i: int)
    requires 1 <= i < |MenuItems|
    ensures MenuItems[i].0 == "/admin/" + MenuChild(i)
    ensures AppRoutes.AdminChild(MenuChild(i)) == Some(MenuPages[i])
  {
  }

  lemma ChildKeyResolves(key: string, child: string)
    requires key == "/admin/" + child && AppRoutes.AdminChild(child).Some?
    ensures AppRoutes.Resolve(AppRoutes.PathSegments(key)) == AppRoutes.AdminArea(AppRoutes.AdminChild(child).value)
  {
    AppRoutes.ResolveAdminChild(child);
  }

  /**
   * One commit of `/admin` as written: React runs the layout's effect (a child) before the
   * effect of `AdminRoutes` (its parent), so the path is stored before it is read. Returns the
   * restore navigation and the stored path.
   */
  function CommitAsWritten(pathname: string, user: Option<User>, stored: Option<string>): (r: (Option<string>, Option<string>))
    ensures r.1 == Some(pathname)
  {
    var storedNow := Some(pathname);
    (AppRoutes.RestoreTarget(pathname, user, storedNow), storedNow)
  }

  /** As written, entering `/admin` never restores the last admin page, whatever was stored. */
  lemma AsWrittenNeverRestores(pathname: string, user: Option<User>, stored: Option<string>)
    ensures CommitAsWritten(pathname, user, stored).0.None?
  {
  }

  /** An admin returning to `/admin` after visiting the movies page stays on the dashboard. */
  lemma AsWrittenLosesMoviesPage(admin: User)
    requires admin.role == "admin"
    ensures CommitAsWritten("/admin", Some(admin), Some("/admin/movies")).0 == None
    ensures AppRoutes.RestoreTarget("/admin", Some(admin), Some("/admin/movies")) == Some("/admin/movies")
  {
  }

  /** The `lastAdminPath` entry, written on every admin path change and read on entering `/admin`. */
  class AdminPathStore {
    var lastAdminPath: Option<string>

    constructor (stored: Option<string>)
      ensures lastAdminPath == stored
    {
      lastAdminPath := stored;
    }

    /** The layout's effect: every path change is stored. */
    method PathChanged(pathname: string)
      modifies this
      ensures lastAdminPath == Some(pathname)
    {
      lastAdminPath := Some(pathname);
    }

    /** `handleMenuClick`: navigate to the clicked key, which the effect then stores. */
    method MenuClick(key: string) returns (navigatedTo: string)
      modifies this
      ensures navigatedTo == key
      ensures lastAdminPath == Some(key)
    {
      navigatedTo := key;
      PathChanged(key);
    }

    /**
     * A commit of an admin path with the stored path read before it is overwritten: the restore
     * rule decides on what was stored, and the path finally shown is what gets stored.
     */
    method CommitAdminRender(pathname: string, user: Option<User>) returns (redirect: Option<string>)
      modifies this
      ensures redirect == AppRoutes.RestoreTarget(pathname, user, old(lastAdminPath))
      ensures lastAdminPath == Some(if redirect.Some? then redirect.value else pathname)
    {
      redirect := AppRoutes.RestoreTarget(pathname, user, lastAdminPath);
      PathChanged(if redirect.Some? then redirect.value else pathname);
    }
  }

  /**
   * Visiting an admin page and then `/admin` brings the admin back to that page, and the page
   * stays stored; visiting `/admin` itself restores nothing.
   */
  lemma RestoreReturnsToLastPage(admin: User, page: string)
    requires admin.role == "admin"
    ensures page != "" && page != "/admin" ==> AppRoutes.RestoreTarget("/admin", Some(admin), Some(page)) == Some(page)
    ensures AppRoutes.RestoreTarget("/admin", Some(admin), Some("/admin")).None?
  {
  }
}
