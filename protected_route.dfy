/** The route guard: what a protected route shows for the current authentication state. */
module ProtectedRoute {
  import opened Wrappers
  import opened CinemaTypes

  /** What the guard renders: a loading screen with its tip, a redirect, or the protected page. */
  datatype GuardOutcome =
    | ShowLoading(tip: string)
    | RedirectToLogin(from: string)
    | RedirectHome
    | RenderChildren

  predicate IsAdmin(user: Option<User>) {
    user.Some? && user.value.role == "admin"
  }

  /**
   * The guard's cascade. `hasToken` is `localStorage.getItem('token') !== null`, so an empty
   * token counts as present here.
   */
  function Guard(loading: bool, user: Option<User>, hasToken: bool, requireAdmin: bool, location: string): (o: GuardOutcome)
    ensures loading ==> o == ShowLoading("Загрузка данных...")
    ensures !loading && user.None? && !hasToken ==> o == RedirectToLogin(location)
    ensures !loading && user.None? && hasToken ==> o == ShowLoading("Проверка авторизации...")
    ensures !loading && user.Some? && requireAdmin && !IsAdmin(user) ==> o == RedirectHome
    ensures o == RenderChildren <==> !loading && user.Some? && (!requireAdmin || IsAdmin(user))
  {
    if loading then ShowLoading("Загрузка данных...")
    else if user.None? && !hasToken then RedirectToLogin(location)
    else if user.None? && hasToken then ShowLoading("Проверка авторизации...")
    else if requireAdmin && !IsAdmin(user) then RedirectHome
    else RenderChildren
  }

  /** Nobody is ever sent to the login page while a token is stored or a user is present. */
  lemma LoginRedirectOnlyWhenSignedOut(loading: bool, user: Option<User>, hasToken: bool, requireAdmin: bool, location: string)
    ensures Guard(loading, user, hasToken, requireAdmin, location).RedirectToLogin? <==> !loading && user.None? && !hasToken
  {
  }

  /** Requiring admin only ever narrows access: whatever the admin guard renders, the plain guard renders too. */
  lemma AdminGuardIsStricter(loading: bool, user: Option<User>, hasToken: bool, location: string)
    ensures Guard(loading, user, hasToken, true, location) == RenderChildren ==>
              Guard(loading, user, hasToken, false, location) == RenderChildren
    ensures Guard(loading, user, hasToken, true, location) != Guard(loading, user, hasToken, false, location) ==>
              Guard(loading, user, hasToken, true, location) == RedirectHome
  {
  }
}
