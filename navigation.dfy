/** The site header: its menu items and its sign-in or sign-out buttons. */
module Navigation {
  import opened Wrappers
  import opened CinemaTypes
  import ProtectedRoute

  /** The menu keys: home always, the profile for a signed-in user, the admin panel for an admin. */
  function MenuKeys(user: Option<User>): (keys: seq<string>)
    ensures |keys| >= 1 && keys[0] == "/"
    ensures "/profile" in keys <==> user.Some?
    ensures "/admin" in keys <==> ProtectedRoute.IsAdmin(user)
    ensures user.None? ==> keys == ["/"]
    ensures user.Some? && !ProtectedRoute.IsAdmin(user) ==> keys == ["/", "/profile"]
    ensures ProtectedRoute.IsAdmin(user) ==> keys == ["/", "/profile", "/admin"]
    ensures |keys| <= 3
  {
    ["/"] + (if user.Some? then ["/profile"] + (if user.value.role == "admin" then ["/admin"] else []) else [])
  }

  /** The buttons on the right of the header. */
  datatype HeaderButtons = LogoutButton | LoginAndRegisterButtons

  function Buttons(user: Option<User>): (b: HeaderButtons)
    ensures b == LogoutButton <==> user.Some?
  {
    if user.Some? then LogoutButton else LoginAndRegisterButtons
  }

  /** The admin item is offered exactly to those the admin guard lets in once loading is over. */
  lemma AdminItemMatchesGuard(user: Option<User>, hasToken: bool, location: string)
    ensures "/admin" in MenuKeys(user) <==>
              ProtectedRoute.Guard(false, user, hasToken, true, location) == ProtectedRoute.RenderChildren
  {
  }

  /** The profile item is offered exactly to those the plain guard lets in once loading is over. */
  lemma ProfileItemMatchesGuard(user: Option<User>, hasToken: bool, location: string)
    ensures "/profile" in MenuKeys(user) <==>
              ProtectedRoute.Guard(false, user, hasToken, false, location) == ProtectedRoute.RenderChildren
  {
  }
}
