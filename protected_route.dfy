/**
 * The route guard of the single-page client: it either redirects or renders the
 * protected page, from the authentication store's state.
 */
module ProtectedRoute {
  import opened Wrappers

  /** The part of the client's user the guard reads; `isAdmin` is an optional property. */
  datatype ClientUser = ClientUser(isAdmin: Option<bool>)

  /** The authentication store: a flag and the signed-in user, each maintained separately. */
  datatype AuthState = AuthState(isAuthenticated: bool, user: Option<ClientUser>)

  datatype Outcome = Redirect(to: string) | RenderChildren

  /** `user?.isAdmin` read as a condition: a missing user or property counts as false. */
  predicate IsAdmin(auth: AuthState)
  {
    auth.user.Some? && auth.user.value.isAdmin == Some(true)
  }

  /** The guard's decision for a route that may require an administrator. */
  function Guard(auth: AuthState, requireAdmin: bool): (r: Outcome)
    ensures r == Redirect("/login") <==> !auth.isAuthenticated
    ensures r == Redirect("/") <==> auth.isAuthenticated && requireAdmin && !IsAdmin(auth)
    ensures r == RenderChildren <==> auth.isAuthenticated && (!requireAdmin || IsAdmin(auth))
  {
    if !auth.isAuthenticated then Redirect("/login")
    else if requireAdmin && !IsAdmin(auth) then Redirect("/")
    else RenderChildren
  }

  /** A route declared without `requireAdmin`. */
  function GuardDefault(auth: AuthState): (r: Outcome)
    ensures r == RenderChildren <==> auth.isAuthenticated
    ensures r != RenderChildren ==> r == Redirect("/login")
  {
    Guard(auth, false)
  }

  /** An admin route admits fewer states than a plain one, and the two differ only on authenticated non-admins. */
  lemma AdminRouteIsStricter(auth: AuthState)
    ensures Guard(auth, true) == RenderChildren ==> Guard(auth, false) == RenderChildren
    ensures Guard(auth, true) != Guard(auth, false) <==> auth.isAuthenticated && !IsAdmin(auth)
  {
  }
}
