/** The route guard in front of pages that need a signed-in user. */
module ProtectedRoute {
  import opened Wrappers
  import opened Store
  import opened Auth

  const LoginPath := "/login"

  datatype RouteView = LoadingView | Redirect(to: string) | RenderChildren

  /** Loading wins; otherwise no user means a redirect to the login page. */
  function Guard(loading: bool, currentUser: Option<AuthUser>): (v: RouteView)
    ensures loading ==> v == LoadingView
    ensures !loading && currentUser.None? ==> v == Redirect(LoginPath)
    ensures !loading && currentUser.Some? ==> v == RenderChildren
  {
    if loading then LoadingView
    else if currentUser.None? then Redirect(LoginPath)
    else RenderChildren
  }

  /** The children are never rendered without a signed-in user. */
  lemma RenderNeedsUser(loading: bool, currentUser: Option<AuthUser>)
    ensures Guard(loading, currentUser) == RenderChildren ==> !loading && currentUser.Some?
  {
  }

  /** Before the first state-change event the guard shows the loading view;
      after any event it renders exactly when the event carried a user. */
  lemma GuardAfterEvent(s: AuthState, user: Option<AuthUser>, users: map<Uid, UserProfile>, readOk: bool)
    ensures Guard(InitialAuth.loading, InitialAuth.currentUser) == LoadingView
    ensures var r := OnAuthStateChanged(s, user, users, readOk);
      Guard(r.loading, r.currentUser) == (if user.Some? then RenderChildren else Redirect(LoginPath))
  {
  }
}
