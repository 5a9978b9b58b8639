/** The navigation bar's route guard: a fixed list of protected paths,
    matched exactly, sends a signed-out visitor to the sign-in page. */
module Navbar {
  import opened Wrappers

  const ProtectedRoutes: seq<string> := ["/dashboard", "/profile", "/settings"]
  const AuthRoute: string := "/auth"
  const HomeRoute: string := "/"

  predicate IsProtected(path: string) {
    path in ProtectedRoutes
  }

  /** `handleProtectedNavigation(href)`: where the router is pushed. */
  function NavigateTarget(signedIn: bool, href: string): (r: string)
    ensures r == AuthRoute <==> href == AuthRoute || (!signedIn && IsProtected(href))
    ensures r != href ==> r == AuthRoute
  {
    if !signedIn && IsProtected(href) then AuthRoute else href
  }

  /** What the auth-state listener does when it fires. */
  datatype AuthState = AuthState(signedIn: bool, loading: bool, redirect: Option<string>)

  /** The `onAuthStateChanged` callback: records the user, clears the
      loading flag, and redirects a signed-out visitor on a protected path. */
  function AuthChanged(signedIn: bool, pathname: string): (r: AuthState)
    ensures r.signedIn == signedIn && !r.loading
    ensures r.redirect.Some? <==> !signedIn && IsProtected(pathname)
    ensures r.redirect.Some? ==> r.redirect.value == AuthRoute
  {
    AuthState(signedIn, false, if !signedIn && IsProtected(pathname) then Some(AuthRoute) else None)
  }

  /** `handleSignOut`: home after a successful sign-out, nowhere after a
      failed one. */
  function SignOutTarget(signOutOk: bool): (r: Option<string>)
    ensures r.Some? <==> signOutOk
    ensures r.Some? ==> r.value == HomeRoute && !IsProtected(r.value)
  {
    if signOutOk then Some(HomeRoute) else None
  }

  /** The listener redirects from a path exactly when a click on a link to
      that path would be turned away, and to the same place; on the sign-in
      page itself neither moves. */
  lemma ListenerAgreesWithNavigation(signedIn: bool, path: string)
    ensures AuthChanged(signedIn, path).redirect.Some? <==> NavigateTarget(signedIn, path) != path
    ensures AuthChanged(signedIn, path).redirect.Some? ==>
      AuthChanged(signedIn, path).redirect.value == NavigateTarget(signedIn, path)
  {
  }

  /** A signed-in user is never redirected, and the sign-in page itself is
      never protected, so navigating to where the guard sent you stays put. */
  lemma GuardLaws(signedIn: bool, href: string)
    ensures signedIn ==> NavigateTarget(signedIn, href) == href
    ensures NavigateTarget(signedIn, NavigateTarget(signedIn, href)) == NavigateTarget(signedIn, href)
  {
  }

  /** Matching is exact: a path below a protected one, such as the evaluate
      page or a result page, is not guarded. */
  lemma NestedPathsUnguarded(signedIn: bool, rest: string)
    requires |rest| > 0
    ensures NavigateTarget(signedIn, "/dashboard" + rest) == "/dashboard" + rest
    ensures NavigateTarget(false, "/dashboard") == AuthRoute
  {
    assert |"/dashboard" + rest| > |"/dashboard"|;
    assert "/dashboard" + rest != "/profile" by {
      assert ("/dashboard" + rest)[1] == 'd';
    }
    assert "/dashboard" + rest != "/settings" by {
      assert ("/dashboard" + rest)[1] == 'd';
    }
  }
}
