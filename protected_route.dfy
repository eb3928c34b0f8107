// The access decision of frontend/src/routes/ProtectedRoute.jsx.

module ProtectedRoute {
  import opened Wrappers

  /** What the authentication context reports. */
  datatype AuthState = AuthState(loading: bool, isAuthenticated: bool, userRole: Option<string>)

  datatype Outcome =
    | Spinner
    | RedirectLogin(from: string)   // to "/login", remembering where the user was
    | RedirectHome                  // to "/"
    | Outlet                        // the protected page

  /** `requiredRole` is in force when it is a non-empty string. */
  predicate RoleRequired(requiredRole: Option<string>) {
    requiredRole.Some? && requiredRole.value != ""
  }

  function Decide(auth: AuthState, requiredRole: Option<string>, location: string): (o: Outcome)
    ensures auth.loading ==> o == Spinner
    ensures !auth.loading && !auth.isAuthenticated ==> o == RedirectLogin(location)
    ensures o == RedirectHome <==>
              !auth.loading && auth.isAuthenticated && RoleRequired(requiredRole) && auth.userRole != requiredRole
    ensures o == Outlet <==>
              !auth.loading && auth.isAuthenticated && (!RoleRequired(requiredRole) || auth.userRole == requiredRole)
  {
    if auth.loading then Spinner
    else if !auth.isAuthenticated then RedirectLogin(location)
    else if RoleRequired(requiredRole) && auth.userRole != requiredRole then RedirectHome
    else Outlet
  }

  /** Without a required role, every authenticated user gets the page once
      loading is over, whatever the role. */
  lemma NoRoleAnyAuthenticatedPasses(role: Option<string>, location: string)
    ensures Decide(AuthState(false, true, role), None, location) == Outlet
  {
  }

  /** A user with no role at all never reaches a page that requires one. */
  lemma MissingRoleRedirected(required: string, location: string)
    requires required != ""
    ensures Decide(AuthState(false, true, None), Some(required), location) == RedirectHome
  {
  }
}
