/** The route guard that needs a loaded profile and, optionally, one of a
    list of roles. */
module ProtectedRoute {
  import opened Types
  import opened AuthContext

  const LoginPath := "/login"
  const FallbackPath := "/study-guides"

  /** What the guard renders. */
  datatype RouteView = Placeholder | Redirect(to: string) | Children

  /** The decision: wait while loading, send a visitor without a profile to
      the login page, send a user without an allowed role to the guide list,
      and otherwise render the page. No roles listed means any role. */
  function Decide(st: AuthState, allowedRoles: seq<Role>): (v: RouteView)
    ensures v == Placeholder <==> st.loading
    ensures v == Redirect(LoginPath) <==> !st.loading && st.userData.None?
    ensures v == Redirect(FallbackPath) <==>
      !st.loading && st.userData.Some? && |allowedRoles| > 0 && st.userData.value.role !in allowedRoles
    ensures v == Children <==>
      !st.loading && st.userData.Some? && (|allowedRoles| == 0 || st.userData.value.role in allowedRoles)
  {
    if st.loading then Placeholder
    else if st.userData.None? then Redirect(LoginPath)
    else if |allowedRoles| > 0 && st.userData.value.role !in allowedRoles then Redirect(FallbackPath)
    else Children
  }

  /** On a consistent auth state, an admin-only page renders only for a
      user whose admin flag is set, and a super-admin page only for a
      super-admin. */
  lemma RoleRoutesMatchFlags(st: AuthState)
    requires Consistent(st)
    ensures Decide(st, [Admin, SuperAdmin]) == Children ==> st.isAdmin
    ensures Decide(st, [SuperAdmin]) == Children <==> !st.loading && st.isSuperAdmin
  {
  }
}
