/** The guard that holds a signed-in user on the change-password form until
    the password has been changed. */
module PasswordChangeGuard {
  import opened Common
  import opened Types
  import opened AuthContext
  import opened PasswordPolicy

  const LoginPath := "/login"
  const ChangePasswordPath := "/change-password"

  /** What the guard renders: a redirect to the login page remembering the
      requested path, the change-password form, or the page itself. */
  datatype GuardView = ToLogin(from: string) | ChangeForm | Content

  function Decide(st: AuthState, path: string): (v: GuardView)
    ensures v.ToLogin? <==> st.user.None?
    ensures v.ToLogin? ==> v.from == path
    ensures v == ChangeForm <==> st.user.Some? && st.passwordChangeRequired && path != ChangePasswordPath
    ensures v == Content <==> st.user.Some? && (!st.passwordChangeRequired || path == ChangePasswordPath)
  {
    if st.user.None? then ToLogin(path)
    else if st.passwordChangeRequired && path != ChangePasswordPath then ChangeForm
    else Content
  }

  /** On a consistent state the form is forced only on a user whose profile
      asks for a new password. */
  lemma FormOnlyWhenProfileAsks(st: AuthState, path: string)
    requires Consistent(st)
    requires Decide(st, path) == ChangeForm
    ensures st.userData.Some? && st.userData.value.passwordChangeRequired == Some(true)
  {
  }

  /** A fully successful password change releases the guard on every path. */
  lemma ChangeReleasesGuard(st: AuthState, current: string, newPassword: string, path: string)
    requires st.user.Some? && st.userData.Some?
    requires IsPasswordValid(newPassword)
    ensures Decide(ChangePassword(st, current, newPassword, true, None, None).state, path) == Content
  {
  }
}
