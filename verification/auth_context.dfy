/** The auth context: the signed-in user, the profile row read from `users`,
    the role flags derived from it, and the sign-in and change-password
    sequences. Every remote outcome is a parameter. */
module AuthContext {
  import opened Common
  import opened Types
  import opened PasswordPolicy

  const LoadFailedNotice := "Failed to load user data. Please try signing in again."
  const SignInFailedNotice := "Failed to sign in. Please check your credentials and try again."
  const NoUserNotice := "Authentication failed. Please try again."
  const SignedInNotice := "Successfully signed in!"
  const WeakPasswordMessage := "New password does not meet requirements"
  const WrongPasswordMessage := "Current password is incorrect"

  /** The authenticated account (`SupabaseUser`): its id and email. */
  datatype AuthUser = AuthUser(id: string, email: Option<string>)

  datatype AuthState = AuthState(
    user: Option<AuthUser>,
    userData: Option<User>,
    isAdmin: bool,
    isSuperAdmin: bool,
    loading: bool,
    passwordChangeRequired: bool)

  /** The provider's state before the first session check. */
  const Initial := AuthState(None, None, false, false, true, false)

  /** The flags agree with the profile: both role flags come from its role,
      a super-admin is an admin, and without a profile every flag is off.
      The password flag may be cleared while the profile still holds it. */
  ghost predicate Consistent(st: AuthState) {
    && (st.isSuperAdmin ==> st.isAdmin)
    && (st.userData.None? ==> !st.isAdmin && !st.isSuperAdmin && !st.passwordChangeRequired)
    && (st.userData.Some? ==>
          && st.isAdmin == (st.userData.value.role == Admin || st.userData.value.role == SuperAdmin)
          && st.isSuperAdmin == (st.userData.value.role == SuperAdmin))
    && (st.passwordChangeRequired ==>
          st.userData.Some? && st.userData.value.passwordChangeRequired == Some(true))
  }

  /** No profile: profile and flags cleared, everything else kept. */
  function Cleared(st: AuthState): (r: AuthState)
    ensures Consistent(r)
    ensures r.user == st.user && r.loading == st.loading
  {
    st.(userData := None, isAdmin := false, isSuperAdmin := false, passwordChangeRequired := false)
  }

  /** What `loadUserData` leaves behind: the new state and the error notice
      it shows, if any. It has no error result because it never rethrows. */
  datatype Loaded = Loaded(state: AuthState, notice: Option<string>)

  /** `loadUserData`, given the outcome of reading the profile row. A read
      error clears the profile and flags; the error it throws is caught at
      the end of the same function, which only shows a notice. */
  function LoadUserData(st: AuthState, read: Remote<User>): (r: Loaded)
    ensures Consistent(r.state)
    ensures r.state.user == st.user && r.state.loading == st.loading
    ensures r.state.userData == (if read.Found? then Some(read.row) else None)
    ensures read.Found? ==>
      && r.state.isAdmin == (read.row.role == Admin || read.row.role == SuperAdmin)
      && r.state.isSuperAdmin == (read.row.role == SuperAdmin)
      && r.state.passwordChangeRequired == read.row.passwordChangeRequired.GetOr(false)
    ensures r.notice == (if read.Failed? then Some(LoadFailedNotice) else None)
  {
    match read
    case Failed => Loaded(Cleared(st), Some(LoadFailedNotice))
    case NotFound => Loaded(Cleared(st), None)
    case Found(row) =>
      Loaded(st.(userData := Some(row),
                 isAdmin := row.role == Admin || row.role == SuperAdmin,
                 isSuperAdmin := row.role == SuperAdmin,
                 passwordChangeRequired := row.passwordChangeRequired.GetOr(false)), None)
  }

  /** The `onAuthStateChange` callback: record the session's user, load its
      profile or clear everything, and stop loading. */
  function SessionChanged(st: AuthState, session: Option<AuthUser>, read: Remote<User>): (r: AuthState)
    ensures Consistent(r)
    ensures r.user == session && !r.loading
    ensures session.None? ==> r.userData.None? && !r.isAdmin && !r.isSuperAdmin && !r.passwordChangeRequired
    ensures session.Some? ==> r == LoadUserData(st.(user := session, loading := false), read).state
  {
    var s := st.(user := session, loading := true);
    var after := if session.Some? then LoadUserData(s, read).state else Cleared(s);
    after.(loading := false)
  }

  /** Every transition of the provider keeps the flags consistent. */
  lemma SessionKeepsFlagsConsistent(st: AuthState, session: Option<AuthUser>, read: Remote<User>)
    ensures Consistent(SessionChanged(st, session, read))
    ensures SessionChanged(st, session, read).isSuperAdmin ==> SessionChanged(st, session, read).isAdmin
  {
  }

  /** The remote calls `signIn` makes, in order. */
  datatype AuthCall = GetSession | SignOutCall | SignInWithPassword | LoadProfile(userId: string)

  /** What `signInWithPassword` returns. */
  datatype SignInOutcome = AuthError(message: string) | NoUser | Authenticated(account: AuthUser)

  datatype SignInRun = SignInRun(calls: seq<AuthCall>, state: AuthState, notices: seq<string>, result: Result<()>)

  /** `signIn`: sign out an existing session first, then authenticate; an
      auth error is rethrown, no user returns quietly, and a user has its
      profile loaded. */
  function SignIn(st: AuthState, hasSession: bool, outcome: SignInOutcome, read: Remote<User>): (r: SignInRun)
    ensures |r.calls| >= 2 && r.calls[0] == GetSession
    ensures SignOutCall in r.calls <==> hasSession
    ensures hasSession ==> r.calls[1] == SignOutCall
    ensures r.calls[|r.calls| - 1] == SignInWithPassword || r.calls[|r.calls| - 1].LoadProfile?
    ensures r.result.Err? <==> outcome.AuthError?
    ensures outcome.AuthError? ==> r.result.message == outcome.message && r.notices == [SignInFailedNotice]
    ensures outcome.NoUser? ==> r.notices == [NoUserNotice]
    ensures (exists i :: 0 <= i < |r.calls| && r.calls[i].LoadProfile?) <==> outcome.Authenticated?
    ensures !outcome.Authenticated? ==> r.state == st
    ensures outcome.Authenticated? ==> r.state == LoadUserData(st, read).state
  {
    var before := if hasSession then [GetSession, SignOutCall] else [GetSession];
    var calls := before + [SignInWithPassword];
    match outcome
    case AuthError(msg) => SignInRun(calls, st, [SignInFailedNotice], Err(msg))
    case NoUser => SignInRun(calls, st, [NoUserNotice], Ok(()))
    case Authenticated(account) =>
      var loaded := LoadUserData(st, read);
      var notices := (if loaded.notice.Some? then [loaded.notice.value] else []) + [SignedInNotice];
      SignInRun(calls + [LoadProfile(account.id)], loaded.state, notices, Ok(()))
  }

  /** Because the profile load swallows its own error, a sign-in whose
      profile read fails still reports success, never signs the account out
      again and leaves no profile behind. */
  lemma SignInIgnoresProfileFailure(st: AuthState, hasSession: bool, account: AuthUser)
    ensures SignIn(st, hasSession, Authenticated(account), Failed).result.Ok?
    ensures SignIn(st, hasSession, Authenticated(account), Failed).notices == [LoadFailedNotice, SignedInNotice]
    ensures SignIn(st, hasSession, Authenticated(account), Failed).state.userData.None?
    ensures multiset(SignIn(st, hasSession, Authenticated(account), Failed).calls)[SignOutCall] == (if hasSession then 1 else 0)
  {
    var r := SignIn(st, hasSession, Authenticated(account), Failed);
    if hasSession {
      assert r.calls == [GetSession, SignOutCall, SignInWithPassword, LoadProfile(account.id)];
    } else {
      assert r.calls == [GetSession, SignInWithPassword, LoadProfile(account.id)];
    }
  }

  /** The remote calls `changePassword` makes, in order. */
  datatype CredentialCall = VerifyCurrent(email: string, password: string) | UpdateCredential(password: string) | ClearFlag(userId: string)

  datatype ChangeRun = ChangeRun(calls: seq<CredentialCall>, state: AuthState, result: Result<()>)

  /** `changePassword`, given whether signing in with the current password
      succeeds, the error (if any) of the credential update and of the
      profile update. The first call signs in with the account's email and
      the current password. */
  function ChangePassword(st: AuthState, current: string, newPassword: string,
                          verified: bool, updateError: Option<string>, flagError: Option<string>): (r: ChangeRun)
    ensures !IsPasswordValid(newPassword) ==> r.calls == [] && r.result == Err(WeakPasswordMessage)
    ensures IsPasswordValid(newPassword) ==>
      |r.calls| >= 1 && r.calls[0] == VerifyCurrent(if st.user.Some? then StringOr(st.user.value.email, "") else "", current)
    ensures IsPasswordValid(newPassword) && !verified ==> r.calls == [r.calls[0]] && r.result == Err(WrongPasswordMessage)
    ensures |r.calls| <= 3
    ensures |r.calls| >= 2 <==> IsPasswordValid(newPassword) && verified
    ensures |r.calls| >= 2 ==> r.calls[1] == UpdateCredential(newPassword)
    ensures |r.calls| == 3 <==> IsPasswordValid(newPassword) && verified && updateError.None? && st.userData.Some?
    ensures |r.calls| == 3 ==> st.userData.Some? && r.calls[2] == ClearFlag(st.userData.value.id)
    ensures r.result.Ok? <==>
      IsPasswordValid(newPassword) && verified && updateError.None? && (st.userData.None? || flagError.None?)
    ensures r.state == st || r.state == st.(passwordChangeRequired := false)
    ensures r.state.passwordChangeRequired != st.passwordChangeRequired ==>
      IsPasswordValid(newPassword) && verified && updateError.None? && st.userData.Some? && flagError.None?
  {
    if !IsPasswordValid(newPassword) then ChangeRun([], st, Err(WeakPasswordMessage))
    else
      var verify := VerifyCurrent(if st.user.Some? then StringOr(st.user.value.email, "") else "", current);
      if !verified then ChangeRun([verify], st, Err(WrongPasswordMessage))
      else
        var calls := [verify, UpdateCredential(newPassword)];
        if updateError.Some? then ChangeRun(calls, st, Err(updateError.value))
        else if st.userData.None? then ChangeRun(calls, st, Ok(()))
        else
          var all := calls + [ClearFlag(st.userData.value.id)];
          if flagError.Some? then ChangeRun(all, st, Err(flagError.value))
          else ChangeRun(all, st.(passwordChangeRequired := false), Ok(()))
  }

  /** Changing the password never breaks the flags' consistency, and on full
      success the requirement is lifted. */
  lemma ChangePasswordKeepsConsistent(st: AuthState, current: string, newPassword: string,
                                      verified: bool, updateError: Option<string>, flagError: Option<string>)
    requires Consistent(st)
    ensures Consistent(ChangePassword(st, current, newPassword, verified, updateError, flagError).state)
    ensures IsPasswordValid(newPassword) && verified && updateError.None? && st.userData.Some? && flagError.None? ==>
      !ChangePassword(st, current, newPassword, verified, updateError, flagError).state.passwordChangeRequired
  {
  }

  /** The provider starts consistent, loading, with nobody signed in. */
  lemma InitialConsistent()
    ensures Consistent(Initial) && Initial.loading && Initial.user.None?
  {
  }
}
