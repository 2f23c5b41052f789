/** The change-password form: its fields, the policy flags shown under the
    new password, the form rule and the submit sequence. The outcome of the
    auth context's `changePassword` is a parameter. */
module ChangePasswordForm {
  import opened Common
  import opened PasswordPolicy
  import AuthContext

  datatype Form = Form(
    current: string,
    newPassword: string,
    confirm: string,
    validation: PasswordValidation,
    loading: bool,
    error: Option<string>)

  /** All fields empty, every flag off, nothing pending. */
  const Initial := Form("", "", "", PasswordValidation(false, false, false, false), false, None)

  /** The flags shown are the ones of the current new password. */
  predicate Synced(f: Form) {
    f.validation == ValidatePassword(f.newPassword)
  }

  /** The initial all-false flags are exactly those of the empty password. */
  lemma InitialSynced()
    ensures Synced(Initial)
  {
  }

  /** Typing into the new-password field; the effect recomputes the flags. */
  function SetNewPassword(f: Form, s: string): (r: Form)
    ensures Synced(r) && r.newPassword == s
    ensures r.current == f.current && r.confirm == f.confirm && r.loading == f.loading && r.error == f.error
  {
    f.(newPassword := s, validation := ValidatePassword(s))
  }

  /** Typing into the other two fields leaves the flags alone. */
  function SetCurrent(f: Form, s: string): (r: Form)
    ensures Synced(f) ==> Synced(r)
    ensures r.current == s && r.newPassword == f.newPassword && r.confirm == f.confirm
  {
    f.(current := s)
  }

  function SetConfirm(f: Form, s: string): (r: Form)
    ensures Synced(f) ==> Synced(r)
    ensures r.confirm == s && r.newPassword == f.newPassword && r.current == f.current
  {
    f.(confirm := s)
  }

  /** `isValid`: every flag holds, the two new entries agree, and the
      current password is given. */
  predicate IsValid(f: Form) {
    f.validation.All() && f.newPassword == f.confirm && |f.current| > 0
  }

  /** While the flags track the new password, the form rule is the policy
      plus agreement and a non-empty current password. */
  lemma IsValidMeansPolicy(f: Form)
    requires Synced(f)
    ensures IsValid(f) <==> IsPasswordValid(f.newPassword) && f.newPassword == f.confirm && |f.current| > 0
  {
  }

  /** The submit button is disabled for an invalid form or while saving. */
  predicate SubmitDisabled(f: Form) {
    !IsValid(f) || f.loading
  }

  /** An enabled button always reaches `changePassword`; a disabled one
      guards an invalid form or a save in progress. */
  lemma EnabledButtonSubmits(f: Form, outcome: Result<()>)
    ensures !SubmitDisabled(f) ==> HandleSubmit(f, outcome).called
    ensures !HandleSubmit(f, outcome).called ==> SubmitDisabled(f)
  {
  }

  /** What a submit leaves behind: the form, whether `changePassword` was
      called, and whether `onComplete` ran. */
  datatype Submitted = Submitted(form: Form, called: bool, completed: bool)

  /** `handleSubmit`, given the outcome of `changePassword`. */
  function HandleSubmit(f: Form, outcome: Result<()>): (r: Submitted)
    ensures !IsValid(f) ==> !r.called && !r.completed && r.form == f.(error := None)
    ensures IsValid(f) ==> r.called && !r.form.loading
    ensures r.completed <==> IsValid(f) && outcome.Ok?
    ensures IsValid(f) && outcome.Err? ==> r.form.error == Some(outcome.message)
    ensures r.form.error.Some? ==> r.called && outcome.Err?
    ensures r.form.current == f.current && r.form.newPassword == f.newPassword && r.form.confirm == f.confirm
    ensures Synced(f) ==> Synced(r.form)
  {
    var cleared := f.(error := None);
    if !IsValid(f) then Submitted(cleared, false, false)
    else match outcome
      case Ok(_) => Submitted(cleared.(loading := false), true, true)
      case Err(msg) => Submitted(cleared.(error := Some(msg), loading := false), true, false)
  }

  /** A form whose flags track its password never has its password refused
      by the auth context's own policy check: the first remote step, signing
      in with the current password typed into the form, is always reached. */
  lemma SubmittedPasswordPassesPolicy(f: Form, auth: AuthContext.AuthState,
                                      verified: bool, updateError: Option<string>, flagError: Option<string>)
    requires Synced(f) && IsValid(f)
    ensures var run := AuthContext.ChangePassword(auth, f.current, f.newPassword, verified, updateError, flagError);
      |run.calls| >= 1 && run.calls[0].VerifyCurrent? && run.calls[0].password == f.current
  {
    IsValidMeansPolicy(f);
  }
}
