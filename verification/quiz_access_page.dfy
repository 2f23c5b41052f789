/** The quiz entry page (`QuizAccess`): it validates the `token` query
    parameter once on mount, then asks for the registration details, and
    only then starts the quiz. */
module QuizAccessPage {
  import opened Common
  import opened Types
  import QS = QuizService
  import QuizPage

  const InvalidTokenMessage := "Invalid or expired quiz access token"
  const ValidationFailedMessage := "Failed to validate quiz access"
  const NoTokenMessage := "No quiz access token provided"

  datatype State = State(
    access: Option<QuizAccessGrant>,
    reg: QuizPage.Registration,
    error: Option<string>,
    loading: bool,
    validated: bool)

  function Initial(): State {
    State(None, QuizPage.Registration("", "", ""), None, false, false)
  }

  /** What `validateQuizAccess` did: returned a grant or `null`, or threw. */
  datatype Validation = Returned(access: Option<QuizAccessGrant>) | Threw

  /** The mount effect: a missing or empty `token` parameter starts no
      validation; otherwise the outcome is stored and loading ends either
      way. The second component says whether validation was attempted. */
  function Mount(st: State, token: Option<string>, outcome: Validation): (r: (State, bool))
    ensures r.1 <==> token.Some? && token.value != ""
    ensures !r.1 ==> r.0 == st
    ensures r.1 ==> !r.0.loading && r.0.reg == st.reg && r.0.validated == st.validated
    ensures r.1 && outcome == Returned(None) ==> r.0.error == Some(InvalidTokenMessage) && r.0.access == st.access
    ensures r.1 && outcome.Threw? ==> r.0.error == Some(ValidationFailedMessage) && r.0.access == st.access
    ensures r.1 && outcome.Returned? && outcome.access.Some? ==> r.0.access == outcome.access && r.0.error == st.error
  {
    if token.None? || token.value == "" then (st, false)
    else
      var done := st.(loading := false);
      match outcome
      case Returned(Some(g)) => (done.(access := Some(g)), true)
      case Returned(None) => (done.(error := Some(InvalidTokenMessage)), true)
      case Threw => (done.(error := Some(ValidationFailedMessage)), true)
  }

  /** `isValid`: all three registration fields are filled in. */
  predicate IsValid(st: State) {
    st.reg.ldap != "" && st.reg.supervisor != "" && st.reg.market != ""
  }

  /** Typing into the registration form. */
  function Edit(st: State, reg: QuizPage.Registration): (r: State)
    ensures r.reg == reg && r.(reg := st.reg) == st
  {
    st.(reg := reg)
  }

  /** `handleSubmit`: the form is accepted only while it is valid. */
  function HandleSubmit(st: State): (r: State)
    ensures r.validated <==> st.validated || IsValid(st)
    ensures r.(validated := st.validated) == st
  {
    if IsValid(st) then st.(validated := true) else st
  }

  datatype View =
    | LoadingView
    | ErrorView(message: string)
    | NoTokenView(message: string)
    | RegistrationView(startEnabled: bool)
    | QuizView(access: QuizAccessGrant, reg: QuizPage.Registration)

  /** The render precedence: loading, then an error, then a missing grant,
      then the registration form, and only then the quiz. */
  function Render(st: State): (v: View)
    ensures v.LoadingView? <==> st.loading
    ensures v.ErrorView? <==> !st.loading && st.error.Some?
    ensures v.NoTokenView? <==> !st.loading && st.error.None? && st.access.None?
    ensures v.RegistrationView? <==> !st.loading && st.error.None? && st.access.Some? && !st.validated
    ensures v.QuizView? <==> !st.loading && st.error.None? && st.access.Some? && st.validated
    ensures v.RegistrationView? ==> (v.startEnabled <==> IsValid(st))
    ensures v.QuizView? ==> v.access == st.access.value && v.reg == st.reg
    ensures v.NoTokenView? ==> v.message == NoTokenMessage
  {
    if st.loading then LoadingView
    else if st.error.Some? then ErrorView(st.error.value)
    else if st.access.None? then NoTokenView(NoTokenMessage)
    else if !st.validated then RegistrationView(IsValid(st))
    else QuizView(st.access.value, st.reg)
  }

  /** The gate: whenever the form has been accepted, it was valid. */
  ghost predicate Gate(st: State) {
    st.validated ==> IsValid(st)
  }

  /** Every step the page can take keeps the gate; the form can be edited
      only while it is on screen, that is before it is accepted. */
  lemma GatePreserved(st: State, token: Option<string>, outcome: Validation, reg: QuizPage.Registration)
    requires Gate(st)
    ensures Gate(Mount(st, token, outcome).0)
    ensures Gate(HandleSubmit(st))
    ensures Render(st).RegistrationView? ==> Gate(Edit(st, reg))
  {
  }

  /** The quiz is on screen only with a grant and a complete registration. */
  lemma QuizViewNeedsRegistration(st: State)
    requires Gate(st) && Render(st).QuizView?
    ensures st.access.Some? && IsValid(st)
  {
  }

  /** From a fresh page, the registration form appears exactly when the
      token validates against the grants table. */
  lemma MountAgainstTable(grants: seq<QuizAccessGrant>, token: string, reachable: bool, now: int)
    requires token != ""
    ensures var st := Mount(Initial(), Some(token), Returned(QS.ValidateToken(grants, token, reachable, now))).0;
      && (Render(st).RegistrationView? <==> QS.ValidateToken(grants, token, reachable, now).Some?)
      && (Render(st).ErrorView? <==> QS.ValidateToken(grants, token, reachable, now).None?)
  {
  }

  /** Without a token the page says so and never starts the quiz. */
  lemma NoTokenNoQuiz(outcome: Validation)
    ensures Render(Mount(Initial(), None, outcome).0) == NoTokenView(NoTokenMessage)
    ensures Render(Mount(Initial(), Some(""), outcome).0) == NoTokenView(NoTokenMessage)
  {
  }
}
