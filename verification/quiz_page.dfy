/** The quiz page (`Quiz`): it collects the finished attempt from the quiz
    content, asks for confirmation, submits through the quiz service, and
    then shows the result or leaves for the error page. */
module QuizPage {
  import opened Common
  import opened Types
  import opened JsOrder
  import opened RandomText
  import QC = QuizContent
  import QS = QuizService

  /** A notification raised with `toast`. */
  datatype Notice = Warning(message: string) | Success(message: string) | Failure(message: string)

  /** What the result screen shows (`quizState`). */
  datatype Outcome = Outcome(
    score: real,
    questions: seq<Question>,
    answers: seq<Option<QC.Answer>>,
    timeTaken: int,
    passed: bool,
    certificateUrl: Option<string>)

  /** The registration details collected before the quiz starts. */
  datatype Registration = Registration(ldap: string, supervisor: string, market: string)

  datatype State = State(
    showResult: bool,
    dialogOpen: bool,
    pending: Option<QC.Completion>,
    outcome: Option<Outcome>,
    route: Option<string>)

  function Initial(): State {
    State(false, false, None, None, None)
  }

  const SubmitFailedNotice := "Failed to submit quiz results"
  const ErrorRoute := "/error"
  const PassedNotice := "Congratulations! You have passed the quiz!"
  const FailedNotice := "Quiz completed. Keep studying and try again."

  /** An answer slot that holds a non-empty selection. */
  predicate IsAnswered(a: Option<QC.Answer>) {
    a.Some? && |a.value.selectedIndices| > 0
  }

  /** The positions of the answered slots. */
  ghost function AnsweredPositions(answers: seq<Option<QC.Answer>>): set<nat> {
    set i: nat | i < |answers| && IsAnswered(answers[i])
  }

  /** The number of answers with at least one selected option. */
  function AnsweredCount(answers: seq<Option<QC.Answer>>): (n: nat)
    ensures n == |AnsweredPositions(answers)|
    ensures n <= |answers|
    ensures n == |answers| <==> forall i :: 0 <= i < |answers| ==> answers[i].Some? && |answers[i].value.selectedIndices| > 0
    ensures n == 0 <==> forall i :: 0 <= i < |answers| ==> answers[i].None? || |answers[i].value.selectedIndices| == 0
  {
    if |answers| == 0 then
      assert AnsweredPositions(answers) == {};
      0
    else
      var last := |answers| - 1;
      var a := answers[last];
      var p := answers[..last];
      assert forall i :: 0 <= i < |p| ==> p[i] == answers[i];
      assert last !in AnsweredPositions(p);
      assert AnsweredPositions(answers) == AnsweredPositions(p) + (if IsAnswered(a) then {last} else {});
      AnsweredCount(p) + (if IsAnswered(a) then 1 else 0)
  }

  /** `questions.length - answers.filter(a => a?.selectedIndices.length > 0).length`. */
  function UnansweredCount(c: QC.Completion): int {
    |c.questions| - AnsweredCount(c.answers)
  }

  const WarningPrefix := "You have "

  /** The text after the number: "question" for one, "questions" above one. */
  function WarningTail(count: nat): (t: string)
    ensures |t| > 0 && t[0] == ' '
  {
    " unanswered question" + (if count > 1 then "s" else "") + ". Are you sure you want to submit?"
  }

  /** The warning text: the prefix, then the count's decimal digits, then
      the rest of the sentence. */
  function UnansweredWarning(count: nat): (w: string)
    ensures var d := DecimalString(count);
      && |w| > |WarningPrefix| + |d|
      && w[..|WarningPrefix|] == WarningPrefix
      && w[|WarningPrefix|..|WarningPrefix| + |d|] == d
      && DigitsValue(d) == count
      && w[|WarningPrefix| + |d|..] == WarningTail(count)
  {
    DecimalRoundTrip(count);
    WarningPrefix + DecimalString(count) + WarningTail(count)
  }

  /** Two digit runs that start at the same place of a text and are both
      followed by a space are the same run. */
  lemma DigitsBeforeSpace(w: string, k: nat, d1: string, d2: string)
    requires AllDigits(d1) && AllDigits(d2)
    requires k + |d1| < |w| && w[k..k + |d1|] == d1 && w[k + |d1|] == ' '
    requires k + |d2| < |w| && w[k..k + |d2|] == d2 && w[k + |d2|] == ' '
    ensures d1 == d2
  {
    var m := if |d1| < |d2| then |d1| else |d2|;
    assert w[k + m] == ' ';
    assert |d1| == |d2|;
  }

  /** The warning determines the count it reports. */
  lemma UnansweredWarningNamesCount(a: nat, b: nat)
    ensures UnansweredWarning(a) == UnansweredWarning(b) <==> a == b
  {
    if UnansweredWarning(a) == UnansweredWarning(b) {
      var k := |WarningPrefix|;
      var w := UnansweredWarning(a);
      var da, db := DecimalString(a), DecimalString(b);
      assert w[k + |da|] == w[k + |da|..][0] == WarningTail(a)[0];
      assert w[k + |db|] == w[k + |db|..][0] == WarningTail(b)[0];
      DigitsBeforeSpace(w, k, da, db);
      DecimalStringInjective(a, b);
    }
  }

  /** The warning is in the plural exactly when the count is above one. */
  lemma WarningPluralAboveOne(count: nat)
    ensures WarningTail(count) == WarningTail(2) <==> count > 1
  {
    assert |WarningTail(count)| == |WarningTail(2)| <==> count > 1;
  }

  /** `handleQuizComplete`: the attempt is held for confirmation and the
      dialog opened, with a warning only when some question is unanswered. */
  function HandleQuizComplete(st: State, c: QC.Completion): (r: (State, Option<Notice>))
    ensures r.0 == st.(pending := Some(c), dialogOpen := true)
    ensures r.1.Some? <==> UnansweredCount(c) > 0
    ensures r.1.Some? ==> r.1 == Some(Warning(UnansweredWarning(UnansweredCount(c) as nat)))
  {
    var count := UnansweredCount(c);
    (st.(pending := Some(c), dialogOpen := true),
     if count > 0 then Some(Warning(UnansweredWarning(count as nat))) else None)
  }

  /** A fully answered attempt raises no warning. */
  lemma FullyAnsweredNoWarning(st: State, c: QC.Completion)
    requires |c.answers| == |c.questions|
    requires forall i :: 0 <= i < |c.answers| ==> c.answers[i].Some? && |c.answers[i].value.selectedIndices| > 0
    ensures HandleQuizComplete(st, c).1.None?
  {
  }

  /** The remote steps of a confirmation; `None` when nothing was sent. */
  datatype Confirmed = Confirmed(state: State, submission: Option<QS.SubmitRun>, notice: Option<Notice>)

  /** The submission parameters built from the grant, the registration and
      the held attempt. */
  function ParamsFor(access: QuizAccessGrant, reg: Registration, c: QC.Completion): (p: QS.SubmitParams)
    ensures p.quizId == access.quizId && p.quizType == Some(access.quizType)
    ensures p.ldap == Some(reg.ldap) && p.supervisor == Some(reg.supervisor) && p.market == Some(reg.market)
    ensures p.answers == c.answers && p.score == c.score && p.timeTaken == c.timeTaken
  {
    QS.SubmitParams(access.quizId, Some(access.quizType), Some(reg.ldap), Some(reg.supervisor), Some(reg.market),
                    c.answers, c.score, c.timeTaken)
  }

  /** `handleConfirmSubmit`. The remote outcomes of the submission are
      parameters, as for `submitQuiz`. */
  function ConfirmSubmit(st: State, access: QuizAccessGrant, reg: Registration, grants: seq<QuizAccessGrant>,
                         markOk: bool, certificate: Option<string>, insertOk: bool, now: int): (r: Confirmed)
    ensures st.pending.None? ==> r == Confirmed(st, None, None)
    ensures st.pending.Some? ==> !r.state.dialogOpen && r.state.pending.None? && r.submission.Some?
    ensures st.pending.Some? ==> r.submission == Some(QS.SubmitQuiz(ParamsFor(access, reg, st.pending.value), grants, markOk, certificate, insertOk, now))
    ensures st.pending.Some? && insertOk ==>
      && r.state.showResult && r.state.route == st.route && r.state.outcome.Some?
      && r.state.outcome.value.score == st.pending.value.score
      && r.state.outcome.value.questions == st.pending.value.questions
      && r.state.outcome.value.answers == st.pending.value.answers
      && (r.state.outcome.value.passed <==> st.pending.value.score >= QS.PassMark)
      && (r.state.outcome.value.certificateUrl.Some? ==> r.state.outcome.value.passed)
      && r.notice == Some(Success(if r.state.outcome.value.passed then PassedNotice else FailedNotice))
    ensures st.pending.Some? && !insertOk ==>
      && r.state.route == Some(ErrorRoute) && r.state.showResult == st.showResult
      && r.state.outcome == st.outcome && r.notice == Some(Failure(SubmitFailedNotice))
  {
    match st.pending
    case None => Confirmed(st, None, None)
    case Some(c) =>
      var run := QS.SubmitQuiz(ParamsFor(access, reg, c), grants, markOk, certificate, insertOk, now);
      var closed := st.(dialogOpen := false, pending := None);
      match run.outcome
      case Ok(row) =>
        var passed := row.scoreText == QS.PassText;
        Confirmed(closed.(outcome := Some(Outcome(c.score, c.questions, c.answers, c.timeTaken, passed, row.pdfUrl)),
                          showResult := true),
                  Some(run), Some(Success(if passed then PassedNotice else FailedNotice)))
      case Err(_) =>
        Confirmed(closed.(route := Some(ErrorRoute)), Some(run), Some(Failure(SubmitFailedNotice)))
  }

  /** The stored row carries the registration as entered: once the
      registration gate has let the quiz start, the 'Anonymous' and 'Unknown'
      defaults never apply. */
  lemma ConfirmedRowKeepsRegistration(st: State, access: QuizAccessGrant, reg: Registration, grants: seq<QuizAccessGrant>,
                                      markOk: bool, certificate: Option<string>, now: int)
    requires st.pending.Some?
    requires reg.ldap != "" && reg.supervisor != "" && reg.market != ""
    ensures var run := ConfirmSubmit(st, access, reg, grants, markOk, certificate, true, now).submission.value;
      && run.outcome.Ok?
      && run.outcome.value.ldap == reg.ldap
      && run.outcome.value.supervisor == reg.supervisor
      && run.outcome.value.market == reg.market
  {
  }

  /** `handleCancelSubmit`: nothing is sent and the held attempt is dropped. */
  function CancelSubmit(st: State): (r: State)
    ensures !r.dialogOpen && r.pending.None?
    ensures r.showResult == st.showResult && r.outcome == st.outcome && r.route == st.route
  {
    st.(dialogOpen := false, pending := None)
  }

  /** Completing and then cancelling returns to the state before, apart from
      the (already closed) dialog. */
  lemma CompleteThenCancel(st: State, c: QC.Completion)
    requires !st.dialogOpen && st.pending.None?
    ensures CancelSubmit(HandleQuizComplete(st, c).0) == st
  {
  }

  datatype View = ResultView(outcome: Outcome) | ContentView(dialogOpen: bool)

  /** The page shows the result only once one is stored and requested. */
  function Render(st: State): (v: View)
    ensures v.ResultView? <==> st.showResult && st.outcome.Some?
    ensures v.ResultView? ==> v.outcome == st.outcome.value
    ensures v.ContentView? ==> v.dialogOpen == st.dialogOpen
  {
    if st.showResult && st.outcome.Some? then ResultView(st.outcome.value) else ContentView(st.dialogOpen)
  }

  /** A failed submission never reaches the result screen from a fresh page. */
  lemma FailedSubmitShowsNoResult(access: QuizAccessGrant, reg: Registration, c: QC.Completion,
                                  grants: seq<QuizAccessGrant>, markOk: bool, certificate: Option<string>, now: int)
    ensures var st := HandleQuizComplete(Initial(), c).0;
      Render(ConfirmSubmit(st, access, reg, grants, markOk, certificate, false, now).state) == ContentView(false)
  {
  }
}
