/** The practice view of a study guide (`StudyGuideContent`): every question
    is shown at once; the learner picks options by id, checks a question,
    which then locks it, and progress is reported. Selections are keyed by
    question id and hold option ids. */
module StudyGuideContent {
  import opened Common
  import opened Types
  import opened JsOrder
  import opened Sorting
  import opened Selection

  const LoadFailedMessage := "Failed to load questions"

  datatype State = State(
    questions: seq<Question>,
    currentIndex: nat,
    selections: map<string, seq<string>>,
    shown: set<string>,
    error: Option<string>,
    loading: bool,
    retryCount: nat)

  function Initial(): State {
    State([], 0, map[], {}, None, true, 0)
  }

  /** A progress report `onProgress(completed, total)`. */
  datatype Progress = Progress(completed: nat, total: nat)

  /** `loadQuestions`, given the outcome of `getQuestionsByCategory`. Without
      a guide id or a category nothing happens. */
  function LoadQuestions(st: State, guideId: string, category: string, fetched: Result<seq<Question>>): (r: (State, Option<Progress>))
    ensures guideId == "" || category == "" ==> r == (st, None)
    ensures guideId != "" && category != "" ==> !r.0.loading
    ensures guideId != "" && category != "" && fetched.Ok? ==>
      && r.0 == st.(questions := fetched.value, loading := false, error := None)
      && r.1 == Some(Progress(0, |fetched.value|))
    ensures guideId != "" && category != "" && fetched.Err? ==>
      && r.0 == st.(loading := false, error := Some(LoadFailedMessage), retryCount := st.retryCount + 1)
      && r.1.None?
  {
    if guideId == "" || category == "" then (st, None)
    else match fetched
      case Ok(qs) => (st.(questions := qs, loading := false, error := None), Some(Progress(0, |qs|)))
      case Err(_) => (st.(loading := false, error := Some(LoadFailedMessage), retryCount := st.retryCount + 1), None)
  }

  /** `userSelections[id] || []`. */
  function SelectionOf(st: State, questionId: string): seq<string> {
    if questionId in st.selections then st.selections[questionId] else []
  }

  /** The new selection of a clicked question: a toggle for a multi-select
      type, a replacement for every other type. */
  function NextSelection(qtype: QuestionType, current: seq<string>, optionId: string): (next: seq<string>)
    ensures !IsMultiSelect(qtype) ==> next == [optionId]
    ensures IsMultiSelect(qtype) ==>
      && (optionId in next <==> optionId !in current)
      && (forall o :: o != optionId ==> (o in next <==> o in current))
  {
    if IsMultiSelect(qtype) then Toggle(current, optionId, StrLe) else [optionId]
  }

  /** `handleOptionSelect(questionId, optionId)`. A checked question ignores
      clicks. Whether the click toggles or replaces is decided by the type of
      the question at `currentIndex`, whichever question was clicked; the
      source reads that question unguarded, so it must exist. */
  function HandleOptionSelect(st: State, questionId: string, optionId: string): (r: State)
    requires st.currentIndex < |st.questions|
    ensures questionId in st.shown ==> r == st
    ensures questionId !in st.shown ==>
      && r == st.(selections := r.selections)
      && r.selections.Keys == st.selections.Keys + {questionId}
      && (forall k :: k in st.selections && k != questionId ==> r.selections[k] == st.selections[k])
      && SelectionOf(r, questionId) == NextSelection(st.questions[st.currentIndex].qtype, SelectionOf(st, questionId), optionId)
  {
    if questionId in st.shown then st
    else
      var next := NextSelection(st.questions[st.currentIndex].qtype, SelectionOf(st, questionId), optionId);
      st.(selections := st.selections[questionId := next])
  }

  /** Every stored selection is duplicate-free and in `.sort()` order. */
  ghost predicate SelectionsWellFormed(st: State) {
    forall k :: k in st.selections ==> WellFormed(st.selections[k], StrLe)
  }

  /** Selecting keeps every selection well formed: no option id is ever held
      twice. */
  lemma SelectKeepsWellFormed(st: State, questionId: string, optionId: string)
    requires st.currentIndex < |st.questions| && SelectionsWellFormed(st)
    ensures SelectionsWellFormed(HandleOptionSelect(st, questionId, optionId))
  {
    if questionId !in st.shown {
      var current := SelectionOf(st, questionId);
      var next := NextSelection(st.questions[st.currentIndex].qtype, current, optionId);
      assert WellFormed(next, StrLe) by {
        StrLeTotalOrder();
        assert WellFormed(current, StrLe);
        ToggleWellFormed(current, optionId, StrLe);
      }
      var r := HandleOptionSelect(st, questionId, optionId);
      forall k | k in r.selections
        ensures WellFormed(r.selections[k], StrLe)
      {
        if k != questionId {
          assert r.selections[k] == st.selections[k];
        }
      }
    }
  }

  /** On a multi-select current question, clicking the same option twice
      restores the selection. */
  lemma SelectTwiceRestores(st: State, questionId: string, optionId: string)
    requires st.currentIndex < |st.questions| && SelectionsWellFormed(st)
    requires IsMultiSelect(st.questions[st.currentIndex].qtype)
    ensures SelectionOf(HandleOptionSelect(HandleOptionSelect(st, questionId, optionId), questionId, optionId), questionId)
         == SelectionOf(st, questionId)
  {
    StrLeTotalOrder();
    if questionId !in st.shown {
      ToggleTwice(SelectionOf(st, questionId), optionId, StrLe);
    }
  }

  /** The type check uses the current question: with a single-choice first
      question, a multi-select question further down cannot hold two
      options, since each click replaces the previous one. */
  lemma MultiSelectDecidedByCurrentQuestion(st: State, questionId: string, a: string, b: string)
    requires st.currentIndex < |st.questions| && questionId !in st.shown
    requires st.questions[st.currentIndex].qtype == MultipleChoice
    ensures SelectionOf(HandleOptionSelect(HandleOptionSelect(st, questionId, a), questionId, b), questionId) == [b]
  {
  }

  /** `questions.find(q => q.id === questionId)`. */
  function FindQuestion(questions: seq<Question>, questionId: string): (r: Option<Question>)
    ensures r.None? <==> forall i :: 0 <= i < |questions| ==> questions[i].id != questionId
    ensures r.Some? ==>
      (exists i :: 0 <= i < |questions| && questions[i] == r.value
         && (forall j :: 0 <= j < i ==> questions[j].id != questionId))
    ensures r.Some? ==> r.value.id == questionId
  {
    if |questions| == 0 then None
    else if questions[0].id == questionId then Some(questions[0])
    else
      var r := FindQuestion(questions[1..], questionId);
      assert forall i :: 1 <= i < |questions| ==> questions[i] == questions[1..][i - 1];
      r
  }

  /** `options.filter(o => o.is_correct).map(o => o.id)`. */
  function CorrectIds(options: seq<QuestionOption>): (r: seq<string>)
    ensures forall id :: id in r <==> exists o :: o in options && o.isCorrect && o.id == id
    ensures |r| <= |options|
  {
    if |options| == 0 then []
    else
      var rest := CorrectIds(options[1..]);
      assert options == [options[0]] + options[1..];
      if options[0].isCorrect then [options[0].id] + rest else rest
  }

  /** `isAnswerCorrect(questionId)`: as many selected ids as correct ids, and
      every correct id selected. An empty option list counts as present, so a
      question without options is correct exactly when nothing is selected. */
  function IsAnswerCorrect(st: State, questionId: string): (ok: bool)
    ensures |st.questions| == 0 ==> !ok
    ensures FindQuestion(st.questions, questionId).None? ==> !ok
    ensures ok ==>
      (FindQuestion(st.questions, questionId).Some?
       && |CorrectIds(FindQuestion(st.questions, questionId).value.options)| == |SelectionOf(st, questionId)|)
  {
    if |st.questions| == 0 then false
    else match FindQuestion(st.questions, questionId)
      case None => false
      case Some(q) =>
        var correct := CorrectIds(q.options);
        var selected := SelectionOf(st, questionId);
        |correct| == |selected| && forall id :: id in correct ==> id in selected
  }

  /** With duplicate-free ids on both sides, the check is set equality: the
      answer is correct exactly when the selected ids are the correct ids. */
  lemma IsAnswerCorrectIffSameSet(st: State, questionId: string)
    requires FindQuestion(st.questions, questionId).Some?
    requires Distinct(CorrectIds(FindQuestion(st.questions, questionId).value.options))
    requires Distinct(SelectionOf(st, questionId))
    ensures IsAnswerCorrect(st, questionId) <==>
      Elements(SelectionOf(st, questionId)) == Elements(CorrectIds(FindQuestion(st.questions, questionId).value.options))
  {
    var correct := CorrectIds(FindQuestion(st.questions, questionId).value.options);
    DistinctSameLengthSameElements(correct, SelectionOf(st, questionId));
  }

  /** A question without options is judged correct when nothing is selected. */
  lemma EmptyOptionsCorrectWhenNothingSelected(st: State, questionId: string)
    requires FindQuestion(st.questions, questionId).Some?
    requires FindQuestion(st.questions, questionId).value.options == []
    ensures IsAnswerCorrect(st, questionId) <==> SelectionOf(st, questionId) == []
  {
  }

  /** What `checkAnswer` sends and reports. */
  datatype CheckRun = CheckRun(state: State, submitted: Option<bool>, progress: Option<Progress>)

  /** `checkAnswer(questionId)`. The question is locked; progress is
      submitted only with a signed-in user, and the count is reported only
      when that succeeds (its failure is only logged). The guard reads the
      question at `currentIndex`, not the checked one. */
  function CheckAnswer(st: State, questionId: string, signedIn: bool, submitOk: bool): (run: CheckRun)
    ensures st.currentIndex >= |st.questions| ==> run == CheckRun(st, None, None)
    ensures st.currentIndex < |st.questions| ==>
      && run.state == st.(shown := st.shown + {questionId})
      && (run.submitted.Some? <==> signedIn)
      && (run.submitted.Some? ==> run.submitted.value == IsAnswerCorrect(st, questionId))
      && (run.progress.Some? <==> signedIn && submitOk)
      && (run.progress.Some? ==> run.progress.value == Progress(|st.shown| + 1, |st.questions|))
  {
    if st.currentIndex >= |st.questions| then CheckRun(st, None, None)
    else
      var ok := IsAnswerCorrect(st, questionId);
      var locked := st.(shown := st.shown + {questionId});
      if !signedIn then CheckRun(locked, None, None)
      else CheckRun(locked, Some(ok), if submitOk then Some(Progress(|st.shown| + 1, |st.questions|)) else None)
  }

  /** Once checked, a question's selection can no longer change, and its
      verdict is fixed. */
  lemma CheckLocksSelection(st: State, questionId: string, signedIn: bool, submitOk: bool, optionId: string)
    requires st.currentIndex < |st.questions|
    ensures var locked := CheckAnswer(st, questionId, signedIn, submitOk).state;
      && HandleOptionSelect(locked, questionId, optionId) == locked
      && SelectionOf(locked, questionId) == SelectionOf(st, questionId)
      && IsAnswerCorrect(locked, questionId) == IsAnswerCorrect(st, questionId)
  {
  }

  /** The check button of a question is disabled while nothing is selected. */
  predicate CheckDisabled(st: State, questionId: string) {
    |SelectionOf(st, questionId)| == 0
  }

  /** A selection click on an unlocked question enables its check button. */
  lemma SelectEnablesCheck(st: State, questionId: string, optionId: string)
    requires st.currentIndex < |st.questions| && questionId !in st.shown
    requires !IsMultiSelect(st.questions[st.currentIndex].qtype) || optionId !in SelectionOf(st, questionId)
    ensures !CheckDisabled(HandleOptionSelect(st, questionId, optionId), questionId)
  {
    var r := HandleOptionSelect(st, questionId, optionId);
    assert optionId in SelectionOf(r, questionId);
  }

  /** `nextQuestion`: advances only while a later question exists. */
  function NextQuestion(st: State): (r: State)
    ensures r == st.(currentIndex := r.currentIndex)
    ensures st.currentIndex < |st.questions| - 1 ==> r.currentIndex == st.currentIndex + 1
    ensures st.currentIndex >= |st.questions| - 1 ==> r.currentIndex == st.currentIndex
  {
    if st.currentIndex < |st.questions| - 1 then st.(currentIndex := st.currentIndex + 1) else st
  }

  /** Advancing never leaves the question list. */
  lemma NextQuestionInRange(st: State)
    requires |st.questions| > 0 && st.currentIndex < |st.questions|
    ensures NextQuestion(st).currentIndex < |st.questions|
    ensures NextQuestion(st).currentIndex <= |st.questions| - 1
  {
  }

  datatype View =
    | LoadingView
    | ErrorView(message: string, retryCount: nat)
    | NoQuestionsView
    | QuestionsView(questions: seq<Question>)

  /** The render order: loading, error, empty list, the questions. */
  function Render(st: State): (v: View)
    ensures v.LoadingView? <==> st.loading
    ensures v.ErrorView? <==> !st.loading && st.error.Some?
    ensures v.NoQuestionsView? <==> !st.loading && st.error.None? && |st.questions| == 0
    ensures v.QuestionsView? ==> v.questions == st.questions && |v.questions| > 0
  {
    if st.loading then LoadingView
    else if st.error.Some? then ErrorView(st.error.value, st.retryCount)
    else if |st.questions| == 0 then NoQuestionsView
    else QuestionsView(st.questions)
  }

  /** A successful load ends on the questions (or the empty notice), a failed
      one on the error with its attempt count. */
  lemma LoadThenRender(guideId: string, category: string, fetched: Result<seq<Question>>)
    requires guideId != "" && category != ""
    ensures var v := Render(LoadQuestions(Initial(), guideId, category, fetched).0);
      && (fetched.Err? ==> v == ErrorView(LoadFailedMessage, 1))
      && (fetched.Ok? && |fetched.value| > 0 ==> v == QuestionsView(fetched.value))
      && (fetched.Ok? && |fetched.value| == 0 ==> v == NoQuestionsView)
  {
  }
}
