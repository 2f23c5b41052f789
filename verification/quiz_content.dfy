/** The quiz-taking screen (src/components/quiz/QuizContent.tsx): one answer
    slot per question, option selection, scoring, navigation and the
    submit button. */
module QuizContent {
  import opened Common
  import opened Types
  import opened JsOrder
  import opened Sorting
  import opened Selection

  /** `QuizAnswerState` as this screen fills it in. */
  datatype Answer = Answer(questionIndex: nat, selectedIndices: seq<nat>)

  datatype State = State(
    questions: seq<Question>,
    currentIndex: nat,
    answers: seq<Option<Answer>>,
    error: Option<string>,
    loading: bool)

  const LoadFailedMessage := "Failed to load quiz questions"

  function Initial(): State {
    State([], 0, [], None, true)
  }

  /** The state once `loadQuestions` has settled with the fetched questions or
      with a thrown error. */
  function Loaded(st: State, fetched: Result<seq<Question>>): (r: State)
    ensures !r.loading && r.currentIndex == st.currentIndex
    ensures fetched.Ok? ==>
      && r.questions == fetched.value
      && r.error == st.error
      && |r.answers| == |r.questions|
      && forall i :: 0 <= i < |r.answers| ==> r.answers[i] == None
    ensures fetched.Err? ==>
      r == st.(error := Some(LoadFailedMessage), loading := false)
  {
    match fetched
    case Ok(qs) => st.(questions := qs, answers := seq(|qs|, _ => None), loading := false)
    case Err(_) => st.(error := Some(LoadFailedMessage), loading := false)
  }

  /** One answer slot per question and a current question that exists. */
  predicate Ready(st: State) {
    |st.answers| == |st.questions| && st.currentIndex < |st.questions|
  }

  lemma LoadedIsReady(fetched: Result<seq<Question>>)
    requires fetched.Ok? && |fetched.value| > 0
    ensures Ready(Loaded(Initial(), fetched))
  {
  }

  /** The selection held in slot `i`, `[]` when the slot is empty or missing. */
  function SelectionAt(st: State, i: nat): seq<nat> {
    if i < |st.answers| && st.answers[i].Some? then st.answers[i].value.selectedIndices else []
  }

  /** `handleOptionSelect`: multi-select types toggle the option (re-sorting
      with the default `.sort()`), other types select exactly that option. The
      question type is read from the current question. */
  function SelectOption(st: State, questionIndex: nat, optionIndex: nat): (r: State)
    requires Ready(st)
    ensures Ready(r) && r.questions == st.questions && r.currentIndex == st.currentIndex
    ensures forall i :: 0 <= i < |st.answers| && i != st.currentIndex ==> r.answers[i] == st.answers[i]
    ensures r.answers[st.currentIndex].Some?
    ensures r.answers[st.currentIndex].value.questionIndex == questionIndex
    ensures !IsMultiSelect(st.questions[st.currentIndex].qtype) ==>
      SelectionAt(r, st.currentIndex) == [optionIndex]
    ensures IsMultiSelect(st.questions[st.currentIndex].qtype) ==>
      && (optionIndex in SelectionAt(r, st.currentIndex) <==> optionIndex !in SelectionAt(st, st.currentIndex))
      && forall k :: k != optionIndex ==>
           (k in SelectionAt(r, st.currentIndex) <==> k in SelectionAt(st, st.currentIndex))
  {
    var current := SelectionAt(st, st.currentIndex);
    var selected :=
      if IsMultiSelect(st.questions[st.currentIndex].qtype) then Toggle(current, optionIndex, NumberStringLe)
      else [optionIndex];
    st.(answers := st.answers[st.currentIndex := Some(Answer(questionIndex, selected))])
  }

  /** Every recorded selection is duplicate-free and in `.sort()` order. */
  ghost predicate AnswersWellFormed(st: State) {
    forall i :: 0 <= i < |st.answers| && st.answers[i].Some? ==>
      WellFormed(st.answers[i].value.selectedIndices, NumberStringLe)
  }

  lemma LoadedWellFormed(st: State, fetched: Result<seq<Question>>)
    requires AnswersWellFormed(st)
    ensures AnswersWellFormed(Loaded(st, fetched))
  {
  }

  /** Selecting keeps every selection free of duplicates. */
  lemma SelectKeepsWellFormed(st: State, questionIndex: nat, optionIndex: nat)
    requires Ready(st) && AnswersWellFormed(st)
    ensures AnswersWellFormed(SelectOption(st, questionIndex, optionIndex))
  {
    var current := SelectionAt(st, st.currentIndex);
    assert WellFormed(current, NumberStringLe);
    NumberStringLeTotalOrder();
    ToggleWellFormed(current, optionIndex, NumberStringLe);
  }

  /** On a multi-select question, clicking the same option twice restores the
      selection exactly. */
  lemma SelectTwiceRestores(st: State, optionIndex: nat)
    requires Ready(st) && AnswersWellFormed(st)
    requires IsMultiSelect(st.questions[st.currentIndex].qtype)
    ensures var twice := SelectOption(SelectOption(st, st.currentIndex, optionIndex), st.currentIndex, optionIndex);
      SelectionAt(twice, st.currentIndex) == SelectionAt(st, st.currentIndex)
  {
    NumberStringLeTotalOrder();
    ToggleTwice(SelectionAt(st, st.currentIndex), optionIndex, NumberStringLe);
  }

  /** The indices of the correct options, in option order. */
  function CorrectOptionIndices(options: seq<QuestionOption>): (r: seq<nat>)
    ensures forall k: nat :: k in r <==> k < |options| && options[k].isCorrect
    ensures forall i :: 0 <= i < |r| ==> r[i] < |options|
    ensures forall i, j :: 0 <= i < j < |r| ==> r[i] < r[j]
    decreases |options|
  {
    if |options| == 0 then []
    else
      var n := |options| - 1;
      var prefix := CorrectOptionIndices(options[..n]);
      if options[n].isCorrect then prefix + [n] else prefix
  }

  /** The check `calculateScore` applies to one question: the selection equals,
      element by element, the `.sort()`ed indices of the correct options. */
  predicate AnswerMatches(q: Question, a: Answer) {
    var correct := Sort(CorrectOptionIndices(q.options), NumberStringLe);
    |a.selectedIndices| == |correct| &&
    forall i :: 0 <= i < |correct| ==> a.selectedIndices[i] == correct[i]
  }

  /** A matching answer, well-formed or not, selects as many options as
      there are correct ones, and only correct ones. */
  lemma AnswerMatchesSelectsCorrect(q: Question, a: Answer)
    requires AnswerMatches(q, a)
    ensures |a.selectedIndices| == |CorrectOptionIndices(q.options)|
    ensures forall k :: k in a.selectedIndices ==> k < |q.options| && q.options[k].isCorrect
  {
    var indices := CorrectOptionIndices(q.options);
    var correct := Sort(indices, NumberStringLe);
    assert |correct| == |indices| by {
      assert |multiset(correct)| == |multiset(indices)|;
    }
    forall k | k in a.selectedIndices
      ensures k < |q.options| && q.options[k].isCorrect
    {
      var i :| 0 <= i < |a.selectedIndices| && a.selectedIndices[i] == k;
      assert correct[i] == k;
      assert k in multiset(correct);
      assert k in indices;
    }
  }

  /** For a well-formed selection the element-wise check is set equality: the
      answer is right exactly when it selects all correct options and nothing
      else. */
  lemma AnswerMatchesIffCorrectSet(q: Question, a: Answer)
    requires WellFormed(a.selectedIndices, NumberStringLe)
    ensures AnswerMatches(q, a) <==>
      forall k: nat :: k in a.selectedIndices <==> k < |q.options| && q.options[k].isCorrect
  {
    var indices := CorrectOptionIndices(q.options);
    var correct := Sort(indices, NumberStringLe);
    var sel := a.selectedIndices;
    NumberStringLeTotalOrder();
    SortSorted(indices, NumberStringLe);
    DistinctIffSingleMultiplicity(indices);
    DistinctIffSingleMultiplicity(correct);
    assert forall k :: k in correct <==> k in multiset(indices);
    assert AnswerMatches(q, a) <==> sel == correct;
    WellFormedEqualIffSameElements(sel, correct, NumberStringLe);
    assert Elements(sel) == Elements(correct) <==> forall k :: k in sel <==> k in correct;
  }

  /** Question `i` is answered, and answered right. */
  predicate QuestionCorrect(questions: seq<Question>, answers: seq<Option<Answer>>, i: nat)
    requires i < |questions|
  {
    i < |answers| && answers[i].Some? && AnswerMatches(questions[i], answers[i].value)
  }

  /** The positions among the first `n` whose entry holds. */
  ghost function TruePositions(hits: seq<bool>, n: nat): set<nat>
    requires n <= |hits|
  {
    set i: nat | i < n && hits[i]
  }

  /** How many of the first `n` entries hold: the size of their position set. */
  function CountTrue(hits: seq<bool>, n: nat): (c: nat)
    requires n <= |hits|
    ensures c == |TruePositions(hits, n)|
    ensures c <= n
    ensures c == n <==> forall i :: 0 <= i < n ==> hits[i]
    ensures c == 0 <==> forall i :: 0 <= i < n ==> !hits[i]
  {
    if n == 0 then
      assert TruePositions(hits, n) == {};
      0
    else
      var before := TruePositions(hits, n - 1);
      assert n - 1 !in before;
      assert TruePositions(hits, n) == before + (if hits[n - 1] then {n - 1} else {});
      CountTrue(hits, n - 1) + (if hits[n - 1] then 1 else 0)
  }

  /** The questions answered right. */
  ghost function CorrectQuestions(st: State): set<nat> {
    set i: nat | i < |st.questions| && QuestionCorrect(st.questions, st.answers, i)
  }

  /** `calculateScore`: the percentage of questions answered right. */
  function CalculateScore(st: State): (score: real)
    requires |st.questions| > 0
    ensures score == (|CorrectQuestions(st)| as real / |st.questions| as real) * 100.0
    ensures 0.0 <= score <= 100.0
    ensures score == 100.0 <==> forall i :: 0 <= i < |st.questions| ==> QuestionCorrect(st.questions, st.answers, i)
    ensures score == 0.0 <==> forall i :: 0 <= i < |st.questions| ==> !QuestionCorrect(st.questions, st.answers, i)
  {
    var n := |st.questions|;
    var hits := seq(n, i requires 0 <= i < n => QuestionCorrect(st.questions, st.answers, i));
    var c := CountTrue(hits, n);
    assert TruePositions(hits, n) == CorrectQuestions(st) by {
      assert forall i :: 0 <= i < n ==> hits[i] == QuestionCorrect(st.questions, st.answers, i);
    }
    assert c == n <==> forall i :: 0 <= i < n ==> QuestionCorrect(st.questions, st.answers, i) by {
      assert forall i :: 0 <= i < n ==> hits[i] == QuestionCorrect(st.questions, st.answers, i);
    }
    assert c == 0 <==> forall i :: 0 <= i < n ==> !QuestionCorrect(st.questions, st.answers, i) by {
      assert forall i :: 0 <= i < n ==> hits[i] == QuestionCorrect(st.questions, st.answers, i);
    }
    PercentBounds(c, n);
    (c as real / n as real) * 100.0
  }

  lemma PercentBounds(c: nat, n: nat)
    requires 0 < n && c <= n
    ensures 0.0 <= (c as real / n as real) * 100.0 <= 100.0
    ensures (c as real / n as real) * 100.0 == 100.0 <==> c == n
    ensures (c as real / n as real) * 100.0 == 0.0 <==> c == 0
  {
    var f := c as real / n as real;
    var nr := n as real;
    assert f * nr == c as real;
    MulMonotone(f, 0.0, nr);
    MulMonotone(0.0, f, nr);
    MulMonotone(f, 1.0, nr);
    MulMonotone(1.0, f, nr);
  }

  /** Multiplying by a positive number keeps a strict order. */
  lemma MulMonotone(a: real, b: real, n: real)
    requires n > 0.0
    ensures a < b ==> a * n < b * n
  {
  }

  /** An unanswered question stays in the denominator, so any quiz with one
      unanswered question scores below 100. */
  lemma UnansweredBlocksFullScore(st: State, i: nat)
    requires |st.questions| > 0 && i < |st.questions|
    requires i >= |st.answers| || st.answers[i] == None
    ensures CalculateScore(st) < 100.0
  {
    assert !QuestionCorrect(st.questions, st.answers, i);
  }

  /** `nextQuestion`: moves on unless the current question is the last. */
  function NextQuestion(st: State): (r: State)
    ensures r.questions == st.questions && r.answers == st.answers
    ensures st.currentIndex + 1 < |st.questions| ==> r.currentIndex == st.currentIndex + 1
    ensures st.currentIndex + 1 >= |st.questions| ==> r.currentIndex == st.currentIndex
    ensures st.currentIndex < |st.questions| ==> r.currentIndex < |st.questions|
    ensures Ready(st) ==> Ready(r)
  {
    if st.currentIndex < |st.questions| - 1 then st.(currentIndex := st.currentIndex + 1) else st
  }

  datatype Action = NextAction | SubmitAction

  /** What the screen shows. */
  datatype View =
    | LoadingView
    | ErrorView(message: string)
    | NoQuestionsView
    | QuestionView(index: nat, action: Action, enabled: bool)

  function Render(st: State): (v: View)
    ensures v.QuestionView? <==> !st.loading && st.error.None? && st.currentIndex < |st.questions|
    ensures v.QuestionView? ==>
      && v.index == st.currentIndex
      && (v.action == SubmitAction <==> st.currentIndex == |st.questions| - 1)
      && (v.enabled <==> |SelectionAt(st, st.currentIndex)| > 0)
    ensures st.loading ==> v == LoadingView
  {
    if st.loading then LoadingView
    else if st.error.Some? then ErrorView(st.error.value)
    else if st.currentIndex >= |st.questions| then NoQuestionsView
    else
      var last := st.currentIndex == |st.questions| - 1;
      QuestionView(st.currentIndex, if last then SubmitAction else NextAction,
                   |SelectionAt(st, st.currentIndex)| > 0)
  }

  /** The submit button is shown and enabled. */
  predicate CanSubmit(st: State) {
    Render(st).QuestionView? && Render(st).action == SubmitAction && Render(st).enabled
  }

  /** Submission is reachable only on the last question of a non-empty quiz
      with something selected. */
  lemma CanSubmitMeans(st: State)
    requires CanSubmit(st)
    ensures |st.questions| >= 1 && st.currentIndex == |st.questions| - 1
    ensures |SelectionAt(st, st.currentIndex)| > 0
  {
  }

  /** What `handleSubmit` hands to `onComplete`. */
  datatype Completion = Completion(
    score: real,
    questions: seq<Question>,
    answers: seq<Option<Answer>>,
    timeTaken: int)

  /** `handleSubmit`, with the rounded elapsed minutes as a parameter. */
  function HandleSubmit(st: State, minutes: int): (c: Completion)
    requires CanSubmit(st)
    ensures c.score == (|CorrectQuestions(st)| as real / |st.questions| as real) * 100.0
    ensures 0.0 <= c.score <= 100.0
    ensures c.questions == st.questions && c.answers == st.answers && c.timeTaken == minutes
    ensures c.score == 100.0 <==> forall i :: 0 <= i < |st.questions| ==> QuestionCorrect(st.questions, st.answers, i)
  {
    Completion(CalculateScore(st), st.questions, st.answers, minutes)
  }
}
