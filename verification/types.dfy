/** The records the portal passes around (src/types/index.ts), reduced to the
    fields that some modelled decision reads. Timestamps are integers
    (milliseconds); identifiers are strings. */
module Types {
  import opened Common
  import opened Sorting

  datatype Role = User | Admin | SuperAdmin

  /** The question kinds of `QuestionType`; `Unknown` stands for any other
      string that an unchecked `as QuestionType` cast lets through. */
  datatype QuestionType =
    | MultipleChoice
    | CheckAllThatApply
    | MultipleChoiceSingle
    | TrueFalse
    | MultipleChoiceMultiple
    | Unknown(name: string)

  /** The types whose options toggle; every other type replaces the selection. */
  predicate IsMultiSelect(t: QuestionType) {
    t == MultipleChoiceMultiple || t == CheckAllThatApply
  }

  /** Of the known types, only "multiple choice, multiple answers" and
      "check all that apply" toggle; an unknown type name never does. */
  lemma MultiSelectTypes(name: string)
    ensures IsMultiSelect(MultipleChoiceMultiple) && IsMultiSelect(CheckAllThatApply)
    ensures !IsMultiSelect(MultipleChoice) && !IsMultiSelect(MultipleChoiceSingle) && !IsMultiSelect(TrueFalse)
    ensures !IsMultiSelect(Unknown(name))
  {
  }

  datatype Difficulty = Easy | Medium | Hard

  datatype QuestionOption = QuestionOption(
    id: string,
    questionId: string,
    text: string,
    isCorrect: bool,
    displayOrder: int)

  /** `QuestionWithOptions`; `explanation` is `None` for a stored `null`. */
  datatype Question = Question(
    id: string,
    content: string,
    qtype: QuestionType,
    explanation: Option<string>,
    difficulty: Difficulty,
    category: string,
    tags: seq<string>,
    displayOrder: int,
    options: seq<QuestionOption>)

  /** A row of the `users` table. `passwordChangeRequired` is `None` when the
      column is `null`. */
  datatype User = User(
    id: string,
    email: string,
    role: Role,
    passwordChangeRequired: Option<bool>,
    createdAt: int,
    updatedAt: int)

  /** A row of the `quiz_access` table: a one-time grant to take a quiz. */
  datatype QuizAccessGrant = QuizAccessGrant(
    id: string,
    quizId: string,
    quizType: string,
    token: string,
    expiration: int,
    usedAt: Option<int>)

  datatype GuideStatus = Published | Draft | Archived

  datatype StudyGuide = StudyGuide(
    id: string,
    title: string,
    description: string,
    category: string,
    status: GuideStatus)

  /** The comparator `(a, b) => a.display_order - b.display_order` used to
      order options. */
  predicate OptionLe(a: QuestionOption, b: QuestionOption) {
    a.displayOrder <= b.displayOrder
  }

  /** The comparator `(a, b) => a.display_order - b.display_order` used to
      order questions. */
  predicate QuestionLe(a: Question, b: Question) {
    a.displayOrder <= b.displayOrder
  }

  /** The question part of a `QuestionRecord` returned by the question RPCs. */
  datatype RecordQuestion = RecordQuestion(
    id: string,
    content: string,
    qtype: QuestionType,
    explanation: Option<string>,
    difficulty: Difficulty,
    category: string,
    tags: seq<string>,
    options: seq<QuestionOption>)

  /** `QuestionRecord`: a question with its position in a quiz or guide. */
  datatype QuestionRecord = QuestionRecord(displayOrder: int, question: RecordQuestion)

  /** The display-order comparison is a total preorder, so sorting by it
      yields a sorted sequence. */
  lemma DisplayOrderPreorders()
    ensures TotalPreorder(OptionLe) && TotalPreorder(QuestionLe)
  {
  }

  /** `options.sort((a, b) => a.display_order - b.display_order)`. */
  function SortOptions(options: seq<QuestionOption>): (r: seq<QuestionOption>)
    ensures multiset(r) == multiset(options)
    ensures Sorted(r, OptionLe)
  {
    DisplayOrderPreorders();
    SortSorted(options, OptionLe);
    Sort(options, OptionLe)
  }

  /** `questions.sort((a, b) => a.display_order - b.display_order)`. */
  function SortQuestions(questions: seq<Question>): (r: seq<Question>)
    ensures multiset(r) == multiset(questions)
    ensures Sorted(r, QuestionLe)
  {
    DisplayOrderPreorders();
    SortSorted(questions, QuestionLe);
    Sort(questions, QuestionLe)
  }
}
