# Training Hub core, modelled in Dafny

Training Hub is a browser training portal: people take quizzes through one-time
access tokens, practise on study guides, and sign in with roles (`user`,
`admin`, `super_admin`) that gate the admin pages. This project models its
decision logic and in-memory state updates as pure Dafny functions over
immutable datatypes, and proves what those functions promise.

Every call to the hosted backend becomes a parameter. A table read is
`Remote<T>` (`Found(row)`, `NotFound`, `Failed`). A write or RPC is
`Result<T>` (`Ok`, or `Err` with the thrown message) or a plain success flag.
Timestamps are integers, random bytes are a `seq<byte>`, and fresh uuids are
strings passed in.

Modules, one per source file, plus shared building blocks:

- `Common`: `Option`, `Result`, `Remote`, `||` defaulting for strings, and facts about duplicate-free sequences.
- `JsOrder`: JavaScript's default string comparison and number-to-string conversion. These explain why `.sort()` on option indices places 10 before 2.
- `Sorting`: a stable insertion sort over any comparator, with its ordering and permutation proofs.
- `Selection`: the toggle-and-resort update that both quiz pages use for multi-select answers.
- `RandomText`: byte-to-alphabet encoding, shared by quiz tokens and temporary passwords.
- `Types`: the records of the shared type definitions.
- Services:
  - `QuizService`: access-token validation, result submission, token and certificate generation, and question mapping.
  - `StudyGuideService`: joining guide links with question rows, mapping guide content, and guide creation.
  - `AdminService`, `UserService` and `UserTable`: role updates, password reset and statistics defaults.
  - `LocalUsers`: the in-memory user registry with its protected super-admin.
- Auth:
  - `PasswordPolicy`: the four-rule password check.
  - `AuthContext`: profile loading and role flags, session changes, sign-in and the password change.
  - `ChangePasswordForm`: the form rule and submit sequence.
  - `ProtectedRoute` and `PasswordChangeGuard`: the two route-guard decision tables.
- Views:
  - `QuizContent`, `QuizPage` and `QuizAccessPage`: the quiz flow, registration gate and confirmation dialog.
  - `StudyGuideContent`: practice with per-question locking.
  - `StudyGuidesList`: the category options and filter.

Behaviour reproduced as the code has it, each with a lemma that shows it:

- Default `.sort()` compares option indices as decimal strings (`JsOrder.TenSortsBeforeTwo`). Selections and the correct-index list are sorted the same way, so correctness is still set equality (`QuizContent.AnswerMatchesIffCorrectSet`).
- In study-guide practice, whether a click toggles or replaces is decided by the question at `currentIndex`, not by the question clicked (`StudyGuideContent.MultiSelectDecidedByCurrentQuestion`).
- `loadUserData` catches its own throw, so `signIn` reports success even when the profile read fails (`AuthContext.SignInIgnoresProfileFailure`). The source's sign-out-on-profile-failure branch can never run.
- `submitQuiz` marks every grant of the quiz as used, keyed by `quiz_id`, before the result is inserted. A failed insert therefore still consumes the tokens (`QuizService.FailedInsertStillBurnsTokens`).
- The temporary password need not satisfy the password policy (`AdminService.TempPasswordMayViolatePolicy`).
- A study-guide question whose options array is empty counts as correct when nothing is selected. An empty array is truthy, so the "no options" guard never fires (`StudyGuideContent.EmptyOptionsCorrectWhenNothingSelected`). One might expect such a question never to count as correct; the code counts it correct.
- A guide category literally named `all` is offered twice under the same value, and selecting it shows every guide (`StudyGuidesList.CategoryNamedAllCollides`).
- `ensureSuperAdmin` looks for the super-admin email *and* role. Demoting the super-admin and re-running the check therefore adds a second entry with the same email (`LocalUsers.DemotedSuperAdminDuplicated`).
- `validateQuizAccess` accepts a grant at exactly its expiration instant, because only `now > expiration` is rejected (`QuizService.ValidateQuizAccess`).

## Model

| member | source | states |
|---|---|---|
| Common.StringOr | src/services/quiz.service.ts:96-98 | defaulting an optional string with a fallback: the value when it is present and non-empty, the fallback otherwise |
| JsOrder.StrLeTotal | src/components/quiz/QuizContent.tsx:114 | the default `.sort()` string comparison relates every pair of strings |
| JsOrder.StrLeAntisymmetric | src/components/quiz/QuizContent.tsx:114 | two strings that each sort no later than the other are equal, so the comparison is a total order |
| JsOrder.StrLeTransitive | src/components/quiz/QuizContent.tsx:114 | the string comparison is transitive |
| JsOrder.DecimalString | src/components/quiz/QuizContent.tsx:114 | the string a number is converted to before comparison is a non-empty run of digits, with one digit exactly for numbers below 10 |
| JsOrder.DecimalRoundTrip | src/components/quiz/QuizContent.tsx:114 | reading the digits back gives the number, so no information is lost by the conversion |
| JsOrder.DecimalStringInjective | src/components/quiz/QuizContent.tsx:114 | distinct option indices convert to distinct strings |
| JsOrder.TenSortsBeforeTwo | src/components/quiz/QuizContent.tsx:114 | the default sort places index 10 before index 2 |
| Sorting.Insert | src/services/study-guide.service.ts:206 | inserting adds exactly one occurrence of the element and keeps all others |
| Sorting.Sort | src/services/study-guide.service.ts:206 | sorting returns a rearrangement of its input |
| Sorting.InsertSorted | src/services/study-guide.service.ts:206 | inserting into a sorted sequence keeps it sorted, for any total preorder |
| Sorting.SortSorted | src/services/study-guide.service.ts:206 | the sorted result is ordered by the comparator |
| Sorting.SortedUnique | src/components/quiz/QuizContent.tsx:128-136 | two sorted duplicate-free sequences with the same members are equal, which is why element-wise comparison of sorted selections is set equality |
| Sorting.StrLeTotalOrder | src/components/study-guide/StudyGuideContent.tsx:197 | the default string sort of option ids is a total order |
| Sorting.NumberStringLeTotalOrder | src/components/quiz/QuizContent.tsx:114 | sorting option indices by their decimal strings is a total order on indices |
| Selection.Without | src/components/quiz/QuizContent.tsx:109-110 | filtering an option out keeps exactly the other members, shortens a list that held it and keeps a list duplicate-free |
| Selection.WithoutSorted | src/components/quiz/QuizContent.tsx:109-110 | filtering keeps a sorted selection sorted |
| Selection.Toggle | src/components/quiz/QuizContent.tsx:107-114 | a multi-select click flips membership of the clicked option only and never introduces a duplicate |
| Selection.ToggleWellFormed | src/components/quiz/QuizContent.tsx:107-114 | a toggled selection stays duplicate-free and sorted |
| Selection.WellFormedEqualIffSameElements | src/components/quiz/QuizContent.tsx:128-136 | two well-formed selections are equal exactly when they hold the same options |
| Selection.ToggleTwice | src/components/quiz/QuizContent.tsx:107-114 | clicking the same option twice restores the selection |
| RandomText.TempAlphabetClasses | src/services/admin.service.ts:95 | positions 0-25 of the 70-character alphabet are upper-case letters, 26-51 lower-case, 52-61 digits and 62-69 the eight symbols |
| RandomText.Encode | src/services/admin.service.ts:96-98 | each random byte becomes the character at byte mod alphabet length |
| RandomText.EncodeWithinAlphabet | src/services/quiz.service.ts:128-130 | every generated character belongs to the alphabet |
| RandomText.BytesFor | src/services/quiz.service.ts:128-130 | every string over an alphabet of at most 256 characters has bytes that select it |
| RandomText.EncodeBytesForRoundTrip | src/services/quiz.service.ts:128-130 | encoding those bytes gives the string back, so every string over the alphabet can be generated |
| Types.DisplayOrderPreorders | src/services/study-guide.service.ts:191-207 | comparing options and questions by `display_order` is a total preorder |
| Types.SortOptions | src/services/quiz.service.ts:59 | options are rearranged, not changed, into ascending `display_order` |
| Types.SortQuestions | src/services/study-guide.service.ts:206 | questions are rearranged, not changed, into ascending `display_order` |
| Types.MultiSelectTypes | src/components/quiz/QuizContent.tsx:107-108 | exactly the types `multiple_choice_multiple` and `check_all_that_apply` toggle an option; the other known types and any unknown type name replace the selection |
| PasswordPolicy.SpecialExcludesAlphanumerics | src/context/AuthContext.tsx:37 | letters and digits are never in the special-character class |
| PasswordPolicy.AnyChar | src/context/AuthContext.tsx:35-37 | a character-class test holds exactly when some character is in the class |
| PasswordPolicy.Utf16Length | src/context/AuthContext.tsx:33 | `length` counts UTF-16 code units: between one and two per character, and one per character exactly when none lies above U+FFFF |
| PasswordPolicy.ValidatePassword | src/context/AuthContext.tsx:31-38 | each of the four flags holds exactly when its rule holds: at least 8 UTF-16 code units, an A-Z letter, a digit, a special character |
| PasswordPolicy.IsPasswordValid | src/context/AuthContext.tsx:40-44 | a password is accepted exactly when all four rules hold, its length counted in UTF-16 code units |
| PasswordPolicy.AstralCharactersCountTwice | src/context/AuthContext.tsx:33 | a six-character password with two characters above U+FFFF is long enough, because each of those counts twice |
| PasswordPolicy.ExamplePasswordValid | src/context/AuthContext.tsx:31-44 | a concrete password meeting all four rules is accepted |
| QuizService.WithToken | src/services/quiz.service.ts:12-15 | the rows selected by token are exactly the grants carrying that token |
| QuizService.LookupByToken | src/services/quiz.service.ts:12-16 | `.single()` yields a row only when exactly one grant carries the token and the store answers; every other case is an error |
| QuizService.ValidateQuizAccess | src/services/quiz.service.ts:11-35 | a grant is returned exactly when the lookup found it, `now` is not past its expiration and it was never used |
| QuizService.ValidateToken | src/services/quiz.service.ts:11-35 | an accepted grant was readable, is in the table, carries the token, is not past its expiration and was never used |
| QuizService.ValidateTokenMeans | src/services/quiz.service.ts:11-35 | against the table, acceptance means one unique unexpired unused row for the token |
| QuizService.MarkUsed | src/services/quiz.service.ts:67-70 | every grant of the quiz gets `used_at = now`; other grants and other fields are unchanged |
| QuizService.MarkUsedKeepsMatches | src/services/quiz.service.ts:67-70 | marking never changes how many rows carry a token |
| QuizService.MarkedQuizNeverValidates | src/services/quiz.service.ts:30-70 | after marking, no token of that quiz validates again, at any later time |
| QuizService.MarkOtherQuizUntouched | src/services/quiz.service.ts:67-70 | marking one quiz does not change validation of tokens that belong only to other quizzes |
| QuizService.ValidationRepeatable | src/services/quiz.service.ts:11-35 | validation only reads: an accepted grant is unused and is accepted again at every earlier time |
| QuizService.ScoreText | src/services/quiz.service.ts:77 | the verdict is PASS exactly when the score is at least 80, otherwise FAIL |
| QuizService.SubmitQuiz | src/services/quiz.service.ts:65-116 | marks the quiz's grants first, requests a certificate only on a pass, inserts last; succeeds exactly when the insert does, with the fixed error message otherwise; the row carries the parameters, the verdict, the certificate URL only on a pass, and the Anonymous/Unknown defaults |
| QuizService.FailedInsertStillBurnsTokens | src/services/quiz.service.ts:67-113 | a failed insert still leaves every token of the quiz used, exactly as a successful one would |
| QuizService.FailedMarkStillInserts | src/services/quiz.service.ts:72-74 | a failed mark is only logged: the table is unchanged and the result is still inserted |
| QuizService.GenerateToken | src/services/quiz.service.ts:126-131 | 8 characters, each the alphanumeric character at byte mod 62 |
| QuizService.TokenSpace | src/services/quiz.service.ts:126-131 | the generated tokens are exactly the 8-character alphanumeric strings |
| QuizService.CertificateUrl | src/services/quiz.service.ts:118-124 | the URL is the fixed prefix, a generated token and `.pdf` |
| QuizService.CertificateUrlInjective | src/services/quiz.service.ts:118-124 | two certificate URLs agree exactly when their tokens agree |
| QuizService.FromRecord | src/services/quiz.service.ts:49-59 | id, content, type, explanation, difficulty, category and tags are the record's, the position is the record's, and the options are a rearrangement sorted by `display_order` |
| QuizService.GetQuizQuestions | src/services/quiz.service.ts:37-63 | an RPC error becomes the fixed error; otherwise one question per record, in record order |
| QuizService.SortedOptionsFixed | src/services/quiz.service.ts:59 | options already in strictly ascending order are left in place |
| QuizService.TwoOfThreeFails | src/services/quiz.service.ts:77 | any three-question quiz with two right answers scores between 66 and 67 percent and is a FAIL |
| QuizService.TwoOfThreeExample | src/services/quiz.service.ts:77 | a concrete quiz of three one-option questions, two answered right and one unanswered, has exactly the first two correct and is a FAIL |
| AdminService.UpdateUserRole | src/services/admin.service.ts:31-38 | without any caller check, succeeds exactly when the store does; on success only the role of rows with the id changes |
| AdminService.GenerateTempPassword | src/services/admin.service.ts:94-99 | 12 characters, each the alphabet character at byte mod 70 |
| AdminService.TempPasswordPolicy | src/services/admin.service.ts:94-99 | a temporary password passes the password policy exactly when some byte selects an upper-case letter, some a digit and some a symbol |
| AdminService.TempPasswordMayViolatePolicy | src/services/admin.service.ts:94-99 | all-zero bytes give `AAAAAAAAAAAA`, which the policy rejects |
| AdminService.ResetUserPassword | src/services/admin.service.ts:40-54 | the update asks for the generated password and the change-required flag; the password is returned exactly when the update succeeds, else the fixed error |
| AdminService.OrZero | src/services/admin.service.ts:87-90 | a missing or falsy stat reads as 0 and any other value is kept |
| AdminService.GetDashboardStats | src/services/admin.service.ts:64-92 | an RPC error becomes the prefixed error message; otherwise each field is its value or 0 |
| AdminService.DashboardDefaults | src/services/admin.service.ts:86-91 | all-missing stats give all zeros and present stats are kept |
| UserTable.WithId | src/services/user.service.ts:21-24 | the rows selected by id are exactly the users with that id |
| UserTable.SingleById | src/services/user.service.ts:21-25 | `.single()` yields the row only when exactly one user has the id and the store answers |
| UserTable.SetRole | src/services/user.service.ts:31-34 | the rows with the id get the new role (and a new stamp when one is given); other rows are unchanged |
| UserTable.SetRoleIdempotent | src/services/user.service.ts:31-34 | writing the same role twice is the same as writing it once |
| UserService.UpdateUserRole | src/services/user.service.ts:16-44 | the auth lookup comes first and an auth error stops everything; the role is written only for a super-admin caller; success requires the write to hit one row and returns it, stamped; on any error the table is unchanged |
| UserService.RoleUpdateErrors | src/services/user.service.ts:27-41 | a failed role read, a caller who is not a super-admin and a failed write each give their own message after the stated number of steps |
| UserService.AdminPathSkipsAuthorisation | src/services/admin.service.ts:31-38 | a caller refused by this path succeeds through the admin service, which checks no role |
| UserService.GetUserStats | src/services/user.service.ts:62-81 | an RPC error becomes the fixed error; missing data becomes all-zero stats; present data is returned |
| QuizContent.Loaded | src/components/quiz/QuizContent.tsx:85-101 | a successful load stores the questions with exactly one empty answer slot per question; a failure stores the fixed error and keeps the rest; loading ends either way |
| QuizContent.LoadedIsReady | src/components/quiz/QuizContent.tsx:89-91 | after loading a non-empty quiz, the answers line up with the questions and the current index points at a question |
| QuizContent.SelectOption | src/components/quiz/QuizContent.tsx:103-120 | only the current answer slot changes; a single-choice question selects exactly the clicked option; a multi-select question flips membership of the clicked option and keeps every other option |
| QuizContent.LoadedWellFormed | src/components/quiz/QuizContent.tsx:91 | loading never produces a selection with duplicates or out of order |
| QuizContent.SelectKeepsWellFormed | src/components/quiz/QuizContent.tsx:107-115 | after any click every selection is still duplicate-free and in `.sort()` order |
| QuizContent.SelectTwiceRestores | src/components/quiz/QuizContent.tsx:111-114 | on a multi-select question, clicking an option twice restores the selection |
| QuizContent.CorrectOptionIndices | src/components/quiz/QuizContent.tsx:128-130 | the indices kept are exactly those of the correct options, each once, ascending |
| QuizContent.AnswerMatchesIffCorrectSet | src/components/quiz/QuizContent.tsx:128-136 | for a well-formed selection, the element-wise comparison holds exactly when the selected options are the correct ones |
| QuizContent.AnswerMatchesSelectsCorrect | src/components/quiz/QuizContent.tsx:128-136 | a matching answer, sorted or not, selects as many options as there are correct ones and only correct ones |
| QuizContent.CountTrue | src/components/quiz/QuizContent.tsx:123-139 | the counter is the number of positions whose check holds: never above the number of questions, equal to it exactly when every check holds, 0 exactly when none does |
| QuizContent.CalculateScore | src/components/quiz/QuizContent.tsx:122-142 | the score is the number of questions answered right over the number of questions, times 100: it lies in 0..100, is 100 exactly when every question is answered right and 0 exactly when none is |
| QuizContent.PercentBounds | src/components/quiz/QuizContent.tsx:141 | `correct / total * 100` lies in 0..100 and hits the ends exactly at all or none |
| QuizContent.UnansweredBlocksFullScore | src/components/quiz/QuizContent.tsx:125-126 | an unanswered question stays in the denominator, so the score is below 100 |
| QuizContent.NextQuestion | src/components/quiz/QuizContent.tsx:150-154 | moves forward by one unless on the last question, never past the end, and touches nothing else |
| QuizContent.Render | src/components/quiz/QuizContent.tsx:156-215 | the question view appears exactly when not loading, without error and with a current question; its button submits exactly on the last question and is enabled exactly when something is selected |
| QuizContent.CanSubmitMeans | src/components/quiz/QuizContent.tsx:186-209 | submission is reachable only on the last question of a non-empty quiz with something selected |
| QuizContent.HandleSubmit | src/components/quiz/QuizContent.tsx:144-148 | hands over the questions, answers and elapsed minutes with the score: right answers over questions, times 100 |
| QuizPage.AnsweredCount | src/components/quiz/Quiz.tsx:41 | the number of positions holding an answer with a non-empty selection: all of them exactly when every slot holds one, none exactly when no slot does |
| QuizPage.UnansweredWarning | src/components/quiz/Quiz.tsx:43-45 | the warning starts with `You have `, then the count's decimal digits, which read back as the count, then the rest of the sentence |
| QuizPage.UnansweredWarningNamesCount | src/components/quiz/Quiz.tsx:43-45 | two warnings are equal exactly when they report the same count |
| QuizPage.WarningPluralAboveOne | src/components/quiz/Quiz.tsx:44 | the sentence says `questions` exactly when the count is above one |
| QuizPage.HandleQuizComplete | src/components/quiz/Quiz.tsx:34-51 | the attempt is always held and the dialog opened; a warning naming the count appears exactly when some question is unanswered |
| QuizPage.FullyAnsweredNoWarning | src/components/quiz/Quiz.tsx:41-47 | a fully answered quiz raises no warning |
| QuizPage.ConfirmSubmit | src/components/quiz/Quiz.tsx:53-105 | nothing pending is a no-op; otherwise the dialog closes and the attempt is cleared whatever happens; success shows the result with `passed` exactly for a score of at least 80 and the matching notice; failure goes to /error with the fixed notice and no result |
| QuizPage.ParamsFor | src/components/quiz/Quiz.tsx:60-69 | the submission carries the grant's quiz id and type, the registration's ldap, supervisor and market, and the attempt's answers, score and time |
| QuizPage.ConfirmedRowKeepsRegistration | src/components/quiz/Quiz.tsx:60-69 | a completed registration reaches the stored row unchanged, not replaced by the defaults |
| QuizPage.CancelSubmit | src/components/quiz/Quiz.tsx:107-110 | the dialog closes and the attempt is dropped without submitting; the rest is untouched |
| QuizPage.CompleteThenCancel | src/components/quiz/Quiz.tsx:34-51 | completing and then cancelling returns the page to where it was |
| QuizPage.Render | src/components/quiz/Quiz.tsx:112-141 | the result view appears exactly when a result is stored and shown |
| QuizPage.FailedSubmitShowsNoResult | src/components/quiz/Quiz.tsx:92-104 | after a failed submission the quiz stays on screen with the dialog closed |
| QuizAccessPage.Mount | src/components/quiz/QuizAccess.tsx:47-69 | without a non-empty `token` nothing is attempted; otherwise loading ends, a null access sets the invalid-token error, a throw sets the validation error, and a grant is stored |
| QuizAccessPage.Edit | src/components/quiz/QuizAccess.tsx:123-140 | typing replaces the registration and nothing else |
| QuizAccessPage.HandleSubmit | src/components/quiz/QuizAccess.tsx:71-80 | the form becomes accepted exactly when it already was or all three fields are non-empty; nothing else changes |
| QuizAccessPage.Render | src/components/quiz/QuizAccess.tsx:82-150 | loading first, then the error, then the no-token message, then the registration form (its button enabled exactly for a complete form), and the quiz only once the form is accepted |
| QuizAccessPage.GatePreserved | src/components/quiz/QuizAccess.tsx:71-80 | every step keeps the rule that an accepted form is complete |
| QuizAccessPage.QuizViewNeedsRegistration | src/components/quiz/QuizAccess.tsx:116-150 | the quiz is shown only with an access grant and a complete registration |
| QuizAccessPage.MountAgainstTable | src/components/quiz/QuizAccess.tsx:54-69 | against the grant table, the form appears exactly when the token validates and the error exactly when it does not |
| QuizAccessPage.NoTokenNoQuiz | src/components/quiz/QuizAccess.tsx:47-52 | a missing or empty token leads to the no-token message, whatever validation would have said |
| StudyGuideContent.LoadQuestions | src/components/study-guide/StudyGuideContent.tsx:150-176 | without a guide id or category nothing happens; success stores the questions, clears the error and reports progress 0 of n; failure stores the fixed error and counts a retry |
| StudyGuideContent.NextSelection | src/components/study-guide/StudyGuideContent.tsx:193-197 | a multi-select type flips membership of the clicked id and keeps all others; any other type selects exactly the clicked id |
| StudyGuideContent.HandleOptionSelect | src/components/study-guide/StudyGuideContent.tsx:182-204 | a checked question ignores clicks; otherwise only that question's selection changes, updated by the type of the question at `currentIndex` |
| StudyGuideContent.SelectKeepsWellFormed | src/components/study-guide/StudyGuideContent.tsx:193-197 | no option id is ever held twice and selections stay in `.sort()` order |
| StudyGuideContent.SelectTwiceRestores | src/components/study-guide/StudyGuideContent.tsx:194-196 | clicking an option twice on a multi-select restores the selection |
| StudyGuideContent.MultiSelectDecidedByCurrentQuestion | src/components/study-guide/StudyGuideContent.tsx:187-191 | when the current question is single-choice, a second click on any question replaces the first, even on a multi-select question |
| StudyGuideContent.FindQuestion | src/components/study-guide/StudyGuideContent.tsx:238 | finds the first question with the id, and nothing exactly when no question has it |
| StudyGuideContent.CorrectIds | src/components/study-guide/StudyGuideContent.tsx:241 | exactly the ids of the correct options |
| StudyGuideContent.IsAnswerCorrect | src/components/study-guide/StudyGuideContent.tsx:236-248 | false with no questions or an unknown id; when true, the selection has as many ids as there are correct options |
| StudyGuideContent.IsAnswerCorrectIffSameSet | src/components/study-guide/StudyGuideContent.tsx:241-247 | for duplicate-free lists the check is set equality of selected and correct ids |
| StudyGuideContent.EmptyOptionsCorrectWhenNothingSelected | src/components/study-guide/StudyGuideContent.tsx:239-247 | an empty options array passes the guard, so such a question is correct exactly when nothing is selected |
| StudyGuideContent.CheckAnswer | src/components/study-guide/StudyGuideContent.tsx:206-225 | without a current question nothing happens; otherwise the question is locked, progress is submitted exactly when someone is signed in, and reported exactly when that also succeeds |
| StudyGuideContent.CheckLocksSelection | src/components/study-guide/StudyGuideContent.tsx:183-213 | after a check, clicks change nothing and the verdict stays the same |
| StudyGuideContent.SelectEnablesCheck | src/components/study-guide/StudyGuideContent.tsx:339 | a click that adds an option enables the check button |
| StudyGuideContent.NextQuestion | src/components/study-guide/StudyGuideContent.tsx:227-234 | moves on by one unless on the last question, and changes nothing else |
| StudyGuideContent.NextQuestionInRange | src/components/study-guide/StudyGuideContent.tsx:227-234 | the index never passes the last question |
| StudyGuideContent.Render | src/components/study-guide/StudyGuideContent.tsx:250-347 | loading first, then the error, then the no-questions message, otherwise all questions |
| StudyGuideContent.LoadThenRender | src/components/study-guide/StudyGuideContent.tsx:150-279 | a first load shows the error with one retry, the questions, or the no-questions message, as the fetch turned out |
| StudyGuideService.DisplayOrders | src/services/study-guide.service.ts:177-178 | the map has a key exactly for every linked question id |
| StudyGuideService.LastLinkWins | src/services/study-guide.service.ts:178 | when an id is linked more than once, the map holds the position of its last link |
| StudyGuideService.OrderOf | src/services/study-guide.service.ts:190 | a linked id with a position reads that position; an unlinked id or a null position reads 0 |
| StudyGuideService.MapRow | src/services/study-guide.service.ts:181-204 | id, content, type, difficulty, category and tags are the row's, the position comes from the links, reads a missing explanation as `''`, and carries the row's options (none when absent), each tagged with the question id, rearranged into display order |
| StudyGuideService.Retag | src/services/study-guide.service.ts:193-201 | each option keeps its place and fields and is tagged with the question id |
| StudyGuideService.RetagPermutation | src/services/study-guide.service.ts:191-201 | sorting before tagging still yields a rearrangement of the tagged options |
| StudyGuideService.RetagSorted | src/services/study-guide.service.ts:191-201 | tagging keeps the display order |
| StudyGuideService.MapRows | src/services/study-guide.service.ts:181 | one mapped question per fetched row, in row order |
| StudyGuideService.GetQuestionsByCategory | src/services/study-guide.service.ts:136-214 | a link error and a question error give their fixed messages; no links give `[]` without a second query; otherwise the result is a rearrangement of the mapped rows, one per row, sorted by position |
| StudyGuideService.ReturnedQuestionsAreMappedRows | src/services/study-guide.service.ts:181-209 | every returned question is the mapping of a fetched row |
| StudyGuideService.MappedRowTakesLastLink | src/services/study-guide.service.ts:178-190 | a linked question carries the position of its last link, 0 for a null position |
| StudyGuideService.UnlinkedRowAtZero | src/services/study-guide.service.ts:190 | a question that no link names sits at position 0 |
| StudyGuideService.MapRecord | src/services/study-guide.service.ts:69-82 | id, content, type, difficulty, category and tags are the record's, the position is the record's, a missing explanation reads as `''`, and the options are rearranged into display order |
| StudyGuideService.GetStudyGuideContent | src/services/study-guide.service.ts:50-86 | an RPC error gives the fixed message; no data gives `[]`; otherwise one mapped question per record, in order |
| StudyGuideService.ContentEmptyCases | src/services/study-guide.service.ts:61-64 | no data and an empty list both give `[]` |
| StudyGuideService.CreateStudyGuide | src/services/study-guide.service.ts:232-254 | succeeds exactly when the insert does; the guide keeps its fields, gets the given status or `draft`, and is stamped with the current time |
| StudyGuideService.NewGuidesAreDraftsByDefault | src/services/study-guide.service.ts:236 | a new guide is published only when asked for explicitly |
| StudyGuidesList.CategoryColumn | src/components/study-guide/StudyGuidesList.tsx:71 | the category of every guide, in guide order |
| StudyGuidesList.Unique | src/components/study-guide/StudyGuidesList.tsx:71 | `Array.from(new Set(...))` holds each category once and exactly the categories present |
| StudyGuidesList.FirstIndex | src/components/study-guide/StudyGuidesList.tsx:71 | the position of the first occurrence of a category |
| StudyGuidesList.UniqueFirstOccurrenceOrder | src/components/study-guide/StudyGuidesList.tsx:71 | the distinct categories come in the order of their first occurrence |
| StudyGuidesList.ToOption | src/components/study-guide/StudyGuidesList.tsx:74-77 | the value is the category; the caption is Uncategorized exactly for an empty category or one literally named so |
| StudyGuidesList.Categories | src/components/study-guide/StudyGuidesList.tsx:70-79 | the all-categories entry first, then one entry per distinct category |
| StudyGuidesList.OfferedCategoriesExist | src/components/study-guide/StudyGuidesList.tsx:71-77 | every offered value after the first is the category of some guide |
| StudyGuidesList.CategoryOfferedAt | src/components/study-guide/StudyGuidesList.tsx:71-77 | the category of any given guide is offered |
| StudyGuidesList.GuideCategoriesOffered | src/components/study-guide/StudyGuidesList.tsx:71-77 | every guide's category is offered after the first entry |
| StudyGuidesList.CategoriesDistinctInFirstOccurrenceOrder | src/components/study-guide/StudyGuidesList.tsx:71-77 | after the first entry no value repeats, and values follow first-occurrence order |
| StudyGuidesList.CategoryNamedAllCollides | src/components/study-guide/StudyGuidesList.tsx:73-82 | a category literally named `all` is offered twice under the same value, and choosing it shows every guide |
| StudyGuidesList.FilteredGuides | src/components/study-guide/StudyGuidesList.tsx:81-84 | `all` keeps the list as it is; any other choice keeps exactly the guides of that category |
| StudyGuidesList.WithCategory | src/components/study-guide/StudyGuidesList.tsx:83 | keeps exactly the guides of the category |
| StudyGuidesList.WithCategoryAppend | src/components/study-guide/StudyGuidesList.tsx:83 | filtering a concatenation filters each part in turn, so the original order is kept |
| StudyGuidesList.WithCategoryExtremes | src/components/study-guide/StudyGuidesList.tsx:83 | a list all of that category is kept whole; a list with none of it becomes empty |
| AuthContext.Cleared | src/context/AuthContext.tsx:56-59 | clearing drops the profile and all three flags, which leaves the flags consistent |
| AuthContext.LoadUserData | src/context/AuthContext.tsx:46-80 | a found row is stored with `isAdmin` for admin or super-admin, `isSuperAdmin` for super-admin and the password flag defaulting to false; a missing row or a read error clears everything, and only the read error shows the notice; nothing is rethrown |
| AuthContext.SessionChanged | src/context/AuthContext.tsx:86-100 | records the session's user and stops loading; no user clears the profile and every flag; a user has its profile loaded |
| AuthContext.SessionKeepsFlagsConsistent | src/context/AuthContext.tsx:72-75 | after any session change the flags agree with the profile, so `isSuperAdmin` implies `isAdmin` |
| AuthContext.SignIn | src/context/AuthContext.tsx:117-164 | asks for the session first and signs out exactly when one exists; an auth error is rethrown with its notice; no user returns quietly with its notice; only an authenticated account gets its profile loaded, and the state changes only then |
| AuthContext.SignInIgnoresProfileFailure | src/context/AuthContext.tsx:148-159 | because the profile load swallows its error, a failed profile read still reports success with both notices, never signs out a second time, and leaves no profile |
| AuthContext.ChangePassword | src/context/AuthContext.tsx:174-218 | a weak password fails before any remote call; the first call signs in with the account email and the current password, and a failed sign-in fails after that call alone; the credential update follows a good check; the flag is cleared in the profile only when a profile is loaded; success needs every step that ran to succeed, and the local flag drops only after all of them |
| AuthContext.ChangePasswordKeepsConsistent | src/context/AuthContext.tsx:192-211 | changing the password keeps the flags consistent, and full success lifts the requirement |
| AuthContext.InitialConsistent | src/context/AuthContext.tsx:23-28 | the provider starts loading, signed out and consistent |
| ChangePasswordForm.InitialSynced | src/components/auth/ChangePassword.tsx:59-67 | the all-false initial flags are those of the empty password |
| ChangePasswordForm.SetNewPassword | src/components/auth/ChangePassword.tsx:71-73 | editing the new password recomputes the flags from it and keeps the other fields |
| ChangePasswordForm.SetCurrent | src/components/auth/ChangePassword.tsx:113 | editing the current password keeps the flags in step |
| ChangePasswordForm.SetConfirm | src/components/auth/ChangePassword.tsx:143 | editing the confirmation keeps the flags in step |
| ChangePasswordForm.IsValidMeansPolicy | src/components/auth/ChangePassword.tsx:75-81 | with flags in step, the form is valid exactly when the new password meets the policy, matches the confirmation and the current password is non-empty |
| ChangePasswordForm.EnabledButtonSubmits | src/components/auth/ChangePassword.tsx:83-93 | an enabled button always reaches `changePassword`, and a submit that does not reach it had a disabled button |
| ChangePasswordForm.HandleSubmit | src/components/auth/ChangePassword.tsx:83-102 | the error is cleared first; an invalid form stops there; otherwise `changePassword` is called, loading ends, `onComplete` runs exactly on success and a failure stores its message |
| ChangePasswordForm.SubmittedPasswordPassesPolicy | src/components/auth/ChangePassword.tsx:75-93 | a valid form never hits the context's own policy rejection: the sign-in with the current password typed into the form is always reached |
| ProtectedRoute.Decide | src/components/shared/ProtectedRoute.tsx:11-27 | the placeholder exactly while loading; /login exactly without a profile; /study-guides exactly for a role not in a non-empty list; the page exactly for a profile with an allowed role or no list |
| ProtectedRoute.RoleRoutesMatchFlags | src/components/shared/ProtectedRoute.tsx:22-26 | on a consistent state, an admin page renders only when `isAdmin` holds, and a super-admin page exactly when `isSuperAdmin` holds and loading is over |
| PasswordChangeGuard.Decide | src/components/auth/PasswordChangeGuard.tsx:10-27 | /login carrying the current path exactly without a user; the form exactly for a user who must change the password and is elsewhere than /change-password; the page otherwise |
| PasswordChangeGuard.FormOnlyWhenProfileAsks | src/components/auth/PasswordChangeGuard.tsx:18-23 | on a consistent state, the form is forced only when the profile row asks for a new password |
| PasswordChangeGuard.ChangeReleasesGuard | src/components/auth/PasswordChangeGuard.tsx:18-26 | after a fully successful change the guard lets every path through |
| LocalUsers.LowerChar | src/services/local-user.service.ts:46 | lower-casing maps A-Z to a-z and keeps every other character |
| LocalUsers.Lower | src/services/local-user.service.ts:88 | lower-cases every character and keeps the length |
| LocalUsers.LowerIdempotent | src/services/local-user.service.ts:88 | lower-casing twice is lower-casing once |
| LocalUsers.SuperAdminEmailIsLower | src/services/local-user.service.ts:8 | the super-admin address is already lower case, so the comparison with it is case-insensitive |
| LocalUsers.FindIndex | src/services/local-user.service.ts:122-125 | the first matching position, or none when nothing matches |
| LocalUsers.EnsureSuperAdmin | src/services/local-user.service.ts:43-64 | a list holding a super-admin entry is kept; otherwise one super-admin entry is appended; either way one exists afterwards |
| LocalUsers.EnsureSuperAdminIdempotent | src/services/local-user.service.ts:43-64 | running the check twice is running it once |
| LocalUsers.Construct | src/services/local-user.service.ts:14-33 | after construction a super-admin entry exists, the stored list is kept as a prefix and at most one user is added |
| LocalUsers.GetUser | src/services/local-user.service.ts:72-82 | a user with the id is returned exactly when one exists; otherwise `User not found` |
| LocalUsers.GetUserByEmail | src/services/local-user.service.ts:84-90 | a user is returned exactly when one has the email up to case, and it matches |
| LocalUsers.CreateUser | src/services/local-user.service.ts:92-116 | an email taken up to case fails with its message and changes nothing; otherwise exactly one user is appended with the role (default `user`) and the password flag set |
| LocalUsers.CreateKeepsEmailsUnique | src/services/local-user.service.ts:96-112 | creation keeps emails unique up to case |
| LocalUsers.CreatedUserFoundByEmail | src/services/local-user.service.ts:84-116 | the new user is found by its email in any case |
| LocalUsers.UpdateUserRole | src/services/local-user.service.ts:118-137 | an unknown id fails with `User not found`; otherwise the first user with the id gets the role and a new stamp and every other entry is unchanged |
| LocalUsers.UpdatedRoleVisible | src/services/local-user.service.ts:118-137 | after an update, looking the user up shows the new role |
| LocalUsers.DeleteUser | src/services/local-user.service.ts:155-167 | refused exactly when the first user with the id has the super-admin email; otherwise the list filtered of that id, keeping exactly the other users |
| LocalUsers.WithoutId | src/services/local-user.service.ts:165 | keeps exactly the users with other ids, and never lengthens the list |
| LocalUsers.WithoutIdAppend | src/services/local-user.service.ts:165 | filtering a concatenation concatenates the filtered parts, so kept users stay in order |
| LocalUsers.WithoutIdSingle | src/services/local-user.service.ts:165 | a single user is kept exactly when its id differs |
| LocalUsers.WithoutIdCounts | src/services/local-user.service.ts:165 | a kept user appears as often as before; a user with the id no longer appears |
| LocalUsers.SuperAdminSurvivesDelete | src/services/local-user.service.ts:159-165 | with unique ids, a successful delete never removes a super-admin-email entry |
| LocalUsers.DeleteUnknownIsNoOp | src/services/local-user.service.ts:155-167 | deleting an unknown id succeeds and changes nothing |
| LocalUsers.WithoutIdKeepsAll | src/services/local-user.service.ts:165 | filtering out an absent id keeps the whole list in order |
| LocalUsers.ClearAllUsers | src/services/local-user.service.ts:170-174 | exactly one user remains, the super-admin |
| LocalUsers.DemotedSuperAdminDuplicated | src/services/local-user.service.ts:43-64 | after the super-admin is demoted, the check adds a second entry with the same email, breaking email uniqueness |

## Left out

- Backend calls themselves: the Supabase client, queries, RPCs and the auth API. Each outcome is a parameter, as described above.
- Plain read-through queries: `getUsers` / `getAllUsers`, `getUser`, `getStudyGuides`, `getStudyGuide`, `getStudyGuideCategories`, `getStudyGuidesByCategory`, `submitProgress`, and the guide update and delete calls. They return or throw whatever the backend returns, with nothing to decide. `LocalUsers` `getAllUsers` is a plain copy of the list.
- `signOut` in the auth context forwards the backend's error and does nothing else.
- The `AuthProvider` subscription and its initial `getSession` bootstrap. Their interest is the ordering of concurrent callbacks, and the model has no concurrency. `AuthContext.SessionChanged` models one callback run to completion.
- localStorage persistence and its JSON parsing in `LocalUsers`. `LocalUsers.Construct` takes the stored list, or `None` when nothing was stored or parsing failed.
- The simulated network delay.
- The `Math.random` mock statistics of `LocalUsers` `getUserStats`: randomness with no property to state.
- Clocks and identifiers: `Date.now`, `new Date()`, `uuidv4` and `crypto.getRandomValues` become parameters. Timestamps are integers.
- Invalid dates are not modelled: JavaScript compares them as never later, so a grant with an unparsable expiration would never expire.
- Floating point:
  - the score is a Dafny `real`, not a binary double;
  - elapsed time is passed in as whole minutes, so its `Math.round` is not modelled;
  - the dashboard's display formatting is not modelled.
- `QuizContent.SelectOption` and `StudyGuideContent.HandleOptionSelect` require a question at `currentIndex`. The source reads it unguarded and would throw a `TypeError` without one, so only the reachable case is modelled.
- Strings are sequences of Unicode scalar values. JavaScript compares UTF-16 code units, which orders characters outside the Basic Multilingual Plane differently. The password length rule does count UTF-16 code units (`PasswordPolicy.Utf16Length`).
- `toLowerCase` is modelled for ASCII letters only.
- `AdminService.GetDashboardStats`: a missing or falsy field becomes `None`. A successful RPC with no data at all, which the source would dereference and crash on, is not modelled.
- `QuizService.GetQuizQuestions`: an RPC answer with neither data nor an error is not modelled. The source maps over the missing records without a guard and throws a `TypeError`, which the quiz screen's catch turns into the same load-failure message as an RPC error.
- `AdminService.OrZero`: `NaN`, which JavaScript also treats as falsy, is not a value of the model.
- Toast messages are modelled where they are part of a decision: the auth context's notices and the quiz page's notices.
- The change-password form's success toast is not modelled.
- The form's fallback message `Failed to change password` for a thrown non-`Error` value is not modelled: every failure in the model carries a message.
- Legacy and display-only fields: the duplicated `question` field, the `created_at` / `updated_at` strings minted while mapping questions, difficulty labels, explanation markup and focus handling.
- Navigation payloads: the state passed to `/error` and `/login`, beyond the `from` path.
- `StudyGuideService.GetQuestionsByCategory`: the contract states that the result is sorted and is a rearrangement of the mapped rows. It does not state that ties keep their fetch order, although the model's insertion sort, like `Array.prototype.sort`, is stable.
- `StudyGuideContent.IsAnswerCorrect`: its own contract gives the failure cases and one direction. The full characterisation, set equality, is `StudyGuideContent.IsAnswerCorrectIffSameSet` for duplicate-free lists. Duplicate-free is the only kind the page produces.
- `LocalUsers.SuperAdminSurvivesDelete`: assumes ids are unique, as `uuidv4` ids are in practice. The source checks only the first user with the id, so with a duplicated id a later super-admin entry could be filtered out.
- `QuizService.LookupByToken`: `.single()` reports zero rows as an error, so the model never returns `NotFound` from it. `QuizService.ValidateQuizAccess` still treats `NotFound` like an error, as the source's `!data` branch does.
