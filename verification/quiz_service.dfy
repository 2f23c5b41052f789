/** The quiz service: checking a one-time access grant, fetching a quiz's
    questions, and recording a submission. The `quiz_access` table is a
    sequence of grants; remote outcomes, the clock and the random bytes are
    parameters. */
module QuizService {
  import opened Common
  import opened Types
  import opened Sorting
  import opened RandomText
  import QuizContent
  import JsOrder

  /** The rows of the table whose token is `token`, in table order. */
  function WithToken(grants: seq<QuizAccessGrant>, token: string): (r: seq<QuizAccessGrant>)
    ensures forall g :: g in r <==> g in grants && g.token == token
    ensures |r| <= |grants|
  {
    if |grants| == 0 then []
    else
      var rest := WithToken(grants[1..], token);
      assert grants == [grants[0]] + grants[1..];
      if grants[0].token == token then [grants[0]] + rest else rest
  }

  /** `.from('quiz_access').select('*').eq('token', token).single()`: an
      unreachable store, no match, or more than one match is an error;
      `.single()` never reports "no row" as data. */
  function LookupByToken(grants: seq<QuizAccessGrant>, token: string, reachable: bool): (r: Remote<QuizAccessGrant>)
    ensures r.Found? <==> reachable && |WithToken(grants, token)| == 1
    ensures r.Found? ==> WithToken(grants, token) == [r.row]
    ensures r.Found? ==> r.row in grants && r.row.token == token
    ensures !r.NotFound?
  {
    var matches := WithToken(grants, token);
    if reachable && |matches| == 1 then
      assert matches[0] in matches;
      Found(matches[0])
    else Failed
  }

  /** `validateQuizAccess` given the outcome of the lookup and the current
      time: a grant is accepted until its expiration instant inclusive and
      only while it has never been used. */
  function ValidateQuizAccess(lookup: Remote<QuizAccessGrant>, now: int): (r: Option<QuizAccessGrant>)
    ensures r.Some? <==> lookup.Found? && now <= lookup.row.expiration && lookup.row.usedAt.None?
    ensures r.Some? ==> r.value == lookup.row
  {
    match lookup
    case Failed => None
    case NotFound => None
    case Found(g) => if now > g.expiration || g.usedAt.Some? then None else Some(g)
  }

  /** Validation against the table itself. */
  function ValidateToken(grants: seq<QuizAccessGrant>, token: string, reachable: bool, now: int): (r: Option<QuizAccessGrant>)
    ensures r.Some? ==> reachable && r.value in grants && r.value.token == token
    ensures r.Some? ==> now <= r.value.expiration && r.value.usedAt.None?
  {
    ValidateQuizAccess(LookupByToken(grants, token, reachable), now)
  }

  /** An accepted grant is the one row carrying the token, unexpired and
      unused; any other outcome is a rejection. */
  lemma ValidateTokenMeans(grants: seq<QuizAccessGrant>, token: string, reachable: bool, now: int)
    ensures ValidateToken(grants, token, reachable, now).Some? <==>
      exists g :: WithToken(grants, token) == [g] && reachable && now <= g.expiration && g.usedAt.None?
  {
    var w := WithToken(grants, token);
    if exists g :: w == [g] && reachable && now <= g.expiration && g.usedAt.None? {
      var g :| w == [g] && reachable && now <= g.expiration && g.usedAt.None?;
      assert LookupByToken(grants, token, reachable) == Found(g);
    }
  }

  /** The update `{ used_at: now }` applied to every grant of `quizId`: not
      just the grant whose token was used, but every grant of that quiz. */
  function MarkUsed(grants: seq<QuizAccessGrant>, quizId: string, now: int): (r: seq<QuizAccessGrant>)
    ensures |r| == |grants|
    ensures forall i :: 0 <= i < |r| ==> r[i].(usedAt := grants[i].usedAt) == grants[i]
    ensures forall i :: 0 <= i < |r| && grants[i].quizId == quizId ==> r[i].usedAt == Some(now)
    ensures forall i :: 0 <= i < |r| && grants[i].quizId != quizId ==> r[i] == grants[i]
  {
    if |grants| == 0 then []
    else
      var g := grants[0];
      [if g.quizId == quizId then g.(usedAt := Some(now)) else g] + MarkUsed(grants[1..], quizId, now)
  }

  /** Marking keeps every token's match count. */
  lemma {:induction false} MarkUsedKeepsMatches(grants: seq<QuizAccessGrant>, quizId: string, now: int, token: string)
    ensures |WithToken(MarkUsed(grants, quizId, now), token)| == |WithToken(grants, token)|
  {
    if |grants| > 0 {
      MarkUsedKeepsMatches(grants[1..], quizId, now, token);
      var r := MarkUsed(grants, quizId, now);
      assert r[1..] == MarkUsed(grants[1..], quizId, now);
      assert r == [r[0]] + r[1..];
    }
  }

  /** After a submission marks quiz `quizId`, no token of that quiz validates
      again, at any later time, including tokens of other grants of the same
      quiz. */
  lemma MarkedQuizNeverValidates(grants: seq<QuizAccessGrant>, quizId: string, now: int,
                                 token: string, reachable: bool, later: int)
    ensures var v := ValidateToken(MarkUsed(grants, quizId, now), token, reachable, later);
      v.None? || v.value.quizId != quizId
  {
    var r := MarkUsed(grants, quizId, now);
    var l := LookupByToken(r, token, reachable);
    if l.Found? {
      var i :| 0 <= i < |r| && r[i] == l.row;
      assert r[i].quizId == grants[i].quizId;
    }
  }

  /** Marking one quiz leaves the validity of every token of other quizzes
      exactly as it was. */
  lemma MarkOtherQuizUntouched(grants: seq<QuizAccessGrant>, quizId: string, now: int,
                               token: string, reachable: bool, later: int)
    requires forall g :: g in grants && g.token == token ==> g.quizId != quizId
    ensures ValidateToken(MarkUsed(grants, quizId, now), token, reachable, later)
         == ValidateToken(grants, token, reachable, later)
  {
    var r := MarkUsed(grants, quizId, now);
    MarkUsedKeepsMatches(grants, quizId, now, token);
    var before := LookupByToken(grants, token, reachable);
    var after := LookupByToken(r, token, reachable);
    if before.Found? {
      var i :| 0 <= i < |grants| && grants[i] == before.row;
      assert r[i] == grants[i];
      assert r[i] in WithToken(r, token);
      assert after == before;
    }
  }

  /** Validation reads the table and changes nothing: a grant that validates
      still validates when asked again. */
  lemma ValidationRepeatable(grants: seq<QuizAccessGrant>, token: string, reachable: bool, now: int)
    requires ValidateToken(grants, token, reachable, now).Some?
    ensures ValidateToken(grants, token, reachable, now).value.usedAt.None?
    ensures forall earlier :: earlier <= now ==>
      ValidateToken(grants, token, reachable, earlier) == ValidateToken(grants, token, reachable, now)
  {
  }

  const PassText := "PASS"
  const FailText := "FAIL"
  const PassMark: real := 80.0
  const SubmitFailedMessage := "Failed to submit quiz result"
  const FetchQuestionsFailedMessage := "Failed to fetch quiz questions"

  /** The verdict stored with a result. */
  function ScoreText(score: real): (t: string)
    ensures t == PassText <==> score >= PassMark
    ensures t == FailText <==> score < PassMark
  {
    if score >= PassMark then PassText else FailText
  }

  /** `SubmitQuizParams`; the optional strings are `None` when undefined. */
  datatype SubmitParams = SubmitParams(
    quizId: string,
    quizType: Option<string>,
    ldap: Option<string>,
    supervisor: Option<string>,
    market: Option<string>,
    answers: seq<Option<QuizContent.Answer>>,
    score: real,
    timeTaken: int)

  /** The row inserted into `quiz_results` (and read back by `.select()`). */
  datatype ResultRow = ResultRow(
    quizId: string,
    quizType: Option<string>,
    ldap: string,
    supervisor: string,
    market: string,
    scoreValue: real,
    scoreText: string,
    answers: seq<Option<QuizContent.Answer>>,
    timeTaken: int,
    completedAt: int,
    pdfUrl: Option<string>)

  /** The remote steps of a submission, in the order they are issued. */
  datatype Call = MarkAccessUsed(quizId: string) | RequestCertificate | InsertResult(row: ResultRow)

  datatype SubmitRun = SubmitRun(calls: seq<Call>, grants: seq<QuizAccessGrant>, outcome: Result<ResultRow>)

  /** `submitQuiz`. `markOk` and `insertOk` are the outcomes of the update and
      the insert, `certificate` that of certificate generation (`None` when it
      throws), `now` the clock. */
  function SubmitQuiz(p: SubmitParams, grants: seq<QuizAccessGrant>, markOk: bool,
                      certificate: Option<string>, insertOk: bool, now: int): (run: SubmitRun)
    ensures |run.calls| >= 2 && run.calls[0] == MarkAccessUsed(p.quizId) && run.calls[|run.calls| - 1].InsertResult?
    ensures RequestCertificate in run.calls <==> p.score >= PassMark
    ensures run.grants == if markOk then MarkUsed(grants, p.quizId, now) else grants
    ensures run.outcome.Ok? <==> insertOk
    ensures run.outcome.Err? ==> run.outcome.message == SubmitFailedMessage
    ensures run.outcome.Ok? ==> run.calls[|run.calls| - 1] == InsertResult(run.outcome.value)
    ensures var row := run.calls[|run.calls| - 1].row;
      && row.quizId == p.quizId && row.quizType == p.quizType
      && row.scoreValue == p.score && row.answers == p.answers
      && row.timeTaken == p.timeTaken && row.completedAt == now
      && (row.scoreText == PassText <==> p.score >= PassMark)
      && (row.scoreText == FailText <==> p.score < PassMark)
      && row.pdfUrl == (if p.score >= PassMark then certificate else None)
      && row.ldap == StringOr(p.ldap, "Anonymous")
      && row.supervisor == StringOr(p.supervisor, "Unknown")
      && row.market == StringOr(p.market, "Unknown")
  {
    var marked := if markOk then MarkUsed(grants, p.quizId, now) else grants;
    var text := ScoreText(p.score);
    var pdf := if text == PassText then certificate else None;
    var row := ResultRow(p.quizId, p.quizType, StringOr(p.ldap, "Anonymous"),
                         StringOr(p.supervisor, "Unknown"), StringOr(p.market, "Unknown"),
                         p.score, text, p.answers, p.timeTaken, now, pdf);
    var calls := [MarkAccessUsed(p.quizId)] + (if text == PassText then [RequestCertificate] else []) + [InsertResult(row)];
    SubmitRun(calls, marked, if insertOk then Ok(row) else Err(SubmitFailedMessage))
  }

  /** The grants are marked before the insert and whatever it returns: a
      failed insert still burns every token of the quiz. */
  lemma FailedInsertStillBurnsTokens(p: SubmitParams, grants: seq<QuizAccessGrant>,
                                     certificate: Option<string>, now: int, token: string, reachable: bool, later: int)
    ensures var run := SubmitQuiz(p, grants, true, certificate, false, now);
      && run.outcome.Err?
      && run.grants == SubmitQuiz(p, grants, true, certificate, true, now).grants
      && (ValidateToken(run.grants, token, reachable, later).None?
          || ValidateToken(run.grants, token, reachable, later).value.quizId != p.quizId)
  {
    MarkedQuizNeverValidates(grants, p.quizId, now, token, reachable, later);
  }

  /** A failed update is only logged: the result is still inserted. */
  lemma FailedMarkStillInserts(p: SubmitParams, grants: seq<QuizAccessGrant>,
                               certificate: Option<string>, now: int)
    ensures var run := SubmitQuiz(p, grants, false, certificate, true, now);
      run.grants == grants && run.outcome.Ok? && InsertResult(run.outcome.value) in run.calls
  {
  }

  /** `generateToken`: eight bytes, each mapped to `chars[b % 62]`. */
  function GenerateToken(bytes: seq<byte>): (t: string)
    requires |bytes| == 8
    ensures |t| == 8
    ensures forall i :: 0 <= i < 8 ==> t[i] == TokenAlphabet[bytes[i] as int % 62]
  {
    Encode(bytes, TokenAlphabet)
  }

  /** Every token is alphanumeric, and every 8-character alphanumeric string
      is the token of some bytes. */
  lemma TokenSpace(t: string)
    ensures (exists bytes: seq<byte> :: |bytes| == 8 && GenerateToken(bytes) == t) <==>
      |t| == 8 && forall i :: 0 <= i < 8 ==> t[i] in TokenAlphabet
  {
    if |t| == 8 && forall i :: 0 <= i < 8 ==> t[i] in TokenAlphabet {
      var b := BytesFor(t, TokenAlphabet);
      EncodeBytesForRoundTrip(t, TokenAlphabet);
      assert GenerateToken(b) == t;
    }
  }

  const CertificatePrefix := "https://storage.example.com/certificates/"
  const CertificateSuffix := ".pdf"

  /** `generateCertificatePDF`: a placeholder URL around a fresh token. */
  function CertificateUrl(bytes: seq<byte>): (url: string)
    requires |bytes| == 8
    ensures |url| == |CertificatePrefix| + 8 + |CertificateSuffix|
    ensures url[..|CertificatePrefix|] == CertificatePrefix
    ensures url[|CertificatePrefix|..|CertificatePrefix| + 8] == GenerateToken(bytes)
    ensures url[|CertificatePrefix| + 8..] == CertificateSuffix
  {
    CertificatePrefix + GenerateToken(bytes) + CertificateSuffix
  }

  /** Two certificates share a URL only when their tokens agree. */
  lemma CertificateUrlInjective(a: seq<byte>, b: seq<byte>)
    requires |a| == 8 && |b| == 8
    ensures CertificateUrl(a) == CertificateUrl(b) <==> GenerateToken(a) == GenerateToken(b)
  {
    if CertificateUrl(a) == CertificateUrl(b) {
      var n := |CertificatePrefix|;
      assert GenerateToken(a) == CertificateUrl(a)[n..n + 8];
    }
  }

  /** The `QuestionWithOptions` built from a `QuestionRecord`. */
  function FromRecord(rec: QuestionRecord): (q: Question)
    ensures q.id == rec.question.id && q.content == rec.question.content
    ensures q.qtype == rec.question.qtype && q.explanation == rec.question.explanation
    ensures q.difficulty == rec.question.difficulty && q.category == rec.question.category
    ensures q.tags == rec.question.tags
    ensures q.displayOrder == rec.displayOrder
    ensures multiset(q.options) == multiset(rec.question.options) && Sorted(q.options, OptionLe)
  {
    var r := rec.question;
    Question(r.id, r.content, r.qtype, r.explanation, r.difficulty, r.category, r.tags,
             rec.displayOrder, SortOptions(r.options))
  }

  /** `getQuizQuestions`, given the outcome of the `get_quiz_questions` call:
      records keep their order; each question's options are put in display
      order. */
  function GetQuizQuestions(fetched: Result<seq<QuestionRecord>>): (r: Result<seq<Question>>)
    ensures r.Err? <==> fetched.Err?
    ensures r.Err? ==> r.message == FetchQuestionsFailedMessage
    ensures r.Ok? ==> |r.value| == |fetched.value|
    ensures r.Ok? ==> forall i :: 0 <= i < |r.value| ==> r.value[i] == FromRecord(fetched.value[i])
  {
    match fetched
    case Err(_) => Err(FetchQuestionsFailedMessage)
    case Ok(records) => Ok(seq(|records|, i requires 0 <= i < |records| => FromRecord(records[i])))
  }

  /** Sorting options twice changes nothing: options already in display order
      with distinct display orders come back as they were. */
  lemma {:induction false} SortedOptionsFixed(options: seq<QuestionOption>)
    requires forall i, j :: 0 <= i < j < |options| ==> options[i].displayOrder < options[j].displayOrder
    ensures SortOptions(options) == options
    decreases |options|
  {
    if |options| > 0 {
      var p := options[..|options| - 1];
      SortedOptionsFixed(p);
      var last := options[|options| - 1];
      assert options == p + [last];
      if |p| > 0 {
        assert OptionLe(p[|p| - 1], last);
      }
      assert Sort(options, OptionLe) == Insert(last, Sort(p, OptionLe), OptionLe);
    }
  }

  /** Three questions of which two are answered right score 200/3, about
      66.7 percent, which is below the pass mark: the verdict is FAIL. */
  lemma TwoOfThreeFails(st: QuizContent.State)
    requires |st.questions| == 3 && |QuizContent.CorrectQuestions(st)| == 2
    ensures 66.0 < QuizContent.CalculateScore(st) < 67.0
    ensures ScoreText(QuizContent.CalculateScore(st)) == FailText
  {
    assert QuizContent.CalculateScore(st) == (2.0 / 3.0) * 100.0;
  }

  /** A concrete such quiz: three one-option questions, the first two
      answered with the correct option and the last left unanswered. */
  lemma TwoOfThreeExample(q: Question)
    requires q.options == [QuestionOption("o", q.id, "yes", true, 0)]
    ensures var st := QuizContent.State([q, q, q], 2,
                                        [Some(QuizContent.Answer(0, [0])), Some(QuizContent.Answer(1, [0])), None],
                                        None, false);
      QuizContent.CorrectQuestions(st) == {0, 1} && ScoreText(QuizContent.CalculateScore(st)) == FailText
  {
    var st := QuizContent.State([q, q, q], 2,
                                [Some(QuizContent.Answer(0, [0])), Some(QuizContent.Answer(1, [0])), None],
                                None, false);
    assert QuizContent.CorrectOptionIndices(q.options) == [0] by {
      assert q.options[..0] == [];
    }
    assert Sort([0 as nat], JsOrder.NumberStringLe) == [0];
    assert QuizContent.QuestionCorrect(st.questions, st.answers, 0);
    assert QuizContent.QuestionCorrect(st.questions, st.answers, 1);
    assert !QuizContent.QuestionCorrect(st.questions, st.answers, 2);
    assert QuizContent.CorrectQuestions(st) == {0, 1};
    TwoOfThreeFails(st);
  }
}
