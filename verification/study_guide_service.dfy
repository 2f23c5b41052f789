/** The study-guide service: joining a guide's question links with the
    question rows, the guide-content RPC mapping, and guide creation. Every
    remote outcome and the clock are parameters. */
module StudyGuideService {
  import opened Common
  import opened Types
  import opened Sorting

  const LinksFailedMessage := "Failed to fetch study guide questions"
  const DetailsFailedMessage := "Failed to fetch question details"
  const ContentFailedMessage := "Failed to fetch study guide content"
  const CreateFailedMessage := "Failed to create study guide"

  /** A row of `study_guide_questions`: which question, at which position
      (`None` for a null position). */
  datatype Link = Link(questionId: string, displayOrder: Option<int>)

  /** A row of `questions` with its nested `question_options`, which may be
      absent. */
  datatype QuestionRow = QuestionRow(
    id: string,
    content: string,
    qtype: QuestionType,
    explanation: Option<string>,
    difficulty: Difficulty,
    category: string,
    tags: seq<string>,
    options: Option<seq<QuestionOption>>)

  /** `new Map(links.map(l => [l.question_id, l.display_order]))`. */
  function DisplayOrders(links: seq<Link>): (m: map<string, Option<int>>)
    ensures forall id :: id in m <==> exists i :: 0 <= i < |links| && links[i].questionId == id
  {
    if |links| == 0 then map[]
    else
      var p := links[..|links| - 1];
      var last := links[|links| - 1];
      assert forall i :: 0 <= i < |p| ==> p[i] == links[i];
      DisplayOrders(p)[last.questionId := last.displayOrder]
  }

  /** No later link names the same question as link `i`. */
  predicate LastLink(links: seq<Link>, i: nat)
    requires i < |links|
  {
    forall j :: i < j < |links| ==> links[j].questionId != links[i].questionId
  }

  /** When an id is linked more than once, the last link wins. */
  lemma {:induction false} LastLinkWins(links: seq<Link>, i: nat)
    requires i < |links|
    requires LastLink(links, i)
    ensures links[i].questionId in DisplayOrders(links)
    ensures DisplayOrders(links)[links[i].questionId] == links[i].displayOrder
    decreases |links|
  {
    var p := links[..|links| - 1];
    if i < |links| - 1 {
      LastLinkWins(p, i);
    }
  }

  /** `displayOrderMap.get(id) || 0`: an unlinked id, a null position and
      position 0 all read as 0. */
  function OrderOf(m: map<string, Option<int>>, id: string): (n: int)
    ensures id in m && m[id].Some? ==> n == m[id].value
    ensures id !in m || m[id].None? ==> n == 0
  {
    if id in m then m[id].GetOr(0) else 0
  }

  /** One question row in the shape the view uses: the position from the
      links, options in display order and tagged with the question id, and
      `''` for a missing explanation. */
  function MapRow(m: map<string, Option<int>>, row: QuestionRow): (q: Question)
    ensures q.id == row.id && q.content == row.content && q.qtype == row.qtype
    ensures q.difficulty == row.difficulty && q.category == row.category && q.tags == row.tags
    ensures q.explanation == Some(row.explanation.GetOr(""))
    ensures q.displayOrder == OrderOf(m, row.id)
    ensures |q.options| == |row.options.GetOr([])|
    ensures forall i :: 0 <= i < |q.options| ==> q.options[i].questionId == row.id
    ensures Sorted(q.options, OptionLe)
    ensures multiset(q.options) == multiset(Retag(row.options.GetOr([]), row.id))
  {
    var sorted := SortOptions(row.options.GetOr([]));
    RetagSorted(sorted, row.id);
    RetagPermutation(sorted, row.options.GetOr([]), row.id);
    Question(row.id, row.content, row.qtype, Some(row.explanation.GetOr("")), row.difficulty,
             row.category, row.tags, OrderOf(m, row.id), Retag(sorted, row.id))
  }

  /** `.map(option => ({ ...option, question_id }))`: same options, same
      order, every one pointing at the question. */
  function Retag(options: seq<QuestionOption>, questionId: string): (r: seq<QuestionOption>)
    ensures |r| == |options|
    ensures forall i :: 0 <= i < |r| ==> r[i] == options[i].(questionId := questionId)
  {
    if |options| == 0 then [] else [options[0].(questionId := questionId)] + Retag(options[1..], questionId)
  }

  /** Removing the element at one position removes one occurrence of it. */
  lemma RemoveAt<T>(s: seq<T>, k: nat)
    requires k < |s|
    ensures multiset(s[..k] + s[k + 1..]) == multiset(s) - multiset{s[k]}
  {
    assert s == s[..k] + [s[k]] + s[k + 1..];
  }

  /** Taking one occurrence out and putting it back changes nothing. */
  lemma PutBack<T>(m: multiset<T>, x: T)
    requires x in m
    ensures multiset{x} + (m - multiset{x}) == m
  {
  }

  /** Two arrangements of the same multiset have the same members. */
  lemma SameMembers<T>(a: seq<T>, b: seq<T>, x: T)
    requires multiset(a) == multiset(b) && x in a
    ensures x in b
  {
    assert x in multiset(a);
  }

  /** Re-tagging commutes with removing a position. */
  lemma RetagRemoveAt(b: seq<QuestionOption>, k: nat, questionId: string)
    requires k < |b|
    ensures Retag(b[..k] + b[k + 1..], questionId)
      == Retag(b, questionId)[..k] + Retag(b, questionId)[k + 1..]
  {
    var l := Retag(b[..k] + b[k + 1..], questionId);
    var r := Retag(b, questionId)[..k] + Retag(b, questionId)[k + 1..];
    assert |l| == |r|;
    forall i | 0 <= i < |l| ensures l[i] == r[i] {
      if i < k {
        assert (b[..k] + b[k + 1..])[i] == b[i];
      } else {
        assert (b[..k] + b[k + 1..])[i] == b[i + 1];
      }
    }
  }

  /** Re-tagging after removing a position drops one re-tagged copy. */
  lemma RetagRemove(b: seq<QuestionOption>, k: nat, questionId: string)
    requires k < |b|
    ensures b[k].(questionId := questionId) in multiset(Retag(b, questionId))
    ensures multiset(Retag(b[..k] + b[k + 1..], questionId))
      == multiset(Retag(b, questionId)) - multiset{b[k].(questionId := questionId)}
  {
    var c := Retag(b, questionId);
    RemoveAt(c, k);
    RetagRemoveAt(b, k, questionId);
    assert c[k] == b[k].(questionId := questionId);
  }

  /** The first option re-tagged, then the rest. */
  lemma RetagCons(a: seq<QuestionOption>, questionId: string)
    requires |a| > 0
    ensures multiset(Retag(a, questionId))
      == multiset{a[0].(questionId := questionId)} + multiset(Retag(a[1..], questionId))
  {
    assert Retag(a, questionId) == [a[0].(questionId := questionId)] + Retag(a[1..], questionId);
  }

  /** Re-tagging two arrangements of the same options gives two arrangements
      of the same re-tagged options. */
  lemma {:induction false} RetagPermutation(a: seq<QuestionOption>, b: seq<QuestionOption>, questionId: string)
    requires multiset(a) == multiset(b)
    ensures multiset(Retag(a, questionId)) == multiset(Retag(b, questionId))
    decreases |a|
  {
    if |a| == 0 {
      assert |b| == 0;
    } else {
      var x := a[0];
      assert x in multiset(b) by {
        assert x in multiset(a);
      }
      var k :| 0 <= k < |b| && b[k] == x;
      var rest := b[..k] + b[k + 1..];
      assert multiset(a[1..]) == multiset(rest) by {
        assert a == [x] + a[1..];
        RemoveAt(b, k);
      }
      RetagPermutation(a[1..], rest, questionId);
      var y := x.(questionId := questionId);
      var mb := multiset(Retag(b, questionId));
      assert multiset(Retag(a, questionId)) == multiset{y} + (mb - multiset{y}) by {
        RetagCons(a, questionId);
        RetagRemove(b, k, questionId);
      }
      assert y in mb by {
        RetagRemove(b, k, questionId);
      }
      PutBack(mb, y);
    }
  }

  /** Re-tagging keeps the display order, so it keeps sortedness. */
  lemma RetagSorted(options: seq<QuestionOption>, questionId: string)
    requires Sorted(options, OptionLe)
    ensures Sorted(Retag(options, questionId), OptionLe)
  {
  }

  /** Mapping every fetched row, in the order the rows came back. */
  function MapRows(m: map<string, Option<int>>, rows: seq<QuestionRow>): (r: seq<Question>)
    ensures |r| == |rows|
    ensures forall i :: 0 <= i < |r| ==> r[i] == MapRow(m, rows[i])
  {
    seq(|rows|, i requires 0 <= i < |rows| => MapRow(m, rows[i]))
  }

  /** `getQuestionsByCategory`, given the outcome of the link query and of
      the question query. A guide without links returns `[]` without asking
      for questions. */
  function GetQuestionsByCategory(links: Result<seq<Link>>, rows: Result<seq<QuestionRow>>): (r: Result<seq<Question>>)
    ensures links.Err? ==> r == Err(LinksFailedMessage)
    ensures links.Ok? && |links.value| == 0 ==> r == Ok([])
    ensures links.Ok? && |links.value| > 0 && rows.Err? ==> r == Err(DetailsFailedMessage)
    ensures links.Ok? && |links.value| > 0 && rows.Ok? ==>
      && r.Ok?
      && |r.value| == |rows.value|
      && multiset(r.value) == multiset(MapRows(DisplayOrders(links.value), rows.value))
      && Sorted(r.value, QuestionLe)
  {
    match links
    case Err(_) => Err(LinksFailedMessage)
    case Ok(ls) =>
      if |ls| == 0 then Ok([])
      else match rows
        case Err(_) => Err(DetailsFailedMessage)
        case Ok(rs) => Ok(SortQuestions(MapRows(DisplayOrders(ls), rs)))
  }

  /** A member of any rearrangement of the mapped rows is the mapping of
      one of them. */
  lemma MemberOfMappedRows(m: map<string, Option<int>>, rows: seq<QuestionRow>, r: seq<Question>, q: Question)
    requires multiset(r) == multiset(MapRows(m, rows)) && q in r
    ensures exists i :: 0 <= i < |rows| && q == MapRow(m, rows[i])
  {
    var mapped := MapRows(m, rows);
    SameMembers(r, mapped, q);
    var i :| 0 <= i < |mapped| && mapped[i] == q;
  }

  /** Every returned question is the mapping of a fetched row. */
  lemma {:induction false} ReturnedQuestionsAreMappedRows(links: seq<Link>, rows: seq<QuestionRow>, r: seq<Question>, q: Question)
    requires |links| > 0
    requires GetQuestionsByCategory(Ok(links), Ok(rows)) == Ok(r)
    requires q in r
    ensures exists i :: 0 <= i < |rows| && q == MapRow(DisplayOrders(links), rows[i])
  {
    MemberOfMappedRows(DisplayOrders(links), rows, r, q);
  }

  /** A row takes the position of the last link naming it. */
  lemma {:induction false} MappedRowTakesLastLink(links: seq<Link>, row: QuestionRow, i: nat)
    requires i < |links| && links[i].questionId == row.id && LastLink(links, i)
    ensures MapRow(DisplayOrders(links), row).displayOrder == links[i].displayOrder.GetOr(0)
  {
    LastLinkWins(links, i);
  }

  /** A row that no link names sits at position 0. */
  lemma {:induction false} UnlinkedRowAtZero(links: seq<Link>, row: QuestionRow)
    requires forall i :: 0 <= i < |links| ==> links[i].questionId != row.id
    ensures MapRow(DisplayOrders(links), row).displayOrder == 0
  {
  }

  /** The question part of a content record, with `''` for a missing
      explanation and the options in display order. */
  function MapRecord(rec: QuestionRecord): (q: Question)
    ensures q.id == rec.question.id && q.displayOrder == rec.displayOrder
    ensures q.content == rec.question.content && q.qtype == rec.question.qtype
    ensures q.difficulty == rec.question.difficulty && q.category == rec.question.category
    ensures q.tags == rec.question.tags
    ensures q.explanation == Some(rec.question.explanation.GetOr(""))
    ensures multiset(q.options) == multiset(rec.question.options) && Sorted(q.options, OptionLe)
  {
    var r := rec.question;
    Question(r.id, r.content, r.qtype, Some(r.explanation.GetOr("")), r.difficulty, r.category, r.tags,
             rec.displayOrder, SortOptions(r.options))
  }

  /** `getStudyGuideContent`, given the outcome of the RPC (`None` when it
      returns no data): records keep the order the RPC gave. */
  function GetStudyGuideContent(rpc: Result<Option<seq<QuestionRecord>>>): (r: Result<seq<Question>>)
    ensures rpc.Err? ==> r == Err(ContentFailedMessage)
    ensures rpc.Ok? && rpc.value.None? ==> r == Ok([])
    ensures rpc.Ok? && rpc.value.Some? ==>
      && r.Ok? && |r.value| == |rpc.value.value|
      && forall i :: 0 <= i < |r.value| ==> r.value[i] == MapRecord(rpc.value.value[i])
  {
    match rpc
    case Err(_) => Err(ContentFailedMessage)
    case Ok(None) => Ok([])
    case Ok(Some(records)) => Ok(seq(|records|, i requires 0 <= i < |records| => MapRecord(records[i])))
  }

  /** No data and an empty list of records both give an empty guide. */
  lemma ContentEmptyCases()
    ensures GetStudyGuideContent(Ok(None)) == GetStudyGuideContent(Ok(Some([]))) == Ok([])
  {
  }

  /** The fields of a new guide as the caller supplies them. */
  datatype GuideDraft = GuideDraft(
    title: Option<string>,
    description: Option<string>,
    category: Option<string>,
    status: Option<GuideStatus>)

  /** The row inserted into `study_guides`. */
  datatype GuideInsert = GuideInsert(
    title: Option<string>,
    description: Option<string>,
    category: Option<string>,
    status: GuideStatus,
    createdAt: int,
    updatedAt: int)

  /** `createStudyGuide`: the given status is kept, a missing one becomes
      `draft`; both timestamps are the current time. */
  function CreateStudyGuide(draft: GuideDraft, insertOk: bool, now: int): (r: Result<GuideInsert>)
    ensures r.Ok? <==> insertOk
    ensures r.Err? ==> r.message == CreateFailedMessage
    ensures r.Ok? ==> r.value.status == (if draft.status.Some? then draft.status.value else Draft)
    ensures r.Ok? ==>
      (r.value.title == draft.title && r.value.description == draft.description && r.value.category == draft.category)
    ensures r.Ok? ==> r.value.createdAt == now && r.value.updatedAt == now
  {
    if !insertOk then Err(CreateFailedMessage)
    else Ok(GuideInsert(draft.title, draft.description, draft.category, draft.status.GetOr(Draft), now, now))
  }

  /** A new guide is published only when its author asks for it. */
  lemma NewGuidesAreDraftsByDefault(draft: GuideDraft, now: int)
    ensures CreateStudyGuide(draft, true, now).value.status == Published <==> draft.status == Some(Published)
  {
  }
}
