/** The two derived lists of the study-guide index page: the category
    choices offered in the filter and the guides shown for a chosen filter. */
module StudyGuidesList {
  import opened Common
  import opened Types

  const AllValue := "all"
  const AllLabel := "All Categories"
  const UncategorizedLabel := "Uncategorized"

  /** One entry of the category drop-down. */
  datatype CategoryOption = CategoryOption(value: string, caption: string)

  /** The category of every guide, in list order. */
  function CategoryColumn(guides: seq<StudyGuide>): (r: seq<string>)
    ensures |r| == |guides|
    ensures forall i :: 0 <= i < |r| ==> r[i] == guides[i].category
  {
    if |guides| == 0 then [] else CategoryColumn(guides[..|guides| - 1]) + [guides[|guides| - 1].category]
  }

  /** `Array.from(new Set(s))`: a set remembers the order in which values
      were first added. */
  function Unique(s: seq<string>): (r: seq<string>)
    ensures Distinct(r)
    ensures forall x :: x in r <==> x in s
  {
    if |s| == 0 then []
    else
      var p := Unique(s[..|s| - 1]);
      assert forall x :: x in s <==> x in s[..|s| - 1] || x == s[|s| - 1] by {
        assert s == s[..|s| - 1] + [s[|s| - 1]];
      }
      if s[|s| - 1] in p then p else p + [s[|s| - 1]]
  }

  /** The position at which a value first occurs. */
  function FirstIndex(s: seq<string>, x: string): (k: nat)
    requires x in s
    ensures k < |s| && s[k] == x
    ensures forall j :: 0 <= j < k ==> s[j] != x
  {
    if s[0] == x then 0 else 1 + FirstIndex(s[1..], x)
  }

  /** Adding elements behind a prefix does not move first occurrences
      inside it. */
  lemma FirstIndexPrefix(s: seq<string>, n: nat, x: string)
    requires n <= |s| && x in s[..n]
    ensures FirstIndex(s, x) == FirstIndex(s[..n], x)
  {
    var k := FirstIndex(s[..n], x);
    var k' := FirstIndex(s, x);
    assert s[..n][k] == s[k];
    assert k' <= k;
    assert s[..n][k'] == s[k'];
  }

  /** The de-duplicated values come out in the order of their first
      occurrence; with distinctness and the same elements this pins the
      result down completely. */
  lemma {:induction false} UniqueFirstOccurrenceOrder(s: seq<string>)
    ensures forall i, j :: 0 <= i < j < |Unique(s)| ==> FirstIndex(s, Unique(s)[i]) < FirstIndex(s, Unique(s)[j])
  {
    if |s| > 0 {
      var n := |s| - 1;
      var q := s[..n];
      var p := Unique(q);
      UniqueFirstOccurrenceOrder(q);
      forall x | x in p ensures FirstIndex(s, x) == FirstIndex(q, x) {
        FirstIndexPrefix(s, n, x);
      }
      if s[n] !in p {
        assert s[n] !in q;
        assert FirstIndex(s, s[n]) == n;
      }
    }
  }

  /** `{ value: category || '', label: category || 'Uncategorized' }`. */
  function ToOption(category: string): (o: CategoryOption)
    ensures o.value == category
    ensures o.caption == UncategorizedLabel <==> category == "" || category == UncategorizedLabel
  {
    CategoryOption(category, if category == "" then UncategorizedLabel else category)
  }

  /** The `categories` memo: "All Categories" first, then one entry per
      distinct category. */
  function Categories(guides: seq<StudyGuide>): (r: seq<CategoryOption>)
    ensures |r| == 1 + |Unique(CategoryColumn(guides))|
    ensures r[0] == CategoryOption(AllValue, AllLabel)
    ensures forall i :: 0 <= i < |r| - 1 ==> r[i + 1] == ToOption(Unique(CategoryColumn(guides))[i])
  {
    var u := Unique(CategoryColumn(guides));
    [CategoryOption(AllValue, AllLabel)] + seq(|u|, i requires 0 <= i < |u| => ToOption(u[i]))
  }

  /** After the leading entry, every offered value is the category of some
      guide. */
  lemma {:induction false} OfferedCategoriesExist(guides: seq<StudyGuide>)
    ensures forall i :: 1 <= i < |Categories(guides)| ==>
              exists g :: g in guides && g.category == Categories(guides)[i].value
  {
    var r := Categories(guides);
    var col := CategoryColumn(guides);
    var u := Unique(col);
    forall i | 1 <= i < |r| ensures exists g :: g in guides && g.category == r[i].value {
      assert u[i - 1] in col;
      var k :| 0 <= k < |col| && col[k] == u[i - 1];
      assert guides[k] in guides;
    }
  }

  /** The category of guide `k` is offered after the leading entry. */
  lemma CategoryOfferedAt(guides: seq<StudyGuide>, k: nat)
    requires k < |guides|
    ensures exists i :: 1 <= i < |Categories(guides)| && Categories(guides)[i].value == guides[k].category
  {
    var r := Categories(guides);
    var u := Unique(CategoryColumn(guides));
    assert CategoryColumn(guides)[k] == guides[k].category;
    assert guides[k].category in CategoryColumn(guides);
    assert guides[k].category in u;
    var i :| 0 <= i < |u| && u[i] == guides[k].category;
    assert r[i + 1].value == guides[k].category;
  }

  /** Every guide's category is offered after the leading entry. */
  lemma {:induction false} GuideCategoriesOffered(guides: seq<StudyGuide>)
    ensures forall g :: g in guides ==>
              exists i :: 1 <= i < |Categories(guides)| && Categories(guides)[i].value == g.category
  {
    forall g | g in guides
      ensures exists i :: 1 <= i < |Categories(guides)| && Categories(guides)[i].value == g.category
    {
      var k :| 0 <= k < |guides| && guides[k] == g;
      CategoryOfferedAt(guides, k);
    }
  }

  /** After the leading entry no value is offered twice, and the values
      appear in the order in which their category first occurs. */
  lemma {:induction false} CategoriesDistinctInFirstOccurrenceOrder(guides: seq<StudyGuide>)
    ensures forall i, j :: 1 <= i < j < |Categories(guides)| ==> Categories(guides)[i].value != Categories(guides)[j].value
    ensures forall i, j :: 1 <= i < j < |Categories(guides)| ==>
              FirstIndex(CategoryColumn(guides), Categories(guides)[i].value)
              < FirstIndex(CategoryColumn(guides), Categories(guides)[j].value)
  {
    var r := Categories(guides);
    var u := Unique(CategoryColumn(guides));
    UniqueFirstOccurrenceOrder(CategoryColumn(guides));
    forall i, j | 1 <= i < j < |r|
      ensures r[i].value != r[j].value
      ensures FirstIndex(CategoryColumn(guides), r[i].value) < FirstIndex(CategoryColumn(guides), r[j].value)
    {
      assert r[i].value == u[i - 1] && r[j].value == u[j - 1];
    }
  }

  /** A guide filed under the literal category `all` yields a second entry
      with value `all`, and choosing either shows every guide. */
  lemma CategoryNamedAllCollides(guides: seq<StudyGuide>)
    requires exists g :: g in guides && g.category == AllValue
    ensures exists i :: 1 <= i < |Categories(guides)| && Categories(guides)[i].value == Categories(guides)[0].value
    ensures FilteredGuides(guides, AllValue) == guides
  {
    var g :| g in guides && g.category == AllValue;
    GuideCategoriesOffered(guides);
  }

  /** The `filteredGuides` memo: everything for `all`, otherwise the guides
      of exactly the chosen category. */
  function FilteredGuides(guides: seq<StudyGuide>, selected: string): (r: seq<StudyGuide>)
    ensures selected == AllValue ==> r == guides
    ensures selected != AllValue ==> forall g :: g in r <==> g in guides && g.category == selected
    ensures |r| <= |guides|
  {
    if selected == AllValue then guides else WithCategory(guides, selected)
  }

  /** `guides.filter(guide => guide.category === selected)`. */
  function WithCategory(guides: seq<StudyGuide>, selected: string): (r: seq<StudyGuide>)
    ensures forall g :: g in r <==> g in guides && g.category == selected
    ensures |r| <= |guides|
  {
    if |guides| == 0 then []
    else
      var rest := WithCategory(guides[1..], selected);
      assert guides == [guides[0]] + guides[1..];
      if guides[0].category == selected then [guides[0]] + rest else rest
  }

  /** Filtering distributes over concatenation, so the kept guides stay in
      their original order and keep their multiplicity. */
  lemma {:induction false} WithCategoryAppend(a: seq<StudyGuide>, b: seq<StudyGuide>, selected: string)
    ensures WithCategory(a + b, selected) == WithCategory(a, selected) + WithCategory(b, selected)
  {
    if |a| > 0 {
      assert (a + b)[1..] == a[1..] + b;
      WithCategoryAppend(a[1..], b, selected);
    } else {
      assert a + b == b;
    }
  }

  /** A category that matches every guide keeps the list as it is; one
      that matches none empties it. */
  lemma {:induction false} WithCategoryExtremes(guides: seq<StudyGuide>, selected: string)
    ensures (forall i :: 0 <= i < |guides| ==> guides[i].category == selected) ==> WithCategory(guides, selected) == guides
    ensures (forall i :: 0 <= i < |guides| ==> guides[i].category != selected) ==> WithCategory(guides, selected) == []
  {
    if |guides| > 0 {
      WithCategoryExtremes(guides[1..], selected);
      assert forall i :: 0 <= i < |guides| - 1 ==> guides[1..][i] == guides[i + 1];
    }
  }
}
