/** Shared building blocks: optional values, thrown-or-returned results, the
    outcome of a remote read, and facts about duplicate-free sequences. */
module Common {

  /** A value that may be absent (JavaScript `null` / `undefined`). */
  datatype Option<+T> = None | Some(value: T) {
    function GetOr(default: T): T {
      match this
      case Some(v) => v
      case None => default
    }
  }

  /** The outcome of an operation that either returns a value or throws an
      `Error` carrying a message. */
  datatype Result<+T> = Ok(value: T) | Err(message: string)

  /** `s || fallback` for an optional string: both `undefined` and `''` are
      falsy and give the fallback. */
  function StringOr(s: Option<string>, fallback: string): (r: string)
    ensures r == fallback || (s.Some? && r == s.value && r != "")
    ensures s.Some? && s.value != "" ==> r == s.value
  {
    if s.Some? && s.value != "" then s.value else fallback
  }

  /** What a remote read hands back: a row, no row, or an error. */
  datatype Remote<+T> = Found(row: T) | NotFound | Failed

  /** No element occurs twice. */
  predicate Distinct<T(==)>(s: seq<T>) {
    forall i, j :: 0 <= i < j < |s| ==> s[i] != s[j]
  }

  /** The set of elements of a sequence. */
  function Elements<T>(s: seq<T>): set<T> {
    set x | x in s
  }

  /** A sequence is duplicate-free exactly when no element has multiplicity
      above one. */
  lemma {:induction false} DistinctIffSingleMultiplicity<T>(s: seq<T>)
    ensures Distinct(s) <==> forall x :: multiset(s)[x] <= 1
  {
    if |s| == 0 {
    } else {
      var p := s[..|s| - 1];
      var last := s[|s| - 1];
      assert s == p + [last];
      DistinctIffSingleMultiplicity(p);
      assert multiset(s) == multiset(p) + multiset{last};
      if Distinct(s) {
        assert Distinct(p);
        assert last !in p;
      } else {
        var i, j :| 0 <= i < j < |s| && s[i] == s[j];
        if j < |s| - 1 {
          assert p[i] == p[j];
          assert !Distinct(p);
          var x :| multiset(p)[x] > 1;
          assert multiset(s)[x] > 1;
        } else {
          assert p[i] == last;
          assert last in p;
          assert multiset(p)[last] >= 1;
          assert multiset(s)[last] >= 2;
        }
      }
    }
  }

  /** A duplicate-free sequence has as many elements as its element set. */
  lemma {:induction false} DistinctCardinality<T>(s: seq<T>)
    requires Distinct(s)
    ensures |Elements(s)| == |s|
  {
    if |s| > 0 {
      var p := s[..|s| - 1];
      var last := s[|s| - 1];
      assert s == p + [last];
      assert Distinct(p);
      DistinctCardinality(p);
      assert last !in p;
      assert Elements(s) == Elements(p) + {last};
    }
  }

  /** Two finite sets, one inside the other and of equal size, are equal. */
  lemma SubsetOfEqualSize<T>(a: set<T>, b: set<T>)
    requires a <= b && |a| == |b|
    ensures a == b
  {
    if a != b {
      var y :| y in b && y !in a;
      assert a <= b - {y};
      assert |b - {y}| == |b| - 1;
      SubsetCardinality(a, b - {y});
    }
  }

  lemma SubsetCardinality<T>(a: set<T>, b: set<T>)
    requires a <= b
    ensures |a| <= |b|
  {
    assert b == a + (b - a);
  }

  /** For duplicate-free sequences, "same length and every element of `a` is in
      `b`" is the same as "the same elements". */
  lemma DistinctSameLengthSameElements<T>(a: seq<T>, b: seq<T>)
    requires Distinct(a) && Distinct(b)
    ensures (|a| == |b| && forall x :: x in a ==> x in b) <==> Elements(a) == Elements(b)
  {
    DistinctCardinality(a);
    DistinctCardinality(b);
    if |a| == |b| && forall x :: x in a ==> x in b {
      SubsetOfEqualSize(Elements(a), Elements(b));
    }
    if Elements(a) == Elements(b) {
      forall x | x in a ensures x in b {
        assert x in Elements(a);
      }
    }
  }
}
