/** Toggling an option in a multi-select answer, as both the quiz and the
    study-guide practice do it: a selected option is filtered out; an
    unselected one is appended and the list re-sorted with `.sort()`. */
module Selection {
  import opened Common
  import opened Sorting

  /** `s.filter(y => y !== x)`. */
  function Without<T(==, !new)>(s: seq<T>, x: T): (r: seq<T>)
    ensures forall y :: y in r <==> y in s && y != x
    ensures |r| <= |s|
    ensures x in s ==> |r| < |s|
    ensures Distinct(s) ==> Distinct(r)
    decreases |s|
  {
    if |s| == 0 then []
    else
      var rest := Without(s[1..], x);
      assert forall y :: y in s[1..] ==> y in s;
      assert s == [s[0]] + s[1..];
      assert Distinct(s) ==> Distinct(s[1..]) && s[0] !in s[1..];
      if s[0] == x then rest else [s[0]] + rest
  }

  lemma {:induction false} WithoutSorted<T(!new)>(s: seq<T>, x: T, le: (T, T) -> bool)
    requires Sorted(s, le)
    ensures Sorted(Without(s, x), le)
    decreases |s|
  {
    if |s| > 0 {
      WithoutSorted(s[1..], x, le);
      var rest := Without(s[1..], x);
      forall k | 0 <= k < |rest| ensures le(s[0], rest[k]) {
        assert rest[k] in s[1..];
        var m :| 0 <= m < |s[1..]| && s[1..][m] == rest[k];
        assert s[m + 1] == rest[k];
      }
    }
  }

  /** A well-formed selection is duplicate-free and in `.sort()` order. */
  ghost predicate WellFormed<T>(s: seq<T>, le: (T, T) -> bool) {
    Distinct(s) && Sorted(s, le)
  }

  /** The multi-select update of a selection when option `x` is clicked. */
  function Toggle<T(==, !new)>(s: seq<T>, x: T, le: (T, T) -> bool): (r: seq<T>)
    ensures forall y :: y != x ==> (y in r <==> y in s)
    ensures x in r <==> x !in s
    ensures Distinct(s) ==> Distinct(r)
  {
    if x in s then Without(s, x)
    else
      var r := Sort(s + [x], le);
      assert forall y :: y in r <==> y in multiset(s + [x]);
      assert Distinct(s) ==> Distinct(r) by {
        if Distinct(s) {
          DistinctIffSingleMultiplicity(s);
          assert multiset(s + [x]) == multiset(s) + multiset{x};
          DistinctIffSingleMultiplicity(r);
        }
      }
      r
  }

  /** Toggling keeps a selection well formed, so it never holds a duplicate. */
  lemma ToggleWellFormed<T(!new)>(s: seq<T>, x: T, le: (T, T) -> bool)
    requires TotalPreorder(le) && WellFormed(s, le)
    ensures WellFormed(Toggle(s, x, le), le)
  {
    if x in s {
      WithoutSorted(s, x, le);
    } else {
      SortSorted(s + [x], le);
    }
  }

  /** Two well-formed selections are equal exactly when they hold the same
      options: comparing them element-wise is comparing them as sets. */
  lemma WellFormedEqualIffSameElements<T(!new)>(a: seq<T>, b: seq<T>, le: (T, T) -> bool)
    requires TotalOrder(le) && WellFormed(a, le) && WellFormed(b, le)
    ensures a == b <==> Elements(a) == Elements(b)
  {
    if Elements(a) == Elements(b) {
      forall y ensures y in a <==> y in b {
        assert y in a <==> y in Elements(a);
        assert y in b <==> y in Elements(b);
      }
      SortedUnique(a, b, le);
    }
  }

  /** Clicking the same option twice restores the selection exactly. */
  lemma ToggleTwice<T(!new)>(s: seq<T>, x: T, le: (T, T) -> bool)
    requires TotalOrder(le) && WellFormed(s, le)
    ensures Toggle(Toggle(s, x, le), x, le) == s
  {
    var once := Toggle(s, x, le);
    ToggleWellFormed(s, x, le);
    ToggleWellFormed(once, x, le);
    var twice := Toggle(once, x, le);
    forall y ensures y in twice <==> y in s {
    }
    SortedUnique(twice, s, le);
  }
}
