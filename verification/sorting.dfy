/** A stable insertion sort over an arbitrary comparison, the model of
    JavaScript's (stable) `Array.prototype.sort`. */
module Sorting {
  import opened Common
  import opened JsOrder

  ghost predicate TotalPreorder<T(!new)>(le: (T, T) -> bool) {
    && (forall a, b :: le(a, b) || le(b, a))
    && (forall a, b, c :: le(a, b) && le(b, c) ==> le(a, c))
  }

  ghost predicate TotalOrder<T(!new)>(le: (T, T) -> bool) {
    && TotalPreorder(le)
    && (forall a, b :: le(a, b) && le(b, a) ==> a == b)
  }

  ghost predicate Sorted<T>(s: seq<T>, le: (T, T) -> bool) {
    forall i, j :: 0 <= i < j < |s| ==> le(s[i], s[j])
  }

  /** Places `x` after every element of `s` that sorts no later than it. */
  function Insert<T>(x: T, s: seq<T>, le: (T, T) -> bool): (r: seq<T>)
    ensures multiset(r) == multiset(s) + multiset{x}
    ensures |r| == |s| + 1
    decreases |s|
  {
    if |s| == 0 then [x]
    else if le(s[|s| - 1], x) then s + [x]
    else
      assert s == s[..|s| - 1] + [s[|s| - 1]];
      Insert(x, s[..|s| - 1], le) + [s[|s| - 1]]
  }

  /** `s.sort(cmp)`: a permutation of `s`, stable for equal keys. */
  function Sort<T>(s: seq<T>, le: (T, T) -> bool): (r: seq<T>)
    ensures multiset(r) == multiset(s)
    ensures |r| == |s|
    decreases |s|
  {
    if |s| == 0 then []
    else
      assert s == s[..|s| - 1] + [s[|s| - 1]];
      Insert(s[|s| - 1], Sort(s[..|s| - 1], le), le)
  }

  lemma {:induction false} InsertSorted<T(!new)>(x: T, s: seq<T>, le: (T, T) -> bool)
    requires TotalPreorder(le) && Sorted(s, le)
    ensures Sorted(Insert(x, s, le), le)
    decreases |s|
  {
    if |s| > 0 && !le(s[|s| - 1], x) {
      var p := s[..|s| - 1];
      var last := s[|s| - 1];
      InsertSorted(x, p, le);
      var q := Insert(x, p, le);
      assert le(x, last);
      forall k | 0 <= k < |q| ensures le(q[k], last) {
        assert q[k] in multiset(q);
        if q[k] != x {
          assert q[k] in multiset(p);
          var m :| 0 <= m < |p| && p[m] == q[k];
          assert s[m] == q[k];
        }
      }
    }
  }

  lemma {:induction false} SortSorted<T(!new)>(s: seq<T>, le: (T, T) -> bool)
    requires TotalPreorder(le)
    ensures Sorted(Sort(s, le), le)
    decreases |s|
  {
    if |s| > 0 {
      SortSorted(s[..|s| - 1], le);
      InsertSorted(s[|s| - 1], Sort(s[..|s| - 1], le), le);
    }
  }

  /** A sequence is empty exactly when nothing is in it. */
  lemma EmptyIffNoMembers<T>(s: seq<T>)
    ensures |s| == 0 <==> forall x :: x !in s
  {
    if |s| > 0 {
      assert s[0] in s;
    }
  }

  /** Two duplicate-free sequences sorted by the same total order and holding
      the same elements are the same sequence. */
  lemma {:induction false} SortedUnique<T(!new)>(a: seq<T>, b: seq<T>, le: (T, T) -> bool)
    requires TotalOrder(le)
    requires Sorted(a, le) && Sorted(b, le) && Distinct(a) && Distinct(b)
    requires forall x :: x in a <==> x in b
    ensures a == b
    decreases |a|
  {
    if |a| == 0 {
      EmptyIffNoMembers(b);
    } else {
      assert a[0] in b;
      assert |b| > 0;
      assert b[0] in a;
      var i :| 0 <= i < |a| && a[i] == b[0];
      var j :| 0 <= j < |b| && b[j] == a[0];
      assert le(a[0], b[0]);
      assert le(b[0], a[0]);
      assert a[0] == b[0];
      var a', b' := a[1..], b[1..];
      assert a == [a[0]] + a';
      assert b == [b[0]] + b';
      forall x ensures x in a' <==> x in b' {
        if x in a' {
          var k :| 0 <= k < |a'| && a'[k] == x;
          assert a[k + 1] == x;
          assert x != a[0];
          assert x in a;
          assert x in b;
          assert x in b';
        }
        if x in b' {
          var k :| 0 <= k < |b'| && b'[k] == x;
          assert b[k + 1] == x;
          assert x != b[0];
          assert x in b;
          assert x in a;
          assert x in a';
        }
      }
      SortedUnique(a', b', le);
    }
  }

  /** JavaScript string comparison is a total order. */
  lemma StrLeTotalOrder()
    ensures TotalOrder(StrLe)
  {
    forall a, b ensures StrLe(a, b) || StrLe(b, a) {
      StrLeTotal(a, b);
    }
    forall a, b, c | StrLe(a, b) && StrLe(b, c) ensures StrLe(a, c) {
      StrLeTransitive(a, b, c);
    }
    forall a, b | StrLe(a, b) && StrLe(b, a) ensures a == b {
      StrLeAntisymmetric(a, b);
    }
  }

  /** Comparing numbers by their decimal strings is a total order. */
  lemma NumberStringLeTotalOrder()
    ensures TotalOrder(NumberStringLe)
  {
    forall a: nat, b: nat ensures NumberStringLe(a, b) || NumberStringLe(b, a) {
      StrLeTotal(DecimalString(a), DecimalString(b));
    }
    forall a: nat, b: nat, c: nat | NumberStringLe(a, b) && NumberStringLe(b, c)
      ensures NumberStringLe(a, c)
    {
      StrLeTransitive(DecimalString(a), DecimalString(b), DecimalString(c));
    }
    forall a: nat, b: nat | NumberStringLe(a, b) && NumberStringLe(b, a) ensures a == b {
      StrLeAntisymmetric(DecimalString(a), DecimalString(b));
      DecimalStringInjective(a, b);
    }
  }
}
