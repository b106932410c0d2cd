/** Stable sorting, as Python's `sorted` and `list.sort` do it. */
module Sorting {

  ghost predicate TotalPreorder<T(!new)>(le: (T, T) -> bool) {
    && (forall a, b :: le(a, b) || le(b, a))
    && (forall a, b, c :: le(a, b) && le(b, c) ==> le(a, c))
  }

  /** Every earlier element is below every later one; ties stand in the order `before`. */
  ghost predicate Ordered<T>(le: (T, T) -> bool, before: (T, T) -> bool, s: seq<T>) {
    forall i, j :: 0 <= i < j < |s| ==> le(s[i], s[j]) && (le(s[j], s[i]) ==> before(s[i], s[j]))
  }

  ghost predicate Pairwise<T>(before: (T, T) -> bool, s: seq<T>) {
    forall i, j :: 0 <= i < j < |s| ==> before(s[i], s[j])
  }

  function Insert<T>(le: (T, T) -> bool, x: T, s: seq<T>): seq<T> {
    if s == [] || le(x, s[0]) then [x] + s else [s[0]] + Insert(le, x, s[1..])
  }

  function SortBy<T>(le: (T, T) -> bool, s: seq<T>): seq<T> {
    if s == [] then [] else Insert(le, s[0], SortBy(le, s[1..]))
  }

  lemma {:induction false} InsertKeepsElements<T>(le: (T, T) -> bool, x: T, s: seq<T>)
    ensures multiset(Insert(le, x, s)) == multiset(s) + multiset{x}
  {
    if s != [] && !le(x, s[0]) {
      InsertKeepsElements(le, x, s[1..]);
      assert s == [s[0]] + s[1..];
    }
  }

  lemma {:induction false} SortKeepsElements<T>(le: (T, T) -> bool, s: seq<T>)
    ensures multiset(SortBy(le, s)) == multiset(s)
    ensures |SortBy(le, s)| == |s|
  {
    if s != [] {
      SortKeepsElements(le, s[1..]);
      InsertKeepsElements(le, s[0], SortBy(le, s[1..]));
      assert s == [s[0]] + s[1..];
    }
    assert |multiset(SortBy(le, s))| == |SortBy(le, s)|;
  }

  lemma SameMembers<T>(a: seq<T>, b: seq<T>)
    requires multiset(a) == multiset(b)
    ensures forall x :: x in a <==> x in b
  {
    forall x ensures x in a <==> x in b {
      assert x in a <==> x in multiset(a);
      assert x in b <==> x in multiset(b);
    }
  }

  lemma ConsOrdered<T(!new)>(le: (T, T) -> bool, before: (T, T) -> bool, x: T, s: seq<T>)
    requires Ordered(le, before, s)
    requires forall y :: y in s ==> le(x, y) && (le(y, x) ==> before(x, y))
    ensures Ordered(le, before, [x] + s)
  {
    var r := [x] + s;
    forall i, j | 0 <= i < j < |r|
      ensures le(r[i], r[j]) && (le(r[j], r[i]) ==> before(r[i], r[j]))
    {
      assert r[j] == s[j - 1] && s[j - 1] in s;
      if i > 0 { assert r[i] == s[i - 1]; }
    }
  }

  /** Below the least element, below all. */
  lemma BelowAll<T(!new)>(le: (T, T) -> bool, before: (T, T) -> bool, x: T, s: seq<T>)
    requires TotalPreorder(le) && Ordered(le, before, s) && s != [] && le(x, s[0])
    ensures forall y :: y in s ==> le(x, y)
  {
    forall y | y in s ensures le(x, y) {
      var k :| 0 <= k < |s| && s[k] == y;
      assert k == 0 || le(s[0], s[k]);
    }
  }

  lemma {:induction false} InsertOrdered<T(!new)>(le: (T, T) -> bool, before: (T, T) -> bool, x: T, s: seq<T>)
    requires TotalPreorder(le) && Ordered(le, before, s)
    requires forall y :: y in s ==> before(x, y)
    ensures Ordered(le, before, Insert(le, x, s))
  {
    if s == [] {
    } else if le(x, s[0]) {
      BelowAll(le, before, x, s);
      ConsOrdered(le, before, x, s);
    } else {
      assert le(s[0], x);
      var tail, rest := s[1..], Insert(le, x, s[1..]);
      InsertOrdered(le, before, x, tail);
      InsertKeepsElements(le, x, tail);
      SameMembers(rest, tail + [x]);
      forall y | y in rest ensures le(s[0], y) && (le(y, s[0]) ==> before(s[0], y)) {
        assert y in tail + [x];
        if y in tail {
          var k :| 0 <= k < |tail| && tail[k] == y;
          assert s[k + 1] == y;
        }
      }
      hide Ordered, TotalPreorder;
      ConsOrdered(le, before, s[0], rest);
    }
  }

  /** Sorting orders by the key and keeps an existing order among equal keys. */
  lemma {:induction false} StableSort<T(!new)>(le: (T, T) -> bool, before: (T, T) -> bool, s: seq<T>)
    requires TotalPreorder(le) && Pairwise(before, s)
    ensures Ordered(le, before, SortBy(le, s))
    ensures multiset(SortBy(le, s)) == multiset(s)
  {
    SortKeepsElements(le, s);
    if s != [] {
      var rest := s[1..];
      assert Pairwise(before, rest);
      StableSort(le, before, rest);
      SameMembers(SortBy(le, rest), rest);
      forall y | y in SortBy(le, rest) ensures before(s[0], y) {
        assert y in rest;
        var k :| 0 <= k < |rest| && rest[k] == y;
        assert y == s[k + 1];
      }
      InsertOrdered(le, before, s[0], SortBy(le, rest));
    }
  }

  ghost predicate Distinct<T>(s: seq<T>) {
    forall i, j :: 0 <= i < j < |s| ==> s[i] != s[j]
  }

  lemma {:induction false} SortKeepsDistinct<T(!new)>(le: (T, T) -> bool, s: seq<T>)
    requires Distinct(s)
    ensures Distinct(SortBy(le, s))
  {
    SortKeepsElements(le, s);
    DistinctByCount(s);
    SameMembers(SortBy(le, s), s);
    CountOneIsDistinct(SortBy(le, s));
  }

  lemma {:induction false} CountOneIsDistinct<T>(s: seq<T>)
    requires forall x :: x in s ==> multiset(s)[x] == 1
    ensures Distinct(s)
  {
    if s != [] {
      var init, last := s[..|s| - 1], s[|s| - 1];
      assert s == init + [last];
      assert multiset(s) == multiset(init) + multiset{last};
      forall x | x in init ensures multiset(init)[x] == 1 {
        assert x in s && x in multiset(init);
      }
      CountOneIsDistinct(init);
      assert last in s;
      assert last !in multiset(init);
    }
  }

  lemma {:induction false} DistinctByCount<T>(s: seq<T>)
    requires Distinct(s)
    ensures forall x :: x in s ==> multiset(s)[x] == 1
  {
    if s != [] {
      assert s == s[..|s| - 1] + [s[|s| - 1]];
      DistinctByCount(s[..|s| - 1]);
    }
  }
}
