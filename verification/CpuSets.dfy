/** Sets of CPU numbers and their sorted lists. */
module CpuSets {

  /** `sorted(s)` of a set of CPU numbers. */
  function Ascending(s: set<int>): seq<int> {
    if s == {} then []
    else
      LeastExists(s);
      var m :| m in s && forall k :: k in s ==> m <= k;
      [m] + Ascending(s - {m})
  }

  lemma {:induction false} LeastExists(s: set<int>)
    requires s != {}
    ensures exists m :: m in s && forall k :: k in s ==> m <= k
    decreases |s|
  {
    assert (forall k: int :: k !in s) ==> s == {};
    var x: int :| x in s;
    var rest := s - {x};
    if rest == {} {
      assert s == {x};
      assert x in s && forall k :: k in s ==> x <= k;
    } else {
      LeastExists(rest);
      var m :| m in rest && forall k :: k in rest ==> m <= k;
      var least := if x < m then x else m;
      forall k | k in s ensures least <= k { assert k == x || k in rest; }
      assert least in s;
    }
  }

  function SetOf(s: seq<int>): set<int> { set x | x in s }

  ghost predicate StrictlyAscending(s: seq<int>) { forall i, j :: 0 <= i < j < |s| ==> s[i] < s[j] }

  lemma {:induction false} AscendingFacts(s: set<int>)
    ensures SetOf(Ascending(s)) == s && |Ascending(s)| == |s|
    ensures StrictlyAscending(Ascending(s))
  {
    if s != {} {
      LeastExists(s);
      var a := Ascending(s);
      var m, rest := a[0], Ascending(s - {a[0]});
      assert a == [m] + rest && m in s;
      AscendingFacts(s - {m});
      ConsAscends(m, rest);
    }
  }

  lemma ConsAscends(m: int, rest: seq<int>)
    requires StrictlyAscending(rest) && forall k :: k in SetOf(rest) ==> m < k
    ensures StrictlyAscending([m] + rest) && SetOf([m] + rest) == {m} + SetOf(rest)
  {
    var a := [m] + rest;
    forall i, j | 0 <= i < j < |a| ensures a[i] < a[j] {
      assert a[j] == rest[j - 1] && rest[j - 1] in SetOf(rest);
      if i > 0 { assert a[i] == rest[i - 1]; }
    }
    forall x ensures x in SetOf(a) <==> x == m || x in SetOf(rest) {
      assert x in a <==> x == m || x in rest;
    }
  }

  /** An ascending list is the sorted form of its elements. */
  lemma {:induction false} AscendingIsUnique(a: seq<int>)
    requires StrictlyAscending(a)
    ensures a == Ascending(SetOf(a))
  {
    if a != [] {
      var s, rest := SetOf(a), a[1..];
      assert a == [a[0]] + rest;
      forall k | k in SetOf(rest) ensures a[0] < k {
        var i :| 0 <= i < |rest| && rest[i] == k;
        assert a[i + 1] == k;
      }
      ConsAscends(a[0], rest);
      LeastExists(s);
      assert a[0] in s && forall k :: k in s ==> a[0] <= k;
      assert s - {a[0]} == SetOf(rest);
      AscendingIsUnique(rest);
    }
  }

  /** Python's `s[:n]`. */
  function Slice<T>(s: seq<T>, n: int): seq<T> {
    if n >= |s| then s else if n >= 0 then s[..n] else if |s| + n > 0 then s[..|s| + n] else []
  }

  lemma FewerIn(a: set<int>, b: set<int>)
    requires a <= b
    ensures |a| <= |b|
  {
    assert b == a + (b - a);
  }

  lemma SomeMember(s: set<int>) returns (x: int)
    requires s != {}
    ensures x in s
  {
    LeastExists(s);
    x :| x in s && forall k :: k in s ==> x <= k;
  }
}
