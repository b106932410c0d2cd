/** The greedy packing uses the fewest cache groups possible. */
module FewestGroups {
  import opened Text
  import opened CpuSets
  import opened CpuPlacement
  import Sorting

  /** The groups a set of CPUs touches. */
  function TouchedGroups(l3: seq<Group>, cpus: set<int>): set<int> {
    set g | g in l3 && Touches(g, cpus) :: g.id
  }

  function TouchedShares(shares: seq<Share>, cpus: set<int>): set<int> {
    set s | s in shares && SetOf(s.cpus) * cpus != {} :: s.id
  }

  ghost predicate DescendingSizes(shares: seq<Share>) {
    forall i, j :: 0 <= i < j < |shares| ==> |shares[i].cpus| >= |shares[j].cpus|
  }

  function CountTouched(shares: seq<Share>, cpus: set<int>): nat {
    if shares == [] then 0 else (if SetOf(shares[0].cpus) * cpus != {} then 1 else 0) + CountTouched(shares[1..], cpus)
  }

  /** Shares of the groups touched, added up. */
  function SizeTouched(shares: seq<Share>, cpus: set<int>): nat {
    if shares == [] then 0
    else (if SetOf(shares[0].cpus) * cpus != {} then |shares[0].cpus| else 0) + SizeTouched(shares[1..], cpus)
  }

  /** The `t` first shares, added up. */
  function First(shares: seq<Share>, t: nat): nat {
    if shares == [] || t == 0 then 0 else |shares[0].cpus| + First(shares[1..], t - 1)
  }

  lemma {:induction false} CountIsTouched(shares: seq<Share>, cpus: set<int>)
    requires SharesDisjoint(shares)
    ensures CountTouched(shares, cpus) == |TouchedShares(shares, cpus)| <= |shares|
  {
    if shares != [] {
      TailDisjoint(shares);
      CountIsTouched(shares[1..], cpus);
      TouchedFirst(shares, cpus);
    }
  }

  lemma OthersDiffer(shares: seq<Share>)
    requires SharesDisjoint(shares) && shares != []
    ensures forall s :: s in shares[1..] ==> s.id != shares[0].id
  {
    forall s | s in shares[1..] ensures s.id != shares[0].id {
      var k :| 0 <= k < |shares[1..]| && shares[1..][k] == s;
      assert shares[k + 1] == s;
    }
  }

  lemma TouchedFirst(shares: seq<Share>, cpus: set<int>)
    requires SharesDisjoint(shares) && shares != []
    ensures var rest := TouchedShares(shares[1..], cpus);
      |TouchedShares(shares, cpus)| == |rest| + if SetOf(shares[0].cpus) * cpus != {} then 1 else 0
  {
    OthersDiffer(shares);
    TouchedMembers(shares, cpus);
    hide SharesDisjoint, SetOf, TouchedShares;
    var all, rest := TouchedShares(shares, cpus), TouchedShares(shares[1..], cpus);
    if SetOf(shares[0].cpus) * cpus != {} {
      assert all == {shares[0].id} + rest;
    } else {
      assert all == rest;
    }
  }

  lemma TouchedMembers(shares: seq<Share>, cpus: set<int>)
    requires shares != [] && forall s :: s in shares[1..] ==> s.id != shares[0].id
    ensures var all, rest := TouchedShares(shares, cpus), TouchedShares(shares[1..], cpus);
      && shares[0].id !in rest
      && forall id :: id in all <==> id in rest || (id == shares[0].id && SetOf(shares[0].cpus) * cpus != {})
  {
    hide SetOf;
    assert forall s :: s in shares <==> s == shares[0] || s in shares[1..];
  }

  lemma {:induction false} SizeBoundsSet(shares: seq<Share>, cpus: set<int>)
    requires SharesDisjoint(shares) && cpus <= Union(shares)
    ensures |cpus| <= SizeTouched(shares, cpus)
  {
    if shares != [] {
      TailDisjoint(shares);
      var here := SetOf(shares[0].cpus);
      var rest := cpus - here;
      SizeBoundsSet(shares[1..], rest);
      SizeMonotone(shares[1..], rest, cpus);
      DistinctCount(shares[0].cpus);
      assert cpus == cpus * here + rest;
      FewerIn(cpus * here, here);
    }
  }

  lemma {:induction false} SizeMonotone(shares: seq<Share>, a: set<int>, b: set<int>)
    requires a <= b
    ensures SizeTouched(shares, a) <= SizeTouched(shares, b)
  {
    if shares != [] { SizeMonotone(shares[1..], a, b); }
  }

  /** Exchange: no choice of groups holds more than the equally many largest ones. */
  lemma {:induction false} LargestHoldMost(shares: seq<Share>, cpus: set<int>)
    requires DescendingSizes(shares)
    ensures SizeTouched(shares, cpus) <= First(shares, CountTouched(shares, cpus))
  {
    if shares != [] {
      LargestHoldMost(shares[1..], cpus);
      FirstShifts(shares, CountTouched(shares[1..], cpus));
    }
  }

  lemma {:induction false} FirstShifts(shares: seq<Share>, t: nat)
    requires shares != [] && DescendingSizes(shares)
    ensures First(shares[1..], t) <= First(shares, t)
  {
    if t > 0 && |shares| > 1 {
      FirstShifts(shares[1..], t - 1);
    }
  }

  /** How many groups the greedy loop takes from. */
  function GroupsTaken(shares: seq<Share>, needed: int): nat {
    if shares == [] || needed <= 0 then 0
    else 1 + GroupsTaken(shares[1..], needed - |Slice(shares[0].cpus, needed)|)
  }

  lemma {:induction false} TakenIsLeast(shares: seq<Share>, needed: int, t: nat)
    requires First(shares, t) >= needed
    ensures GroupsTaken(shares, needed) <= t
  {
    if shares != [] && needed > 0 && t > 0 {
      if |shares[0].cpus| < needed {
        TakenIsLeast(shares[1..], needed - |shares[0].cpus|, t - 1);
      }
    }
  }

  lemma {:induction false} GreedyTouchesTaken(shares: seq<Share>, needed: int, extra: set<int>)
    requires SharesDisjoint(shares) && extra !! Union(shares)
    ensures CountTouched(shares, SetOf(Greedy(shares, needed)) + extra) == GroupsTaken(shares, needed)
  {
    if shares == [] {
    } else if needed <= 0 {
      TouchesNothing(shares, extra);
      assert SetOf([]) + extra == extra;
    } else {
      TailDisjoint(shares);
      var taken := Slice(shares[0].cpus, needed);
      var rest := Greedy(shares[1..], needed - |taken|);
      assert Greedy(shares, needed) == taken + rest;
      forall x | x in taken ensures x in SetOf(shares[0].cpus) { }
      assert SetOf(taken + rest) == SetOf(taken) + SetOf(rest);
      var all := SetOf(taken + rest) + extra;
      assert all == SetOf(rest) + (SetOf(taken) + extra);
      GreedyTouchesTaken(shares[1..], needed - |taken|, SetOf(taken) + extra);
      assert taken[0] in SetOf(taken) && taken[0] in SetOf(shares[0].cpus) * all;
    }
  }

  lemma {:induction false} TouchesNothing(shares: seq<Share>, cpus: set<int>)
    requires cpus !! Union(shares)
    ensures CountTouched(shares, cpus) == 0
  {
    if shares != [] { TouchesNothing(shares[1..], cpus); }
  }

  /** Among CPUs that are free and grouped, touching a group and touching its share is the same. */
  lemma TouchedAgree(l3: seq<Group>, available: set<int>, avoid: set<int>, shares: seq<Share>, cpus: set<int>)
    requires forall x :: x in cpus ==> x in available && x !in avoid
    requires forall s :: s in shares <==> s in Shares(l3, available, avoid)
    ensures TouchedGroups(l3, cpus) == TouchedShares(shares, cpus)
  {
    SharesAre(l3, available, avoid);
    forall id | id in TouchedGroups(l3, cpus) ensures id in TouchedShares(shares, cpus) {
      var g :| g in l3 && Touches(g, cpus) && g.id == id;
      var x := SomeMember(g.cpus * cpus);
      var free := available * g.cpus - avoid;
      AscendingFacts(free);
      assert x in free;
      var s := Share(g.id, Ascending(free));
      assert s in shares && x in SetOf(s.cpus) * cpus;
    }
    forall id | id in TouchedShares(shares, cpus) ensures id in TouchedGroups(l3, cpus) {
      var s :| s in shares && SetOf(s.cpus) * cpus != {} && s.id == id;
      var g :| g in l3 && ShareOf(s, g, available, avoid);
      AscendingFacts(available * g.cpus - avoid);
      var x := SomeMember(SetOf(s.cpus) * cpus);
      assert x in g.cpus * cpus;
    }
  }

  /** No other choice of as many free grouped CPUs touches fewer cache groups. */
  lemma SingleCacheUsesFewestGroups(l3: seq<Group>, available: set<int>, avoid: set<int>, count: int, other: set<int>)
    requires Disjoint(l3) && count >= 1 && SingleCache(l3, available, avoid, count).Some?
    requires |other| >= count && forall x :: x in other ==> Grouped(l3, available, avoid, x)
    ensures |TouchedGroups(l3, SetOf(SingleCache(l3, available, avoid, count).value))| <= |TouchedGroups(l3, other)|
  {
    if Singles(l3, available, avoid, count) != [] {
      OneGroupIsEnough(l3, available, avoid, count);
      SomeGroupIsTouched(l3, available, avoid, other);
    } else {
      ManyGroups(l3, available, avoid, count, other);
    }
  }

  lemma SomeGroupIsTouched(l3: seq<Group>, available: set<int>, avoid: set<int>, other: set<int>)
    requires |other| >= 1 && forall x :: x in other ==> Grouped(l3, available, avoid, x)
    ensures |TouchedGroups(l3, other)| >= 1
  {
    var x := SomeMember(other);
    var g :| g in l3 && x in g.cpus;
    assert x in g.cpus * other;
    assert g.id in TouchedGroups(l3, other);
  }

  lemma SingleChosen(l3: seq<Group>, available: set<int>, avoid: set<int>, count: int) returns (g: Group)
    requires Singles(l3, available, avoid, count) != []
    ensures SingleCache(l3, available, avoid, count).Some? && g in l3
    ensures SetOf(SingleCache(l3, available, avoid, count).value) <= g.cpus
  {
    hide Sorting.SortBy, Singles;
    var singles := Singles(l3, available, avoid, count);
    assert l3 != [] by { if l3 == [] { NoSingles(available, avoid, count); } }
    Sorting.SortKeepsElements(SingleLe, singles);
    var sorted := Sorting.SortBy(SingleLe, singles);
    Sorting.SameMembers(sorted, singles);
    SinglesAre(l3, available, avoid, count);
    assert sorted[0] in sorted;
    g :| g in l3 && sorted[0].cpus == Ascending(available * g.cpus - avoid);
    AscendingFacts(available * g.cpus - avoid);
    forall x | x in SetOf(Slice(sorted[0].cpus, count)) ensures x in g.cpus { assert x in SetOf(sorted[0].cpus); }
  }

  lemma NoSingles(available: set<int>, avoid: set<int>, count: int)
    ensures Singles([], available, avoid, count) == []
  {}

  lemma SameGroup(l3: seq<Group>, g: Group, h: Group, x: int)
    requires Disjoint(l3) && g in l3 && h in l3 && x in g.cpus && x in h.cpus
    ensures g == h
  {
    var i :| 0 <= i < |l3| && l3[i] == g;
    var k :| 0 <= k < |l3| && l3[k] == h;
    assert x in l3[i].cpus * l3[k].cpus;
    assert !(i < k) && !(k < i);
  }

  lemma OneGroupIsEnough(l3: seq<Group>, available: set<int>, avoid: set<int>, count: int)
    requires Disjoint(l3) && Singles(l3, available, avoid, count) != []
    ensures SingleCache(l3, available, avoid, count).Some?
    ensures |TouchedGroups(l3, SetOf(SingleCache(l3, available, avoid, count).value))| <= 1
  {
    var g := SingleChosen(l3, available, avoid, count);
    var r := SingleCache(l3, available, avoid, count).value;
    hide SingleCache, Disjoint;
    forall id | id in TouchedGroups(l3, SetOf(r)) ensures id == g.id {
      var h :| h in l3 && Touches(h, SetOf(r)) && h.id == id;
      var x := SomeMember(h.cpus * SetOf(r));
      SameGroup(l3, g, h, x);
    }
    assert TouchedGroups(l3, SetOf(r)) <= {g.id};
    FewerIn(TouchedGroups(l3, SetOf(r)), {g.id});
  }

  lemma ManyGroups(l3: seq<Group>, available: set<int>, avoid: set<int>, count: int, other: set<int>)
    requires Disjoint(l3) && count >= 1 && SingleCache(l3, available, avoid, count).Some?
    requires Singles(l3, available, avoid, count) == []
    requires |other| >= count && forall x :: x in other ==> Grouped(l3, available, avoid, x)
    ensures |TouchedGroups(l3, SetOf(SingleCache(l3, available, avoid, count).value))| <= |TouchedGroups(l3, other)|
  {
    var shares := Shares(l3, available, avoid);
    var sorted := Sorting.SortBy(ShareLe, shares);
    SharesAreDisjoint(l3, available, avoid);
    SortedShares(shares);
    forall x | x in other ensures x in Union(sorted) { UnionIsGrouped(l3, available, avoid, x); }
    SizeBoundsSet(sorted, other);
    LargestHoldMost(sorted, other);
    TakenIsLeast(sorted, count, CountTouched(sorted, other));
    CountIsTouched(sorted, other);
    TouchedAgree(l3, available, avoid, sorted, other);

    var r := Greedy(sorted, count);
    GreedyFacts(sorted, count);
    assert Slice(r, count) == r;
    forall x | x in SetOf(r) ensures x in available && x !in avoid { UnionIsGrouped(l3, available, avoid, x); }
    GreedyTouchesTaken(sorted, count, {});
    assert SetOf(r) + {} == SetOf(r);
    CountIsTouched(sorted, SetOf(r));
    TouchedAgree(l3, available, avoid, sorted, SetOf(r));
  }

  /** With topology present, the packing gives up exactly when the groups together hold too few free CPUs. */
  lemma SingleCacheFailsOnlyWhenShort(l3: seq<Group>, available: set<int>, avoid: set<int>, count: int,
                                      grouped: set<int>)
    requires Disjoint(l3) && l3 != [] && count >= 1
    requires forall x :: x in grouped <==> Grouped(l3, available, avoid, x)
    ensures SingleCache(l3, available, avoid, count) == None <==> |grouped| < count
  {
    var shares := Shares(l3, available, avoid);
    var sorted := Sorting.SortBy(ShareLe, shares);
    SharesAreDisjoint(l3, available, avoid);
    SortedShares(shares);
    TotalIsUnion(sorted);
    forall x ensures x in Union(sorted) <==> x in grouped { UnionIsGrouped(l3, available, avoid, x); }
    assert Union(sorted) == grouped;
    GreedyFacts(sorted, count);
    SinglesAre(l3, available, avoid, count);
    if Singles(l3, available, avoid, count) != [] {
      var c := Singles(l3, available, avoid, count)[0];
      var g :| g in l3 && c.cpus == Ascending(available * g.cpus - avoid);
      AscendingFacts(available * g.cpus - avoid);
      assert available * g.cpus - avoid <= grouped;
      FewerIn(available * g.cpus - avoid, grouped);
    }
  }
}
