/** Choosing CPUs inside one host: sorted sets, cache groups and the greedy packing. */
module CpuPlacement {
  import opened Text
  import opened CpuSets
  import Sorting

  // ----- cache groups -----

  /** A NUMA node or L3 group with its CPUs. */
  datatype Group = Group(id: int, cpus: set<int>)

  ghost predicate Disjoint(gs: seq<Group>) {
    forall i, j :: 0 <= i < j < |gs| ==> gs[i].id != gs[j].id && gs[i].cpus !! gs[j].cpus
  }

  datatype Single = Single(overlap: nat, id: int, cpus: seq<int>)

  function Singles(l3: seq<Group>, available: set<int>, avoid: set<int>, count: int): seq<Single> {
    if l3 == [] then []
    else
      var free := Ascending(available * l3[0].cpus - avoid);
      (if |free| >= count then [Single(|l3[0].cpus * avoid|, l3[0].id, free)] else [])
      + Singles(l3[1..], available, avoid, count)
  }

  predicate SingleLe(a: Single, b: Single) { a.overlap < b.overlap || (a.overlap == b.overlap && a.id <= b.id) }

  datatype Share = Share(id: int, cpus: seq<int>)

  function Shares(l3: seq<Group>, available: set<int>, avoid: set<int>): seq<Share> {
    if l3 == [] then []
    else
      var free := Ascending(available * l3[0].cpus - avoid);
      (if free != [] then [Share(l3[0].id, free)] else []) + Shares(l3[1..], available, avoid)
  }

  /** Largest first, then the higher group number. */
  predicate ShareLe(a: Share, b: Share) { |a.cpus| > |b.cpus| || (|a.cpus| == |b.cpus| && a.id >= b.id) }

  function Greedy(shares: seq<Share>, needed: int): seq<int> {
    if shares == [] || needed <= 0 then []
    else
      var taken := Slice(shares[0].cpus, needed);
      taken + Greedy(shares[1..], needed - |taken|)
  }

  function SingleCache(l3: seq<Group>, available: set<int>, avoid: set<int>, count: int): Option<seq<int>> {
    var singles := Singles(l3, available, avoid, count);
    if l3 == [] then None
    else if singles != [] then
      Sorting.SortKeepsElements(SingleLe, singles);
      Some(Slice(Sorting.SortBy(SingleLe, singles)[0].cpus, count))
    else
      var packed := Greedy(Sorting.SortBy(ShareLe, Shares(l3, available, avoid)), count);
      if |packed| >= count then Some(Slice(packed, count)) else None
  }

  /** `_allocate_single_cache`: one group when one suffices, else the largest groups first. */
  method AllocateSingleCache(l3: seq<Group>, available: set<int>, avoid: set<int>, count: int)
    returns (r: Option<seq<int>>)
    ensures r == SingleCache(l3, available, avoid, count)
  {
    if l3 == [] { return None; }
    var singles := CollectSingles(l3, available, avoid, count);
    if singles != [] {
      Sorting.SortKeepsElements(SingleLe, singles);
      var sorted := Sorting.SortBy(SingleLe, singles);
      return Some(Slice(sorted[0].cpus, count));
    }
    var packed := PackLargestFirst(l3, available, avoid, count);
    if |packed| >= count { return Some(Slice(packed, count)); }
    return None;
  }

  method CollectSingles(l3: seq<Group>, available: set<int>, avoid: set<int>, count: int) returns (singles: seq<Single>)
    ensures singles == Singles(l3, available, avoid, count)
  {
    hide Ascending;
    singles := [];
    for i := 0 to |l3|
      invariant singles + Singles(l3[i..], available, avoid, count) == Singles(l3, available, avoid, count)
    {
      assert l3[i..][1..] == l3[i + 1..];
      var free := Ascending(available * l3[i].cpus - avoid);
      if |free| >= count {
        singles := singles + [Single(|l3[i].cpus * avoid|, l3[i].id, free)];
      }
    }
  }

  lemma SharesStep(l3: seq<Group>, i: nat, available: set<int>, avoid: set<int>)
    requires i < |l3|
    ensures var free := Ascending(available * l3[i].cpus - avoid);
      Shares(l3[i..], available, avoid) ==
        (if free != [] then [Share(l3[i].id, free)] else []) + Shares(l3[i + 1..], available, avoid)
  {
    hide Ascending;
    assert l3[i..][1..] == l3[i + 1..];
  }

  method CollectShares(l3: seq<Group>, available: set<int>, avoid: set<int>) returns (groups: seq<Share>)
    ensures groups == Shares(l3, available, avoid)
  {
    groups := [];
    assert l3[0..] == l3;
    assert Shares([], available, avoid) == [];
    hide Ascending, Shares;
    for i := 0 to |l3|
      invariant groups + Shares(l3[i..], available, avoid) == Shares(l3, available, avoid)
    {
      SharesStep(l3, i, available, avoid);
      var free := Ascending(available * l3[i].cpus - avoid);
      if free != [] { groups := groups + [Share(l3[i].id, free)]; }
    }
    assert l3[|l3|..] == [];
  }

  /** Takes what is needed from the largest groups. */
  method PackLargestFirst(l3: seq<Group>, available: set<int>, avoid: set<int>, count: int) returns (packed: seq<int>)
    ensures packed == Greedy(Sorting.SortBy(ShareLe, Shares(l3, available, avoid)), count)
  {
    var groups := CollectShares(l3, available, avoid);
    packed := TakeInOrder(Sorting.SortBy(ShareLe, groups), count);
  }

  method TakeInOrder(groups: seq<Share>, count: int) returns (packed: seq<int>)
    ensures packed == Greedy(groups, count)
  {
    hide Greedy, Slice;
    packed := [];
    assert groups[0..] == groups;
    for i := 0 to |groups|
      invariant packed + Greedy(groups[i..], count - |packed|) == Greedy(groups, count)
    {
      GreedyStep(groups, i, count - |packed|);
      var needed := count - |packed|;
      if needed <= 0 { return packed; }
      packed := packed + Slice(groups[i].cpus, needed);
    }
    GreedyOfNothing(count - |packed|);
    assert groups[|groups|..] == [];
  }

  lemma GreedyOfNothing(needed: int)
    ensures Greedy([], needed) == []
  {}

  lemma GreedyStep(groups: seq<Share>, i: nat, needed: int)
    requires i < |groups|
    ensures Greedy(groups[i..], needed) ==
      if needed <= 0 then [] else
        Slice(groups[i].cpus, needed) + Greedy(groups[i + 1..], needed - |Slice(groups[i].cpus, needed)|)
  {
    assert groups[i..][1..] == groups[i + 1..];
  }

  // ----- away from the caches of others -----

  predicate Touches(g: Group, cpus: set<int>) { g.cpus * cpus != {} }

  function OtherNode(numa: seq<Group>, available: set<int>, avoid: set<int>, count: int): Option<seq<int>> {
    if numa == [] then None
    else if !Touches(numa[0], avoid) && |available * numa[0].cpus| >= count then
      Some(Slice(Ascending(available * numa[0].cpus), count))
    else OtherNode(numa[1..], available, avoid, count)
  }

  function OtherCaches(l3: seq<Group>, available: set<int>, avoid: set<int>, count: int,
                       found: seq<int>): Option<seq<int>> {
    if l3 == [] then None
    else if Touches(l3[0], avoid) then OtherCaches(l3[1..], available, avoid, count, found)
    else
      var more := found + Ascending(available * l3[0].cpus);
      if |more| >= count then Some(Slice(more, count)) else OtherCaches(l3[1..], available, avoid, count, more)
  }

  predicate ById(a: Group, b: Group) { a.id <= b.id }

  function CacheAware(numa: seq<Group>, l3: seq<Group>, available: set<int>, avoid: set<int>, count: int,
                      anyNode: bool): Option<seq<int>> {
    var elsewhere := if anyNode then OtherNode(numa, available, avoid, count) else None;
    if elsewhere.Some? then elsewhere else OtherCaches(Sorting.SortBy(ById, l3), available, avoid, count, [])
  }

  /** `_allocate_cache_aware`: another NUMA node first, then other cache groups in the order of their numbers. */
  method AllocateCacheAware(numa: seq<Group>, l3: seq<Group>, available: set<int>, avoid: set<int>, count: int,
                            anyNode: bool)
    returns (r: Option<seq<int>>)
    ensures r == CacheAware(numa, l3, available, avoid, count, anyNode)
  {
    if anyNode {
      for i := 0 to |numa|
        invariant OtherNode(numa[i..], available, avoid, count) == OtherNode(numa, available, avoid, count)
      {
        assert numa[i..][1..] == numa[i + 1..];
        var free := available * numa[i].cpus;
        if !Touches(numa[i], avoid) && |free| >= count { return Some(Slice(Ascending(free), count)); }
      }
    }
    var sorted := Sorting.SortBy(ById, l3);
    var found: seq<int> := [];
    for i := 0 to |sorted|
      invariant OtherCaches(sorted[i..], available, avoid, count, found)
        == OtherCaches(sorted, available, avoid, count, [])
    {
      assert sorted[i..][1..] == sorted[i + 1..];
      if !Touches(sorted[i], avoid) {
        found := found + Ascending(available * sorted[i].cpus);
        if |found| >= count { return Some(Slice(found, count)); }
      }
    }
    return None;
  }

  // ----- what a choice consists of -----

  ghost predicate GoodChoice(r: seq<int>, pool: set<int>, count: int) {
    SetOf(r) <= pool && Sorting.Distinct(r) && (count >= 0 ==> |r| == count)
  }

  lemma {:induction false} DistinctCount(s: seq<int>)
    requires Sorting.Distinct(s)
    ensures |SetOf(s)| == |s|
  {
    if s != [] {
      DistinctCount(s[1..]);
      assert SetOf(s) == SetOf(s[1..]) + {s[0]};
      assert s[0] !in SetOf(s[1..]);
    }
  }

  lemma SliceIsGood(s: seq<int>, pool: set<int>, count: int)
    requires Sorting.Distinct(s) && SetOf(s) <= pool && count <= |s|
    ensures GoodChoice(Slice(s, count), pool, count)
  {
    var r := Slice(s, count);
    forall x | x in SetOf(r) ensures x in pool { assert x in s; assert x in SetOf(s); }
  }

  lemma AscendingSliceIsGood(s: set<int>, pool: set<int>, count: int)
    requires s <= pool && count <= |s|
    ensures GoodChoice(Slice(Ascending(s), count), pool, count)
  {
    AscendingFacts(s);
    SliceIsGood(Ascending(s), pool, count);
  }

  lemma {:induction false} SinglesAre(l3: seq<Group>, available: set<int>, avoid: set<int>, count: int)
    ensures forall c :: c in Singles(l3, available, avoid, count) ==>
      |c.cpus| >= count && exists g :: g in l3 && c.id == g.id && c.cpus == Ascending(available * g.cpus - avoid)
    ensures (forall g :: g in l3 ==> |available * g.cpus - avoid| < count) <==>
      Singles(l3, available, avoid, count) == []
  {
    if l3 != [] {
      SinglesAre(l3[1..], available, avoid, count);
      AscendingFacts(available * l3[0].cpus - avoid);
      assert forall g :: g in l3 <==> g == l3[0] || g in l3[1..];
      assert l3[0] in l3;
    }
  }

  /** The share of one group among the free CPUs. */
  ghost predicate ShareOf(s: Share, g: Group, available: set<int>, avoid: set<int>) {
    s.id == g.id && s.cpus == Ascending(available * g.cpus - avoid) && s.cpus != []
  }

  lemma {:induction false} SharesAre(l3: seq<Group>, available: set<int>, avoid: set<int>)
    ensures forall s :: s in Shares(l3, available, avoid) ==> exists g :: g in l3 && ShareOf(s, g, available, avoid)
    ensures forall g :: g in l3 && available * g.cpus - avoid != {} ==>
      Share(g.id, Ascending(available * g.cpus - avoid)) in Shares(l3, available, avoid)
  {
    if l3 != [] {
      SharesAre(l3[1..], available, avoid);
      var free := available * l3[0].cpus - avoid;
      AscendingFacts(free);
      var rest := Shares(l3[1..], available, avoid);
      var all := Shares(l3, available, avoid);
      assert all == (if Ascending(free) != [] then [Share(l3[0].id, Ascending(free))] else []) + rest;
      forall s | s in all ensures exists g :: g in l3 && ShareOf(s, g, available, avoid) {
        if s in rest {
          var g :| g in l3[1..] && ShareOf(s, g, available, avoid);
          assert g in l3;
        } else {
          assert ShareOf(s, l3[0], available, avoid) && l3[0] in l3;
        }
      }
      forall g | g in l3 && available * g.cpus - avoid != {}
        ensures Share(g.id, Ascending(available * g.cpus - avoid)) in all
      {
        if g in l3[1..] { } else { assert g == l3[0]; }
      }
    }
  }

  /** Shares of different groups, each ascending and not empty. */
  ghost predicate SharesDisjoint(shares: seq<Share>) {
    && (forall i :: 0 <= i < |shares| ==> shares[i].cpus != [] && Sorting.Distinct(shares[i].cpus))
    && (forall i, j :: 0 <= i < j < |shares| ==>
      shares[i].id != shares[j].id && SetOf(shares[i].cpus) !! SetOf(shares[j].cpus))
  }

  lemma {:induction false} SharesAreDisjoint(l3: seq<Group>, available: set<int>, avoid: set<int>)
    requires Disjoint(l3)
    ensures SharesDisjoint(Shares(l3, available, avoid))
  {
    if l3 != [] {
      SharesAreDisjoint(l3[1..], available, avoid);
      SharesAre(l3[1..], available, avoid);
      var free := available * l3[0].cpus - avoid;
      AscendingFacts(free);
      var rest := Shares(l3[1..], available, avoid);
      forall i | 0 <= i < |rest| ensures rest[i].id != l3[0].id && SetOf(rest[i].cpus) !! free {
        assert rest[i] in rest;
        var g :| g in l3[1..] && ShareOf(rest[i], g, available, avoid);
        var k :| 0 <= k < |l3[1..]| && l3[1..][k] == g;
        assert l3[k + 1] == g;
        AscendingFacts(available * g.cpus - avoid);
      }
    }
  }

  function Total(shares: seq<Share>): nat { if shares == [] then 0 else |shares[0].cpus| + Total(shares[1..]) }

  function Union(shares: seq<Share>): set<int> {
    if shares == [] then {} else SetOf(shares[0].cpus) + Union(shares[1..])
  }

  lemma {:induction false} UnionMembers(shares: seq<Share>, x: int)
    ensures x in Union(shares) <==> exists i :: 0 <= i < |shares| && x in shares[i].cpus
  {
    if shares != [] {
      UnionMembers(shares[1..], x);
      if i :| 0 <= i < |shares[1..]| && x in shares[1..][i].cpus { assert x in shares[i + 1].cpus; }
      if i :| 0 <= i < |shares| && x in shares[i].cpus { if i > 0 { assert x in shares[1..][i - 1].cpus; } }
    }
  }

  lemma TailDisjoint(shares: seq<Share>)
    requires shares != [] && SharesDisjoint(shares)
    ensures SharesDisjoint(shares[1..]) && SetOf(shares[0].cpus) !! Union(shares[1..])
  {
    forall x | x in Union(shares[1..]) ensures x !in SetOf(shares[0].cpus) {
      UnionMembers(shares[1..], x);
      var i :| 0 <= i < |shares[1..]| && x in shares[1..][i].cpus;
      assert x in SetOf(shares[i + 1].cpus);
    }
  }

  lemma {:induction false} GreedyFacts(shares: seq<Share>, needed: int)
    requires SharesDisjoint(shares)
    ensures SetOf(Greedy(shares, needed)) <= Union(shares) && Sorting.Distinct(Greedy(shares, needed))
    ensures needed >= 0 ==> |Greedy(shares, needed)| == if needed <= Total(shares) then needed else Total(shares)
  {
    if shares != [] && needed > 0 {
      TailDisjoint(shares);
      var taken := Slice(shares[0].cpus, needed);
      var rest := Greedy(shares[1..], needed - |taken|);
      GreedyFacts(shares[1..], needed - |taken|);
      assert Greedy(shares, needed) == taken + rest;
      forall x | x in taken ensures x in SetOf(shares[0].cpus) { }
      forall i, j | 0 <= i < |taken| && 0 <= j < |rest| ensures taken[i] != rest[j] {
        assert rest[j] in SetOf(rest);
      }
    }
  }

  lemma SameUnion(a: seq<Share>, b: seq<Share>)
    requires forall s :: s in a ==> s in b
    ensures Union(a) <= Union(b)
  {
    forall x | x in Union(a) ensures x in Union(b) {
      UnionMembers(a, x);
      UnionMembers(b, x);
      var i :| 0 <= i < |a| && x in a[i].cpus;
      assert a[i] in b;
      var k :| 0 <= k < |b| && b[k] == a[i];
    }
  }

  lemma ReorderedDisjoint(shares: seq<Share>, sorted: seq<Share>)
    requires SharesDisjoint(shares) && Sorting.Distinct(sorted)
    requires forall s :: s in sorted ==> s in shares
    ensures SharesDisjoint(sorted)
  {
    forall i | 0 <= i < |sorted| ensures sorted[i].cpus != [] && Sorting.Distinct(sorted[i].cpus) {
      assert sorted[i] in shares;
    }
    forall i, j | 0 <= i < j < |sorted|
      ensures sorted[i].id != sorted[j].id && SetOf(sorted[i].cpus) !! SetOf(sorted[j].cpus)
    {
      assert sorted[i] in shares && sorted[j] in shares;
      var k :| 0 <= k < |shares| && shares[k] == sorted[i];
      var l :| 0 <= l < |shares| && shares[l] == sorted[j];
      assert k != l;
    }
  }

  /** Sorting the shares changes neither their groups nor the CPUs they hold together. */
  lemma SortedShares(shares: seq<Share>)
    requires SharesDisjoint(shares)
    ensures var sorted := Sorting.SortBy(ShareLe, shares);
      && SharesDisjoint(sorted) && Union(sorted) == Union(shares)
      && (forall i, j :: 0 <= i < j < |sorted| ==> |sorted[i].cpus| >= |sorted[j].cpus|)
      && Sorting.Pairwise(ShareLe, sorted)
      && (forall s :: s in sorted <==> s in shares)
  {
    var sorted := Sorting.SortBy(ShareLe, shares);
    var always := (a: Share, b: Share) => true;
    Sorting.StableSort(ShareLe, always, shares);
    Sorting.SameMembers(sorted, shares);
    forall i, j | 0 <= i < j < |shares| ensures shares[i] != shares[j] { }
    Sorting.SortKeepsDistinct(ShareLe, shares);
    ReorderedDisjoint(shares, sorted);
    SameUnion(shares, sorted);
    SameUnion(sorted, shares);
  }

  lemma {:induction false} TotalIsUnion(shares: seq<Share>)
    requires SharesDisjoint(shares)
    ensures Total(shares) == |Union(shares)|
  {
    if shares != [] {
      TailDisjoint(shares);
      TotalIsUnion(shares[1..]);
      DistinctCount(shares[0].cpus);
    }
  }

  /** The free CPUs that belong to some group. */
  ghost predicate Grouped(l3: seq<Group>, available: set<int>, avoid: set<int>, x: int) {
    x in available && x !in avoid && exists g :: g in l3 && x in g.cpus
  }

  lemma SharedIsGrouped(l3: seq<Group>, available: set<int>, avoid: set<int>, x: int, s: Share)
    requires s in Shares(l3, available, avoid) && x in s.cpus
    ensures Grouped(l3, available, avoid, x)
  {
    hide Ascending, Shares;
    SharesAre(l3, available, avoid);
    var g :| g in l3 && ShareOf(s, g, available, avoid);
    AscendingFacts(available * g.cpus - avoid);
    assert x in SetOf(s.cpus);
  }

  lemma GroupedIsShared(l3: seq<Group>, available: set<int>, avoid: set<int>, x: int) returns (s: Share)
    requires Grouped(l3, available, avoid, x)
    ensures s in Shares(l3, available, avoid) && x in s.cpus
  {
    hide Ascending, Shares;
    SharesAre(l3, available, avoid);
    var g :| g in l3 && x in g.cpus;
    AscendingFacts(available * g.cpus - avoid);
    s := Share(g.id, Ascending(available * g.cpus - avoid));
    assert x in SetOf(s.cpus);
  }

  lemma UnionIsGrouped(l3: seq<Group>, available: set<int>, avoid: set<int>, x: int)
    ensures x in Union(Shares(l3, available, avoid)) <==> Grouped(l3, available, avoid, x)
  {
    hide Shares, Union, Grouped;
    var shares := Shares(l3, available, avoid);
    UnionMembers(shares, x);
    if i :| 0 <= i < |shares| && x in shares[i].cpus {
      SharedIsGrouped(l3, available, avoid, x, shares[i]);
    }
    if Grouped(l3, available, avoid, x) {
      var s := GroupedIsShared(l3, available, avoid, x);
      var i :| 0 <= i < |shares| && shares[i] == s;
    }
  }

  lemma SingleCacheIsGood(l3: seq<Group>, available: set<int>, avoid: set<int>, count: int)
    requires Disjoint(l3) && SingleCache(l3, available, avoid, count).Some?
    ensures GoodChoice(SingleCache(l3, available, avoid, count).value, available, count)
  {
    var singles := Singles(l3, available, avoid, count);
    if singles != [] {
      Sorting.SortKeepsElements(SingleLe, singles);
      var sorted := Sorting.SortBy(SingleLe, singles);
      Sorting.SameMembers(sorted, singles);
      SinglesAre(l3, available, avoid, count);
      assert sorted[0] in sorted;
      var g :| g in l3 && sorted[0].cpus == Ascending(available * g.cpus - avoid);
      AscendingFacts(available * g.cpus - avoid);
      AscendingSliceIsGood(available * g.cpus - avoid, available, count);
    } else {
      var shares := Shares(l3, available, avoid);
      SharesAreDisjoint(l3, available, avoid);
      SortedShares(shares);
      var sorted := Sorting.SortBy(ShareLe, shares);
      GreedyFacts(sorted, count);
      forall x | x in Union(sorted) ensures x in available { UnionIsGrouped(l3, available, avoid, x); }
      SliceIsGood(Greedy(sorted, count), available, count);
    }
  }

  lemma {:induction false} OtherNodeIsGood(numa: seq<Group>, available: set<int>, avoid: set<int>, count: int)
    requires OtherNode(numa, available, avoid, count).Some?
    ensures GoodChoice(OtherNode(numa, available, avoid, count).value, available, count)
  {
    if !Touches(numa[0], avoid) && |available * numa[0].cpus| >= count {
      AscendingSliceIsGood(available * numa[0].cpus, available, count);
    } else {
      OtherNodeIsGood(numa[1..], available, avoid, count);
    }
  }

  lemma {:induction false} OtherCachesIsGood(l3: seq<Group>, available: set<int>, avoid: set<int>, count: int,
                                             found: seq<int>)
    requires Disjoint(l3) && OtherCaches(l3, available, avoid, count, found).Some?
    requires Sorting.Distinct(found) && SetOf(found) <= available
    requires forall i :: 0 <= i < |l3| ==> SetOf(found) !! l3[i].cpus
    ensures GoodChoice(OtherCaches(l3, available, avoid, count, found).value, available, count)
  {
    if Touches(l3[0], avoid) {
      OtherCachesIsGood(l3[1..], available, avoid, count, found);
    } else {
      var added := Ascending(available * l3[0].cpus);
      AscendingFacts(available * l3[0].cpus);
      var more := found + added;
      forall i, j | 0 <= i < |found| && 0 <= j < |added| ensures found[i] != added[j] {
        assert found[i] in SetOf(found) && added[j] in SetOf(added);
      }
      assert SetOf(more) == SetOf(found) + SetOf(added);
      if |more| >= count {
        SliceIsGood(more, available, count);
      } else {
        forall i | 0 <= i < |l3[1..]| ensures SetOf(more) !! l3[1..][i].cpus {
          assert l3[0].cpus !! l3[i + 1].cpus && SetOf(found) !! l3[i + 1].cpus;
        }
        OtherCachesIsGood(l3[1..], available, avoid, count, more);
      }
    }
  }

  lemma SortedDisjoint(l3: seq<Group>)
    requires Disjoint(l3)
    ensures Disjoint(Sorting.SortBy(ById, l3))
  {
    var sorted := Sorting.SortBy(ById, l3);
    Sorting.SortKeepsElements(ById, l3);
    Sorting.SameMembers(sorted, l3);
    forall i, j | 0 <= i < j < |l3| ensures l3[i] != l3[j] { }
    Sorting.SortKeepsDistinct(ById, l3);
    forall i, j | 0 <= i < j < |sorted|
      ensures sorted[i].id != sorted[j].id && sorted[i].cpus !! sorted[j].cpus
    {
      assert sorted[i] in sorted && sorted[j] in sorted;
      var k :| 0 <= k < |l3| && l3[k] == sorted[i];
      var l :| 0 <= l < |l3| && l3[l] == sorted[j];
      assert k != l;
    }
  }

  lemma CacheAwareIsGood(numa: seq<Group>, l3: seq<Group>, available: set<int>, avoid: set<int>, count: int,
                         anyNode: bool)
    requires Disjoint(l3) && CacheAware(numa, l3, available, avoid, count, anyNode).Some?
    ensures GoodChoice(CacheAware(numa, l3, available, avoid, count, anyNode).value, available, count)
  {
    if anyNode && OtherNode(numa, available, avoid, count).Some? {
      OtherNodeIsGood(numa, available, avoid, count);
    } else {
      SortedDisjoint(l3);
      OtherCachesIsGood(Sorting.SortBy(ById, l3), available, avoid, count, []);
    }
  }

  // ----- preferences -----

  function SingleOf(g: Group, available: set<int>, avoid: set<int>): Single {
    Single(|g.cpus * avoid|, g.id, Ascending(available * g.cpus - avoid))
  }

  lemma {:induction false} SinglesExactly(l3: seq<Group>, available: set<int>, avoid: set<int>, count: int)
    ensures forall c :: c in Singles(l3, available, avoid, count) ==>
      exists g :: g in l3 && c == SingleOf(g, available, avoid) && |c.cpus| >= count
    ensures forall g :: g in l3 && |available * g.cpus - avoid| >= count ==>
      SingleOf(g, available, avoid) in Singles(l3, available, avoid, count)
  {
    hide Ascending;
    if l3 != [] {
      SinglesExactly(l3[1..], available, avoid, count);
      AscendingFacts(available * l3[0].cpus - avoid);
      var rest, all := Singles(l3[1..], available, avoid, count), Singles(l3, available, avoid, count);
      var enough := |Ascending(available * l3[0].cpus - avoid)| >= count;
      var here := if enough then [SingleOf(l3[0], available, avoid)] else [];
      assert all == here + rest;
      forall c | c in all ensures exists g :: g in l3 && c == SingleOf(g, available, avoid) && |c.cpus| >= count {
        if c in rest {
          var g :| g in l3[1..] && c == SingleOf(g, available, avoid) && |c.cpus| >= count;
          assert g in l3;
        } else {
          assert l3[0] in l3;
        }
      }
      forall g | g in l3 && |available * g.cpus - avoid| >= count ensures SingleOf(g, available, avoid) in all {
        assert g == l3[0] || g in l3[1..];
      }
    }
  }

  /** When one group suffices, the choice is its lowest CPUs, and among all groups that suffice it is the one
      sharing least with the CPUs to avoid, then the one with the lowest number. */
  lemma SingleGroupIsTheBest(l3: seq<Group>, available: set<int>, avoid: set<int>, count: int) returns (g: Group)
    requires l3 != [] && exists h :: h in l3 && |available * h.cpus - avoid| >= count
    ensures g in l3 && |available * g.cpus - avoid| >= count
    ensures SingleCache(l3, available, avoid, count) == Some(Slice(Ascending(available * g.cpus - avoid), count))
    ensures forall h :: h in l3 && |available * h.cpus - avoid| >= count ==>
      |g.cpus * avoid| < |h.cpus * avoid| || (|g.cpus * avoid| == |h.cpus * avoid| && g.id <= h.id)
  {
    hide Ascending, Singles, Sorting.SortBy;
    var singles := Singles(l3, available, avoid, count);
    SinglesExactly(l3, available, avoid, count);
    var h0 :| h0 in l3 && |available * h0.cpus - avoid| >= count;
    assert SingleOf(h0, available, avoid) in singles;
    var sorted := Sorting.SortBy(SingleLe, singles);
    var always := (a: Single, b: Single) => true;
    Sorting.StableSort(SingleLe, always, singles);
    Sorting.SortKeepsElements(SingleLe, singles);
    Sorting.SameMembers(sorted, singles);
    assert sorted[0] in singles;
    g :| g in l3 && sorted[0] == SingleOf(g, available, avoid) && |sorted[0].cpus| >= count;
    AscendingFacts(available * g.cpus - avoid);
    forall h | h in l3 && |available * h.cpus - avoid| >= count
      ensures SingleLe(sorted[0], SingleOf(h, available, avoid)) {
      assert SingleOf(h, available, avoid) in sorted;
      var k :| 0 <= k < |sorted| && sorted[k] == SingleOf(h, available, avoid);
    }
  }

  /** A CPU of a cache group that nobody to be avoided uses. */
  ghost predicate InQuietGroup(l3: seq<Group>, avoid: set<int>, cpu: int) {
    exists g :: g in l3 && cpu in g.cpus && !Touches(g, avoid)
  }

  lemma {:induction false} OtherCachesAreQuiet(l3: seq<Group>, available: set<int>, avoid: set<int>, count: int,
                                               found: seq<int>, all: seq<Group>)
    requires OtherCaches(l3, available, avoid, count, found).Some?
    requires forall g :: g in l3 ==> g in all
    requires forall c :: c in found ==> InQuietGroup(all, avoid, c)
    ensures forall c :: c in OtherCaches(l3, available, avoid, count, found).value ==> InQuietGroup(all, avoid, c)
  {
    hide Ascending;
    assert l3[0] in l3;
    if Touches(l3[0], avoid) {
      OtherCachesAreQuiet(l3[1..], available, avoid, count, found, all);
    } else {
      AscendingFacts(available * l3[0].cpus);
      var added := Ascending(available * l3[0].cpus);
      forall c | c in added ensures InQuietGroup(all, avoid, c) { assert c in SetOf(added); }
      var more := found + added;
      if |more| < count {
        OtherCachesAreQuiet(l3[1..], available, avoid, count, more, all);
      }
    }
  }

  lemma {:induction false} OtherNodeIsQuiet(numa: seq<Group>, available: set<int>, avoid: set<int>, count: int)
    returns (n: Group)
    requires OtherNode(numa, available, avoid, count).Some?
    ensures n in numa && !Touches(n, avoid)
    ensures forall c :: c in OtherNode(numa, available, avoid, count).value ==> c in n.cpus
  {
    hide Ascending;
    if !Touches(numa[0], avoid) && |available * numa[0].cpus| >= count {
      n := numa[0];
      AscendingFacts(available * n.cpus);
      forall c | c in OtherNode(numa, available, avoid, count).value ensures c in n.cpus {
        assert c in SetOf(Ascending(available * n.cpus));
      }
    } else {
      n := OtherNodeIsQuiet(numa[1..], available, avoid, count);
    }
  }

  /** A cache-aware choice lies on one NUMA node, or wholly in cache groups, that no CPU to be avoided touches. */
  lemma CacheAwareIsIsolated(numa: seq<Group>, l3: seq<Group>, available: set<int>, avoid: set<int>, count: int,
                             anyNode: bool)
    requires CacheAware(numa, l3, available, avoid, count, anyNode).Some?
    ensures var r := CacheAware(numa, l3, available, avoid, count, anyNode).value;
      || (anyNode && exists n :: n in numa && !Touches(n, avoid) && forall c :: c in r ==> c in n.cpus)
      || (forall c :: c in r ==> InQuietGroup(l3, avoid, c))
  {
    if anyNode && OtherNode(numa, available, avoid, count).Some? {
      var n := OtherNodeIsQuiet(numa, available, avoid, count);
    } else {
      var sorted := Sorting.SortBy(ById, l3);
      Sorting.SortKeepsElements(ById, l3);
      Sorting.SameMembers(sorted, l3);
      OtherCachesAreQuiet(sorted, available, avoid, count, [], l3);
    }
  }

  lemma LaterTakenMeansWhole(shares: seq<Share>, needed: int)
    requires shares != []
    ensures needed <= 0 ==> Greedy(shares, needed) == []
    ensures needed > 0 ==>
      var taken := Slice(shares[0].cpus, needed); var rest := Greedy(shares[1..], needed - |taken|);
      && Greedy(shares, needed) == taken + rest
      && SetOf(Greedy(shares, needed)) == SetOf(taken) + SetOf(rest)
      && SetOf(taken) <= SetOf(shares[0].cpus)
      && (rest != [] ==> taken == shares[0].cpus)
  {
    if needed > 0 {
      var taken := Slice(shares[0].cpus, needed);
      var rest := Greedy(shares[1..], needed - |taken|);
      assert needed - |taken| <= 0 ==> rest == [];
      assert forall c :: c in taken + rest <==> c in taken || c in rest;
    }
  }

  /** Packing takes groups in order: whatever it takes from one, it took all of those before. */
  lemma {:induction false} EarlierSharesAreTaken(shares: seq<Share>, needed: int, i: nat, j: nat, x: int)
    requires SharesDisjoint(shares) && i < j < |shares| && x in shares[j].cpus && x in Greedy(shares, needed)
    ensures SetOf(shares[i].cpus) <= SetOf(Greedy(shares, needed))
  {
    hide Greedy, Slice;
    TailDisjoint(shares);
    LaterTakenMeansWhole(shares, needed);
    var taken := Slice(shares[0].cpus, needed);
    var rest := Greedy(shares[1..], needed - |taken|);
    assert x in SetOf(Greedy(shares, needed)) && x in SetOf(shares[j].cpus);
    assert x !in SetOf(shares[0].cpus);
    assert x in SetOf(rest);
    if i > 0 {
      hide SharesDisjoint;
      EarlierSharesAreTaken(shares[1..], needed - |taken|, i - 1, j - 1, x);
    }
  }

  /** Over several groups: once a group is used, every group with more free CPUs, or with as many and a higher number,
      is used up. */
  lemma LargerGroupsAreUsedUp(l3: seq<Group>, available: set<int>, avoid: set<int>, count: nat, used: Group,
                              larger: Group)
    requires Disjoint(l3) && used in l3 && larger in l3 && Singles(l3, available, avoid, count) == []
    requires SingleCache(l3, available, avoid, count).Some?
      && Touches(used, SetOf(SingleCache(l3, available, avoid, count).value))
    requires var a, b := |available * larger.cpus - avoid|, |available * used.cpus - avoid|;
      a > b || (a == b && larger.id > used.id)
    ensures available * larger.cpus - avoid <= SetOf(SingleCache(l3, available, avoid, count).value)
  {
    var sorted := Sorting.SortBy(ShareLe, Shares(l3, available, avoid));
    var r := SingleCache(l3, available, avoid, count).value;
    PackedIsGreedy(l3, available, avoid, count);
    hide SingleCache, Singles, Shares, Sorting.SortBy, Greedy, Ascending, Disjoint, SharesDisjoint;
    var x := SharedCpu(used, SetOf(r));
    assert x in available * used.cpus - avoid by {
      assert x in Union(sorted);
      UnionIsGrouped(l3, available, avoid, x);
    }
    AscendingFacts(available * used.cpus - avoid);
    AscendingFacts(available * larger.cpus - avoid);
    var i, j := LargerComesFirst(l3, available, avoid, used, larger, x);
    assert x in SetOf(sorted[j].cpus) && x in r;
    EarlierSharesAreTaken(sorted, count, i, j, x);
  }

  lemma PackedIsGreedy(l3: seq<Group>, available: set<int>, avoid: set<int>, count: nat)
    requires Disjoint(l3) && Singles(l3, available, avoid, count) == []
      && SingleCache(l3, available, avoid, count).Some?
    ensures var sorted := Sorting.SortBy(ShareLe, Shares(l3, available, avoid));
      && SingleCache(l3, available, avoid, count).value == Greedy(sorted, count)
      && SharesDisjoint(sorted) && SetOf(Greedy(sorted, count)) <= Union(sorted) == Union(Shares(l3, available, avoid))
  {
    hide Singles, Shares, Sorting.SortBy, Greedy, Disjoint;
    SharesAreDisjoint(l3, available, avoid);
    SortedShares(Shares(l3, available, avoid));
    GreedyFacts(Sorting.SortBy(ShareLe, Shares(l3, available, avoid)), count);
  }

  lemma LargerComesFirst(l3: seq<Group>, available: set<int>, avoid: set<int>, used: Group, larger: Group, x: int)
    returns (i: nat, j: nat)
    requires Disjoint(l3) && used in l3 && larger in l3 && x in available * used.cpus - avoid
    requires var a, b := |available * larger.cpus - avoid|, |available * used.cpus - avoid|;
      a > b || (a == b && larger.id > used.id)
    ensures var sorted := Sorting.SortBy(ShareLe, Shares(l3, available, avoid));
      && i < j < |sorted|
      && sorted[i] == Share(larger.id, Ascending(available * larger.cpus - avoid))
      && sorted[j] == Share(used.id, Ascending(available * used.cpus - avoid))
  {
    var shares := Shares(l3, available, avoid);
    var sorted := Sorting.SortBy(ShareLe, shares);
    hide Shares, Sorting.SortBy, Ascending, SharesDisjoint;
    SharesAreDisjoint(l3, available, avoid);
    hide Disjoint;
    SharesAre(l3, available, avoid);
    SortedShares(shares);
    AscendingFacts(available * used.cpus - avoid);
    AscendingFacts(available * larger.cpus - avoid);
    assert |available * used.cpus - avoid| > 0;
    assert available * larger.cpus - avoid != {};
    j :| 0 <= j < |sorted| && sorted[j] == Share(used.id, Ascending(available * used.cpus - avoid));
    i :| 0 <= i < |sorted| && sorted[i] == Share(larger.id, Ascending(available * larger.cpus - avoid));
  }

  lemma {:induction false} FoundComesFirst(l3: seq<Group>, available: set<int>, avoid: set<int>, count: nat,
                                           found: seq<int>)
    requires OtherCaches(l3, available, avoid, count, found).Some? && |found| < count
    ensures found <= OtherCaches(l3, available, avoid, count, found).value
  {
    hide Ascending, Touches;
    if Touches(l3[0], avoid) {
      FoundComesFirst(l3[1..], available, avoid, count, found);
    } else {
      var more := found + Ascending(available * l3[0].cpus);
      if |more| < count { FoundComesFirst(l3[1..], available, avoid, count, more); }
    }
  }

  /** Cache groups that nobody to be avoided uses are taken in the order given, each one wholly before the next. */
  lemma {:induction false} EarlierCachesAreTaken(
    l3: seq<Group>, available: set<int>, avoid: set<int>, count: nat, found: seq<int>, i: nat, j: nat, x: int)
    requires Disjoint(l3) && i < j < |l3| && OtherCaches(l3, available, avoid, count, found).Some? && |found| < count
    requires x in l3[j].cpus && x !in found && x in OtherCaches(l3, available, avoid, count, found).value
    requires !Touches(l3[i], avoid)
    ensures available * l3[i].cpus <= SetOf(OtherCaches(l3, available, avoid, count, found).value)
  {
    hide Ascending, Touches;
    var r := OtherCaches(l3, available, avoid, count, found).value;
    assert l3[0].cpus !! l3[j].cpus;
    if Touches(l3[0], avoid) {
      EarlierCachesAreTaken(l3[1..], available, avoid, count, found, i - 1, j - 1, x);
    } else {
      var added := Ascending(available * l3[0].cpus);
      AscendingFacts(available * l3[0].cpus);
      var more := found + added;
      assert x !in more by { assert x in added ==> x in SetOf(added); }
      assert |more| >= count ==> forall c :: c in r ==> c in more;
      assert |more| < count;
      FoundComesFirst(l3[1..], available, avoid, count, more);
      if i > 0 {
        EarlierCachesAreTaken(l3[1..], available, avoid, count, more, i - 1, j - 1, x);
      } else {
        forall c | c in available * l3[0].cpus ensures c in SetOf(r) {
          assert c in SetOf(added) && c in more;
        }
      }
    }
  }

  /** With no other node to go to: once a quiet cache group is used, every quiet one with a lower number is used up. */
  lemma LowerCachesAreUsedUp(numa: seq<Group>, l3: seq<Group>, available: set<int>, avoid: set<int>, count: nat,
                             used: Group, lower: Group)
    requires Disjoint(l3) && used in l3 && lower in l3 && lower.id < used.id && !Touches(lower, avoid)
    requires CacheAware(numa, l3, available, avoid, count, false).Some?
    requires Touches(used, SetOf(CacheAware(numa, l3, available, avoid, count, false).value))
    ensures available * lower.cpus <= SetOf(CacheAware(numa, l3, available, avoid, count, false).value)
  {
    var sorted := Sorting.SortBy(ById, l3);
    var r := CacheAware(numa, l3, available, avoid, count, false).value;
    assert OtherCaches(sorted, available, avoid, count, []) == Some(r);
    hide Sorting.SortBy, OtherCaches, CacheAware, Touches, Disjoint;
    SortedDisjoint(l3);
    var x := SharedCpu(used, SetOf(r));
    var i, j := LowerComesFirst(l3, lower, used);
    NothingWantedNothingTaken(sorted, available, avoid);
    EarlierCachesAreTaken(sorted, available, avoid, count, [], i, j, x);
  }

  lemma LowerComesFirst(l3: seq<Group>, lower: Group, used: Group) returns (i: nat, j: nat)
    requires used in l3 && lower in l3 && lower.id < used.id
    ensures var sorted := Sorting.SortBy(ById, l3); i < j < |sorted| && sorted[i] == lower && sorted[j] == used
  {
    var sorted := Sorting.SortBy(ById, l3);
    var always := (a: Group, b: Group) => true;
    hide Sorting.SortBy;
    Sorting.StableSort(ById, always, l3);
    Sorting.SameMembers(sorted, l3);
    j :| 0 <= j < |sorted| && sorted[j] == used;
    i :| 0 <= i < |sorted| && sorted[i] == lower;
  }

  lemma SharedCpu(g: Group, cpus: set<int>) returns (x: int)
    requires Touches(g, cpus)
    ensures x in g.cpus && x in cpus
  {
    x := SomeMember(g.cpus * cpus);
  }

  lemma {:induction false} NothingWantedNothingTaken(l3: seq<Group>, available: set<int>, avoid: set<int>)
    ensures var r := OtherCaches(l3, available, avoid, 0, []); r.Some? ==> r.value == []
  {
    hide Ascending;
    if l3 != [] && Touches(l3[0], avoid) { NothingWantedNothingTaken(l3[1..], available, avoid); }
  }
}
