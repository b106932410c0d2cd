/** What a caller's preferences guarantee: when a request is packed, when it is kept away from others, and when it goes
    by number. */
module Preferences {
  import opened Text
  import opened CpuSets
  import opened CpuPlacement
  import opened CpuAllocator
  import opened FewestGroups
  import Sorting

  // ----- when a cache-aware placement exists -----

  /** Free CPUs in quiet groups, added up group by group. */
  function QuietSize(l3: seq<Group>, available: set<int>, avoid: set<int>): nat {
    if l3 == [] then 0
    else (if Touches(l3[0], avoid) then 0 else |available * l3[0].cpus|) + QuietSize(l3[1..], available, avoid)
  }

  lemma {:induction false} OtherCachesExactly(l3: seq<Group>, available: set<int>, avoid: set<int>, count: int,
                                              found: seq<int>)
    requires |found| < count
    ensures OtherCaches(l3, available, avoid, count, found).Some? <==>
      |found| + QuietSize(l3, available, avoid) >= count
  {
    hide Ascending;
    if l3 != [] {
      if Touches(l3[0], avoid) {
        OtherCachesExactly(l3[1..], available, avoid, count, found);
      } else {
        AscendingFacts(available * l3[0].cpus);
        var more := found + Ascending(available * l3[0].cpus);
        if |more| < count { OtherCachesExactly(l3[1..], available, avoid, count, more); }
      }
    }
  }

  ghost predicate QuietCpu(l3: seq<Group>, available: set<int>, avoid: set<int>, x: int) {
    x in available && InQuietGroup(l3, avoid, x)
  }

  lemma QuietFirst(l3: seq<Group>, avoid: set<int>, x: int)
    requires l3 != []
    ensures InQuietGroup(l3, avoid, x) <==>
      (x in l3[0].cpus && !Touches(l3[0], avoid)) || InQuietGroup(l3[1..], avoid, x)
  {
    hide Touches;
    assert forall g :: g in l3 <==> g == l3[0] || g in l3[1..];
  }

  lemma NothingQuiet(avoid: set<int>, x: int)
    ensures !InQuietGroup([], avoid, x)
  {}

  lemma LaterQuiet(l3: seq<Group>, avoid: set<int>, x: int)
    requires l3 != [] && Disjoint(l3) && InQuietGroup(l3[1..], avoid, x)
    ensures x !in l3[0].cpus
  {
    var g :| g in l3[1..] && x in g.cpus && !Touches(g, avoid);
    var k :| 0 <= k < |l3[1..]| && l3[1..][k] == g;
    assert l3[k + 1] == g;
  }

  lemma {:induction false} QuietSizeCounts(l3: seq<Group>, available: set<int>, avoid: set<int>, quiet: set<int>)
    requires Disjoint(l3) && forall x :: x in quiet <==> QuietCpu(l3, available, avoid, x)
    ensures QuietSize(l3, available, avoid) == |quiet|
  {
    hide Touches, InQuietGroup;
    if l3 == [] {
      forall x ensures x !in quiet { NothingQuiet(avoid, x); }
    } else {
      var here := if Touches(l3[0], avoid) then {} else available * l3[0].cpus;
      var rest := set x | x in quiet && InQuietGroup(l3[1..], avoid, x);
      forall x ensures x in quiet <==> x in here || x in rest { QuietFirst(l3, avoid, x); }
      forall x ensures x in rest <==> QuietCpu(l3[1..], available, avoid, x) { QuietFirst(l3, avoid, x); }
      forall x | x in rest ensures x !in here {
        LaterQuiet(l3, avoid, x);
      }
      assert quiet == here + rest;
      QuietSizeCounts(l3[1..], available, avoid, rest);
    }
  }

  /** A node nobody to be avoided touches, with enough free CPUs. */
  ghost predicate RoomyNode(n: Group, available: set<int>, avoid: set<int>, count: int) {
    !Touches(n, avoid) && |available * n.cpus| >= count
  }

  lemma {:induction false} OtherNodeExactly(numa: seq<Group>, available: set<int>, avoid: set<int>, count: int)
    ensures OtherNode(numa, available, avoid, count).Some? <==>
      exists n :: n in numa && RoomyNode(n, available, avoid, count)
  {
    hide Ascending;
    if numa != [] {
      OtherNodeExactly(numa[1..], available, avoid, count);
      assert forall n :: n in numa <==> n == numa[0] || n in numa[1..];
      assert numa[0] in numa;
    }
  }

  lemma {:induction false} QuietMembers(a: seq<Group>, b: seq<Group>, avoid: set<int>, x: int)
    requires forall g :: g in a <==> g in b
    ensures InQuietGroup(a, avoid, x) <==> InQuietGroup(b, avoid, x)
  {
    hide Touches;
  }

  /** A placement away from others is found exactly when a quiet node has room, if any node will do, or the quiet cache
      groups have it together; a quiet node is preferred. */
  lemma CacheAwareExactly(numa: seq<Group>, l3: seq<Group>, available: set<int>, avoid: set<int>, count: int,
                          anyNode: bool, quiet: set<int>)
    requires Disjoint(l3) && count >= 1 && forall x :: x in quiet <==> QuietCpu(l3, available, avoid, x)
    ensures var r := CacheAware(numa, l3, available, avoid, count, anyNode);
      var roomy := anyNode && exists n :: n in numa && RoomyNode(n, available, avoid, count);
      && (r.Some? <==> roomy || |quiet| >= count)
      && (roomy ==> exists n :: n in numa && !Touches(n, avoid) && forall c :: c in r.value ==> c in n.cpus)
  {
    hide Touches, OtherNode, OtherCaches, Sorting.SortBy;
    OtherNodeExactly(numa, available, avoid, count);
    if OtherNode(numa, available, avoid, count).Some? {
      var n := OtherNodeIsQuiet(numa, available, avoid, count);
    }
    var sorted := Sorting.SortBy(ById, l3);
    SortedDisjoint(l3);
    Sorting.SortKeepsElements(ById, l3);
    Sorting.SameMembers(sorted, l3);
    forall x ensures x in quiet <==> QuietCpu(sorted, available, avoid, x) { QuietMembers(sorted, l3, avoid, x); }
    QuietSizeCounts(sorted, available, avoid, quiet);
    OtherCachesExactly(sorted, available, avoid, count, []);
  }

  // ----- what a request gets -----

  /** Nothing else is in the way of the request. */
  ghost predicate Admissible(h: Host, req: Request) {
    Topology(h) && req.tag !in h.allocations && KnownNode(h, req.requireNuma) && req.count >= 1
  }

  /** The CPUs that packing may use. */
  ghost predicate Packable(h: Host, req: Request, x: int) {
    Grouped(h.l3, Pool(h, req.requireNuma), Avoided(h, req), x)
  }

  lemma NoPackingWithoutGroups(available: set<int>, avoid: set<int>, count: int, l3: seq<Group>, grouped: set<int>)
    requires l3 == [] && forall x :: x in grouped <==> Grouped(l3, available, avoid, x)
    ensures grouped == {} && SingleCache(l3, available, avoid, count) == None
  {
    forall x ensures x !in grouped { assert !Grouped(l3, available, avoid, x); }
  }

  /** Packing is tried first: it succeeds exactly when the groups hold enough, and then no other choice of so many of
      their CPUs touches fewer groups. */
  lemma PackedExactly(h: Host, req: Request, grouped: set<int>, other: set<int>)
    requires Admissible(h, req) && req.minimizeCacheGroups
    requires forall x :: x in grouped <==> Packable(h, req, x)
    requires other <= grouped && |other| >= req.count
    ensures Choose(h, req).Granted?
    ensures forall c :: c in Choose(h, req).cpus ==> c in grouped
    ensures |TouchedGroups(h.l3, SetOf(Choose(h, req).cpus))| <= |TouchedGroups(h.l3, other)|
  {
    hide Pool, Avoided, SingleCache, CacheAware, TouchedGroups;
    var pool, avoid := Pool(h, req.requireNuma), Avoided(h, req);
    FewerIn(other, grouped);
    if h.l3 == [] { NoPackingWithoutGroups(pool, avoid, req.count, h.l3, grouped); }
    SingleCacheFailsOnlyWhenShort(h.l3, pool, avoid, req.count, grouped);
    SingleCacheUsesFewestGroups(h.l3, pool, avoid, req.count, other);
    PackedStaysAway(h.l3, pool, avoid, req.count);
  }

  lemma PackedStaysAway(l3: seq<Group>, available: set<int>, avoid: set<int>, count: int)
    requires Disjoint(l3) && SingleCache(l3, available, avoid, count).Some?
    ensures forall c :: c in SingleCache(l3, available, avoid, count).value ==> Grouped(l3, available, avoid, c)
  {
    var singles := Singles(l3, available, avoid, count);
    if singles != [] {
      Sorting.SortKeepsElements(SingleLe, singles);
      var sorted := Sorting.SortBy(SingleLe, singles);
      Sorting.SameMembers(sorted, singles);
      SinglesAre(l3, available, avoid, count);
      assert sorted[0] in sorted;
      var g :| g in l3 && sorted[0].cpus == Ascending(available * g.cpus - avoid);
      AscendingFacts(available * g.cpus - avoid);
      forall c | c in Slice(sorted[0].cpus, count) ensures Grouped(l3, available, avoid, c) {
        assert c in SetOf(sorted[0].cpus);
      }
    } else {
      var shares := Shares(l3, available, avoid);
      var sorted := Sorting.SortBy(ShareLe, shares);
      SharesAreDisjoint(l3, available, avoid);
      SortedShares(shares);
      GreedyFacts(sorted, count);
      forall c | c in Slice(Greedy(sorted, count), count) ensures Grouped(l3, available, avoid, c) {
        assert c in SetOf(Greedy(sorted, count));
        UnionIsGrouped(l3, available, avoid, c);
      }
    }
  }

  /** On CPUs of a quiet node, or of quiet cache groups. */
  ghost predicate Isolated(h: Host, avoid: set<int>, cpus: seq<int>, anyNode: bool) {
    || (anyNode && exists n :: n in h.numa && !Touches(n, avoid) && forall c :: c in cpus ==> c in n.cpus)
    || (forall c :: c in cpus ==> InQuietGroup(h.l3, avoid, c))
  }

  /** Where packing was not asked for, or the groups are too small for it, a request that prefers other caches gets
      isolated CPUs whenever there are enough: on a quiet node when any node will do, else in quiet groups. */
  lemma KeptAwayWhenPossible(h: Host, req: Request, grouped: set<int>, quiet: set<int>)
    requires Admissible(h, req) && req.preferDifferentCache && Avoided(h, req) != {}
    requires forall x :: x in grouped <==> Packable(h, req, x)
    requires req.minimizeCacheGroups ==> |grouped| < req.count
    requires forall x :: x in quiet <==> QuietCpu(h.l3, Pool(h, req.requireNuma), Avoided(h, req), x)
    requires |quiet| >= req.count
      || (req.requireNuma == None
          && exists n :: n in h.numa && RoomyNode(n, Pool(h, req.requireNuma), Avoided(h, req), req.count))
    ensures Choose(h, req).Granted? && Isolated(h, Avoided(h, req), Choose(h, req).cpus, req.requireNuma == None)
  {
    var pool, avoid := Pool(h, req.requireNuma), Avoided(h, req);
    NotPacked(h, req, grouped);
    hide Pool, Avoided, SingleCache, CacheAware, RoomyNode, QuietCpu, InQuietGroup, Touches;
    CacheAwareExactly(h.numa, h.l3, pool, avoid, req.count, req.requireNuma == None, quiet);
    CacheAwareIsIsolated(h.numa, h.l3, pool, avoid, req.count, req.requireNuma == None);
  }

  lemma NotPacked(h: Host, req: Request, grouped: set<int>)
    requires Admissible(h, req) && forall x :: x in grouped <==> Packable(h, req, x)
    requires req.minimizeCacheGroups ==> |grouped| < req.count
    ensures req.minimizeCacheGroups ==>
      SingleCache(h.l3, Pool(h, req.requireNuma), Avoided(h, req), req.count) == None
  {
    hide Pool, Avoided, SingleCache;
    var pool, avoid := Pool(h, req.requireNuma), Avoided(h, req);
    if req.minimizeCacheGroups {
      if h.l3 == [] {
        NoPackingWithoutGroups(pool, avoid, req.count, h.l3, grouped);
      } else {
        SingleCacheFailsOnlyWhenShort(h.l3, pool, avoid, req.count, grouped);
      }
    }
  }

  /** Where neither packing nor isolation was asked for and possible, a request gets the lowest-numbered free CPUs of
      its node, or the highest-numbered for interrupts and when asked for. */
  lemma ByNumberOtherwise(h: Host, req: Request, grouped: set<int>, quiet: set<int>, x: int, y: int)
    requires Admissible(h, req)
    requires forall c :: c in grouped <==> Packable(h, req, c)
    requires forall c :: c in quiet <==> QuietCpu(h.l3, Pool(h, req.requireNuma), Avoided(h, req), c)
    requires req.minimizeCacheGroups ==> |grouped| < req.count
    requires req.preferDifferentCache && Avoided(h, req) != {} ==>
      |quiet| < req.count
      && (req.requireNuma == None ==>
            forall n :: n in h.numa ==> !RoomyNode(n, Pool(h, req.requireNuma), Avoided(h, req), req.count))
    requires Choose(h, req).Granted? && x in Choose(h, req).cpus
    requires y in Pool(h, req.requireNuma) && y !in Choose(h, req).cpus
    ensures if req.tag.purpose == "irq" || req.fromEnd then y < x else x < y
  {
    NotPacked(h, req, grouped);
    hide Pool, Avoided, SingleCache, CacheAware, RoomyNode, QuietCpu, InQuietGroup, Touches, Simple;
    var pool := Pool(h, req.requireNuma);
    CacheAwareExactly(h.numa, h.l3, pool, Avoided(h, req), req.count, req.requireNuma == None, quiet);
    SimpleIsByNumber(pool, req, x, y);
  }
}
