/** Whom a reservation moves: for every host, every request and every history, exactly when the answers differ. */
module ReservationEffect {
  import opened Text
  import opened CpuSets
  import opened CpuPlacement
  import opened CpuAllocator
  import opened Reservation
  import FewestGroups
  import Sorting

  // ----- lists with some CPUs taken out -----

  function Without(s: seq<int>, gone: set<int>): seq<int> {
    if s == [] then [] else (if s[0] in gone then [] else [s[0]]) + Without(s[1..], gone)
  }

  predicate Avoids(s: seq<int>, gone: set<int>) { forall c :: c in s ==> c !in gone }

  lemma {:induction false} WithoutMembers(s: seq<int>, gone: set<int>)
    ensures SetOf(Without(s, gone)) == SetOf(s) - gone
    ensures |Without(s, gone)| <= |s|
  {
    if s != [] {
      WithoutMembers(s[1..], gone);
      assert forall c :: c in s <==> c == s[0] || c in s[1..];
      assert forall c :: c in Without(s, gone) <==> (c == s[0] && c !in gone) || c in Without(s[1..], gone);
      forall c ensures c in SetOf(Without(s, gone)) <==> c in SetOf(s) - gone {
        assert c in Without(s[1..], gone) <==> c in SetOf(Without(s[1..], gone));
      }
    }
  }

  lemma {:induction false} WithoutAscends(s: seq<int>, gone: set<int>)
    requires StrictlyAscending(s)
    ensures StrictlyAscending(Without(s, gone))
  {
    if s != [] {
      var rest := Without(s[1..], gone);
      WithoutAscends(s[1..], gone);
      WithoutMembers(s[1..], gone);
      forall k | k in SetOf(rest) ensures s[0] < k {
        var i :| 0 <= i < |s[1..]| && s[1..][i] == k;
        assert s[i + 1] == k;
      }
      ConsAscends(s[0], rest);
      assert [] + rest == rest;
    }
  }

  lemma AscendingWithout(s: set<int>, gone: set<int>)
    ensures Ascending(s - gone) == Without(Ascending(s), gone)
  {
    hide Ascending, Without, StrictlyAscending;
    AscendingFacts(s);
    WithoutAscends(Ascending(s), gone);
    WithoutMembers(Ascending(s), gone);
    AscendingIsUnique(Without(Ascending(s), gone));
  }

  lemma {:induction false} WithoutConcat(a: seq<int>, b: seq<int>, gone: set<int>)
    ensures Without(a + b, gone) == Without(a, gone) + Without(b, gone)
  {
    if a == [] {
      assert a + b == b && [] + Without(b, gone) == Without(b, gone);
    } else {
      assert (a + b)[1..] == a[1..] + b;
      WithoutConcat(a[1..], b, gone);
      var head := if a[0] in gone then [] else [a[0]];
      assert head + (Without(a[1..], gone) + Without(b, gone)) == head + Without(a[1..], gone) + Without(b, gone);
    }
  }

  lemma {:induction false} NothingGone(s: seq<int>, gone: set<int>)
    requires Avoids(s, gone)
    ensures Without(s, gone) == s
  {
    if s != [] {
      var first := s[0];
      assert first in s;
      assert Avoids(s[1..], gone) by { assert forall c :: c in s[1..] ==> c in s; }
      NothingGone(s[1..], gone);
      assert Without(s, gone) == [s[0]] + Without(s[1..], gone);
      assert s == [s[0]] + s[1..];
    }
  }

  lemma SliceSplits(s: seq<int>, n: nat)
    ensures Slice(s, n) + (if n <= |s| then s[n..] else []) == s
  {}

  /** What is taken from the front stays the same when nothing of it goes. */
  lemma FrontStays(s: seq<int>, n: nat, gone: set<int>)
    requires Avoids(Slice(s, n), gone)
    ensures Slice(Without(s, gone), n) == Slice(s, n)
    ensures n <= |s| ==> n <= |Without(s, gone)|
  {
    hide Without;
    var tail := if n <= |s| then s[n..] else [];
    SliceSplits(s, n);
    WithoutConcat(Slice(s, n), tail, gone);
    NothingGone(Slice(s, n), gone);
    if n > |s| {
      NothingGone(tail, gone);
      assert Slice(s, n) + [] == s;
    }
  }

  function Reversed(s: seq<int>): seq<int> { seq(|s|, i requires 0 <= i < |s| => s[|s| - 1 - i]) }

  lemma ReversedCons(x: int, rest: seq<int>)
    ensures Reversed([x] + rest) == Reversed(rest) + [x]
  {}

  lemma {:induction false} ReversedWithout(s: seq<int>, gone: set<int>)
    ensures Reversed(Without(s, gone)) == Without(Reversed(s), gone)
  {
    hide Reversed;
    if s == [] {
      assert Reversed([]) == [] by { ReversedEmpty(); }
    } else {
      ReversedWithout(s[1..], gone);
      assert s == [s[0]] + s[1..];
      ReversedCons(s[0], s[1..]);
      ReversedCons(s[0], Without(s[1..], gone));
      WithoutConcat(Reversed(s[1..]), [s[0]], gone);
      assert Without([], gone) == [] && [s[0]][1..] == [];
      assert [] + Without(s[1..], gone) == Without(s[1..], gone);
      assert Without(Reversed(s[1..]), gone) + [] == Without(Reversed(s[1..]), gone);
    }
  }

  lemma ReversedEmpty()
    ensures Reversed([]) == []
  {}

  // ----- packing into the largest groups -----

  function Shrink(s: Share, gone: set<int>): Share { Share(s.id, Without(s.cpus, gone)) }

  /** The packing of a list of groups, largest first, stays as it is: what it takes is left alone, and the group it
      takes only in part is still the largest of those that follow. */
  predicate PackUndisturbed(shares: seq<Share>, needed: int, gone: set<int>)
    decreases |shares|
  {
    shares == [] || needed <= 0 ||
    (Avoids(Slice(shares[0].cpus, needed), gone)
     && if |shares[0].cpus| <= needed then PackUndisturbed(shares[1..], needed - |shares[0].cpus|, gone)
        else forall s :: s in shares[1..] ==> ShareLe(Shrink(shares[0], gone), Shrink(s, gone)))
  }

  ghost predicate Sorted(shares: seq<Share>) { SharesDisjoint(shares) && Sorting.Pairwise(ShareLe, shares) }

  /** The same groups after some CPUs went, sorted again. */
  ghost predicate Shrunk(before: seq<Share>, after: seq<Share>, gone: set<int>) {
    && Sorted(before) && Sorted(after)
    && (forall s :: s in before && Without(s.cpus, gone) != [] ==> Shrink(s, gone) in after)
    && (forall t :: t in after ==> exists s :: s in before && t == Shrink(s, gone))
  }

  lemma SameIdSameShare(shares: seq<Share>, a: Share, b: Share)
    requires SharesDisjoint(shares) && a in shares && b in shares && a.id == b.id
    ensures a == b
  {
    var i :| 0 <= i < |shares| && shares[i] == a;
    var j :| 0 <= j < |shares| && shares[j] == b;
    assert i == j;
  }

  lemma SortedTail(shares: seq<Share>)
    requires Sorted(shares) && shares != []
    ensures Sorted(shares[1..])
    ensures forall s :: s in shares[1..] ==> ShareLe(shares[0], s) && s.id != shares[0].id
  {
    TailDisjoint(shares);
    forall s | s in shares[1..] ensures ShareLe(shares[0], s) && s.id != shares[0].id {
      var k :| 0 <= k < |shares[1..]| && shares[1..][k] == s;
      assert shares[k + 1] == s;
    }
  }

  lemma LargestLeads(before: seq<Share>, after: seq<Share>, gone: set<int>)
    requires Shrunk(before, after, gone) && before != [] && Without(before[0].cpus, gone) != []
    requires forall s :: s in before[1..] ==> ShareLe(Shrink(before[0], gone), Shrink(s, gone))
    ensures after != [] && after[0] == Shrink(before[0], gone)
    ensures Shrunk(before[1..], after[1..], gone)
  {
    hide Without, SharesDisjoint;
    var g := Shrink(before[0], gone);
    assert forall s :: s in before <==> s == before[0] || s in before[1..];
    assert g in after;
    SortedTail(before);
    SortedTail(after);
    assert after[0] in after;
    var lead :| lead in before && after[0] == Shrink(lead, gone);
    assert forall t :: t in after <==> t == after[0] || t in after[1..];
    assert lead == before[0] || ShareLe(g, Shrink(lead, gone));
    assert after[0].id == g.id;
    SameIdSameShare(after, g, after[0]);
    forall t | t in after[1..] ensures exists s :: s in before[1..] && t == Shrink(s, gone) {
      var s :| s in before && t == Shrink(s, gone);
      assert s != before[0];
    }
    forall s | s in before[1..] && Without(s.cpus, gone) != [] ensures Shrink(s, gone) in after[1..] {
      assert Shrink(s, gone).id != g.id;
    }
  }

  lemma ShrinkKeepsOrder(g: Share, s: Share, gone: set<int>)
    requires ShareLe(g, s) && Avoids(g.cpus, gone)
    ensures ShareLe(Shrink(g, gone), Shrink(s, gone))
  {
    NothingGone(g.cpus, gone);
    WithoutMembers(s.cpus, gone);
  }

  lemma GreedyStaysWithin(before: seq<Share>, after: seq<Share>, gone: set<int>, needed: int)
    requires Shrunk(before, after, gone)
    ensures Avoids(Greedy(after, needed), gone)
  {
    GreedyFacts(after, needed);
    forall c | c in Greedy(after, needed) ensures c !in gone {
      assert c in SetOf(Greedy(after, needed));
      UnionMembers(after, c);
      var i :| 0 <= i < |after| && c in after[i].cpus;
      assert after[i] in after;
      var s :| s in before && after[i] == Shrink(s, gone);
      WithoutMembers(s.cpus, gone);
      assert c in SetOf(Without(s.cpus, gone));
    }
  }

  lemma SomethingWasThere(before: seq<Share>, after: seq<Share>, gone: set<int>)
    requires Shrunk(before, after, gone)
    ensures after != [] ==> before != []
  {
    if after != [] {
      assert after[0] in after;
      var s :| s in before && after[0] == Shrink(s, gone);
    }
  }

  /** The greedy packing is the same exactly when it is undisturbed. */
  lemma {:induction false} GreedyUndisturbed(before: seq<Share>, after: seq<Share>, gone: set<int>, needed: int)
    requires Shrunk(before, after, gone)
    ensures Greedy(before, needed) == Greedy(after, needed) <==> PackUndisturbed(before, needed, gone)
    decreases |before|
  {
    hide Shrunk, Greedy, Avoids;
    SomethingWasThere(before, after, gone);
    NothingTaken(before, needed);
    NothingTaken(after, needed);
    if before != [] && needed > 0 {
      var g := before[0];
      var taken := Slice(g.cpus, needed);
      if !Avoids(taken, gone) {
        GreedyStaysWithin(before, after, gone, needed);
        FrontIsTaken(before, needed, gone);
      } else if |g.cpus| <= needed {
        WholeGroupTaken(before, after, gone, needed);
        GreedyUndisturbed(before[1..], after[1..], gone, needed - |g.cpus|);
        SameFront(g.cpus, Greedy(before[1..], needed - |g.cpus|), Greedy(after[1..], needed - |g.cpus|));
      } else {
        LastGroupTaken(before, after, gone, needed);
      }
    }
  }

  lemma NothingTaken(shares: seq<Share>, needed: int)
    ensures shares == [] || needed <= 0 ==> Greedy(shares, needed) == []
  {}

  lemma FrontIsTaken(shares: seq<Share>, needed: int, gone: set<int>)
    requires shares != [] && needed > 0 && !Avoids(Slice(shares[0].cpus, needed), gone)
    ensures !Avoids(Greedy(shares, needed), gone)
  {
    hide Slice;
    LaterTakenMeansWhole(shares, needed);
    var c :| c in Slice(shares[0].cpus, needed) && c in gone;
    assert c in Greedy(shares, needed);
  }

  lemma SameFront(front: seq<int>, a: seq<int>, b: seq<int>)
    ensures front + a == front + b <==> a == b
  {
    assert (front + a)[|front|..] == a && (front + b)[|front|..] == b;
  }

  lemma WholeGroupTaken(before: seq<Share>, after: seq<Share>, gone: set<int>, needed: int)
    requires Shrunk(before, after, gone) && before != [] && 0 < needed && |before[0].cpus| <= needed
    requires Avoids(before[0].cpus, gone)
    ensures after != [] && after[0] == before[0] && Shrunk(before[1..], after[1..], gone)
    ensures Greedy(after, needed) == before[0].cpus + Greedy(after[1..], needed - |before[0].cpus|)
    ensures Greedy(before, needed) == before[0].cpus + Greedy(before[1..], needed - |before[0].cpus|)
  {
    hide Without, Shrunk;
    var g := before[0];
    NothingGone(g.cpus, gone);
    ShrunkIsSorted(before, after, gone);
    SortedTail(before);
    forall s | s in before[1..] ensures ShareLe(Shrink(g, gone), Shrink(s, gone)) { ShrinkKeepsOrder(g, s, gone); }
    LargestLeads(before, after, gone);
  }

  lemma ShrunkIsSorted(before: seq<Share>, after: seq<Share>, gone: set<int>)
    requires Shrunk(before, after, gone)
    ensures Sorted(before) && Sorted(after)
    ensures before != [] ==> before[0].cpus != []
  {}

  /** The group taken in part decides: it stays the choice exactly when it stays the largest. */
  lemma LastGroupTaken(before: seq<Share>, after: seq<Share>, gone: set<int>, needed: int)
    requires Shrunk(before, after, gone) && before != [] && 0 < needed < |before[0].cpus|
    requires Avoids(Slice(before[0].cpus, needed), gone)
    ensures Greedy(before, needed) == Greedy(after, needed) <==>
      forall s :: s in before[1..] ==> ShareLe(Shrink(before[0], gone), Shrink(s, gone))
  {
    hide Without, Shrunk, SharesDisjoint;
    var g := before[0];
    FrontStays(g.cpus, needed, gone);
    assert Greedy(before[1..], 0) == [];
    assert Greedy(before, needed) == Slice(g.cpus, needed) + [];
    if forall s :: s in before[1..] ==> ShareLe(Shrink(g, gone), Shrink(s, gone)) {
      LargestLeads(before, after, gone);
      assert Greedy(after[1..], 0) == [];
      assert Greedy(after, needed) == Slice(g.cpus, needed) + [];
    } else {
      AnotherLeads(before, after, gone, needed);
    }
  }

  lemma AnotherLeads(before: seq<Share>, after: seq<Share>, gone: set<int>, needed: int)
    requires Shrunk(before, after, gone) && before != [] && 0 < needed && Without(before[0].cpus, gone) != []
    requires exists s :: s in before[1..] && !ShareLe(Shrink(before[0], gone), Shrink(s, gone))
    ensures Greedy(after, needed) != [] && Greedy(after, needed)[0] !in before[0].cpus
  {
    var lead := LeaderOf(before, after, gone);
    hide Shrunk, SharesDisjoint, PackUndisturbed;
    WithoutMembers(lead.cpus, gone);
    var first := after[0].cpus[0];
    assert first in SetOf(after[0].cpus) && first in SetOf(lead.cpus);
    assert Greedy(after, needed)
      == Slice(after[0].cpus, needed) + Greedy(after[1..], needed - |Slice(after[0].cpus, needed)|);
    assert Slice(after[0].cpus, needed)[0] == first;
    assert first !in SetOf(before[0].cpus);
  }

  lemma LeaderOf(before: seq<Share>, after: seq<Share>, gone: set<int>) returns (lead: Share)
    requires Shrunk(before, after, gone) && before != [] && Without(before[0].cpus, gone) != []
    requires exists s :: s in before[1..] && !ShareLe(Shrink(before[0], gone), Shrink(s, gone))
    ensures after != [] && after[0] == Shrink(lead, gone) && after[0].cpus != []
      && SetOf(lead.cpus) !! SetOf(before[0].cpus)
  {
    hide Without;
    var g := before[0];
    var s :| s in before[1..] && !ShareLe(Shrink(g, gone), Shrink(s, gone));
    assert s in before && Shrink(g, gone) in after;
    assert Shrink(s, gone) in after by { assert Without(s.cpus, gone) != []; }
    SortedTail(after);
    assert after[0] in after;
    lead :| lead in before && after[0] == Shrink(lead, gone);
    assert Shrink(s, gone) == after[0] || Shrink(s, gone) in after[1..];
    var k :| 0 <= k < |before| && before[k] == lead;
    assert k != 0 by { assert ShareLe(after[0], Shrink(s, gone)); }
  }

  lemma ShareShrinks(g: Group, pool: set<int>, avoid: set<int>, gone: set<int>)
    ensures Ascending((pool - gone) * g.cpus - avoid) == Without(Ascending(pool * g.cpus - avoid), gone)
  {
    assert (pool - gone) * g.cpus - avoid == pool * g.cpus - avoid - gone;
    AscendingWithout(pool * g.cpus - avoid, gone);
  }

  lemma SortedSharesAre(l3: seq<Group>, pool: set<int>, avoid: set<int>)
    requires Disjoint(l3)
    ensures var sorted := Sorting.SortBy(ShareLe, Shares(l3, pool, avoid));
      && Sorted(sorted) && (forall s :: s in sorted <==> s in Shares(l3, pool, avoid))
  {
    SharesAreDisjoint(l3, pool, avoid);
    SortedShares(Shares(l3, pool, avoid));
  }

  lemma SharesShrink(l3: seq<Group>, pool: set<int>, avoid: set<int>, gone: set<int>)
    requires Disjoint(l3)
    ensures Shrunk(Sorting.SortBy(ShareLe, Shares(l3, pool, avoid)),
                   Sorting.SortBy(ShareLe, Shares(l3, pool - gone, avoid)), gone)
  {
    hide Ascending, Without, Shares, Sorting.SortBy, Sorted, Disjoint;
    var before, after := Shares(l3, pool, avoid), Shares(l3, pool - gone, avoid);
    SortedSharesAre(l3, pool, avoid);
    SortedSharesAre(l3, pool - gone, avoid);
    SharesAre(l3, pool, avoid);
    SharesAre(l3, pool - gone, avoid);
    forall s | s in before && Without(s.cpus, gone) != [] ensures Shrink(s, gone) in after {
      var g :| g in l3 && ShareOf(s, g, pool, avoid);
      ShareShrinks(g, pool, avoid, gone);
      AscendingFacts((pool - gone) * g.cpus - avoid);
    }
    forall t | t in after ensures exists s :: s in before && t == Shrink(s, gone) {
      var g :| g in l3 && ShareOf(t, g, pool - gone, avoid);
      ShareShrinks(g, pool, avoid, gone);
      AscendingFacts((pool - gone) * g.cpus - avoid);
      AscendingFacts(pool * g.cpus - avoid);
      var x := t.cpus[0];
      assert x in SetOf(t.cpus) && x in pool * g.cpus - avoid;
      assert t == Shrink(Share(g.id, Ascending(pool * g.cpus - avoid)), gone);
    }
  }

  // ----- one choice -----

  lemma SingleStays(l3: seq<Group>, pool: set<int>, avoid: set<int>, gone: set<int>, count: nat)
    requires Disjoint(l3) && l3 != [] && exists h :: h in l3 && |pool * h.cpus - avoid| >= count
    requires SingleCache(l3, pool, avoid, count).Some? && Avoids(SingleCache(l3, pool, avoid, count).value, gone)
    ensures SingleCache(l3, pool - gone, avoid, count) == SingleCache(l3, pool, avoid, count)
  {
    hide Ascending, Without, SingleCache, Singles, Avoids;
    var g := SingleGroupIsTheBest(l3, pool, avoid, count);
    AscendingFacts(pool * g.cpus - avoid);
    AscendingFacts((pool - gone) * g.cpus - avoid);
    ShareShrinks(g, pool, avoid, gone);
    FrontStays(Ascending(pool * g.cpus - avoid), count, gone);
    assert |(pool - gone) * g.cpus - avoid| >= count;
    var h := SingleGroupIsTheBest(l3, pool - gone, avoid, count);
    FewerIn((pool - gone) * h.cpus - avoid, pool * h.cpus - avoid);
    assert g.id == h.id;
    SameIdSameGroup(l3, g, h);
  }

  lemma SameIdSameGroup(l3: seq<Group>, a: Group, b: Group)
    requires Disjoint(l3) && a in l3 && b in l3 && a.id == b.id
    ensures a == b
  {
    var i :| 0 <= i < |l3| && l3[i] == a;
    var j :| 0 <= j < |l3| && l3[j] == b;
    assert i == j;
  }

  lemma SinglesMeet(l3: seq<Group>, pool: set<int>, avoid: set<int>, count: int)
    ensures Singles(l3, pool, avoid, count) != [] <==> exists h :: h in l3 && |pool * h.cpus - avoid| >= count
  {
    SinglesAre(l3, pool, avoid, count);
  }

  /** Whether the packing takes several groups. */
  predicate Packs(l3: seq<Group>, pool: set<int>, avoid: set<int>, count: int) {
    l3 != [] && Singles(l3, pool, avoid, count) == [] && SingleCache(l3, pool, avoid, count).Some?
  }

  predicate SingleCacheUndisturbed(l3: seq<Group>, pool: set<int>, avoid: set<int>, count: int, gone: set<int>) {
    match SingleCache(l3, pool, avoid, count)
    case None => true
    case Some(cpus) =>
      Avoids(cpus, gone)
      && (Packs(l3, pool, avoid, count) ==>
            PackUndisturbed(Sorting.SortBy(ShareLe, Shares(l3, pool, avoid)), count, gone))
  }

  lemma SingleCacheStaysWithin(l3: seq<Group>, pool: set<int>, avoid: set<int>, gone: set<int>, count: nat)
    requires Disjoint(l3) && SingleCache(l3, pool - gone, avoid, count).Some?
    ensures Avoids(SingleCache(l3, pool - gone, avoid, count).value, gone)
  {
    hide SingleCache;
    SingleCacheIsGood(l3, pool - gone, avoid, count);
    var r := SingleCache(l3, pool - gone, avoid, count).value;
    forall c | c in r ensures c !in gone { assert c in SetOf(r); }
  }

  lemma NothingWanted(l3: seq<Group>, pool: set<int>, avoid: set<int>)
    requires l3 != []
    ensures SingleCache(l3, pool, avoid, 0).Some?
  {
    SinglesMeet(l3, pool, avoid, 0);
    assert l3[0] in l3;
  }

  lemma SingleCacheShort(l3: seq<Group>, pool: set<int>, avoid: set<int>, gone: set<int>, count: nat)
    requires Disjoint(l3) && SingleCache(l3, pool, avoid, count) == None
    ensures SingleCache(l3, pool - gone, avoid, count) == None
  {
    if l3 != [] { NothingWanted(l3, pool, avoid); }
    if l3 != [] && count >= 1 {
      hide SingleCache, Disjoint;
      var all, left := Union(Shares(l3, pool, avoid)), Union(Shares(l3, pool - gone, avoid));
      forall x ensures x in all <==> Grouped(l3, pool, avoid, x) { UnionIsGrouped(l3, pool, avoid, x); }
      forall x ensures x in left <==> Grouped(l3, pool - gone, avoid, x) { UnionIsGrouped(l3, pool - gone, avoid, x); }
      FewestGroups.SingleCacheFailsOnlyWhenShort(l3, pool, avoid, count, all);
      FewestGroups.SingleCacheFailsOnlyWhenShort(l3, pool - gone, avoid, count, left);
      assert left <= all by {
        forall x | x in left ensures x in all { assert Grouped(l3, pool - gone, avoid, x); }
      }
      FewerIn(left, all);
    }
  }

  lemma PackedStays(l3: seq<Group>, pool: set<int>, avoid: set<int>, gone: set<int>, count: nat)
    requires Disjoint(l3) && Packs(l3, pool, avoid, count)
    ensures SingleCache(l3, pool - gone, avoid, count) == SingleCache(l3, pool, avoid, count)
      <==> PackUndisturbed(Sorting.SortBy(ShareLe, Shares(l3, pool, avoid)), count, gone)
  {
    var before := Sorting.SortBy(ShareLe, Shares(l3, pool, avoid));
    var after := Sorting.SortBy(ShareLe, Shares(l3, pool - gone, avoid));
    NoSinglesLeft(l3, pool, avoid, gone, count);
    hide Singles, Shares, Sorting.SortBy, Greedy, PackUndisturbed, Disjoint;
    SharesShrink(l3, pool, avoid, gone);
    GreedyUndisturbed(before, after, gone, count);
    GreedyFacts(before, count);
    GreedyFacts(after, count);
  }

  lemma NoSinglesLeft(l3: seq<Group>, pool: set<int>, avoid: set<int>, gone: set<int>, count: int)
    requires Singles(l3, pool, avoid, count) == []
    ensures Singles(l3, pool - gone, avoid, count) == []
  {
    SinglesMeet(l3, pool, avoid, count);
    SinglesMeet(l3, pool - gone, avoid, count);
    forall h | h in l3 ensures |(pool - gone) * h.cpus - avoid| < count {
      FewerIn((pool - gone) * h.cpus - avoid, pool * h.cpus - avoid);
    }
  }

  /** Packing into cache groups stays as it is exactly when it is undisturbed. */
  lemma SingleCacheStays(l3: seq<Group>, pool: set<int>, avoid: set<int>, gone: set<int>, count: nat)
    requires Disjoint(l3)
    ensures SingleCache(l3, pool - gone, avoid, count) == SingleCache(l3, pool, avoid, count)
      <==> SingleCacheUndisturbed(l3, pool, avoid, count, gone)
  {
    hide SingleCache, Disjoint, PackUndisturbed;
    if SingleCache(l3, pool - gone, avoid, count).Some? {
      SingleCacheStaysWithin(l3, pool, avoid, gone, count);
    }
    match SingleCache(l3, pool, avoid, count) {
      case None =>
        SingleCacheShort(l3, pool, avoid, gone, count);
      case Some(cpus) =>
        if Packs(l3, pool, avoid, count) {
          PackedStays(l3, pool, avoid, gone, count);
        } else {
          SinglesMeet(l3, pool, avoid, count);
          NoGroupsNoChoice(pool, avoid, count);
          if Avoids(cpus, gone) { SingleStays(l3, pool, avoid, gone, count); }
        }
    }
  }

  lemma AscendingShrinks(cpus: set<int>, pool: set<int>, gone: set<int>)
    ensures Ascending((pool - gone) * cpus) == Without(Ascending(pool * cpus), gone)
    ensures |(pool - gone) * cpus| <= |pool * cpus|
  {
    assert (pool - gone) * cpus == pool * cpus - gone;
    AscendingWithout(pool * cpus, gone);
    FewerIn((pool - gone) * cpus, pool * cpus);
  }

  lemma {:induction false} OtherNodeStays(numa: seq<Group>, pool: set<int>, avoid: set<int>, gone: set<int>, count: nat)
    ensures var before, after := OtherNode(numa, pool, avoid, count), OtherNode(numa, pool - gone, avoid, count);
      && (before == None ==> after == None)
      && (before.Some? && Avoids(before.value, gone) ==> after == before)
  {
    hide Ascending, Without, Touches;
    if numa != [] {
      var cpus := numa[0].cpus;
      AscendingShrinks(cpus, pool, gone);
      AscendingFacts(pool * cpus);
      AscendingFacts((pool - gone) * cpus);
      OtherNodeStays(numa[1..], pool, avoid, gone, count);
      if Avoids(Slice(Ascending(pool * cpus), count), gone) {
        FrontStays(Ascending(pool * cpus), count, gone);
      }
    }
  }

  lemma {:induction false} OtherCachesShort(l3: seq<Group>, pool: set<int>, avoid: set<int>, gone: set<int>,
                                            count: nat, found: seq<int>, fewer: seq<int>)
    requires OtherCaches(l3, pool, avoid, count, found) == None && |fewer| <= |found|
    ensures OtherCaches(l3, pool - gone, avoid, count, fewer) == None
  {
    hide Ascending, Touches;
    if l3 != [] {
      AscendingFacts(pool * l3[0].cpus);
      AscendingFacts((pool - gone) * l3[0].cpus);
      AscendingShrinks(l3[0].cpus, pool, gone);
      if Touches(l3[0], avoid) {
        OtherCachesShort(l3[1..], pool, avoid, gone, count, found, fewer);
      } else {
        OtherCachesShort(l3[1..], pool, avoid, gone, count,
                         found + Ascending(pool * l3[0].cpus), fewer + Ascending((pool - gone) * l3[0].cpus));
      }
    }
  }

  lemma SliceOfBoth(found: seq<int>, s: seq<int>, n: nat)
    requires |found| <= n <= |found + s|
    ensures Slice(found + s, n) == found + Slice(s, n - |found|)
  {}

  lemma {:induction false} OtherCachesStay(l3: seq<Group>, pool: set<int>, avoid: set<int>, gone: set<int>,
                                           count: nat, found: seq<int>)
    requires OtherCaches(l3, pool, avoid, count, found).Some? && |found| <= count
    requires Avoids(OtherCaches(l3, pool, avoid, count, found).value, gone)
    ensures OtherCaches(l3, pool - gone, avoid, count, found) == OtherCaches(l3, pool, avoid, count, found)
  {
    hide Ascending, Touches, Without;
    if Touches(l3[0], avoid) {
      OtherCachesStay(l3[1..], pool, avoid, gone, count, found);
    } else {
      var added := Ascending(pool * l3[0].cpus);
      var more := found + added;
      AscendingShrinks(l3[0].cpus, pool, gone);
      if |more| >= count {
        SliceOfBoth(found, added, count);
        var taken := Slice(added, count - |found|);
        assert Avoids(taken, gone) by { assert forall c :: c in taken ==> c in found + taken; }
        FrontStays(added, count - |found|, gone);
        SliceOfBoth(found, Without(added, gone), count);
      } else {
        FoundComesFirst(l3[1..], pool, avoid, count, more);
        assert Avoids(added, gone) by { assert forall c :: c in added ==> c in more; }
        NothingGone(added, gone);
        OtherCachesStay(l3[1..], pool, avoid, gone, count, more);
      }
    }
  }

  lemma CacheAwareStays(numa: seq<Group>, l3: seq<Group>, pool: set<int>, avoid: set<int>, gone: set<int>, count: nat,
                        anyNode: bool)
    ensures var before := CacheAware(numa, l3, pool, avoid, count, anyNode);
      var after := CacheAware(numa, l3, pool - gone, avoid, count, anyNode);
      && (before == None ==> after == None)
      && (before.Some? && Avoids(before.value, gone) ==> after == before)
  {
    hide OtherNode, OtherCaches, Sorting.SortBy, Avoids;
    OtherNodeStays(numa, pool, avoid, gone, count);
    var sorted := Sorting.SortBy(ById, l3);
    if OtherCaches(sorted, pool, avoid, count, []) == None {
      OtherCachesShort(sorted, pool, avoid, gone, count, [], []);
    } else if Avoids(OtherCaches(sorted, pool, avoid, count, []).value, gone) {
      OtherCachesStay(sorted, pool, avoid, gone, count, []);
    }
  }

  lemma DescendingIsReversed(s: set<int>)
    ensures Descending(s) == Reversed(Ascending(s))
  {}

  lemma SimpleStays(pool: set<int>, gone: set<int>, req: Request)
    requires req.count >= 0 && Avoids(Simple(pool, req), gone)
    ensures Simple(pool - gone, req) == Simple(pool, req)
  {
    hide Ascending, Descending, Without, Reversed;
    AscendingWithout(pool, gone);
    DescendingIsReversed(pool);
    DescendingIsReversed(pool - gone);
    ReversedWithout(Ascending(pool), gone);
    if req.tag.purpose == "irq" || req.fromEnd {
      FrontStays(Descending(pool), req.count, gone);
    } else {
      FrontStays(Ascending(pool), req.count, gone);
    }
  }

  // ----- one request -----

  lemma PackedIsGrouped(l3: seq<Group>, pool: set<int>, avoid: set<int>, count: nat)
    requires Disjoint(l3) && count >= 1 && Packs(l3, pool, avoid, count)
    ensures var cpus := SingleCache(l3, pool, avoid, count).value;
      |SetOf(cpus)| == count && SetOf(cpus) <= Union(Shares(l3, pool, avoid))
  {
    var sorted := Sorting.SortBy(ShareLe, Shares(l3, pool, avoid));
    hide Singles, Shares, Sorting.SortBy, Greedy, Disjoint;
    SharesAreDisjoint(l3, pool, avoid);
    SortedShares(Shares(l3, pool, avoid));
    GreedyFacts(sorted, count);
    assert Slice(Greedy(sorted, count), count) == Greedy(sorted, count);
    DistinctCount(Greedy(sorted, count));
  }

  /** Packing still succeeds when what it took is left alone. */
  lemma PackingStillSucceeds(l3: seq<Group>, pool: set<int>, avoid: set<int>, gone: set<int>, count: nat)
    requires Disjoint(l3) && Packs(l3, pool, avoid, count) && Avoids(SingleCache(l3, pool, avoid, count).value, gone)
    ensures SingleCache(l3, pool - gone, avoid, count).Some?
  {
    hide SingleCache, Disjoint, Union, Shares;
    if count == 0 {
      NothingWanted(l3, pool - gone, avoid);
    } else {
      var cpus := SingleCache(l3, pool, avoid, count).value;
      PackedIsGrouped(l3, pool, avoid, count);
      var left := Union(Shares(l3, pool - gone, avoid));
      forall x ensures x in left <==> Grouped(l3, pool - gone, avoid, x) { UnionIsGrouped(l3, pool - gone, avoid, x); }
      assert SetOf(cpus) <= left by {
        forall x | x in SetOf(cpus) ensures x in left {
          UnionIsGrouped(l3, pool, avoid, x);
          assert x in cpus && Grouped(l3, pool - gone, avoid, x);
        }
      }
      FewestGroups.SingleCacheFailsOnlyWhenShort(l3, pool - gone, avoid, count, left);
      FewerIn(SetOf(cpus), left);
    }
  }

  /** The packing of the request takes several groups and is undisturbed, or does not take several. */
  predicate PackingUndisturbed(h: Host, req: Request, gone: set<int>) {
    var pool, avoid := Pool(h, req.requireNuma), Avoided(h, req);
    req.minimizeCacheGroups && Packs(h.l3, pool, avoid, req.count) ==>
      PackUndisturbed(Sorting.SortBy(ShareLe, Shares(h.l3, pool, avoid)), req.count, gone)
  }

  /** Nothing the request gets is reserved, and packing into several groups, the partly taken group stays the largest
      of those left. */
  predicate Undisturbed(h: Host, req: Request, gone: set<int>) {
    Choose(h, req).Granted? ==> Avoids(Choose(h, req).cpus, gone) && PackingUndisturbed(h, req, gone)
  }

  lemma PlacementStays(h: Host, req: Request, gone: set<int>)
    requires Topology(h) && req.count >= 0
    ensures var before := CacheChoice(h, req);
      var after := PlacedIn(h, req, Pool(h, req.requireNuma) - gone, Avoided(h, req));
      && (before == None ==> after == None && PackingUndisturbed(h, req, gone))
      && (before.Some? && Avoids(before.value, gone) ==> (after == before <==> PackingUndisturbed(h, req, gone)))
      && (before.Some? && Avoids(before.value, gone) ==> after.Some?)
  {
    var pool, avoid := Pool(h, req.requireNuma), Avoided(h, req);
    hide SingleCache, CacheAware, Pool, Avoided, PackUndisturbed, Avoids, Packs, Shares, Sorting.SortBy, Disjoint;
    CacheAwareStays(h.numa, h.l3, pool, avoid, gone, req.count, req.requireNuma == None);
    SingleCacheStays(h.l3, pool, avoid, gone, req.count);
    OnlySomethingPacks(h.l3, pool, avoid, req.count);
    if SingleCache(h.l3, pool, avoid, req.count) == None {
      SingleCacheShort(h.l3, pool, avoid, gone, req.count);
    } else if Packs(h.l3, pool, avoid, req.count) && Avoids(SingleCache(h.l3, pool, avoid, req.count).value, gone) {
      PackingStillSucceeds(h.l3, pool, avoid, gone, req.count);
    }
  }

  lemma OnlySomethingPacks(l3: seq<Group>, pool: set<int>, avoid: set<int>, count: int)
    ensures Packs(l3, pool, avoid, count) ==> SingleCache(l3, pool, avoid, count).Some?
  {}

  lemma PoolWithout(h: Host, r: Host, tag: Tag, node: Option<int>)
    requires Inv(h) && Inv(r) && SameButFor(h, r, tag)
    ensures Pool(r, node) == Pool(h, node) - SetOf(r.allocations[tag])
    ensures KnownNode(h, node) == KnownNode(r, node)
  {
    hide Free;
    ReservedIsTheDifference(h, r, tag);
  }

  lemma GrantAvoids(r: Host, req: Request, pool: set<int>, gone: set<int>)
    requires Topology(r) && Choose(r, req).Granted? && Pool(r, req.requireNuma) == pool - gone
    ensures Avoids(Choose(r, req).cpus, gone)
  {
    ChoiceIsGood(r, req);
    hide Choose, Pool;
    var cpus := Choose(r, req).cpus;
    forall c | c in cpus ensures c !in gone { assert c in SetOf(cpus); }
  }

  /** A request is answered as without the reservation exactly when the reservation does not disturb it. */
  lemma AnsweredAlikeExactly(h: Host, r: Host, tag: Tag, req: Request)
    requires Inv(h) && Inv(r) && SameButFor(h, r, tag)
    requires req.tag != tag && tag !in req.avoidTags && req.count >= 0
    ensures Choose(h, req) == Choose(r, req) <==> Undisturbed(h, req, SetOf(r.allocations[tag]))
  {
    hide Pool, Avoided, CacheChoice, PlacedIn, Simple, PackingUndisturbed, Avoids, KnownNode, Disjoint, Free, SetOf;
    var gone, pool := SetOf(r.allocations[tag]), Pool(h, req.requireNuma);
    PoolWithout(h, r, tag, req.requireNuma);
    SameAvoided(h, r, tag, req);
    PlacementStays(h, req, gone);
    if Choose(r, req).Granted? { GrantAvoids(r, req, pool, gone); }
    SamePlacement(h, r, req, pool - gone);
    SimpleAlike(h, r, req, gone);
  }

  lemma SamePlacement(h: Host, r: Host, req: Request, pool: set<int>)
    requires r.numa == h.numa && r.l3 == h.l3 && Pool(r, req.requireNuma) == pool && Avoided(r, req) == Avoided(h, req)
    ensures CacheChoice(r, req) == PlacedIn(h, req, pool, Avoided(h, req))
  {
    hide Pool, Avoided, SingleCache, CacheAware;
  }

  /** Without any cache preference. */
  lemma SimpleAlike(h: Host, r: Host, req: Request, gone: set<int>)
    requires Pool(r, req.requireNuma) == Pool(h, req.requireNuma) - gone && req.count >= 0
    ensures |Pool(h, req.requireNuma)| < req.count ==> |Pool(r, req.requireNuma)| < req.count
    ensures |Pool(h, req.requireNuma)| >= req.count && Avoids(Simple(Pool(h, req.requireNuma), req), gone) ==>
      |Pool(r, req.requireNuma)| >= req.count
        && Simple(Pool(r, req.requireNuma), req) == Simple(Pool(h, req.requireNuma), req)
  {
    var pool := Pool(h, req.requireNuma);
    hide Pool;
    FewerIn(pool - gone, pool);
    if |pool| >= req.count && Avoids(Simple(pool, req), gone) {
      SimpleStays(pool, gone, req);
      SimpleIsGood(pool, req);
      DistinctCount(Simple(pool, req));
      FewerIn(SetOf(Simple(pool, req)), pool - gone);
    }
  }

  lemma SimpleIsGood(pool: set<int>, req: Request)
    requires 0 <= req.count <= |pool|
    ensures GoodChoice(Simple(pool, req), pool, req.count)
  {
    hide Ascending, Descending;
    AscendingFacts(pool);
    DescendingFacts(pool);
    SliceIsGood(Ascending(pool), pool, req.count);
    SliceIsGood(Descending(pool), pool, req.count);
  }

  // ----- whole histories -----

  /** Calls that leave the reservation alone. */
  ghost predicate LeavesAlone(ops: seq<Op>, tag: Tag) {
    forall i :: 0 <= i < |ops| ==>
      match ops[i]
      case Allocate(req) => req.tag != tag && tag !in req.avoidTags && req.count >= 0
      case Release(t) => t != tag
  }

  /** No request of the history would be disturbed, judged by the run without the reservation. */
  predicate AllUndisturbed(h: Host, ops: seq<Op>, gone: set<int>)
    decreases |ops|
  {
    ops == []
    || ((ops[0].Allocate? ==> Undisturbed(h, ops[0].req, gone)) && AllUndisturbed(Apply(h, ops[0]), ops[1..], gone))
  }

  lemma {:induction false} HistoryAlikeExactly(h: Host, r: Host, tag: Tag, ops: seq<Op>)
    requires Inv(h) && Inv(r) && SameButFor(h, r, tag) && LeavesAlone(ops, tag)
    ensures Answers(h, ops) == Answers(r, ops) <==> AllUndisturbed(h, ops, SetOf(r.allocations[tag]))
    decreases |ops|
  {
    hide Choose, Inv, SameButFor, Undisturbed;
    if ops != [] {
      var op, rest := ops[0], ops[1..];
      assert Answers(h, ops)[1..] == Answers(Apply(h, op), rest) && Answers(r, ops)[1..] == Answers(Apply(r, op), rest);
      match op {
        case Allocate(req) =>
          AnsweredAlikeExactly(h, r, tag, req);
          if Choose(h, req) == Choose(r, req) {
            GrantBoth(h, r, tag, req);
            GrantKeepsInv(h, req);
            GrantKeepsInv(r, req);
            HistoryAlikeExactly(Grant(h, req), Grant(r, req), tag, rest);
          }
        case Release(t) =>
          DropBoth(h, r, tag, t);
          DropKeepsInv(h, t);
          DropKeepsInv(r, t);
          HistoryAlikeExactly(Drop(h, t), Drop(r, t), tag, rest);
      }
    }
  }

  /** For every host, network node and later history, releases of older allocations included: the management CPUs
      move nobody if and only if no request would have got one of them, and no packing into several cache groups
      changes its order. */
  lemma ReservationMovesNobodyExactly(h: Host, taskId: string, count: int, netNode: Option<int>, ops: seq<Op>)
    requires Inv(h) && Choose(h, ManagementRequest(h, taskId, count, netNode)).Granted?
    requires LeavesAlone(ops, ManagementRequest(h, taskId, count, netNode).tag)
    ensures var m := ManagementRequest(h, taskId, count, netNode);
      Answers(Grant(h, m), ops) == Answers(h, ops) <==> AllUndisturbed(h, ops, SetOf(Choose(h, m).cpus))
  {
    hide Inv, AllUndisturbed, Answers, ManagementRequest, CacheChoice, Simple, LeavesAlone;
    var m := ManagementRequest(h, taskId, count, netNode);
    GrantKeepsInv(h, m);
    HistoryAlikeExactly(h, Grant(h, m), m.tag, ops);
  }

  // ----- a generator that moves -----

  /** Four CPUs, two cache groups, one server on CPU 0. */
  function SmallHost(): Host {
    Host({0, 1, 2, 3}, [Group(0, {0, 1, 2, 3})], [Group(0, {0, 1}), Group(1, {2, 3})], map[Tag("s", "server") := [0]])
  }

  /** A generator's request for two CPUs in as few cache groups as possible, away from that server. */
  function PackedRequest(): Request {
    Request(Tag("c", "benchmark"), 2, Some(0), [Tag("s", "server")], true, true, false)
  }

  lemma SmallHostFacts()
    ensures var h := SmallHost();
      && Inv(h) && NodesDisjoint(h) && Free(h) == {1, 2, 3}
      && ManagementNode(h, Some(0)) == None && Pool(h, Some(0)) == {1, 2, 3}
  {
    var h, server := SmallHost(), Tag("s", "server");
    assert server in h.allocations && h.allocations[server] == [0];
    assert forall c :: c in [0] <==> c == 0;
    assert SetOf([0]) == {0};
    assert 0 in Taken(h.allocations);
    assert NodeIds(h.numa) == {0};
    assert (set n | n in NodeIds(h.numa) && Some(n) != Some(0)) == {};
  }

  /** The same host before anything is allocated. */
  function EmptyHost(): Host { SmallHost().(allocations := map[]) }

  function OneServer(): Request { ServerRequest(Tag("s", "server"), 1, Some(0)) }

  lemma EmptyHostFacts()
    ensures var h := EmptyHost();
      Inv(h) && Free(h) == {0, 1, 2, 3} && ManagementNode(h, Some(0)) == None && Pool(h, Some(0)) == {0, 1, 2, 3}
        && KnownNode(h, Some(0))
  {
    SmallHostFacts();
    assert Taken(EmptyHost().allocations) == {};
  }

  lemma FourCpus()
    ensures |{0, 1, 2, 3}| == 4 && Ascending({0, 1, 2, 3}) == [0, 1, 2, 3]
  {
    var a := [0, 1, 2, 3];
    AscendingIsUnique(a);
    assert SetOf(a) == {0, 1, 2, 3};
    AscendingFacts({0, 1, 2, 3});
  }

  lemma HighestIsReserved()
    ensures var h, m := EmptyHost(), ManagementRequest(EmptyHost(), "t", 1, Some(0));
      Choose(h, m).Granted? && SetOf(Choose(h, m).cpus) == {3}
  {
    var h, m := EmptyHost(), ManagementRequest(EmptyHost(), "t", 1, Some(0));
    EmptyHostFacts();
    FourCpus();
    assert m.tag !in h.allocations && m.fromEnd && m.count == 1 && m.requireNuma == None;
    assert CacheChoice(h, m) == None;
    PoolOfHost(h);
    hide Ascending, EmptyHost, Free, Pool, CacheChoice;
    assert Simple(Free(h), m) == Slice(Descending({0, 1, 2, 3}), 1) == [3];
  }

  /** The server gets CPU 0. */
  lemma ServerComesFirst()
    ensures Choose(EmptyHost(), OneServer()) == Granted([0]) && Grant(EmptyHost(), OneServer()) == SmallHost()
  {
    var h, req := EmptyHost(), OneServer();
    EmptyHostFacts();
    FourCpus();
    assert CacheChoice(h, req) == None;
    hide Ascending, Free, Pool, CacheChoice, KnownNode;
    assert Simple(Pool(h, Some(0)), req) == [0];
  }

  lemma OnlyTheServer(t: Tag)
    ensures t in SmallHost().allocations <==> t == Tag("s", "server")
  {}

  lemma PoolOfHost(h: Host)
    ensures Pool(h, None) == Free(h)
  {}

  lemma PackedGrants(h: Host, req: Request, cpus: seq<int>)
    requires req.tag !in h.allocations && KnownNode(h, req.requireNuma) && req.minimizeCacheGroups
    requires SingleCache(h.l3, Pool(h, req.requireNuma), Avoided(h, req), req.count) == Some(cpus)
    ensures Choose(h, req) == Granted(cpus)
  {
    hide SingleCache, Pool, Avoided, KnownNode, CacheAware, Simple;
  }

  lemma ServerIsAvoided()
    ensures Avoided(SmallHost(), PackedRequest()) == {0}
  {
    var h, req, server := SmallHost(), PackedRequest(), Tag("s", "server");
    assert h.allocations[server] == [0] && server in h.allocations && server in req.avoidTags;
    assert h.allocations[server][0] == 0;
    assert 0 in h.allocations[server];
    assert 0 in Avoided(h, req);
    assert forall c :: c in [0] <==> c == 0;
  }

  lemma PackedWithoutReservation()
    ensures Choose(SmallHost(), PackedRequest()).Granted? && 3 in SetOf(Choose(SmallHost(), PackedRequest()).cpus)
  {
    var h, req := SmallHost(), PackedRequest();
    SmallHostFacts();
    ServerIsAvoided();
    OnlyTheServer(req.tag);
    NodeZero();
    hide Ascending, Pool, Avoided, Choose, SingleCache, KnownNode, Inv, Free, ManagementNode;
    OneSingle(h.l3);
    PackedGrants(h, req, Ascending({2, 3}));
    AscendingFacts({2, 3});
  }

  lemma NodeZero()
    ensures KnownNode(SmallHost(), Some(0))
  {}

  lemma OneSingle(l3: seq<Group>)
    requires l3 == [Group(0, {0, 1}), Group(1, {2, 3})]
    ensures SingleCache(l3, {1, 2, 3}, {0}, 2) == Some(Ascending({2, 3}))
  {
    hide Ascending;
    SmallSets();
    AscendingFacts({2, 3});
    AscendingFacts({1});
    assert l3[1..] == [Group(1, {2, 3})] && l3[1..][1..] == [];
    var single := Single(|{2, 3} * {0}|, 1, Ascending({2, 3}));
    assert Singles(l3[1..][1..], {1, 2, 3}, {0}, 2) == [];
    assert Singles(l3[1..], {1, 2, 3}, {0}, 2) == [single];
    assert Singles(l3, {1, 2, 3}, {0}, 2) == [single];
    hide Singles;
    assert Sorting.SortBy(SingleLe, [single]) == [single];
  }

  lemma SmallSets()
    ensures {1, 2, 3} * {2, 3} - {0} == {2, 3} && {1, 2, 3} * {0, 1} - {0} == {1}
    ensures |{2, 3}| == 2 && |{1}| == 1
  {}

  /** A generator, though, can be moved on a single-node host: the management CPU is reserved on an idle host, a server
      gets the CPU it would have had, and packing the generator into cache groups then sees one of them shrunk. */
  lemma SingleNodeReservationMovesAGenerator()
    ensures var h, m := EmptyHost(), ManagementRequest(EmptyHost(), "t", 1, Some(0));
      var ops := [Allocate(OneServer()), Allocate(PackedRequest())];
      var without, reserved := Answers(h, ops), Answers(Grant(h, m), ops);
      && Inv(h) && ManagementNode(h, Some(0)) == None && Choose(h, m).Granted?
      && |without| == |reserved| == 2 && without[0] == reserved[0] == Granted([0])
      && without[1].Granted? && reserved[1].Granted? && without[1] != reserved[1]
  {
    var h, m := EmptyHost(), ManagementRequest(EmptyHost(), "t", 1, Some(0));
    EmptyHostFacts();
    HighestIsReserved();
    ServerComesFirst();
    PackedWithoutReservation();
    SmallHostFacts();
    FreshTags();
    AnswersOfTwo(h, OneServer(), PackedRequest());
    AnswersOfTwo(Grant(h, m), OneServer(), PackedRequest());
    hide SmallHost, EmptyHost, ManagementRequest, Inv, Pool, KnownNode, Choose, Answers, OneServer, PackedRequest;
    MovedSecond(h, m, OneServer(), PackedRequest());
  }

  lemma AnswersOfTwo(h: Host, first: Request, second: Request)
    ensures Answers(h, [Allocate(first), Allocate(second)]) == [Choose(h, first), Choose(Grant(h, first), second)]
  {
    hide Choose;
    var ops := [Allocate(first), Allocate(second)];
    assert ops[1..] == [Allocate(second)] && [Allocate(second)][1..] == [];
    var g := Grant(h, first);
    NoAnswers(Grant(g, second));
    assert Answers(g, [Allocate(second)]) == [Choose(g, second)] + [];
    assert Answers(h, ops) == [Choose(h, first)] + Answers(g, ops[1..]);
  }

  lemma NoAnswers(h: Host)
    ensures Answers(h, []) == []
  {}

  lemma FreshTags()
    ensures var m, first, second := ManagementRequest(EmptyHost(), "t", 1, Some(0)), OneServer(), PackedRequest();
      && m.tag !in EmptyHost().allocations && first.tag != m.tag && second.tag != m.tag
      && second.tag !in SmallHost().allocations
      && m.tag !in first.avoidTags && m.tag !in second.avoidTags && second.tag != first.tag
      && !first.minimizeCacheGroups && first.count == 1 && second.count == 2 && second.requireNuma == Some(0)
      && KnownNode(SmallHost(), Some(0))
  {
    OnlyTheServer(PackedRequest().tag);
    NodeZero();
  }

  /** The first request avoids the reserved CPU 3, the second would have got it. */
  lemma MovedSecond(h: Host, m: Request, first: Request, second: Request)
    requires Inv(h) && m.tag !in h.allocations && first.tag != m.tag && second.tag != m.tag
    requires m.tag !in first.avoidTags && m.tag !in second.avoidTags && first.count >= 0
    requires !first.minimizeCacheGroups && Choose(h, first) == Granted([0])
    requires Choose(h, m).Granted? && SetOf(Choose(h, m).cpus) == {3}
    requires var g := Grant(h, first);
      && second.tag !in g.allocations && second.count == 2 && second.requireNuma == Some(0) && KnownNode(g, Some(0))
      && Pool(g, Some(0)) == {1, 2, 3} && Choose(g, second).Granted? && 3 in SetOf(Choose(g, second).cpus)
    ensures var r := Grant(h, m);
      && Choose(r, first) == Choose(h, first)
      && Choose(Grant(r, first), second).Granted? && Choose(Grant(h, first), second) != Choose(Grant(r, first), second)
  {
    hide Pool, CacheChoice, KnownNode, Simple, Free;
    var r := Grant(h, m);
    GrantKeepsInv(h, m);
    assert r.allocations[m.tag] == Choose(h, m).cpus;
    assert Undisturbed(h, first, {3}) by { assert forall c :: c in [0] ==> c == 0; }
    AnsweredAlikeExactly(h, r, m.tag, first);
    GrantBoth(h, r, m.tag, first);
    GrantKeepsInv(h, first);
    GrantKeepsInv(r, first);
    MovedThere(Grant(h, first), Grant(r, first), m.tag, second);
  }

  lemma MovedThere(h: Host, r: Host, tag: Tag, req: Request)
    requires Inv(h) && Inv(r) && SameButFor(h, r, tag) && SetOf(r.allocations[tag]) == {3}
    requires req.tag != tag && tag !in req.avoidTags && req.tag !in h.allocations
    requires req.count == 2 && req.requireNuma == Some(0) && KnownNode(h, Some(0)) && Pool(h, Some(0)) == {1, 2, 3}
    requires Choose(h, req).Granted? && 3 in SetOf(Choose(h, req).cpus)
    ensures Choose(r, req).Granted? && Choose(h, req) != Choose(r, req)
  {
    hide Pool, CacheChoice, KnownNode, Simple, PackingUndisturbed, Free;
    AnsweredAlikeExactly(h, r, tag, req);
    PoolWithout(h, r, tag, Some(0));
    assert {1, 2, 3} - {3} == {1, 2} && |{1, 2}| == 2;
    AllocateIsExact(r, req);
  }
}
