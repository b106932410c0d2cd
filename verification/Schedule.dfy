/** Which series gets to queue the next task when the queue is empty. */
module Schedule {
  import opened Text
  import opened SweepConfig
  import Sorting

  datatype Subscriber = Subscriber(
    workloadId: Option<string>, epochId: string, retired: bool, nightly: bool, urgency: real, tier: int, queues: bool)

  /** Everything one scheduling decision depends on. */
  datatype Setting = Setting(subscribers: seq<Subscriber>, mode: Mode, precedence: seq<string>)

  function IndexOf(s: seq<string>, x: string): nat { if s == [] || s[0] == x then 0 else 1 + IndexOf(s[1..], x) }

  /** Place of the subscriber's epoch; epochs that are not listed come last. */
  function Rank(g: Setting, i: nat): nat
    requires i < |g.subscribers|
  {
    IndexOf(g.precedence, g.subscribers[i].epochId)
  }

  predicate Allowed(g: Setting, i: nat)
    requires i < |g.subscribers|
  {
    var s := g.subscribers[i];
    s.workloadId == None || s.workloadId.value == "" || IsAllowed(g.mode, s.workloadId.value, s.epochId)
  }

  /** Neither retired nor paused nor out of focus. */
  predicate Eligible(g: Setting, i: nat) {
    i < |g.subscribers|
    && var s := g.subscribers[i];
       !s.retired
       && (s.workloadId != None && s.workloadId.value != "" ==> IsAllowed(g.mode, s.workloadId.value, s.epochId))
  }

  type Order = (nat, nat) -> bool

  function ByEpoch(g: Setting): Order {
    (i: nat, j: nat) =>
      if i < |g.subscribers| then (if j < |g.subscribers| then Rank(g, i) <= Rank(g, j) else true)
      else j >= |g.subscribers|
  }

  function ByUrgency(g: Setting): Order {
    (i: nat, j: nat) =>
      if i < |g.subscribers| then
        if j < |g.subscribers| then
          var s, t := g.subscribers[i], g.subscribers[j];
          s.tier < t.tier || (s.tier == t.tier && s.urgency >= t.urgency)
        else true
      else j >= |g.subscribers|
  }

  function Indices(n: nat): seq<nat> { seq(n, i => i) }

  function Filter(s: seq<nat>, keep: nat -> bool): seq<nat> {
    if s == [] then [] else (if keep(s[0]) then [s[0]] else []) + Filter(s[1..], keep)
  }

  function Unretired(g: Setting): nat -> bool { (i: nat) => i < |g.subscribers| && !g.subscribers[i].retired }

  function Permitted(g: Setting): nat -> bool { (i: nat) => i < |g.subscribers| && Allowed(g, i) }

  function PermittedNightly(g: Setting): nat -> bool {
    (i: nat) => i < |g.subscribers| && Allowed(g, i) && g.subscribers[i].nightly
  }

  /** `_epoch_ordered_subscribers` without the retired ones. */
  function Ordered(g: Setting): seq<nat> {
    Filter(Sorting.SortBy(ByEpoch(g), Indices(|g.subscribers|)), Unretired(g))
  }

  function Nightlies(g: Setting): seq<nat> {
    Filter(Ordered(g), PermittedNightly(g))
  }

  function Candidates(g: Setting): seq<nat> {
    Sorting.SortBy(ByUrgency(g), Filter(Ordered(g), Permitted(g)))
  }

  /** Who is asked, until the queue holds something. */
  function Asked(g: Setting, order: seq<nat>, pending: bool): seq<nat> {
    if order == [] then []
    else if pending || Queues(g, order[0]) then [order[0]]
    else [order[0]] + Asked(g, order[1..], pending)
  }

  predicate Queues(g: Setting, i: nat) { i < |g.subscribers| && g.subscribers[i].queues }

  predicate AnyQueues(g: Setting, order: seq<nat>) { exists k :: 0 <= k < |order| && Queues(g, order[k]) }

  /** Everyone asked in one decision. */
  function Decision(g: Setting, pending: bool): seq<nat> {
    var first := Asked(g, Nightlies(g), pending);
    if first != [] && (pending || AnyQueues(g, Nightlies(g))) then first
    else first + Asked(g, Candidates(g), pending)
  }

  // ----- the decision as the runner makes it -----

  class TaskRunner {
    const setting: Setting
    /** Whether the queue directory holds a loadable task. */
    var pending: bool
    /** Subscribers asked so far. */
    var asked: seq<nat>

    constructor (g: Setting, p: bool)
      ensures setting == g && pending == p && asked == []
    {
      setting, pending, asked := g, p, [];
    }

    method OnQueueEmpty(i: nat)
      requires i < |setting.subscribers|
      modifies this
      ensures asked == old(asked) + [i] && pending == (old(pending) || Queues(setting, i))
    {
      asked := asked + [i];
      if setting.subscribers[i].queues { pending := true; }
    }

    method ScheduleNext()
      modifies this
      ensures asked == old(asked) + Decision(setting, old(pending))
    {
      hide Filter, Sorting.SortBy, Asked, AnyQueues, Ordered;
      var g := setting;
      var ordered := Ordered(g);
      OrderedInRange(g);
      AskedPasses(g, Nightlies(g));
      var stop := NightlyPass(ordered);
      if stop { return; }
      var candidates := AllowedOf(g, ordered);
      candidates := Sorting.SortBy(ByUrgency(g), candidates);
      assert candidates == Candidates(g);
      CandidatesInRange(g);
      UrgencyPass(candidates);
    }

    static method AllowedOf(g: Setting, ordered: seq<nat>) returns (candidates: seq<nat>)
      requires forall k :: 0 <= k < |ordered| ==> ordered[k] < |g.subscribers|
      ensures candidates == Filter(ordered, Permitted(g))
    {
      candidates := [];
      for k := 0 to |ordered|
        invariant candidates + Filter(ordered[k..], Permitted(g)) == Filter(ordered, Permitted(g))
      {
        assert ordered[k..][1..] == ordered[k + 1..];
        if Allowed(g, ordered[k]) { candidates := candidates + [ordered[k]]; }
      }
      assert ordered[|ordered|..] == [];
    }

    /** Nightly work goes first; true when something is queued afterwards. */
    method NightlyPass(ordered: seq<nat>) returns (stop: bool)
      requires ordered == Ordered(setting) && forall k :: 0 <= k < |ordered| ==> ordered[k] < |setting.subscribers|
      modifies this
      ensures asked == old(asked) + Asked(setting, Nightlies(setting), old(pending))
      ensures stop == (Nightlies(setting) != [] && (old(pending) || AnyQueues(setting, Nightlies(setting))))
      ensures !stop ==> pending == old(pending)
    {
      hide Filter, Asked, AnyQueues, Ordered, Allowed;
      var g := setting;
      ghost var keep := PermittedNightly(g);
      ghost var before := pending;
      assert ordered[0..] == ordered;
      for k := 0 to |ordered|
        invariant asked + Asked(g, Filter(ordered[k..], keep), before) == old(asked) + Asked(g, Nightlies(g), before)
        invariant pending == before
        invariant AnyQueues(g, Filter(ordered[k..], keep)) == AnyQueues(g, Nightlies(g))
        invariant Nightlies(g) == [] ==> Filter(ordered[k..], keep) == []
        invariant pending && Filter(ordered[k..], keep) == [] ==> Nightlies(g) == []
      {
        FilterStep(ordered, k, keep);
        ghost var rest := Filter(ordered[k + 1..], keep);
        ghost var sofar := asked;
        if Allowed(g, ordered[k]) && g.subscribers[ordered[k]].nightly {
          AnyQueuesHead(g, ordered[k], rest);
          AskedHead(g, ordered[k], rest, before);
          OnQueueEmpty(ordered[k]);
          if pending { return true; }
          assert asked + Asked(g, rest, before) == sofar + ([ordered[k]] + Asked(g, rest, before));
        }
      }
      FilterEnd(ordered, keep);
      NobodyAsked(g, before);
      return false;
    }

    method UrgencyPass(candidates: seq<nat>)
      requires forall k :: 0 <= k < |candidates| ==> candidates[k] < |setting.subscribers|
      modifies this
      ensures asked == old(asked) + Asked(setting, candidates, old(pending))
    {
      ghost var before := pending;
      for k := 0 to |candidates|
        invariant asked + Asked(setting, candidates[k..], before) == old(asked) + Asked(setting, candidates, before)
        invariant pending == before
      {
        assert candidates[k..][1..] == candidates[k + 1..];
        OnQueueEmpty(candidates[k]);
        if pending { return; }
      }
    }
  }

  lemma AnyQueuesHead(g: Setting, i: nat, rest: seq<nat>)
    ensures AnyQueues(g, [i] + rest) == (Queues(g, i) || AnyQueues(g, rest))
  {
    var s := [i] + rest;
    assert s[0] == i;
    if k :| 0 <= k < |rest| && Queues(g, rest[k]) { assert s[k + 1] == rest[k]; }
    if k :| 0 <= k < |s| && Queues(g, s[k]) { if k > 0 { assert rest[k - 1] == s[k]; } }
  }

  lemma FilterStep(s: seq<nat>, k: nat, keep: nat -> bool)
    requires k < |s|
    ensures Filter(s[k..], keep) == if keep(s[k]) then [s[k]] + Filter(s[k + 1..], keep) else Filter(s[k + 1..], keep)
  {
    assert s[k..][1..] == s[k + 1..];
    assert [] + Filter(s[k + 1..], keep) == Filter(s[k + 1..], keep);
  }

  lemma FilterEnd(s: seq<nat>, keep: nat -> bool)
    ensures Filter(s[|s|..], keep) == []
  {}

  lemma NobodyAsked(g: Setting, pending: bool)
    ensures Asked(g, [], pending) == [] && !AnyQueues(g, [])
  {}

  lemma AskedHead(g: Setting, i: nat, rest: seq<nat>, pending: bool)
    ensures Asked(g, [i] + rest, pending) == if pending || Queues(g, i) then [i] else [i] + Asked(g, rest, pending)
  {
    assert ([i] + rest)[1..] == rest;
  }

  lemma AskedPasses(g: Setting, order: seq<nat>)
    ensures forall pending :: Asked(g, order, pending) == [] <==> order == []
  {}

  // ----- the orders -----

  lemma {:induction false} FilterMembers(s: seq<nat>, keep: nat -> bool)
    ensures forall x :: x in Filter(s, keep) <==> x in s && keep(x)
  {
    if s != [] { FilterMembers(s[1..], keep); }
  }

  lemma {:induction false} FilterPairwise(s: seq<nat>, keep: nat -> bool, before: Order)
    requires Sorting.Pairwise(before, s)
    ensures Sorting.Pairwise(before, Filter(s, keep))
  {
    if s != [] {
      var rest := s[1..];
      assert Sorting.Pairwise(before, rest);
      FilterPairwise(rest, keep, before);
      FilterMembers(rest, keep);
      var f, t := Filter(rest, keep), Filter(s, keep);
      if keep(s[0]) {
        assert t == [s[0]] + f;
        forall i, j | 0 <= i < j < |t| ensures before(t[i], t[j]) {
          assert t[j] == f[j - 1] && f[j - 1] in f;
          if i == 0 {
            var k :| 0 <= k < |rest| && rest[k] == t[j];
            assert s[k + 1] == t[j];
          } else {
            assert t[i] == f[i - 1];
          }
        }
      }
    }
  }

  function Earlier(): Order { (i: nat, j: nat) => i < j }

  /** Where the epoch is first listed. */
  ghost predicate ListedAt(g: Setting, epoch: string, k: nat) {
    k < |g.precedence| && g.precedence[k] == epoch && forall m :: 0 <= m < k ==> g.precedence[m] != epoch
  }

  /** The one is listed, and the other further down or not at all. */
  ghost predicate EarlierEpoch(g: Setting, epoch: string, other: string) {
    exists k :: ListedAt(g, epoch, k) && forall l :: 0 <= l <= k ==> g.precedence[l] != other
  }

  ghost predicate SamePlace(g: Setting, epoch: string, other: string) {
    epoch == other || (epoch !in g.precedence && other !in g.precedence)
  }

  lemma {:induction false} PlaceInList(s: seq<string>, x: string)
    ensures forall k :: 0 <= k < IndexOf(s, x) && k < |s| ==> s[k] != x
    ensures if x in s then IndexOf(s, x) < |s| && s[IndexOf(s, x)] == x else IndexOf(s, x) == |s|
  {
    if s != [] && s[0] != x { PlaceInList(s[1..], x); }
  }

  /** The rank orders epochs as the precedence lists them: listed before unlisted, and by first place. */
  lemma RankIsPlace(g: Setting, i: nat, j: nat)
    requires i < |g.subscribers| && j < |g.subscribers|
    ensures var e, f := g.subscribers[i].epochId, g.subscribers[j].epochId;
      (Rank(g, i) < Rank(g, j) <==> EarlierEpoch(g, e, f)) && (Rank(g, i) == Rank(g, j) <==> SamePlace(g, e, f))
  {
    var e, f := g.subscribers[i].epochId, g.subscribers[j].epochId;
    PlaceInList(g.precedence, e);
    PlaceInList(g.precedence, f);
    if Rank(g, i) < Rank(g, j) { assert ListedAt(g, e, Rank(g, i)); }
    if k :| ListedAt(g, e, k) && forall l :: 0 <= l <= k ==> g.precedence[l] != f {
      assert k == Rank(g, i);
    }
  }

  /** An earlier epoch, or the same and registered earlier. */
  ghost predicate Precedes(g: Setting, i: nat, j: nat) {
    i < |g.subscribers| && j < |g.subscribers|
    && var e, f := g.subscribers[i].epochId, g.subscribers[j].epochId;
       EarlierEpoch(g, e, f) || (SamePlace(g, e, f) && i < j)
  }

  /** A smaller tier; or the same and more urgent; or both the same and earlier by epoch and registration. */
  ghost predicate GoesBefore(g: Setting, i: nat, j: nat) {
    i < |g.subscribers| && j < |g.subscribers|
    && var s, t := g.subscribers[i], g.subscribers[j];
       s.tier < t.tier
       || (s.tier == t.tier && (s.urgency > t.urgency || (s.urgency == t.urgency && Precedes(g, i, j))))
  }

  ghost function EpochThenIndex(g: Setting): Order { (i: nat, j: nat) => Precedes(g, i, j) }

  ghost function FullOrder(g: Setting): Order { (i: nat, j: nat) => GoesBefore(g, i, j) }

  /** What a stable sort by epoch leaves of the registration order. */
  lemma EpochTies(g: Setting, i: nat, j: nat)
    requires i < |g.subscribers| && j < |g.subscribers|
    requires ByEpoch(g)(i, j) && (ByEpoch(g)(j, i) ==> i < j)
    ensures Precedes(g, i, j)
  {
    RankIsPlace(g, i, j);
  }

  lemma UrgencyTies(g: Setting, i: nat, j: nat)
    requires i < |g.subscribers| && j < |g.subscribers|
    requires ByUrgency(g)(i, j) && (ByUrgency(g)(j, i) ==> Precedes(g, i, j))
    ensures GoesBefore(g, i, j)
  {}

  lemma OrdersAreTotal(g: Setting)
    ensures Sorting.TotalPreorder(ByEpoch(g)) && Sorting.TotalPreorder(ByUrgency(g))
  {}

  lemma OrderedFacts(g: Setting)
    ensures Sorting.Pairwise(EpochThenIndex(g), Ordered(g))
    ensures forall i: nat :: i in Ordered(g) <==> i < |g.subscribers| && !g.subscribers[i].retired
  {
    var all := Indices(|g.subscribers|);
    OrdersAreTotal(g);
    assert Sorting.Pairwise(Earlier(), all);
    Sorting.StableSort(ByEpoch(g), Earlier(), all);
    var sorted := Sorting.SortBy(ByEpoch(g), all);
    Sorting.SameMembers(sorted, all);
    forall i: nat ensures i in all <==> i < |g.subscribers| {
      if i < |g.subscribers| { assert all[i] == i; }
    }
    forall i, j | 0 <= i < j < |sorted| ensures Precedes(g, sorted[i], sorted[j]) {
      assert sorted[i] in sorted && sorted[j] in sorted;
      EpochTies(g, sorted[i], sorted[j]);
    }
    var keep := Unretired(g);
    FilterPairwise(sorted, keep, EpochThenIndex(g));
    FilterMembers(sorted, keep);
  }

  lemma OrderedInRange(g: Setting)
    ensures forall k :: 0 <= k < |Ordered(g)| ==> Ordered(g)[k] < |g.subscribers|
  {
    OrderedFacts(g);
    forall k | 0 <= k < |Ordered(g)| ensures Ordered(g)[k] < |g.subscribers| { assert Ordered(g)[k] in Ordered(g); }
  }

  lemma NightlyFacts(g: Setting)
    ensures Sorting.Pairwise(EpochThenIndex(g), Nightlies(g))
    ensures forall i: nat :: i in Nightlies(g) <==> Eligible(g, i) && g.subscribers[i].nightly
  {
    OrderedFacts(g);
    var keep := PermittedNightly(g);
    FilterPairwise(Ordered(g), keep, EpochThenIndex(g));
    FilterMembers(Ordered(g), keep);
  }

  lemma CandidateFacts(g: Setting)
    ensures Sorting.Pairwise(FullOrder(g), Candidates(g))
    ensures forall i: nat :: i in Candidates(g) <==> Eligible(g, i)
  {
    OrderedFacts(g);
    OrdersAreTotal(g);
    var keep := Permitted(g);
    var kept := Filter(Ordered(g), keep);
    FilterPairwise(Ordered(g), keep, EpochThenIndex(g));
    FilterMembers(Ordered(g), keep);
    Sorting.StableSort(ByUrgency(g), EpochThenIndex(g), kept);
    Sorting.SameMembers(Candidates(g), kept);
    var all := Candidates(g);
    forall i, j | 0 <= i < j < |all| ensures GoesBefore(g, all[i], all[j]) {
      assert all[i] in all && all[j] in all;
      UrgencyTies(g, all[i], all[j]);
    }
  }

  lemma CandidatesInRange(g: Setting)
    ensures forall k :: 0 <= k < |Candidates(g)| ==> Candidates(g)[k] < |g.subscribers|
  {
    CandidateFacts(g);
    forall k | 0 <= k < |Candidates(g)| ensures Candidates(g)[k] < |g.subscribers| {
      assert Candidates(g)[k] in Candidates(g);
    }
  }

  // ----- who queues -----

  /** From an empty queue: everyone before the last one asked queues nothing, and that one is the first who does. */
  lemma {:induction false} AskedStopsAtFirst(g: Setting, order: seq<nat>)
    ensures Asked(g, order, false) <= order
    ensures AnyQueues(g, order) ==> Asked(g, order, false) != []
    ensures AnyQueues(g, order) ==> Queues(g, Asked(g, order, false)[|Asked(g, order, false)| - 1])
    ensures forall k :: 0 <= k < |Asked(g, order, false)| - 1 ==> !Queues(g, order[k])
    ensures !AnyQueues(g, order) ==> Asked(g, order, false) == order
  {
    if order != [] {
      var rest := order[1..];
      assert order == [order[0]] + rest;
      AnyQueuesHead(g, order[0], rest);
      if !Queues(g, order[0]) {
        AskedStopsAtFirst(g, rest);
        var a := Asked(g, rest, false);
        assert Asked(g, order, false) == [order[0]] + a;
        assert forall k :: 0 <= k < |rest| ==> rest[k] == order[k + 1];
      }
    }
  }

  /** `w` queues, and stands before everyone else in `who` that queues. */
  ghost predicate Wins(g: Setting, w: nat, who: nat -> bool, before: Order) {
    who(w) && Queues(g, w) && forall i: nat :: who(i) && Queues(g, i) && i != w ==> before(w, i)
  }

  lemma FirstWins(g: Setting, order: seq<nat>, who: nat -> bool, before: Order)
    requires Sorting.Pairwise(before, order) && AnyQueues(g, order)
    requires forall i: nat :: i in order <==> who(i)
    ensures Asked(g, order, false) != []
    ensures Wins(g, Asked(g, order, false)[|Asked(g, order, false)| - 1], who, before)
  {
    AskedStopsAtFirst(g, order);
    var a := Asked(g, order, false);
    var w := a[|a| - 1];
    assert order[|a| - 1] == w && w in order;
    forall i: nat | who(i) && Queues(g, i) && i != w ensures before(w, i) {
      assert i in order;
      var k :| 0 <= k < |order| && order[k] == i;
      assert k > |a| - 1;
    }
  }

  /** From an empty queue, the decision ends with the first eligible nightly series in epoch order that really queues;
      else with the eligible series that queues and is least by tier, urgency, epoch and registration; else nobody
      queues. */
  lemma DecisionPicksTheRightSeries(g: Setting)
    ensures var d := Decision(g, false);
      var nightly := (i: nat) => Eligible(g, i) && g.subscribers[i].nightly;
      var anyone := (i: nat) => Eligible(g, i);
      if exists i: nat :: nightly(i) && Queues(g, i) then
        d != [] && Wins(g, d[|d| - 1], nightly, EpochThenIndex(g))
      else if exists i: nat :: anyone(i) && Queues(g, i) then
        d != [] && Wins(g, d[|d| - 1], anyone, FullOrder(g))
      else forall k :: 0 <= k < |d| ==> !Queues(g, d[k])
  {
    var d := Decision(g, false);
    var nightly := (i: nat) => Eligible(g, i) && g.subscribers[i].nightly;
    var anyone := (i: nat) => Eligible(g, i);
    NightlyFacts(g);
    CandidateFacts(g);
    AskedPasses(g, Nightlies(g));
    AskedStopsAtFirst(g, Nightlies(g));
    AskedStopsAtFirst(g, Candidates(g));
    QueuersListed(g, Nightlies(g), nightly);
    QueuersListed(g, Candidates(g), anyone);
    if exists i: nat :: nightly(i) && Queues(g, i) {
      FirstWins(g, Nightlies(g), nightly, EpochThenIndex(g));
    } else if exists i: nat :: anyone(i) && Queues(g, i) {
      FirstWins(g, Candidates(g), anyone, FullOrder(g));
    } else {
      forall k | 0 <= k < |d| ensures !Queues(g, d[k]) {
        assert d[k] in Nightlies(g) || d[k] in Candidates(g);
      }
    }
  }

  lemma QueuersListed(g: Setting, order: seq<nat>, who: nat -> bool)
    requires forall i: nat :: i in order <==> who(i)
    ensures AnyQueues(g, order) <==> exists i: nat :: who(i) && Queues(g, i)
  {
    if k :| 0 <= k < |order| && Queues(g, order[k]) { assert order[k] in order; }
    if i: nat :| who(i) && Queues(g, i) {
      assert i in order;
      var k :| 0 <= k < |order| && order[k] == i;
    }
  }

  /** A retired, paused or unfocused series is never even asked; a pending task stops after the first one asked. */
  lemma OnlyEligibleAreAsked(g: Setting, pending: bool, i: nat)
    requires i in Decision(g, pending)
    ensures Eligible(g, i)
    ensures pending ==> |Decision(g, pending)| == 1
  {
    NightlyFacts(g);
    CandidateFacts(g);
    AskedMembers(g, Nightlies(g), pending);
    AskedMembers(g, Candidates(g), pending);
  }

  lemma {:induction false} AskedMembers(g: Setting, order: seq<nat>, pending: bool)
    ensures forall i :: i in Asked(g, order, pending) ==> i in order
    ensures pending ==> |Asked(g, order, pending)| <= 1
  {
    if order != [] { AskedMembers(g, order[1..], pending); }
  }
}
