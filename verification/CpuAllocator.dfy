/** The allocator: per-host allocations under tags, one call and whole histories of calls. */
module CpuAllocator {
  import opened Text
  import opened CpuSets
  import opened CpuPlacement
  import Sorting

  datatype Tag = Tag(taskId: string, purpose: string)

  datatype Host = Host(all: set<int>, numa: seq<Group>, l3: seq<Group>, allocations: map<Tag, seq<int>>)

  datatype Request = Request(
    tag: Tag, count: int, requireNuma: Option<int>, avoidTags: seq<Tag>,
    preferDifferentCache: bool, minimizeCacheGroups: bool, fromEnd: bool)

  /** The errors are the ValueErrors and the RuntimeError the allocator raises. */
  datatype Outcome = Granted(cpus: seq<int>) | NotRegistered | TagExists | NoSuchNode | Insufficient

  function Taken(allocations: map<Tag, seq<int>>): set<int> {
    set t, c | t in allocations && c in allocations[t] :: c
  }

  function Free(h: Host): set<int> { h.all - Taken(h.allocations) }

  function NodeCpus(numa: seq<Group>, id: int): Option<set<int>> {
    if numa == [] then None else if numa[0].id == id then Some(numa[0].cpus) else NodeCpus(numa[1..], id)
  }

  predicate KnownNode(h: Host, node: Option<int>) { node == None || NodeCpus(h.numa, node.value).Some? }

  /** Free CPUs of the required node, or of the host. */
  function Pool(h: Host, node: Option<int>): set<int> {
    if node.Some? && NodeCpus(h.numa, node.value).Some? then Free(h) * NodeCpus(h.numa, node.value).value else Free(h)
  }

  function Avoided(h: Host, req: Request): set<int> {
    if req.preferDifferentCache then
      set t, c | t in req.avoidTags && t in h.allocations && c in h.allocations[t] :: c
    else {}
  }

  function Descending(s: set<int>): seq<int> {
    var a := Ascending(s);
    seq(|a|, i requires 0 <= i < |a| => a[|a| - 1 - i])
  }

  function Simple(pool: set<int>, req: Request): seq<int> {
    Slice(if req.tag.purpose == "irq" || req.fromEnd then Descending(pool) else Ascending(pool), req.count)
  }

  /** The chain of cache-aware placements, on given free CPUs. */
  function PlacedIn(h: Host, req: Request, pool: set<int>, avoid: set<int>): Option<seq<int>> {
    var packed := if req.minimizeCacheGroups then SingleCache(h.l3, pool, avoid, req.count) else None;
    if packed == None && req.preferDifferentCache && avoid != {} then
      CacheAware(h.numa, h.l3, pool, avoid, req.count, req.requireNuma == None)
    else packed
  }

  function CacheChoice(h: Host, req: Request): Option<seq<int>> {
    PlacedIn(h, req, Pool(h, req.requireNuma), Avoided(h, req))
  }

  function Choose(h: Host, req: Request): Outcome {
    if req.tag in h.allocations then TagExists
    else if !KnownNode(h, req.requireNuma) then NoSuchNode
    else
      match CacheChoice(h, req)
      case Some(cpus) => Granted(cpus)
      case None =>
        if |Pool(h, req.requireNuma)| < req.count then Insufficient
        else Granted(Simple(Pool(h, req.requireNuma), req))
  }

  function Grant(h: Host, req: Request): Host {
    match Choose(h, req)
    case Granted(cpus) => h.(allocations := h.allocations[req.tag := cpus])
    case _ => h
  }

  function Drop(h: Host, tag: Tag): Host { h.(allocations := h.allocations - {tag}) }

  ghost predicate Topology(h: Host) { Disjoint(h.l3) }

  /** Nobody holds a CPU twice, and nobody holds a CPU somebody else holds or the host does not have. */
  ghost predicate Inv(h: Host) {
    && Topology(h)
    && (forall t :: t in h.allocations ==> Sorting.Distinct(h.allocations[t]) && SetOf(h.allocations[t]) <= h.all)
    && (forall t, u :: t in h.allocations && u in h.allocations && t != u ==>
          SetOf(h.allocations[t]) !! SetOf(h.allocations[u]))
  }

  lemma NoGroupsNoChoice(available: set<int>, avoid: set<int>, count: int)
    ensures SingleCache([], available, avoid, count) == None
  {}

  // ----- the class -----

  class CpuAllocator {
    var hosts: map<string, Host>

    constructor ()
      ensures hosts == map[]
    {
      hosts := map[];
    }

    /** On hosts whose cache groups are disjoint, as the host scan finds them, nobody holds a CPU twice. */
    ghost predicate Valid()
      reads this
    {
      forall ip :: ip in hosts ==> Topology(hosts[ip]) ==> Inv(hosts[ip])
    }

    /** No node map means one node with everything. */
    method RegisterHost(ip: string, all: set<int>, numa: seq<Group>, l3: seq<Group>)
      requires Valid()
      modifies this
      ensures Valid()
      ensures hosts == old(hosts)[ip := Host(all, if numa == [] then [Group(0, all)] else numa, l3, map[])]
    {
      hosts := hosts[ip := Host(all, if numa == [] then [Group(0, all)] else numa, l3, map[])];
    }

    method Allocate(ip: string, req: Request) returns (r: Outcome)
      requires Valid()
      modifies this
      ensures Valid()
      ensures ip !in old(hosts) ==> r == NotRegistered && hosts == old(hosts)
      ensures ip in old(hosts) ==>
        r == Choose(old(hosts)[ip], req) && hosts == old(hosts)[ip := Grant(old(hosts)[ip], req)]
    {
      if ip !in hosts { return NotRegistered; }
      var h := hosts[ip];
      if Topology(h) { GrantKeepsInv(h, req); }
      GrantKeepsTopology(h, req);
      r := ChooseCpus(h, req);
      if r.Granted? {
        hosts := hosts[ip := h.(allocations := h.allocations[req.tag := r.cpus])];
      } else {
        assert hosts[ip := h] == hosts;
      }
    }

    /** The fallback chain: pack into few caches, keep away from the caches of others, else by number. */
    static method ChooseCpus(h: Host, req: Request) returns (r: Outcome)
      ensures r == Choose(h, req)
    {
      hide Sorting.SortBy, SingleCache, CacheAware, Simple, Ascending;
      if req.tag in h.allocations { return TagExists; }
      var available := Free(h);
      var avoid := Avoided(h, req);
      if req.requireNuma.Some? {
        var node := NodeCpus(h.numa, req.requireNuma.value);
        if node == None { return NoSuchNode; }
        available := available * node.value;
      }
      var chosen: Option<seq<int>> := None;
      NoGroupsNoChoice(available, avoid, req.count);
      if req.minimizeCacheGroups && h.l3 != [] {
        chosen := AllocateSingleCache(h.l3, available, avoid, req.count);
      }
      if chosen == None && req.preferDifferentCache && avoid != {} {
        chosen := AllocateCacheAware(h.numa, h.l3, available, avoid, req.count, req.requireNuma == None);
      }
      if chosen == None {
        if |available| < req.count { return Insufficient; }
        chosen := Some(Simple(available, req));
      }
      return Granted(chosen.value);
    }

    method Release(ip: string, tag: Tag) returns (cpus: seq<int>)
      requires Valid()
      modifies this
      ensures Valid()
      ensures cpus ==
        if ip in old(hosts) && tag in old(hosts)[ip].allocations then old(hosts)[ip].allocations[tag] else []
      ensures hosts == if ip in old(hosts) then old(hosts)[ip := Drop(old(hosts)[ip], tag)] else old(hosts)
    {
      if ip !in hosts { return []; }
      if Topology(hosts[ip]) { DropKeepsInv(hosts[ip], tag); }
      if tag !in hosts[ip].allocations {
        assert hosts[ip].allocations - {tag} == hosts[ip].allocations;
        return [];
      }
      cpus := hosts[ip].allocations[tag];
      hosts := hosts[ip := Drop(hosts[ip], tag)];
    }

    /** Free CPUs of a host, or of one node of it when the host knows that node. */
    method GetAvailableCount(ip: string, preferNuma: Option<int>) returns (n: nat)
      ensures n == if ip in hosts then |Pool(hosts[ip], preferNuma)| else 0
    {
      if ip !in hosts { return 0; }
      var h := hosts[ip];
      var available := Free(h);
      if preferNuma.Some? && NodeCpus(h.numa, preferNuma.value).Some? {
        available := available * NodeCpus(h.numa, preferNuma.value).value;
      }
      n := |available|;
    }
  }

  // ----- one call -----

  lemma GrantKeepsTopology(h: Host, req: Request)
    ensures Grant(h, req).l3 == h.l3
  {
    hide Choose;
  }

  lemma DescendingFacts(s: set<int>)
    ensures SetOf(Descending(s)) == s && |Descending(s)| == |s| && Sorting.Distinct(Descending(s))
  {
    AscendingFacts(s);
    var a, d := Ascending(s), Descending(s);
    forall x | x in SetOf(a) ensures x in SetOf(d) {
      var i :| 0 <= i < |a| && a[i] == x;
      assert d[|a| - 1 - i] == x;
    }
    forall x | x in SetOf(d) ensures x in SetOf(a) {
      var i :| 0 <= i < |d| && d[i] == x;
    }
  }

  lemma ChoiceIsGood(h: Host, req: Request)
    requires Topology(h) && Choose(h, req).Granted?
    ensures GoodChoice(Choose(h, req).cpus, Pool(h, req.requireNuma), req.count)
  {
    hide Sorting.SortBy, Pool, Avoided, SingleCache, CacheAware;
    var pool, avoid := Pool(h, req.requireNuma), Avoided(h, req);
    if req.minimizeCacheGroups && SingleCache(h.l3, pool, avoid, req.count).Some? {
      SingleCacheIsGood(h.l3, pool, avoid, req.count);
    } else if req.preferDifferentCache && avoid != {}
      && CacheAware(h.numa, h.l3, pool, avoid, req.count, req.requireNuma == None).Some? {
      CacheAwareIsGood(h.numa, h.l3, pool, avoid, req.count, req.requireNuma == None);
    } else {
      AscendingFacts(pool);
      DescendingFacts(pool);
      SliceIsGood(Ascending(pool), pool, req.count);
      SliceIsGood(Descending(pool), pool, req.count);
    }
  }

  /** Without a cache preference servers and generators get the lowest-numbered free CPUs, interrupts and callers that
      ask for the end the highest-numbered. */
  lemma SimpleIsByNumber(pool: set<int>, req: Request, x: int, y: int)
    requires 0 <= req.count <= |pool| && x in SetOf(Simple(pool, req)) && y in pool - SetOf(Simple(pool, req))
    ensures if req.tag.purpose == "irq" || req.fromEnd then y < x else x < y
  {
    hide Ascending;
    AscendingFacts(pool);
    DescendingFacts(pool);
    var a, d := Ascending(pool), Descending(pool);
    if req.tag.purpose == "irq" || req.fromEnd {
      var k, l := FrontFirst(d, req.count, x, y);
      assert d[k] == a[|a| - 1 - k] && d[l] == a[|a| - 1 - l];
    } else {
      var k, l := FrontFirst(a, req.count, x, y);
    }
  }

  lemma FrontFirst(s: seq<int>, n: nat, x: int, y: int) returns (k: nat, l: nat)
    requires n <= |s| && x in SetOf(Slice(s, n)) && y in SetOf(s) && y !in SetOf(Slice(s, n))
    ensures k < l < |s| && s[k] == x && s[l] == y
  {
    var r := Slice(s, n);
    k :| 0 <= k < |r| && r[k] == x;
    l :| 0 <= l < |s| && s[l] == y;
    assert forall m :: 0 <= m < n ==> s[m] == r[m] && s[m] in SetOf(r);
  }

  /** A fresh tag on a known node: granted exactly when the node has enough free CPUs, and then just as many. */
  lemma AllocateIsExact(h: Host, req: Request)
    requires Topology(h) && req.tag !in h.allocations && KnownNode(h, req.requireNuma) && req.count >= 0
    ensures Choose(h, req).Granted? <==> req.count <= |Pool(h, req.requireNuma)|
    ensures Choose(h, req).Granted? ==>
      |Choose(h, req).cpus| == req.count && Sorting.Distinct(Choose(h, req).cpus)
      && SetOf(Choose(h, req).cpus) <= Pool(h, req.requireNuma)
    ensures !Choose(h, req).Granted? ==> Choose(h, req) == Insufficient && Grant(h, req) == h
  {
    hide CacheChoice, Simple, Pool;
    if Choose(h, req).Granted? {
      ChoiceIsGood(h, req);
      DistinctCount(Choose(h, req).cpus);
      FewerIn(SetOf(Choose(h, req).cpus), Pool(h, req.requireNuma));
    }
  }

  lemma {:induction false} NodeIsListed(numa: seq<Group>, id: int)
    ensures NodeCpus(numa, id) == None <==> forall g :: g in numa ==> g.id != id
    ensures NodeCpus(numa, id).Some? ==> Group(id, NodeCpus(numa, id).value) in numa
  {
    if numa != [] {
      NodeIsListed(numa[1..], id);
      assert numa[0] in numa && forall g :: g in numa <==> g == numa[0] || g in numa[1..];
    }
  }

  /** What a request draws from: the CPUs of the host that nobody holds, on the node if one is required. */
  lemma PoolExactly(h: Host, node: Option<int>, x: int)
    requires KnownNode(h, node) && forall i, k :: 0 <= i < k < |h.numa| ==> h.numa[i].id != h.numa[k].id
    ensures x in Pool(h, node) <==>
      && x in h.all && (forall t :: t in h.allocations ==> x !in h.allocations[t])
      && (node.Some? ==> exists g :: g in h.numa && g.id == node.value && x in g.cpus)
  {
    if node.Some? {
      NodeIsListed(h.numa, node.value);
      var known := Group(node.value, NodeCpus(h.numa, node.value).value);
      forall g | g in h.numa && g.id == node.value ensures g == known {
        var i :| 0 <= i < |h.numa| && h.numa[i] == g;
        var k :| 0 <= k < |h.numa| && h.numa[k] == known;
      }
    }
  }

  /** A tag in use is refused, and then a node the host does not have; what is granted on a node lies on it. */
  lemma RefusalsAndNodes(h: Host, req: Request)
    requires Topology(h)
    ensures Choose(h, req) == TagExists <==> req.tag in h.allocations
    ensures Choose(h, req) == NoSuchNode <==>
      req.tag !in h.allocations && req.requireNuma.Some? && forall g :: g in h.numa ==> g.id != req.requireNuma.value
    ensures Choose(h, req).Granted? && req.requireNuma.Some? ==>
      exists g :: g in h.numa && g.id == req.requireNuma.value && SetOf(Choose(h, req).cpus) <= g.cpus
    ensures Choose(h, req) != NotRegistered && (!Choose(h, req).Granted? ==> Grant(h, req) == h)
  {
    hide CacheChoice, Simple, Free, NodeCpus;
    if req.requireNuma.Some? { NodeIsListed(h.numa, req.requireNuma.value); }
    if Choose(h, req).Granted? { ChoiceIsGood(h, req); }
  }

  lemma PoolIsFree(h: Host, node: Option<int>)
    ensures Pool(h, node) <= Free(h) <= h.all
    ensures forall t :: t in h.allocations ==> SetOf(h.allocations[t]) !! Pool(h, node)
  {
    forall t | t in h.allocations ensures SetOf(h.allocations[t]) !! Pool(h, node) {
      forall c | c in SetOf(h.allocations[t]) ensures c in Taken(h.allocations) { }
    }
  }

  lemma GrantKeepsInv(h: Host, req: Request)
    requires Inv(h)
    ensures Inv(Grant(h, req))
    ensures Choose(h, req).Granted? ==> Free(Grant(h, req)) == Free(h) - SetOf(Choose(h, req).cpus)
  {
    hide CacheChoice, Simple, Pool;
    if Choose(h, req).Granted? {
      ChoiceIsGood(h, req);
      PoolIsFree(h, req.requireNuma);
      assert req.tag !in h.allocations;
      GrantTakes(h, req.tag, Choose(h, req).cpus);
    }
  }

  lemma GrantTakes(h: Host, tag: Tag, cpus: seq<int>)
    requires tag !in h.allocations
    ensures Taken(h.allocations[tag := cpus]) == Taken(h.allocations) + SetOf(cpus)
  {
    var m := h.allocations[tag := cpus];
    forall c | c in Taken(h.allocations) ensures c in Taken(m) {
      var t :| t in h.allocations && c in h.allocations[t];
      assert t in m && c in m[t];
    }
    forall c | c in SetOf(cpus) ensures c in Taken(m) { assert tag in m && c in m[tag]; }
  }

  lemma DropKeepsInv(h: Host, tag: Tag)
    requires Inv(h)
    ensures Inv(Drop(h, tag))
    ensures tag in h.allocations ==> Free(Drop(h, tag)) == Free(h) + SetOf(h.allocations[tag])
    ensures tag !in h.allocations ==> Drop(h, tag) == h
  {
    var m := h.allocations - {tag};
    if tag in h.allocations {
      var cpus := h.allocations[tag];
      forall c | c in h.all ensures c in Taken(h.allocations) <==> c in Taken(m) || c in SetOf(cpus) {
        if c in Taken(h.allocations) && c !in SetOf(cpus) {
          var t :| t in h.allocations && c in h.allocations[t];
          assert t in m && c in m[t];
        }
        if c in SetOf(cpus) { assert c in h.allocations[tag]; }
      }
      forall c, t | c in SetOf(cpus) && t in m ensures c !in m[t] {
        assert SetOf(h.allocations[t]) !! SetOf(h.allocations[tag]);
        assert m[t] == h.allocations[t] && c !in SetOf(h.allocations[t]);
      }
    } else {
      assert m == h.allocations;
    }
  }

  // ----- whole histories -----

  datatype Op = Allocate(req: Request) | Release(tag: Tag)

  function Apply(h: Host, op: Op): Host {
    match op case Allocate(req) => Grant(h, req) case Release(tag) => Drop(h, tag)
  }

  function Run(h: Host, ops: seq<Op>): Host
    decreases |ops|
  {
    if ops == [] then h else Run(Apply(h, ops[0]), ops[1..])
  }

  /** Over any sequence of calls, allocations stay disjoint, duplicate-free and on the host, and free and allocated
      CPUs together are all of them. */
  lemma {:induction false} AllocationsStayDisjoint(h: Host, ops: seq<Op>)
    requires Inv(h)
    ensures var g := Run(h, ops);
      && Inv(g) && g.all == h.all
      && Free(g) !! Taken(g.allocations) && Free(g) + Taken(g.allocations) == h.all
      && |Free(g)| + |Taken(g.allocations)| == |h.all|
    decreases |ops|
  {
    if ops == [] {
      assert Taken(h.allocations) <= h.all by {
        forall c | c in Taken(h.allocations) ensures c in h.all {
          var t :| t in h.allocations && c in h.allocations[t];
          assert c in SetOf(h.allocations[t]);
        }
      }
      assert Free(h) + Taken(h.allocations) == h.all;
    } else {
      match ops[0] {
        case Allocate(req) => GrantKeepsInv(h, req);
        case Release(tag) => DropKeepsInv(h, tag);
      }
      AllocationsStayDisjoint(Apply(h, ops[0]), ops[1..]);
    }
  }
}
