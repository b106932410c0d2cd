/** Reserving management CPUs, and whom it moves. */
module Reservation {
  import opened Text
  import opened CpuSets
  import opened CpuPlacement
  import opened CpuAllocator

  const MANAGEMENT_PURPOSE := "monitoring"

  function NodeIds(numa: seq<Group>): set<int> { set g | g in numa :: g.id }

  /** The node management CPUs come from: the last node that is not the network's, or any. */
  function ManagementNode(h: Host, netNode: Option<int>): Option<int> {
    var others := Ascending(set n | n in NodeIds(h.numa) && Some(n) != netNode);
    if others == [] then None else Some(others[|others| - 1])
  }

  /** `allocate_management_cpus`: the highest-numbered free CPUs of that node. */
  function ManagementRequest(h: Host, taskId: string, count: int, netNode: Option<int>): Request {
    Request(Tag("runner_" + taskId, MANAGEMENT_PURPOSE), count, ManagementNode(h, netNode), [], false, false, true)
  }

  /** `_allocate_server_cpus`: the lowest-numbered free CPUs of the network's node. */
  function ServerRequest(tag: Tag, count: int, netNode: Option<int>): Request {
    Request(tag, count, netNode, [], false, false, false)
  }

  /** The same host but for the reservation. */
  ghost predicate SameButFor(h: Host, r: Host, tag: Tag) {
    && r.all == h.all && r.numa == h.numa && r.l3 == h.l3
    && tag in r.allocations && tag !in h.allocations
    && r.allocations == h.allocations[tag := r.allocations[tag]]
  }

  lemma ReservedIsTheDifference(h: Host, r: Host, tag: Tag)
    requires Inv(h) && Inv(r) && SameButFor(h, r, tag)
    ensures Free(h) == Free(r) + SetOf(r.allocations[tag])
    ensures Free(r) !! SetOf(r.allocations[tag])
  {
    GrantTakes(h, tag, r.allocations[tag]);
    assert Taken(r.allocations) == Taken(h.allocations) + SetOf(r.allocations[tag]);
    forall c | c in SetOf(r.allocations[tag]) ensures c !in Taken(h.allocations) {
      forall t | t in h.allocations ensures c !in h.allocations[t] {
        assert t in r.allocations && t != tag && r.allocations[t] == h.allocations[t];
        assert SetOf(r.allocations[t]) !! SetOf(r.allocations[tag]);
        assert c !in SetOf(h.allocations[t]);
      }
    }
  }

  /** The node is the highest-numbered one that is not the network's; without one, any will do. */
  lemma ManagementNodeIsHighest(h: Host, netNode: Option<int>)
    ensures var n := ManagementNode(h, netNode);
      && (n == None <==> forall id :: id in NodeIds(h.numa) ==> Some(id) == netNode)
      && (n.Some? ==> n.value in NodeIds(h.numa) && n != netNode
                      && forall id :: id in NodeIds(h.numa) && Some(id) != netNode ==> id <= n.value)
  {
    hide Ascending;
    var s := set n | n in NodeIds(h.numa) && Some(n) != netNode;
    AscendingFacts(s);
    var others := Ascending(s);
    assert forall id :: id in NodeIds(h.numa) && Some(id) != netNode ==> id in s;
    forall id | id in s ensures others != [] && id <= others[|others| - 1] {
      assert id in SetOf(others);
      var k :| 0 <= k < |others| && others[k] == id;
    }
    if others != [] { assert others[|others| - 1] in SetOf(others); }
  }

  /** Management CPUs are the highest-numbered free ones there. */
  lemma ManagementTakesHighest(h: Host, taskId: string, count: int, netNode: Option<int>, x: int, y: int)
    requires count >= 1 && Topology(h)
    requires var req := ManagementRequest(h, taskId, count, netNode);
      Choose(h, req).Granted? && x in Choose(h, req).cpus && y !in Choose(h, req).cpus
    requires y in Pool(h, ManagementNode(h, netNode))
    ensures y < x
  {
    hide Pool, Simple;
    SimpleIsByNumber(Pool(h, ManagementNode(h, netNode)), ManagementRequest(h, taskId, count, netNode), x, y);
  }

  // ----- hosts with a node of their own for management -----

  ghost predicate NodesDisjoint(h: Host) { Disjoint(h.numa) }

  lemma {:induction false} NodeCpusOf(numa: seq<Group>, id: int)
    ensures NodeCpus(numa, id).Some? <==> id in NodeIds(numa)
    ensures NodeCpus(numa, id).Some? ==> exists i :: 0 <= i < |numa| && numa[i] == Group(id, NodeCpus(numa, id).value)
  {
    if numa != [] {
      NodeCpusOf(numa[1..], id);
      assert forall g :: g in numa <==> g == numa[0] || g in numa[1..];
      if numa[0].id != id && NodeCpus(numa, id).Some? {
        var i :| 0 <= i < |numa[1..]| && numa[1..][i] == Group(id, NodeCpus(numa, id).value);
        assert numa[i + 1] == Group(id, NodeCpus(numa, id).value);
      }
    }
  }

  /** With the reservation on another node, every request for the network's node, of servers and generators alike,
      is answered as if there were no reservation. */
  lemma OtherNodeRequestUnmoved(h: Host, r: Host, tag: Tag, req: Request, net: int, other: int)
    requires Inv(h) && Inv(r) && SameButFor(h, r, tag) && NodesDisjoint(h)
    requires NodeCpus(h.numa, net).Some? && NodeCpus(h.numa, other).Some? && net != other
    requires SetOf(r.allocations[tag]) <= NodeCpus(h.numa, other).value
    requires req.tag != tag && tag !in req.avoidTags && req.requireNuma == Some(net)
    ensures Choose(h, req) == Choose(r, req)
    ensures SameButFor(Grant(h, req), Grant(r, req), tag)
    ensures Grant(r, req).allocations[tag] == r.allocations[tag]
  {
    hide Choose, Free, Pool, Avoided;
    ReservedIsTheDifference(h, r, tag);
    NodesApart(h, net, other);
    SamePool(h, r, tag, net, other);
    SameAvoided(h, r, tag, req);
    SameChoice(h, r, req);
    GrantBoth(h, r, tag, req);
  }

  lemma NodesApart(h: Host, net: int, other: int)
    requires NodesDisjoint(h) && NodeCpus(h.numa, net).Some? && NodeCpus(h.numa, other).Some? && net != other
    ensures NodeCpus(h.numa, net).value !! NodeCpus(h.numa, other).value
  {
    NodeCpusOf(h.numa, net);
    NodeCpusOf(h.numa, other);
  }

  lemma SamePool(h: Host, r: Host, tag: Tag, net: int, other: int)
    requires SameButFor(h, r, tag) && Free(h) == Free(r) + SetOf(r.allocations[tag])
    requires NodeCpus(h.numa, net).Some? && NodeCpus(h.numa, other).Some?
    requires NodeCpus(h.numa, net).value !! NodeCpus(h.numa, other).value
    requires SetOf(r.allocations[tag]) <= NodeCpus(h.numa, other).value
    ensures Pool(h, Some(net)) == Pool(r, Some(net))
  {
    hide Free;
  }

  lemma SameAvoided(h: Host, r: Host, tag: Tag, req: Request)
    requires SameButFor(h, r, tag) && tag !in req.avoidTags
    ensures Avoided(h, req) == Avoided(r, req)
  {
    forall t | t in req.avoidTags ensures t in h.allocations <==> t in r.allocations { }
  }

  lemma GrantBoth(h: Host, r: Host, tag: Tag, req: Request)
    requires SameButFor(h, r, tag) && req.tag != tag && Choose(h, req) == Choose(r, req)
    ensures SameButFor(Grant(h, req), Grant(r, req), tag)
    ensures Grant(r, req).allocations[tag] == r.allocations[tag]
  {
    hide Choose;
    if Choose(h, req).Granted? {
      assert Grant(r, req).allocations == Grant(h, req).allocations[tag := r.allocations[tag]];
    }
  }

  lemma SameChoice(h: Host, r: Host, req: Request)
    requires r.numa == h.numa && r.l3 == h.l3 && (req.tag in h.allocations <==> req.tag in r.allocations)
    requires Pool(h, req.requireNuma) == Pool(r, req.requireNuma) && Avoided(h, req) == Avoided(r, req)
    ensures Choose(h, req) == Choose(r, req)
  {
    hide SingleCache, CacheAware, Simple, Pool, Avoided;
  }

  ghost predicate OnNode(ops: seq<Op>, tag: Tag, net: int) {
    forall i :: 0 <= i < |ops| ==>
      match ops[i]
      case Allocate(req) => req.tag != tag && tag !in req.avoidTags && req.requireNuma == Some(net)
      case Release(t) => t != tag
  }

  /** What every call of a history gets. */
  function Answers(h: Host, ops: seq<Op>): seq<Outcome>
    decreases |ops|
  {
    if ops == [] then []
    else
      [match ops[0] case Allocate(req) => Choose(h, req) case Release(_) => Granted([])]
      + Answers(Apply(h, ops[0]), ops[1..])
  }

  lemma DropBoth(h: Host, r: Host, tag: Tag, t: Tag)
    requires SameButFor(h, r, tag) && t != tag
    ensures SameButFor(Drop(h, t), Drop(r, t), tag) && Drop(r, t).allocations[tag] == r.allocations[tag]
  {
    assert r.allocations - {t} == (h.allocations - {t})[tag := r.allocations[tag]];
  }

  lemma {:induction false} OtherNodeMovesNobody(h: Host, r: Host, tag: Tag, ops: seq<Op>, net: int, other: int)
    requires Inv(h) && Inv(r) && SameButFor(h, r, tag) && NodesDisjoint(h)
    requires NodeCpus(h.numa, net).Some? && NodeCpus(h.numa, other).Some? && net != other
    requires SetOf(r.allocations[tag]) <= NodeCpus(h.numa, other).value
    requires OnNode(ops, tag, net)
    ensures Answers(h, ops) == Answers(r, ops)
    decreases |ops|
  {
    if ops != [] {
      match ops[0] {
        case Allocate(req) =>
          OtherNodeRequestUnmoved(h, r, tag, req, net, other);
          GrantKeepsInv(h, req);
          GrantKeepsInv(r, req);
        case Release(t) =>
          DropBoth(h, r, tag, t);
          DropKeepsInv(h, t);
          DropKeepsInv(r, t);
      }
      OtherNodeMovesNobody(Apply(h, ops[0]), Apply(r, ops[0]), tag, ops[1..], net, other);
    }
  }

  lemma ReservationLandsElsewhere(h: Host, taskId: string, count: int, net: int)
    requires Inv(h) && NodesDisjoint(h)
    requires ManagementNode(h, Some(net)).Some?
    ensures var req := ManagementRequest(h, taskId, count, Some(net)); var other := ManagementNode(h, Some(net)).value;
      && other != net && NodeCpus(h.numa, other).Some?
      && (Choose(h, req).Granted? ==>
           SameButFor(h, Grant(h, req), req.tag) && SetOf(Choose(h, req).cpus) <= NodeCpus(h.numa, other).value)
  {
    var req := ManagementRequest(h, taskId, count, Some(net));
    var candidates := set n | n in NodeIds(h.numa) && Some(n) != Some(net);
    AscendingFacts(candidates);
    var others := Ascending(candidates);
    assert others[|others| - 1] in SetOf(others);
    NodeCpusOf(h.numa, others[|others| - 1]);
    if Choose(h, req).Granted? {
      ChoiceIsGood(h, req);
    }
  }

  /** On a host with a second node, management CPUs move neither servers nor generators, whatever is allocated
      on the network's node and released afterwards. */
  lemma SecondNodeReservationMovesNobody(h: Host, taskId: string, count: int, net: int, ops: seq<Op>)
    requires Inv(h) && NodesDisjoint(h) && NodeCpus(h.numa, net).Some? && ManagementNode(h, Some(net)).Some?
    requires var req := ManagementRequest(h, taskId, count, Some(net));
      Choose(h, req).Granted? && OnNode(ops, req.tag, net)
    ensures Answers(Grant(h, ManagementRequest(h, taskId, count, Some(net))), ops) == Answers(h, ops)
  {
    var req := ManagementRequest(h, taskId, count, Some(net));
    ReservationLandsElsewhere(h, taskId, count, net);
    GrantKeepsInv(h, req);
    OtherNodeMovesNobody(h, Grant(h, req), req.tag, ops, net, ManagementNode(h, Some(net)).value);
  }

  // ----- hosts with one node -----

  /** All free CPUs of the reserved host lie below the reserved ones. */
  ghost predicate Below(a: set<int>, b: set<int>) { forall x, y :: x in a && y in b ==> x < y }

  lemma AppendAscends(a: seq<int>, b: seq<int>)
    requires StrictlyAscending(a) && StrictlyAscending(b) && Below(SetOf(a), SetOf(b))
    ensures StrictlyAscending(a + b) && SetOf(a + b) == SetOf(a) + SetOf(b)
  {
    var s := a + b;
    forall i, j | 0 <= i < j < |s| ensures s[i] < s[j] {
      if i < |a| <= j {
        assert a[i] in SetOf(a) && b[j - |a|] in SetOf(b);
      }
    }
    forall x ensures x in SetOf(s) <==> x in SetOf(a) || x in SetOf(b) {
      assert x in s <==> x in a || x in b;
    }
  }

  lemma LowestStay(a: set<int>, b: set<int>, n: nat)
    requires Below(a, b) && n <= |a|
    ensures Slice(Ascending(a + b), n) == Slice(Ascending(a), n)
  {
    hide Ascending, StrictlyAscending, SetOf;
    AscendingFacts(a);
    AscendingFacts(b);
    AppendAscends(Ascending(a), Ascending(b));
    AscendingIsUnique(Ascending(a) + Ascending(b));
  }

  lemma {:induction false} HigherIsEarlier(a: seq<int>, i: nat, j: nat)
    requires StrictlyAscending(a) && i < |a| && j < |a|
    ensures a[i] < a[j] <==> i < j
  {}

  /** Taking the highest of a set leaves only lower ones. */
  lemma HighestLeaveBelow(s: set<int>, n: nat)
    requires n <= |s|
    ensures SetOf(Slice(Descending(s), n)) <= s
    ensures Below(s - SetOf(Slice(Descending(s), n)), SetOf(Slice(Descending(s), n)))
  {
    hide Ascending;
    AscendingFacts(s);
    DescendingFacts(s);
    var a, d := Ascending(s), Descending(s);
    var top := Slice(d, n);
    forall x | x in SetOf(top) ensures x in s { assert x in SetOf(d); }
    assert forall k :: 0 <= k < n ==> d[k] == top[k] && d[k] in SetOf(top);
    forall x, y | x in s - SetOf(top) && y in SetOf(top) ensures x < y {
      assert x in SetOf(d);
      var i :| 0 <= i < |d| && d[i] == x;
      var j :| 0 <= j < n && top[j] == y;
      HigherIsEarlier(a, |a| - 1 - i, |a| - 1 - j);
    }
  }

  /** Calls of servers after the reservation: allocations of their own and releases of those. */
  ghost predicate ServersOnly(ops: seq<Op>, mine: set<Tag>, tag: Tag, net: Option<int>)
    decreases |ops|
  {
    ops == [] ||
    match ops[0]
    case Allocate(req) =>
      && req == ServerRequest(req.tag, req.count, net) && req.count >= 0
      && req.tag != tag && req.tag.purpose != "irq"
      && ServersOnly(ops[1..], mine + {req.tag}, tag, net)
    case Release(t) => t in mine && t != tag && ServersOnly(ops[1..], mine, tag, net)
  }

  ghost predicate AllFit(h: Host, ops: seq<Op>)
    decreases |ops|
  {
    ops == [] || ((ops[0].Allocate? ==> Choose(h, ops[0].req).Granted?) && AllFit(Apply(h, ops[0]), ops[1..]))
  }

  /** With and without the reservation, in step. */
  ghost predicate InStep(h: Host, r: Host, tag: Tag, mine: set<Tag>, net: Option<int>) {
    && Inv(h) && Inv(r) && SameButFor(h, r, tag) && KnownNode(h, net)
    && Below(Free(r), SetOf(r.allocations[tag]))
    && (forall t :: t in mine && t in r.allocations && t != tag ==>
      Below(SetOf(r.allocations[t]), SetOf(r.allocations[tag])))
  }

  lemma ServerRequestUnmoved(h: Host, r: Host, tag: Tag, mine: set<Tag>, net: Option<int>, req: Request)
    requires InStep(h, r, tag, mine, net)
    requires req == ServerRequest(req.tag, req.count, net) && req.count >= 0 && req.tag != tag
      && req.tag.purpose != "irq"
    requires Choose(r, req).Granted?
    ensures Choose(h, req) == Choose(r, req)
    ensures InStep(Grant(h, req), Grant(r, req), tag, mine + {req.tag}, net)
  {
    hide Choose, Free, Pool, CacheChoice, Simple, Ascending;
    ReservedIsTheDifference(h, r, tag);
    LowPool(h, r, tag, net);
    ServerChoice(h, r, req, Pool(r, net), Pool(h, net) - Pool(r, net));
    GrantBoth(h, r, tag, req);
    GrantKeepsInv(h, req);
    GrantKeepsInv(r, req);
    ChoiceIsGood(r, req);
    PoolIsFree(r, net);
    assert Grant(r, req).allocations[req.tag] == Choose(r, req).cpus;
  }

  /** What the reservation keeps from the pool lies above what it leaves. */
  lemma LowPool(h: Host, r: Host, tag: Tag, net: Option<int>)
    requires SameButFor(h, r, tag) && Free(h) == Free(r) + SetOf(r.allocations[tag])
    requires Below(Free(r), SetOf(r.allocations[tag]))
    ensures Pool(r, net) <= Pool(h, net) && Below(Pool(r, net), Pool(h, net) - Pool(r, net))
    ensures KnownNode(h, net) == KnownNode(r, net)
  {
    hide Free;
  }

  lemma ServerChoice(h: Host, r: Host, req: Request, a: set<int>, b: set<int>)
    requires Topology(r) && req == ServerRequest(req.tag, req.count, req.requireNuma) && req.count >= 0
      && req.tag.purpose != "irq"
    requires a == Pool(r, req.requireNuma) && Pool(h, req.requireNuma) == a + b && Below(a, b)
    requires (req.tag in h.allocations <==> req.tag in r.allocations)
      && KnownNode(h, req.requireNuma) == KnownNode(r, req.requireNuma)
    requires Choose(r, req).Granted?
    ensures Choose(h, req) == Choose(r, req)
  {
    hide Pool, Ascending, KnownNode;
    assert CacheChoice(h, req) == None && CacheChoice(r, req) == None;
    LowestStay(a, b, req.count);
    FewerIn(a, a + b);
  }

  lemma ServerReleaseInStep(h: Host, r: Host, tag: Tag, mine: set<Tag>, net: Option<int>, t: Tag)
    requires InStep(h, r, tag, mine, net) && t in mine && t != tag
    ensures InStep(Drop(h, t), Drop(r, t), tag, mine, net)
  {
    DropBoth(h, r, tag, t);
    DropKeepsInv(h, t);
    DropKeepsInv(r, t);
  }

  lemma {:induction false} ServersStayPut(h: Host, r: Host, tag: Tag, mine: set<Tag>, net: Option<int>, ops: seq<Op>)
    requires InStep(h, r, tag, mine, net) && ServersOnly(ops, mine, tag, net) && AllFit(r, ops)
    ensures Answers(h, ops) == Answers(r, ops)
    decreases |ops|
  {
    if ops != [] {
      match ops[0] {
        case Allocate(req) =>
          ServerRequestUnmoved(h, r, tag, mine, net, req);
          ServersStayPut(Grant(h, req), Grant(r, req), tag, mine + {req.tag}, net, ops[1..]);
        case Release(t) =>
          ServerReleaseInStep(h, r, tag, mine, net, t);
          ServersStayPut(Drop(h, t), Drop(r, t), tag, mine, net, ops[1..]);
      }
    }
  }

  /** On a host without a second node, management CPUs move no server: as long as the servers fit and only what was
      allocated after the reservation is released, each gets the CPUs it would have had. */
  lemma SingleNodeReservationMovesNoServer(h: Host, taskId: string, count: int, net: Option<int>, ops: seq<Op>)
    requires Inv(h) && KnownNode(h, net) && ManagementNode(h, net) == None && count >= 0
    requires var req := ManagementRequest(h, taskId, count, net);
      && Choose(h, req).Granted?
      && ServersOnly(ops, {}, req.tag, net) && AllFit(Grant(h, req), ops)
    ensures Answers(Grant(h, ManagementRequest(h, taskId, count, net)), ops) == Answers(h, ops)
  {
    var req := ManagementRequest(h, taskId, count, net);
    var r := Grant(h, req);
    AllocateIsExact(h, req);
    assert CacheChoice(h, req) == None;
    assert Choose(h, req).cpus == Slice(Descending(Free(h)), count);
    HighestLeaveBelow(Free(h), count);
    GrantKeepsInv(h, req);
    ServersStayPut(h, r, req.tag, {}, net, ops);
  }
}
