/** Reserving, pinning and giving back the runner's own cores. */
module ManagementCores {
  import opened Text
  import opened CpuSets
  import opened CpuAllocator
  import opened Reservation
  import Cpulist

  /** Giving back what was just granted restores the host. */
  lemma GrantThenDrop(h: Host, req: Request)
    requires Choose(h, req).Granted?
    ensures Drop(Grant(h, req), req.tag) == h
  {
    hide CacheChoice, Simple, Pool;
    var cpus := Choose(h, req).cpus;
    assert h.allocations[req.tag := cpus] - {req.tag} == h.allocations;
  }

  lemma {:induction false} PrintedIsNotEmpty(cpus: seq<nat>)
    requires cpus != []
    ensures Cpulist.Format(cpus) != ""
  {
    Cpulist.RangesCover(cpus);
    Cpulist.RangeTextShape(Cpulist.RangesOf(cpus)[0]);
  }

  class ManagementCores {
    const allocator: CpuAllocator
    const ip: string
    const netNode: Option<int>
    const taskId: string
    const count: int
    /** The affinity mask before pinning. */
    var originalMask: Option<string>
    var cpulist: string

    constructor (a: CpuAllocator, host: string, net: Option<int>, task: string, n: int)
      ensures allocator == a && ip == host && netNode == net && taskId == task && count == n
      ensures originalMask == None && cpulist == ""
    {
      allocator, ip, netNode, taskId, count := a, host, net, task, n;
      originalMask, cpulist := None, "";
    }

    function Wanted(): Request
      reads allocator
      requires ip in allocator.hosts
    {
      ManagementRequest(allocator.hosts[ip], taskId, count, netNode)
    }

    /** CPU numbers and cache groups come from the host scan: natural, and disjoint. */
    ghost predicate Valid()
      reads this, allocator
    {
      allocator.Valid()
      && (ip in allocator.hosts ==>
            Topology(allocator.hosts[ip]) && forall c :: c in allocator.hosts[ip].all ==> c >= 0)
    }

    /** Reserves and pins; without a reservation, or when pinning fails, the runner stays unpinned and the
        allocator is as before. */
    method Acquire(mask: string, pins: bool) returns (list: string)
      requires Valid() && cpulist == ""
      modifies this, allocator
      ensures Valid() && list == cpulist
      ensures list == "" ==> allocator.hosts == old(allocator.hosts) && originalMask == old(originalMask)
      ensures list != "" <==>
        count >= 1 && pins && ip in old(allocator.hosts) && Choose(old(allocator.hosts)[ip], old(Wanted())).Granted?
      ensures list != "" ==>
        && originalMask == Some(mask)
        && allocator.hosts == old(allocator.hosts)[ip := Grant(old(allocator.hosts)[ip], old(Wanted()))]
        && Cpulist.Parsed(list).Some?
        && multiset(Cpulist.Parsed(list).value) == multiset(Choose(old(allocator.hosts)[ip], old(Wanted())).cpus)
    {
      hide Choose, ManagementNode, Cpulist.Parsed, Cpulist.Format;
      if count < 1 || ip !in allocator.hosts { return ""; }
      ghost var h := allocator.hosts[ip];
      var req := Wanted();
      var granted := allocator.Allocate(ip, req);
      if !granted.Granted? {
        NothingGranted(h, req);
        assert allocator.hosts == old(allocator.hosts);
        return "";
      }
      GrantIsNatural(h, req, count);
      var sorted := Cpulist.Sorted(granted.cpus);
      ghost var naturals := SortedNaturals(granted.cpus);
      list := Cpulist.FormatCpulist(sorted);
      PrintedIsNotEmpty(sorted);
      Cpulist.PrintedListsReadBack(sorted);
      if !pins {
        var _ := allocator.Release(ip, req.tag);
        GrantThenDrop(h, req);
        assert allocator.hosts == old(allocator.hosts);
        return "";
      }
      originalMask, cpulist := Some(mask), list;
    }

    /** Frees the cores; a second call changes nothing. */
    method Release()
      requires Valid()
      modifies this, allocator
      ensures Valid() && cpulist == "" && originalMask == None
      ensures allocator.hosts ==
        if old(cpulist) != "" && ip in old(allocator.hosts)
        then old(allocator.hosts)[ip := Drop(old(allocator.hosts)[ip], Tag("runner_" + taskId, MANAGEMENT_PURPOSE))]
        else old(allocator.hosts)
    {
      originalMask := None;
      if cpulist != "" {
        var _ := allocator.Release(ip, Tag("runner_" + taskId, MANAGEMENT_PURPOSE));
        cpulist := "";
      }
    }
  }

  lemma NothingGranted(h: Host, req: Request)
    requires !Choose(h, req).Granted?
    ensures Grant(h, req) == h
  {
    hide Choose;
  }

  lemma GrantIsNatural(h: Host, req: Request, count: int)
    requires Inv(h) && Choose(h, req).Granted? && req.count == count >= 1 && forall c :: c in h.all ==> c >= 0
    ensures Choose(h, req).cpus != [] && forall c :: c in Choose(h, req).cpus ==> c >= 0
  {
    ChoiceIsGood(h, req);
    PoolIsFree(h, req.requireNuma);
    forall c | c in Choose(h, req).cpus ensures c >= 0 {
      assert c in SetOf(Choose(h, req).cpus);
    }
  }

  lemma SortedNaturals(cpus: seq<int>) returns (sorted: seq<nat>)
    requires cpus != [] && forall c :: c in cpus ==> c >= 0
    ensures sorted == Cpulist.Sorted(cpus) && multiset(sorted) == multiset(cpus) && sorted != []
  {
    Cpulist.Sorting.SortKeepsElements<int>(Cpulist.IntLe, cpus);
    var s := Cpulist.Sorted(cpus);
    Cpulist.Sorting.SameMembers<int>(s, cpus);
    forall i | 0 <= i < |s| ensures s[i] >= 0 { assert s[i] in s; }
    sorted := s;
  }
}
