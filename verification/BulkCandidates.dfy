/** Which values of a result are bulk, and in which order they are offered for dropping. */
module BulkCandidates {
  import opened Text
  import opened Json
  import Sorting

  const BULK_RESULT_KEYS: set<string> :=
    {"series", "samples", "lscpu", "reader_toml", "writer_toml", "toml_config", "sample_errors"}

  datatype Candidate = Candidate(bytes: nat, path: Path)

  predicate BulkPart(part: Part, v: Json) {
    part.Key? && part.k in BULK_RESULT_KEYS && Container(v)
  }

  // ----- what a candidate is -----

  /** The path leads to a list, dict or string stored under a bulk key. */
  ghost predicate BulkAt(j: Json, p: Path) {
    && p != [] && Lookup(j, p).Some? && p[|p| - 1].Key? && p[|p| - 1].k in BULK_RESULT_KEYS
    && var v := Lookup(j, p).value; v.Arr? || v.Obj? || v.Str?
  }

  lemma BulkPartIsBulk(j: Json, p: Path)
    requires p != [] && Lookup(j, p).Some?
    ensures BulkAt(j, p) <==> BulkPart(p[|p| - 1], Lookup(j, p).value)
  {}

  /** A bulk value that lies inside no other bulk value. */
  ghost predicate IsCandidate(j: Json, p: Path) {
    BulkAt(j, p) && forall n :: 0 < n < |p| ==> !BulkAt(j, p[..n])
  }

  lemma LastOfTail(p: Path)
    requires |p| > 1
    ensures p[1..][|p[1..]| - 1] == p[|p| - 1]
  {}

  lemma BulkAtStep(j: Json, p: Path)
    requires |p| > 1 && Child(j, p[0]).Some?
    ensures BulkAt(j, p) == BulkAt(Child(j, p[0]).value, p[1..])
  {
    LastOfTail(p);
  }

  lemma IsCandidateStep(j: Json, p: Path)
    ensures IsCandidate(j, p) ==
      (p != [] && Child(j, p[0]).Some? &&
       if BulkPart(p[0], Child(j, p[0]).value) then |p| == 1 else IsCandidate(Child(j, p[0]).value, p[1..]))
  {
    if p != [] && Child(j, p[0]).Some? {
      var v := Child(j, p[0]).value;
      var first := p[..1];
      assert first[0] == p[0] && first[1..] == [];
      assert Lookup(v, first[1..]) == Some(v);
      assert BulkAt(j, first) == BulkPart(p[0], v);
      if |p| == 1 {
        assert p == first;
      } else {
        BulkAtStep(j, p);
        if BulkPart(p[0], v) {
          assert BulkAt(j, p[..1]);
        } else {
          forall n | 0 < n < |p| - 1
            ensures BulkAt(j, p[..n + 1]) == BulkAt(v, p[1..][..n])
          {
            BulkAtStep(j, p[..n + 1]);
            assert p[..n + 1][1..] == p[1..][..n];
          }
          if IsCandidate(v, p[1..]) {
            forall n | 0 < n < |p| ensures !BulkAt(j, p[..n]) {
              if n > 1 { var m := n - 1; assert n == m + 1; assert !BulkAt(v, p[1..][..m]); }
            }
          }
          if IsCandidate(j, p) {
            forall n | 0 < n < |p[1..]| ensures !BulkAt(v, p[1..][..n]) {
              assert !BulkAt(j, p[..n + 1]);
            }
          }
        }
      }
    }
  }

  // ----- the walk -----

  function Under(prefix: Path, cs: seq<Candidate>): seq<Candidate> {
    seq(|cs|, i requires 0 <= i < |cs| => Candidate(cs[i].bytes, prefix + cs[i].path))
  }

  function Cands(j: Json): seq<Candidate>
    decreases j, 1
  {
    match j
    case Obj(ms) => MemberCands(ms)
    case Arr(items) => ItemCands(items, 0)
    case _ => []
  }

  function MemberHere(m: Member): seq<Candidate>
    decreases m, 2
  {
    var part := Key(m.key);
    if BulkPart(part, m.value) then [Candidate(WireBytes(m.value), [part])] else Under([part], Cands(m.value))
  }

  function MemberCands(ms: seq<Member>): seq<Candidate>
    decreases ms, 0
  {
    if ms == [] then [] else MemberHere(ms[0]) + MemberCands(ms[1..])
  }

  function ItemCands(items: seq<Json>, base: nat): seq<Candidate>
    decreases items, 0
  {
    if items == [] then []
    else Under([Index(base)], Cands(items[0])) + ItemCands(items[1..], base + 1)
  }

  lemma UnderUnder(p: Path, part: Part, cs: seq<Candidate>)
    ensures Under(p, Under([part], cs)) == Under(p + [part], cs)
  {
    forall i | 0 <= i < |cs| ensures p + ([part] + cs[i].path) == p + [part] + cs[i].path { }
  }

  lemma UnderConcat(p: Path, a: seq<Candidate>, b: seq<Candidate>)
    ensures Under(p, a + b) == Under(p, a) + Under(p, b)
  {}

  lemma MemberStep(path: Path, ms: seq<Member>, i: nat)
    requires i < |ms|
    ensures Under(path, MemberCands(ms[i..])) == Under(path, MemberHere(ms[i])) + Under(path, MemberCands(ms[i + 1..]))
    ensures var part := Key(ms[i].key);
      Under(path, MemberHere(ms[i])) ==
        if BulkPart(part, ms[i].value) then [Candidate(WireBytes(ms[i].value), path + [part])]
        else Under(path + [part], Cands(ms[i].value))
  {
    assert ms[i..][1..] == ms[i + 1..];
    UnderConcat(path, MemberHere(ms[i]), MemberCands(ms[i + 1..]));
    UnderUnder(path, Key(ms[i].key), Cands(ms[i].value));
  }

  lemma ItemStep(path: Path, items: seq<Json>, i: nat)
    requires i < |items|
    ensures Under(path, ItemCands(items[i..], i)) ==
      Under(path + [Index(i)], Cands(items[i])) + Under(path, ItemCands(items[i + 1..], i + 1))
  {
    assert items[i..][1..] == items[i + 1..];
    UnderConcat(path, Under([Index(i)], Cands(items[i])), ItemCands(items[i + 1..], i + 1));
    UnderUnder(path, Index(i), Cands(items[i]));
  }

  /** The recursive walk of `bulk_candidates`, appending to `found` as it goes. */
  method Walk(node: Json, path: Path, found: seq<Candidate>) returns (all: seq<Candidate>)
    ensures all == found + Under(path, Cands(node))
    decreases node
  {
    all := found;
    match node {
      case Obj(ms) =>
        for i := 0 to |ms|
          invariant all + Under(path, MemberCands(ms[i..])) == found + Under(path, MemberCands(ms))
        {
          MemberStep(path, ms, i);
          var part := Key(ms[i].key);
          if BulkPart(part, ms[i].value) {
            all := all + [Candidate(WireBytes(ms[i].value), path + [part])];
          } else {
            all := Walk(ms[i].value, path + [part], all);
          }
        }
        assert Cands(node) == MemberCands(ms);
      case Arr(items) =>
        for i := 0 to |items|
          invariant all + Under(path, ItemCands(items[i..], i)) == found + Under(path, ItemCands(items, 0))
        {
          ItemStep(path, items, i);
          all := Walk(items[i], path + [Index(i)], all);
        }
        assert Cands(node) == ItemCands(items, 0);
      case _ =>
    }
  }

  // ----- the walk finds exactly the candidates -----

  ghost predicate Lists(j: Json, c: Candidate) {
    IsCandidate(j, c.path) && c.bytes == WireBytes(Lookup(j, c.path).value)
  }

  ghost predicate FromChild(part: Part, v: Json, c: Candidate) {
    if BulkPart(part, v) then c == Candidate(WireBytes(v), [part])
    else c.path != [] && c.path[0] == part && Candidate(c.bytes, c.path[1..]) in Cands(v)
  }

  lemma InUnder(part: Part, cs: seq<Candidate>, c: Candidate)
    ensures c in Under([part], cs) <==> c.path != [] && c.path[0] == part && Candidate(c.bytes, c.path[1..]) in cs
  {
    if c in Under([part], cs) {
      var i :| 0 <= i < |cs| && Under([part], cs)[i] == c;
      assert c.path[1..] == cs[i].path;
      assert cs[i] in cs;
    }
    if c.path != [] && c.path[0] == part && Candidate(c.bytes, c.path[1..]) in cs {
      var i :| 0 <= i < |cs| && cs[i] == Candidate(c.bytes, c.path[1..]);
      assert [part] + c.path[1..] == c.path;
      assert Under([part], cs)[i] == c;
    }
  }

  lemma {:induction false} MemberCandsFrom(ms: seq<Member>, c: Candidate)
    requires UniqueKeys(ms)
    ensures c in MemberCands(ms) <==>
      c.path != [] && c.path[0].Key? && Get(ms, c.path[0].k).Some?
      && FromChild(c.path[0], Get(ms, c.path[0].k).value, c)
  {
    if ms != [] {
      MemberCandsFrom(ms[1..], c);
      InUnder(Key(ms[0].key), Cands(ms[0].value), c);
      GetMisses(ms[1..], ms[0].key);
      assert forall i :: 0 <= i < |ms[1..]| ==> ms[1..][i] == ms[i + 1];
    }
  }

  lemma {:induction false} ItemCandsFrom(items: seq<Json>, base: nat, c: Candidate)
    ensures c in ItemCands(items, base) <==>
      c.path != [] && c.path[0].Index? && base <= c.path[0].i < base + |items|
      && FromChild(c.path[0], items[c.path[0].i - base], c)
  {
    hide FromChild, Under, Cands;
    if items != [] {
      var here, rest := Under([Index(base)], Cands(items[0])), ItemCands(items[1..], base + 1);
      ItemCandsFrom(items[1..], base + 1, c);
      FirstItem(items[0], base, c);
      assert c in ItemCands(items, base) <==> c in here || c in rest;
      hide ItemCands;
    }
  }

  lemma FirstItem(item: Json, base: nat, c: Candidate)
    ensures c in Under([Index(base)], Cands(item)) <==> FromChild(Index(base), item, c)
    ensures FromChild(Index(base), item, c) ==> c.path != [] && c.path[0] == Index(base)
  {
    InUnder(Index(base), Cands(item), c);
  }

  /** `bulk_candidates` lists a path exactly when it is an outermost bulk value, with its encoded size. */
  lemma {:induction false} WalkFindsExactly(j: Json, c: Candidate)
    requires WellFormed(j)
    ensures c in Cands(j) <==> Lists(j, c)
    decreases |c.path|
  {
    IsCandidateStep(j, c.path);
    match j {
      case Obj(ms) =>
        MemberCandsFrom(ms, c);
      case Arr(items) =>
        ItemCandsFrom(items, 0, c);
      case _ =>
    }
    if c.path != [] && Child(j, c.path[0]).Some? {
      var part, v := c.path[0], Child(j, c.path[0]).value;
      ChildWellFormed(j, part);
      assert c in Cands(j) <==> FromChild(part, v, c);
      if BulkPart(part, v) {
        assert |c.path| == 1 <==> c.path == [part];
        assert |c.path| == 1 ==> Lookup(v, c.path[1..]) == Some(v);
      } else {
        WalkFindsExactly(v, Candidate(c.bytes, c.path[1..]));
      }
    }
  }

  // ----- no path twice -----

  ghost predicate DistinctPaths(cs: seq<Candidate>) {
    forall i, k :: 0 <= i < k < |cs| ==> cs[i].path != cs[k].path
  }

  lemma UnderDistinct(part: Part, cs: seq<Candidate>)
    requires DistinctPaths(cs)
    ensures DistinctPaths(Under([part], cs))
  {
    var u := Under([part], cs);
    forall i, k | 0 <= i < k < |u| ensures u[i].path != u[k].path {
      assert u[i].path[1..] == cs[i].path && u[k].path[1..] == cs[k].path;
    }
  }

  lemma ConcatDistinct(a: seq<Candidate>, b: seq<Candidate>, part: Part)
    requires DistinctPaths(a) && DistinctPaths(b)
    requires forall c :: c in a ==> c.path != [] && c.path[0] == part
    requires forall c :: c in b ==> c.path != [] && c.path[0] != part
    ensures DistinctPaths(a + b)
  {
    var s := a + b;
    forall i, k | 0 <= i < k < |s| ensures s[i].path != s[k].path {
      if i < |a| <= k {
        assert s[i] == a[i] && s[i] in a && s[k] == b[k - |a|] && s[k] in b;
      }
    }
  }

  lemma {:induction false} WalkDistinct(j: Json)
    requires WellFormed(j)
    ensures DistinctPaths(Cands(j))
    decreases j, 1
  {
    match j {
      case Obj(ms) => MembersDistinct(ms);
      case Arr(items) => ItemsDistinct(items, 0);
      case _ =>
    }
  }

  lemma {:induction false} MembersDistinct(ms: seq<Member>)
    requires UniqueKeys(ms) && AllWellFormed(ms)
    ensures DistinctPaths(MemberCands(ms))
    decreases ms, 0
  {
    if ms != [] {
      var part := Key(ms[0].key);
      var here := MemberHere(ms[0]);
      assert MemberCands(ms) == here + MemberCands(ms[1..]);
      WalkDistinct(ms[0].value);
      UnderDistinct(part, Cands(ms[0].value));
      MembersDistinct(ms[1..]);
      forall c | c in here ensures c.path != [] && c.path[0] == part {
        InUnder(part, Cands(ms[0].value), c);
      }
      GetMisses(ms[1..], ms[0].key);
      assert forall i :: 0 <= i < |ms[1..]| ==> ms[1..][i] == ms[i + 1];
      forall c | c in MemberCands(ms[1..]) ensures c.path != [] && c.path[0] != part {
        MemberCandsFrom(ms[1..], c);
      }
      ConcatDistinct(here, MemberCands(ms[1..]), part);
    }
  }

  lemma {:induction false} ItemsDistinct(items: seq<Json>, base: nat)
    requires forall i :: 0 <= i < |items| ==> WellFormed(items[i])
    ensures DistinctPaths(ItemCands(items, base))
    decreases items, 0
  {
    if items != [] {
      WalkDistinct(items[0]);
      var here := Under([Index(base)], Cands(items[0]));
      UnderDistinct(Index(base), Cands(items[0]));
      ItemsDistinct(items[1..], base + 1);
      forall c | c in here ensures c.path != [] && c.path[0] == Index(base) {
        InUnder(Index(base), Cands(items[0]), c);
      }
      forall c | c in ItemCands(items[1..], base + 1) ensures c.path != [] && c.path[0] != Index(base) {
        ItemCandsFrom(items[1..], base + 1, c);
      }
      ConcatDistinct(here, ItemCands(items[1..], base + 1), Index(base));
    }
  }

  // ----- the order -----

  function PartText(part: Part): string {
    match part case Index(i) => "[" + Decimal(i) + "]" case Key(k) => "." + k
  }

  function PathText(p: Path): string {
    if p == [] then "result" else PathText(p[..|p| - 1]) + PartText(p[|p| - 1])
  }

  predicate DropsFirst(a: Candidate, b: Candidate) {
    a.bytes > b.bytes || (a.bytes == b.bytes && TextLe(PathText(a.path), PathText(b.path)))
  }

  lemma DropOrderIsTotal()
    ensures Sorting.TotalPreorder(DropsFirst)
  {
    forall a: Candidate, b: Candidate ensures DropsFirst(a, b) || DropsFirst(b, a) {
      TextLeTotal(PathText(a.path), PathText(b.path));
    }
    forall a: Candidate, b: Candidate, c: Candidate | DropsFirst(a, b) && DropsFirst(b, c)
      ensures DropsFirst(a, c)
    {
      if a.bytes == b.bytes == c.bytes {
        TextLeTransitive(PathText(a.path), PathText(b.path), PathText(c.path));
      }
    }
  }

  function DropOrder(j: Json): seq<Candidate> { Sorting.SortBy(DropsFirst, Cands(j)) }

  /** Every bulk value, biggest first. */
  method ListBulkCandidates(result: Json) returns (found: seq<Candidate>)
    requires WellFormed(result)
    ensures found == DropOrder(result)
    ensures forall c :: c in found <==> Lists(result, c)
    ensures forall i, k :: 0 <= i < k < |found| ==>
      found[i].bytes > found[k].bytes
      || (found[i].bytes == found[k].bytes && TextLe(PathText(found[i].path), PathText(found[k].path)))
  {
    found := Walk(result, [], []);
    assert Under([], Cands(result)) == Cands(result) by {
      forall i | 0 <= i < |Cands(result)| ensures [] + Cands(result)[i].path == Cands(result)[i].path { }
    }
    assert found == Cands(result);
    found := Sorting.SortBy(DropsFirst, found);
    DropOrderFacts(result);
  }

  lemma DropOrderFacts(j: Json)
    requires WellFormed(j)
    ensures forall c :: c in DropOrder(j) <==> Lists(j, c)
    ensures forall i, k :: 0 <= i < k < |DropOrder(j)| ==> DropsFirst(DropOrder(j)[i], DropOrder(j)[k])
    ensures DistinctPaths(DropOrder(j))
  {
    DropOrderIsTotal();
    var always := (a: Candidate, b: Candidate) => true;
    Sorting.StableSort(DropsFirst, always, Cands(j));
    Sorting.SameMembers(DropOrder(j), Cands(j));
    forall c ensures c in Cands(j) <==> Lists(j, c) { WalkFindsExactly(j, c); }
    WalkDistinct(j);
    Sorting.SortKeepsDistinct(DropsFirst, Cands(j));
    var d := DropOrder(j);
    forall i, k | 0 <= i < k < |d| ensures d[i].path != d[k].path {
      assert d[i] != d[k] && d[i] in d && d[k] in d;
      assert Lists(j, d[i]) && Lists(j, d[k]);
    }
  }

  function Paths(cs: seq<Candidate>): seq<Path> {
    seq(|cs|, i requires 0 <= i < |cs| => cs[i].path)
  }

  /** No candidate lies inside another. */
  lemma CandidatesPrefixFree(j: Json, p: Path, q: Path)
    requires IsCandidate(j, p) && IsCandidate(j, q) && p != q
    ensures Unrelated(p, q)
  {
    assert |p| <= |q| && q[..|p|] == p ==> |p| == |q|;
    assert |q| <= |p| && p[..|q|] == q ==> |p| == |q|;
  }

  /** Any selection of candidates, in any order and each once, can be deleted path by path. */
  lemma CandidatesDeletable(j: Json, ps: seq<Path>)
    requires forall p :: p in ps ==> IsCandidate(j, p)
    requires Sorting.Distinct(ps)
    ensures Deletable(j, ps)
  {
    forall i | 0 <= i < |ps| ensures ps[i] != [] && ps[i][|ps[i]| - 1].Key? && Lookup(j, ps[i]).Some? {
      assert ps[i] in ps;
    }
    forall i, k | 0 <= i < k < |ps| ensures Unrelated(ps[i], ps[k]) {
      assert ps[i] in ps && ps[k] in ps;
      CandidatesPrefixFree(j, ps[i], ps[k]);
    }
  }

  /** After any selection is deleted, every other candidate still leads to its old value. */
  lemma CandidatesStayValid(j: Json, ps: seq<Path>, q: Path)
    requires WellFormed(j)
    requires forall p :: p in ps ==> IsCandidate(j, p)
    requires Sorting.Distinct(ps) && q !in ps && IsCandidate(j, q)
    ensures DeleteAll(j, ps).Some?
    ensures Lookup(DeleteAll(j, ps).value, q) == Lookup(j, q)
    ensures Delete(DeleteAll(j, ps).value, q).Some?
  {
    CandidatesDeletable(j, ps);
    forall p | p in ps ensures Unrelated(p, q) { CandidatesPrefixFree(j, p, q); }
    DeleteAllFrame(j, ps, q);
    DeleteSucceeds(DeleteAll(j, ps).value, q);
  }

  /** The shortest bulk prefix of a bulk path is a candidate. */
  lemma {:induction false} OutermostBulk(j: Json, p: Path, n: nat) returns (c: Path)
    requires 0 < n <= |p| && BulkAt(j, p[..n])
    requires forall m :: 0 < m < n ==> !BulkAt(j, p[..m])
    ensures c <= p && IsCandidate(j, c)
  {
    c := p[..n];
    forall m | 0 < m < |c| ensures !BulkAt(j, c[..m]) {
      assert c[..m] == p[..m];
    }
  }

  lemma FirstBulk(j: Json, p: Path) returns (c: Path)
    requires BulkAt(j, p)
    ensures c <= p && IsCandidate(j, c)
  {
    var n := 1;
    assert p[..|p|] == p;
    while !BulkAt(j, p[..n])
      invariant 1 <= n <= |p|
      invariant forall m :: 0 < m < n ==> !BulkAt(j, p[..m])
      decreases |p| - n
    {
      n := n + 1;
    }
    c := OutermostBulk(j, p, n);
  }

  /** Deleting every candidate leaves no bulk value anywhere. */
  lemma DeleteAllClears(j: Json, ps: seq<Path>, p: Path)
    requires WellFormed(j) && Sorting.Distinct(ps)
    requires forall q :: q in ps <==> IsCandidate(j, q)
    ensures DeleteAll(j, ps).Some? && !BulkAt(DeleteAll(j, ps).value, p)
  {
    CandidatesDeletable(j, ps);
    DeleteAllFrame(j, ps, p);
    var j' := DeleteAll(j, ps).value;
    if BulkAt(j, p) {
      var c := FirstBulk(j, p);
      assert c in ps && c <= p;
    }
  }
}
