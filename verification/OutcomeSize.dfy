/** Trimming an outcome report to a byte budget, with a size field that measures itself. */
module OutcomeSize {
  import opened Text
  import opened Json
  import opened BulkCandidates
  import Sorting

  const DELIVERY_KEY := "outcome_delivery"
  const RESULT_KEY := "result"
  const SENT_KEY := "sent_bytes"

  function MembersOf(j: Json): seq<Member> { if j.Obj? then j.members else [] }

  function Strings(ss: seq<string>): Json {
    Arr(seq(|ss|, i requires 0 <= i < |ss| => Str(ss[i])))
  }

  /** Whether an outcome carries a result dict at all. */
  predicate HasResult(outcome: seq<Member>) {
    Get(outcome, RESULT_KEY).Some? && Get(outcome, RESULT_KEY).value.Obj?
  }

  function ResultOf(outcome: seq<Member>): Json {
    match Get(outcome, RESULT_KEY) case Some(r) => r case None => Null
  }

  /** One call of `trim_outcome`; the members say what the outcome looks like after `k` drops. */
  datatype Trim = Trim(outcome: seq<Member>, reason: string, fullPath: string) {

    ghost predicate Valid() { HasResult(outcome) && WellFormed(Obj(outcome)) }

    function Result(): Json
      requires HasResult(outcome)
    {
      Get(outcome, RESULT_KEY).value
    }

    function Order(): seq<Candidate>
      requires HasResult(outcome)
    {
      DropOrder(Result())
    }

    function Dropped(k: nat): seq<Path>
      requires HasResult(outcome) && k <= |Order()|
    {
      Paths(Order())[..k]
    }

    /** The result after the first `k` candidates are gone. */
    function Tree(k: nat): Json
      requires HasResult(outcome) && k <= |Order()|
    {
      match DeleteAll(Result(), Dropped(k)) case Some(t) => t case None => Null
    }

    function Name(c: Candidate): string { PathText(c.path) + " (" + Decimal(c.bytes) + " bytes)" }

    function Names(k: nat): seq<string>
      requires HasResult(outcome) && k <= |Order()|
    {
      seq(k, i requires 0 <= i < k => Name(Order()[i]))
    }

    function BaseRecord(names: seq<string>): seq<Member> {
      [Member("trimmed", Bool(true)),
       Member("reason", Str(reason)),
       Member("dropped", Strings(names)),
       Member("original_bytes", Int(WireBytes(Obj(outcome)))),
       Member(SENT_KEY, Int(0)),
       Member("full_result_path", Str(fullPath))]
    }

    function Record(names: seq<string>, sent: nat): Json { Obj(Set(BaseRecord(names), SENT_KEY, Int(sent))) }

    function Attach(tree: Json, names: seq<string>, sent: nat): seq<Member> {
      Set(outcome, RESULT_KEY, Obj(Set(MembersOf(tree), DELIVERY_KEY, Record(names, sent))))
    }

    function Document(k: nat, sent: nat): seq<Member>
      requires HasResult(outcome) && k <= |Order()|
    {
      Attach(Tree(k), Names(k), sent)
    }

    /** The encoded size while the size field still reads 0. */
    function FirstSize(k: nat): nat
      requires HasResult(outcome) && k <= |Order()|
    {
      WireBytes(Obj(Document(k, 0)))
    }

    /** The size the delivery record reports, which is also what the budget is compared with. */
    function Measured(k: nat): nat
      requires HasResult(outcome) && k <= |Order()|
    {
      WireBytes(Obj(Document(k, FirstSize(k))))
    }

    function Final(k: nat): seq<Member>
      requires HasResult(outcome) && k <= |Order()|
    {
      Document(k, Measured(k))
    }

    /** `k` is where the loop stops: the first fit after at least one drop, or the end. */
    ghost predicate StopsAt(budget: int, k: nat)
      requires HasResult(outcome)
    {
      && 1 <= k <= |Order()|
      && (forall i :: 1 <= i < k ==> budget <= 0 || Measured(i) > budget)
      && (k < |Order()| ==> budget > 0 && Measured(k) <= budget)
    }

    /** A bulk value two or more levels inside a delivery record the result already carried. */
    predicate Deep(p: Path) { |p| >= 3 && p[0] == Key(DELIVERY_KEY) }

    /** Some deletion walks into the record that replaced the one it was listed in. */
    ghost predicate Raises(budget: int)
      requires HasResult(outcome)
    {
      budget > 0 && exists i {:trigger Order()[i]} ::
        (1 <= i < |Order()| && Deep(Order()[i].path) && forall n :: 1 <= n <= i ==> Measured(n) > budget)
    }
  }

  // ----- the size field -----

  function Pow10(k: nat): nat { if k == 0 then 1 else 10 * Pow10(k - 1) }

  lemma {:induction false} DigitsAndPowers(n: nat, k: nat)
    requires k >= 1
    ensures |Decimal(n)| > k <==> n >= Pow10(k)
  {
    if k > 1 && n >= 10 {
      DigitsAndPowers(n / 10, k - 1);
    } else if n >= 10 {
      assert |Decimal(n / 10)| >= 1;
    } else {
      PowGrows(1, k);
    }
  }

  lemma {:induction false} PowGrows(i: nat, k: nat)
    requires i <= k
    ensures Pow10(i) <= Pow10(k)
  {
    if i < k { PowGrows(i, k - 1); }
  }

  /** The document's size depends on the size field only through its number of digits. */
  lemma SizeFieldBytes(t: Trim, tree: Json, names: seq<string>, sent: nat)
    ensures WireBytes(Obj(t.Attach(tree, names, sent)))
      == WireBytes(Obj(t.Attach(tree, names, 0))) - 1 + |Decimal(sent)|
  {
    var base := t.BaseRecord(names);
    SetBytes(base, SENT_KEY, Int(sent), Int(0));
    var r, r0 := t.Record(names, sent), t.Record(names, 0);
    SetBytes(MembersOf(tree), DELIVERY_KEY, r, r0);
    var d := Obj(Set(MembersOf(tree), DELIVERY_KEY, r));
    var d0 := Obj(Set(MembersOf(tree), DELIVERY_KEY, r0));
    SetBytes(t.outcome, RESULT_KEY, d, d0);
  }

  /** Writing the size into the field that read 0 takes the document to the next power of ten, counting its digits. */
  predicate Crosses(first: nat) { first + |Decimal(first)| > Pow10(|Decimal(first)|) }

  /** What settling the size field once makes of it, whatever the document: the recorded size is the true one, or one
      less exactly when the digits written cross a power of ten. */
  lemma SettledOnce(t: Trim, tree: Json, names: seq<string>)
    ensures var first := WireBytes(Obj(t.Attach(tree, names, 0)));
      var sent := WireBytes(Obj(t.Attach(tree, names, first)));
      && sent == first - 1 + |Decimal(first)|
      && WireBytes(Obj(t.Attach(tree, names, sent))) == if Crosses(first) then sent + 1 else sent
  {
    var s0 := WireBytes(Obj(t.Attach(tree, names, 0)));
    var sent := WireBytes(Obj(t.Attach(tree, names, s0)));
    SizeFieldBytes(t, tree, names, s0);
    SizeFieldBytes(t, tree, names, sent);
    hide WireBytes;
    DecimalShort(s0);
    DecimalMonotone(s0, sent);
    DecimalMonotone(sent, 10 * s0);
    DecimalTimesTen(s0);
    var e := |Decimal(s0)|;
    DigitsAndPowers(sent, e);
  }

  /** The recorded size is the true one, or one less exactly when the size before settling is within its own number of
      digits below a power of ten. */
  lemma SentIsNearlyExact(t: Trim, k: nat)
    requires t.Valid() && k <= |t.Order()|
    ensures var sent, truth := t.Measured(k), WireBytes(Obj(t.Final(k)));
      && (truth == sent || truth == sent + 1)
      && (truth == sent + 1 <==> Crosses(t.FirstSize(k)))
  {
    SettledOnce(t, t.Tree(k), t.Names(k));
  }

  // ----- what the drops leave alone -----

  lemma DroppedAreCandidates(t: Trim, k: nat)
    requires t.Valid() && k <= |t.Order()|
    ensures WellFormed(t.Result())
    ensures forall p :: p in t.Dropped(k) ==> IsCandidate(t.Result(), p)
    ensures Sorting.Distinct(t.Dropped(k))
    ensures k == |t.Order()| ==> forall p :: IsCandidate(t.Result(), p) ==> p in t.Dropped(k)
    ensures forall i :: 0 <= i < |t.Order()| ==> IsCandidate(t.Result(), t.Order()[i].path)
  {
    var n := GetFinds(t.outcome, RESULT_KEY);
    assert WellFormed(t.outcome[n].value);
    DropOrderFacts(t.Result());
    var ps := t.Dropped(k);
    forall i | 0 <= i < |t.Order()| ensures IsCandidate(t.Result(), t.Order()[i].path) {
      assert t.Order()[i] in t.Order();
    }
    forall p | p in ps ensures IsCandidate(t.Result(), p) {
      var i :| 0 <= i < k && ps[i] == p;
      assert t.Order()[i].path == p;
    }
    if k == |t.Order()| {
      forall p | IsCandidate(t.Result(), p) ensures p in ps {
        var c := Candidate(WireBytes(Lookup(t.Result(), p).value), p);
        assert Lists(t.Result(), c);
        var i :| 0 <= i < k && t.Order()[i] == c;
        assert ps[i] == p;
      }
    }
  }

  lemma TreeFacts(t: Trim, k: nat)
    requires t.Valid() && k <= |t.Order()|
    ensures DeleteAll(t.Result(), t.Dropped(k)) == Some(t.Tree(k))
    ensures t.Tree(k).Obj? && WellFormed(t.Tree(k))
  {
    DroppedAreCandidates(t, k);
    CandidatesDeletable(t.Result(), t.Dropped(k));
    forall p | p in t.Dropped(k) ensures !(p <= []) { }
    DeleteAllFrame(t.Result(), t.Dropped(k), []);
    assert Lookup(t.Result(), []) == Some(t.Result()) && Lookup(t.Tree(k), []) == Some(t.Tree(k));
  }

  lemma TreeStep(t: Trim, k: nat)
    requires t.Valid() && k < |t.Order()|
    ensures Delete(t.Tree(k), t.Order()[k].path) == Some(t.Tree(k + 1))
  {
    TreeFacts(t, k);
    TreeFacts(t, k + 1);
    assert t.Dropped(k + 1) == t.Dropped(k) + [t.Order()[k].path];
    DeleteAllStep(t.Result(), t.Dropped(k), t.Order()[k].path);
  }

  /** Neither a dict nor a list of anything but strings. */
  ghost predicate Flat(v: Json) {
    !v.Obj? && (v.Arr? ==> forall i :: 0 <= i < |v.items| ==> v.items[i].Str?)
  }

  /** A dict without bulk keys whose values are flat. */
  ghost predicate RecordLike(rec: Json) {
    && rec.Obj? && WellFormed(rec)
    && (forall k :: k in BULK_RESULT_KEYS ==> Get(rec.members, k) == None)
    && (forall k :: Get(rec.members, k).Some? ==> Flat(Get(rec.members, k).value))
  }

  lemma BaseRecordFacts(t: Trim, names: seq<string>)
    ensures UniqueKeys(t.BaseRecord(names)) && AllWellFormed(t.BaseRecord(names))
    ensures forall k :: Get(t.BaseRecord(names), k).Some? ==>
      k !in BULK_RESULT_KEYS && Flat(Get(t.BaseRecord(names), k).value)
  {
    hide WireBytes, CharsBytes;
    var base := t.BaseRecord(names);
    assert WellFormed(Strings(names));
    assert base[2].value == Strings(names);
    forall k | Get(base, k).Some? ensures k !in BULK_RESULT_KEYS && Flat(Get(base, k).value) {
      var i := GetFinds(base, k);
    }
  }

  lemma RecordFacts(t: Trim, names: seq<string>, sent: nat)
    ensures RecordLike(t.Record(names, sent))
  {
    hide Set, Get, WireBytes;
    BaseRecordFacts(t, names);
    SetFacts(t.BaseRecord(names), SENT_KEY, Int(sent));
    assert SENT_KEY !in BULK_RESULT_KEYS;
  }

  /** A bulk path never leads into a delivery record. */
  lemma RecordHasNoBulk(rec: Json, p: Path)
    requires RecordLike(rec)
    ensures !BulkAt(rec, p)
  {
    if p != [] && Child(rec, p[0]).Some? {
      var v := Child(rec, p[0]).value;
      if |p| == 1 {
        assert Lookup(v, p[1..]) == Some(v);
      } else if Child(v, p[1]).Some? {
        assert v.Arr? && Child(v, p[1]).value.Str?;
        assert Lookup(rec, p) == Lookup(v, p[1..]) == Lookup(Child(v, p[1]).value, p[1..][1..]);
        if |p| > 2 {
          assert Lookup(rec, p) == None;
        }
      } else {
        assert Lookup(rec, p) == Lookup(v, p[1..]) == None;
      }
    }
  }

  lemma FinalResult(t: Trim, k: nat, sent: nat)
    requires t.Valid() && k <= |t.Order()|
    ensures WellFormed(Obj(t.Document(k, sent)))
    ensures HasResult(t.Document(k, sent))
    ensures forall l :: l != RESULT_KEY ==> Get(t.Document(k, sent), l) == Get(t.outcome, l)
    ensures var r := ResultOf(t.Document(k, sent));
      && r == Obj(Set(MembersOf(t.Tree(k)), DELIVERY_KEY, t.Record(t.Names(k), sent)))
      && WellFormed(r)
      && Child(r, Key(DELIVERY_KEY)) == Some(t.Record(t.Names(k), sent))
      && forall part :: part != Key(DELIVERY_KEY) ==> Child(r, part) == Child(t.Tree(k), part)
  {
    TreeFacts(t, k);
    RecordFacts(t, t.Names(k), sent);
    SetFacts(MembersOf(t.Tree(k)), DELIVERY_KEY, t.Record(t.Names(k), sent));
    SetFacts(t.outcome, RESULT_KEY, Obj(Set(MembersOf(t.Tree(k)), DELIVERY_KEY, t.Record(t.Names(k), sent))));
  }

  /** Trimming changes nothing but the dropped values and the delivery record. */
  lemma TrimKeepsTheRest(t: Trim, k: nat, q: Path)
    requires t.Valid() && k <= |t.Order()|
    requires q != [] && q[0] != Key(DELIVERY_KEY)
    ensures var r := ResultOf(t.Final(k));
      && (forall l :: l != RESULT_KEY ==> Get(t.Final(k), l) == Get(t.outcome, l))
      && ((exists p :: p in t.Dropped(k) && p <= q) ==> Lookup(r, q) == None)
      && ((forall p :: p in t.Dropped(k) ==> Unrelated(p, q)) ==> Lookup(r, q) == Lookup(t.Result(), q))
      && ((forall p :: p in t.Dropped(k) ==> !(p <= q)) ==>
           Lookup(r, q).Some? == Lookup(t.Result(), q).Some?
           && (Lookup(r, q).Some? ==> SameKind(Lookup(t.Result(), q).value, Lookup(r, q).value)))
  {
    FinalResult(t, k, t.Measured(k));
    TreeFacts(t, k);
    DroppedAreCandidates(t, k);
    CandidatesDeletable(t.Result(), t.Dropped(k));
    DeleteAllFrame(t.Result(), t.Dropped(k), q);
  }

  /** With everything dropped, no bulk value is left anywhere in the result. */
  lemma AllDroppedLeavesNoBulk(t: Trim, p: Path)
    requires t.Valid()
    ensures !BulkAt(ResultOf(t.Final(|t.Order()|)), p)
    ensures Cands(ResultOf(t.Final(|t.Order()|))) == []
  {
    hide WireBytes, Get, Cands, DropOrder, BulkAt, WellFormed;
    var n := |t.Order()|;
    var r := ResultOf(t.Final(n));
    FinalResult(t, n, t.Measured(n));
    forall q: Path ensures !BulkAt(r, q) { NoBulkAt(t, q); }
    if Cands(r) != [] {
      WalkFindsExactly(r, Cands(r)[0]);
    }
  }

  lemma NoBulkAt(t: Trim, q: Path)
    requires t.Valid()
    ensures !BulkAt(ResultOf(t.Final(|t.Order()|)), q)
  {
    hide WireBytes, Get, Cands, DropOrder, WellFormed;
    var n := |t.Order()|;
    var r := ResultOf(t.Final(n));
    FinalResult(t, n, t.Measured(n));
    TreeFacts(t, n);
    DroppedAreCandidates(t, n);
    if q != [] {
      DeleteAllClears(t.Result(), t.Dropped(n), q);
      if q[0] == Key(DELIVERY_KEY) {
        if |q| > 1 {
          BulkAtStep(r, q);
          RecordFacts(t, t.Names(n), t.Measured(n));
          RecordHasNoBulk(t.Record(t.Names(n), t.Measured(n)), q[1..]);
        }
      } else {
        assert Lookup(r, q) == Lookup(t.Tree(n), q);
      }
    }
  }

  // ----- deleting with a record attached -----

  lemma DeleteUnderRecord(t: Trim, tree: Json, p: Path, rec: Json)
    requires WellFormed(tree) && tree.Obj? && RecordLike(rec)
    requires p != [] && p[|p| - 1].Key? && p[|p| - 1].k in BULK_RESULT_KEYS
    requires Delete(tree, p).Some?
    ensures Delete(tree, p).value.Obj?
    ensures Delete(Obj(Set(tree.members, DELIVERY_KEY, rec)), p) ==
           if t.Deep(p) then None
           else Some(Obj(Set(Delete(tree, p).value.members, DELIVERY_KEY, rec)))
  {
    var ms := tree.members;
    SetFacts(ms, DELIVERY_KEY, rec);
    if |p| == 1 {
      assert p[0].k != DELIVERY_KEY;
      RemoveSetCommutes(ms, DELIVERY_KEY, rec, p[0].k);
    } else if p[0] != Key(DELIVERY_KEY) {
      var c := Delete(Child(tree, p[0]).value, p[1..]).value;
      SetCommutes(ms, DELIVERY_KEY, rec, p[0].k, c);
    } else {
      LastOfTail(p);
      DeleteInRecord(rec, p[1..]);
      var c := Delete(Child(tree, p[0]).value, p[1..]).value;
      SetTwice(ms, DELIVERY_KEY, c, rec);
      SetTwice(ms, DELIVERY_KEY, rec, rec);
    }
  }

  lemma {:induction false} RemoveAbsent(ms: seq<Member>, k: string)
    requires Get(ms, k) == None
    ensures Remove(ms, k) == ms
  {
    if ms != [] { RemoveAbsent(ms[1..], k); }
  }

  lemma FlatDelete(v: Json, p: Path)
    requires Flat(v)
    ensures Delete(v, p) == None
  {
    if |p| > 1 && Child(v, p[0]).Some? {
      var w := Child(v, p[0]).value;
      assert w.Str?;
      assert Delete(w, p[1..]) == None;
    }
  }

  lemma DeleteInRecord(rec: Json, p: Path)
    requires RecordLike(rec)
    requires p != [] && p[|p| - 1].Key? && p[|p| - 1].k in BULK_RESULT_KEYS
    ensures Delete(rec, p) == if |p| >= 2 then None else Some(rec)
  {
    if |p| == 1 {
      RemoveAbsent(rec.members, p[0].k);
    } else if Child(rec, p[0]).Some? {
      FlatDelete(Child(rec, p[0]).value, p[1..]);
    }
  }

  // ----- trim_outcome -----

  datatype Trimmed = Trimmed(outcome: seq<Member>, dropped: seq<string>)

  /** `attach_record`: measures with the size field at 0, then settles it once. The document says `sent` of itself;
      its true size is that, or one more. */
  method AttachRecord(t: Trim, tree: Json, names: seq<string>) returns (document: seq<Member>, sent: nat)
    ensures document == t.Attach(tree, names, sent)
    ensures var first := WireBytes(Obj(t.Attach(tree, names, 0)));
      && sent == first - 1 + |Decimal(first)|
      && WireBytes(Obj(document)) == if Crosses(first) then sent + 1 else sent
  {
    hide WireBytes, Crosses;
    SettledOnce(t, tree, names);
    var first := WireBytes(Obj(t.Attach(tree, names, 0)));
    sent := WireBytes(Obj(t.Attach(tree, names, first)));
    document := t.Attach(tree, names, sent);
  }

  /** Drops bulk values biggest first until the document fits; None when the Python code raises. */
  method TrimOutcome(outcome: seq<Member>, budget: int, reason: string, fullPath: string)
    returns (r: Option<Trimmed>)
    requires WellFormed(Obj(outcome))
    ensures var t := Trim(outcome, reason, fullPath);
      if !HasResult(outcome) || (budget > 0 && WireBytes(Obj(outcome)) <= budget) || t.Order() == [] then
        r == Some(Trimmed(outcome, []))
      else
        && (r == None <==> t.Raises(budget))
        && (r.Some? ==> exists k :: t.StopsAt(budget, k) && r.value == Trimmed(t.Final(k), t.Names(k)))
  {
    hide WireBytes, Set, DeleteAll, Delete, Cands, Get, IntText, PathText, Decimal;
    if !HasResult(outcome) { return Some(Trimmed(outcome, [])); }
    if budget > 0 && WireBytes(Obj(outcome)) <= budget { return Some(Trimmed(outcome, [])); }
    var t := Trim(outcome, reason, fullPath);
    ghost var n0 := GetFinds(outcome, RESULT_KEY);
    assert WellFormed(outcome[n0].value);
    var candidates := ListBulkCandidates(t.Result());
    var trimmed := t.Result();
    var dropped: seq<string> := [];
    ghost var mark: Option<Mark> := None;
    NothingDropped(t);
    var i := 0;
    while i < |candidates|
      invariant 0 <= i <= |candidates| && candidates == t.Order()
      invariant dropped == t.Names(i) && trimmed == Marked(t.Tree(i), t, mark)
      invariant forall n :: 1 <= n < i ==> budget <= 0 || t.Measured(n) > budget
      invariant budget > 0 ==> forall n :: 1 <= n < i ==> !t.Deep(t.Order()[n].path)
      invariant mark.Some? <==> budget > 0 && i > 1
    {
      if dropped != [] && budget > 0 {
        AttachReplaces(t, i, mark);
        var document, sent := AttachRecord(t, trimmed, dropped);
        MeasuredIs(t, i);
        FinalResult(t, i, sent);
        trimmed := ResultOf(document);
        mark := Some(Mark(dropped, sent));
        if sent <= budget { break; }
      }
      DropStep(t, i, mark);
      var after := Delete(trimmed, candidates[i].path);
      if after == None { return None; }
      trimmed := after.value;
      dropped := dropped + [t.Name(candidates[i])];
      i := i + 1;
    }
    if dropped == [] { return Some(Trimmed(outcome, [])); }
    assert t.StopsAt(budget, i);
    AttachReplaces(t, i, mark);
    var document, sent := AttachRecord(t, trimmed, dropped);
    MeasuredIs(t, i);
    StoppedDoesNotRaise(t, budget, i);
    return Some(Trimmed(document, dropped));
  }

  lemma MeasuredIs(t: Trim, k: nat)
    requires HasResult(t.outcome) && k <= |t.Order()|
    ensures t.Measured(k) == t.FirstSize(k) - 1 + |Decimal(t.FirstSize(k))|
  {
    SizeFieldBytes(t, t.Tree(k), t.Names(k), t.FirstSize(k));
  }

  lemma NothingDropped(t: Trim)
    requires HasResult(t.outcome)
    ensures t.Tree(0) == t.Result() && t.Names(0) == []
  {
    assert t.Dropped(0) == [];
  }

  /** The delivery record last written, if any. */
  datatype Mark = Mark(names: seq<string>, sent: nat)

  function Marked(tree: Json, t: Trim, mark: Option<Mark>): Json {
    match mark
    case None => tree
    case Some(m) => Obj(Set(MembersOf(tree), DELIVERY_KEY, t.Record(m.names, m.sent)))
  }

  lemma DropStep(t: Trim, i: nat, mark: Option<Mark>)
    requires t.Valid() && i < |t.Order()|
    ensures Delete(Marked(t.Tree(i), t, mark), t.Order()[i].path) ==
      if mark.Some? && t.Deep(t.Order()[i].path) then None else Some(Marked(t.Tree(i + 1), t, mark))
  {
    TreeFacts(t, i);
    TreeFacts(t, i + 1);
    TreeStep(t, i);
    DroppedAreCandidates(t, i);
    if mark.Some? {
      RecordFacts(t, mark.value.names, mark.value.sent);
      DeleteUnderRecord(t, t.Tree(i), t.Order()[i].path, t.Record(mark.value.names, mark.value.sent));
    }
  }

  lemma AttachReplaces(t: Trim, i: nat, mark: Option<Mark>)
    requires t.Valid() && i <= |t.Order()|
    ensures forall ns, s :: t.Attach(Marked(t.Tree(i), t, mark), ns, s) == t.Attach(t.Tree(i), ns, s)
  {
    if mark.Some? {
      forall ns, s ensures t.Attach(Marked(t.Tree(i), t, mark), ns, s) == t.Attach(t.Tree(i), ns, s) {
        SetTwice(MembersOf(t.Tree(i)), DELIVERY_KEY, t.Record(mark.value.names, mark.value.sent), t.Record(ns, s));
      }
    }
  }

  lemma StoppedDoesNotRaise(t: Trim, budget: int, k: nat)
    requires HasResult(t.outcome) && t.StopsAt(budget, k)
    requires budget > 0 ==> forall n :: 1 <= n < k ==> !t.Deep(t.Order()[n].path)
    ensures !t.Raises(budget)
  {
    if budget > 0 {
      forall i | 1 <= i < |t.Order()| && t.Deep(t.Order()[i].path)
        ensures exists n :: 1 <= n <= i && t.Measured(n) <= budget
      {
        assert k <= i;
      }
    }
  }

  /** Stopping early leaves a document of at most one byte over the budget. */
  lemma EarlyStopFits(t: Trim, budget: int, k: nat)
    requires t.Valid() && t.StopsAt(budget, k) && k < |t.Order()|
    ensures WireBytes(Obj(t.Final(k))) <= budget + 1
  {
    SentIsNearlyExact(t, k);
  }

  /** Nothing shorter would have done: every cut before the one chosen is really over the budget, and with no budget
      everything goes. */
  lemma ShortestFit(t: Trim, budget: int, k: nat, i: nat)
    requires t.Valid() && t.StopsAt(budget, k) && 1 <= i < k
    ensures budget > 0 ==> WireBytes(Obj(t.Final(i))) > budget
    ensures budget <= 0 ==> k == |t.Order()|
  {
    SentIsNearlyExact(t, i);
  }

  /** A result with no delivery record, or with one this module wrote, is always trimmed without an exception. */
  lemma OwnRecordsNeverRaise(t: Trim, budget: int)
    requires t.Valid()
    requires var c := Child(t.Result(), Key(DELIVERY_KEY)); c.Some? ==> RecordLike(c.value)
    ensures !t.Raises(budget)
  {
    DroppedAreCandidates(t, 0);
    forall i | 0 <= i < |t.Order()| ensures !t.Deep(t.Order()[i].path) {
      var p := t.Order()[i].path;
      if t.Deep(p) {
        IsCandidateStep(t.Result(), p);
        RecordHasNoBulk(Child(t.Result(), p[0]).value, p[1..]);
      }
    }
  }
}
