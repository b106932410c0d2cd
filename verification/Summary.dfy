/** The record of a result that is reported: everything but the raw stack arrays. */
module Summary {
  import opened Text
  import opened Json

  const RESULT_OMIT_KEYS: set<string> := {"raw_stacks", "cpu_stacks_main", "cpu_stacks_io"}

  /** A row of the result log as it was parsed: a dict. */
  type ResultRow = ms: seq<Member> | WellFormed(Obj(ms)) witness []

  /** `{key: value for key, value in d.items() if key not in RESULT_OMIT_KEYS}` */
  function Kept(ms: seq<Member>): seq<Member> {
    if ms == [] then [] else (if ms[0].key in RESULT_OMIT_KEYS then [] else [ms[0]]) + Kept(ms[1..])
  }

  function KeptEntry(entry: Json): Json { if entry.Obj? then Obj(Kept(entry.members)) else entry }

  function KeptEntries(items: seq<Json>): seq<Json> { seq(|items|, i requires 0 <= i < |items| => KeptEntry(items[i])) }

  /** `_strip_raw_stacks` */
  function StripRawStacks(data: seq<Member>): seq<Member> {
    var cleaned := Kept(data);
    match Get(cleaned, "results")
    case Some(Arr(items)) => Set(cleaned, "results", Arr(KeptEntries(items)))
    case _ => cleaned
  }

  /** `_summarize_result` */
  function Summarize(result: seq<Member>): seq<Member> {
    var summary := Kept(result);
    match Get(summary, "data")
    case Some(Obj(data)) => Set(summary, "data", Obj(StripRawStacks(data)))
    case _ => summary
  }

  predicate OmittedPart(part: Part) { part.Key? && part.k in RESULT_OMIT_KEYS }

  /** A raw stack array at the top, in the data, or in one entry of its results, or a place inside one. */
  predicate Omitted(p: Path) {
    || (|p| >= 1 && OmittedPart(p[0]))
    || (|p| >= 2 && p[0] == Key("data") && OmittedPart(p[1]))
    || (|p| >= 4 && p[0] == Key("data") && p[1] == Key("results") && p[2].Index? && OmittedPart(p[3]))
  }

  /** A place that may hold such an array directly. */
  predicate Holder(p: Path) {
    || p == [] || p == [Key("data")] || p == [Key("data"), Key("results")]
    || (|p| == 3 && p[0] == Key("data") && p[1] == Key("results") && p[2].Index?)
  }

  lemma {:induction false} KeptGets(ms: seq<Member>, k: string)
    ensures Get(Kept(ms), k) == if k in RESULT_OMIT_KEYS then None else Get(ms, k)
  {
    if ms != [] {
      KeptGets(ms[1..], k);
      if ms[0].key in RESULT_OMIT_KEYS {
        assert Kept(ms) == Kept(ms[1..]);
      } else {
        assert Kept(ms)[0] == ms[0] && Kept(ms)[1..] == Kept(ms[1..]);
      }
    }
  }

  lemma {:induction false} KeptMembers(ms: seq<Member>, m: Member)
    requires m in Kept(ms)
    ensures m in ms
  {
    if m in Kept(ms[1..]) { KeptMembers(ms[1..], m); }
  }

  lemma TailDiffers(ms: seq<Member>, m: Member)
    requires ms != [] && UniqueKeys(ms) && m in ms[1..]
    ensures m.key != ms[0].key
  {
    var n :| 0 <= n < |ms[1..]| && ms[1..][n] == m;
    assert ms[n + 1] == m;
  }

  lemma ConsUnique(m: Member, rest: seq<Member>)
    requires UniqueKeys(rest) && forall x :: x in rest ==> x.key != m.key
    ensures UniqueKeys([m] + rest)
  {
    var all := [m] + rest;
    forall i, j | 0 <= i < j < |all| ensures all[i].key != all[j].key {
      assert all[j] == rest[j - 1] && rest[j - 1] in rest;
    }
  }

  lemma {:induction false} KeptUnique(ms: seq<Member>)
    requires UniqueKeys(ms)
    ensures UniqueKeys(Kept(ms))
  {
    if ms != [] {
      var rest := Kept(ms[1..]);
      assert UniqueKeys(ms[1..]);
      KeptUnique(ms[1..]);
      assert Kept(ms) == if ms[0].key in RESULT_OMIT_KEYS then rest else [ms[0]] + rest;
      hide Kept, UniqueKeys;
      forall x | x in rest ensures x.key != ms[0].key {
        KeptMembers(ms[1..], x);
        TailDiffers(ms, x);
      }
      ConsUnique(ms[0], rest);
    }
  }

  lemma KeptWellFormed(ms: seq<Member>)
    requires UniqueKeys(ms) && AllWellFormed(ms)
    ensures UniqueKeys(Kept(ms)) && AllWellFormed(Kept(ms))
  {
    hide WellFormed, Kept;
    KeptUnique(ms);
    forall i | 0 <= i < |Kept(ms)| ensures WellFormed(Kept(ms)[i].value) { KeptMembers(ms, Kept(ms)[i]); }
  }

  lemma EntriesWellFormed(items: seq<Json>)
    requires WellFormed(Arr(items))
    ensures WellFormed(Arr(KeptEntries(items)))
  {
    forall i | 0 <= i < |items| ensures WellFormed(KeptEntry(items[i])) {
      assert WellFormed(items[i]);
      if items[i].Obj? { KeptWellFormed(items[i].members); }
    }
  }

  lemma ValueWellFormed(ms: seq<Member>, k: string)
    requires AllWellFormed(ms) && Get(ms, k).Some?
    ensures WellFormed(Get(ms, k).value)
  {
    hide WellFormed;
    var i := GetFinds(ms, k);
  }

  lemma StripWellFormed(data: seq<Member>)
    requires WellFormed(Obj(data))
    ensures WellFormed(Obj(StripRawStacks(data)))
  {
    KeptWellFormed(data);
    var cleaned := Kept(data);
    if Get(cleaned, "results").Some? {
      ValueWellFormed(cleaned, "results");
      var results := Get(cleaned, "results").value;
      if results.Arr? {
        EntriesWellFormed(results.items);
        SetFacts(cleaned, "results", Arr(KeptEntries(results.items)));
      }
    }
  }

  lemma SummaryWellFormed(result: seq<Member>)
    requires WellFormed(Obj(result))
    ensures WellFormed(Obj(Summarize(result)))
  {
    KeptWellFormed(result);
    var summary := Kept(result);
    if Get(summary, "data").Some? {
      ValueWellFormed(summary, "data");
      var data := Get(summary, "data").value;
      if data.Obj? {
        StripWellFormed(data.members);
        SetFacts(summary, "data", Obj(StripRawStacks(data.members)));
      }
    }
  }

  lemma LookupStep(j: Json, p: Path)
    requires p != []
    ensures Lookup(j, p) == match Child(j, p[0]) case None => None case Some(c) => Lookup(c, p[1..])
  {}

  lemma EntryKeeps(entry: Json, p: Path)
    ensures p != [] ==>
      Lookup(KeptEntry(entry), p) == if OmittedPart(p[0]) && entry.Obj? then None else Lookup(entry, p)
  {
    if p != [] && entry.Obj? && p[0].Key? { KeptGets(entry.members, p[0].k); }
  }

  lemma EntriesKeep(items: seq<Json>, p: Path)
    requires p != []
    ensures |p| >= 2 && p[0].Index? && OmittedPart(p[1]) ==> Lookup(Arr(KeptEntries(items)), p) == None
    ensures |p| >= 2 && !(p[0].Index? && OmittedPart(p[1])) ==>
      Lookup(Arr(KeptEntries(items)), p) == Lookup(Arr(items), p)
    ensures |p| == 1 ==> Lookup(Arr(KeptEntries(items)), p).Some? == Lookup(Arr(items), p).Some?
    ensures p[0].Key? ==> Lookup(Arr(KeptEntries(items)), p) == Lookup(Arr(items), p)
  {
    LookupStep(Arr(items), p);
    LookupStep(Arr(KeptEntries(items)), p);
    if p[0].Index? && p[0].i < |items| { EntryKeeps(items[p[0].i], p[1..]); }
  }

  /** Within the data. */
  lemma StripKeeps(data: seq<Member>, p: Path)
    requires p != []
    ensures var full := [Key("data")] + p;
      var before, after := Lookup(Obj(data), p), Lookup(Obj(StripRawStacks(data)), p);
      && (Omitted(full) ==> after == None)
      && (!Omitted(full) && Holder(full) ==> after.Some? == before.Some?)
      && (!Omitted(full) && !Holder(full) ==> after == before)
  {
    var cleaned := Kept(data);
    var full := [Key("data")] + p;
    LookupStep(Obj(data), p);
    LookupStep(Obj(StripRawStacks(data)), p);
    if p[0].Key? {
      var k := p[0].k;
      KeptGets(data, k);
      KeptGets(data, "results");
      match Get(cleaned, "results")
      case Some(Arr(items)) =>
        SetGets(cleaned, "results", Arr(KeptEntries(items)), k);
        if k == "results" && |p| > 1 { EntriesKeep(items, p[1..]); }
      case _ =>
    }
  }

  /** The reported record is the result without its raw stack arrays: nothing is left of them, everything else is as
      it was, and what held them is still there. */
  lemma SummaryKeepsTheRest(result: seq<Member>, p: Path)
    ensures var before, after := Lookup(Obj(result), p), Lookup(Obj(Summarize(result)), p);
      && (Omitted(p) ==> after == None)
      && (!Omitted(p) && Holder(p) ==> after.Some? == before.Some?)
      && (!Omitted(p) && !Holder(p) ==> after == before)
  {
    var summary := Kept(result);
    if p != [] {
      LookupStep(Obj(result), p);
      LookupStep(Obj(Summarize(result)), p);
      if p[0].Key? {
        var k := p[0].k;
        KeptGets(result, k);
        KeptGets(result, "data");
        match Get(summary, "data")
        case Some(Obj(data)) =>
          SetGets(summary, "data", Obj(StripRawStacks(data)), k);
          if k == "data" && |p| > 1 {
            assert [Key("data")] + p[1..] == p;
            StripKeeps(data, p[1..]);
          }
        case _ =>
      }
    }
  }
}
