/** Two outcomes the trimming handles badly: one whose recorded size is one short, and one that raises. */
module TrimExtremes {
  import opened Text
  import opened Json
  import opened BulkCandidates
  import opened OutcomeSize
  import opened Ladder
  import Sorting
  import opened Summary

  function Padding(n: nat): string { seq(n, i => 'x') }

  lemma {:induction false} PaddingBytes(n: nat)
    ensures CharsBytes(Padding(n)) == n
  {
    if n > 0 {
      assert Padding(n)[1..] == Padding(n - 1);
      PaddingBytes(n - 1);
    }
  }

  lemma {:induction false} CharsConcat(a: string, b: string)
    ensures CharsBytes(a + b) == CharsBytes(a) + CharsBytes(b)
  {
    if a == [] {
      assert a + b == b;
    } else {
      assert (a + b)[1..] == a[1..] + b;
      CharsConcat(a[1..], b);
    }
  }

  lemma {:induction false} DigitsBytes(s: string)
    requires forall i :: 0 <= i < |s| ==> IsDigit(s[i])
    ensures CharsBytes(s) == |s|
  {
    if s != [] { DigitsBytes(s[1..]); }
  }

  lemma {:induction false} SetAt(ms: seq<Member>, k: string, v: Json, i: nat)
    requires i < |ms| && ms[i].key == k && forall j :: 0 <= j < i ==> ms[j].key != k
    ensures Set(ms, k, v) == ms[i := Member(k, v)]
  {
    if i == 0 {
    } else {
      SetAt(ms[1..], k, v, i - 1);
      assert ms[i := Member(k, v)] == [ms[0]] + ms[1..][i - 1 := Member(k, v)];
    }
  }

  lemma {:induction false} MemberFits(ms: seq<Member>, i: nat)
    requires i < |ms|
    ensures MembersBytes(ms) >= WireBytes(ms[i].value)
  {
    if i > 0 { MemberFits(ms[1..], i - 1); }
  }

  /** A completed outcome of some task, reported under a budget. */
  datatype Report = Report(taskId: string, runnerId: string, at: string, budget: nat) {

    function Outcome(result: Json): Ladder.Outcome { CompletedOutcome(taskId, runnerId, at, result) }

    function Trim(result: Json): OutcomeSize.Trim { PreflightTrim(Outcome(result), budget) }
  }

  lemma ResultIsFifth(r: Report, result: Json)
    ensures var o := r.Outcome(result);
      && |o| == 7 && o[5] == Member(RESULT_KEY, result) && forall j :: 0 <= j < 5 ==> o[j].key != RESULT_KEY
  {}

  lemma OnlyTheResult(r: Report, result: Json, other: Json)
    ensures r.Outcome(result)[5 := Member(RESULT_KEY, other)] == r.Outcome(other)
  {}

  lemma {:induction false} GetFirst(ms: seq<Member>, k: string, i: nat)
    requires i < |ms| && ms[i].key == k && forall j :: 0 <= j < i ==> ms[j].key != k
    ensures Get(ms, k) == Some(ms[i].value)
  {
    if i > 0 { GetFirst(ms[1..], k, i - 1); }
  }

  lemma ResultPlace(r: Report, result: Json, other: Json)
    ensures Set(r.Outcome(result), RESULT_KEY, other) == r.Outcome(other)
    ensures Get(r.Outcome(result), RESULT_KEY) == Some(result)
    ensures WireBytes(Obj(r.Outcome(result))) - WireBytes(result) == WireBytes(Obj(r.Outcome(other))) - WireBytes(other)
    ensures WireBytes(Obj(r.Outcome(result))) >= WireBytes(result)
  {
    ResultIsFifth(r, result);
    OnlyTheResult(r, result, other);
    OnlyTheResult(r, result, result);
    ObjBytes(r.Outcome(result));
    ObjBytes(r.Outcome(other));
    hide WireBytes, Set, Get, CompletedOutcome, MembersBytes;
    var o := r.Outcome(result);
    SetAt(o, RESULT_KEY, other, 5);
    SetAt(o, RESULT_KEY, result, 5);
    SetBytes(o, RESULT_KEY, result, other);
    GetFirst(o, RESULT_KEY, 5);
    MemberFits(o, 5);
  }

  lemma ObjBytes(ms: seq<Member>)
    ensures WireBytes(Obj(ms)) == 2 + MembersBytes(ms)
  {}

  lemma ConsBytes(m: Member, rest: seq<Member>)
    ensures MembersBytes([m] + rest) ==
      StrBytes(m.key) + 1 + WireBytes(m.value) + (if rest != [] then 1 else 0) + MembersBytes(rest)
  {
    assert ([m] + rest)[1..] == rest;
  }

  // ----- results with a note, one series and perhaps an old delivery record -----

  function Note(n: nat): Member { Member("note", Str(Padding(n))) }

  function Noted(n: nat, series: string, extra: seq<Member>): Json {
    Obj([Note(n), Member("series", Str(series))] + extra)
  }

  function Unnoted(n: nat, rest: seq<Member>): Json { Obj([Note(n)] + rest) }

  lemma NoteBytes(n: nat, rest: seq<Member>)
    ensures WireBytes(Unnoted(n, rest)) == WireBytes(Unnoted(0, rest)) + n
    ensures WireBytes(Unnoted(n, rest)) >= n
  {
    PaddingBytes(n);
    PaddingBytes(0);
    ConsBytes(Note(n), rest);
    ConsBytes(Note(0), rest);
    assert WireBytes(Str(Padding(n))) == 2 + n && WireBytes(Str(Padding(0))) == 2;
  }

  lemma SeriesGoes(n: nat, series: string, extra: seq<Member>)
    ensures Delete(Noted(n, series, extra), [Key("series")]) == Some(Unnoted(n, extra))
  {
    var ms := [Note(n), Member("series", Str(series))] + extra;
    assert ms[1..][1..] == extra;
    assert Remove(ms[1..], "series") == extra;
    assert Remove(ms, "series") == [Note(n)] + extra;
  }

  lemma NotedCands(n: nat, series: string, extra: seq<Member>)
    ensures Cands(Noted(n, series, extra)) == [Candidate(WireBytes(Str(series)), [Key("series")])] + MemberCands(extra)
  {
    hide WireBytes;
    var ms := [Note(n), Member("series", Str(series))] + extra;
    assert ms[1..][1..] == extra && ms[1..][0] == Member("series", Str(series));
    assert MemberHere(ms[0]) == [];
    assert MemberHere(ms[1]) == [Candidate(WireBytes(Str(series)), [Key("series")])];
    assert MemberCands(ms) == [] + (MemberHere(ms[1]) + MemberCands(extra));
  }

  // ----- a recorded size one below the true one -----

  /** One note of `n` bytes and one empty series. */
  function Plain(n: nat): Json { Noted(n, "", []) }

  function OneSeries(): Candidate { Candidate(2, [Key("series")]) }

  lemma OneSeriesOrder(n: nat)
    ensures DropOrder(Plain(n)) == [OneSeries()]
  {
    NotedCands(n, "", []);
    assert MemberCands([]) == [];
    assert [OneSeries()] + [] == [OneSeries()];
    assert Sorting.SortBy(DropsFirst, [OneSeries()]) == [OneSeries()];
  }

  lemma PlainTrim(r: Report, n: nat)
    ensures var t := r.Trim(Plain(n));
      && HasResult(t.outcome) && t.Result() == Plain(n) && t.Order() == [OneSeries()]
      && t.Tree(1) == Unnoted(n, []) && t.Names(1) == [t.Name(OneSeries())]
  {
    hide Cands, Plain, Noted, Delete, CompletedOutcome, DropOrder;
    ResultPlace(r, Plain(n), Null);
    PlainIsDict(n);
    OneSeriesOrder(n);
    var t := r.Trim(Plain(n));
    assert t.Result() == Plain(n);
    assert Paths([OneSeries()])[..1] == [[Key("series")]];
    PlainLeft(n);
  }

  lemma PlainIsDict(n: nat)
    ensures Plain(n).Obj? && WellFormed(Plain(n))
  {}

  lemma PlainLeft(n: nat)
    ensures DeleteAll(Plain(n), [[Key("series")]]) == Some(Unnoted(n, []))
  {
    SeriesGoes(n, "", []);
    var ps: seq<Path> := [[Key("series")]];
    assert ps[1..] == [];
    assert DeleteAll(Unnoted(n, []), []) == Some(Unnoted(n, []));
  }

  /** The document once the series is gone, with the size field at 0. */
  lemma PlainDocument(r: Report, n: nat)
    ensures var t := r.Trim(Plain(n));
      && HasResult(t.outcome) && 1 <= |t.Order()|
      && t.Document(1, 0) == r.Outcome(Unnoted(n, [Member(DELIVERY_KEY, Obj(t.BaseRecord([t.Name(OneSeries())])))]))
  {
    hide Plain, CompletedOutcome;
    var t := r.Trim(Plain(n));
    PlainTrim(r, n);
    var names := [t.Name(OneSeries())];
    var rec := t.Record(names, 0);
    ZeroRecord(t, names);
    ResultPlace(r, Plain(n), Obj(Set(MembersOf(Unnoted(n, [])), DELIVERY_KEY, rec)));
    AddDelivery(n, rec);
  }

  lemma ZeroRecord(t: OutcomeSize.Trim, names: seq<string>)
    ensures t.Record(names, 0) == Obj(t.BaseRecord(names))
  {
    hide WireBytes;
    var base := t.BaseRecord(names);
    SetAt(base, SENT_KEY, Int(0), 4);
    assert base[4 := Member(SENT_KEY, Int(0))] == base;
  }

  lemma AddDelivery(n: nat, rec: Json)
    ensures Obj(Set(MembersOf(Unnoted(n, [])), DELIVERY_KEY, rec)) == Unnoted(n, [Member(DELIVERY_KEY, rec)])
  {
    assert [Note(n)] + [] == [Note(n)] && [Note(n)][1..] == [];
    assert Set([], DELIVERY_KEY, rec) == [Member(DELIVERY_KEY, rec)];
  }

  /** Two records differ in size only by their reason and the original size. */
  lemma RecordBytes(t: OutcomeSize.Trim, u: OutcomeSize.Trim, names: seq<string>)
    requires t.fullPath == u.fullPath
    ensures var a, b := WireBytes(Obj(t.outcome)), WireBytes(Obj(u.outcome));
      MembersBytes(t.BaseRecord(names)) - CharsBytes(t.reason) - |Decimal(a)|
        == MembersBytes(u.BaseRecord(names)) - CharsBytes(u.reason) - |Decimal(b)|
  {
    var a, b := WireBytes(Obj(t.outcome)), WireBytes(Obj(u.outcome));
    IntBytes(a);
    IntBytes(b);
    StringBytes(t.reason);
    StringBytes(u.reason);
    hide WireBytes, MembersBytes, Set, Decimal;
    var base, goal := t.BaseRecord(names), u.BaseRecord(names);
    var mid := base[1 := Member("reason", Str(u.reason))];
    SetAt(base, "reason", Str(t.reason), 1);
    SetAt(base, "reason", Str(u.reason), 1);
    SetBytes(base, "reason", Str(t.reason), Str(u.reason));
    SetAt(mid, "original_bytes", Int(a), 3);
    SetAt(mid, "original_bytes", Int(b), 3);
    SetBytes(mid, "original_bytes", Int(a), Int(b));
    assert base[1 := Member("reason", Str(t.reason))] == base;
    assert mid[3 := Member("original_bytes", Int(a))] == mid;
    assert mid[3 := Member("original_bytes", Int(b))] == goal;
  }

  lemma IntBytes(n: nat)
    ensures WireBytes(Int(n)) == |Decimal(n)|
  {}

  lemma StringBytes(s: string)
    ensures WireBytes(Str(s)) == 2 + CharsBytes(s)
  {}

  lemma ReasonBytes(o: Outcome, budget: nat)
    ensures CharsBytes(PreflightReason(o, budget)) ==
      CharsBytes("preflight: ") + |Decimal(WireBytes(Obj(o)))| + CharsBytes(" bytes over max_outcome_bytes ")
        + |Decimal(budget)|
  {
    hide WireBytes, CharsBytes, Decimal;
    var a, b, c, d := "preflight: ", Decimal(WireBytes(Obj(o))), " bytes over max_outcome_bytes ", Decimal(budget);
    CharsConcat(a, b);
    CharsConcat(a + b, c);
    CharsConcat(a + b + c, d);
    DigitsBytes(b);
    DigitsBytes(d);
  }

  function Size(r: Report, n: nat): nat { WireBytes(Obj(r.Outcome(Plain(n)))) }

  function First(r: Report, n: nat): nat {
    var record := Obj(r.Trim(Plain(n)).BaseRecord([r.Trim(Plain(n)).Name(OneSeries())]));
    WireBytes(Obj(r.Outcome(Unnoted(n, [Member(DELIVERY_KEY, record)]))))
  }

  /** Both sizes as functions of the length of the note. */
  lemma Sizes(r: Report, n: nat)
    ensures Size(r, n) == Size(r, 0) + n
    ensures First(r, n) == First(r, 0) + n + 2 * (|Decimal(Size(r, n))| - |Decimal(Size(r, 0))|)
  {
    SizeGrows(r, n);
    FirstGrows(r, n);
  }

  lemma SizeGrows(r: Report, n: nat)
    ensures Size(r, n) == Size(r, 0) + n
  {
    hide WireBytes, CompletedOutcome, Padding;
    ResultPlace(r, Plain(n), Plain(0));
    var rest := [Member("series", Str(""))];
    assert Plain(n) == Unnoted(n, rest) by { assert [Note(n), Member("series", Str(""))] + [] == [Note(n)] + rest; }
    assert Plain(0) == Unnoted(0, rest) by { assert [Note(0), Member("series", Str(""))] + [] == [Note(0)] + rest; }
    NoteBytes(n, rest);
  }

  lemma FirstGrows(r: Report, n: nat)
    ensures First(r, n) == First(r, 0) + n + 2 * (|Decimal(Size(r, n))| - |Decimal(Size(r, 0))|)
  {
    var t, u := r.Trim(Plain(n)), r.Trim(Plain(0));
    var names := [t.Name(OneSeries())];
    assert names == [u.Name(OneSeries())];
    var mt, mu := Member(DELIVERY_KEY, Obj(t.BaseRecord(names))), Member(DELIVERY_KEY, Obj(u.BaseRecord(names)));
    hide WireBytes, CompletedOutcome, Plain, Note, Decimal, MembersBytes, CharsBytes;
    ResultPlace(r, Unnoted(n, [mt]), Unnoted(0, [mu]));
    NoteBytes(n, [mt]);
    DeliveryBytes(mt, mu);
    ObjBytes(t.BaseRecord(names));
    ObjBytes(u.BaseRecord(names));
    RecordBytes(t, u, names);
    ReasonBytes(t.outcome, r.budget);
    ReasonBytes(u.outcome, r.budget);
  }

  lemma DeliveryBytes(a: Member, b: Member)
    requires a.key == b.key
    ensures WireBytes(Unnoted(0, [a])) - WireBytes(a.value) == WireBytes(Unnoted(0, [b])) - WireBytes(b.value)
  {
    hide CharsBytes;
    ConsBytes(Note(0), [a]);
    ConsBytes(Note(0), [b]);
    ConsBytes(a, []);
    ConsBytes(b, []);
    assert [a] + [] == [a] && [b] + [] == [b];
    ObjBytes([Note(0)] + [a]);
    ObjBytes([Note(0)] + [b]);
  }

  lemma DecimalStep(m: nat)
    ensures |Decimal(m)| <= |Decimal(m + 1)| <= |Decimal(m)| + 1
  {
    DecimalMonotone(m, m + 1);
    if m >= 1 {
      DecimalMonotone(m + 1, 10 * m);
      DecimalTimesTen(m);
    }
  }

  lemma {:induction false} PowExceeds(e: nat)
    ensures Pow10(e) > e
  {
    if e > 0 { PowExceeds(e - 1); }
  }

  lemma FirstSteps(r: Report, n: nat)
    ensures First(r, n) < First(r, n + 1) <= First(r, n) + 3
  {
    hide First, Size;
    Sizes(r, n);
    Sizes(r, n + 1);
    DecimalStep(Size(r, n));
  }

  /** A longer note grows the document by at most three bytes, so some note comes within three bytes of any target. */
  lemma {:induction false} NoteFor(r: Report, target: nat, n: nat) returns (m: nat)
    requires First(r, n) < target
    ensures target - 3 <= First(r, m) < target
    decreases target - First(r, n)
  {
    hide First;
    m := n;
    if First(r, n) < target - 3 {
      FirstSteps(r, n);
      m := NoteFor(r, target, n + 1);
    }
  }

  lemma JustBelowCrosses(first: nat, e: nat)
    requires e >= 4 && Pow10(e) - 3 <= first < Pow10(e)
    ensures Crosses(first)
  {
    DigitsAndPowers(first, e);
    DigitsAndPowers(first, e - 1);
    PowExceeds(e - 1);
  }

  lemma NoteIsLong(r: Report, n: nat, target: nat)
    requires target >= First(r, 0) + 2 * Size(r, 0) + 3 * r.budget + 10 && target - 3 <= First(r, n)
    ensures Size(r, n) > r.budget
  {
    hide First, Size;
    Sizes(r, n);
    DecimalShort(Size(r, n));
  }

  /** For every budget there is a completed outcome over it that goes out trimmed with a recorded size one short. */
  lemma RecordedSizeCanFallShort(r: Report) returns (n: nat)
    ensures var o, t := r.Outcome(Plain(n)), r.Trim(Plain(n));
      && ValidOutcome(o) && Completed(o) && WireBytes(Obj(o)) > r.budget
      && t.Valid() && 1 <= |t.Order()| && Preflighted(o, r.budget, Some(t.Final(1)))
      && WireBytes(Obj(t.Final(1))) == t.Measured(1) + 1
  {
    var e := First(r, 0) + 2 * Size(r, 0) + 3 * r.budget + 10;
    PowExceeds(e);
    n := NoteFor(r, Pow10(e), 0);
    NoteIsLong(r, n, Pow10(e));
    JustBelowCrosses(First(r, n), e);
    PlainIsDict(n);
    DocumentFields(r.taskId, r.runnerId, "completed", r.at, Plain(n), Null);
    PlainFacts(r, n);
    SentIsNearlyExact(r.Trim(Plain(n)), 1);
    PlainGoesOut(r, n);
  }

  lemma PlainFacts(r: Report, n: nat)
    ensures var t := r.Trim(Plain(n)); HasResult(t.outcome) && |t.Order()| == 1 && t.FirstSize(1) == First(r, n)
  {
    hide Plain, WireBytes, CompletedOutcome;
    PlainTrim(r, n);
    PlainDocument(r, n);
  }

  lemma PlainGoesOut(r: Report, n: nat)
    requires var t := r.Trim(Plain(n)); HasResult(t.outcome) && |t.Order()| == 1
    requires WireBytes(Obj(r.Outcome(Plain(n)))) > r.budget
    ensures Preflighted(r.Outcome(Plain(n)), r.budget, Some(r.Trim(Plain(n)).Final(1)))
  {
    hide Plain, WireBytes, CompletedOutcome, DropOrder;
    var t := r.Trim(Plain(n));
    assert t.StopsAt(r.budget, 1);
    assert !t.Raises(r.budget);
  }

  // ----- an outcome that raises -----

  /** A delivery record some other writer left, with a bulk value two levels down. */
  function ForeignRecord(): Json { Obj([Member("inner", Obj([Member("samples", Str(""))]))]) }

  function Foreign(n: nat): Json { Noted(n, "xxx", [Member(DELIVERY_KEY, ForeignRecord())]) }

  function BigSeries(): Candidate { Candidate(5, [Key("series")]) }

  function DeepSamples(): Candidate { Candidate(2, [Key(DELIVERY_KEY), Key("inner"), Key("samples")]) }

  lemma DeepCands()
    ensures MemberCands([Member(DELIVERY_KEY, ForeignRecord())]) == [DeepSamples()]
  {
    var inner := [Member("samples", Str(""))];
    assert MemberCands(inner) == [Candidate(2, [Key("samples")])] by {
      assert inner[1..] == [];
      assert MemberHere(inner[0]) + [] == MemberHere(inner[0]);
    }
    OneUnder("inner", Obj(inner), Candidate(2, [Key("samples")]));
    assert [Key("inner")] + [Key("samples")] == [Key("inner"), Key("samples")];
    OneUnder(DELIVERY_KEY, ForeignRecord(), Candidate(2, [Key("inner"), Key("samples")]));
    assert [Key(DELIVERY_KEY)] + [Key("inner"), Key("samples")] == DeepSamples().path;
  }

  lemma OneUnder(k: string, v: Json, c: Candidate)
    requires k !in BULK_RESULT_KEYS && Cands(v) == [c]
    ensures MemberCands([Member(k, v)]) == [Candidate(c.bytes, [Key(k)] + c.path)]
  {
    var ms := [Member(k, v)];
    assert ms[1..] == [];
    assert MemberHere(ms[0]) + [] == MemberHere(ms[0]);
  }

  lemma ForeignOrder(n: nat)
    ensures DropOrder(Foreign(n)) == [BigSeries(), DeepSamples()]
  {
    NotedCands(n, "xxx", [Member(DELIVERY_KEY, ForeignRecord())]);
    DeepCands();
    assert WireBytes(Str("xxx")) == 5 by { assert "xxx"[1..] == "xx" && "xx"[1..] == "x" && "x"[1..] == ""; }
    var two := [BigSeries(), DeepSamples()];
    assert [BigSeries()] + [DeepSamples()] == two && two[1..] == [DeepSamples()] && [DeepSamples()][1..] == [];
    hide MemberCands, PathText, TextLe;
    assert Sorting.SortBy(DropsFirst, [DeepSamples()]) == [DeepSamples()];
    assert Sorting.SortBy(DropsFirst, two) == two;
  }

  lemma ForeignIsDict(n: nat)
    ensures Foreign(n).Obj? && WellFormed(Foreign(n))
  {}

  lemma ForeignLeft(n: nat)
    ensures DeleteAll(Foreign(n), [[Key("series")]]) == Some(Unnoted(n, [Member(DELIVERY_KEY, ForeignRecord())]))
  {
    var extra := [Member(DELIVERY_KEY, ForeignRecord())];
    SeriesGoes(n, "xxx", extra);
    var ps: seq<Path> := [[Key("series")]];
    assert ps[1..] == [];
    assert DeleteAll(Unnoted(n, extra), []) == Some(Unnoted(n, extra));
  }

  lemma ForeignTrim(r: Report, n: nat)
    ensures var t := r.Trim(Foreign(n));
      && HasResult(t.outcome) && t.Order() == [BigSeries(), DeepSamples()]
      && t.Tree(1) == Unnoted(n, [Member(DELIVERY_KEY, ForeignRecord())])
  {
    hide Cands, Foreign, Noted, Delete, CompletedOutcome, DropOrder;
    ResultPlace(r, Foreign(n), Null);
    ForeignIsDict(n);
    ForeignOrder(n);
    var t := r.Trim(Foreign(n));
    assert t.Result() == Foreign(n);
    assert Paths([BigSeries(), DeepSamples()])[..1] == [[Key("series")]];
    ForeignLeft(n);
  }

  lemma ReplaceRecord(n: nat, rec: Json)
    ensures Obj(Set(MembersOf(Unnoted(n, [Member(DELIVERY_KEY, ForeignRecord())])), DELIVERY_KEY, rec))
      == Unnoted(n, [Member(DELIVERY_KEY, rec)])
  {
    var ms := [Note(n)] + [Member(DELIVERY_KEY, ForeignRecord())];
    SetAt(ms, DELIVERY_KEY, rec, 1);
    assert ms[1 := Member(DELIVERY_KEY, rec)] == [Note(n)] + [Member(DELIVERY_KEY, rec)];
  }

  lemma ForeignMeasured(r: Report, n: nat)
    ensures var t := r.Trim(Foreign(n)); HasResult(t.outcome) && 1 <= |t.Order()| && t.Measured(1) >= n
  {
    hide Foreign, CompletedOutcome, WireBytes, Note;
    ForeignTrim(r, n);
    var t := r.Trim(Foreign(n));
    var rec := t.Record(t.Names(1), t.FirstSize(1));
    ReplaceRecord(n, rec);
    var doc := Unnoted(n, [Member(DELIVERY_KEY, rec)]);
    ResultPlace(r, Foreign(n), doc);
    ResultPlace(r, doc, Null);
    NoteBytes(n, [Member(DELIVERY_KEY, rec)]);
  }

  lemma ForeignIsBig(r: Report, n: nat)
    ensures WireBytes(Obj(r.Outcome(Foreign(n)))) >= n
  {
    hide CompletedOutcome;
    ResultPlace(r, Foreign(n), Null);
    var rest := [Member("series", Str("xxx"))] + [Member(DELIVERY_KEY, ForeignRecord())];
    assert [Note(n), Member("series", Str("xxx"))] + [Member(DELIVERY_KEY, ForeignRecord())] == [Note(n)] + rest;
    NoteBytes(n, rest);
  }

  lemma DeepSecondRaises(t: OutcomeSize.Trim, budget: nat)
    requires budget > 0 && HasResult(t.outcome) && t.Order() == [BigSeries(), DeepSamples()] && t.Measured(1) > budget
    ensures t.Raises(budget)
  {
    hide WireBytes, DropOrder, Get;
    assert t.Order()[1] == DeepSamples() && t.Deep(DeepSamples().path);
  }

  lemma ForeignDocument(r: Report, n: nat)
    ensures ValidOutcome(r.Outcome(Foreign(n))) && Completed(r.Outcome(Foreign(n)))
  {
    hide Foreign;
    ForeignIsDict(n);
    DocumentFields(r.taskId, r.runnerId, "completed", r.at, Foreign(n), Null);
  }

  /** For every positive budget there is a completed outcome over it whose trimming raises. */
  lemma ForeignRecordRaises(r: Report)
    requires r.budget > 0
    ensures var o, t := r.Outcome(Foreign(r.budget + 1)), r.Trim(Foreign(r.budget + 1));
      && ValidOutcome(o) && Completed(o) && WireBytes(Obj(o)) > r.budget
      && HasResult(o) && t.Raises(r.budget) && Preflighted(o, r.budget, None)
  {
    var n := r.budget + 1;
    ForeignDocument(r, n);
    ForeignIsBig(r, n);
    ForeignTrim(r, n);
    ForeignMeasured(r, n);
    hide Foreign, CompletedOutcome, WireBytes, DropOrder, WellFormed, Get, Completed, ValidOutcome;
    DeepSecondRaises(r.Trim(Foreign(n)), r.budget);
  }

  lemma ForeignIsReportedWhole(n: nat)
    ensures WellFormed(Foreign(n)) && Summarize(MembersOf(Foreign(n))) == MembersOf(Foreign(n))
  {
    var note, series, record := Note(n), Member("series", Str("xxx")), Member(DELIVERY_KEY, ForeignRecord());
    var ms := MembersOf(Foreign(n));
    assert ms == [note, series, record];
    assert ms[1..] == [series, record] && [series, record][1..] == [record] && [record][1..] == [];
    hide WellFormed, ForeignRecord, Padding;
    assert Kept([record]) == [record];
    assert Kept([series, record]) == [series, record];
    assert Kept(ms) == ms;
    assert Get([record], "data") == None;
    assert Get([series, record], "data") == None;
    ForeignIsDict(n);
  }

  /** For every positive budget there is a result row that no process with that budget ever gets staged. */
  lemma ForeignRowIsNeverStaged(taskId: string, runnerId: string, budget: nat) returns (row: ResultRow)
    requires budget > 0
    ensures StagingRaises(taskId, runnerId, Obj(Summarize(row)), budget)
  {
    ForeignIsReportedWhole(budget + 1);
    row := MembersOf(Foreign(budget + 1));
    hide Foreign, Preflighted, CompletedOutcome;
    forall at: string ensures Preflighted(CompletedOutcome(taskId, runnerId, at, Obj(Summarize(row))), budget, None) {
      ForeignRecordRaises(Report(taskId, runnerId, at, budget));
    }
  }
}
