/** CPU lists as text: the printer, the validator, the parser and the counter. */
module Cpulist {
  import opened Text
  import Sorting

  // ----- the printer -----

  datatype Range = Range(lo: nat, hi: nat)

  /** Extends the last range by the next CPU, or opens a new one. */
  function AddCpu(ranges: seq<Range>, cpu: nat): seq<Range> {
    if ranges != [] && cpu == ranges[|ranges| - 1].hi + 1 then
      ranges[|ranges| - 1 := ranges[|ranges| - 1].(hi := cpu)]
    else ranges + [Range(cpu, cpu)]
  }

  function RangesOf(cpus: seq<nat>): seq<Range> {
    if cpus == [] then [] else AddCpu(RangesOf(cpus[..|cpus| - 1]), cpus[|cpus| - 1])
  }

  function RangeText(r: Range): string {
    if r.lo != r.hi then Decimal(r.lo) + "-" + Decimal(r.hi) else Decimal(r.lo)
  }

  /** `",".join(...)` */
  function JoinTexts(ranges: seq<Range>): string {
    if ranges == [] then ""
    else if |ranges| == 1 then RangeText(ranges[0])
    else RangeText(ranges[0]) + "," + JoinTexts(ranges[1..])
  }

  function Format(cpus: seq<nat>): string { JoinTexts(RangesOf(cpus)) }

  method FormatCpulist(cpus: seq<nat>) returns (text: string)
    ensures text == Format(cpus)
  {
    var ranges: seq<Range> := [];
    for i := 0 to |cpus|
      invariant ranges == RangesOf(cpus[..i])
    {
      assert cpus[..i + 1][..i] == cpus[..i];
      if ranges != [] && cpus[i] == ranges[|ranges| - 1].hi + 1 {
        ranges := ranges[|ranges| - 1 := ranges[|ranges| - 1].(hi := cpus[i])];
      } else {
        ranges := ranges + [Range(cpus[i], cpus[i])];
      }
    }
    assert cpus[..|cpus|] == cpus;
    text := JoinTexts(ranges);
  }

  // ----- the validator, the parser and the counter -----

  /** `^[0-9]+(?:[-,][0-9]+)*$`; the dollar also matches before a final newline. */
  predicate Scan(s: string, needDigit: bool) {
    if s == [] then !needDigit
    else if IsDigit(s[0]) then Scan(s[1..], false)
    else if (s[0] == '-' || s[0] == ',') && !needDigit then Scan(s[1..], true)
    else s == "\n" && !needDigit
  }

  predicate Validates(s: string) { s == "" || Scan(s, true) }

  /** Digits with single underscores between them. */
  function ParseDigits(s: string, value: nat, afterDigit: bool): Option<nat> {
    if s == [] then (if afterDigit then Some(value) else None)
    else if IsDigit(s[0]) then ParseDigits(s[1..], 10 * value + (s[0] as int - '0' as int), true)
    else if s[0] == '_' && afterDigit then ParseDigits(s[1..], value, false)
    else None
  }

  function Negated(n: Option<int>): Option<int> { if n.Some? then Some(-n.value) else None }

  /** `int(text)` for ASCII text; None is a ValueError. */
  function PyInt(text: string): Option<int> {
    var s := Strip(text);
    if s != [] && s[0] == '-' then Negated(ParseDigits(s[1..], 0, false))
    else if s != [] && s[0] == '+' then ParseDigits(s[1..], 0, false)
    else ParseDigits(s, 0, false)
  }

  function SplitOn(c: char, s: string): (parts: seq<string>)
    ensures |parts| >= 1
  {
    if s == [] then [[]]
    else
      var rest := SplitOn(c, s[1..]);
      if s[0] == c then [[]] + rest else [[s[0]] + rest[0]] + rest[1..]
  }

  /** `part.split("-", 1)` of a part with a dash. */
  function Ends(part: string): (string, string)
    requires '-' in part
  {
    if part[0] == '-' then ([], part[1..])
    else var (a, b) := Ends(part[1..]); ([part[0]] + a, b)
  }

  /** `range(lo, hi)` */
  function Span(lo: int, hi: int): seq<int>
    decreases if lo < hi then hi - lo else 0
  {
    if lo >= hi then [] else [lo] + Span(lo + 1, hi)
  }

  function ParsePart(part: string): Option<seq<int>> {
    if '-' in part then
      var (start, end) := Ends(part);
      if PyInt(start).Some? && PyInt(end).Some? then Some(Span(PyInt(start).value, PyInt(end).value + 1)) else None
    else match PyInt(part) case Some(n) => Some([n]) case None => None
  }

  function ParseParts(parts: seq<string>): Option<seq<int>> {
    if parts == [] then Some([])
    else match ParsePart(parts[0])
      case None => None
      case Some(cpus) => match ParseParts(parts[1..]) case None => None case Some(rest) => Some(cpus + rest)
  }

  predicate IntLe(a: int, b: int) { a <= b }

  function Sorted(s: seq<int>): seq<int> { Sorting.SortBy(IntLe, s) }

  function Parsed(cpulist: string): Option<seq<int>> {
    if !Validates(cpulist) then None
    else match ParseParts(SplitOn(',', cpulist)) case None => None case Some(cpus) => Some(Sorted(cpus))
  }

  method ExpandPart(part: string) returns (cpus: Option<seq<int>>)
    ensures cpus == ParsePart(part)
  {
    if '-' in part {
      var (start, end) := Ends(part);
      var lo, hi := PyInt(start), PyInt(end);
      if lo == None || hi == None { return None; }
      return Some(Span(lo.value, hi.value + 1));
    }
    var n := PyInt(part);
    if n == None { return None; }
    return Some([n.value]);
  }

  lemma ParseStep(parts: seq<string>, i: nat, cpus: seq<int>)
    requires i < |parts|
    ensures ParseParts(parts[i..]) ==
      match ParsePart(parts[i])
      case None => None
      case Some(now) => match ParseParts(parts[i + 1..]) case None => None case Some(rest) => Some(now + rest)
    ensures ParsePart(parts[i]).Some? && ParseParts(parts[i + 1..]).Some? ==>
      cpus + ParseParts(parts[i..]).value == (cpus + ParsePart(parts[i]).value) + ParseParts(parts[i + 1..]).value
  {
    hide ParsePart;
    assert parts[i..][1..] == parts[i + 1..];
  }

  /** The sorted CPUs of a list; None is a ValueError of the validator or of `int`. */
  method ParseCpulist(cpulist: string) returns (r: Option<seq<int>>)
    ensures r == Parsed(cpulist)
  {
    hide ParsePart, SplitOn, Scan, ParseParts, Sorted;
    if !Validates(cpulist) { return None; }
    var parts := SplitOn(',', cpulist);
    var cpus: seq<int> := [];
    assert parts[0..] == parts;
    assert ParseParts(parts).Some? ==> [] + ParseParts(parts).value == ParseParts(parts).value;
    for i := 0 to |parts|
      invariant ParseParts(parts) == match ParseParts(parts[i..]) case None => None case Some(rest) => Some(cpus + rest)
    {
      ParseStep(parts, i, cpus);
      var more := ExpandPart(parts[i]);
      if more == None { return None; }
      cpus := cpus + more.value;
    }
    NoParts();
    assert parts[|parts|..] == [] && cpus + [] == cpus;
    return Some(Sorted(cpus));
  }

  function PartSize(part: string): Option<int> {
    var p := Strip(part);
    if p == [] then Some(0)
    else if '-' in p then
      var (lo, hi) := Ends(p);
      if PyInt(lo).Some? && PyInt(hi).Some? then Some(PyInt(hi).value - PyInt(lo).value + 1) else None
    else if PyInt(p).Some? then Some(1) else None
  }

  function PartsSize(parts: seq<string>): Option<int> {
    if parts == [] then Some(0)
    else match PartSize(parts[0])
      case None => None
      case Some(n) => match PartsSize(parts[1..]) case None => None case Some(m) => Some(n + m)
  }

  function Counted(spec: string): Option<int> {
    match PartsSize(SplitOn(',', spec)) case Some(n) => (if n > 0 then Some(n) else None) case None => None
  }

  /** How many CPUs a list names; None when it cannot be parsed or names none. */
  method CountCpuList(spec: string) returns (count: Option<int>)
    ensures count == Counted(spec)
  {
    hide PyInt, SplitOn, Strip, Ends;
    var parts := SplitOn(',', spec);
    assert parts[0..] == parts;
    var total := 0;
    for i := 0 to |parts|
      invariant PartsSize(parts) == match PartsSize(parts[i..]) case None => None case Some(m) => Some(total + m)
    {
      assert parts[i..][1..] == parts[i + 1..];
      var part := Strip(parts[i]);
      if part == [] { continue; }
      if '-' in part {
        var (lo, hi) := Ends(part);
        if PyInt(lo) == None || PyInt(hi) == None { return None; }
        total := total + PyInt(hi).value - PyInt(lo).value + 1;
      } else {
        if PyInt(part) == None { return None; }
        total := total + 1;
      }
    }
    assert parts[|parts|..] == [];
    return if total > 0 then Some(total) else None;
  }

  // ----- what the validator lets through -----

  /** A digit, or a dash or comma with a digit right after it. */
  predicate LinkedAt(s: string, i: nat)
    requires i < |s|
  {
    IsDigit(s[i]) || ((s[i] == '-' || s[i] == ',') && i + 1 < |s| && IsDigit(s[i + 1]))
  }

  ghost predicate Linked(s: string) { forall i :: 0 <= i < |s| ==> LinkedAt(s, i) }

  function Core(s: string): string { if s != "" && s[|s| - 1] == '\n' then s[..|s| - 1] else s }

  lemma CoreTail(s: string)
    requires |s| > 1 || (s != "" && s[0] != '\n')
    ensures Core(s) != "" && Core(s)[0] == s[0] && Core(s)[1..] == Core(s[1..])
  {}

  lemma LinkedTail(s: string)
    requires s != ""
    ensures Linked(s) <==> LinkedAt(s, 0) && Linked(s[1..])
  {
    var t := s[1..];
    assert forall i {:trigger LinkedAt(t, i)} :: 0 <= i < |t| ==> LinkedAt(t, i) == LinkedAt(s, i + 1);
    if LinkedAt(s, 0) && Linked(t) {
      forall i | 0 <= i < |s| ensures LinkedAt(s, i) {
        if i > 0 { var k := i - 1; assert LinkedAt(t, k) == LinkedAt(s, k + 1); }
      }
    }
  }

  lemma {:induction false} ScanExactly(s: string, needDigit: bool)
    ensures Scan(s, needDigit) <==> Linked(Core(s)) && (needDigit ==> Core(s) != "" && IsDigit(Core(s)[0]))
  {
    hide Linked;
    if s != "" && s != "\n" {
      CoreTail(s);
      ScanExactly(s[1..], false);
      ScanExactly(s[1..], true);
      LinkedTail(Core(s));
    } else {
      EmptyIsLinked();
    }
  }

  lemma EmptyIsLinked()
    ensures Linked("") && Core("") == "" && Core("\n") == ""
  {}

  /** A list validates exactly when it is empty, or, up to one final newline, begins with a digit and continues with
      digits and with dashes and commas that each have a digit right after them. */
  lemma ValidatesExactly(s: string)
    ensures Validates(s) <==> s == "" || (Core(s) != "" && IsDigit(Core(s)[0]) && Linked(Core(s)))
  {
    ScanExactly(s, true);
  }

  // ----- what the parser reads -----

  /** The part is the number, or a range that spans it. */
  ghost predicate Names(part: string, x: int) {
    if '-' in part then
      && PyInt(Ends(part).0).Some? && PyInt(Ends(part).1).Some?
      && PyInt(Ends(part).0).value <= x <= PyInt(Ends(part).1).value
    else PyInt(part) == Some(x)
  }

  lemma {:induction false} SpanMembers(lo: int, hi: int, x: int)
    ensures x in Span(lo, hi) <==> lo <= x < hi
    decreases if lo < hi then hi - lo else 0
  {
    if lo < hi { SpanMembers(lo + 1, hi, x); }
  }

  lemma PartNames(part: string, x: int)
    requires ParsePart(part).Some?
    ensures x in ParsePart(part).value <==> Names(part, x)
  {
    hide PyInt;
    if '-' in part { SpanMembers(PyInt(Ends(part).0).value, PyInt(Ends(part).1).value + 1, x); }
  }

  lemma {:induction false} PartsName(parts: seq<string>, x: int)
    requires ParseParts(parts).Some?
    ensures x in ParseParts(parts).value <==> exists part :: part in parts && Names(part, x)
  {
    hide ParsePart, Names;
    if parts != [] {
      PartNames(parts[0], x);
      PartsName(parts[1..], x);
      assert parts[0] in parts && forall part :: part in parts <==> part == parts[0] || part in parts[1..];
    }
  }

  /** Parsing sorts what the parts stand for. */
  lemma ParsedIsSorted(s: string)
    requires Parsed(s).Some?
    ensures ParseParts(SplitOn(',', s)).Some?
    ensures var cpus, parsed := ParseParts(SplitOn(',', s)).value, Parsed(s).value;
      && |parsed| == |cpus| && multiset(parsed) == multiset(cpus)
      && (forall x :: x in parsed <==> x in cpus)
      && (forall i, j :: 0 <= i < j < |parsed| ==> parsed[i] <= parsed[j])
  {
    hide ParseParts, SplitOn, Validates;
    var cpus := ParseParts(SplitOn(',', s)).value;
    var always := (a: int, b: int) => true;
    Sorting.StableSort<int>(IntLe, always, cpus);
    Sorting.SortKeepsElements<int>(IntLe, cpus);
    Sorting.SameMembers<int>(Sorted(cpus), cpus);
  }

  /** What a list parses to holds exactly the numbers its parts name, in ascending order. */
  lemma ParsedMeans(s: string, x: int)
    requires Parsed(s).Some?
    ensures x in Parsed(s).value <==> exists part :: part in SplitOn(',', s) && Names(part, x)
    ensures forall i, j :: 0 <= i < j < |Parsed(s).value| ==> Parsed(s).value[i] <= Parsed(s).value[j]
  {
    hide Names, ParseParts, SplitOn, Parsed;
    ParsedIsSorted(s);
    PartsName(SplitOn(',', s), x);
  }

  // ----- decimal text reads back -----

  ghost predicate AllDigits(s: string) { forall i :: 0 <= i < |s| ==> IsDigit(s[i]) }

  function Value(s: string, start: nat): nat
    requires AllDigits(s)
  {
    if s == [] then start else Value(s[1..], 10 * start + (s[0] as int - '0' as int))
  }

  lemma {:induction false} ParseIsValue(s: string, start: nat, afterDigit: bool)
    requires AllDigits(s) && (s == [] ==> afterDigit)
    ensures ParseDigits(s, start, afterDigit) == Some(Value(s, start))
  {
    if s != [] { ParseIsValue(s[1..], 10 * start + (s[0] as int - '0' as int), true); }
  }

  lemma {:induction false} ValueOfLast(s: string, c: char, start: nat)
    requires AllDigits(s) && IsDigit(c)
    ensures AllDigits(s + [c]) && Value(s + [c], start) == 10 * Value(s, start) + (c as int - '0' as int)
  {
    if s == [] {
      assert (s + [c])[1..] == [];
    } else {
      assert (s + [c])[1..] == s[1..] + [c];
      ValueOfLast(s[1..], c, 10 * start + (s[0] as int - '0' as int));
    }
  }

  lemma {:induction false} DecimalValue(n: nat)
    ensures AllDigits(Decimal(n)) && Value(Decimal(n), 0) == n
  {
    if n < 10 {
      assert Decimal(n)[1..] == [];
    } else {
      DecimalValue(n / 10);
      ValueOfLast(Decimal(n / 10), DigitChar(n % 10), 0);
    }
  }

  lemma DecimalReadsBack(n: nat)
    ensures PyInt(Decimal(n)) == Some(n)
    ensures Strip(Decimal(n)) == Decimal(n)
  {
    var s := Decimal(n);
    DecimalValue(n);
    StripPlain(s);
    ParseIsValue(s, 0, false);
  }

  // ----- parts -----

  lemma {:induction false} SplitNone(c: char, s: string)
    requires c !in s
    ensures SplitOn(c, s) == [s]
  {
    if s != [] {
      SplitNone(c, s[1..]);
      assert [s[0]] + s[1..] == s;
    }
  }

  lemma {:induction false} SplitFirst(c: char, a: string, b: string)
    requires c !in a
    ensures SplitOn(c, a + [c] + b) == [a] + SplitOn(c, b)
  {
    var s := a + [c] + b;
    if a == [] {
      assert s[1..] == b;
    } else {
      assert s[1..] == a[1..] + [c] + b;
      SplitFirst(c, a[1..], b);
      assert [a[0]] + a[1..] == a;
    }
  }

  lemma {:induction false} EndsFirst(a: string, b: string)
    requires '-' !in a
    ensures '-' in a + "-" + b && Ends(a + "-" + b) == (a, b)
  {
    var s := a + "-" + b;
    assert s[|a|] == '-';
    if a == [] {
      assert s[1..] == b;
    } else {
      assert s[1..] == a[1..] + "-" + b;
      EndsFirst(a[1..], b);
      assert [a[0]] + a[1..] == a;
    }
  }

  lemma RangeTextShape(r: Range)
    ensures ',' !in RangeText(r) && RangeText(r) != []
    ensures Strip(RangeText(r)) == RangeText(r)
    ensures '-' in RangeText(r) <==> r.lo != r.hi
  {
    var a, b := Decimal(r.lo), Decimal(r.hi);
    DecimalReadsBack(r.lo);
    if r.lo != r.hi {
      assert (a + "-" + b)[|a|] == '-';
      assert (a + "-" + b)[|a| + |b|] == b[|b| - 1];
    }
    StripPlain(RangeText(r));
  }

  lemma {:induction false} SpanLength(lo: int, hi: int)
    requires lo <= hi
    ensures |Span(lo, hi)| == hi - lo
    decreases hi - lo
  {
    if lo < hi { SpanLength(lo + 1, hi); }
  }

  lemma RangeTextReads(r: Range)
    requires r.lo <= r.hi
    ensures ParsePart(RangeText(r)) == Some(Span(r.lo, r.hi + 1))
    ensures PartSize(RangeText(r)) == Some(|Span(r.lo, r.hi + 1)|)
  {
    RangeTextShape(r);
    DecimalReadsBack(r.lo);
    DecimalReadsBack(r.hi);
    SpanLength(r.lo, r.hi + 1);
    if r.lo != r.hi {
      DecimalValue(r.lo);
      EndsFirst(Decimal(r.lo), Decimal(r.hi));
    } else {
      assert Span(r.lo + 1, r.lo + 1) == [];
      assert Span(r.lo, r.lo + 1) == [r.lo];
    }
  }

  ghost predicate Proper(ranges: seq<Range>) { forall i :: 0 <= i < |ranges| ==> ranges[i].lo <= ranges[i].hi }

  function Expand(ranges: seq<Range>): seq<int> {
    if ranges == [] then [] else Span(ranges[0].lo, ranges[0].hi + 1) + Expand(ranges[1..])
  }

  lemma PartsHead(t: string, parts: seq<string>)
    ensures ParseParts([t] + parts) ==
      match ParsePart(t)
      case None => None
      case Some(cpus) => match ParseParts(parts) case None => None case Some(rest) => Some(cpus + rest)
    ensures PartsSize([t] + parts) ==
      match PartSize(t)
      case None => None
      case Some(n) => match PartsSize(parts) case None => None case Some(m) => Some(n + m)
  {
    hide ParsePart, PartSize;
    assert ([t] + parts)[1..] == parts;
  }

  lemma {:induction false} TextsReadBack(ranges: seq<Range>)
    requires ranges != [] && Proper(ranges)
    ensures ParseParts(SplitOn(',', JoinTexts(ranges))) == Some(Expand(ranges))
    ensures PartsSize(SplitOn(',', JoinTexts(ranges))) == Some(|Expand(ranges)|)
  {
    hide ParsePart, PartSize, SplitOn, RangeText, Span, ParseParts, PartsSize;
    var t := RangeText(ranges[0]);
    RangeTextShape(ranges[0]);
    RangeTextReads(ranges[0]);
    if |ranges| == 1 {
      SplitNone(',', t);
      NoParts();
      PartsHead(t, []);
      assert [t] + [] == [t];
      ExpandOne(ranges[0]);
      assert ranges == [ranges[0]];
      assert Span(ranges[0].lo, ranges[0].hi + 1) + [] == Span(ranges[0].lo, ranges[0].hi + 1);
    } else {
      TextsReadBack(ranges[1..]);
      SplitFirst(',', t, JoinTexts(ranges[1..]));
      PartsHead(t, SplitOn(',', JoinTexts(ranges[1..])));
    }
  }

  lemma NoParts()
    ensures ParseParts([]) == Some([]) && PartsSize([]) == Some(0)
  {}

  lemma {:induction false} ScanDigits(s: string, rest: string, needDigit: bool)
    requires AllDigits(s) && (s == [] ==> !needDigit)
    ensures Scan(s + rest, needDigit) == Scan(rest, false)
  {
    if s == [] {
      assert s + rest == rest;
    } else {
      assert (s + rest)[1..] == s[1..] + rest;
      ScanDigits(s[1..], rest, false);
    }
  }

  lemma ScanRange(r: Range, rest: string)
    ensures Scan(RangeText(r) + rest, true) == Scan(rest, false)
  {
    var a, b := Decimal(r.lo), Decimal(r.hi);
    DecimalValue(r.lo);
    DecimalValue(r.hi);
    if r.lo != r.hi {
      assert RangeText(r) + rest == a + ("-" + (b + rest));
      ScanDigits(a, "-" + (b + rest), true);
      assert ("-" + (b + rest))[1..] == b + rest;
      ScanDigits(b, rest, true);
    } else {
      ScanDigits(a, rest, true);
    }
  }

  lemma {:induction false} TextsValidate(ranges: seq<Range>)
    requires ranges != []
    ensures Scan(JoinTexts(ranges), true)
  {
    var t := RangeText(ranges[0]);
    if |ranges| == 1 {
      ScanRange(ranges[0], "");
      assert t + "" == t;
    } else {
      TextsValidate(ranges[1..]);
      var rest := JoinTexts(ranges[1..]);
      assert t + "," + rest == t + ("," + rest);
      ScanRange(ranges[0], "," + rest);
      assert ("," + rest)[1..] == rest;
    }
  }

  // ----- the ranges cover the list -----

  lemma {:induction false} ExpandAppend(a: seq<Range>, b: seq<Range>)
    ensures Expand(a + b) == Expand(a) + Expand(b)
  {
    if a == [] {
      assert a + b == b;
    } else {
      assert (a + b)[1..] == a[1..] + b;
      ExpandAppend(a[1..], b);
    }
  }

  lemma {:induction false} SpanGrows(lo: int, hi: int)
    requires lo <= hi
    ensures Span(lo, hi + 1) == Span(lo, hi) + [hi]
    decreases hi - lo
  {
    if lo < hi {
      SpanGrows(lo + 1, hi);
    } else {
      assert Span(hi + 1, hi + 1) == [];
    }
  }

  lemma ExpandOne(r: Range)
    ensures Expand([r]) == Span(r.lo, r.hi + 1)
  {
    assert [r][1..] == [];
  }

  lemma AddCpuCovers(rs: seq<Range>, cpu: nat)
    requires Proper(rs)
    ensures Proper(AddCpu(rs, cpu)) && Expand(AddCpu(rs, cpu)) == Expand(rs) + [cpu]
  {
    hide Span, Expand;
    if rs != [] && cpu == rs[|rs| - 1].hi + 1 {
      var init, last := rs[..|rs| - 1], rs[|rs| - 1];
      var longer := last.(hi := cpu);
      assert rs == init + [last];
      assert AddCpu(rs, cpu) == init + [longer];
      ExpandAppend(init, [last]);
      ExpandAppend(init, [longer]);
      ExpandOne(last);
      ExpandOne(longer);
      SpanGrows(last.lo, cpu);
      assert Expand(init) + (Span(last.lo, cpu) + [cpu]) == Expand(init) + Span(last.lo, cpu) + [cpu];
    } else {
      ExpandAppend(rs, [Range(cpu, cpu)]);
      ExpandOne(Range(cpu, cpu));
      SpanGrows(cpu, cpu);
      EmptySpan(cpu);
    }
  }

  lemma EmptySpan(n: int)
    ensures Span(n, n) == [] && Span(n, n) + [n] == [n]
  {}

  lemma {:induction false} RangesCover(cpus: seq<nat>)
    ensures Proper(RangesOf(cpus)) && Expand(RangesOf(cpus)) == cpus
    ensures cpus != [] ==> RangesOf(cpus) != []
  {
    if cpus != [] {
      var init, cpu := cpus[..|cpus| - 1], cpus[|cpus| - 1];
      RangesCover(init);
      hide Expand, Proper;
      AddCpuCovers(RangesOf(init), cpu);
      assert cpus == init + [cpu];
    }
  }

  lemma PrintedPartsRead(cpus: seq<nat>)
    ensures var parts := SplitOn(',', Format(cpus));
      && Validates(Format(cpus))
      && (cpus != [] ==> ParseParts(parts) == Some(cpus) && PartsSize(parts) == Some(|cpus|))
      && (cpus == [] ==> ParseParts(parts) == None && PartsSize(parts) == Some(0))
  {
    if cpus != [] {
      RangesCover(cpus);
      TextsReadBack(RangesOf(cpus));
      TextsValidate(RangesOf(cpus));
    }
  }

  /** What is printed validates, parses to the sorted list and counts as its length; only the empty list, printed
      as the empty text, passes the validator and is then refused by the parser and the counter. */
  lemma PrintedListsReadBack(cpus: seq<nat>)
    ensures Validates(Format(cpus))
    ensures cpus != [] ==>
      && Parsed(Format(cpus)).Some?
      && var parsed := Parsed(Format(cpus)).value;
         && |parsed| == |cpus| && multiset(parsed) == multiset(cpus)
         && (forall i, j :: 0 <= i < j < |parsed| ==> parsed[i] <= parsed[j])
         && Counted(Format(cpus)) == Some(|cpus|)
    ensures cpus == [] ==> Parsed(Format(cpus)) == None && Counted(Format(cpus)) == None
  {
    PrintedPartsRead(cpus);
    hide Format, ParseParts, PartsSize, SplitOn, Scan;
    var ints: seq<int> := cpus;
    var always := (a: int, b: int) => true;
    Sorting.StableSort<int>(IntLe, always, ints);
    Sorting.SortKeepsElements<int>(IntLe, ints);
  }

  // ----- the counter and the parser -----

  /** A range that runs backwards by more than one: it names nothing and counts as less than nothing. */
  ghost predicate Backwards(part: string) {
    '-' in part && PyInt(Ends(part).0).Some? && PyInt(Ends(part).1).Some?
    && PyInt(Ends(part).0).value > PyInt(Ends(part).1).value + 1
  }

  ghost predicate Plain(s: string) { forall i :: 0 <= i < |s| ==> !IsSpace(s[i]) }

  lemma ValidIsPlain(s: string)
    requires Validates(s) && '\n' !in s
    ensures Plain(s)
  {
    ValidatesExactly(s);
    assert Core(s) == s;
    forall i | 0 <= i < |s| ensures !IsSpace(s[i]) { assert LinkedAt(s, i); }
  }

  lemma {:induction false} PartsArePlain(c: char, s: string)
    requires Plain(s)
    ensures forall i :: 0 <= i < |SplitOn(c, s)| ==> Plain(SplitOn(c, s)[i])
  {
    hide IsSpace;
    if s != [] {
      var rest := SplitOn(c, s[1..]);
      assert Plain(s[1..]) by { assert forall i :: 0 <= i < |s[1..]| ==> s[1..][i] == s[i + 1]; }
      PartsArePlain(c, s[1..]);
      assert !IsSpace(s[0]);
      assert Plain(rest[0]) && Plain([s[0]] + rest[0]);
      assert Plain([]);
    }
  }

  lemma PartCounts(part: string)
    requires Plain(part) && ParsePart(part).Some?
    ensures PartSize(part).Some? && PartSize(part).value <= |ParsePart(part).value|
    ensures PartSize(part).value == |ParsePart(part).value| <==> !Backwards(part)
  {
    hide PyInt;
    StripPlain(part);
    if part == "" { NoNumber(); }
    if '-' in part && !Backwards(part) { SpanLength(PyInt(Ends(part).0).value, PyInt(Ends(part).1).value + 1); }
  }

  lemma NoNumber()
    ensures PyInt("") == None
  {}

  lemma {:induction false} PartsCount(parts: seq<string>)
    requires ParseParts(parts).Some? && forall i :: 0 <= i < |parts| ==> Plain(parts[i])
    ensures PartsSize(parts).Some? && PartsSize(parts).value <= |ParseParts(parts).value|
    ensures PartsSize(parts).value == |ParseParts(parts).value| <==> forall part :: part in parts ==> !Backwards(part)
  {
    hide ParsePart, PartSize, Backwards, Plain;
    if parts != [] {
      PartCounts(parts[0]);
      PartsCount(parts[1..]);
      assert parts[0] in parts && forall part :: part in parts <==> part == parts[0] || part in parts[1..];
    }
  }

  /** The counter agrees with the parser on a list without a newline exactly when the list names something and no
      range in it runs backwards by more than one. */
  lemma CountAgreesExactly(s: string)
    requires Parsed(s).Some? && '\n' !in s
    ensures Counted(s) == Some(|Parsed(s).value|) <==>
      Parsed(s).value != [] && forall part :: part in SplitOn(',', s) ==> !Backwards(part)
  {
    hide ParseParts, PartsSize, SplitOn, Backwards, Plain;
    ValidIsPlain(s);
    hide Validates;
    ParsedIsSorted(s);
    PartsArePlain(',', s);
    PartsCount(SplitOn(',', s));
  }
}
