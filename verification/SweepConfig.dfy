/** Which series may queue work: selectors, focus and pause. */
module SweepConfig {
  import opened Text

  /** `s.partition(":")`, None without a colon. */
  function Partition(s: string): Option<(string, string)> {
    if s == [] then None
    else if s[0] == ':' then Some(([], s[1..]))
    else match Partition(s[1..]) case None => None case Some((a, b)) => Some(([s[0]] + a, b))
  }

  datatype Selector = Selector(epoch: Option<string>, workload: string)

  function ParseSelector(selector: string): Selector {
    match Partition(selector)
    case None => Selector(None, Strip(selector))
    case Some((epoch, workload)) => Selector(Some(Strip(epoch)), Strip(workload))
  }

  predicate SelectorMatches(selector: string, workloadId: string, epochId: string) {
    var want := ParseSelector(selector);
    if want.epoch.Some? && want.epoch.value != epochId then false
    else want.workload == "" || want.workload == "*" || want.workload == workloadId
  }

  datatype Mode = Normal | Focus(target: Option<string>) | Paused(selectors: seq<string>)

  predicate IsAllowed(m: Mode, workloadId: string, epochId: string) {
    match m
    case Normal => true
    case Focus(target) => target.Some? && SelectorMatches(target.value, workloadId, epochId)
    case Paused(selectors) => forall i :: 0 <= i < |selectors| ==> !SelectorMatches(selectors[i], workloadId, epochId)
  }

  lemma {:induction false} PartitionFirstColon(a: string, b: string)
    requires ':' !in a
    ensures Partition(a + ":" + b) == Some((a, b))
  {
    var s := a + ":" + b;
    if a == [] {
      assert s[1..] == b;
    } else {
      assert s[1..] == a[1..] + ":" + b;
      PartitionFirstColon(a[1..], b);
      assert [a[0]] + a[1..] == a;
    }
  }

  lemma {:induction false} PartitionNoColon(a: string)
    requires ':' !in a
    ensures Partition(a) == None
  {
    if a != [] { PartitionNoColon(a[1..]); }
  }

  /** Without a space at either end. */
  predicate Bare(s: string) { s == "" || (!IsSpace(s[0]) && !IsSpace(s[|s| - 1])) }

  predicate Blank(s: string) { forall i :: 0 <= i < |s| ==> IsSpace(s[i]) }

  lemma {:induction false} LeftGoes(left: string, s: string)
    requires Blank(left)
    ensures StripLeft(left + s) == StripLeft(s)
  {
    if left == "" {
      assert left + s == s;
    } else {
      assert (left + s)[1..] == left[1..] + s;
      LeftGoes(left[1..], s);
    }
  }

  lemma {:induction false} RightGoes(s: string, right: string)
    requires Blank(right) && (s == "" || !IsSpace(s[|s| - 1]))
    ensures StripRight(s + right) == s
  {
    var all := s + right;
    if right == "" {
      assert all == s;
    } else {
      var init := right[..|right| - 1];
      assert all[..|all| - 1] == s + init;
      RightGoes(s, init);
    }
  }

  lemma StripPadded(left: string, core: string, right: string)
    requires Blank(left) && Bare(core) && Blank(right)
    ensures Strip(left + core + right) == core
  {
    assert left + core + right == left + (core + right);
    LeftGoes(left, core + right);
    if core == "" {
      LeftGoes(right, "");
      assert core + right == right && right + "" == right;
    } else {
      assert (core + right)[0] == core[0];
      RightGoes(core, right);
    }
  }

  /** What `strip` takes away is blank, and it leaves no more to take. */
  lemma {:induction false} EveryTextIsPadded(s: string) returns (left: string, right: string)
    ensures Blank(left) && Blank(right) && Bare(Strip(s)) && s == left + Strip(s) + right
  {
    if s != "" && IsSpace(s[0]) {
      left, right := EveryTextIsPadded(s[1..]);
      left := [s[0]] + left;
    } else {
      left := "";
      right := RightEnd(s);
    }
  }

  lemma {:induction false} RightEnd(s: string) returns (right: string)
    ensures Blank(right) && s == StripRight(s) + right
    ensures StripRight(s) == "" || !IsSpace(StripRight(s)[|StripRight(s)| - 1])
  {
    hide IsSpace;
    if s != "" && IsSpace(s[|s| - 1]) {
      right := RightEnd(s[..|s| - 1]);
      right := right + [s[|s| - 1]];
    } else {
      right := "";
      assert s + "" == s;
    }
  }

  datatype Pads = Pads(a: string, b: string, c: string, d: string)

  predicate AnyWorkload(w: string) { w == "" || w == "*" }

  lemma {:induction false} NoColonInBlank(s: string)
    requires Blank(s)
    ensures ':' !in s
  {
    if s != "" { NoColonInBlank(s[1..]); }
  }

  /** A qualified selector, however padded, picks one workload of one epoch, or the whole epoch when it names none or
      a star. The epoch ends at the first colon. */
  lemma QualifiedSelector(e: string, w: string, pads: Pads, workloadId: string, epochId: string)
    requires Bare(e) && Bare(w) && ':' !in e
    requires Blank(pads.a) && Blank(pads.b) && Blank(pads.c) && Blank(pads.d)
    ensures SelectorMatches((pads.a + e + pads.b) + ":" + (pads.c + w + pads.d), workloadId, epochId)
      <==> epochId == e && (AnyWorkload(w) || workloadId == w)
  {
    hide Strip, Blank;
    NoColonInBlank(pads.a);
    NoColonInBlank(pads.b);
    PartitionFirstColon(pads.a + e + pads.b, pads.c + w + pads.d);
    StripPadded(pads.a, e, pads.b);
    StripPadded(pads.c, w, pads.d);
  }

  /** A bare selector, however padded, picks its workload in every epoch, or everything when it names none or a star. */
  lemma BareSelector(w: string, left: string, right: string, workloadId: string, epochId: string)
    requires Bare(w) && ':' !in w && Blank(left) && Blank(right)
    ensures SelectorMatches(left + w + right, workloadId, epochId) <==> AnyWorkload(w) || workloadId == w
  {
    hide Strip, Blank;
    NoColonInBlank(left);
    NoColonInBlank(right);
    PartitionNoColon(left + w + right);
    StripPadded(left, w, right);
  }

  lemma {:induction false} FirstColonSplits(s: string) returns (a: string, b: string)
    requires ':' in s
    ensures s == a + ":" + b && ':' !in a
  {
    if s[0] == ':' {
      a, b := "", s[1..];
    } else {
      a, b := FirstColonSplits(s[1..]);
      a := [s[0]] + a;
    }
  }

  /** What any selector picks. It reads, up to blanks, as a workload alone or as an epoch, a colon and a workload; it
      picks that workload, or any when it names none or a star, in that epoch, or in all when it names none. */
  lemma SelectorMeaning(s: string, workloadId: string, epochId: string)
    returns (epoch: Option<string>, workload: string, pads: Pads)
    ensures Blank(pads.a) && Blank(pads.b) && Blank(pads.c) && Blank(pads.d)
    ensures Bare(workload) && (epoch == None ==> ':' !in workload)
      && (epoch.Some? ==> Bare(epoch.value) && ':' !in epoch.value)
    ensures s == match epoch
      case None => pads.a + workload + pads.b
      case Some(e) => (pads.a + e + pads.b) + ":" + (pads.c + workload + pads.d)
    ensures SelectorMatches(s, workloadId, epochId) <==>
      (epoch == None || epoch.value == epochId) && (AnyWorkload(workload) || workload == workloadId)
  {
    hide Strip, Blank, Bare, SelectorMatches;
    if ':' in s {
      var a, b := FirstColonSplits(s);
      var a1, a2 := EveryTextIsPadded(a);
      var b1, b2 := EveryTextIsPadded(b);
      epoch, workload, pads := Some(Strip(a)), Strip(b), Pads(a1, a2, b1, b2);
      assert forall c :: c in Strip(a) ==> c in a;
      QualifiedSelector(Strip(a), Strip(b), pads, workloadId, epochId);
    } else {
      var left, right := EveryTextIsPadded(s);
      epoch, workload, pads := None, Strip(s), Pads(left, right, "", "");
      assert forall c :: c in Strip(s) ==> c in s;
      NothingIsBlank();
      BareSelector(Strip(s), left, right, workloadId, epochId);
    }
  }

  lemma NothingIsBlank()
    ensures Blank("")
  {}

  /** One matching selector among any others is enough to stop a workload, and only such a one stops it. */
  lemma PausedByAny(before: seq<string>, selector: string, after: seq<string>, workloadId: string, epochId: string)
    ensures var rest := before + after;
      !IsAllowed(Paused(before + [selector] + after), workloadId, epochId) <==>
        SelectorMatches(selector, workloadId, epochId) || !IsAllowed(Paused(rest), workloadId, epochId)
    ensures IsAllowed(Paused([]), workloadId, epochId)
  {
    hide SelectorMatches;
    var all, rest := before + [selector] + after, before + after;
    assert all[|before|] == selector;
    assert forall i :: 0 <= i < |rest| ==> rest[i] == all[if i < |before| then i else i + 1];
    assert forall i :: 0 <= i < |all| && i != |before| ==> all[i] == rest[if i < |before| then i else i - 1];
  }

  /** Focus lets a workload run exactly where its selector points: in one epoch when qualified, in every epoch when
      bare; without a target nothing runs. */
  lemma FocusReach(e: string, w: string, workloadId: string, epochId: string)
    requires Bare(e) && Bare(w) && ':' !in e && ':' !in w && !AnyWorkload(w)
    ensures IsAllowed(Focus(Some(e + ":" + w)), workloadId, epochId) <==> workloadId == w && epochId == e
    ensures IsAllowed(Focus(Some(w)), workloadId, epochId) <==> workloadId == w
    ensures !IsAllowed(Focus(None), workloadId, epochId) && IsAllowed(Normal, workloadId, epochId)
  {
    assert "" + e + "" == e && "" + w + "" == w;
    QualifiedSelector(e, w, Pads("", "", "", ""), workloadId, epochId);
    BareSelector(w, "", "", workloadId, epochId);
  }

  /** Pausing a workload in one epoch leaves it running in every other; pausing the bare name stops it in all. */
  lemma PauseReach(e: string, w: string, other: string)
    requires Bare(e) && Bare(w) && ':' !in e && ':' !in w && other != e
    ensures !IsAllowed(Paused([e + ":" + w]), w, e) && IsAllowed(Paused([e + ":" + w]), w, other)
    ensures !IsAllowed(Paused([w]), w, e) && !IsAllowed(Paused([w]), w, other)
  {
    assert "" + e + "" == e && "" + w + "" == w;
    QualifiedSelector(e, w, Pads("", "", "", ""), w, e);
    QualifiedSelector(e, w, Pads("", "", "", ""), w, other);
    BareSelector(w, "", "", w, e);
    BareSelector(w, "", "", w, other);
    assert [e + ":" + w][0] == e + ":" + w && [w][0] == w;
  }
}
