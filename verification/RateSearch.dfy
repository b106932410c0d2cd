/** Climb-and-bisect search for the highest offered rate that still passes. */
module RateSearch {
  import opened Text

  datatype Config = Config(startRate: int, stepMultiplier: real, maxRate: int, tolerance: real, maxBisectSteps: int)

  /** What the constructor accepts; it raises on anything else. */
  predicate Accepted(c: Config) {
    && c.startRate >= 1 && c.maxRate >= c.startRate && c.stepMultiplier > 1.0
    && 0.0 <= c.tolerance < 1.0 && c.maxBisectSteps >= 0
  }

  datatype Move = Probe(rate: int) | Done(knee: Option<int>, hi: Option<int>)

  /** The fields of a search. */
  datatype Fields = Fields(currentRate: int, climbing: bool, lo: Option<int>, hi: Option<int>, bisectSteps: nat,
    probes: nat)

  function Start(c: Config): Fields { Fields(c.startRate, true, None, None, 0, 0) }

  function Floor(lo: Option<int>): int { if lo.Some? then lo.value else 0 }

  function Max(a: int, b: int): int { if a < b then b else a }

  function Min(a: int, b: int): int { if a < b then a else b }

  // ----- one answer -----

  function BisectOrDone(c: Config, f: Fields): (Fields, Move)
    requires f.hi.Some? && f.hi.value != 0
  {
    var hi, lo := f.hi.value, Floor(f.lo);
    var width := (hi - lo) as real / hi as real;
    if width <= c.tolerance || f.bisectSteps >= c.maxBisectSteps || hi - lo <= 1 then
      (f, Done(f.lo, f.hi))
    else
      var mid := lo + (hi - lo) / 2;
      var next := Min(Max(mid, lo + 1), hi - 1);
      (f.(currentRate := next), Probe(next))
  }

  function NextClimb(c: Config, rate: int): int {
    Min(Max((rate as real * c.stepMultiplier).Floor, rate + 1), c.maxRate)
  }

  function Advance(c: Config, f0: Fields, passed: bool): (Fields, Move)
    requires f0.currentRate != 0 && (!f0.climbing ==> f0.hi.Some? && f0.hi.value != 0)
  {
    var f1 := f0.(probes := f0.probes + 1);
    var f := if passed then f1.(lo := Some(f0.currentRate)) else f1.(hi := Some(f0.currentRate));
    if f.climbing then
      if !passed then BisectOrDone(c, f.(climbing := false))
      else if f.currentRate >= c.maxRate then (f, Done(f.lo, None))
      else
        var next := NextClimb(c, f.currentRate);
        (f.(currentRate := next), Probe(next))
    else
      BisectOrDone(c, f.(bisectSteps := f.bisectSteps + 1))
  }

  /** The next rate of the climb: the greatest whole rate within the multiple, but at least one more than the last and
      at most the maximum. */
  lemma NextRateExactly(c: Config, rate: int)
    requires Accepted(c) && 1 <= rate < c.maxRate
    ensures var next := NextClimb(c, rate);
      && rate < next <= c.maxRate
      && (next as real <= rate as real * c.stepMultiplier || next == rate + 1)
      && (next == c.maxRate || (next + 1) as real > rate as real * c.stepMultiplier)
  {}

  /** The search object. */
  class RateSearch {
    const config: Config
    var currentRate: int
    var climbing: bool
    var lo: Option<int>
    var hi: Option<int>
    var bisectSteps: nat
    var probes: nat

    function State(): Fields
      reads this
    {
      Fields(currentRate, climbing, lo, hi, bisectSteps, probes)
    }

    constructor (c: Config)
      requires Accepted(c)
      ensures config == c && State() == Start(c)
    {
      config := c;
      currentRate, climbing, lo, hi, bisectSteps, probes := c.startRate, true, None, None, 0, 0;
    }

    function First(): Move { Probe(config.startRate) }

    method AdvanceWith(passed: bool) returns (move: Move)
      requires currentRate != 0 && (!climbing ==> hi.Some? && hi.value != 0)
      modifies this
      ensures (State(), move) == Advance(config, old(State()), passed)
    {
      probes := probes + 1;
      if passed { lo := Some(currentRate); } else { hi := Some(currentRate); }
      if climbing {
        if !passed {
          climbing := false;
          move := BisectNow();
          return;
        }
        if currentRate >= config.maxRate { return Done(lo, None); }
        var next := (currentRate as real * config.stepMultiplier).Floor;
        next := Min(Max(next, currentRate + 1), config.maxRate);
        assert next == NextClimb(config, currentRate);
        currentRate := next;
        return Probe(currentRate);
      }
      bisectSteps := bisectSteps + 1;
      move := BisectNow();
    }

    method BisectNow() returns (move: Move)
      requires hi.Some? && hi.value != 0
      modifies this`currentRate
      ensures (State(), move) == BisectOrDone(config, old(State()))
    {
      var low := Floor(lo);
      var width := (hi.value - low) as real / hi.value as real;
      if width <= config.tolerance || bisectSteps >= config.maxBisectSteps || hi.value - low <= 1 {
        return Done(lo, hi);
      }
      var mid := low + (hi.value - low) / 2;
      currentRate := Min(Max(mid, low + 1), hi.value - 1);
      return Probe(currentRate);
    }
  }

  // ----- whole searches -----

  datatype Answer = Answer(rate: int, passed: bool)

  /** A search after some answers: the fields, the pending move, and everything measured so far. */
  datatype Progress = Progress(fields: Fields, move: Move, answers: seq<Answer>)

  function Begin(c: Config): Progress { Progress(Start(c), Probe(c.startRate), []) }

  predicate Answerable(f: Fields) { f.currentRate >= 1 && (!f.climbing ==> f.hi.Some? && f.hi.value >= 1) }

  function Step(c: Config, p: Progress, passed: bool): Progress
    requires Answerable(p.fields)
  {
    var (f, m) := Advance(c, p.fields, passed);
    Progress(f, m, p.answers + [Answer(p.fields.currentRate, passed)])
  }

  predicate PassedAt(p: Progress, r: int) { Answer(r, true) in p.answers }
  predicate FailedAt(p: Progress, r: int) { Answer(r, false) in p.answers }

  /** The bracket is exactly the passed maximum and the failed minimum, and the two never mix. */
  ghost predicate BracketHolds(p: Progress) {
    var f := p.fields;
    && (f.lo == None ==> forall r :: !PassedAt(p, r))
    && (f.lo.Some? ==> PassedAt(p, f.lo.value) && forall r :: PassedAt(p, r) ==> r <= f.lo.value)
    && (f.hi == None ==> forall r :: !FailedAt(p, r))
    && (f.hi.Some? ==> FailedAt(p, f.hi.value) && forall r :: FailedAt(p, r) ==> f.hi.value <= r)
    && (forall r, s :: PassedAt(p, r) && FailedAt(p, s) ==> r < s)
  }

  ghost predicate NoRateTwice(p: Progress) {
    forall i, k :: 0 <= i < k < |p.answers| ==> p.answers[i].rate != p.answers[k].rate
  }

  ghost predicate Inv(c: Config, p: Progress) {
    var f := p.fields;
    && Answerable(f) && BracketHolds(p) && NoRateTwice(p)
    && f.probes == |p.answers|
    && (forall i :: 0 <= i < |p.answers| ==> 1 <= p.answers[i].rate <= c.maxRate)
    && (f.hi.Some? ==> Floor(f.lo) < f.hi.value)
    && (f.climbing <==> f.hi == None)
    && f.bisectSteps <= c.maxBisectSteps
    && (match p.move
        case Probe(r) =>
          r == f.currentRate && Floor(f.lo) < r <= c.maxRate
            && (f.hi.Some? ==> r < f.hi.value && !Over(c, f))
        case Done(knee, hi) =>
          knee == f.lo && hi == f.hi && (hi == None ==> PassedAt(p, c.maxRate))
          && (hi.Some? ==> Over(c, f)))
  }

  /** The bracket is within the tolerance, or has no rate in between, or the steps are used up. */
  predicate Over(c: Config, f: Fields)
    requires f.hi.Some? && f.hi.value >= 1
  {
    (f.hi.value - Floor(f.lo)) as real / f.hi.value as real <= c.tolerance
    || f.bisectSteps >= c.maxBisectSteps || f.hi.value - Floor(f.lo) <= 1
  }

  lemma AnswersGrow(p: Progress, q: Progress, a: Answer)
    requires q.answers == p.answers + [a]
    ensures forall r :: PassedAt(q, r) <==> PassedAt(p, r) || (a.passed && r == a.rate)
    ensures forall r :: FailedAt(q, r) <==> FailedAt(p, r) || (!a.passed && r == a.rate)
  {}

  lemma FreshRate(c: Config, p: Progress)
    requires Inv(c, p) && p.move.Probe?
    ensures forall i :: 0 <= i < |p.answers| ==> p.answers[i].rate != p.move.rate
  {
    forall i | 0 <= i < |p.answers| ensures p.answers[i].rate != p.move.rate {
      var a := p.answers[i];
      assert a in p.answers;
      if a.passed { assert PassedAt(p, a.rate); } else { assert FailedAt(p, a.rate); }
    }
  }

  /** What an answer does to the bracket, and where the next rate lies. */
  lemma AdvanceFacts(c: Config, f: Fields, passed: bool)
    requires Accepted(c) && Answerable(f) && f.currentRate <= c.maxRate && Floor(f.lo) < f.currentRate
    requires f.hi.Some? ==> f.currentRate < f.hi.value
    requires (f.climbing <==> f.hi == None) && f.bisectSteps <= c.maxBisectSteps
    requires f.hi.Some? ==> f.bisectSteps < c.maxBisectSteps && f.hi.value <= c.maxRate
    requires Floor(f.lo) >= 0
    ensures var (g, m) := Advance(c, f, passed);
      && g.lo == (if passed then Some(f.currentRate) else f.lo)
      && g.hi == (if passed then f.hi else Some(f.currentRate))
      && g.probes == f.probes + 1 && Answerable(g)
      && (g.climbing <==> g.hi == None) && g.bisectSteps <= c.maxBisectSteps
      && (match m
          case Probe(r) =>
            r == g.currentRate && Floor(g.lo) < r <= c.maxRate
            && (g.hi.Some? ==> r < g.hi.value && !Over(c, g))
          case Done(knee, hi) =>
            knee == g.lo && hi == g.hi && (hi == None ==> passed && f.currentRate == c.maxRate)
            && (hi.Some? ==> Over(c, g)))
  {}

  lemma BracketStep(p: Progress, q: Progress, passed: bool)
    requires BracketHolds(p) && NoRateTwice(p)
    requires Floor(p.fields.lo) < p.fields.currentRate
      && (p.fields.hi.Some? ==> p.fields.currentRate < p.fields.hi.value)
    requires forall i :: 0 <= i < |p.answers| ==> 1 <= p.answers[i].rate && p.answers[i].rate != p.fields.currentRate
    requires q.answers == p.answers + [Answer(p.fields.currentRate, passed)]
    requires q.fields.lo == (if passed then Some(p.fields.currentRate) else p.fields.lo)
    requires q.fields.hi == (if passed then p.fields.hi else Some(p.fields.currentRate))
    ensures BracketHolds(q) && NoRateTwice(q)
  {
    AnswersGrow(p, q, Answer(p.fields.currentRate, passed));
    forall r | PassedAt(p, r) ensures r < p.fields.currentRate {
      assert p.fields.lo.Some? && r <= p.fields.lo.value;
    }
  }

  lemma BracketWasMeasured(c: Config, p: Progress)
    requires Inv(c, p)
    ensures Floor(p.fields.lo) >= 0 && (p.fields.hi.Some? ==> p.fields.hi.value <= c.maxRate)
  {
    if p.fields.lo.Some? { assert Answer(p.fields.lo.value, true) in p.answers; }
    if p.fields.hi.Some? { assert Answer(p.fields.hi.value, false) in p.answers; }
  }

  lemma StepKeepsInv(c: Config, p: Progress, passed: bool)
    requires Accepted(c) && Inv(c, p) && p.move.Probe?
    ensures Inv(c, Step(c, p, passed))
  {
    hide Advance;
    var q := Step(c, p, passed);
    FreshRate(c, p);
    BracketWasMeasured(c, p);
    AdvanceFacts(c, p.fields, passed);
    BracketStep(p, q, passed);
    AnswersGrow(p, q, Answer(p.fields.currentRate, passed));
  }

  /** A search fed with answers; it must not be fed once it is done. */
  ghost predicate IsSearch(c: Config, run: seq<Progress>) {
    && run != [] && run[0] == Begin(c)
    && forall i :: 0 <= i < |run| - 1 ==>
         run[i].move.Probe? && Answerable(run[i].fields)
         && (run[i + 1] == Step(c, run[i], true) || run[i + 1] == Step(c, run[i], false))
  }

  /** Whatever the answers, monotone or not: the bracket is exact and separates passed from failed rates, no rate
      is measured twice or above the maximum, and a finished search reports just that bracket. */
  lemma {:induction false} SearchKeepsBracket(c: Config, run: seq<Progress>, i: nat)
    requires Accepted(c) && IsSearch(c, run) && i < |run|
    ensures Inv(c, run[i])
    ensures match run[i].move
      case Done(knee, hi) =>
        && knee == run[i].fields.lo && hi == run[i].fields.hi
        && (hi == None ==> knee == Some(c.maxRate)) && (hi.Some? ==> Over(c, run[i].fields))
      case Probe(r) =>
        && !PassedAt(run[i], r) && !FailedAt(run[i], r)
        && (run[i].fields.hi.Some? ==> !Over(c, run[i].fields))
  {
    if i > 0 {
      SearchKeepsBracket(c, run, i - 1);
      var p := run[i - 1];
      StepKeepsInv(c, p, run[i] == Step(c, p, true));
    }
    if run[i].move.Probe? {
      FreshRate(c, run[i]);
    } else if run[i].move.hi == None {
      assert PassedAt(run[i], c.maxRate);
      assert Answer(run[i].fields.lo.value, true) in run[i].answers;
    }
  }
}
