/** The most probes any answers can cost, and when the progress estimate covers them. */
module RateSearchWorst {
  import opened RateSearch
  import opened RateSearchBounds

  /** No further bisecting. */
  predicate Ends(c: Config, lo: int, hi: int, steps: nat)
    requires hi != 0
  {
    (hi - lo) as real / hi as real <= c.tolerance || steps >= c.maxBisectSteps || hi - lo <= 1
  }

  function Middle(lo: int, hi: int): int { Min(Max(lo + (hi - lo) / 2, lo + 1), hi - 1) }

  /** The most probes bisecting a bracket can take. */
  function MostBisecting(c: Config, lo: int, hi: int, steps: nat): nat
    requires 0 <= lo < hi
    decreases c.maxBisectSteps - steps
  {
    if Ends(c, lo, hi, steps) then 0
    else
      var mid := Middle(lo, hi);
      1 + Max(MostBisecting(c, lo, mid, steps + 1), MostBisecting(c, mid, hi, steps + 1))
  }

  /** The most probes a climb can take from `rate` on, `rate` included, with the bisecting that follows a failure. */
  function MostClimbing(c: Config, lo: int, rate: int): nat
    requires Accepted(c) && 0 <= lo < rate <= c.maxRate
    decreases c.maxRate - rate
  {
    var onFailure := MostBisecting(c, lo, rate, 0);
    if rate >= c.maxRate then 1 + onFailure
    else 1 + Max(onFailure, MostClimbing(c, rate, NextClimb(c, rate)))
  }

  function WorstProbes(c: Config): nat
    requires Accepted(c)
  {
    MostClimbing(c, 0, c.startRate)
  }

  /** A pending bisecting probe is the middle of a bracket that has not ended. */
  ghost predicate OnTrack(c: Config, p: Progress) {
    && Inv(c, p) && Floor(p.fields.lo) >= 0
    && (p.move.Probe? && !p.fields.climbing ==>
         !Ends(c, Floor(p.fields.lo), p.fields.hi.value, p.fields.bisectSteps)
         && p.fields.currentRate == Middle(Floor(p.fields.lo), p.fields.hi.value))
    && (p.move.Probe? && p.fields.climbing ==> p.fields.bisectSteps == 0)
  }

  /** The most probes still to come. */
  ghost function Remaining(c: Config, p: Progress): nat
    requires Accepted(c) && OnTrack(c, p)
  {
    if p.move.Done? then 0
    else if p.fields.climbing then MostClimbing(c, Floor(p.fields.lo), p.fields.currentRate)
    else MostBisecting(c, Floor(p.fields.lo), p.fields.hi.value, p.fields.bisectSteps)
  }

  /** What may still come after an answer. */
  ghost function After(c: Config, p: Progress, passed: bool): nat
    requires Accepted(c) && OnTrack(c, p) && p.move.Probe?
  {
    var f := p.fields;
    if f.climbing then
      if !passed then MostBisecting(c, Floor(f.lo), f.currentRate, 0)
      else if f.currentRate >= c.maxRate then 0
      else MostClimbing(c, f.currentRate, NextClimb(c, f.currentRate))
    else if passed then MostBisecting(c, f.currentRate, f.hi.value, f.bisectSteps + 1)
    else MostBisecting(c, Floor(f.lo), f.currentRate, f.bisectSteps + 1)
  }

  lemma ClimbingCosts(c: Config, p: Progress, passed: bool)
    requires Accepted(c) && OnTrack(c, p) && p.move.Probe? && p.fields.climbing
    ensures OnTrack(c, Step(c, p, passed)) && Remaining(c, Step(c, p, passed)) == After(c, p, passed)
  {
    hide BracketHolds, NoRateTwice, MostClimbing;
    StepKeepsInv(c, p, passed);
    BracketWasMeasured(c, Step(c, p, passed));
  }

  lemma BisectingCosts(c: Config, p: Progress, passed: bool)
    requires Accepted(c) && OnTrack(c, p) && p.move.Probe? && !p.fields.climbing
    ensures OnTrack(c, Step(c, p, passed)) && Remaining(c, Step(c, p, passed)) == After(c, p, passed)
  {
    hide BracketHolds, NoRateTwice, MostClimbing;
    StepKeepsInv(c, p, passed);
    BracketWasMeasured(c, Step(c, p, passed));
  }

  lemma StepCosts(c: Config, p: Progress, passed: bool)
    requires Accepted(c) && OnTrack(c, p) && p.move.Probe?
    ensures OnTrack(c, Step(c, p, passed)) && Remaining(c, Step(c, p, passed)) == After(c, p, passed)
    ensures Step(c, p, passed).fields.probes == p.fields.probes + 1
  {
    hide BracketHolds, NoRateTwice, Remaining, After;
    if p.fields.climbing { ClimbingCosts(c, p, passed); } else { BisectingCosts(c, p, passed); }
  }

  /** Some answer costs as much as any can. */
  lemma WorstAnswer(c: Config, p: Progress) returns (passed: bool)
    requires Accepted(c) && OnTrack(c, p) && p.move.Probe?
    ensures Remaining(c, p) == 1 + After(c, p, passed)
    ensures forall other :: After(c, p, other) <= After(c, p, passed)
  {
    hide BracketHolds, NoRateTwice;
    passed := After(c, p, true) >= After(c, p, false);
  }

  lemma BeginOnTrack(c: Config)
    requires Accepted(c)
    ensures OnTrack(c, Begin(c)) && Remaining(c, Begin(c)) == WorstProbes(c)
  {}

  lemma {:induction false} SearchWithinWorst(c: Config, run: seq<Progress>, i: nat)
    requires Accepted(c) && IsSearch(c, run) && i < |run|
    ensures OnTrack(c, run[i]) && run[i].fields.probes + Remaining(c, run[i]) <= WorstProbes(c)
  {
    hide OnTrack, Remaining, After, Step, WorstProbes;
    BeginOnTrack(c);
    if i > 0 {
      SearchWithinWorst(c, run, i - 1);
      var passed := WorstAnswer(c, run[i - 1]);
      StepCosts(c, run[i - 1], run[i] == Step(c, run[i - 1], true));
    }
  }

  lemma {:induction false} ExtendToWorst(c: Config, run: seq<Progress>) returns (full: seq<Progress>)
    requires Accepted(c) && IsSearch(c, run) && OnTrack(c, run[|run| - 1])
    ensures IsSearch(c, full) && full[|full| - 1].move.Done?
    ensures full[|full| - 1].fields.probes == run[|run| - 1].fields.probes + Remaining(c, run[|run| - 1])
    decreases Remaining(c, run[|run| - 1])
  {
    hide After, Step, Inv;
    var p := run[|run| - 1];
    if p.move.Done? {
      full := run;
    } else {
      var passed := WorstAnswer(c, p);
      StepCosts(c, p, passed);
      assert Answerable(p.fields) by { Pending(c, p); }
      full := ExtendToWorst(c, run + [Step(c, p, passed)]);
    }
  }

  lemma Pending(c: Config, p: Progress)
    requires Inv(c, p)
    ensures Answerable(p.fields)
  {}

  /** Every search ends within this many probes, and some answers cost exactly so many. */
  lemma WorstIsExact(c: Config)
    requires Accepted(c)
    ensures forall run: seq<Progress>, i: nat :: IsSearch(c, run) && i < |run| ==>
      run[i].fields.probes <= WorstProbes(c)
    ensures exists run: seq<Progress> ::
      IsSearch(c, run) && run[|run| - 1].move.Done? && run[|run| - 1].fields.probes == WorstProbes(c)
  {
    forall run: seq<Progress>, i: nat | IsSearch(c, run) && i < |run| ensures run[i].fields.probes <= WorstProbes(c) {
      SearchWithinWorst(c, run, i);
    }
    BeginOnTrack(c);
    assert IsSearch(c, [Begin(c)]);
    var full := ExtendToWorst(c, [Begin(c)]);
  }

  // ----- the estimate -----

  /** The climb takes a step `n`, from the rate before to its own. */
  predicate Taken(c: Config, n: nat) { n == 0 || ClimbRate(c, n - 1) < c.maxRate }

  /** The highest passed rate when step `n` of the climb is measured. */
  function Below(c: Config, n: nat): int { if n == 0 then 0 else ClimbRate(c, n - 1) }

  lemma {:induction false} ClimbRises(c: Config, n: nat)
    requires Accepted(c) && Taken(c, n)
    ensures 0 <= Below(c, n) < ClimbRate(c, n) <= c.maxRate
    ensures n > 0 ==> Taken(c, n - 1)
  {
    if n > 0 {
      if n > 1 { TakenBefore(c, n - 1); }
      ClimbRises(c, n - 1);
    }
  }

  lemma TakenBefore(c: Config, n: nat)
    requires Accepted(c) && n > 0 && ClimbRate(c, n) < c.maxRate
    ensures ClimbRate(c, n - 1) < c.maxRate
  {}

  /** Failing at step `n` of the climb costs the steps so far and the bisecting that follows. */
  function FailureCost(c: Config, n: nat): nat
    requires Accepted(c) && Taken(c, n)
  {
    ClimbRises(c, n);
    n + 1 + MostBisecting(c, Below(c, n), ClimbRate(c, n), 0)
  }

  lemma {:induction false} BisectingIsLimited(c: Config, lo: int, hi: int, steps: nat)
    requires Accepted(c) && 0 <= lo < hi && steps <= c.maxBisectSteps
    ensures MostBisecting(c, lo, hi, steps) <= c.maxBisectSteps - steps
    decreases c.maxBisectSteps - steps
  {
    if !Ends(c, lo, hi, steps) {
      var mid := Middle(lo, hi);
      BisectingIsLimited(c, lo, mid, steps + 1);
      BisectingIsLimited(c, mid, hi, steps + 1);
    }
  }

  /** A climb from step `n` on costs at most `bound` exactly when failing at each of its steps does. */
  lemma {:induction false} ClimbCosts(c: Config, n: nat, bound: int)
    requires Accepted(c) && Taken(c, n) && 0 <= Below(c, n) < ClimbRate(c, n) <= c.maxRate
    ensures n + MostClimbing(c, Below(c, n), ClimbRate(c, n)) <= bound
      <==> forall m :: n <= m && Taken(c, m) ==> FailureCost(c, m) <= bound
    decreases c.maxRate - ClimbRate(c, n)
  {
    hide MostBisecting;
    if ClimbRate(c, n) >= c.maxRate {
      forall m | n < m ensures !Taken(c, m) { NotTakenAfter(c, n, m); }
      assert Taken(c, n);
    } else {
      assert Below(c, n + 1) == ClimbRate(c, n) && Taken(c, n + 1);
      ClimbRises(c, n + 1);
      ClimbCosts(c, n + 1, bound);
    }
  }

  lemma {:induction false} NotTakenAfter(c: Config, n: nat, m: nat)
    requires Accepted(c) && n < m && ClimbRate(c, n) >= c.maxRate
    ensures !Taken(c, m)
  {
    if n < m - 1 {
      if Taken(c, m) { TakenBefore(c, m - 1); }
      NotTakenAfter(c, n, m - 1);
    }
  }

  /** The estimate bounds every search if and only if each climb step beyond the estimated ones leaves room: the
      steps it comes late and the bisecting after its failure fit into the bisecting steps allowed. */
  lemma EstimateHoldsExactly(c: Config)
    requires Accepted(c)
    ensures (forall run: seq<Progress>, i: nat :: IsSearch(c, run) && i < |run| ==>
      run[i].fields.probes <= MaxProbes(c))
      <==> forall n: nat :: n > EstimatedSteps(c) && Taken(c, n) ==>
             FailureCost(c, n) - EstimatedSteps(c) - 1 <= c.maxBisectSteps
  {
    hide EstimatedSteps, WorstProbes, Step, FailureCost, Taken;
    WorstIsExact(c);
    var run: seq<Progress> :|
      IsSearch(c, run) && run[|run| - 1].move.Done? && run[|run| - 1].fields.probes == WorstProbes(c);
    assert IsSearch(c, run) && 0 <= |run| - 1 < |run|;
    assert run[|run| - 1].fields.probes == WorstProbes(c);
    WorstIsDearestFailure(c, MaxProbes(c));
    forall n: nat | n <= EstimatedSteps(c) && Taken(c, n) ensures FailureCost(c, n) <= MaxProbes(c) {
      EarlyFailure(c, n);
    }
  }

  lemma EarlyFailure(c: Config, n: nat)
    requires Accepted(c) && Taken(c, n)
    ensures FailureCost(c, n) <= n + 1 + c.maxBisectSteps
  {
    ClimbRises(c, n);
    BisectingIsLimited(c, Below(c, n), ClimbRate(c, n), 0);
  }

  lemma WorstIsDearestFailure(c: Config, bound: int)
    requires Accepted(c)
    ensures WorstProbes(c) <= bound <==> forall n: nat :: Taken(c, n) ==> FailureCost(c, n) <= bound
  {
    assert Taken(c, 0);
    ClimbRises(c, 0);
    ClimbCosts(c, 0, bound);
  }
}
