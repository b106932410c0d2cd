/** How fast the rate search ends, and when its answer is exact. */
module RateSearchBounds {
  import opened Text
  import opened RateSearch

  function Pow(m: real, k: nat): real { if k == 0 then 1.0 else m * Pow(m, k - 1) }

  function Pow2(k: nat): nat { if k == 0 then 1 else 2 * Pow2(k - 1) }

  function Width(f: Fields): int
    requires f.hi.Some?
  {
    f.hi.value - Floor(f.lo)
  }

  // ----- bisecting -----

  /** Each bisecting answer at least halves the bracket, rounding up, and is counted. */
  lemma BisectHalves(c: Config, p: Progress, passed: bool)
    requires Accepted(c) && Inv(c, p) && p.move.Probe? && !p.fields.climbing
    requires p.fields.currentRate == Floor(p.fields.lo) + Width(p.fields) / 2
    ensures var q := Step(c, p, passed);
      && q.fields.hi.Some? && 2 * Width(q.fields) <= Width(p.fields) + 1
      && q.fields.bisectSteps == p.fields.bisectSteps + 1 <= c.maxBisectSteps
      && (q.move.Probe? ==> q.fields.currentRate == Floor(q.fields.lo) + Width(q.fields) / 2)
  {
    BracketWasMeasured(c, p);
  }

  /** The bracket after `k` bisecting answers, measured against the one the climb ended with. */
  ghost predicate Halved(c: Config, p: Progress) {
    p.fields.hi.Some? ==>
      && (Width(p.fields) - 1) * Pow2(p.fields.bisectSteps) <= c.maxRate - 1
      && (p.move.Probe? ==> p.fields.currentRate == Floor(p.fields.lo) + Width(p.fields) / 2)
  }

  lemma HalvedProduct(w: int, v: int, k: nat)
    requires 2 * v <= w
    ensures v * Pow2(k + 1) <= w * Pow2(k)
  {
    assert v * Pow2(k + 1) == (2 * v) * Pow2(k);
  }

  lemma ClimbEnds(c: Config, p: Progress, passed: bool)
    requires Accepted(c) && Inv(c, p) && p.move.Probe? && p.fields.climbing && p.fields.bisectSteps == 0
    ensures var q := Step(c, p, passed); q.fields.bisectSteps == 0 && Halved(c, q)
  {
    hide BracketHolds, NoRateTwice;
    BracketWasMeasured(c, p);
  }

  lemma StepHalves(c: Config, p: Progress, passed: bool)
    requires Accepted(c) && Inv(c, p) && p.move.Probe? && Halved(c, p)
    requires p.fields.climbing ==> p.fields.bisectSteps == 0
    ensures var q := Step(c, p, passed); Halved(c, q) && (q.fields.climbing ==> q.fields.bisectSteps == 0)
  {
    if p.fields.climbing {
      ClimbEnds(c, p, passed);
    } else {
      hide BracketHolds, NoRateTwice, Step;
      BisectHalves(c, p, passed);
      var q := Step(c, p, passed);
      StaysBisecting(c, p, passed);
      HalvedProduct(Width(p.fields) - 1, Width(q.fields) - 1, p.fields.bisectSteps);
    }
  }

  lemma StaysBisecting(c: Config, p: Progress, passed: bool)
    requires Answerable(p.fields) && !p.fields.climbing
    ensures !Step(c, p, passed).fields.climbing
  {}

  lemma {:induction false} SearchHalves(c: Config, run: seq<Progress>, i: nat)
    requires Accepted(c) && IsSearch(c, run) && i < |run|
    ensures Halved(c, run[i]) && (run[i].fields.climbing ==> run[i].fields.bisectSteps == 0)
  {
    hide Step, Halved, Inv;
    if i > 0 {
      SearchHalves(c, run, i - 1);
      SearchKeepsBracket(c, run, i - 1);
      StepHalves(c, run[i - 1], run[i] == Step(c, run[i - 1], true));
    } else {
      BeginHalves(c);
    }
  }

  lemma BeginHalves(c: Config)
    ensures Halved(c, Begin(c)) && Begin(c).fields.bisectSteps == 0
  {}

  /** Answers that come from a fixed threshold. */
  ghost predicate Threshold(p: Progress, t: int) {
    forall a :: a in p.answers ==> a.passed == (a.rate <= t)
  }

  /** With tolerance 0 and enough bisecting steps, a threshold is found exactly. */
  lemma ThresholdIsFoundExactly(c: Config, run: seq<Progress>, t: int)
    requires Accepted(c) && IsSearch(c, run) && c.tolerance == 0.0 && Pow2(c.maxBisectSteps) >= c.maxRate
    requires var p := run[|run| - 1]; p.move.Done? && Threshold(p, t)
    ensures var m := run[|run| - 1].move;
      if t >= c.maxRate then m == Done(Some(c.maxRate), None)
      else m == Done(if t < 1 then None else Some(t), Some(Max(t, 0) + 1))
  {
    var p := run[|run| - 1];
    SearchKeepsBracket(c, run, |run| - 1);
    SearchHalves(c, run, |run| - 1);
    BracketWasMeasured(c, p);
    var f := p.fields;
    if f.lo.Some? { assert Answer(f.lo.value, true) in p.answers; }
    if f.hi.Some? {
      assert Answer(f.hi.value, false) in p.answers;
      WidthIsPositive(f);
      if Width(f) > 1 {
        assert f.bisectSteps >= c.maxBisectSteps;
        AtLeastProduct(Width(f) - 1, Pow2(f.bisectSteps));
      }
      assert Width(f) == 1;
    } else {
      assert PassedAt(p, c.maxRate);
    }
  }

  lemma AtLeastProduct(w: int, k: nat)
    requires w >= 1
    ensures w * k >= k
  {}

  lemma WidthIsPositive(f: Fields)
    requires f.hi.Some? && f.hi.value >= 1 && Width(f) >= 1
    ensures Width(f) as real / f.hi.value as real > 0.0
  {}

  // ----- climbing -----

  /** The `n`-th rate of a climb that never fails. */
  function ClimbRate(c: Config, n: nat): int {
    if n == 0 then c.startRate else NextClimb(c, ClimbRate(c, n - 1))
  }

  ghost predicate Climbs(c: Config, p: Progress) {
    && p.fields.bisectSteps <= |p.answers|
    && (p.fields.climbing ==> p.fields.bisectSteps == 0)
    && (p.fields.climbing && p.move.Probe? ==> p.fields.currentRate == ClimbRate(c, |p.answers|))
    && (p.fields.climbing && p.move.Probe? ==> forall n :: 0 <= n < |p.answers| ==> ClimbRate(c, n) < c.maxRate)
    && (forall n :: 0 <= n < |p.answers| - p.fields.bisectSteps - 1 ==> ClimbRate(c, n) < c.maxRate)
  }

  lemma {:induction false} SearchClimbs(c: Config, run: seq<Progress>, i: nat)
    requires Accepted(c) && IsSearch(c, run) && i < |run|
    ensures Climbs(c, run[i])
  {
    if i > 0 {
      SearchClimbs(c, run, i - 1);
      SearchKeepsBracket(c, run, i - 1);
      hide Inv, Step, Climbs;
      StepClimbs(c, run[i - 1], run[i] == Step(c, run[i - 1], true));
    } else {
      BeginClimbs(c);
    }
  }

  lemma BeginClimbs(c: Config)
    ensures Climbs(c, Begin(c))
  {}

  lemma StepClimbs(c: Config, p: Progress, passed: bool)
    requires Accepted(c) && Inv(c, p) && p.move.Probe? && Climbs(c, p)
    ensures Climbs(c, Step(c, p, passed))
  {
    hide BracketHolds, NoRateTwice, NextClimb, Over;
    assert NextClimb(c, ClimbRate(c, |p.answers|)) == ClimbRate(c, |p.answers| + 1);
  }

  /** `ceil(log(max / x) / log(m))` in exact arithmetic, for `max` above `x`: how often `x` must be multiplied by `m`.
      `grain` is a growth every step is at least worth. */
  function CeilLog(x: real, m: real, max: real, grain: real): nat
    requires x > 0.0 && m > 1.0 && grain > 0.0 && x * (m - 1.0) >= grain
    decreases if x >= max then 0 else ((max - x) / grain).Floor + 1
  {
    if x >= max then 0
    else
      StepsLeft(x, m, max, grain);
      CeilLog(x * m, m, max, grain) + 1
  }

  lemma PowShift(x: real, m: real, k: nat)
    ensures (x * m) * Pow(m, k) == x * Pow(m, k + 1)
  {}

  /** It is the least number of multiplications that reaches `max`. */
  lemma {:induction false} CeilLogIsLeast(x: real, m: real, max: real, grain: real)
    requires x > 0.0 && m > 1.0 && grain > 0.0 && x * (m - 1.0) >= grain
    ensures var k := CeilLog(x, m, max, grain);
      x * Pow(m, k) >= max && (k > 0 ==> x * Pow(m, k - 1) < max)
    decreases CeilLog(x, m, max, grain)
  {
    if x < max {
      StepsLeft(x, m, max, grain);
      var k := CeilLog(x * m, m, max, grain);
      CeilLogIsLeast(x * m, m, max, grain);
      PowShift(x, m, k);
      if k > 0 { PowShift(x, m, k - 1); }
    }
  }

  lemma StepsLeft(x: real, m: real, max: real, grain: real)
    requires x > 0.0 && m > 1.0 && grain > 0.0 && x * (m - 1.0) >= grain && x < max
    ensures x * m >= x + grain
    ensures x * m * (m - 1.0) >= grain
    ensures x * m < max ==> 0 <= ((max - x * m) / grain).Floor < ((max - x) / grain).Floor
    ensures 0 <= ((max - x) / grain).Floor
  {
    assert x * m == x + x * (m - 1.0);
    MulMonotone(x, x * m, m - 1.0);
    QuotientSign(max - x, grain);
    DivDrop(max - x, max - x * m, grain);
    if x * m < max { QuotientSign(max - x * m, grain); }
  }

  lemma MulMonotone(x: real, y: real, z: real)
    requires x <= y && z >= 0.0
    ensures x * z <= y * z
  {}

  lemma QuotientSign(x: real, d: real)
    requires d > 0.0 && x >= 0.0
    ensures x / d >= 0.0
  {}

  lemma CancelLe(p: real, q: real, d: real)
    requires d > 0.0 && p * d <= q * d
    ensures p <= q
  {
    assert (p - q) * d == p * d - q * d;
    assert p > q ==> (p - q) * d > 0.0;
  }

  lemma DivDrop(x: real, y: real, d: real)
    requires d > 0.0 && y <= x - d
    ensures y / d <= x / d - 1.0
  {
    var p, q := y / d, x / d;
    assert p * d == y && q * d == x;
    assert (q - 1.0) * d == q * d - d;
    CancelLe(p, q - 1.0, d);
  }

  function Multiplications(x: real, m: real, max: real): nat
    requires x >= 1.0 && m > 1.0
  {
    AtLeastItself(x, m - 1.0);
    CeilLog(x, m, max, m - 1.0)
  }

  lemma MultiplicationsReach(x: real, m: real, max: real)
    requires x >= 1.0 && m > 1.0
    ensures var k := Multiplications(x, m, max);
      x * Pow(m, k) >= max && (k > 0 ==> x * Pow(m, k - 1) < max)
  {
    AtLeastItself(x, m - 1.0);
    CeilLogIsLeast(x, m, max, m - 1.0);
  }

  /** How many multiplications the estimate allows the climb. */
  function EstimatedSteps(c: Config): nat
    requires Accepted(c)
  {
    Multiplications(c.startRate as real, c.stepMultiplier, c.maxRate as real)
  }

  /** The estimate the search offers for progress displays. */
  function MaxProbes(c: Config): nat
    requires Accepted(c)
  {
    EstimatedSteps(c) + 1 + c.maxBisectSteps
  }

  lemma AtLeastItself(x: real, z: real)
    requires x >= 1.0 && z >= 0.0
    ensures x * z >= z
  {
    assert (x - 1.0) * z >= 0.0;
  }

  lemma PowPositive(m: real, k: nat)
    requires m > 1.0
    ensures Pow(m, k) >= 1.0
  {
    if k > 0 {
      PowPositive(m, k - 1);
      AtLeastItself(Pow(m, k - 1), m);
    }
  }

  lemma WholeStep(c: Config, r: int)
    requires Accepted(c) && c.stepMultiplier == c.stepMultiplier.Floor as real && 1 <= r
    ensures NextClimb(c, r) == Min(r * c.stepMultiplier.Floor, c.maxRate)
    ensures (r * c.stepMultiplier.Floor) as real == r as real * c.stepMultiplier
  {
    var m := c.stepMultiplier.Floor;
    assert m >= 2;
    assert r as real * m as real == (r * m) as real;
    assert r * m >= 2 * r by { assert r * (m - 2) >= 0; }
  }

  /** Climbing by a whole multiplier loses nothing to truncation. */
  lemma {:induction false} WholeClimb(c: Config, n: nat)
    requires Accepted(c) && c.stepMultiplier == c.stepMultiplier.Floor as real
    requires forall k :: 0 <= k < n ==> ClimbRate(c, k) < c.maxRate
    ensures 1 <= ClimbRate(c, n) <= c.maxRate
    ensures ClimbRate(c, n) < c.maxRate ==> ClimbRate(c, n) as real == c.startRate as real * Pow(c.stepMultiplier, n)
  {
    hide NextClimb;
    if n > 0 {
      WholeClimb(c, n - 1);
      var r, m, x := ClimbRate(c, n - 1), c.stepMultiplier.Floor, c.startRate as real;
      WholeStep(c, r);
      assert r * m >= r by { assert r * (m - 1) >= 0; }
      assert (x * Pow(c.stepMultiplier, n - 1)) * c.stepMultiplier == x * Pow(c.stepMultiplier, n);
    }
  }

  /** Whatever the multiplier: a truncated climb that reaches the maximum in time keeps the search within its
      estimate. */
  lemma ClimbInTimeSuffices(c: Config, run: seq<Progress>, i: nat)
    requires Accepted(c) && IsSearch(c, run) && i < |run|
    requires exists n :: 0 <= n <= EstimatedSteps(c) && ClimbRate(c, n) >= c.maxRate
    ensures run[i].fields.probes <= MaxProbes(c)
  {
    hide ClimbRate, Multiplications;
    SearchClimbs(c, run, i);
    SearchKeepsBracket(c, run, i);
  }

  /** For whole multipliers the climb is in time, so the search never takes more probes than its estimate. */
  lemma ProbesWithinEstimate(c: Config, run: seq<Progress>, i: nat)
    requires Accepted(c) && IsSearch(c, run) && i < |run|
    requires c.stepMultiplier == c.stepMultiplier.Floor as real
    ensures run[i].fields.probes <= MaxProbes(c)
  {
    hide ClimbRate, Pow, Multiplications, IsSearch;
    var k := EstimatedSteps(c);
    MultiplicationsReach(c.startRate as real, c.stepMultiplier, c.maxRate as real);
    if forall n :: 0 <= n < k ==> ClimbRate(c, n) < c.maxRate {
      WholeClimb(c, k);
    }
    assert exists n :: 0 <= n <= k && ClimbRate(c, n) >= c.maxRate;
    ClimbInTimeSuffices(c, run, i);
  }

  lemma ClimbStep(c: Config, p: Progress)
    requires p.fields.climbing && 1 <= p.fields.currentRate < c.maxRate
    ensures var f, next := p.fields, NextClimb(c, p.fields.currentRate);
      Step(c, p, true) == Progress(
        f.(currentRate := next, lo := Some(f.currentRate), probes := f.probes + 1),
        Probe(next),
        p.answers + [Answer(f.currentRate, true)])
  {}

  /** For fractional multipliers truncation can cost extra probes: from 1 by 1.9 to 10 the climb takes six, not five. */
  lemma FractionalClimbExceedsEstimate() returns (c: Config, run: seq<Progress>)
    ensures Accepted(c) && IsSearch(c, run)
    ensures run[|run| - 1].move.Done? && run[|run| - 1].fields.probes > MaxProbes(c)
  {
    c := Config(1, 1.9, 10, 0.0, 0);
    assert NextClimb(c, 1) == 2 && NextClimb(c, 2) == 3 && NextClimb(c, 3) == 5 && NextClimb(c, 5) == 9
      && NextClimb(c, 9) == 10;
    run := SixPasses(c);
    FiveEstimated(c);
  }

  lemma SixPasses(c: Config) returns (run: seq<Progress>)
    requires c.startRate == 1 && c.maxRate == 10 && c.maxBisectSteps == 0
    requires NextClimb(c, 1) == 2 && NextClimb(c, 2) == 3 && NextClimb(c, 3) == 5 && NextClimb(c, 5) == 9
      && NextClimb(c, 9) == 10
    ensures IsSearch(c, run) && run[|run| - 1].move.Done? && run[|run| - 1].fields.probes == 6
  {
    hide NextClimb;
    var p0 := Begin(c);
    ClimbStep(c, p0);
    var p1 := Step(c, p0, true);
    ClimbStep(c, p1);
    var p2 := Step(c, p1, true);
    ClimbStep(c, p2);
    var p3 := Step(c, p2, true);
    ClimbStep(c, p3);
    var p4 := Step(c, p3, true);
    ClimbStep(c, p4);
    var p5 := Step(c, p4, true);
    run := [p0, p1, p2, p3, p4, p5, Step(c, p5, true)];
  }

  lemma AtMost(x: real, m: real, max: real, n: nat)
    requires x >= 1.0 && m > 1.0 && x * Pow(m, n) >= max
    ensures Multiplications(x, m, max) <= n
  {
    hide Multiplications, Pow;
    MultiplicationsReach(x, m, max);
    var k := Multiplications(x, m, max);
    if k > n {
      PowGrows(m, n, k - 1);
      MulMonotone(Pow(m, n), Pow(m, k - 1), x);
    }
  }

  lemma FiveEstimated(c: Config)
    requires c == Config(1, 1.9, 10, 0.0, 0)
    ensures MaxProbes(c) <= 5
  {
    MultiplicationsReach(1.0, 1.9, 10.0);
    assert Pow(1.9, 0) == 1.0;
    assert Pow(1.9, 1) == 1.9;
    assert Pow(1.9, 2) == 3.61;
    assert Pow(1.9, 3) == 6.859;
    assert Pow(1.9, 4) == 13.0321;
    AtMost(1.0, 1.9, 10.0, 4);
  }

  lemma {:induction false} PowGrows(m: real, i: nat, k: nat)
    requires m > 1.0 && i <= k
    ensures Pow(m, i) <= Pow(m, k)
  {
    if i < k {
      PowGrows(m, i, k - 1);
      PowPositive(m, k - 1);
      AtLeastItself(m, Pow(m, k - 1));
    }
  }

  function Reciprocal(x: real): (y: real)
    requires x > 0.0
    ensures y * x == 1.0
  {
    1.0 / x
  }

  lemma PowSteps(m: real, n: nat)
    ensures Pow(m, 0) == 1.0 && (n > 0 ==> Pow(m, n) == m * Pow(m, n - 1))
  {}

  lemma GeometricStep(r: real, next: real, p: real, start: real, a: real, m: real)
    requires m > 1.0 && a * (m - 1.0) == 1.0
    requires r >= p * (start - a) + a && next >= r * m - 1.0
    ensures next >= (m * p) * (start - a) + a
  {
    var d := p * (start - a);
    MulMonotone(d + a, r, m);
    assert (d + a) * m == d * m + a * m;
    assert a * m == a + 1.0;
    assert d * m == (m * p) * (start - a);
  }

  /** What holds for every multiplier: before the cap, the climb stays above a geometric series. */
  lemma {:induction false} ClimbIsGeometric(c: Config, n: nat)
    requires Accepted(c)
    requires forall k :: 0 <= k <= n ==> ClimbRate(c, k) < c.maxRate
    ensures var m, a := c.stepMultiplier, Reciprocal(c.stepMultiplier - 1.0);
      ClimbRate(c, n) as real >= Pow(m, n) * (c.startRate as real - a) + a
  {
    hide NextClimb, Pow;
    var m, a := c.stepMultiplier, Reciprocal(c.stepMultiplier - 1.0);
    PowSteps(m, n);
    if n > 0 {
      ClimbIsGeometric(c, n - 1);
      var r := ClimbRate(c, n - 1);
      assert ClimbRate(c, n) == NextClimb(c, r) < c.maxRate;
      TruncationLosesLessThanOne(c, r);
      GeometricStep(r as real, ClimbRate(c, n) as real, Pow(m, n - 1), c.startRate as real, a, m);
    }
  }

  lemma TruncationLosesLessThanOne(c: Config, r: int)
    requires NextClimb(c, r) < c.maxRate
    ensures NextClimb(c, r) as real >= r as real * c.stepMultiplier - 1.0
  {}
}
