// The SLO controller: exponential smoothing of three measurements, and a
// switch decision with dwell time, hysteresis and a fading penalty.
module Slo {
  import opened Wrappers
  import opened Durations
  import opened Spacing
  import opened Chains
  import opened SwitchTiming

  datatype PathMetrics = PathMetrics(rtt: int, loss: real, jitter: int) {
    function Cost(): real {
      (Milliseconds(rtt) as real) + loss * 1000.0 + (Milliseconds(jitter) as real)
    }

    predicate Measured() {
      rtt >= 0 && loss >= 0.0 && jitter >= 0
    }
  }

  datatype Gate = Gate(timer: Timer, minDwell: int, threshold: real) {
    /** In percent of the current cost. */
    function Improvement(now: int, current: PathMetrics, candidate: PathMetrics): real {
      if current.Cost() == 0.0 then 0.0
      else (current.Cost() - (candidate.Cost() + timer.CurrentPenalty(now))) / current.Cost() * 100.0
    }

    predicate ShouldSwitch(now: int, current: PathMetrics, candidate: PathMetrics) {
      && timer.Elapsed(now) >= minDwell
      && Improvement(now, current, candidate) >= threshold / 100.0
      && timer.CurrentPenalty(now) <= 0.0
    }
  }

  function Blend(alpha: real, previous: real, sample: real): real {
    alpha * sample + (1.0 - alpha) * previous
  }

  /** The filter started at zero and fed with the samples in order. */
  function Ema(alpha: real, xs: seq<real>): real {
    if xs == [] then 0.0 else Blend(alpha, Ema(alpha, xs[..|xs| - 1]), xs[|xs| - 1])
  }

  class SLOController {
    const alpha: real
    const switchPenalty: int
    const minDwell: int
    const threshold: real
    var rttEMA: real
    var lossEMA: real
    var jitterEMA: real
    var lastSwitch: Option<int>
    ghost var rtts: seq<real>
    ghost var losses: seq<real>
    ghost var jitters: seq<real>

    /** Each filter is the smoothing of all the samples it was given. */
    ghost predicate Valid()
      reads this
    {
      rttEMA == Ema(alpha, rtts) && lossEMA == Ema(alpha, losses) && jitterEMA == Ema(alpha, jitters)
    }

    constructor (alpha: real, switchPenalty: int, minDwell: int, threshold: real)
      ensures Valid() && rtts == losses == jitters == []
      ensures this.alpha == alpha && Timing() == Gate(Timer(switchPenalty, None), minDwell, threshold)
    {
      this.alpha, this.switchPenalty, this.minDwell, this.threshold := alpha, switchPenalty, minDwell, threshold;
      rttEMA, lossEMA, jitterEMA, lastSwitch := 0.0, 0.0, 0.0, None;
      rtts, losses, jitters := [], [], [];
    }

    function Timing(): Gate
      reads this
    {
      Gate(Timer(switchPenalty, lastSwitch), minDwell, threshold)
    }

    method Update(rtt: real, loss: real, jitter: real)
      requires Valid()
      modifies this
      ensures Valid() && Timing() == old(Timing())
      ensures rtts == old(rtts) + [rtt] && losses == old(losses) + [loss] && jitters == old(jitters) + [jitter]
    {
      rttEMA := Blend(alpha, rttEMA, rtt);
      lossEMA := Blend(alpha, lossEMA, loss);
      jitterEMA := Blend(alpha, jitterEMA, jitter);
      EmaSnoc(alpha, rtts, rtt);
      EmaSnoc(alpha, losses, loss);
      EmaSnoc(alpha, jitters, jitter);
      rtts, losses, jitters := rtts + [rtt], losses + [loss], jitters + [jitter];
    }

    predicate ShouldSwitch(now: int, current: PathMetrics, candidate: PathMetrics)
      reads this
    {
      Timing().ShouldSwitch(now, current, candidate)
    }

    method RecordSwitch(now: int)
      modifies this`lastSwitch
      ensures Timing() == old(Timing()).(timer := old(Timing()).timer.Switched(now))
    {
      lastSwitch := Some(now);
    }
  }

  // ----- The filter -----

  lemma EmaSnoc(alpha: real, xs: seq<real>, x: real)
    ensures Ema(alpha, xs + [x]) == Blend(alpha, Ema(alpha, xs), x)
  {
    assert (xs + [x])[..|xs|] == xs;
  }

  /** The first k terms of the weighted sum: sample i counts alpha * (1 - alpha)^(n - 1 - i). */
  function Terms(alpha: real, xs: seq<real>, k: nat): real
    requires k <= |xs|
  {
    if k == 0 then 0.0
    else Terms(alpha, xs, k - 1) + alpha * Pow(1.0 - alpha, |xs| - k) * xs[k - 1]
  }

  lemma {:induction false} TermsDecay(alpha: real, xs: seq<real>, x: real, k: nat)
    requires k <= |xs|
    ensures Terms(alpha, xs + [x], k) == (1.0 - alpha) * Terms(alpha, xs, k)
    decreases k
  {
    if k > 0 {
      TermsDecay(alpha, xs, x, k - 1);
      var r := 1.0 - alpha;
      var p := Pow(r, |xs| - k);
      assert Pow(r, |xs| + 1 - k) == r * p;
      assert alpha * (r * p) * xs[k - 1] == r * (alpha * p * xs[k - 1]);
      assert (xs + [x])[k - 1] == xs[k - 1];
    }
  }

  /** Closed form: the weighted sum of all samples. */
  lemma {:induction false} EmaClosedForm(alpha: real, xs: seq<real>)
    ensures Ema(alpha, xs) == Terms(alpha, xs, |xs|)
    decreases |xs|
  {
    if xs != [] {
      var ys, x := xs[..|xs| - 1], xs[|xs| - 1];
      assert xs == ys + [x];
      EmaClosedForm(alpha, ys);
      TermsDecay(alpha, ys, x, |ys|);
      assert Pow(1.0 - alpha, 0) == 1.0;
    }
  }

  lemma BlendBetween(alpha: real, e: real, x: real, lo: real, hi: real)
    requires 0.0 <= alpha <= 1.0 && lo <= e <= hi && lo <= x <= hi
    ensures lo <= Blend(alpha, e, x) <= hi
  {
    Product(alpha, x - lo);
    Product(alpha, hi - x);
    Product(1.0 - alpha, e - lo);
    Product(1.0 - alpha, hi - e);
    assert Blend(alpha, e, x) - lo == alpha * (x - lo) + (1.0 - alpha) * (e - lo);
    assert hi - Blend(alpha, e, x) == alpha * (hi - x) + (1.0 - alpha) * (hi - e);
  }

  /** With a weight between 0 and 1 the filter stays between the least and greatest of 0 and the samples. */
  lemma {:induction false} EmaStaysInHull(alpha: real, xs: seq<real>, lo: real, hi: real)
    requires 0.0 <= alpha <= 1.0 && lo <= 0.0 <= hi && forall x :: x in xs ==> lo <= x <= hi
    ensures lo <= Ema(alpha, xs) <= hi
    decreases |xs|
  {
    if xs != [] {
      var ys, x := xs[..|xs| - 1], xs[|xs| - 1];
      assert x in xs && forall y :: y in ys ==> y in xs;
      EmaStaysInHull(alpha, ys, lo, hi);
      var e := Ema(alpha, ys);
      BlendBetween(alpha, e, x, lo, hi);
    }
  }

  /** On constant input the distance to that input is exactly (1 - alpha)^n of it. */
  lemma {:induction false} EmaConverges(alpha: real, xs: seq<real>, x: real)
    requires forall y :: y in xs ==> y == x
    ensures x - Ema(alpha, xs) == Pow(1.0 - alpha, |xs|) * x
    decreases |xs|
  {
    if xs != [] {
      var ys := xs[..|xs| - 1];
      assert forall y :: y in ys ==> y in xs;
      assert xs[|xs| - 1] in xs;
      EmaConverges(alpha, ys, x);
      var r := 1.0 - alpha;
      assert x - Ema(alpha, xs) == r * (x - Ema(alpha, ys));
      assert r * (Pow(r, |ys|) * x) == Pow(r, |xs|) * x;
    }
  }

  // ----- The decision -----

  /**
   * A millisecond of delay or of jitter costs one, a lost percent costs as
   * much as ten milliseconds, parts of a millisecond cost nothing, and
   * nothing costs nothing.
   */
  lemma CostWeighs(p: PathMetrics, x: real)
    requires p.Measured()
    ensures p.(rtt := p.rtt + 1_000_000).Cost() == p.Cost() + 1.0
    ensures p.(jitter := p.jitter + 1_000_000).Cost() == p.Cost() + 1.0
    ensures p.(loss := p.loss + 0.01 * x).Cost() == p.Cost() + 10.0 * x
    ensures p.rtt < 1_000_000 && p.jitter < 1_000_000 && p.loss == 0.0 ==> p.Cost() == 0.0
  {
  }

  /** The percentage threshold is compared after dividing by 100 once too often, so it counts in ten-thousandths. */
  lemma EffectiveHysteresis(cur: real, cand: real, threshold: real)
    requires cur > 0.0
    ensures (cur - cand) / cur * 100.0 >= threshold / 100.0 <==> cand * 10000.0 <= (10000.0 - threshold) * cur
  {
    var q := (cur - cand) / cur;
    assert q * cur == cur - cand;
    assert (10000.0 - threshold) * cur - cand * 10000.0 == (q * 10000.0 - threshold) * cur;
    if q * 10000.0 >= threshold {
      Scale(0.0, q * 10000.0 - threshold, cur);
    }
    if cand * 10000.0 <= (10000.0 - threshold) * cur {
      SignOf(q * 10000.0 - threshold, cur);
    }
  }

  /** Exactly when a switch is recommended, in terms of the two paths' costs. */
  lemma WhenRecommended(g: Gate, now: int, current: PathMetrics, candidate: PathMetrics)
    requires g.timer.ClockAfter(now) && g.timer.penalty <= MAX_DURATION && current.Measured()
    ensures g.ShouldSwitch(now, current, candidate) <==>
              && g.timer.Elapsed(now) >= Max(g.minDwell, g.timer.penalty)
              && (if current.Cost() == 0.0 then g.threshold <= 0.0
                  else candidate.Cost() * 10000.0 <= (10000.0 - g.threshold) * current.Cost())
  {
    PenaltyGone(g.timer, now);
    if current.Cost() != 0.0 {
      EffectiveHysteresis(current.Cost(), candidate.Cost(), g.threshold);
    }
  }

  /** The documented ten percent is not what the default threshold of 10 asks for: one percent is enough. */
  lemma TenPercentIsNotRequired()
    ensures var g := Gate(Timer(15 * SECOND, None), 20 * SECOND, 10.0);
            g.ShouldSwitch(0, PathMetrics(100 * MILLISECOND, 0.0, 0), PathMetrics(99 * MILLISECOND, 0.0, 0))
  {
    var g := Gate(Timer(15 * SECOND, None), 20 * SECOND, 10.0);
    var cur, cand := PathMetrics(100 * MILLISECOND, 0.0, 0), PathMetrics(99 * MILLISECOND, 0.0, 0);
    assert cur.Cost() == 100.0 && cand.Cost() == 99.0;
    WhenRecommended(g, 0, cur, cand);
  }

  /** For fixed paths a recommendation, once given, stands until the next recorded switch. */
  lemma RecommendationStands(g: Gate, t: int, t': int, current: PathMetrics, candidate: PathMetrics)
    requires g.timer.ClockAfter(t) && t <= t' && g.timer.penalty <= MAX_DURATION
    requires g.ShouldSwitch(t, current, candidate)
    ensures g.ShouldSwitch(t', current, candidate)
  {
    PenaltyGone(g.timer, t);
    PenaltyGone(g.timer, t');
  }

  // ----- Chains of accepted and recorded switches -----

  /** The gate that the i-th switch of a run passed. */
  function GateAt(g: Gate, ts: seq<int>, i: nat): Gate
    requires i <= |ts|
  {
    g.(timer := g.timer.Before(ts, i))
  }

  ghost predicate Accepted(g: Gate, ts: seq<int>, path: seq<PathMetrics>, i: nat)
    requires i < |ts| && |path| == |ts| + 1
  {
    GateAt(g, ts, i).timer.ClockAfter(ts[i]) && GateAt(g, ts, i).ShouldSwitch(ts[i], path[i], path[i + 1])
  }

  /** `ts[i]` is when the switch from `path[i]` to `path[i + 1]` was accepted and recorded. */
  ghost predicate SwitchRun(g: Gate, ts: seq<int>, path: seq<PathMetrics>) {
    && |path| == |ts| + 1 && g.timer.penalty <= MAX_DURATION
    && (forall i :: 0 <= i < |ts| ==> Accepted(g, ts, path, i))
    && (forall p :: p in path ==> p.Measured())
  }

  lemma SwitchesApart(g: Gate, ts: seq<int>, path: seq<PathMetrics>)
    requires SwitchRun(g, ts, path)
    ensures Spaced(ts, Max(0, Max(g.minDwell, g.timer.penalty)))
  {
    forall i | 0 <= i < |ts| - 1
      ensures ts[i + 1] - ts[i] >= Max(0, Max(g.minDwell, g.timer.penalty))
    {
      assert Accepted(g, ts, path, i + 1);
      WhenRecommended(GateAt(g, ts, i + 1), ts[i + 1], path[i + 1], path[i + 2]);
    }
  }

  /** The fraction of the cost that a switch may keep. */
  function Kept(threshold: real): (r: real)
    ensures threshold > 0.0 ==> 0.0 <= r < 1.0
  {
    if threshold <= 10000.0 then 1.0 - threshold / 10000.0 else 0.0
  }

  lemma SwitchAt(g: Gate, ts: seq<int>, path: seq<PathMetrics>, i: nat)
    requires SwitchRun(g, ts, path) && i < |ts| && g.threshold > 0.0
    ensures var before, after := path[i].Cost(), path[i + 1].Cost();
            after <= Kept(g.threshold) * before && after < before
  {
    assert Accepted(g, ts, path, i) && path[i] in path && path[i + 1] in path;
    WhenRecommended(GateAt(g, ts, i), ts[i], path[i], path[i + 1]);
    var cur, cand, th := path[i].Cost(), path[i + 1].Cost(), g.threshold;
    assert cur > 0.0 && cand >= 0.0;
    assert cand * 10000.0 <= (10000.0 - th) * cur;
    SignOf(10000.0 - th, cur);
    var r := 1.0 - th / 10000.0;
    assert r * cur * 10000.0 == (10000.0 - th) * cur;
    assert th / 10000.0 * cur > 0.0;
    assert r * cur == cur - th / 10000.0 * cur;
  }

  lemma RunCosts(g: Gate, ts: seq<int>, path: seq<PathMetrics>) returns (costs: seq<real>)
    requires SwitchRun(g, ts, path) && g.threshold > 0.0
    ensures |costs| == |path| && forall i :: 0 <= i < |path| ==> costs[i] == CostOf(path[i])
    ensures Falls(costs) && Shrinks(costs, Kept(g.threshold))
  {
    costs := seq(|path|, i requires 0 <= i < |path| => CostOf(path[i]));
    forall i | 0 <= i < |ts|
      ensures costs[i + 1] <= Kept(g.threshold) * costs[i] && costs[i + 1] < costs[i]
    {
      SwitchAt(g, ts, path, i);
    }
  }

  function CostOf(p: PathMetrics): real {
    p.Cost()
  }

  /** A run of n switches ends at no more than (1 - threshold / 10000)^n of the cost it started from. */
  lemma SloSaves(g: Gate, ts: seq<int>, path: seq<PathMetrics>)
    requires SwitchRun(g, ts, path) && g.threshold > 0.0
    ensures CostOf(path[|ts|]) <= Geometric(Kept(g.threshold), |ts|, CostOf(path[0]))
  {
    var costs := RunCosts(g, ts, path);
    GeometricBound(costs, Kept(g.threshold), |ts|);
  }

  /** Such a run never returns to a path it left and is shorter than the number of paths. */
  lemma SloNeverReturns(g: Gate, ts: seq<int>, path: seq<PathMetrics>, universe: set<PathMetrics>)
    requires SwitchRun(g, ts, path) && g.threshold > 0.0 && forall p :: p in path ==> p in universe
    ensures Distinct(path) && |ts| < |universe|
  {
    var costs := RunCosts(g, ts, path);
    FallingWalk(path, costs, CostOf, universe);
  }
}
