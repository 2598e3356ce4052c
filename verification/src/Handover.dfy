// The handover manager: a switch needs a minimum interval and a ten percent
// improvement over a penalty that fades after each switch.
module Handover {
  import opened Wrappers
  import opened Durations
  import opened Spacing
  import opened Chains
  import opened SwitchTiming

  datatype PathSLI = PathSLI(rtt: int, loss: real, jitter: int, mode: string, server: string) {
    function Cost(alpha: real, beta: real, gamma: real): real {
      alpha * (Milliseconds(rtt) as real) + beta * loss + gamma * (Milliseconds(jitter) as real)
    }

    /** Measurements that can occur: no negative delay or loss. */
    predicate Measured() {
      rtt >= 0 && loss >= 0.0 && jitter >= 0
    }
  }

  datatype Gate = Gate(timer: Timer, minInterval: int) {
    predicate ShouldSwitch(now: int, oldPath: PathSLI, newPath: PathSLI) {
      && !(minInterval > 0 && timer.Elapsed(now) < minInterval)
      && newPath.Cost(1.0, 100.0, 1.0) + timer.CurrentPenalty(now) < oldPath.Cost(1.0, 100.0, 1.0) * (1.0 - 0.10)
    }
  }

  function CostOf(p: PathSLI): real {
    p.Cost(1.0, 100.0, 1.0)
  }

  class HandoverManager {
    const penalty: int
    const minInterval: int
    var lastSwitch: Option<int>

    constructor (penalty: int, minInterval: int)
      ensures Timing() == Gate(Timer(penalty, None), minInterval)
    {
      this.penalty, this.minInterval, lastSwitch := penalty, minInterval, None;
    }

    function Timing(): Gate
      reads this
    {
      Gate(Timer(penalty, lastSwitch), minInterval)
    }

    predicate ShouldSwitch(now: int, oldPath: PathSLI, newPath: PathSLI)
      reads this
    {
      Timing().ShouldSwitch(now, oldPath, newPath)
    }

    method RecordSwitch(now: int)
      modifies this
      ensures Timing() == old(Timing()).(timer := old(Timing()).timer.Switched(now))
    {
      lastSwitch := Some(now);
    }
  }

  // ----- What a path costs -----

  /**
   * A millisecond of delay or of jitter costs one, a lost percent costs as
   * much as a millisecond, parts of a millisecond cost nothing, and nothing
   * costs nothing.
   */
  lemma CostWeighs(p: PathSLI, x: real)
    requires p.Measured()
    ensures CostOf(p.(rtt := p.rtt + 1_000_000)) == CostOf(p) + 1.0
    ensures CostOf(p.(jitter := p.jitter + 1_000_000)) == CostOf(p) + 1.0
    ensures CostOf(p.(loss := p.loss + 0.01 * x)) == CostOf(p) + x
    ensures p.rtt < 1_000_000 && p.jitter < 1_000_000 && p.loss == 0.0 ==> CostOf(p) == 0.0
  {
  }

  /**
   * A switch is recommended exactly if the minimum interval, if there is one,
   * is over and the new path with the penalty costs less than nine tenths of
   * the old one.
   */
  lemma WhenSwitched(g: Gate, now: int, t: int, oldPath: PathSLI, newPath: PathSLI)
    requires g.timer.lastSwitch == Some(t) && t <= now && now - t <= MAX_DURATION && g.timer.penalty <= MAX_DURATION
    ensures g.ShouldSwitch(now, oldPath, newPath) <==>
              var left := t + g.timer.penalty - now;
              && (g.minInterval > 0 ==> now - t >= g.minInterval)
              && CostOf(newPath) + (if left > 0 then 50.0 * (left as real) / (g.timer.penalty as real) else 0.0)
                 < 0.9 * CostOf(oldPath)
  {
    PenaltyIsLinear(g.timer, now);
  }

  // ----- Time -----

  /** For fixed paths a recommendation, once given, stands until the next recorded switch. */
  lemma RecommendationStands(g: Gate, t: int, t': int, oldPath: PathSLI, newPath: PathSLI)
    requires g.timer.ClockAfter(t) && t <= t' && g.ShouldSwitch(t, oldPath, newPath)
    ensures g.ShouldSwitch(t', oldPath, newPath)
  {
    PenaltyFades(g.timer, t, t');
  }

  /** The gates only delay: a switch is recommended eventually just when the new path is ten percent cheaper. */
  lemma GatesOnlyDelay(g: Gate, oldPath: PathSLI, newPath: PathSLI)
    requires g.timer.penalty <= MAX_DURATION && g.minInterval <= MAX_DURATION
    ensures (exists t :: g.timer.ClockAfter(t) && g.ShouldSwitch(t, oldPath, newPath))
        <==> CostOf(newPath) < CostOf(oldPath) * (1.0 - 0.10)
  {
    if t :| g.timer.ClockAfter(t) && g.ShouldSwitch(t, oldPath, newPath) {
      PenaltyFades(g.timer, t, t);
    }
    if CostOf(newPath) < CostOf(oldPath) * (1.0 - 0.10) {
      var start := if g.timer.lastSwitch.Some? then g.timer.lastSwitch.value else 0;
      var t := start + Max(0, Max(g.timer.penalty, g.minInterval));
      assert g.timer.CurrentPenalty(t) == 0.0;
      assert g.timer.ClockAfter(t) && g.ShouldSwitch(t, oldPath, newPath);
    }
  }

  // ----- Chains of accepted and recorded switches -----

  /** The gate that the i-th switch of a run passed. */
  function GateAt(g: Gate, ts: seq<int>, i: nat): Gate
    requires i <= |ts|
  {
    g.(timer := g.timer.Before(ts, i))
  }

  ghost predicate Accepted(g: Gate, ts: seq<int>, path: seq<PathSLI>, i: nat)
    requires i < |ts| && |path| == |ts| + 1
  {
    GateAt(g, ts, i).timer.ClockAfter(ts[i]) && GateAt(g, ts, i).ShouldSwitch(ts[i], path[i], path[i + 1])
  }

  /** `ts[i]` is when the switch from `path[i]` to `path[i + 1]` was accepted and recorded. */
  ghost predicate SwitchRun(g: Gate, ts: seq<int>, path: seq<PathSLI>) {
    |path| == |ts| + 1 && forall i :: 0 <= i < |ts| ==> Accepted(g, ts, path, i)
  }

  lemma SwitchesApart(g: Gate, ts: seq<int>, path: seq<PathSLI>)
    requires SwitchRun(g, ts, path)
    ensures Spaced(ts, Max(0, g.minInterval))
  {
    forall i | 0 <= i < |ts| - 1
      ensures ts[i + 1] - ts[i] >= Max(0, g.minInterval)
    {
      assert Accepted(g, ts, path, i + 1);
    }
  }

  lemma SwitchSaves(g: Gate, now: int, oldPath: PathSLI, newPath: PathSLI)
    requires g.timer.ClockAfter(now) && g.ShouldSwitch(now, oldPath, newPath)
    ensures CostOf(newPath) < 0.9 * CostOf(oldPath)
  {
    PenaltyFades(g.timer, now, now);
  }

  predicate TenPercentBelow(newCost: real, oldCost: real) {
    newCost < 0.9 * oldCost
  }

  /** The ten percent rule lowers every cost it accepts exactly if the old cost is not negative. */
  lemma AcceptanceLowersCost(oldCost: real)
    ensures (forall newCost :: TenPercentBelow(newCost, oldCost) ==> newCost < oldCost) <==> oldCost >= 0.0
  {
    if oldCost < 0.0 {
      assert TenPercentBelow(0.95 * oldCost, oldCost);
    }
  }

  lemma MeasuredCost(p: PathSLI)
    requires p.Measured()
    ensures CostOf(p) >= 0.0
  {
  }

  lemma RunCosts(g: Gate, ts: seq<int>, path: seq<PathSLI>) returns (costs: seq<real>)
    requires SwitchRun(g, ts, path) && forall p :: p in path ==> p.Measured()
    ensures |costs| == |path| && forall i :: 0 <= i < |path| ==> costs[i] == CostOf(path[i])
    ensures Falls(costs) && forall i :: 0 <= i < |costs| - 1 ==> costs[i + 1] < 0.9 * costs[i]
  {
    costs := seq(|path|, i requires 0 <= i < |path| => CostOf(path[i]));
    forall i | 0 <= i < |ts|
      ensures costs[i + 1] < 0.9 * costs[i] && costs[i + 1] < costs[i]
    {
      SwitchAt(g, ts, path, i);
    }
  }

  /** With fixed measurements a run of n > 0 switches ends below 0.9^n of the cost it started from. */
  lemma HandoverSaves(g: Gate, ts: seq<int>, path: seq<PathSLI>)
    requires SwitchRun(g, ts, path) && |ts| > 0 && forall p :: p in path ==> p.Measured()
    ensures CostOf(path[|ts|]) < Geometric(0.9, |ts|, CostOf(path[0]))
  {
    var costs := RunCosts(g, ts, path);
    assert costs[0] == CostOf(path[0]) && costs[|ts|] == CostOf(path[|ts|]);
    StrictGeometricBound(costs, 0.9, |ts|);
  }

  /** Such a run never returns to a path it left and is shorter than the number of paths. */
  lemma HandoverNeverReturns(g: Gate, ts: seq<int>, path: seq<PathSLI>, universe: set<PathSLI>)
    requires SwitchRun(g, ts, path) && forall p :: p in path ==> p.Measured() && p in universe
    ensures Distinct(path) && |ts| < |universe|
  {
    var costs := RunCosts(g, ts, path);
    FallingWalk(path, costs, CostOf, universe);
  }

  lemma SwitchAt(g: Gate, ts: seq<int>, path: seq<PathSLI>, i: nat)
    requires SwitchRun(g, ts, path) && i < |ts| && path[i].Measured()
    ensures CostOf(path[i + 1]) < 0.9 * CostOf(path[i]) && CostOf(path[i + 1]) < CostOf(path[i])
  {
    assert Accepted(g, ts, path, i);
    SwitchSaves(GateAt(g, ts, i), ts[i], path[i], path[i + 1]);
    MeasuredCost(path[i]);
  }
}
