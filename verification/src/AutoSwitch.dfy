// Automatic switching between transport modes by health and latency.
module AutoSwitch {
  import opened Wrappers
  import opened Chains
  import opened Spacing

  type Mode = string

  /**
   * The answers one call of NextHealthy gets: step 0 is the guard, step i + 1
   * the i-th round of the loop. Every reading may differ from every other.
   */
  datatype Sensors = Sensors(ok: (nat, Mode) -> bool, latency: (nat, Mode) -> int, clock: nat -> int)

  datatype Switcher = Switcher(
    order: seq<Mode>,
    checkers: set<Mode>,
    current: Mode,
    lastSwitch: int,
    cooldown: int,
    minDwell: int)
  {
    predicate CanSwitch(now: int) {
      now - lastSwitch >= cooldown && now - lastSwitch >= minDwell
    }

    predicate Healthy(s: Sensors, step: nat, mode: Mode) {
      mode in checkers && s.ok(step, mode)
    }

    predicate Blocked(s: Sensors) {
      !CanSwitch(s.clock(0)) && Healthy(s, 0, current)
    }

    predicate BetterThanCurrent(s: Sensors, step: nat, candidate: Mode) {
      if candidate !in checkers || current !in checkers then
        candidate in checkers && current !in checkers
      else
        s.latency(step, candidate) < Trunc((s.latency(step, current) as real) * 0.9)
    }

    predicate Eligible(s: Sensors, i: nat)
      requires i < |order|
    {
      order[i] != current && Healthy(s, i + 1, order[i]) && BetterThanCurrent(s, i + 1, order[i])
    }

    ghost function FirstEligible(s: Sensors, from: nat): (r: Option<nat>)
      requires from <= |order|
      ensures r.None? ==> forall i :: from <= i < |order| ==> !Eligible(s, i)
      ensures r.Some? ==> from <= r.value < |order| && Eligible(s, r.value)
      ensures r.Some? ==> forall i :: from <= i < r.value ==> !Eligible(s, i)
      decreases |order| - from
    {
      if from == |order| then None
      else if Eligible(s, from) then Some(from)
      else FirstEligible(s, from + 1)
    }

    ghost function Next(s: Sensors): Switcher {
      if Blocked(s) then this
      else
        match FirstEligible(s, 0)
        case None => this
        case Some(i) => this.(current := order[i], lastSwitch := s.clock(i + 1))
    }
  }

  class AutoSwitchManager {
    const order: seq<Mode>
    const cooldown: int
    const minDwell: int
    var checkers: set<Mode>
    var currentMode: Mode
    var lastSwitch: int

    constructor (order: seq<Mode>, cooldown: int, minDwell: int, now: int)
      requires order != []
      ensures View() == Switcher(order, {}, order[0], now, cooldown, minDwell)
    {
      this.order, this.cooldown, this.minDwell := order, cooldown, minDwell;
      checkers, currentMode, lastSwitch := {}, order[0], now;
    }

    function View(): Switcher
      reads this
    {
      Switcher(order, checkers, currentMode, lastSwitch, cooldown, minDwell)
    }

    method RegisterHealthChecker(mode: Mode)
      modifies this`checkers
      ensures View() == old(View()).(checkers := old(checkers) + {mode})
    {
      checkers := checkers + {mode};
    }

    method NextHealthy(s: Sensors) returns (mode: Mode)
      modifies this`currentMode, this`lastSwitch
      ensures View() == old(View()).Next(s) && mode == currentMode
    {
      if !View().CanSwitch(s.clock(0)) && View().Healthy(s, 0, currentMode) {
        return currentMode;
      }
      for i := 0 to |order|
        invariant View() == old(View())
        invariant View().FirstEligible(s, 0) == View().FirstEligible(s, i)
      {
        if order[i] == currentMode {
          continue;
        }
        if View().Healthy(s, i + 1, order[i]) && View().BetterThanCurrent(s, i + 1, order[i]) {
          currentMode := order[i];
          lastSwitch := s.clock(i + 1);
          return order[i];
        }
      }
      mode := currentMode;
    }

    method ForceSwitch(mode: Mode, now: int)
      modifies this`currentMode, this`lastSwitch
      ensures View() == old(View()).(current := mode, lastSwitch := now)
    {
      currentMode, lastSwitch := mode, now;
    }
  }

  /** A switch goes to the first eligible mode, and there is one just when nothing blocks it and some mode is. */
  lemma SwitchIsEligible(w: Switcher, s: Sensors)
    ensures w.Next(s).current != w.current <==> !w.Blocked(s) && exists i :: 0 <= i < |w.order| && w.Eligible(s, i)
    ensures w.Next(s).current != w.current ==>
              exists i :: 0 <= i < |w.order| && w.Eligible(s, i) && w.Next(s).current == w.order[i]
                && forall j :: 0 <= j < i ==> !w.Eligible(s, j)
    ensures w.Next(s).current == w.current ==> w.Next(s) == w
  {
  }

  /** The current mode is bad at the guard, or has had its cooldown and its dwell time. */
  predicate MayLeave(w: Switcher, s: Sensors) {
    || w.current !in w.checkers || !s.ok(0, w.current)
    || (s.clock(0) >= w.lastSwitch + w.cooldown && s.clock(0) >= w.lastSwitch + w.minDwell)
  }

  /** The i-th mode of the order is another one, good, and below nine tenths of a registered current mode's latency. */
  predicate Attracts(w: Switcher, s: Sensors, i: int) {
    && 0 <= i < |w.order| && w.order[i] != w.current && w.order[i] in w.checkers && s.ok(i + 1, w.order[i])
    && (w.current in w.checkers ==>
          s.latency(i + 1, w.order[i]) < TruncDiv(9 * s.latency(i + 1, w.current), 10))
  }

  lemma NineTenthsExactly(latency: int)
    ensures Trunc((latency as real) * 0.9) == TruncDiv(9 * latency, 10)
  {
    var x := if latency >= 0 then latency else -latency;
    var y := 9 * x / 10;
    assert ((9 * x) as real) / 10.0 == (x as real) * 0.9;
    assert 10 * y <= 9 * x < 10 * y + 10;
    assert (y as real) <= (x as real) * 0.9 < (y as real) + 1.0;
    assert ((x as real) * 0.9).Floor == y;
    assert latency < 0 ==> -((latency as real) * 0.9) == (x as real) * 0.9;
  }

  lemma AttractsIsEligible(w: Switcher, s: Sensors, i: nat)
    requires i < |w.order|
    ensures w.Eligible(s, i) <==> Attracts(w, s, i)
  {
    NineTenthsExactly(s.latency(i + 1, w.current));
  }

  /**
   * In terms of the readings: a call switches exactly if the current mode is
   * unregistered or bad at the guard or has had its cooldown and dwell time,
   * and another registered mode is good and, unless the current mode is
   * unregistered, below nine tenths of its latency. It goes to the first such
   * mode, at the time it is found, and changes nothing otherwise.
   */
  lemma SwitchExactly(w: Switcher, s: Sensors)
    ensures w.Next(s).current != w.current <==> MayLeave(w, s) && exists i :: Attracts(w, s, i)
    ensures w.Next(s) == w
            || exists i :: Attracts(w, s, i) && (forall j :: 0 <= j < i ==> !Attracts(w, s, j))
                 && w.Next(s) == w.(current := w.order[i], lastSwitch := s.clock(i + 1))
  {
    SwitchIsEligible(w, s);
    forall i: nat | i < |w.order|
      ensures w.Eligible(s, i) <==> Attracts(w, s, i)
    {
      AttractsIsEligible(w, s, i);
    }
    var r := w.FirstEligible(s, 0);
    if r.Some? {
      assert Attracts(w, s, r.value);
    }
  }

  // ----- How often a healthy mode is left -----

  ghost function AfterCalls(w: Switcher, ss: seq<Sensors>): Switcher {
    if ss == [] then w else AfterCalls(w, ss[..|ss| - 1]).Next(ss[|ss| - 1])
  }

  /** Within the call the clock does not run back, and it starts no earlier than the last switch. */
  ghost predicate Forward(w: Switcher, s: Sensors) {
    s.clock(0) >= w.lastSwitch && forall step :: s.clock(step) >= s.clock(0)
  }

  ghost predicate InTime(w: Switcher, ss: seq<Sensors>) {
    ss == [] || (InTime(w, ss[..|ss| - 1]) && Forward(AfterCalls(w, ss[..|ss| - 1]), ss[|ss| - 1]))
  }

  ghost predicate LeavesHealthy(w: Switcher, s: Sensors) {
    w.Healthy(s, 0, w.current) && w.Next(s).current != w.current
  }

  /** The times at which a sequence of calls leaves a mode that is healthy. */
  ghost function HealthyLeaves(w: Switcher, ss: seq<Sensors>): seq<int> {
    if ss == [] then []
    else
      var v, s := AfterCalls(w, ss[..|ss| - 1]), ss[|ss| - 1];
      HealthyLeaves(w, ss[..|ss| - 1]) + (if LeavesHealthy(v, s) then [v.Next(s).lastSwitch] else [])
  }

  /** A mode that is healthy at the guard is kept for the cooldown and for the minimum dwell time. */
  lemma HealthyModeDwells(w: Switcher, s: Sensors)
    requires Forward(w, s)
    ensures LeavesHealthy(w, s) ==> w.Next(s).lastSwitch - w.lastSwitch >= Max(w.cooldown, w.minDwell)
    ensures w.Next(s).lastSwitch >= w.lastSwitch
    ensures w.Next(s).cooldown == w.cooldown && w.Next(s).minDwell == w.minDwell
  {
  }

  lemma {:induction false} LeavesApart(w: Switcher, ss: seq<Sensors>)
    requires InTime(w, ss)
    ensures var f, v := HealthyLeaves(w, ss), AfterCalls(w, ss);
            && Spaced(f, Max(w.cooldown, w.minDwell)) && (f != [] ==> f[|f| - 1] <= v.lastSwitch)
            && v.cooldown == w.cooldown && v.minDwell == w.minDwell
  {
    if ss != [] {
      var g, s := ss[..|ss| - 1], ss[|ss| - 1];
      LeavesApart(w, g);
      HealthyModeDwells(AfterCalls(w, g), s);
    }
  }

  /**
   * In every sequence of calls, switches away from unhealthy modes included,
   * the i-th and j-th departures from a healthy mode are (j - i) times the
   * longer of cooldown and dwell apart, and a window of length T sees at most
   * 1 + T / max(cooldown, dwell) of them.
   */
  lemma HealthyLeavesApart(w: Switcher, ss: seq<Sensors>, a: int, length: nat)
    requires InTime(w, ss)
    ensures var f, gap := HealthyLeaves(w, ss), Max(w.cooldown, w.minDwell);
            && (forall i, j :: 0 <= i <= j < |f| ==> f[j] - f[i] >= (j - i) * gap)
            && (gap > 0 ==> |InWindow(f, a, length)| <= 1 + length / gap)
  {
    var f, gap := HealthyLeaves(w, ss), Max(w.cooldown, w.minDwell);
    LeavesApart(w, ss);
    forall i, j | 0 <= i <= j < |f|
      ensures f[j] - f[i] >= (j - i) * gap
    {
      SpacedApart(f, gap, i, j);
    }
    if gap > 0 {
      WindowBound(f, gap, a, length);
    }
  }

  // ----- How long an unhealthy mode is kept -----

  /** No registered candidate reads less than nine tenths of the current mode's reading. */
  ghost predicate Unbeaten(w: Switcher, s: Sensors) {
    forall i :: 0 <= i < |w.order| && w.order[i] in w.checkers && w.order[i] != w.current ==>
      s.latency(i + 1, w.order[i]) >= Trunc((s.latency(i + 1, w.current) as real) * 0.9)
  }

  /**
   * A registered mode that no candidate beats by ten percent is never left,
   * however often it is called and whichever modes are healthy.
   */
  lemma {:induction false} UnhealthyModeCanStay(w: Switcher, ss: seq<Sensors>)
    requires w.current in w.checkers && forall s :: s in ss ==> Unbeaten(w, s)
    ensures AfterCalls(w, ss) == w
  {
    if ss != [] {
      var s := ss[|ss| - 1];
      assert s in ss && forall x :: x in ss[..|ss| - 1] ==> x in ss;
      UnhealthyModeCanStay(w, ss[..|ss| - 1]);
      assert Unbeaten(w, s);
      assert forall i :: 0 <= i < |w.order| ==> !w.Eligible(s, i);
    }
  }

  /** Latencies are never negative, and that of `mode` is the same whenever it is read. */
  ghost predicate Steady(s: Sensors, mode: Mode, reading: nat) {
    (forall step, m :: s.latency(step, m) >= 0) && forall step :: s.latency(step, mode) == reading
  }

  /** A mode that reads zero, as one whose requests fail does, is never left. */
  lemma DeadModeStays(w: Switcher, ss: seq<Sensors>)
    requires w.current in w.checkers && forall s :: s in ss ==> Steady(s, w.current, 0)
    ensures AfterCalls(w, ss) == w
  {
    forall s | s in ss
      ensures Unbeaten(w, s)
    {
      assert Steady(s, w.current, 0);
    }
    UnhealthyModeCanStay(w, ss);
  }

  ghost predicate CanLeave(w: Switcher, s: Sensors, reading: nat) {
    Steady(s, w.current, reading) && w.Next(s).current != w.current
  }

  /**
   * Exactly the readings below 2 ns hold a registered mode for good; with any
   * other one some readings of the rest make the next call switch, if there
   * is another registered mode at all.
   */
  lemma StuckExactly(w: Switcher, reading: nat)
    requires w.current in w.checkers
    ensures (exists s: Sensors :: CanLeave(w, s, reading))
       <==> reading >= 2 && exists m :: m in w.order && m != w.current && m in w.checkers
  {
    if s: Sensors :| CanLeave(w, s, reading) {
      SwitchIsEligible(w, s);
      var i :| 0 <= i < |w.order| && w.Eligible(s, i);
      assert w.order[i] in w.order;
      assert 0 <= s.latency(i + 1, w.order[i]) < Trunc((reading as real) * 0.9);
    }
    if reading >= 2 && exists m :: m in w.order && m != w.current && m in w.checkers {
      var m :| m in w.order && m != w.current && m in w.checkers;
      var s := Sensors((step, x) => x != w.current, (step, x) => if x == w.current then reading else 0, step => 0);
      var i :| 0 <= i < |w.order| && w.order[i] == m;
      assert Trunc((reading as real) * 0.9) >= 1;
      assert w.Eligible(s, i) && !w.Blocked(s);
      SwitchIsEligible(w, s);
      assert CanLeave(w, s, reading);
    }
  }

  lemma NineTenths(candidate: int, current: nat)
    requires candidate < Trunc((current as real) * 0.9) || candidate == current
    ensures candidate < Trunc((current as real) * 0.9) ==>
              (candidate as real) < 0.9 * (current as real) && candidate < current
  {
    var x := (current as real) * 0.9;
    assert x >= 0.0 && (x.Floor as real) <= x;
  }

  // ----- Chains of switches at fixed latencies -----

  ghost predicate Reads(s: Sensors, latency: Mode -> nat) {
    forall step, m :: s.latency(step, m) == latency(m)
  }

  /** Consecutive calls that each switched; modes keep their latency and all have checkers. */
  ghost predicate SwitchRun(ws: seq<Switcher>, ss: seq<Sensors>, latency: Mode -> nat) {
    && |ws| == |ss| + 1
    && (forall i :: 0 <= i < |ss| ==> Reads(ss[i], latency) && Switched(ws, ss, i))
    && (forall i :: 0 <= i < |ws| ==> forall m :: m in ws[0].order ==> m in ws[i].checkers)
    && ws[0].current in ws[0].order
  }

  ghost predicate Switched(ws: seq<Switcher>, ss: seq<Sensors>, i: nat)
    requires i < |ss| && |ws| == |ss| + 1
  {
    ws[i + 1] == ws[i].Next(ss[i]) && ws[i + 1].current != ws[i].current
  }

  lemma {:induction false} RunStaysInOrder(ws: seq<Switcher>, ss: seq<Sensors>, latency: Mode -> nat, i: nat)
    requires SwitchRun(ws, ss, latency) && i < |ws|
    ensures ws[i].order == ws[0].order && ws[i].current in ws[0].order
    decreases i
  {
    if i > 0 {
      RunStaysInOrder(ws, ss, latency, i - 1);
      assert Switched(ws, ss, i - 1);
      SwitchIsEligible(ws[i - 1], ss[i - 1]);
    }
  }

  lemma SwitchIsFaster(ws: seq<Switcher>, ss: seq<Sensors>, latency: Mode -> nat, i: nat)
    requires SwitchRun(ws, ss, latency) && i < |ss|
    ensures var before, after := latency(ws[i].current), latency(ws[i + 1].current);
            (after as real) < 0.9 * (before as real) && after < before
  {
    RunStaysInOrder(ws, ss, latency, i);
    assert Switched(ws, ss, i) && Reads(ss[i], latency);
    SwitchIsEligible(ws[i], ss[i]);
    var k :| 0 <= k < |ws[i].order| && ws[i].Eligible(ss[i], k) && ws[i].Next(ss[i]).current == ws[i].order[k];
    NineTenths(latency(ws[i].order[k]), latency(ws[i].current));
  }

  lemma RunCosts(ws: seq<Switcher>, ss: seq<Sensors>, latency: Mode -> nat) returns (costs: seq<real>)
    requires SwitchRun(ws, ss, latency)
    ensures |costs| == |ws| && forall i :: 0 <= i < |ws| ==> costs[i] == latency(ws[i].current) as real
    ensures Falls(costs) && forall i :: 0 <= i < |costs| - 1 ==> costs[i + 1] < 0.9 * costs[i]
  {
    costs := seq(|ws|, i requires 0 <= i < |ws| => latency(ws[i].current) as real);
    forall i | 0 <= i < |ss|
      ensures costs[i + 1] < 0.9 * costs[i] && costs[i + 1] < costs[i]
    {
      SwitchIsFaster(ws, ss, latency, i);
    }
  }

  /** n > 0 switches at fixed latencies end below 0.9^n of the first latency. */
  lemma SwitchingSaves(ws: seq<Switcher>, ss: seq<Sensors>, latency: Mode -> nat)
    requires SwitchRun(ws, ss, latency) && |ss| > 0
    ensures (latency(ws[|ss|].current) as real) < Geometric(0.9, |ss|, latency(ws[0].current) as real)
  {
    var costs := RunCosts(ws, ss, latency);
    assert |costs| - 1 == |ss| && costs[0] == latency(ws[0].current) as real;
    assert costs[|ss|] == latency(ws[|ss|].current) as real;
    StrictGeometricBound(costs, 0.9, |ss|);
  }

  /** They never return to a mode and are fewer than the configured modes. */
  lemma SwitchingNeverReturns(ws: seq<Switcher>, ss: seq<Sensors>, latency: Mode -> nat)
    requires SwitchRun(ws, ss, latency)
    ensures forall i, j :: 0 <= i < j < |ws| ==> ws[i].current != ws[j].current
    ensures |ss| < |set m | m in ws[0].order|
  {
    var costs := RunCosts(ws, ss, latency);
    var modes := seq(|ws|, i requires 0 <= i < |ws| => ws[i].current);
    forall m | m in modes
      ensures m in ws[0].order
    {
      var i :| 0 <= i < |modes| && modes[i] == m;
      RunStaysInOrder(ws, ss, latency, i);
    }
    FallingWalk(modes, costs, m => latency(m) as real, set m | m in ws[0].order);
    assert forall i :: 0 <= i < |ws| ==> modes[i] == ws[i].current;
  }
}
