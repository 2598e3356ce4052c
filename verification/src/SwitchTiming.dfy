// When the last switch was, and the penalty that fades after it. Shared by
// the handover manager and the SLO controller. Durations are in nanoseconds.
module SwitchTiming {
  import opened Wrappers
  import opened Durations
  import opened Chains

  /** No last switch means the zero time, which lies further back than any duration. */
  datatype Timer = Timer(penalty: int, lastSwitch: Option<int>) {
    function Elapsed(now: int): int {
      if lastSwitch.None? then MAX_DURATION else Min(now - lastSwitch.value, MAX_DURATION)
    }

    /** In milliseconds. (With a clock that never runs back, a zero penalty is never divided by.) */
    function CurrentPenalty(now: int): real {
      if penalty != 0 && Elapsed(now) < penalty then
        (1.0 - (Elapsed(now) as real) / (penalty as real)) * 50.0
      else
        0.0
    }

    function Switched(now: int): Timer {
      this.(lastSwitch := Some(now))
    }

    /** The timer the i-th of a run of recorded switches was decided with. */
    function Before(ts: seq<int>, i: nat): Timer
      requires i <= |ts|
    {
      if i == 0 then this else Switched(ts[i - 1])
    }

    ghost predicate ClockAfter(now: int) {
      lastSwitch.Some? ==> now >= lastSwitch.value
    }
  }

  /** The penalty starts at no more than 50 ms and never grows until the next switch. */
  lemma PenaltyFades(g: Timer, t: int, t': int)
    requires g.ClockAfter(t) && t <= t'
    ensures 0.0 <= g.CurrentPenalty(t') <= g.CurrentPenalty(t) <= 50.0
  {
    var e, e' := g.Elapsed(t), g.Elapsed(t');
    assert 0 <= e <= e';
    if e' < g.penalty {
      Fraction(e, e', g.penalty);
    } else if e < g.penalty {
      Fraction(e, e, g.penalty);
    }
  }

  /** It is gone exactly when the penalty period is over. */
  lemma PenaltyGone(g: Timer, now: int)
    requires g.ClockAfter(now) && g.penalty <= MAX_DURATION
    ensures g.CurrentPenalty(now) >= 0.0
    ensures g.CurrentPenalty(now) == 0.0 <==> g.Elapsed(now) >= g.penalty
  {
    var e := g.Elapsed(now);
    if e < g.penalty {
      FractionBelowOne(e, g.penalty);
    }
  }

  /** After a switch it falls from 50 ms in a straight line to zero at the end of its period, and stays there. */
  lemma PenaltyIsLinear(g: Timer, now: int)
    requires g.ClockAfter(now) && g.penalty <= MAX_DURATION
    ensures g.lastSwitch.None? ==> g.CurrentPenalty(now) == 0.0
    ensures g.lastSwitch.Some? && now - g.lastSwitch.value <= MAX_DURATION ==>
              var left := g.lastSwitch.value + g.penalty - now;
              g.CurrentPenalty(now) == if left > 0 then 50.0 * (left as real) / (g.penalty as real) else 0.0
  {
    if g.lastSwitch.Some? && now - g.lastSwitch.value < g.penalty {
      var x, p := (now - g.lastSwitch.value) as real, g.penalty as real;
      assert 1.0 == p / p;
      assert p / p - x / p == (p - x) / p;
      assert (p - x) / p * 50.0 == 50.0 * (p - x) / p;
    }
  }
}
