// The heartbeat manager: start, stop, and an interval that backs off with
// consecutive failures. Each locked method is one atomic step.
module Heartbeat {
  import opened Wrappers
  import opened Durations

  const BASE_INTERVAL: int := 30 * SECOND
  const MAX_BACKOFF: int := 120 * SECOND
  const JITTER: real := 0.15
  const TWO62: int := 0x4000_0000_0000_0000
  const TWO63: int := 0x8000_0000_0000_0000
  const TWO64: int := 0x1_0000_0000_0000_0000

  type int64 = x: int | -TWO63 <= x < TWO63

  /** Doubling in 64-bit two's complement arithmetic. */
  function Double64(x: int64): int64 {
    if x * 2 >= TWO63 then x * 2 - TWO64 else if x * 2 < -TWO63 then x * 2 + TWO64 else x * 2
  }

  function Pow2(n: nat): nat {
    if n == 0 then 1 else 2 * Pow2(n - 1)
  }

  /** The doubling loop from its i-th round on, in 64-bit arithmetic. */
  function Doubling(exp: int64, i: int, fails: int): int64
    decreases fails - i
  {
    if i >= fails then exp
    else
      var e := Double64(exp);
      if e >= MAX_BACKOFF then MAX_BACKOFF else Doubling(e, i + 1, fails)
  }

  function Exponential(base: int64, fails: int): int64 {
    if fails > 0 then Doubling(base, 1, fails) else base
  }

  /** `draw` is a random number in [0, 1). */
  function Spread(exp: int, draw: real): real {
    (exp as real) * (1.0 + (draw * 2.0 - 1.0) * JITTER)
  }

  function Jittered(exp: int, draw: real): int {
    var next := Trunc(Spread(exp, draw));
    if next < SECOND then SECOND else if next > MAX_BACKOFF then MAX_BACKOFF else next
  }

  class Channel {
    var closed: bool

    constructor ()
      ensures !closed
    {
      closed := false;
    }

    /** Closing a closed channel panics. */
    method Close()
      requires !closed
      modifies this
      ensures closed
    {
      closed := true;
    }
  }

  class Ticker {
    const period: int
    var stopped: bool

    /** A ticker with a period that is not positive panics. */
    constructor (period: int)
      requires period > 0
      ensures this.period == period && !stopped
    {
      this.period := period;
      stopped := false;
    }

    method Stop()
      modifies this
      ensures stopped
    {
      stopped := true;
    }
  }

  datatype ClientState = Connected | Disconnected | Reconnecting | Other

  /** The manager's plain fields; whether the ticker and the channel exist is tied to `running`. */
  datatype Beat = Beat(interval: int, base: int64, fails: nat, maxFails: nat, running: bool) {
    predicate Sane() {
      && base > 0 && maxFails > 0
      && (interval == base || SECOND <= interval <= MAX_BACKOFF)
    }

    function BackOff(draw: real): Beat {
      this.(fails := fails + 1, interval := Jittered(Exponential(base, fails + 1), draw))
    }

    function Fail(draw: real): Beat {
      var b := BackOff(draw);
      b.(running := running && b.fails < maxFails)
    }

    function Recover(): Beat {
      this.(fails := 0, interval := base)
    }
  }

  class Manager {
    var interval: int
    var baseInterval: int64
    var ticker: Ticker?
    var stopChan: Channel?
    var running: bool
    var failCount: nat
    var maxFails: nat

    ghost function View(): Beat
      reads this
    {
      Beat(interval, baseInterval, failCount, maxFails, running)
    }

    /** Running, having a live ticker at the current interval and having an open stop channel go together. */
    ghost predicate Valid()
      reads this, ticker, stopChan
    {
      && View().Sane()
      && (running <==> ticker != null) && (running <==> stopChan != null)
      && (ticker != null ==> ticker.period == interval && !ticker.stopped)
      && (stopChan != null ==> !stopChan.closed)
    }

    constructor ()
      ensures Valid() && View() == Beat(30_000_000_000, 30_000_000_000, 0, 3, false)
    {
      interval, baseInterval, failCount, maxFails := BASE_INTERVAL, BASE_INTERVAL, 0, 3;
      ticker, stopChan, running := null, null, false;
    }

    /** False when the manager is already running. */
    method Start() returns (ok: bool)
      requires Valid()
      modifies this
      ensures Valid() && ok == !old(running)
      ensures View() == if ok then old(View()).(running := true, fails := 0) else old(View())
      ensures ok ==> fresh(stopChan) && fresh(ticker)
    {
      if running {
        return false;
      }
      stopChan := new Channel();
      ticker := new Ticker(interval);
      failCount := 0;
      running := true;
      ok := true;
    }

    method Halt()
      requires Valid() && running
      modifies this`running, this`ticker, this`stopChan, ticker, stopChan
      ensures Valid() && View() == old(View()).(running := false)
      ensures old(stopChan).closed && old(ticker).stopped
    {
      running := false;
      if ticker != null {
        ticker.Stop();
        ticker := null;
      }
      if stopChan != null {
        stopChan.Close();
        stopChan := null;
      }
    }

    method Stop()
      requires Valid()
      modifies this`running, this`ticker, this`stopChan, ticker, stopChan
      ensures Valid() && View() == old(View()).(running := false)
    {
      if !running {
        return;
      }
      Halt();
    }

    /** Makes `next` the interval, replacing a live ticker. */
    method Apply(next: int)
      requires Valid() && next > 0 && (next == baseInterval || SECOND <= next <= MAX_BACKOFF)
      modifies this`interval, this`ticker, ticker
      ensures Valid() && View() == old(View()).(interval := next)
      ensures ticker == old(ticker) || fresh(ticker)
    {
      if next != interval {
        interval := next;
        if ticker != null {
          ticker.Stop();
          ticker := new Ticker(interval);
        }
      }
    }

    method SetInterval(d: int64)
      requires Valid()
      modifies this`interval, this`baseInterval, this`ticker, ticker
      ensures Valid()
      ensures View() == if d <= 0 then old(View()) else old(View()).(interval := d, base := d)
    {
      if d <= 0 {
        return;
      }
      baseInterval := d;
      interval := d;
      if ticker != null {
        ticker.Stop();
        ticker := new Ticker(interval);
      }
    }

    method SetMaxFails(n: int)
      requires Valid()
      modifies this`maxFails
      ensures Valid() && View() == if n > 0 then old(View()).(maxFails := n) else old(View())
    {
      if n > 0 {
        maxFails := n;
      }
    }

    method ResetFailCount()
      requires Valid()
      modifies this`failCount
      ensures Valid() && View() == old(View()).(fails := 0)
    {
      failCount := 0;
    }

    method BackoffInterval(draw: real) returns (next: int)
      ensures next == Jittered(Exponential(baseInterval, failCount), draw)
    {
      var exp: int64 := baseInterval;
      if failCount > 0 {
        var i := 1;
        while i < failCount
          invariant 1 <= i <= failCount
          invariant Doubling(exp, i, failCount) == Doubling(baseInterval, 1, failCount)
        {
          exp := Double64(exp);
          if exp >= MAX_BACKOFF {
            exp := MAX_BACKOFF;
            break;
          }
          i := i + 1;
        }
        assert exp == Exponential(baseInterval, failCount);
      }
      next := Trunc(Spread(exp, draw));
      if next < SECOND {
        next := SECOND;
      }
      if next > MAX_BACKOFF {
        next := MAX_BACKOFF;
      }
    }

    method HandleHeartbeatSuccess()
      requires Valid()
      modifies this`failCount, this`interval, this`ticker, ticker
      ensures Valid() && View() == old(View()).Recover()
    {
      failCount := 0;
      Apply(baseInterval);
    }

    method HandleHeartbeatFailure(draw: real)
      requires Valid()
      modifies this, ticker, stopChan
      ensures Valid() && View() == old(View()).Fail(draw)
    {
      failCount := failCount + 1;
      var next := BackoffInterval(draw);
      Apply(next);
      if failCount >= maxFails && running {
        Halt();
      }
    }

    method HandleStateEvent(event: ClientState, draw: real)
      requires Valid()
      modifies this`failCount, this`interval, this`ticker, ticker
      ensures Valid()
      ensures View() == match event
                        case Connected => old(View()).Recover()
                        case Disconnected => old(View()).BackOff(draw)
                        case Reconnecting => old(View()).BackOff(draw)
                        case Other => old(View())
    {
      match event {
        case Connected =>
          failCount := 0;
          Apply(baseInterval);
        case Disconnected | Reconnecting =>
          failCount := failCount + 1;
          var next := BackoffInterval(draw);
          Apply(next);
        case Other =>
      }
    }
  }

  // ----- The backoff -----

  lemma {:induction false} DoublingClosedForm(exp: int64, i: int, fails: int)
    requires 0 < exp < MAX_BACKOFF && 1 <= i <= fails
    ensures Doubling(exp, i, fails) == Min(exp * Pow2(fails - i), MAX_BACKOFF)
    decreases fails - i
  {
    if i < fails {
      DoubleFirst(exp, fails - i);
      if 2 * exp < MAX_BACKOFF {
        DoublingClosedForm(2 * exp, i + 1, fails);
      }
    }
  }

  lemma DoubleFirst(x: nat, n: nat)
    requires n > 0
    ensures x * Pow2(n) == (2 * x) * Pow2(n - 1) >= 2 * x
  {
    var p := Pow2(n - 1);
    Pow2Positive(n - 1);
    assert x * (2 * p) == (2 * x) * p;
    assert (2 * x) * (p - 1) >= 0;
  }

  lemma {:induction false} Pow2Positive(n: nat)
    ensures Pow2(n) >= 1
  {
    if n > 0 {
      Pow2Positive(n - 1);
    }
  }

  /**
   * Up to the first failure the backoff is the base itself, whatever it is;
   * from the second on a base below 2^62 doubles up to two minutes without
   * overflow.
   */
  lemma BackoffClosedForm(base: int64, fails: int)
    requires base > 0
    ensures fails <= 1 ==> Exponential(base, fails) == base
    ensures fails >= 2 && base < TWO62 ==>
              Exponential(base, fails) == Min(base * Pow2(fails - 1), 120_000_000_000)
  {
    if fails >= 2 && base < TWO62 {
      DoubleFirst(base, fails - 1);
      if 2 * base < MAX_BACKOFF {
        DoublingClosedForm(2 * base, 2, fails);
      }
    }
  }

  /** That bound is exact: at or above 2^62 the second failure already overflows. */
  lemma BackoffExactly(base: int64)
    requires base > 0
    ensures (forall fails: int :: fails >= 2 ==> Exponential(base, fails) == Min(base * Pow2(fails - 1), MAX_BACKOFF))
        <==> base < TWO62
  {
    if base < TWO62 {
      forall fails: int | fails >= 2
        ensures Exponential(base, fails) == Min(base * Pow2(fails - 1), MAX_BACKOFF)
      {
        BackoffClosedForm(base, fails);
      }
    } else {
      Overflows(base);
      DoubleFirst(base, 1);
      assert Exponential(base, 2) != Min(base * Pow2(2 - 1), MAX_BACKOFF);
    }
  }

  lemma Overflows(base: int64)
    requires base >= TWO62
    ensures Exponential(base, 2) < 0
  {
    assert Double64(base) == base * 2 - TWO64;
    assert Doubling(Double64(base), 2, 2) == Double64(base);
  }

  /** The overflow turns the backoff into its opposite: the interval drops to one second. */
  lemma OverflowCollapses(base: int64, draw: real)
    requires base >= TWO62 && 0.0 <= draw < 1.0
    ensures Jittered(Exponential(base, 2), draw) == SECOND
  {
    Overflows(base);
    NegativeCollapses(Exponential(base, 2), draw);
  }

  lemma NegativeCollapses(exp: int, draw: real)
    requires exp < 0 && 0.0 <= draw < 1.0
    ensures Jittered(exp, draw) == SECOND
  {
    var x, j := exp as real, 1.0 + (draw * 2.0 - 1.0) * JITTER;
    Product(-x, j);
    assert x * j == -((-x) * j);
  }

  lemma JitterBounds(exp: int, draw: real)
    requires exp >= 0 && 0.0 <= draw < 1.0
    ensures 0.85 * (exp as real) <= Spread(exp, draw) <= 1.15 * (exp as real)
  {
    var x, d := exp as real, draw * 2.0 - 1.0;
    assert -1.0 <= d < 1.0;
    Product(x, d + 1.0);
    Product(x, 1.0 - d);
    assert x * (1.0 + d * JITTER) == x + 0.15 * (x * d);
  }

  /** A draw between 0 and 1 spreads the backoff evenly from 85 to 115 percent, cut to [1 s, 2 min]. */
  lemma JitterIsEven(exp: int, draw: real)
    ensures Jittered(exp, draw) ==
              Max(1_000_000_000, Min(Trunc((exp as real) * (0.85 + 0.3 * draw)), 120_000_000_000))
  {
    assert 1.0 + (draw * 2.0 - 1.0) * JITTER == 0.85 + 0.3 * draw;
  }

  /** The applied backoff is within 15 percent of the exponential, cut to [1 s, 2 min]; capped, it is at least 102 s. */
  lemma JitterStaysClose(exp: int, draw: real)
    requires 0 < exp && 0.0 <= draw < 1.0
    ensures SECOND <= Jittered(exp, draw) <= MAX_BACKOFF
    ensures Jittered(exp, draw) > SECOND ==> (Jittered(exp, draw) as real) <= 1.15 * (exp as real)
    ensures Jittered(exp, draw) < MAX_BACKOFF ==> (Jittered(exp, draw) as real) > 0.85 * (exp as real) - 1.0
    ensures exp >= MAX_BACKOFF ==> Jittered(exp, draw) >= 102 * SECOND
  {
    JitterBounds(exp, draw);
  }

  /** Failures in a row: a running manager stops at the maxFails-th failure and not before. */
  function FailTimes(b: Beat, draws: seq<real>): Beat {
    if draws == [] then b else FailTimes(b, draws[..|draws| - 1]).Fail(draws[|draws| - 1])
  }

  lemma {:induction false} StopsAtMaxFails(b: Beat, draws: seq<real>)
    requires b.fails < b.maxFails
    ensures var v := FailTimes(b, draws);
            && v.fails == b.fails + |draws| && v.base == b.base && v.maxFails == b.maxFails
            && (v.running <==> b.running && b.fails + |draws| < b.maxFails)
            && (draws != [] ==> v.interval == Jittered(Exponential(b.base, v.fails), draws[|draws| - 1]))
  {
    if draws != [] {
      StopsAtMaxFails(b, draws[..|draws| - 1]);
    }
  }
}
