// Every interleaving of the heartbeat manager's operations: what its count,
// its running flag and its interval are.
module HeartbeatRuns {
  import opened Wrappers
  import opened Heartbeat

  datatype BeatOp =
    | DoStart
    | DoStop
    | DoSetInterval(d: int64)
    | DoSetMaxFails(n: int)
    | DoResetFails
    | DoSuccess
    | DoFailure(draw: real)
    | DoEvent(event: ClientState, draw: real)

  function Step(b: Beat, op: BeatOp): Beat {
    match op
    case DoStart => if b.running then b else b.(running := true, fails := 0)
    case DoStop => b.(running := false)
    case DoSetInterval(d) => if d <= 0 then b else b.(interval := d, base := d)
    case DoSetMaxFails(n) => if n > 0 then b.(maxFails := n) else b
    case DoResetFails => b.(fails := 0)
    case DoSuccess => b.Recover()
    case DoFailure(draw) => b.Fail(draw)
    case DoEvent(Connected, _) => b.Recover()
    case DoEvent(Other, _) => b
    case DoEvent(_, draw) => b.BackOff(draw)
  }

  function Run(b: Beat, ops: seq<BeatOp>): Beat {
    if ops == [] then b else Step(Run(b, ops[..|ops| - 1]), ops[|ops| - 1])
  }

  ghost predicate Backed(ops: seq<BeatOp>) {
    exists k :: BackedAt(ops, k)
  }

  ghost predicate BackedAt(ops: seq<BeatOp>, k: int) {
    0 <= k < |ops| && BacksOff(ops[k]) && forall j :: k < j < |ops| ==> !Rebases(ops[j])
  }

  predicate BacksOff(op: BeatOp) {
    op.DoFailure? || (op.DoEvent? && (op.event.Disconnected? || op.event.Reconnecting?))
  }

  /** Operations that put the interval back to the base. */
  predicate Rebases(op: BeatOp) {
    op.DoSuccess? || (op.DoEvent? && op.event.Connected?) || (op.DoSetInterval? && op.d > 0)
  }

  // ----- Count, limit and running flag, from the operations alone -----

  /** Operations after which the count starts again, in a manager that is running or not. */
  predicate Resets(op: BeatOp, running: bool) {
    op.DoSuccess? || op.DoResetFails? || (op.DoEvent? && op.event.Connected?) || (op.DoStart? && !running)
  }

  /** The failures, disconnections and reconnections since the last reset. */
  function FailuresSince(b: Beat, ops: seq<BeatOp>): nat
    decreases |ops|, 0
  {
    if ops == [] then b.fails
    else
      var before, op := ops[..|ops| - 1], ops[|ops| - 1];
      if Resets(op, Alive(b, before)) then 0
      else FailuresSince(b, before) + (if BacksOff(op) then 1 else 0)
  }

  /** The last positive limit set. */
  function Limit(b: Beat, ops: seq<BeatOp>): int {
    if ops == [] then b.maxFails
    else if ops[|ops| - 1].DoSetMaxFails? && ops[|ops| - 1].n > 0 then ops[|ops| - 1].n
    else Limit(b, ops[..|ops| - 1])
  }

  /** The last positive interval set. */
  function BaseOf(b: Beat, ops: seq<BeatOp>): int64 {
    if ops == [] then b.base
    else if ops[|ops| - 1].DoSetInterval? && ops[|ops| - 1].d > 0 then ops[|ops| - 1].d
    else BaseOf(b, ops[..|ops| - 1])
  }

  /** The last operation of this history stops the manager: Stop, or the heartbeat failure that reaches the limit. */
  predicate Halts(b: Beat, ops: seq<BeatOp>)
    requires ops != []
    decreases |ops|, 0
  {
    var before, op := ops[..|ops| - 1], ops[|ops| - 1];
    op.DoStop? || (op.DoFailure? && FailuresSince(b, before) + 1 >= Limit(b, before))
  }

  /** Running at first or started, and not stopped since. */
  predicate Alive(b: Beat, ops: seq<BeatOp>)
    decreases |ops|, 1
  {
    if ops == [] then b.running
    else ops[|ops| - 1].DoStart? || (Alive(b, ops[..|ops| - 1]) && !Halts(b, ops))
  }

  /** After every interleaving count, limit, base and running flag are what the operations say. */
  lemma {:induction false} RunIsHistory(b: Beat, ops: seq<BeatOp>)
    ensures var v := Run(b, ops);
            && v.fails == FailuresSince(b, ops) && v.maxFails == Limit(b, ops) && v.base == BaseOf(b, ops)
            && (v.running <==> Alive(b, ops))
  {
    if ops != [] {
      RunIsHistory(b, ops[..|ops| - 1]);
    }
  }

  function Failures(ops: seq<BeatOp>): nat {
    if ops == [] then 0 else Failures(ops[..|ops| - 1]) + (if BacksOff(ops[|ops| - 1]) then 1 else 0)
  }

  /** The k-th operation was the last reset; -1 stands for the beginning. */
  ghost predicate LastReset(b: Beat, ops: seq<BeatOp>, k: int) {
    && -1 <= k < |ops| && (k >= 0 ==> Resets(ops[k], Alive(b, ops[..k])))
    && forall j :: k < j < |ops| ==> !Resets(ops[j], Alive(b, ops[..j]))
  }

  lemma LastResetStays(b: Beat, ops: seq<BeatOp>, k: int)
    requires ops != [] && LastReset(b, ops[..|ops| - 1], k)
    requires !Resets(ops[|ops| - 1], Alive(b, ops[..|ops| - 1]))
    ensures LastReset(b, ops, k)
  {
    var g := ops[..|ops| - 1];
    assert forall j :: 0 <= j < |g| ==> g[j] == ops[j] && g[..j] == ops[..j];
  }

  lemma FailuresGrow(ops: seq<BeatOp>, k: nat)
    requires ops != [] && k < |ops|
    ensures Failures(ops[k..]) == Failures(ops[..|ops| - 1][k..]) + (if BacksOff(ops[|ops| - 1]) then 1 else 0)
  {
    var since := ops[k..];
    assert since[..|since| - 1] == ops[..|ops| - 1][k..];
  }

  lemma ResetNow(b: Beat, ops: seq<BeatOp>)
    requires ops != [] && Resets(ops[|ops| - 1], Alive(b, ops[..|ops| - 1]))
    ensures LastReset(b, ops, |ops| - 1) && FailuresSince(b, ops) == 0 && Failures(ops[|ops|..]) == 0
  {
  }

  lemma {:induction false} CountsSinceReset(b: Beat, ops: seq<BeatOp>) returns (k: int)
    ensures LastReset(b, ops, k)
    ensures FailuresSince(b, ops) == (if k == -1 then b.fails else 0) + Failures(ops[k + 1..])
  {
    if ops == [] {
      k := -1;
    } else if Resets(ops[|ops| - 1], Alive(b, ops[..|ops| - 1])) {
      ResetNow(b, ops);
      k := |ops| - 1;
    } else {
      k := CountsSinceReset(b, ops[..|ops| - 1]);
      LastResetStays(b, ops, k);
      FailuresGrow(ops, k + 1);
    }
  }

  /** The count is the number of failures since the last reset, on top of the initial count if there was none. */
  lemma FailsAreHistory(b: Beat, ops: seq<BeatOp>) returns (k: int)
    ensures LastReset(b, ops, k)
    ensures Run(b, ops).fails == (if k == -1 then b.fails else 0) + Failures(ops[k + 1..])
  {
    RunIsHistory(b, ops);
    k := CountsSinceReset(b, ops);
  }

  // ----- When the manager runs -----

  /** None of the operations from `start` on stopped the manager. */
  ghost predicate NoHalt(b: Beat, ops: seq<BeatOp>, start: int) {
    forall m :: 0 < m <= |ops| && start < m ==> !Halts(b, ops[..m])
  }

  ghost predicate StartedAt(b: Beat, ops: seq<BeatOp>, k: int) {
    (if k == -1 then b.running else 0 <= k < |ops| && ops[k].DoStart?) && NoHalt(b, ops, k + 1)
  }

  lemma NoHaltStep(b: Beat, ops: seq<BeatOp>, start: int)
    requires ops != [] && start < |ops|
    ensures NoHalt(b, ops, start) <==> NoHalt(b, ops[..|ops| - 1], start) && !Halts(b, ops)
  {
    var n := |ops| - 1;
    assert ops[..|ops|] == ops;
    assert forall m :: 0 < m <= n ==> ops[..n][..m] == ops[..m];
  }

  lemma StartedStep(b: Beat, ops: seq<BeatOp>, k: int)
    requires ops != []
    ensures StartedAt(b, ops, k) <==>
              if k == |ops| - 1 then ops[k].DoStart? else StartedAt(b, ops[..|ops| - 1], k) && !Halts(b, ops)
  {
    if k < |ops| - 1 {
      NoHaltStep(b, ops, k + 1);
    }
  }

  /**
   * After every interleaving the manager runs exactly if it was running or
   * was started and since then there was neither a Stop nor a heartbeat
   * failure that brought the number of failures since the last reset to the
   * last limit set. Nothing else stops it: not disconnections, however many,
   * and not lowering the limit.
   */
  lemma {:induction false} RunsExactly(b: Beat, ops: seq<BeatOp>)
    ensures Run(b, ops).running <==> exists k :: StartedAt(b, ops, k)
  {
    RunIsHistory(b, ops);
    if ops == [] {
      assert b.running ==> StartedAt(b, ops, -1);
    } else {
      var n := |ops| - 1;
      var g := ops[..n];
      RunsExactly(b, g);
      RunIsHistory(b, g);
      if Run(b, ops).running {
        if ops[n].DoStart? {
          StartedStep(b, ops, n);
        } else {
          var k :| StartedAt(b, g, k);
          StartedStep(b, ops, k);
        }
      }
      if k :| StartedAt(b, ops, k) {
        StartedStep(b, ops, k);
      }
    }
  }

  function Disconnects(draws: seq<real>): seq<BeatOp> {
    seq(|draws|, i requires 0 <= i < |draws| => DoEvent(Disconnected, draws[i]))
  }

  /** Disconnections count like failures but never stop a running manager, even beyond its limit. */
  lemma {:induction false} DisconnectsNeverStop(b: Beat, draws: seq<real>)
    ensures var v := Run(b, Disconnects(draws)); v.running == b.running && v.fails == b.fails + |draws|
  {
    if draws != [] {
      var n := |draws| - 1;
      DisconnectsNeverStop(b, draws[..n]);
      assert Disconnects(draws)[..n] == Disconnects(draws[..n]);
    }
  }

  // ----- The interval -----

  ghost predicate LastPaced(ops: seq<BeatOp>, k: int) {
    && -1 <= k < |ops| && (k >= 0 ==> BacksOff(ops[k]) || Rebases(ops[k]))
    && forall j :: k < j < |ops| ==> !BacksOff(ops[j]) && !Rebases(ops[j])
  }

  /** The interval that the k-th operation set; -1 stands for the beginning. */
  function SetAt(b: Beat, ops: seq<BeatOp>, k: int): int
    requires -1 <= k < |ops| && (k >= 0 ==> BacksOff(ops[k]) || Rebases(ops[k]))
  {
    if k == -1 then b.interval
    else if Rebases(ops[k]) then BaseOf(b, ops[..k + 1])
    else Jittered(Exponential(BaseOf(b, ops[..k]), FailuresSince(b, ops[..k]) + 1), ops[k].draw)
  }

  lemma PacedStays(b: Beat, ops: seq<BeatOp>, k: int)
    requires ops != [] && LastPaced(ops[..|ops| - 1], k) && !BacksOff(ops[|ops| - 1]) && !Rebases(ops[|ops| - 1])
    ensures LastPaced(ops, k) && SetAt(b, ops, k) == SetAt(b, ops[..|ops| - 1], k)
  {
    var g := ops[..|ops| - 1];
    assert forall j :: 0 <= j < |g| ==> g[j] == ops[j];
    if k >= 0 {
      assert g[..k] == ops[..k] && g[..k + 1] == ops[..k + 1];
    }
  }

  lemma PacedAnew(b: Beat, ops: seq<BeatOp>)
    requires ops != [] && (BacksOff(ops[|ops| - 1]) || Rebases(ops[|ops| - 1]))
    ensures LastPaced(ops, |ops| - 1) && Run(b, ops).interval == SetAt(b, ops, |ops| - 1)
  {
    RunIsHistory(b, ops[..|ops| - 1]);
    assert ops[..|ops|] == ops;
  }

  /**
   * The interval is the base as it was at the last success, reconnection or
   * new interval, or the backoff that the last failure or disconnection drew
   * for the base and the count of that moment, whichever came last.
   */
  lemma {:induction false} IntervalIsHistory(b: Beat, ops: seq<BeatOp>) returns (k: int)
    ensures LastPaced(ops, k) && Run(b, ops).interval == SetAt(b, ops, k)
  {
    if ops == [] {
      k := -1;
    } else {
      var op := ops[|ops| - 1];
      if BacksOff(op) || Rebases(op) {
        k := |ops| - 1;
        PacedAnew(b, ops);
      } else {
        k := IntervalIsHistory(b, ops[..|ops| - 1]);
        PacedStays(b, ops, k);
      }
    }
  }

  /**
   * Over every interleaving of operations the interval is the base or lies in
   * [1 s, 2 min], and it can differ from the base only if some failure or
   * disconnection came after the last operation that restored it.
   */
  lemma {:induction false} RunStaysSane(b: Beat, ops: seq<BeatOp>)
    requires b.Sane() && b.interval == b.base
    ensures var v := Run(b, ops);
            v.Sane() && (v.interval != v.base ==> Backed(ops))
  {
    if ops != [] {
      var n := |ops| - 1;
      RunStaysSane(b, ops[..n]);
      var v, v' := Run(b, ops[..n]), Run(b, ops);
      if v'.interval != v'.base {
        if BacksOff(ops[n]) {
          assert BackedAt(ops, n);
        } else {
          BackedExtends(ops, n);
        }
      }
    }
  }

  lemma BackedExtends(ops: seq<BeatOp>, n: nat)
    requires |ops| == n + 1 && !Rebases(ops[n]) && Backed(ops[..n])
    ensures Backed(ops)
  {
    var k :| BackedAt(ops[..n], k);
    assert forall j :: k < j < n ==> ops[j] == ops[..n][j];
    assert BackedAt(ops, k);
  }
}
