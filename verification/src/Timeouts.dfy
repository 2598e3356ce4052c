// What Ensure and HealthTick do on a network whose calls need time: how much
// time each call is given decides which rung wins.
module Timeouts {
  import opened Wrappers
  import opened Transports
  import opened Sessions
  import opened PathConfig
  import opened Selector
  import opened LadderFacts
  import opened SelectorTheorems
  import Spacing

  type Need = (CallKind, string) -> nat

  /** A call succeeds exactly if it is given the time that its kind and path need, and returns by its deadline. */
  ghost predicate Needs(o: Oracle, need: Need) {
    forall q: Query ::
      (o(q).error.None? <==> q.remaining >= need(q.kind, q.path)) && o(q).elapsed <= Max(0, q.remaining)
  }

  /** The rung is registered, meets its token rule, and needs no more than a probe timeout for each of its calls. */
  predicate Fits(s: Setup, need: Need, name: string, token: string) {
    && name in s.adapters && (s.adapters[name] ==> token != "")
    && need(ProbeCall, name) <= s.cfg.probeTimeout && need(OpenCall, name) <= s.cfg.probeTimeout
  }

  ghost predicate FirstFit(s: Setup, need: Need, order: seq<string>, token: string, i: int) {
    && 0 <= i < |order| && Fits(s, need, order[i], token)
    && forall j :: 0 <= j < i ==> !Fits(s, need, order[j], token)
  }

  /** `won` is the first fitting rung of the order; there is none exactly if no rung fits. */
  ghost predicate WinsByNeed(s: Setup, need: Need, order: seq<string>, token: string, won: Option<string>) {
    match won
    case None => forall n :: n in order ==> !Fits(s, need, n, token)
    case Some(name) => exists i :: FirstFit(s, need, order, token, i) && order[i] == name
  }

  // ----- One ladder -----

  lemma NeedsArePrompt(o: Oracle, need: Need)
    requires Needs(o, need)
    ensures Prompt(o)
  {
  }

  lemma AttemptFits(s: Setup, p: Plant, name: string, token: string, deadline: int, need: Need)
    requires Needs(s.oracle, need) && name in s.adapters && s.cfg.probeTimeout > 0
    requires deadline >= p.net.now + 2 * s.cfg.probeTimeout
    ensures var t := AttemptSpec(s, p, name, token, deadline);
            && (t.attempt.Won? <==> Fits(s, need, name, token))
            && (t.attempt.Won? ==> t.attempt.handle.name == name)
            && t.plant.net.now <= p.net.now + 2 * s.cfg.probeTimeout
  {
    var pt := s.cfg.probeTimeout;
    NeedsArePrompt(s.oracle, need);
    AttemptTime(s, p, name, token, deadline);
    var q := Query(p.net.calls, ProbeCall, name, "", pt);
    var a := s.oracle(q);
    assert a.error.None? <==> need(ProbeCall, name) <= pt;
    var net1 := ProbeSpec(s.oracle, p.net, name, p.net.now + pt).net;
    var q' := Query(net1.calls, OpenCall, name, token, pt);
    assert s.oracle(q').error.None? <==> need(OpenCall, name) <= pt;
    assert Min(deadline, p.net.now + pt) == p.net.now + pt && Min(deadline, net1.now + pt) == net1.now + pt;
  }

  lemma WonFirst(s: Setup, need: Need, order: seq<string>, token: string)
    requires order != [] && Fits(s, need, order[0], token)
    ensures WinsByNeed(s, need, order, token, Some(order[0]))
  {
    assert FirstFit(s, need, order, token, 0);
  }

  lemma WonLater(s: Setup, need: Need, order: seq<string>, token: string, won: Option<string>)
    requires order != [] && !Fits(s, need, order[0], token) && WinsByNeed(s, need, order[1..], token, won)
    ensures WinsByNeed(s, need, order, token, won)
  {
    if won.Some? {
      var i :| FirstFit(s, need, order[1..], token, i) && order[1..][i] == won.value;
      assert forall j :: 0 < j < i + 1 ==> order[j] == order[1..][j - 1];
      var k := i + 1;
      assert FirstFit(s, need, order, token, k) && order[k] == won.value;
    }
  }

  lemma RungsLeft(n: nat, pt: int)
    requires n > 0 && pt >= 0
    ensures 2 * n * pt == 2 * (n - 1) * pt + 2 * pt && 2 * (n - 1) * pt >= 0
  {
    assert 2 * (n - 1) * pt >= 0;
  }

  lemma {:induction false} LadderMeetsNeeds(s: Setup, order: seq<string>, p: Plant, token: string, deadline: int,
                                            lastError: Option<PathError>, need: Need)
    requires Needs(s.oracle, need) && s.cfg.probeTimeout > 0
    requires deadline >= p.net.now + 2 * |order| * s.cfg.probeTimeout
    ensures WinsByNeed(s, need, order, token, NameOf(EnsureLadder(s, order, p, token, deadline, lastError).won))
    decreases |order|
  {
    if order != [] {
      RungsLeft(|order|, s.cfg.probeTimeout);
      var p', le := p, Some(NotRegistered(order[0]));
      if order[0] in s.adapters {
        var t := AttemptSpec(s, p, order[0], token, deadline);
        AttemptFits(s, p, order[0], token, deadline, need);
        if t.attempt.Won? {
          WonFirst(s, need, order, token);
          return;
        }
        p', le := t.plant, Some(LossError(order[0], t.attempt));
      }
      LadderMeetsNeeds(s, order[1..], p', token, deadline, le, need);
      WonLater(s, need, order, token, NameOf(EnsureLadder(s, order[1..], p', token, deadline, le).won));
    }
  }

  // ----- Ensure -----

  /** Time for two calls to each rung of the order, and `more` besides. */
  predicate LongEnough(s: Setup, now: int, parent: Option<int>, more: nat) {
    && s.cfg.ladderTimeout >= 2 * |s.cfg.order| * s.cfg.probeTimeout
    && (parent.Some? ==> parent.value >= now + 2 * |s.cfg.order| * s.cfg.probeTimeout + more)
  }

  /**
   * With time for the whole order Ensure opens the first registered rung that
   * meets its token rule and whose probe and open each need no more than the
   * probe timeout; it fails exactly if there is none.
   */
  lemma EnsureMeetsNeeds(s: Setup, w: World, token: string, parent: Option<int>, need: Need)
    requires Needs(s.oracle, need) && s.cfg.Usable() && s.cfg.enabled
    requires w.sess.state !in {Unset, HandingOver, Closed} && LongEnough(s, w.plant.net.now, parent, 0)
    ensures var e := EnsureSpec(s, w, token, parent);
            && (e.result.EnsureOpened? || e.result.EnsureAllFailed?)
            && WinsByNeed(s, need, s.cfg.order, token, if e.result.EnsureOpened? then Some(e.result.path) else None)
  {
    var deadline := Clip(parent, w.plant.net.now + s.cfg.ladderTimeout);
    LadderMeetsNeeds(s, s.cfg.order, w.plant, token, deadline, None, need);
    var c := EnsureLadder(s, s.cfg.order, w.plant, token, deadline, None);
    var w1 := w.(sess := w.sess.(state := EnterProbing(w.sess.state)));
    assert EnsureSpec(s, w, token, parent) == ClimbSpec(s, w1, token, parent);
    assert ClimbSpec(s, w1, token, parent) == EndEnsure(w1, c);
    EndEnsurePath(w1, c);
  }

  // ----- HealthTick -----

  /** A failover may go to this rung: it fits without a token and, under hard failure, is not the active one. */
  predicate FitsNext(s: Setup, need: Need, activePath: string, name: string) {
    (s.cfg.softFail || name != activePath) && Fits(s, need, name, "")
  }

  ghost predicate FirstNext(s: Setup, need: Need, order: seq<string>, activePath: string, i: int) {
    && 0 <= i < |order| && FitsNext(s, need, activePath, order[i])
    && forall j :: 0 <= j < i ==> !FitsNext(s, need, activePath, order[j])
  }

  /** `won` is the first rung of the order a failover may go to; there is none exactly if it may go to none. */
  ghost predicate NextByNeed(s: Setup, need: Need, order: seq<string>, activePath: string, won: Option<string>) {
    match won
    case None => forall n :: n in order ==> !FitsNext(s, need, activePath, n)
    case Some(name) => exists i :: FirstNext(s, need, order, activePath, i) && order[i] == name
  }

  lemma {:induction false} WinnerIsNext(s: Setup, need: Need, order: seq<string>, activePath: string,
                                        won: Option<string>)
    requires WinsByNeed(s, need, if s.cfg.softFail then order else Others(order, activePath), "", won)
    ensures NextByNeed(s, need, order, activePath, won)
    decreases |order|
  {
    if order != [] {
      var rungs := if s.cfg.softFail then order else Others(order, activePath);
      if FitsNext(s, need, activePath, order[0]) {
        assert rungs[0] == order[0];
        FirstWins(s, need, rungs, "", won);
        assert FirstNext(s, need, order, activePath, 0);
      } else {
        var rest := if s.cfg.softFail then order[1..] else Others(order[1..], activePath);
        if s.cfg.softFail || order[0] != activePath {
          assert rungs[0] == order[0] && rungs[1..] == rest;
          LaterWins(s, need, rungs, "", won);
        } else {
          assert rungs == rest;
        }
        WinnerIsNext(s, need, order[1..], activePath, won);
        NextLater(s, need, order, activePath, won);
      }
    }
  }

  lemma FirstWins(s: Setup, need: Need, order: seq<string>, token: string, won: Option<string>)
    requires order != [] && Fits(s, need, order[0], token) && WinsByNeed(s, need, order, token, won)
    ensures won == Some(order[0])
  {
    assert order[0] in order;
    var i :| FirstFit(s, need, order, token, i) && order[i] == won.value;
    assert i == 0;
  }

  lemma LaterWins(s: Setup, need: Need, order: seq<string>, token: string, won: Option<string>)
    requires order != [] && !Fits(s, need, order[0], token) && WinsByNeed(s, need, order, token, won)
    ensures WinsByNeed(s, need, order[1..], token, won)
  {
    if won.Some? {
      var i :| FirstFit(s, need, order, token, i) && order[i] == won.value;
      var k := i - 1;
      assert forall j :: 0 <= j < k + 1 ==> order[1..][j] == order[j + 1];
      assert FirstFit(s, need, order[1..], token, k) && order[1..][k] == won.value;
    } else {
      assert forall n :: n in order[1..] ==> n in order;
    }
  }

  lemma NextLater(s: Setup, need: Need, order: seq<string>, activePath: string, won: Option<string>)
    requires order != [] && !FitsNext(s, need, activePath, order[0])
    requires NextByNeed(s, need, order[1..], activePath, won)
    ensures NextByNeed(s, need, order, activePath, won)
  {
    if won.Some? {
      var i :| FirstNext(s, need, order[1..], activePath, i) && order[1..][i] == won.value;
      assert forall j :: 0 < j < i + 1 ==> order[j] == order[1..][j - 1];
      var k := i + 1;
      assert FirstNext(s, need, order, activePath, k) && order[k] == won.value;
    }
  }

  /** The time the probe of the active path is given. */
  function ProbeTime(s: Setup, now: int, parent: Option<int>): int {
    if parent.Some? then Min(parent.value - now, s.cfg.probeTimeout) else s.cfg.probeTimeout
  }

  /** HealthTick looks at the active path. */
  predicate Looks(s: Setup, w: World) {
    && s.cfg.enabled && w.sess.state in {PathSelected, Degraded}
    && w.sess.activePath != "" && w.sess.activePath in s.adapters
  }

  /** The path answers in time: HealthTick changes nothing but the state, the clock and the call log. */
  lemma HealthyByNeed(s: Setup, w: World, parent: Option<int>, need: Need)
    requires Needs(s.oracle, need) && Looks(s, w)
    requires need(ProbeCall, w.sess.activePath) <= ProbeTime(s, w.plant.net.now, parent)
    ensures var h := HealthSpec(s, w, parent);
            && h.result == HealthOk && h.world.sess == w.sess.(state := PathSelected)
            && h.world.plant.slots == w.plant.slots && h.world.plant.net.open == w.plant.net.open
            && h.world.plant.net.log == w.plant.net.log + [Probed(w.sess.activePath, None)]
            && h.world.counters == w.counters
  {
    var net := w.plant.net;
    var q := Query(net.calls, ProbeCall, w.sess.activePath, "", ProbeTime(s, net.now, parent));
    assert s.oracle(q).error.None?;
  }

  /** The world after the probe of the active path has failed. */
  ghost function ProbeFails(s: Setup, w: World, parent: Option<int>): World {
    var net := w.plant.net;
    var a := ProbeSpec(s.oracle, net, w.sess.activePath, Clip(parent, net.now + s.cfg.probeTimeout));
    w.(plant := w.plant.(net := a.net),
       sess := w.sess.(state := Degraded, lastError := Some(Cause(if a.error.Some? then a.error.value else ""))))
  }

  lemma ProbeLost(s: Setup, w: World, parent: Option<int>, need: Need)
    requires Needs(s.oracle, need) && Looks(s, w) && s.cfg.probeTimeout > 0
    requires need(ProbeCall, w.sess.activePath) > ProbeTime(s, w.plant.net.now, parent)
    ensures var v := ProbeFails(s, w, parent);
            && w.plant.net.now <= v.plant.net.now
            && v.plant.net.now <= w.plant.net.now + Max(0, ProbeTime(s, w.plant.net.now, parent))
            && v.plant.slots == w.plant.slots
            && HealthSpec(s, w, parent) == (if CoolingDown(s, v.sess, v.plant.net.now)
                                            then Checked(v, HealthProbeFailed(v.sess.lastError.value))
                                            else FailoverSpec(s, v, v.sess.lastError.value, parent))
  {
    var net := w.plant.net;
    var q := Query(net.calls, ProbeCall, w.sess.activePath, "", ProbeTime(s, net.now, parent));
    assert s.oracle(q).error.Some? && s.oracle(q).elapsed <= Max(0, q.remaining);
  }

  /**
   * HealthTick's first call is the probe of the active path, and it fails
   * exactly if it needs more than the probe timeout, cut by the caller's
   * deadline.
   */
  lemma ProbeFailsExactly(s: Setup, w: World, parent: Option<int>, need: Need)
    requires Needs(s.oracle, need) && Looks(s, w) && s.cfg.probeTimeout > 0
    ensures var n, log := |w.plant.net.log|, HealthSpec(s, w, parent).world.plant.net.log;
            && |log| > n && log[..n] == w.plant.net.log && log[n].Probed? && log[n].path == w.sess.activePath
            && (log[n].error.Some? <==> need(ProbeCall, w.sess.activePath) > ProbeTime(s, w.plant.net.now, parent))
  {
    if need(ProbeCall, w.sess.activePath) <= ProbeTime(s, w.plant.net.now, parent) {
      HealthyByNeed(s, w, parent, need);
    } else {
      ProbeLost(s, w, parent, need);
      var v := ProbeFails(s, w, parent);
      var q := Query(w.plant.net.calls, ProbeCall, w.sess.activePath, "", ProbeTime(s, w.plant.net.now, parent));
      assert v.plant.net.log == w.plant.net.log + [Probed(w.sess.activePath, s.oracle(q).error)];
      var i, ev := FailoverCalls(s, v, v.sess.lastError.value, parent);
    }
  }

  /** The path does not answer in time within the cooldown: the session is degraded and keeps its path. */
  lemma CoolingByNeed(s: Setup, w: World, parent: Option<int>, need: Need)
    requires Needs(s.oracle, need) && Looks(s, w) && s.cfg.probeTimeout > 0
    requires need(ProbeCall, w.sess.activePath) > ProbeTime(s, w.plant.net.now, parent)
    requires w.sess.lastFailover.Some?
    requires w.plant.net.now + Max(0, ProbeTime(s, w.plant.net.now, parent)) - w.sess.lastFailover.value
          < s.cfg.failoverCooldown
    ensures var h := HealthSpec(s, w, parent);
            && h.result.HealthProbeFailed? && h.world.sess.state == Degraded
            && h.world.sess.active == w.sess.active && h.world.sess.activePath == w.sess.activePath
            && h.world.plant.slots == w.plant.slots
  {
    ProbeLost(s, w, parent, need);
  }

  lemma FailoverMeetsNeeds(s: Setup, w: World, err: PathError, parent: Option<int>, need: Need)
    requires Needs(s.oracle, need) && s.cfg.Usable() && LongEnough(s, w.plant.net.now, parent, 0)
    ensures var c := FailoverSpec(s, w, err, parent);
            && (c.result.HealthOk? || c.result.HealthAllFailed?)
            && NextByNeed(s, need, s.cfg.order, w.sess.activePath,
                          if c.result.HealthOk? then Some(c.world.sess.activePath) else None)
  {
    var deadline := Clip(parent, w.plant.net.now + s.cfg.ladderTimeout);
    var activePath := w.sess.activePath;
    var rungs := Candidates(s.cfg, activePath);
    OthersMembers(s.cfg.order, activePath);
    Spacing.Monotone(2 * |rungs|, 2 * |s.cfg.order|, s.cfg.probeTimeout);
    HealthLadderIsEnsureLadder(s, s.cfg.order, w.plant, activePath, deadline, None, None);
    LadderMeetsNeeds(s, rungs, w.plant, "", deadline, None, need);
    var c := HealthLadder(s, s.cfg.order, w.plant, activePath, deadline, None);
    WinnerIsNext(s, need, s.cfg.order, activePath, NameOf(c.won));
    var w1 := w.(sess := w.sess.(state := After(w.sess.state, Probing)));
    assert FailoverSpec(s, w, err, parent) == ReclimbSpec(s, w1, err, parent);
    assert ReclimbSpec(s, w1, err, parent) == EndFailover(w1, c, err);
    EndFailoverPath(w1, c, err);
  }

  /**
   * The path does not answer in time after the cooldown: with time for the
   * whole order HealthTick moves to the first registered rung that needs no
   * token, answers in time and, under hard failure, is another one; it fails
   * exactly if there is none.
   */
  lemma HealthMeetsNeeds(s: Setup, w: World, parent: Option<int>, need: Need)
    requires Needs(s.oracle, need) && s.cfg.Usable() && Looks(s, w)
    requires need(ProbeCall, w.sess.activePath) > ProbeTime(s, w.plant.net.now, parent)
    requires w.sess.lastFailover.Some? ==> w.plant.net.now - w.sess.lastFailover.value >= s.cfg.failoverCooldown
    requires LongEnough(s, w.plant.net.now, parent, s.cfg.probeTimeout)
    ensures var h := HealthSpec(s, w, parent);
            && (h.result.HealthOk? || h.result.HealthAllFailed?)
            && NextByNeed(s, need, s.cfg.order, w.sess.activePath,
                          if h.result.HealthOk? then Some(h.world.sess.activePath) else None)
  {
    ProbeLost(s, w, parent, need);
    var v := ProbeFails(s, w, parent);
    assert v.plant.net.now <= w.plant.net.now + s.cfg.probeTimeout;
    FailoverMeetsNeeds(s, v, v.sess.lastError.value, parent, need);
  }

  // ----- When anything is called at all -----

  /** HealthTick calls an adapter exactly if it looks; otherwise only an unregistered path degrades the session. */
  lemma HealthCallsExactly(s: Setup, w: World, parent: Option<int>)
    ensures var v := HealthSpec(s, w, parent).world;
            && (v.plant.net.calls > w.plant.net.calls <==> Looks(s, w))
            && (!Looks(s, w) ==>
                  v == w || (w.sess.activePath !in s.adapters && v == w.(sess := w.sess.(state := Degraded))))
  {
    if Looks(s, w) {
      var net := w.plant.net;
      var a := ProbeSpec(s.oracle, net, w.sess.activePath, Clip(parent, net.now + s.cfg.probeTimeout));
      var w1 := w.(plant := w.plant.(net := a.net));
      assert HealthSpec(s, w, parent) == ReactSpec(s, w1, a.error, parent);
      ReactCalls(s, w1, a.error, parent);
    }
  }

  lemma ReactCalls(s: Setup, w: World, probeError: Option<string>, parent: Option<int>)
    ensures ReactSpec(s, w, probeError, parent).world.plant.net.calls >= w.plant.net.calls
  {
    HealthLadderIsEnsureLadder(s, s.cfg.order, w.plant, w.sess.activePath,
                               Clip(parent, w.plant.net.now + s.cfg.ladderTimeout), None, None);
    LadderMakesCalls(s, Candidates(s.cfg, w.sess.activePath), w.plant, "",
                     Clip(parent, w.plant.net.now + s.cfg.ladderTimeout), None);
  }

  lemma {:induction false} LadderMakesCalls(s: Setup, order: seq<string>, p: Plant, token: string, deadline: int,
                                            lastError: Option<PathError>)
    ensures var calls := EnsureLadder(s, order, p, token, deadline, lastError).plant.net.calls;
            calls >= p.net.calls && (calls > p.net.calls <==> exists n :: n in order && n in s.adapters)
    decreases |order|
  {
    if order != [] {
      if order[0] !in s.adapters {
        LadderMakesCalls(s, order[1..], p, token, deadline, Some(NotRegistered(order[0])));
        assert forall n :: n in order ==> n == order[0] || n in order[1..];
      } else {
        var t := AttemptSpec(s, p, order[0], token, deadline);
        assert order[0] in order && t.plant.net.calls > p.net.calls;
        if !t.attempt.Won? {
          LadderMakesCalls(s, order[1..], t.plant, token, deadline, Some(LossError(order[0], t.attempt)));
        }
      }
    }
  }

  /** Ensure calls an adapter exactly if it is enabled, not refused, and some rung of its order is registered. */
  lemma EnsureCallsExactly(s: Setup, w: World, token: string, parent: Option<int>)
    requires s.cfg.Usable()
    ensures var v := EnsureSpec(s, w, token, parent).world;
            && (v.plant.net.calls > w.plant.net.calls <==>
                  && s.cfg.enabled && w.sess.state !in {Unset, HandingOver, Closed}
                  && exists n :: n in s.cfg.order && n in s.adapters)
            && (!s.cfg.enabled ==> v == w)
  {
    var deadline := Clip(parent, w.plant.net.now + s.cfg.ladderTimeout);
    LadderMakesCalls(s, s.cfg.order, w.plant, token, deadline, None);
    var c := EnsureLadder(s, s.cfg.order, w.plant, token, deadline, None);
    var w1 := w.(sess := w.sess.(state := EnterProbing(w.sess.state)));
    if s.cfg.enabled && w1.sess.state == Probing {
      assert EnsureSpec(s, w, token, parent) == ClimbSpec(s, w1, token, parent);
      assert ClimbSpec(s, w1, token, parent) == EndEnsure(w1, c);
    }
  }
}
