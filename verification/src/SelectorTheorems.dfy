// The main results about path selection. Each holds for every environment;
// the ones about whole runs hold for every interleaving of operations.
module SelectorTheorems {
  import opened Wrappers
  import opened Transports
  import opened Sessions
  import opened PathConfig
  import opened Selector
  import opened LadderFacts
  import opened SelectorRuns
  import opened Spacing

  // ----- Who owns which open session -----

  /**
   * At every point of a run at most one transport session is open: the one
   * behind the session's handle. Each adapter's slot is empty, holds that
   * same session, or holds one that is closed. Without ClearActive a selected
   * or degraded session always has its transport open.
   */
  lemma OneOpenSession(s: Setup, w: World, ops: seq<Op>)
    requires Initial(s, w)
    ensures var v := Run(s, w, ops);
            && v.plant.net.open == IdsOf(v.sess.active) && |v.plant.net.open| <= 1
            && (forall n :: n in v.plant.slots && v.plant.slots[n].Some? && v.plant.slots[n].value in v.plant.net.open
                  ==> v.sess.active == Some(Handle(n, v.plant.slots[n].value)))
            && (DoClear !in ops && v.sess.state in {PathSelected, Degraded} ==>
                  v.sess.active.Some? && v.sess.active.value.session in v.plant.net.open)
  {
    RunSound(s, w, ops);
  }

  /**
   * A non-empty active path is registered, in the configured order and the
   * active handle's own; a degraded or failed session has an error to show.
   */
  lemma ActivePathIsGenuine(s: Setup, w: World, ops: seq<Op>)
    requires Initial(s, w)
    ensures var v := Run(s, w, ops);
            && (v.sess.activePath != "" ==>
                  && v.sess.activePath in s.adapters && v.sess.activePath in s.cfg.order
                  && v.sess.active.Some? && v.sess.active.value.name == v.sess.activePath)
            && (v.sess.state in {Degraded, Failed} ==> v.sess.lastError.Some?)
            && (forall parent :: HealthSpec(s, v, parent).result != HealthNotRegistered)
  {
    RunSound(s, w, ops);
    var v := Run(s, w, ops);
    forall parent
      ensures HealthSpec(s, v, parent).result != HealthNotRegistered
    {
      HealthSound(s, v, parent);
    }
  }

  /** A ladder in which every open fails closes nothing and keeps the old path active. */
  lemma FailedEnsureKeepsActive(s: Setup, w: World, token: string, parent: Option<int>)
    requires Sound(s, w)
    ensures var e := EnsureSpec(s, w, token, parent);
            e.result.EnsureOpened?
            || (&& e.world.plant.net.open == w.plant.net.open && e.world.plant.slots == w.plant.slots
                && e.world.sess.active == w.sess.active && e.world.sess.activePath == w.sess.activePath)
  {
    LadderEffect(s, s.cfg.order, w.plant, token, Clip(parent, w.plant.net.now + s.cfg.ladderTimeout), None);
  }

  // ----- How often failover can happen -----

  /**
   * Whatever Ensure calls are interleaved, the i-th and j-th failovers are at
   * least (j - i) cooldowns apart, the counter equals their number, and a
   * window of length T holds at most 1 + T / cooldown of them.
   */
  lemma FailoverPacing(s: Setup, w: World, ops: seq<Op>, a: int, length: nat)
    requires Initial(s, w)
    ensures var v := Run(s, w, ops);
            var f := v.plant.net.failovers;
            && (forall i, j :: 0 <= i <= j < |f| ==> f[j] - f[i] >= (j - i) * s.cfg.failoverCooldown)
            && v.counters.failovers == |f|
            && |InWindow(f, a, length)| <= 1 + length / s.cfg.failoverCooldown
            && v.counters.selected == v.plant.net.dialed
  {
    RunSound(s, w, ops);
    var f := Run(s, w, ops).plant.net.failovers;
    forall i, j | 0 <= i <= j < |f|
      ensures f[j] - f[i] >= (j - i) * s.cfg.failoverCooldown
    {
      SpacedApart(f, s.cfg.failoverCooldown, i, j);
    }
    WindowBound(f, s.cfg.failoverCooldown, a, length);
  }

  // ----- Which states are reached -----

  /**
   * Ensure refuses exactly the unset, handing-over and closed states; from
   * every other it runs its ladder and ends selected or failed, and session
   * and counters say which.
   */
  lemma EnsureEndState(s: Setup, w: World, token: string, parent: Option<int>)
    requires s.cfg.Usable() && s.cfg.enabled && w.plant.slots.Keys == s.adapters.Keys
    ensures var e := EnsureSpec(s, w, token, parent);
            var v := e.world;
            && (e.result == EnsureBadState <==> w.sess.state in {Unset, HandingOver, Closed})
            && match e.result
               case EnsureOpened(path, h) =>
                 && v.sess.state == PathSelected && v.sess.activePath == path == h.name && v.sess.active == Some(h)
                 && v.sess.lastError == None
                 && v.counters == w.counters.(selected := w.counters.selected + 1)
               case EnsureAllFailed(cause) =>
                 && v.sess.state == Failed && v.sess.lastError == Some(cause)
                 && v.counters == w.counters.(failed := w.counters.failed + 1)
               case EnsureBadState =>
                 v.sess.state !in {PathSelected, Failed} && v.plant == w.plant && v.counters == w.counters
               case _ => false
  {
    var deadline := Clip(parent, w.plant.net.now + s.cfg.ladderTimeout);
    LadderEffect(s, s.cfg.order, w.plant, token, deadline, None);
  }

  lemma ReactEndState(s: Setup, w: World, probeError: Option<string>, parent: Option<int>)
    requires w.plant.slots.Keys == s.adapters.Keys && w.sess.state in {PathSelected, Degraded}
    ensures var h := ReactSpec(s, w, probeError, parent); EndsAs(w, h.world, h.result)
  {
    if probeError.Some? {
      var err := Cause(probeError.value);
      var w' := w.(sess := w.sess.(state := Degraded, lastError := Some(err)));
      if !CoolingDown(s, w'.sess, w'.plant.net.now) {
        FailoverEndState(s, w', err, parent);
      }
    }
  }

  /**
   * A HealthTick that acts ends selected, degraded or failed as its result
   * says; unless it selects another path it leaves sessions and slots alone.
   */
  lemma HealthEndState(s: Setup, w: World, parent: Option<int>)
    requires Sound(s, w) && s.cfg.enabled && w.sess.state in {PathSelected, Degraded} && w.sess.activePath != ""
    ensures var h := HealthSpec(s, w, parent);
            EndsAs(w, h.world, h.result)
  {
    var net := w.plant.net;
    var cut := Clip(parent, net.now + s.cfg.probeTimeout);
    ProbeEffect(s.oracle, net, w.sess.activePath, cut);
    var a := ProbeSpec(s.oracle, net, w.sess.activePath, cut);
    var w1 := w.(plant := w.plant.(net := a.net));
    assert HealthSpec(s, w, parent) == ReactSpec(s, w1, a.error, parent);
    ReactEndState(s, w1, a.error, parent);
  }

  ghost predicate EndsAs(w: World, v: World, r: HealthResult) {
    var same := v.plant.slots == w.plant.slots && v.plant.net.open == w.plant.net.open
      && v.sess.active == w.sess.active && v.sess.activePath == w.sess.activePath;
    match r
    case HealthOk =>
      && v.sess.state == PathSelected
      && ((same && v.counters == w.counters && v.sess == w.sess.(state := PathSelected))
          || (&& v.sess.lastError == None && v.sess.lastFailover == Some(v.plant.net.now)
              && v.counters == w.counters.(selected := w.counters.selected + 1, failovers := w.counters.failovers + 1)))
    case HealthProbeFailed(cause) =>
      same && v.sess.state == Degraded && v.sess.lastError == Some(cause) && v.counters == w.counters
    case HealthAllFailed(cause) =>
      && same && v.sess.state == Failed && v.sess.lastError == Some(cause)
      && v.counters == w.counters.(failed := w.counters.failed + 1)
    case _ => false
  }

  lemma FailoverEndState(s: Setup, w: World, err: PathError, parent: Option<int>)
    requires w.plant.slots.Keys == s.adapters.Keys && w.sess.state == Degraded
    ensures var c := FailoverSpec(s, w, err, parent);
            EndsAs(w, c.world, c.result) && !c.result.HealthProbeFailed?
  {
    HealthLadderEffect(s, w.plant, w.sess.activePath, Clip(parent, w.plant.net.now + s.cfg.ladderTimeout));
  }

  /**
   * A failed Ensure blames the last rung of the order: that it is not
   * registered, or the probe or open whose failure ends the call log.
   */
  lemma EnsureBlames(s: Setup, w: World, token: string, parent: Option<int>)
    requires s.cfg.Usable()
    ensures var e := EnsureSpec(s, w, token, parent);
            e.result.EnsureAllFailed? ==>
              BlamesLast(s, s.cfg.order[|s.cfg.order| - 1], e.world.plant.net.log, e.result.cause)
  {
    var deadline := Clip(parent, w.plant.net.now + s.cfg.ladderTimeout);
    LadderBlames(s, s.cfg.order, w.plant, token, deadline, None);
    var c := EnsureLadder(s, s.cfg.order, w.plant, token, deadline, None);
    var w1 := w.(sess := w.sess.(state := EnterProbing(w.sess.state)));
    if s.cfg.enabled && w1.sess.state == Probing {
      assert EnsureSpec(s, w, token, parent) == ClimbSpec(s, w1, token, parent);
      assert ClimbSpec(s, w1, token, parent) == EndEnsure(w1, c);
    }
  }

  lemma FailoverBlames(s: Setup, w: World, err: PathError, parent: Option<int>)
    ensures var c := FailoverSpec(s, w, err, parent);
            c.result.HealthAllFailed? ==>
              || (c.world.plant.net.log == w.plant.net.log && c.result.cause == err)
              || (c.result.cause.Cause? && BlamesCall(w.plant.net.log, c.world.plant.net.log, c.result.cause.cause))
    ensures !FailoverSpec(s, w, err, parent).result.HealthProbeFailed?
  {
    var deadline := Clip(parent, w.plant.net.now + s.cfg.ladderTimeout);
    HealthLadderBlames(s, s.cfg.order, w.plant, w.sess.activePath, deadline, None);
    var c := HealthLadder(s, s.cfg.order, w.plant, w.sess.activePath, deadline, None);
    var w1 := w.(sess := w.sess.(state := After(w.sess.state, Probing)));
    assert FailoverSpec(s, w, err, parent) == ReclimbSpec(s, w1, err, parent);
    assert ReclimbSpec(s, w1, err, parent) == EndFailover(w1, c, err);
  }

  lemma ReactBlames(s: Setup, w: World, probeError: Option<string>, parent: Option<int>, log: seq<Event>)
    requires probeError.Some? ==> BlamesCall(log, w.plant.net.log, probeError.value)
    ensures var h := ReactSpec(s, w, probeError, parent);
            h.result.HealthProbeFailed? || h.result.HealthAllFailed? ==>
              h.result.cause.Cause? && BlamesCall(log, h.world.plant.net.log, h.result.cause.cause)
  {
    if probeError.Some? {
      var err := Cause(probeError.value);
      FailoverBlames(s, w.(sess := w.sess.(state := Degraded, lastError := Some(err))), err, parent);
    }
  }

  /** A failed HealthTick reports the error of the last call it made. */
  lemma HealthBlames(s: Setup, w: World, parent: Option<int>)
    ensures var h := HealthSpec(s, w, parent);
            h.result.HealthProbeFailed? || h.result.HealthAllFailed? ==>
              h.result.cause.Cause? && BlamesCall(w.plant.net.log, h.world.plant.net.log, h.result.cause.cause)
  {
    var net := w.plant.net;
    var a := ProbeSpec(s.oracle, net, w.sess.activePath, Clip(parent, net.now + s.cfg.probeTimeout));
    var w1 := w.(plant := w.plant.(net := a.net));
    assert CheckSpec(s, w, parent) == ReactSpec(s, w1, a.error, parent);
    ReactBlames(s, w1, a.error, parent, net.log);
  }

  /** A closed session stays closed and never causes another network call. */
  lemma {:induction false} ClosedRun(s: Setup, w: World, ops: seq<Op>)
    requires s.cfg.Usable() && w.sess.state == Closed
    ensures var v := Run(s, w, ops);
            v.sess.state == Closed && v.plant.net.log == w.plant.net.log && v.counters == w.counters
  {
    if ops != [] {
      ClosedRun(s, w, ops[..|ops| - 1]);
    }
  }

  // ----- Which path is chosen -----

  /** The calls Ensure makes are those of the ladder up to its winner, for any environment. */
  lemma EnsureCalls(s: Setup, w: World, token: string, parent: Option<int>) returns (i: nat, ev: seq<Event>)
    requires s.cfg.Usable() && s.cfg.enabled && w.sess.state !in {Unset, HandingOver, Closed}
    ensures var e := EnsureSpec(s, w, token, parent);
            && e.world.plant.net.log == w.plant.net.log + ev
            && Calls(s, s.cfg.order, i, ev, if e.result.EnsureOpened? then Some(e.result.handle) else None)
            && (e.result.EnsureOpened? ==> e.result.path == s.cfg.order[i])
  {
    i, ev := LadderCalls(s, s.cfg.order, w.plant, token, Clip(parent, w.plant.net.now + s.cfg.ladderTimeout), None);
  }

  /** The calls of a failover are those of a ladder over the candidate rungs. */
  lemma FailoverCalls(s: Setup, w: World, err: PathError, parent: Option<int>) returns (i: nat, ev: seq<Event>)
    ensures var c := FailoverSpec(s, w, err, parent);
            && c.world.plant.net.log == w.plant.net.log + ev
            && Calls(s, Candidates(s.cfg, w.sess.activePath), i, ev,
                     if c.result.HealthOk? then c.world.sess.active else None)
            && (c.result.HealthOk? ==> c.world.sess.activePath == Candidates(s.cfg, w.sess.activePath)[i])
  {
    var deadline := Clip(parent, w.plant.net.now + s.cfg.ladderTimeout);
    var rungs := Candidates(s.cfg, w.sess.activePath);
    HealthLadderIsEnsureLadder(s, s.cfg.order, w.plant, w.sess.activePath, deadline, None, None);
    i, ev := LadderCalls(s, rungs, w.plant, "", deadline, None);
  }

  lemma EndEnsurePath(w: World, c: Climb)
    ensures var e := EndEnsure(w, c).result;
            (if e.EnsureOpened? then Some(e.path) else None) == NameOf(c.won)
  {
  }

  lemma EndFailoverPath(w: World, c: Climb, err: PathError)
    ensures var r := EndFailover(w, c, err);
            (if r.result.HealthOk? then Some(r.world.sess.activePath) else None) == NameOf(c.won)
  {
  }

  /** On a stable network Ensure opens the first healthy rung, and fails only if there is none. */
  lemma EnsurePicksFirstHealthy(s: Setup, w: World, token: string, parent: Option<int>)
    requires Stable(s.oracle) && s.cfg.Usable() && s.cfg.enabled && w.sess.state !in {Unset, HandingOver, Closed}
    ensures var e := EnsureSpec(s, w, token, parent);
            PicksFirst(s, s.cfg.order, token, if e.result.EnsureOpened? then Some(e.result.path) else None)
  {
    var deadline := Clip(parent, w.plant.net.now + s.cfg.ladderTimeout);
    LadderPicksFirstHealthy(s, s.cfg.order, w.plant, token, deadline, None);
    var c := EnsureLadder(s, s.cfg.order, w.plant, token, deadline, None);
    var w1 := w.(sess := w.sess.(state := EnterProbing(w.sess.state)));
    assert EnsureSpec(s, w, token, parent) == ClimbSpec(s, w1, token, parent);
    assert ClimbSpec(s, w1, token, parent) == EndEnsure(w1, c);
    EndEnsurePath(w1, c);
  }

  /** The same for a failover, on the order without the failed path (or the whole order if soft). */
  lemma FailoverPicksFirstHealthy(s: Setup, w: World, err: PathError, parent: Option<int>)
    requires Stable(s.oracle)
    ensures var c := FailoverSpec(s, w, err, parent);
            PicksFirst(s, Candidates(s.cfg, w.sess.activePath), "",
                       if c.result.HealthOk? then Some(c.world.sess.activePath) else None)
  {
    var deadline := Clip(parent, w.plant.net.now + s.cfg.ladderTimeout);
    var rungs := Candidates(s.cfg, w.sess.activePath);
    HealthLadderIsEnsureLadder(s, s.cfg.order, w.plant, w.sess.activePath, deadline, None, None);
    LadderPicksFirstHealthy(s, rungs, w.plant, "", deadline, None);
    var c := HealthLadder(s, s.cfg.order, w.plant, w.sess.activePath, deadline, None);
    var w1 := w.(sess := w.sess.(state := After(w.sess.state, Probing)));
    assert FailoverSpec(s, w, err, parent) == ReclimbSpec(s, w1, err, parent);
    assert ReclimbSpec(s, w1, err, parent) == EndFailover(w1, c, err);
    EndFailoverPath(w1, c, err);
  }

  // ----- How long it takes -----

  ghost function LadderBudget(s: Setup): int {
    Min(s.cfg.ladderTimeout, 2 * |s.cfg.order| * s.cfg.probeTimeout)
  }

  ghost function Elapsed(w: World, w': World): int {
    w'.plant.net.now - w.plant.net.now
  }

  /** With calls that respect their deadlines, Ensure ends within the ladder budget and the caller's deadline. */
  lemma EnsureTime(s: Setup, w: World, token: string, parent: Option<int>)
    requires Prompt(s.oracle) && s.cfg.Usable()
    ensures var e := EnsureSpec(s, w, token, parent);
            && 0 <= Elapsed(w, e.world) <= LadderBudget(s)
            && (parent.Some? ==> Elapsed(w, e.world) <= Max(0, parent.value - w.plant.net.now))
  {
    LadderTime(s, s.cfg.order, w.plant, token, Clip(parent, w.plant.net.now + s.cfg.ladderTimeout), None);
    assert 2 * |s.cfg.order| * s.cfg.probeTimeout >= 0;
  }

  /** With calls that respect their deadlines a failover ends within the ladder budget and the caller's deadline. */
  lemma FailoverTime(s: Setup, w: World, err: PathError, parent: Option<int>)
    requires Prompt(s.oracle) && s.cfg.Usable()
    ensures var t := Elapsed(w, FailoverSpec(s, w, err, parent).world);
            && 0 <= t <= LadderBudget(s)
            && (parent.Some? ==> t <= Max(0, parent.value - w.plant.net.now))
  {
    var deadline := Clip(parent, w.plant.net.now + s.cfg.ladderTimeout);
    var rungs := Candidates(s.cfg, w.sess.activePath);
    HealthLadderIsEnsureLadder(s, s.cfg.order, w.plant, w.sess.activePath, deadline, None, None);
    LadderTime(s, rungs, w.plant, "", deadline, None);
    OthersMembers(s.cfg.order, w.sess.activePath);
    Monotone(2 * |rungs|, 2 * |s.cfg.order|, s.cfg.probeTimeout);
    assert 2 * |rungs| * s.cfg.probeTimeout >= 0;
  }

  lemma ReactTime(s: Setup, w: World, probeError: Option<string>, parent: Option<int>)
    requires Prompt(s.oracle) && s.cfg.Usable()
    ensures var t := Elapsed(w, ReactSpec(s, w, probeError, parent).world);
            && 0 <= t <= LadderBudget(s)
            && (parent.Some? ==> t <= Max(0, parent.value - w.plant.net.now))
  {
    BudgetIsPositive(s);
    if probeError.Some? {
      var err := Cause(probeError.value);
      FailoverTime(s, w.(sess := w.sess.(state := Degraded, lastError := Some(err))), err, parent);
    }
  }

  lemma ProbeTime(o: Oracle, net: NetView, path: string, parent: Option<int>, timeout: nat)
    requires Prompt(o)
    ensures var t := ProbeSpec(o, net, path, Clip(parent, net.now + timeout)).net.now - net.now;
            && 0 <= t <= timeout
            && (parent.Some? ==> t <= Max(0, parent.value - net.now))
  {
    var cut := Clip(parent, net.now + timeout);
    assert o(Query(net.calls, ProbeCall, path, "", cut - net.now)).elapsed <= Max(0, cut - net.now);
  }

  lemma BudgetIsPositive(s: Setup)
    requires s.cfg.Usable()
    ensures LadderBudget(s) >= 0
  {
    assert 2 * |s.cfg.order| * s.cfg.probeTimeout >= 0;
  }

  lemma CheckTime(s: Setup, w: World, parent: Option<int>)
    requires Prompt(s.oracle) && s.cfg.Usable()
    ensures var t := Elapsed(w, CheckSpec(s, w, parent).world);
            && 0 <= t <= s.cfg.probeTimeout + LadderBudget(s)
            && (parent.Some? ==> t <= Max(0, parent.value - w.plant.net.now))
  {
    var net := w.plant.net;
    ProbeTime(s.oracle, net, w.sess.activePath, parent, s.cfg.probeTimeout);
    var a := ProbeSpec(s.oracle, net, w.sess.activePath, Clip(parent, net.now + s.cfg.probeTimeout));
    var w1 := w.(plant := w.plant.(net := a.net));
    assert CheckSpec(s, w, parent) == ReactSpec(s, w1, a.error, parent);
    ReactTime(s, w1, a.error, parent);
  }

  /** HealthTick ends within one probe timeout plus the ladder budget, and within the caller's deadline. */
  lemma HealthTime(s: Setup, w: World, parent: Option<int>)
    requires Prompt(s.oracle) && s.cfg.Usable()
    ensures var t := Elapsed(w, HealthSpec(s, w, parent).world);
            && 0 <= t <= s.cfg.probeTimeout + LadderBudget(s)
            && (parent.Some? ==> t <= Max(0, parent.value - w.plant.net.now))
  {
    BudgetIsPositive(s);
    CheckTime(s, w, parent);
  }
}
