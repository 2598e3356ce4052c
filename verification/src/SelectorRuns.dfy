// Whole runs of one session on one selector, in every environment: any
// interleaving of Ensure, HealthTick, ClearActive and waiting.
module SelectorRuns {
  import opened Wrappers
  import opened Transports
  import opened Sessions
  import opened PathConfig
  import opened Selector
  import opened LadderFacts
  import opened Spacing

  datatype Op =
    | DoEnsure(token: string, parent: Option<int>)
    | DoHealth(parent: Option<int>)
    | DoClear
    | Wait(ns: nat)

  ghost function Step(s: Setup, w: World, op: Op): World {
    match op
    case DoEnsure(token, parent) => EnsureSpec(s, w, token, parent).world
    case DoHealth(parent) => HealthSpec(s, w, parent).world
    case DoClear =>
      w.(sess := w.sess.(active := None, activePath := ""),
         plant := w.plant.(net := w.plant.net.(open := Without(w.plant.net.open, SessionOf(w.sess.active)))))
    case Wait(ns) => w.(plant := w.plant.(net := w.plant.net.(now := w.plant.net.now + ns)))
  }

  ghost function Run(s: Setup, w: World, ops: seq<Op>): World {
    if ops == [] then w else Step(s, Run(s, w, ops[..|ops| - 1]), ops[|ops| - 1])
  }

  /** A selector as constructed, and a session no ladder has touched yet. */
  ghost predicate Initial(s: Setup, w: World) {
    && s.cfg.Usable()
    && w.sess.state !in {PathSelected, Degraded, Failed}
    && w.sess.activePath == "" && w.sess.active == None
    && w.sess.lastError == None && w.sess.lastFailover == None
    && w.plant.slots == (map n | n in s.adapters :: None)
    && w.plant.net.open == {} && w.plant.net.dialed == 0 && w.plant.net.log == [] && w.plant.net.failovers == []
    && w.counters == Counters(0, 0, 0)
  }

  method NewDefaultPaths() returns (paths: seq<TransportPath>)
    ensures |paths| == 2 && paths[0].active == None && paths[1].active == None
    ensures paths[0].name == PATH_RELAY_QUIC && paths[0].needsToken
    ensures paths[1].name == PATH_GRPC_TUNNEL && !paths[1].needsToken
  {
    var relay := new TransportPath(PATH_RELAY_QUIC, true);
    var tunnel := new TransportPath(PATH_GRPC_TUNNEL, false);
    paths := [relay, tunnel];
  }

  method NewProductionSelector(cfg: Config, net: Network, metrics: Metrics) returns (sel: LadderSelector)
    ensures sel.Valid() && sel.net == net && sel.metrics == metrics && sel.cfg == cfg.Normalize()
    ensures sel.Fixed().adapters == PRODUCTION && forall n :: n in sel.paths ==> sel.paths[n].active == None
  {
    var paths := NewDefaultPaths();
    sel := new LadderSelector(cfg, paths, net, metrics);
    assert sel.paths[paths[0].name] == paths[0] && sel.paths[paths[1].name] == paths[1];
    assert sel.paths.Keys == {PATH_RELAY_QUIC, PATH_GRPC_TUNNEL};
  }

  /** The selector of a client configuration; without one it has no adapters. */
  method NewSelectorFromConfig(cfg: Option<Config>, net: Network, metrics: Metrics) returns (sel: LadderSelector)
    ensures sel.Valid() && sel.net == net && sel.metrics == metrics
    ensures sel.cfg == (if cfg.Some? then cfg.value.Normalize() else DefaultConfig())
    ensures sel.Fixed().adapters == if cfg.Some? then PRODUCTION else map[]
    ensures forall n :: n in sel.paths ==> sel.paths[n].active == None
  {
    if cfg.Some? {
      sel := NewProductionSelector(cfg.value, net, metrics);
    } else {
      sel := new LadderSelector(DefaultConfig(), [], net, metrics);
    }
  }

  /** A new client starts every run: its selector and a new session make an initial world. */
  method NewClient(cfg: Option<Config>, oracle: Oracle, start: int) returns (sel: LadderSelector, sess: Session)
    ensures sel.Valid() && Initial(sel.Fixed(), sel.View(sess))
    ensures sel.Fixed() == Setup(if cfg.Some? then cfg.value.Normalize() else DefaultConfig(),
                                 if cfg.Some? then PRODUCTION else map[], oracle)
  {
    var net := new Network(oracle, start);
    var metrics := new Metrics();
    sess := new Session();
    sel := NewSelectorFromConfig(cfg, net, metrics);
    assert sel.Slots() == map n | n in sel.Fixed().adapters :: None;
  }

  // ----- Ownership -----

  function IdsOf(h: Option<Handle>): set<nat> {
    if h.Some? then {h.value.session} else {}
  }

  /**
   * The open sessions are exactly the one behind the active handle, which
   * also sits in its adapter's slot; every other slot is empty or holds a
   * session that has been closed.
   */
  ghost predicate Owned(p: Plant, active: Option<Handle>) {
    && p.net.open == IdsOf(active)
    && (forall n :: n in p.slots && p.slots[n].Some? ==> p.slots[n].value < p.net.dialed)
    && (forall n :: n in p.slots && p.slots[n].Some? && p.slots[n].value in p.net.open ==>
          active == Some(Handle(n, p.slots[n].value)))
    && (active.Some? ==>
          active.value.name in p.slots && p.slots[active.value.name] == Some(active.value.session))
  }

  lemma LadderOwned(s: Setup, p: Plant, p': Plant, won: Option<Handle>, token: string, active: Option<Handle>)
    requires Owned(p, active) && Effect(s, p, p', won, token)
    ensures won.None? ==> Owned(p', active)
    ensures won.Some? ==> active != won
    ensures won.Some? ==> Owned(p'.(net := p'.net.(open := Without(p'.net.open, SessionOf(active)))), won)
  {
  }

  // ----- The run invariant -----

  ghost predicate Paced(s: Setup, w: World) {
    var f := w.plant.net.failovers;
    && Spaced(f, s.cfg.failoverCooldown)
    && w.sess.lastFailover == (if f == [] then None else Some(f[|f| - 1]))
    && (f != [] ==> f[|f| - 1] <= w.plant.net.now)
    && w.counters.failovers == |f|
    && w.counters.selected == w.plant.net.dialed
  }

  ghost predicate Labelled(s: Setup, w: World) {
    && (w.sess.active.None? ==> w.sess.activePath == "")
    && (w.sess.active.Some? ==> w.sess.activePath == w.sess.active.value.name && w.sess.activePath in s.cfg.order)
    && (w.sess.state in {Degraded, Failed} ==> w.sess.lastError.Some?)
  }

  ghost predicate Sound(s: Setup, w: World) {
    && s.cfg.Usable()
    && w.plant.slots.Keys == s.adapters.Keys
    && Owned(w.plant, w.sess.active)
    && Labelled(s, w)
    && Paced(s, w)
  }

  /** The selected and the degraded states hold a handle. */
  ghost predicate Live(w: World) {
    w.sess.state in {PathSelected, Degraded} ==> w.sess.active.Some?
  }

  lemma EndEnsureSound(s: Setup, w: World, c: Climb, token: string)
    requires Sound(s, w) && w.sess.state == Probing
    requires Effect(s, w.plant, c.plant, c.won, token)
    requires c.won.Some? ==> c.won.value.name in s.cfg.order
    requires c.won.None? ==> c.lastError.Some?
    ensures var w' := EndEnsure(w, c).world;
            Sound(s, w') && Live(w') && w'.sess.state in {PathSelected, Failed}
  {
    LadderOwned(s, w.plant, c.plant, c.won, token, w.sess.active);
  }

  lemma EnsureSound(s: Setup, w: World, token: string, parent: Option<int>)
    requires Sound(s, w)
    ensures Sound(s, EnsureSpec(s, w, token, parent).world)
    ensures Live(w) ==> Live(EnsureSpec(s, w, token, parent).world)
  {
    var w1 := w.(sess := w.sess.(state := EnterProbing(w.sess.state)));
    if s.cfg.enabled && w1.sess.state == Probing {
      assert EnsureSpec(s, w, token, parent) == ClimbSpec(s, w1, token, parent);
      var deadline := Clip(parent, w.plant.net.now + s.cfg.ladderTimeout);
      LadderEffect(s, s.cfg.order, w.plant, token, deadline, None);
      var c := EnsureLadder(s, s.cfg.order, w.plant, token, deadline, None);
      assert ClimbSpec(s, w1, token, parent) == EndEnsure(w1, c);
      EndEnsureSound(s, w1, c, token);
    }
  }

  /** HealthTick's ladder has the effect of a token-less ladder on the candidate rungs. */
  lemma HealthLadderEffect(s: Setup, p: Plant, activePath: string, deadline: int)
    requires p.slots.Keys == s.adapters.Keys
    ensures var c := HealthLadder(s, s.cfg.order, p, activePath, deadline, None);
            && Effect(s, p, c.plant, c.won, "")
            && (c.won.Some? ==> c.won.value.name in s.cfg.order)
            && (c.won.Some? && !s.cfg.softFail ==> c.won.value.name != activePath)
  {
    HealthLadderIsEnsureLadder(s, s.cfg.order, p, activePath, deadline, None, None);
    LadderEffect(s, Candidates(s.cfg, activePath), p, "", deadline, None);
    OthersMembers(s.cfg.order, activePath);
  }

  lemma EndFailoverSound(s: Setup, w: World, c: Climb, err: PathError)
    requires Sound(s, w) && w.sess.state == Probing
    requires !CoolingDown(s, w.sess, w.plant.net.now)
    requires Effect(s, w.plant, c.plant, c.won, "")
    requires c.won.Some? ==> c.won.value.name in s.cfg.order
    ensures var w' := EndFailover(w, c, err).world;
            Sound(s, w') && Live(w') && w'.sess.state in {PathSelected, Failed}
  {
    LadderOwned(s, w.plant, c.plant, c.won, "", w.sess.active);
    if c.won.Some? {
      var net := c.plant.net.(open := Without(c.plant.net.open, SessionOf(w.sess.active)));
      SpacedAppend(net.failovers, s.cfg.failoverCooldown, net.now);
    }
  }

  lemma SpacedAppend(ts: seq<int>, gap: int, t: int)
    requires Spaced(ts, gap) && (ts != [] ==> t - ts[|ts| - 1] >= gap)
    ensures Spaced(ts + [t], gap)
  {
  }

  lemma FailoverSound(s: Setup, w: World, err: PathError, parent: Option<int>)
    requires Sound(s, w) && w.sess.state == Degraded
    requires !CoolingDown(s, w.sess, w.plant.net.now)
    ensures var w' := FailoverSpec(s, w, err, parent).world;
            Sound(s, w') && Live(w') && w'.sess.state in {PathSelected, Failed}
  {
    var deadline := Clip(parent, w.plant.net.now + s.cfg.ladderTimeout);
    HealthLadderEffect(s, w.plant, w.sess.activePath, deadline);
    var c := HealthLadder(s, s.cfg.order, w.plant, w.sess.activePath, deadline, None);
    var w1 := w.(sess := w.sess.(state := Probing));
    assert FailoverSpec(s, w, err, parent) == EndFailover(w1, c, err);
    EndFailoverSound(s, w1, c, err);
  }

  lemma ReactSound(s: Setup, w: World, probeError: Option<string>, parent: Option<int>)
    requires Sound(s, w) && w.sess.state in {PathSelected, Degraded}
    ensures var w' := ReactSpec(s, w, probeError, parent).world;
            Sound(s, w') && (Live(w) ==> Live(w')) && w'.sess.state in {PathSelected, Degraded, Failed}
    ensures ReactSpec(s, w, probeError, parent).result != HealthNotRegistered
  {
    if probeError.Some? {
      var err := Cause(probeError.value);
      var w' := w.(sess := w.sess.(state := Degraded, lastError := Some(err)));
      if !CoolingDown(s, w'.sess, w'.plant.net.now) {
        FailoverSound(s, w', err, parent);
      }
    }
  }

  lemma ProbedSound(s: Setup, w: World, path: string, deadline: int)
    requires Sound(s, w)
    ensures Sound(s, w.(plant := w.plant.(net := ProbeSpec(s.oracle, w.plant.net, path, deadline).net)))
  {
    ProbeEffect(s.oracle, w.plant.net, path, deadline);
  }

  /** An active path is registered, so HealthTick never reports otherwise. */
  lemma HealthSound(s: Setup, w: World, parent: Option<int>)
    requires Sound(s, w)
    ensures var Checked(w', r) := HealthSpec(s, w, parent);
            && Sound(s, w') && (Live(w) ==> Live(w')) && r != HealthNotRegistered
            && (w.sess.state in {PathSelected, Degraded} ==> w'.sess.state in {PathSelected, Degraded, Failed})
            && (w.sess.state !in {PathSelected, Degraded} ==> w' == w)
  {
    if s.cfg.enabled && w.sess.state in {PathSelected, Degraded} && w.sess.activePath != "" {
      var net := w.plant.net;
      var cut := Clip(parent, net.now + s.cfg.probeTimeout);
      ProbedSound(s, w, w.sess.activePath, cut);
      var a := ProbeSpec(s.oracle, net, w.sess.activePath, cut);
      var w1 := w.(plant := w.plant.(net := a.net));
      assert HealthSpec(s, w, parent) == ReactSpec(s, w1, a.error, parent);
      ReactSound(s, w1, a.error, parent);
    }
  }

  lemma StepSound(s: Setup, w: World, op: Op)
    requires Sound(s, w)
    ensures Sound(s, Step(s, w, op))
    ensures op != DoClear && Live(w) ==> Live(Step(s, w, op))
  {
    match op
    case DoEnsure(token, parent) => EnsureSound(s, w, token, parent);
    case DoHealth(parent) => HealthSound(s, w, parent);
    case DoClear =>
    case Wait(ns) =>
  }

  lemma {:induction false} RunSound(s: Setup, w: World, ops: seq<Op>)
    requires Initial(s, w)
    ensures Sound(s, Run(s, w, ops))
    ensures DoClear !in ops ==> Live(Run(s, w, ops))
  {
    if ops != [] {
      var k := |ops| - 1;
      RunSound(s, w, ops[..k]);
      StepSound(s, Run(s, w, ops[..k]), ops[k]);
    }
  }
}
