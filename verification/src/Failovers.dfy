// When a failover can happen at all and where it leads, for one HealthTick
// and for whole runs.
module Failovers {
  import opened Wrappers
  import opened Transports
  import opened Sessions
  import opened PathConfig
  import opened Selector
  import opened LadderFacts
  import opened SelectorRuns

  // ----- HealthTick taken apart -----

  /** HealthTick probes: the selector is enabled and the session sits on a registered path. */
  ghost predicate Acts(s: Setup, w: World) {
    && s.cfg.enabled && w.sess.state in {PathSelected, Degraded}
    && w.sess.activePath != "" && w.sess.activePath in s.adapters
  }

  ghost function Checkup(s: Setup, w: World, parent: Option<int>): Asked {
    ProbeSpec(s.oracle, w.plant.net, w.sess.activePath, Clip(parent, w.plant.net.now + s.cfg.probeTimeout))
  }

  /** HealthTick runs its ladder: it probes, the probe fails, and no failover was made within the cooldown. */
  ghost predicate Reladders(s: Setup, w: World, parent: Option<int>) {
    Acts(s, w) && var a := Checkup(s, w, parent); a.error.Some? && !CoolingDown(s, w.sess, a.net.now)
  }

  /** The world in which HealthTick's ladder starts. */
  ghost function Ailing(s: Setup, w: World, parent: Option<int>, cause: PathError): World {
    w.(plant := w.plant.(net := Checkup(s, w, parent).net),
       sess := w.sess.(state := Degraded, lastError := Some(cause)))
  }

  /** No session was opened or closed, no slot, handle or path changed, and nothing but failures was counted. */
  ghost predicate KeepsPath(w: World, w': World) {
    && w'.plant.slots == w.plant.slots && w'.plant.net.open == w.plant.net.open
    && w'.plant.net.dialed == w.plant.net.dialed && w'.plant.net.failovers == w.plant.net.failovers
    && w'.sess.active == w.sess.active && w'.sess.activePath == w.sess.activePath
    && w'.sess.lastFailover == w.sess.lastFailover
    && w'.counters.failovers == w.counters.failovers && w'.counters.selected == w.counters.selected
  }

  lemma HealthSplit(s: Setup, w: World, parent: Option<int>)
    ensures Reladders(s, w, parent) ==>
              var err := Cause(Checkup(s, w, parent).error.value);
              var v := Ailing(s, w, parent, err);
              KeepsPath(w, v) && HealthSpec(s, w, parent) == FailoverSpec(s, v, err, parent)
    ensures !Reladders(s, w, parent) ==> KeepsPath(w, HealthSpec(s, w, parent).world)
  {
    if Acts(s, w) {
      ProbeEffect(s.oracle, w.plant.net, w.sess.activePath, Clip(parent, w.plant.net.now + s.cfg.probeTimeout));
      var a := Checkup(s, w, parent);
      var w1 := w.(plant := w.plant.(net := a.net));
      assert HealthSpec(s, w, parent) == ReactSpec(s, w1, a.error, parent);
    }
  }

  // ----- When a failover can happen -----

  /** A failover may go to `name`: the ladder tries it, it is registered, and it needs no token. */
  ghost predicate Target(s: Setup, activePath: string, name: string) {
    name in Candidates(s.cfg, activePath) && name in s.adapters && !s.adapters[name]
  }

  ghost predicate FailsOver(s: Setup, w: World, parent: Option<int>) {
    HealthSpec(s, w, parent).world.counters.failovers != w.counters.failovers
  }

  /** The failover half switches just when its ladder has a winner, and the winner is then the active path. */
  lemma FailoverWins(s: Setup, w: World, err: PathError, parent: Option<int>)
    requires w.plant.slots.Keys == s.adapters.Keys
    ensures var c := FailoverSpec(s, w, err, parent);
            var deadline := Clip(parent, w.plant.net.now + s.cfg.ladderTimeout);
            var e := EnsureLadder(s, Candidates(s.cfg, w.sess.activePath), w.plant, "", deadline, None);
            && (c.result.HealthOk? <==> e.won.Some?)
            && (c.result.HealthOk? ==>
                  && c.world.counters.failovers == w.counters.failovers + 1
                  && c.world.sess.activePath == e.won.value.name && Target(s, w.sess.activePath, e.won.value.name)
                  && c.world.plant.net.open == Without(e.plant.net.open, SessionOf(w.sess.active)))
            && (!c.result.HealthOk? ==> KeepsPath(w, c.world))
            && Effect(s, w.plant, e.plant, e.won, "")
  {
    var deadline := Clip(parent, w.plant.net.now + s.cfg.ladderTimeout);
    var rungs := Candidates(s.cfg, w.sess.activePath);
    HealthLadderIsEnsureLadder(s, s.cfg.order, w.plant, w.sess.activePath, deadline, None, None);
    LadderEffect(s, rungs, w.plant, "", deadline, None);
    var c := HealthLadder(s, s.cfg.order, w.plant, w.sess.activePath, deadline, None);
    var w1 := w.(sess := w.sess.(state := After(w.sess.state, Probing)));
    assert FailoverSpec(s, w, err, parent) == EndFailover(w1, c, err);
    EndOfFailover(s, w1, c, err);
  }

  lemma EndOfFailover(s: Setup, w: World, c: Climb, err: PathError)
    requires Effect(s, w.plant, c.plant, c.won, "")
    ensures var r := EndFailover(w, c, err);
            && (r.result.HealthOk? <==> c.won.Some?)
            && (c.won.None? ==> KeepsPath(w, r.world))
            && (c.won.Some? ==>
                  && r.world.counters.failovers == w.counters.failovers + 1
                  && r.world.sess.activePath == c.won.value.name
                  && r.world.plant.net.open == Without(c.plant.net.open, SessionOf(w.sess.active)))
  {
  }

  /** Every call fails, the first one after `wait`; from the second on those on `name` succeed. */
  function FirstFails(k: nat, wait: nat, name: string): Oracle {
    (q: Query) => if q.index <= k then Answer(Some("down"), wait)
                  else Answer(if q.path == name then None else Some("down"), 0)
  }

  ghost predicate CanFailOver(s: Setup, o: Oracle, w: World, parent: Option<int>, name: string) {
    var s' := s.(oracle := o);
    FailsOver(s', w, parent) && HealthSpec(s', w, parent).world.sess.activePath == name
  }

  /**
   * There is a network on which HealthTick fails over to `name` exactly if it
   * acts at all and `name` is a registered candidate that needs no token.
   */
  lemma FailoverReachable(s: Setup, w: World, parent: Option<int>, name: string)
    requires w.plant.slots.Keys == s.adapters.Keys
    ensures (exists o: Oracle :: CanFailOver(s, o, w, parent, name))
        <==> Acts(s, w) && Target(s, w.sess.activePath, name)
  {
    if o: Oracle :| CanFailOver(s, o, w, parent, name) {
      OnlyToTargets(s.(oracle := o), w, parent);
    }
    if Acts(s, w) && Target(s, w.sess.activePath, name) {
      Reaches(s, w, parent, name);
    }
  }

  /** A failover is made only by a HealthTick that runs its ladder, and leads to a target. */
  lemma OnlyToTargets(s: Setup, w: World, parent: Option<int>)
    requires w.plant.slots.Keys == s.adapters.Keys
    ensures FailsOver(s, w, parent) ==>
              Reladders(s, w, parent) && Target(s, w.sess.activePath, HealthSpec(s, w, parent).world.sess.activePath)
    ensures !FailsOver(s, w, parent) ==> KeepsPath(w, HealthSpec(s, w, parent).world)
  {
    HealthSplit(s, w, parent);
    if Reladders(s, w, parent) {
      var err := Cause(Checkup(s, w, parent).error.value);
      FailoverWins(s, Ailing(s, w, parent, err), err, parent);
    }
  }

  function CooldownLeft(s: Setup, w: World): nat {
    if w.sess.lastFailover.Some? then Max(0, w.sess.lastFailover.value + s.cfg.failoverCooldown - w.plant.net.now)
    else 0
  }

  /** If from the first ladder call on exactly `name` answers, HealthTick's ladder goes there. */
  lemma FailsOverTo(s: Setup, w: World, parent: Option<int>, name: string)
    requires w.plant.slots.Keys == s.adapters.Keys && Reladders(s, w, parent) && Target(s, w.sess.activePath, name)
    requires OnlyFrom(s.oracle, w.plant.net.calls + 1, name)
    ensures FailsOver(s, w, parent) && HealthSpec(s, w, parent).world.sess.activePath == name
  {
    HealthSplit(s, w, parent);
    var err := Cause(Checkup(s, w, parent).error.value);
    var v := Ailing(s, w, parent, err);
    assert v.plant.net.calls == w.plant.net.calls + 1;
    FailoverWins(s, v, err, parent);
    LadderReaches(s, Candidates(s.cfg, w.sess.activePath), v.plant, "",
                  Clip(parent, v.plant.net.now + s.cfg.ladderTimeout), None, name);
  }

  lemma FirstFailsReladders(s: Setup, w: World, parent: Option<int>, name: string)
    requires Acts(s, w) && s.oracle == FirstFails(w.plant.net.calls, CooldownLeft(s, w), name)
    ensures Reladders(s, w, parent) && OnlyFrom(s.oracle, w.plant.net.calls + 1, name)
  {
    var a := Checkup(s, w, parent);
    assert a.error == Some("down") && a.net.now == w.plant.net.now + CooldownLeft(s, w);
  }

  lemma Reaches(s: Setup, w: World, parent: Option<int>, name: string)
    requires w.plant.slots.Keys == s.adapters.Keys && Acts(s, w) && Target(s, w.sess.activePath, name)
    ensures CanFailOver(s, FirstFails(w.plant.net.calls, CooldownLeft(s, w), name), w, parent, name)
  {
    var s' := s.(oracle := FirstFails(w.plant.net.calls, CooldownLeft(s, w), name));
    FirstFailsReladders(s', w, parent, name);
    FailsOverTo(s', w, parent, name);
  }

  // ----- Where the failovers of a run lead -----

  /** The k-th operation of a run made a failover. */
  ghost predicate FailoverAt(s: Setup, w: World, ops: seq<Op>, k: nat)
    requires k < |ops|
  {
    Run(s, w, ops[..k + 1]).plant.net.failovers != Run(s, w, ops[..k]).plant.net.failovers
  }

  lemma RunSplit(s: Setup, w: World, ops: seq<Op>, k: nat)
    requires k < |ops|
    ensures Run(s, w, ops[..k + 1]) == Step(s, Run(s, w, ops[..k]), ops[k])
  {
    assert ops[..k + 1][..k] == ops[..k];
  }

  /**
   * Every failover of every run is made by a HealthTick and leads to a
   * registered path of the order that needs no token, under hard failure not
   * the one that failed.
   */
  lemma FailoverTarget(s: Setup, w: World, ops: seq<Op>, k: nat)
    requires Initial(s, w) && k < |ops| && FailoverAt(s, w, ops, k)
    ensures ops[k].DoHealth?
    ensures Target(s, Run(s, w, ops[..k]).sess.activePath, Run(s, w, ops[..k + 1]).sess.activePath)
  {
    RunSplit(s, w, ops, k);
    RunSound(s, w, ops[..k]);
    var v := Run(s, w, ops[..k]);
    match ops[k]
    case DoEnsure(token, parent) => EnsureMakesNone(s, v, token, parent);
    case DoHealth(parent) => OnlyToTargets(s, v, parent);
    case DoClear =>
    case Wait(_) =>
  }

  lemma EnsureMakesNone(s: Setup, w: World, token: string, parent: Option<int>)
    requires w.plant.slots.Keys == s.adapters.Keys
    ensures EnsureSpec(s, w, token, parent).world.plant.net.failovers == w.plant.net.failovers
  {
    LadderEffect(s, s.cfg.order, w.plant, token, Clip(parent, w.plant.net.now + s.cfg.ladderTimeout), None);
  }

  /**
   * With the two production adapters and hard failure every failover of
   * every run leaves relay_quic for grpc_tunnel: a session on the tunnel
   * stays there until the next Ensure.
   */
  lemma TunnelCannotFailOver(s: Setup, w: World, ops: seq<Op>, k: nat)
    requires Initial(s, w) && k < |ops| && FailoverAt(s, w, ops, k)
    requires s.adapters == PRODUCTION && !s.cfg.softFail
    ensures Run(s, w, ops[..k]).sess.activePath == PATH_RELAY_QUIC
    ensures Run(s, w, ops[..k + 1]).sess.activePath == PATH_GRPC_TUNNEL
  {
    FailoverTarget(s, w, ops, k);
    OthersMembers(s.cfg.order, Run(s, w, ops[..k]).sess.activePath);
    RunSound(s, w, ops[..k]);
    RunSplit(s, w, ops, k);
    OnlyToTargets(s, Run(s, w, ops[..k]), ops[k].parent);
  }

  /** A HealthTick on the tunnel keeps path, handle and sessions in any world, reachable or not. */
  lemma TunnelIsKept(s: Setup, w: World, parent: Option<int>)
    requires w.plant.slots.Keys == s.adapters.Keys
    requires s.adapters == PRODUCTION && !s.cfg.softFail
    requires w.sess.activePath == PATH_GRPC_TUNNEL
    ensures KeepsPath(w, HealthSpec(s, w, parent).world)
  {
    OnlyToTargets(s, w, parent);
    OthersMembers(s.cfg.order, w.sess.activePath);
  }
}
