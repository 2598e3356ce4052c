// Two sessions on one selector: the adapters' slots are shared, so what one
// session opens can close what the other uses.
module SharedSelector {
  import opened Wrappers
  import opened Transports
  import opened Sessions
  import opened PathConfig
  import opened Selector
  import opened LadderFacts
  import opened SelectorRuns
  import opened SelectorTheorems
  import opened Failovers

  /** Seen from the session of `w`: another session holds `other`, open and in its adapter's slot. */
  ghost predicate OtherHolds(s: Setup, w: World, other: Handle) {
    && s.cfg.Usable() && w.plant.slots.Keys == s.adapters.Keys
    && other.name in s.adapters && w.plant.slots[other.name] == Some(other.session)
    && other.session in w.plant.net.open && other.session < w.plant.net.dialed
    && (forall n :: n in w.plant.slots && n != other.name ==> w.plant.slots[n] != Some(other.session))
    && (w.sess.active.Some? ==> w.sess.active.value.session != other.session)
  }

  lemma ClosedByWinner(s: Setup, p: Plant, c: Climb, token: string, other: Handle, active: Option<Handle>)
    requires Effect(s, p, c.plant, c.won, token)
    requires other.name in p.slots && p.slots[other.name] == Some(other.session)
    requires forall n :: n in p.slots && n != other.name ==> p.slots[n] != Some(other.session)
    requires other.session in p.net.open && other.session < p.net.dialed
    requires active.Some? ==> active.value.session != other.session
    ensures c.won.Some? ==>
              (other.session in Without(c.plant.net.open, SessionOf(active)) <==> c.won.value.name != other.name)
    ensures c.won.None? ==> other.session in c.plant.net.open
  {
  }

  // ----- Ensure -----

  ghost predicate EnsureClimbs(s: Setup, w: World) {
    s.cfg.enabled && w.sess.state !in {Unset, HandingOver, Closed}
  }

  ghost predicate EnsureCloses(s: Setup, w: World, token: string, parent: Option<int>, other: Handle) {
    other.session !in EnsureSpec(s, w, token, parent).world.plant.net.open
  }

  /** An Ensure closes another session's transport just when its ladder wins on that one's path. */
  lemma EnsureClosesByWinning(s: Setup, w: World, token: string, parent: Option<int>, other: Handle)
    requires OtherHolds(s, w, other)
    ensures var deadline := Clip(parent, w.plant.net.now + s.cfg.ladderTimeout);
            var c := EnsureLadder(s, s.cfg.order, w.plant, token, deadline, None);
            EnsureCloses(s, w, token, parent, other) <==> EnsureClimbs(s, w) && NameOf(c.won) == Some(other.name)
  {
    if EnsureClimbs(s, w) {
      var deadline := Clip(parent, w.plant.net.now + s.cfg.ladderTimeout);
      LadderEffect(s, s.cfg.order, w.plant, token, deadline, None);
      var c := EnsureLadder(s, s.cfg.order, w.plant, token, deadline, None);
      var w1 := w.(sess := w.sess.(state := EnterProbing(w.sess.state)));
      assert EnsureSpec(s, w, token, parent) == ClimbSpec(s, w1, token, parent);
      assert ClimbSpec(s, w1, token, parent) == EndEnsure(w1, c);
      ClosedByWinner(s, w.plant, c, token, other, w.sess.active);
      ClosedByWinner(s, w.plant, c, token, other, None);
    }
  }

  ghost predicate EnsureCanClose(s: Setup, o: Oracle, w: World, token: string, parent: Option<int>, other: Handle) {
    EnsureCloses(s.(oracle := o), w, token, parent, other)
  }

  function OnlyPath(name: string): Oracle {
    (q: Query) => Answer(if q.path == name then None else Some("down"), 0)
  }

  ghost predicate EnsureMayClose(s: Setup, w: World, token: string, path: string) {
    EnsureClimbs(s, w) && path in s.cfg.order && path in s.adapters && (s.adapters[path] ==> token != "")
  }

  lemma EnsureClosesOnly(s: Setup, w: World, token: string, parent: Option<int>, other: Handle)
    requires OtherHolds(s, w, other) && EnsureCloses(s, w, token, parent, other)
    ensures EnsureMayClose(s, w, token, other.name)
  {
    EnsureClosesByWinning(s, w, token, parent, other);
    LadderEffect(s, s.cfg.order, w.plant, token, Clip(parent, w.plant.net.now + s.cfg.ladderTimeout), None);
  }

  lemma EnsureClosesIfAlone(s: Setup, w: World, token: string, parent: Option<int>, other: Handle)
    requires OtherHolds(s, w, other) && EnsureMayClose(s, w, token, other.name) && OnlyFrom(s.oracle, 0, other.name)
    ensures EnsureCloses(s, w, token, parent, other)
  {
    EnsureClosesByWinning(s, w, token, parent, other);
    LadderReaches(s, s.cfg.order, w.plant, token, Clip(parent, w.plant.net.now + s.cfg.ladderTimeout), None,
                  other.name);
  }

  /**
   * An Ensure can close another session's transport exactly if it runs its
   * ladder, the other's path is in the order and Ensure has a token or the
   * path needs none. Otherwise the other session is safe on every network.
   */
  lemma EnsureInterference(s: Setup, w: World, token: string, parent: Option<int>, other: Handle)
    requires OtherHolds(s, w, other)
    ensures (exists o: Oracle :: EnsureCanClose(s, o, w, token, parent, other))
        <==> EnsureMayClose(s, w, token, other.name)
  {
    if o: Oracle :| EnsureCanClose(s, o, w, token, parent, other) {
      EnsureClosesOnly(s.(oracle := o), w, token, parent, other);
    }
    if EnsureMayClose(s, w, token, other.name) {
      var o := OnlyPath(other.name);
      EnsureClosesIfAlone(s.(oracle := o), w, token, parent, other);
      assert EnsureCanClose(s, o, w, token, parent, other);
    }
  }

  ghost predicate FirstHealthyIs(s: Setup, order: seq<string>, token: string, name: string) {
    exists i :: IsFirstHealthy(s, order, token, i) && order[i] == name
  }

  lemma WinnerIsFirstHealthy(s: Setup, order: seq<string>, token: string, won: Option<string>, name: string)
    requires PicksFirst(s, order, token, won)
    ensures won == Some(name) <==> FirstHealthyIs(s, order, token, name)
  {
    if i :| IsFirstHealthy(s, order, token, i) && order[i] == name {
      assert order[i] in order;
      var j :| IsFirstHealthy(s, order, token, j) && won.value == order[j];
      assert i == j;
    }
  }

  /** On a stable network it does so exactly if the other's path is the first healthy rung. */
  lemma EnsureInterferenceStable(s: Setup, w: World, token: string, parent: Option<int>, other: Handle)
    requires OtherHolds(s, w, other) && Stable(s.oracle)
    ensures EnsureCloses(s, w, token, parent, other)
        <==> EnsureClimbs(s, w) && FirstHealthyIs(s, s.cfg.order, token, other.name)
  {
    var deadline := Clip(parent, w.plant.net.now + s.cfg.ladderTimeout);
    EnsureClosesByWinning(s, w, token, parent, other);
    LadderPicksFirstHealthy(s, s.cfg.order, w.plant, token, deadline, None);
    var c := EnsureLadder(s, s.cfg.order, w.plant, token, deadline, None);
    WinnerIsFirstHealthy(s, s.cfg.order, token, NameOf(c.won), other.name);
  }

  // ----- HealthTick -----

  ghost predicate HealthCloses(s: Setup, w: World, parent: Option<int>, other: Handle) {
    other.session !in HealthSpec(s, w, parent).world.plant.net.open
  }

  lemma FailoverClosesByWinning(s: Setup, w: World, err: PathError, parent: Option<int>, other: Handle)
    requires OtherHolds(s, w, other)
    ensures var c := FailoverSpec(s, w, err, parent);
            other.session !in c.world.plant.net.open <==> c.result.HealthOk? && c.world.sess.activePath == other.name
  {
    FailoverWins(s, w, err, parent);
    var deadline := Clip(parent, w.plant.net.now + s.cfg.ladderTimeout);
    var e := EnsureLadder(s, Candidates(s.cfg, w.sess.activePath), w.plant, "", deadline, None);
    ClosedByWinner(s, w.plant, e, "", other, w.sess.active);
  }

  /** A HealthTick closes another session's transport just when it fails over to that one's path. */
  lemma HealthClosesByFailover(s: Setup, w: World, parent: Option<int>, other: Handle)
    requires OtherHolds(s, w, other)
    ensures HealthCloses(s, w, parent, other)
        <==> FailsOver(s, w, parent) && HealthSpec(s, w, parent).world.sess.activePath == other.name
  {
    HealthSplit(s, w, parent);
    if Reladders(s, w, parent) {
      var err := Cause(Checkup(s, w, parent).error.value);
      var v := Ailing(s, w, parent, err);
      FailoverClosesByWinning(s, v, err, parent, other);
      FailoverWins(s, v, err, parent);
    }
  }

  ghost predicate HealthCanClose(s: Setup, o: Oracle, w: World, parent: Option<int>, other: Handle) {
    HealthCloses(s.(oracle := o), w, parent, other)
  }

  /**
   * A HealthTick can close another session's transport exactly if it acts and
   * the other's path is a candidate that needs no token. In particular a
   * session on a path that needs a token is safe from every HealthTick.
   */
  lemma HealthInterference(s: Setup, w: World, parent: Option<int>, other: Handle)
    requires OtherHolds(s, w, other)
    ensures (exists o: Oracle :: HealthCanClose(s, o, w, parent, other))
        <==> Acts(s, w) && Target(s, w.sess.activePath, other.name)
  {
    FailoverReachable(s, w, parent, other.name);
    if o: Oracle :| HealthCanClose(s, o, w, parent, other) {
      HealthClosesByFailover(s.(oracle := o), w, parent, other);
      assert CanFailOver(s, o, w, parent, other.name);
    }
    if o: Oracle :| CanFailOver(s, o, w, parent, other.name) {
      HealthClosesByFailover(s.(oracle := o), w, parent, other);
      assert HealthCanClose(s, o, w, parent, other);
    }
  }

  /**
   * On a stable network it does so exactly if it runs its ladder and the
   * other's path is the first healthy candidate.
   */
  lemma HealthInterferenceStable(s: Setup, w: World, parent: Option<int>, other: Handle)
    requires OtherHolds(s, w, other) && Stable(s.oracle)
    ensures HealthCloses(s, w, parent, other)
        <==> Reladders(s, w, parent) && FirstHealthyIs(s, Candidates(s.cfg, w.sess.activePath), "", other.name)
  {
    HealthSplit(s, w, parent);
    if Reladders(s, w, parent) {
      var err := Cause(Checkup(s, w, parent).error.value);
      var v := Ailing(s, w, parent, err);
      var rungs := Candidates(s.cfg, w.sess.activePath);
      FailoverClosesByWinning(s, v, err, parent, other);
      FailoverPicksFirstHealthy(s, v, err, parent);
      var c := FailoverSpec(s, v, err, parent);
      WinnerIsFirstHealthy(s, rungs, "", if c.result.HealthOk? then Some(c.world.sess.activePath) else None,
                           other.name);
    }
  }
}
