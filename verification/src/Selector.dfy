// The ladder selector: Ensure and HealthTick as methods on mutable objects,
// each tied to a function on snapshots of those objects.
module Selector {
  import opened Wrappers
  import opened Transports
  import opened Sessions
  import opened PathConfig

  /** What never changes during the life of a selector. */
  datatype Setup = Setup(cfg: Config, adapters: map<string, bool>, oracle: Oracle)

  /** The part of the state a ladder works on: the network and the adapters' slots. */
  datatype Plant = Plant(net: NetView, slots: map<string, Option<nat>>)

  datatype Counters = Counters(selected: nat, failed: nat, failovers: nat)

  datatype World = World(sess: SessionView, plant: Plant, counters: Counters)

  datatype EnsureResult =
    | EnsureOpened(path: string, handle: Handle)
    | EnsureDisabled
    | EnsureNoPaths
    | EnsureBadState
    | EnsureAllFailed(cause: PathError)

  datatype HealthResult =
    | HealthOk
    | HealthDisabled
    | HealthNotRegistered
    | HealthProbeFailed(cause: PathError)
    | HealthAllFailed(cause: PathError)

  datatype Tried = Tried(plant: Plant, attempt: Attempt)

  datatype Ensured = Ensured(world: World, result: EnsureResult)

  datatype Checked = Checked(world: World, result: HealthResult)

  datatype Climb = Climb(plant: Plant, won: Option<Handle>, lastError: Option<PathError>)

  /** The cause reported when a ladder ends without any error of its own. */
  const ALL_PATHS_FAILED := Cause("all paths failed")

  /** The adapters of the client, and whether they need a token. */
  const PRODUCTION: map<string, bool> := map[PATH_RELAY_QUIC := true, PATH_GRPC_TUNNEL := false]

  function Clip(parent: Option<int>, deadline: int): int {
    if parent.Some? then Min(parent.value, deadline) else deadline
  }

  ghost function OpenRung(s: Setup, p: Plant, name: string, token: string, deadline: int): Tried
    requires name in s.adapters
  {
    var slot := if name in p.slots then p.slots[name] else None;
    var d := OpenSpec(s.oracle, p.net, slot, name, s.adapters[name], token, deadline);
    Tried(Plant(d.net, p.slots[name := d.slot]), d.attempt)
  }

  /** Probe a registered rung and, if that succeeds, open it. */
  ghost function AttemptSpec(s: Setup, p: Plant, name: string, token: string, deadline: int): Tried
    requires name in s.adapters
  {
    var a := ProbeSpec(s.oracle, p.net, name, Min(deadline, p.net.now + s.cfg.probeTimeout));
    if a.error.Some? then
      Tried(p.(net := a.net), LostProbe(a.error.value))
    else
      OpenRung(s, p.(net := a.net), name, token, Min(deadline, a.net.now + s.cfg.probeTimeout))
  }

  // ----- Ensure's ladder -----

  ghost function EnsureLadder(s: Setup, order: seq<string>, p: Plant, token: string, deadline: int,
                              lastError: Option<PathError>): Climb
    decreases |order|
  {
    if order == [] then
      Climb(p, None, lastError)
    else if order[0] !in s.adapters then
      EnsureLadder(s, order[1..], p, token, deadline, Some(NotRegistered(order[0])))
    else
      var t := AttemptSpec(s, p, order[0], token, deadline);
      match t.attempt
      case LostProbe(e) => EnsureLadder(s, order[1..], t.plant, token, deadline, Some(ProbeFailed(order[0], e)))
      case LostOpen(e) => EnsureLadder(s, order[1..], t.plant, token, deadline, Some(OpenFailed(order[0], e)))
      case Won(h) => Climb(t.plant, Some(h), lastError)
  }

  function EnterProbing(st: SessionState): SessionState {
    match st
    case Idle => After(After(After(st, Authenticating), ControlReady), Probing)
    case Authenticating => After(After(After(st, Authenticating), ControlReady), Probing)
    case _ => After(st, Probing)
  }

  /** The world with `h` as the active handle and the session `victim`, if any, closed. */
  ghost function Install(w: World, plant: Plant, h: Handle, victim: Option<nat>): World {
    w.(plant := plant.(net := plant.net.(open := Without(plant.net.open, victim))),
       sess := w.sess.(state := After(w.sess.state, PathSelected), active := Some(h), activePath := h.name,
                       lastError := None),
       counters := w.counters.(selected := w.counters.selected + 1))
  }

  /** What Ensure makes of the outcome of its ladder. */
  ghost function EndEnsure(w: World, c: Climb): Ensured {
    match c.won
    case Some(h) =>
      var prev := w.sess.active;
      var w' := Install(w, c.plant, h, if prev == Some(h) then None else SessionOf(prev));
      Ensured(w', EnsureOpened(h.name, h))
    case None =>
      Ensured(
        w.(plant := c.plant,
           sess := w.sess.(state := After(w.sess.state, Failed), lastError := c.lastError),
           counters := w.counters.(failed := w.counters.failed + 1)),
        EnsureAllFailed(if c.lastError.Some? then c.lastError.value else ALL_PATHS_FAILED))
  }

  ghost function ClimbSpec(s: Setup, w: World, token: string, parent: Option<int>): Ensured {
    var deadline := Clip(parent, w.plant.net.now + s.cfg.ladderTimeout);
    EndEnsure(w, EnsureLadder(s, s.cfg.order, w.plant, token, deadline, None))
  }

  ghost function EnsureSpec(s: Setup, w: World, token: string, parent: Option<int>): Ensured {
    if !s.cfg.enabled then
      Ensured(w, EnsureDisabled)
    else if s.cfg.order == [] then
      Ensured(w, EnsureNoPaths)
    else
      var entered := w.(sess := w.sess.(state := EnterProbing(w.sess.state)));
      if entered.sess.state != Probing then
        Ensured(entered, EnsureBadState)
      else
        ClimbSpec(s, entered, token, parent)
  }

  // ----- HealthTick's ladder -----

  ghost function HealthLadder(s: Setup, order: seq<string>, p: Plant, activePath: string, deadline: int,
                              lastError: Option<PathError>): Climb
    decreases |order|
  {
    if order == [] then
      Climb(p, None, lastError)
    else if order[0] == activePath && !s.cfg.softFail then
      HealthLadder(s, order[1..], p, activePath, deadline, lastError)
    else if order[0] !in s.adapters then
      HealthLadder(s, order[1..], p, activePath, deadline, lastError)
    else
      // The failover request carries no metadata, hence the empty token.
      var t := AttemptSpec(s, p, order[0], "", deadline);
      match t.attempt
      case LostProbe(e) => HealthLadder(s, order[1..], t.plant, activePath, deadline, Some(Cause(e)))
      case LostOpen(e) => HealthLadder(s, order[1..], t.plant, activePath, deadline, Some(Cause(e)))
      case Won(h) => Climb(t.plant, Some(h), lastError)
  }

  ghost predicate CoolingDown(s: Setup, sess: SessionView, now: int) {
    sess.lastFailover.Some? && now - sess.lastFailover.value < s.cfg.failoverCooldown
  }

  /** What HealthTick makes of the outcome of its ladder. */
  ghost function EndFailover(w: World, c: Climb, err: PathError): Checked {
    match c.won
    case Some(h) =>
      var prev := w.sess.active;
      var w' := Install(w, c.plant, h, SessionOf(prev));
      var net := w'.plant.net;
      Checked(
        w'.(plant := w'.plant.(net := net.(failovers := net.failovers + [net.now])),
            sess := w'.sess.(lastFailover := Some(net.now)),
            counters := w'.counters.(failovers := w'.counters.failovers + 1)),
        HealthOk)
    case None =>
      var e := if c.lastError.Some? then c.lastError.value else err;
      Checked(
        w.(plant := c.plant,
           sess := w.sess.(state := After(w.sess.state, Failed), lastError := Some(e)),
           counters := w.counters.(failed := w.counters.failed + 1)),
        HealthAllFailed(e))
  }

  ghost function ReclimbSpec(s: Setup, w: World, err: PathError, parent: Option<int>): Checked {
    var deadline := Clip(parent, w.plant.net.now + s.cfg.ladderTimeout);
    EndFailover(w, HealthLadder(s, s.cfg.order, w.plant, w.sess.activePath, deadline, None), err)
  }

  /** The re-ladder half of HealthTick, entered after the active path's probe failed. */
  ghost function FailoverSpec(s: Setup, w: World, err: PathError, parent: Option<int>): Checked {
    ReclimbSpec(s, w.(sess := w.sess.(state := After(w.sess.state, Probing))), err, parent)
  }

  /** What HealthTick makes of the active path's probe. */
  ghost function ReactSpec(s: Setup, w: World, probeError: Option<string>, parent: Option<int>): Checked {
    match probeError
    case None => Checked(w.(sess := w.sess.(state := PathSelected)), HealthOk)
    case Some(e) =>
      var w' := w.(sess := w.sess.(state := Degraded, lastError := Some(Cause(e))));
      if CoolingDown(s, w'.sess, w'.plant.net.now) then
        Checked(w', HealthProbeFailed(Cause(e)))
      else
        FailoverSpec(s, w', Cause(e), parent)
  }

  ghost function CheckSpec(s: Setup, w: World, parent: Option<int>): Checked {
    var net := w.plant.net;
    var a := ProbeSpec(s.oracle, net, w.sess.activePath, Clip(parent, net.now + s.cfg.probeTimeout));
    ReactSpec(s, w.(plant := w.plant.(net := a.net)), a.error, parent)
  }

  ghost function HealthSpec(s: Setup, w: World, parent: Option<int>): Checked {
    if !s.cfg.enabled then
      Checked(w, HealthDisabled)
    else if w.sess.state != PathSelected && w.sess.state != Degraded then
      Checked(w, HealthOk)
    else if w.sess.activePath == "" then
      Checked(w, HealthOk)
    else if w.sess.activePath !in s.adapters then
      Checked(w.(sess := w.sess.(state := Degraded)), HealthNotRegistered)
    else
      CheckSpec(s, w, parent)
  }

  /** The package-level counters. */
  class Metrics {
    var selected: nat
    var failed: nat
    var failovers: nat

    constructor ()
      ensures View() == Counters(0, 0, 0)
    {
      selected, failed, failovers := 0, 0, 0;
    }

    ghost function View(): Counters
      reads this
    {
      Counters(selected, failed, failovers)
    }

    method NotePathSelected()
      modifies this`selected
      ensures selected == old(selected) + 1
    {
      selected := selected + 1;
    }

    method NotePathFail()
      modifies this`failed
      ensures failed == old(failed) + 1
    {
      failed := failed + 1;
    }

    method NoteFailover()
      modifies this`failovers
      ensures failovers == old(failovers) + 1
    {
      failovers := failovers + 1;
    }
  }

  class LadderSelector {
    const cfg: Config
    const paths: map<string, TransportPath>
    const net: Network
    const metrics: Metrics

    ghost predicate Valid() {
      cfg.Usable() && forall n :: n in paths ==> paths[n].name == n
    }

    ghost function Fixed(): Setup
    {
      Setup(cfg, map n | n in paths :: paths[n].needsToken, net.oracle)
    }

    ghost function Slots(): map<string, Option<nat>>
      reads paths.Values
    {
      map n | n in paths :: paths[n].active
    }

    ghost function PlantView(): Plant
      reads net, paths.Values
    {
      Plant(net.View(), Slots())
    }

    ghost function View(sess: Session): World
      reads net, metrics, paths.Values, sess
    {
      World(sess.View(), PlantView(), metrics.View())
    }

    constructor (cfg: Config, adapters: seq<TransportPath?>, net: Network, metrics: Metrics)
      ensures Valid()
      ensures this.cfg == cfg.Normalize() && this.net == net && this.metrics == metrics
      ensures forall n :: n in paths <==>
                exists i :: 0 <= i < |adapters| && adapters[i] != null && adapters[i].name == n
      ensures forall i :: 0 <= i < |adapters| && adapters[i] != null
                && (forall j :: i < j < |adapters| && adapters[j] != null ==> adapters[j].name != adapters[i].name)
                ==> paths[adapters[i].name] == adapters[i]
    {
      var m: map<string, TransportPath> := map[];
      for k := 0 to |adapters|
        invariant forall n :: n in m ==> m[n].name == n
        invariant forall n :: n in m <==> exists i :: 0 <= i < k && adapters[i] != null && adapters[i].name == n
        invariant forall i :: 0 <= i < k && adapters[i] != null
                    && (forall j :: i < j < k && adapters[j] != null ==> adapters[j].name != adapters[i].name)
                    ==> m[adapters[i].name] == adapters[i]
      {
        var p := adapters[k];
        if p != null {
          m := m[p.name := p];
        }
      }
      this.cfg := cfg.Normalize();
      this.paths := m;
      this.net := net;
      this.metrics := metrics;
    }

    method ProbeRung(name: string, deadline: int) returns (error: Option<string>)
      requires Valid() && name in paths
      modifies net
      ensures Asked(net.View(), error) == ProbeSpec(Fixed().oracle, old(net.View()), name, deadline)
      ensures PlantView() == old(PlantView()).(net := net.View())
    {
      error := paths[name].Probe(net, deadline);
      assert Slots() == old(Slots());
    }

    method OpenRegistered(name: string, token: string, deadline: int) returns (r: Attempt)
      requires Valid() && name in paths
      modifies net, paths.Values
      ensures Tried(PlantView(), r) == OpenRung(Fixed(), old(PlantView()), name, token, deadline)
    {
      var p := paths[name];
      r := p.Open(net, token, deadline);
      assert Slots() == old(Slots())[name := p.active];
    }

    /** One probe-then-open attempt of a registered rung. */
    method TryRung(name: string, token: string, deadline: int) returns (r: Attempt)
      requires Valid() && name in paths
      modifies net, paths.Values
      ensures Tried(PlantView(), r) == AttemptSpec(Fixed(), old(PlantView()), name, token, deadline)
    {
      var perr := ProbeRung(name, Min(deadline, net.now + cfg.probeTimeout));
      if perr.Some? {
        return LostProbe(perr.value);
      }
      r := OpenRegistered(name, token, Min(deadline, net.now + cfg.probeTimeout));
    }

    /** Ensure's loop over the configured order. */
    method ClimbForEnsure(token: string, deadline: int) returns (won: Option<Handle>, lastError: Option<PathError>)
      requires Valid()
      modifies net, paths.Values
      ensures Climb(PlantView(), won, lastError)
           == EnsureLadder(Fixed(), cfg.order, old(PlantView()), token, deadline, None)
    {
      won, lastError := None, None;
      for i := 0 to |cfg.order|
        invariant EnsureLadder(Fixed(), cfg.order[i..], PlantView(), token, deadline, lastError)
               == EnsureLadder(Fixed(), cfg.order, old(PlantView()), token, deadline, None)
      {
        var name := cfg.order[i];
        assert cfg.order[i..][0] == name && cfg.order[i..][1..] == cfg.order[i + 1..];
        if name !in paths {
          lastError := Some(NotRegistered(name));
          continue;
        }
        var a := TryRung(name, token, deadline);
        match a {
          case LostProbe(e) => lastError := Some(ProbeFailed(name, e));
          case LostOpen(e) => lastError := Some(OpenFailed(name, e));
          case Won(h) => return Some(h), lastError;
        }
      }
    }

    /** HealthTick's own loop over the configured order. */
    method ClimbForFailover(activePath: string, deadline: int)
      returns (won: Option<Handle>, lastError: Option<PathError>)
      requires Valid()
      modifies net, paths.Values
      ensures Climb(PlantView(), won, lastError)
           == HealthLadder(Fixed(), cfg.order, old(PlantView()), activePath, deadline, None)
    {
      won, lastError := None, None;
      for i := 0 to |cfg.order|
        invariant HealthLadder(Fixed(), cfg.order[i..], PlantView(), activePath, deadline, lastError)
               == HealthLadder(Fixed(), cfg.order, old(PlantView()), activePath, deadline, None)
      {
        var name := cfg.order[i];
        assert cfg.order[i..][0] == name && cfg.order[i..][1..] == cfg.order[i + 1..];
        if name == activePath && !cfg.softFail {
          continue;
        }
        if name !in paths {
          continue;
        }
        var a := TryRung(name, "", deadline);
        match a {
          case LostProbe(e) => lastError := Some(Cause(e));
          case LostOpen(e) => lastError := Some(Cause(e));
          case Won(h) => return Some(h), lastError;
        }
      }
    }

    /** Moves the session into Probing; fails from Unset, HandingOver and Closed. */
    method Enter(sess: Session) returns (ok: bool)
      modifies sess`state
      ensures sess.state == EnterProbing(old(sess.state))
      ensures ok <==> sess.state == Probing
    {
      ok := true;
      match sess.state {
        case Idle | Authenticating =>
          ok := sess.Transition(Authenticating);
          assert ok;
          ok := sess.Transition(ControlReady);
          assert ok;
          ok := sess.Transition(Probing);
          assert ok;
        case ControlReady | Failed | Degraded | PathSelected =>
          ok := sess.Transition(Probing);
          assert ok;
        case Probing =>
        case _ =>
          ok := sess.Transition(Probing);
      }
    }

    /** A won rung becomes the session's active path; `victim` is the session it supersedes. */
    method Adopt(sess: Session, h: Handle, victim: Option<nat>)
      requires Valid() && sess.state == Probing
      modifies net`open, metrics`selected, sess
      ensures View(sess) == Install(old(View(sess)), old(PlantView()), h, victim)
    {
      if victim.Some? {
        net.CloseSession(victim.value);
      }
      sess.active := Some(h);
      sess.activePath := h.name;
      sess.lastError := None;
      var ok := sess.Transition(PathSelected);
      assert ok;
      metrics.NotePathSelected();
      assert Slots() == old(Slots());
    }

    method FinishEnsure(sess: Session, won: Option<Handle>, lastError: Option<PathError>) returns (r: EnsureResult)
      requires Valid() && sess.state == Probing
      modifies net, metrics, sess
      ensures Ensured(View(sess), r) == EndEnsure(old(View(sess)), Climb(old(PlantView()), won, lastError))
    {
      if won.Some? {
        var h := won.value;
        Adopt(sess, h, if sess.active == Some(h) then None else SessionOf(sess.active));
        return EnsureOpened(h.name, h);
      }
      sess.lastError := lastError;
      var ok := sess.Transition(Failed);
      assert ok;
      metrics.NotePathFail();
      assert Slots() == old(Slots());
      r := EnsureAllFailed(if lastError.Some? then lastError.value else ALL_PATHS_FAILED);
    }

    method Ensure(sess: Session, token: string, parent: Option<int>) returns (r: EnsureResult)
      requires Valid()
      modifies net, metrics, sess, paths.Values
      ensures Ensured(View(sess), r) == EnsureSpec(Fixed(), old(View(sess)), token, parent)
    {
      if !cfg.enabled {
        return EnsureDisabled;
      }
      if cfg.order == [] {
        return EnsureNoPaths;
      }
      var ok := Enter(sess);
      ghost var w := old(View(sess));
      assert PlantView() == w.plant;
      assert View(sess) == w.(sess := w.sess.(state := EnterProbing(w.sess.state)));
      if !ok {
        return EnsureBadState;
      }
      r := ClimbOrder(sess, token, parent);
    }

    method ClimbOrder(sess: Session, token: string, parent: Option<int>) returns (r: EnsureResult)
      requires Valid() && sess.state == Probing
      modifies net, metrics, sess, paths.Values
      ensures Ensured(View(sess), r) == ClimbSpec(Fixed(), old(View(sess)), token, parent)
    {
      var won, lastError := ClimbForEnsure(token, Clip(parent, net.now + cfg.ladderTimeout));
      r := FinishEnsure(sess, won, lastError);
    }

    method FinishFailover(sess: Session, won: Option<Handle>, lastError: Option<PathError>, err: PathError)
      returns (r: HealthResult)
      requires Valid() && sess.state == Probing
      modifies net, metrics, sess
      ensures Checked(View(sess), r) == EndFailover(old(View(sess)), Climb(old(PlantView()), won, lastError), err)
    {
      if won.Some? {
        Adopt(sess, won.value, SessionOf(sess.active));
        sess.lastFailover := Some(net.now);
        metrics.NoteFailover();
        net.RecordFailover();
        return HealthOk;
      }
      var cause := if lastError.None? then err else lastError.value;
      sess.lastError := Some(cause);
      var ok := sess.Transition(Failed);
      assert ok;
      metrics.NotePathFail();
      assert Slots() == old(Slots());
      r := HealthAllFailed(cause);
    }

    method Reclimb(sess: Session, err: PathError, parent: Option<int>) returns (r: HealthResult)
      requires Valid() && sess.state == Probing
      modifies net, metrics, sess, paths.Values
      ensures Checked(View(sess), r) == ReclimbSpec(Fixed(), old(View(sess)), err, parent)
    {
      var won, lastError := ClimbForFailover(sess.activePath, Clip(parent, net.now + cfg.ladderTimeout));
      r := FinishFailover(sess, won, lastError, err);
    }

    method Failover(sess: Session, err: PathError, parent: Option<int>) returns (r: HealthResult)
      requires Valid() && sess.state == Degraded
      modifies net, metrics, sess, paths.Values
      ensures Checked(View(sess), r) == FailoverSpec(Fixed(), old(View(sess)), err, parent)
    {
      var ok := sess.Transition(Probing);
      assert ok && Slots() == old(Slots());
      r := Reclimb(sess, err, parent);
    }

    method React(sess: Session, probeError: Option<string>, parent: Option<int>) returns (r: HealthResult)
      requires Valid() && (sess.state == PathSelected || sess.state == Degraded)
      modifies net, metrics, sess, paths.Values
      ensures Checked(View(sess), r) == ReactSpec(Fixed(), old(View(sess)), probeError, parent)
    {
      var ok;
      if probeError.None? {
        if sess.state == Degraded {
          ok := sess.Transition(PathSelected);
          assert ok;
        }
        assert Slots() == old(Slots());
        return HealthOk;
      }
      var err := Cause(probeError.value);
      sess.lastError := Some(err);
      ok := sess.Transition(Degraded);
      assert ok && Slots() == old(Slots());
      if sess.lastFailover.Some? && net.now - sess.lastFailover.value < cfg.failoverCooldown {
        return HealthProbeFailed(err);
      }
      r := Failover(sess, err, parent);
    }

    method HealthTick(sess: Session, parent: Option<int>) returns (r: HealthResult)
      requires Valid()
      modifies net, metrics, sess, paths.Values
      ensures Checked(View(sess), r) == HealthSpec(Fixed(), old(View(sess)), parent)
    {
      if !cfg.enabled {
        return HealthDisabled;
      }
      if sess.state != PathSelected && sess.state != Degraded {
        return HealthOk;
      }
      if sess.activePath == "" {
        return HealthOk;
      }
      var ok;
      if sess.activePath !in paths {
        ok := sess.Transition(Degraded);
        assert ok;
        return HealthNotRegistered;
      }
      r := CheckActive(sess, parent);
    }

    method CheckActive(sess: Session, parent: Option<int>) returns (r: HealthResult)
      requires Valid() && sess.activePath in paths && (sess.state == PathSelected || sess.state == Degraded)
      modifies net, metrics, sess, paths.Values
      ensures Checked(View(sess), r) == CheckSpec(Fixed(), old(View(sess)), parent)
    {
      var probeErr := ProbeRung(sess.activePath, Clip(parent, net.now + cfg.probeTimeout));
      ghost var w := old(View(sess));
      assert View(sess) == w.(plant := w.plant.(net := net.View()));
      assert CheckSpec(Fixed(), w, parent) == ReactSpec(Fixed(), View(sess), probeErr, parent);
      r := React(sess, probeErr, parent);
    }
  }
}
