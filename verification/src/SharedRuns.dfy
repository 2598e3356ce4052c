// Any number of sessions on one selector: what every interleaving keeps, and
// histories in which one session cuts off another.
module SharedRuns {
  import opened Wrappers
  import opened Transports
  import opened Sessions
  import opened PathConfig
  import opened Selector
  import opened LadderFacts
  import opened SelectorRuns
  import opened Failovers
  import opened SharedSelector

  datatype Shared = Shared(sess: seq<SessionView>, plant: Plant, counters: Counters)
  {
    function For(i: nat): World
      requires i < |sess|
    {
      World(sess[i], plant, counters)
    }

    function With(i: nat, w: World): Shared
      requires i < |sess|
    {
      Shared(sess[i := w.sess], w.plant, w.counters)
    }

    /** Session i has a handle and the transport behind it is open. */
    ghost predicate Connected(i: nat)
      requires i < |sess|
    {
      sess[i].active.Some? && sess[i].active.value.session in plant.net.open
    }
  }

  /** Session `who` performs `op`. */
  datatype Act = Act(who: nat, op: Op)

  ghost function SharedStep(s: Setup, m: Shared, a: Act): Shared {
    if a.who < |m.sess| then m.With(a.who, Step(s, m.For(a.who), a.op)) else m
  }

  ghost function SharedRun(s: Setup, m: Shared, acts: seq<Act>): Shared {
    if acts == [] then m else SharedStep(s, SharedRun(s, m, acts[..|acts| - 1]), acts[|acts| - 1])
  }

  /** Empty slots, nothing open, and sessions that hold nothing. */
  ghost predicate SharedInitial(s: Setup, m: Shared) {
    && s.cfg.Usable() && m.plant.slots == (map n | n in s.adapters :: None) && m.plant.net.open == {}
    && forall i :: 0 <= i < |m.sess| ==> m.sess[i].active == None
  }

  /** What one operation does to slots and sessions: nothing, dropping the handle, or installing a fresh one. */
  ghost predicate Outcome(w: World, w': World, won: Option<Handle>) {
    && w'.plant.slots.Keys == w.plant.slots.Keys
    && match won
       case None =>
         && w'.plant.slots == w.plant.slots && w'.plant.net.dialed == w.plant.net.dialed
         && ((w'.sess.active == w.sess.active && w'.plant.net.open == w.plant.net.open)
             || (w'.sess.active == None && w'.plant.net.open == Without(w.plant.net.open, SessionOf(w.sess.active))))
       case Some(h) =>
         && h.name in w.plant.slots && h.session == w.plant.net.dialed
         && w'.plant.net.dialed == w.plant.net.dialed + 1 && w'.sess.active == won
         && w'.plant.slots == w.plant.slots[h.name := Some(h.session)]
         && w'.plant.net.open == Without(Without(w.plant.net.open + {h.session}, w.plant.slots[h.name]),
                                         SessionOf(w.sess.active))
  }

  lemma EnsureOutcome(s: Setup, w: World, token: string, parent: Option<int>) returns (won: Option<Handle>)
    requires w.plant.slots.Keys == s.adapters.Keys
    requires w.sess.active.Some? ==> w.sess.active.value.session < w.plant.net.dialed
    ensures Outcome(w, EnsureSpec(s, w, token, parent).world, won)
  {
    won := None;
    var w1 := w.(sess := w.sess.(state := EnterProbing(w.sess.state)));
    if s.cfg.enabled && s.cfg.order != [] && w1.sess.state == Probing {
      var deadline := Clip(parent, w.plant.net.now + s.cfg.ladderTimeout);
      LadderEffect(s, s.cfg.order, w.plant, token, deadline, None);
      var c := EnsureLadder(s, s.cfg.order, w.plant, token, deadline, None);
      assert EnsureSpec(s, w, token, parent) == ClimbSpec(s, w1, token, parent);
      assert ClimbSpec(s, w1, token, parent) == EndEnsure(w1, c);
      EndEnsureOutcome(s, w1, c, token);
      won := c.won;
    }
  }

  lemma EndEnsureOutcome(s: Setup, w: World, c: Climb, token: string)
    requires Effect(s, w.plant, c.plant, c.won, token)
    requires w.sess.active.Some? ==> w.sess.active.value.session < w.plant.net.dialed
    ensures Outcome(w, EndEnsure(w, c).world, c.won)
  {
  }

  lemma HealthOutcome(s: Setup, w: World, parent: Option<int>) returns (won: Option<Handle>)
    requires w.plant.slots.Keys == s.adapters.Keys
    ensures Outcome(w, HealthSpec(s, w, parent).world, won)
  {
    won := None;
    HealthSplit(s, w, parent);
    if Reladders(s, w, parent) {
      var err := Cause(Checkup(s, w, parent).error.value);
      var v := Ailing(s, w, parent, err);
      var deadline := Clip(parent, v.plant.net.now + s.cfg.ladderTimeout);
      HealthLadderEffect(s, v.plant, v.sess.activePath, deadline);
      var c := HealthLadder(s, s.cfg.order, v.plant, v.sess.activePath, deadline, None);
      var w1 := v.(sess := v.sess.(state := After(v.sess.state, Probing)));
      assert FailoverSpec(s, v, err, parent) == EndFailover(w1, c, err);
      EndFailoverOutcome(s, w1, c, err);
      won := c.won;
    }
  }

  lemma EndFailoverOutcome(s: Setup, w: World, c: Climb, err: PathError)
    requires Effect(s, w.plant, c.plant, c.won, "")
    ensures Outcome(w, EndFailover(w, c, err).world, c.won)
  {
  }

  lemma StepOutcome(s: Setup, w: World, op: Op) returns (won: Option<Handle>)
    requires w.plant.slots.Keys == s.adapters.Keys
    requires w.sess.active.Some? ==> w.sess.active.value.session < w.plant.net.dialed
    ensures Outcome(w, Step(s, w, op), won)
  {
    won := None;
    match op
    case DoEnsure(token, parent) => won := EnsureOutcome(s, w, token, parent);
    case DoHealth(parent) => won := HealthOutcome(s, w, parent);
    case DoClear =>
    case Wait(_) =>
  }

  // ----- The invariant -----

  /** The slots hold different, already dialed sessions. */
  ghost predicate SlotsApart(p: Plant) {
    && (forall n :: n in p.slots && p.slots[n].Some? ==> p.slots[n].value < p.net.dialed)
    && (forall n, n' :: n in p.slots && n' in p.slots && n != n' && p.slots[n].Some? ==> p.slots[n] != p.slots[n'])
  }

  /** No two sessions hold the same transport. */
  ghost predicate HandlesApart(m: Shared) {
    && (forall i :: 0 <= i < |m.sess| && m.sess[i].active.Some? ==>
          m.sess[i].active.value.session < m.plant.net.dialed && m.sess[i].active.value.name in m.plant.slots)
    && (forall i, j :: 0 <= i < j < |m.sess| && m.sess[i].active.Some? && m.sess[j].active.Some? ==>
          m.sess[i].active.value.session != m.sess[j].active.value.session)
  }

  ghost predicate HeldBy(m: Shared, id: nat, i: int) {
    && 0 <= i < |m.sess| && m.sess[i].active.Some? && m.sess[i].active.value.session == id
    && m.sess[i].active.value.name in m.plant.slots && m.plant.slots[m.sess[i].active.value.name] == Some(id)
  }

  /** Every open transport is the one behind some session's handle and sits in its adapter's slot. */
  ghost predicate AllHeld(m: Shared) {
    forall id :: id in m.plant.net.open ==> exists i :: HeldBy(m, id, i)
  }

  ghost predicate Tidy(s: Setup, m: Shared) {
    && s.cfg.Usable() && m.plant.slots.Keys == s.adapters.Keys
    && SlotsApart(m.plant) && HandlesApart(m) && AllHeld(m)
  }

  lemma OutcomeKeepsApart(m: Shared, i: nat, w': World, won: Option<Handle>)
    requires SlotsApart(m.plant) && HandlesApart(m) && i < |m.sess| && Outcome(m.For(i), w', won)
    ensures SlotsApart(w'.plant) && HandlesApart(m.With(i, w'))
  {
  }

  lemma OutcomeKeepsHeld(m: Shared, i: nat, w': World, won: Option<Handle>, id: nat, k: int)
    requires SlotsApart(m.plant) && HandlesApart(m) && i < |m.sess| && Outcome(m.For(i), w', won)
    requires HeldBy(m, id, k) && id in w'.plant.net.open
    ensures HeldBy(m.With(i, w'), id, k)
  {
  }

  lemma OutcomeTidy(s: Setup, m: Shared, i: nat, w': World, won: Option<Handle>)
    requires Tidy(s, m) && i < |m.sess| && Outcome(m.For(i), w', won)
    ensures Tidy(s, m.With(i, w'))
  {
    var v := m.With(i, w');
    OutcomeKeepsApart(m, i, w', won);
    forall id | id in v.plant.net.open
      ensures exists k :: HeldBy(v, id, k)
    {
      if won.Some? && id == won.value.session {
        assert HeldBy(v, id, i);
      } else {
        assert id in m.plant.net.open;
        var k :| HeldBy(m, id, k);
        OutcomeKeepsHeld(m, i, w', won, id, k);
      }
    }
  }

  lemma SharedStepTidy(s: Setup, m: Shared, a: Act)
    requires Tidy(s, m)
    ensures Tidy(s, SharedStep(s, m, a)) && |SharedStep(s, m, a).sess| == |m.sess|
  {
    if a.who < |m.sess| {
      var won := StepOutcome(s, m.For(a.who), a.op);
      OutcomeTidy(s, m, a.who, Step(s, m.For(a.who), a.op), won);
    }
  }

  /** Every interleaving of the operations of any number of sessions keeps the invariant. */
  lemma {:induction false} SharedRunTidy(s: Setup, m: Shared, acts: seq<Act>)
    requires Tidy(s, m)
    ensures Tidy(s, SharedRun(s, m, acts)) && |SharedRun(s, m, acts).sess| == |m.sess|
  {
    if acts != [] {
      var k := |acts| - 1;
      SharedRunTidy(s, m, acts[..k]);
      SharedStepTidy(s, SharedRun(s, m, acts[..k]), acts[k]);
    }
  }

  lemma InitiallyTidy(s: Setup, m: Shared)
    requires SharedInitial(s, m)
    ensures Tidy(s, m)
  {
  }

  /** A connected session's transport sits in the slot of its own path. */
  lemma ConnectedIsHeld(s: Setup, m: Shared, j: nat)
    requires Tidy(s, m) && j < |m.sess| && m.Connected(j)
    ensures HeldBy(m, m.sess[j].active.value.session, j)
  {
    var id := m.sess[j].active.value.session;
    var k :| HeldBy(m, id, k);
    assert k == j;
  }

  lemma {:induction false} SlotsBound(slots: map<string, Option<nat>>, ids: set<nat>)
    requires forall id :: id in ids ==> exists n :: n in slots && slots[n] == Some(id)
    ensures |ids| <= |slots|
    decreases |ids|
  {
    if ids != {} {
      var id :| id in ids;
      var n :| n in slots && slots[n] == Some(id);
      forall x | x in ids - {id}
        ensures exists k :: k in slots - {n} && (slots - {n})[k] == Some(x)
      {
        var k :| k in slots && slots[k] == Some(x);
        assert k in slots - {n} && (slots - {n})[k] == Some(x);
      }
      SlotsBound(slots - {n}, ids - {id});
      assert (slots - {n}).Keys == slots.Keys - {n} && |slots| == |slots.Keys|;
      assert |(slots - {n}).Keys| == |slots - {n}|;
    }
  }

  /**
   * However many sessions share a selector, in every run each path carries at
   * most one of them: connected sessions have different paths, and there are
   * never more open transports than registered paths.
   */
  lemma OneSessionPerPath(s: Setup, m: Shared, acts: seq<Act>)
    requires SharedInitial(s, m)
    ensures var v := SharedRun(s, m, acts);
            && |v.plant.net.open| <= |s.adapters|
            && (forall i, j :: 0 <= i < j < |v.sess| && v.Connected(i) && v.Connected(j) ==>
                  v.sess[i].active.value.name != v.sess[j].active.value.name)
            && (forall id :: id in v.plant.net.open ==>
                  exists i :: 0 <= i < |v.sess| && SessionOf(v.sess[i].active) == Some(id))
  {
    InitiallyTidy(s, m);
    SharedRunTidy(s, m, acts);
    var v := SharedRun(s, m, acts);
    forall i, j | 0 <= i < j < |v.sess| && v.Connected(i) && v.Connected(j)
      ensures v.sess[i].active.value.name != v.sess[j].active.value.name
    {
      ConnectedIsHeld(s, v, i);
      ConnectedIsHeld(s, v, j);
    }
    forall id | id in v.plant.net.open
      ensures exists n :: n in v.plant.slots && v.plant.slots[n] == Some(id)
      ensures exists i :: 0 <= i < |v.sess| && SessionOf(v.sess[i].active) == Some(id)
    {
      var i :| HeldBy(v, id, i);
      assert SessionOf(v.sess[i].active) == Some(id);
    }
    SlotsBound(v.plant.slots, v.plant.net.open);
    assert v.plant.slots.Keys == s.adapters.Keys && |v.plant.slots| == |v.plant.slots.Keys|;
  }

  // ----- Who can cut off whom -----

  ghost predicate CutsOff(s: Setup, o: Oracle, m: Shared, a: Act, j: nat)
    requires j < |m.sess|
  {
    var v := SharedStep(s.(oracle := o), m, a);
    |v.sess| == |m.sess| && m.Connected(j) && !v.Connected(j)
  }

  /** The guard a caller can check before the operation. */
  ghost predicate MayCutOff(s: Setup, w: World, op: Op, path: string) {
    match op
    case DoEnsure(token, _) => EnsureMayClose(s, w, token, path)
    case DoHealth(_) => Acts(s, w) && Target(s, w.sess.activePath, path)
    case DoClear => false
    case Wait(_) => false
  }

  lemma ConnectedIsOther(s: Setup, m: Shared, i: nat, j: nat)
    requires Tidy(s, m) && i < |m.sess| && j < |m.sess| && i != j && m.Connected(j)
    ensures OtherHolds(s, m.For(i), m.sess[j].active.value)
  {
    ConnectedIsHeld(s, m, j);
  }

  /**
   * At any point of any run an operation of one session can close the
   * transport of a connected other one, on some network, exactly if it is an
   * Ensure that runs its ladder, has that path in its order and a token if
   * the path needs one, or a HealthTick that acts and has that path as a
   * token-less candidate.
   */
  lemma WhoCanCutOff(s: Setup, m: Shared, a: Act, j: nat)
    requires Tidy(s, m) && a.who < |m.sess| && j < |m.sess| && a.who != j && m.Connected(j)
    ensures (exists o: Oracle :: CutsOff(s, o, m, a, j))
        <==> MayCutOff(s, m.For(a.who), a.op, m.sess[j].active.value.name)
  {
    ConnectedIsOther(s, m, a.who, j);
    var w, other := m.For(a.who), m.sess[j].active.value;
    match a.op
    case DoEnsure(token, parent) =>
      EnsureInterference(s, w, token, parent, other);
      assert forall o: Oracle :: CutsOff(s, o, m, a, j) <==> EnsureCanClose(s, o, w, token, parent, other);
    case DoHealth(parent) =>
      HealthInterference(s, w, parent, other);
      assert forall o: Oracle :: CutsOff(s, o, m, a, j) <==> HealthCanClose(s, o, w, parent, other);
    case DoClear =>
    case Wait(_) =>
  }

  // ----- How long a session stays cut off -----

  ghost predicate Dials(s: Setup, m: Shared, a: Act) {
    SharedStep(s, m, a).plant.net.dialed > m.plant.net.dialed
  }

  /** A session without an open transport gets one only by an operation of its own that dials. */
  lemma ReconnectsByDialing(s: Setup, m: Shared, a: Act, j: nat)
    requires Tidy(s, m) && j < |m.sess| && !m.Connected(j)
    ensures var v := SharedStep(s, m, a);
            |v.sess| == |m.sess| && (v.Connected(j) ==> a.who == j && Dials(s, m, a))
  {
    if a.who < |m.sess| {
      var won := StepOutcome(s, m.For(a.who), a.op);
    }
  }

  /** In none of these operations session j dials. */
  ghost predicate NeverDials(s: Setup, m: Shared, acts: seq<Act>, j: nat) {
    acts == []
    || (&& NeverDials(s, m, acts[..|acts| - 1], j)
        && (acts[|acts| - 1].who == j ==> !Dials(s, SharedRun(s, m, acts[..|acts| - 1]), acts[|acts| - 1])))
  }

  /** A session that has been cut off stays so through every interleaving until it dials itself. */
  lemma {:induction false} StaysCutOff(s: Setup, m: Shared, acts: seq<Act>, j: nat)
    requires Tidy(s, m) && j < |m.sess| && !m.Connected(j) && NeverDials(s, m, acts, j)
    ensures var v := SharedRun(s, m, acts); |v.sess| == |m.sess| && !v.Connected(j)
  {
    if acts != [] {
      var g, a := acts[..|acts| - 1], acts[|acts| - 1];
      StaysCutOff(s, m, g, j);
      SharedRunTidy(s, m, g);
      ReconnectsByDialing(s, SharedRun(s, m, g), a, j);
    }
  }

  /**
   * Its HealthTick does not notice as long as the path answers: a probe that
   * succeeds reports health and leaves the session selected and cut off.
   */
  lemma ProbeHidesCutOff(s: Setup, m: Shared, j: nat, parent: Option<int>)
    requires Tidy(s, m) && j < |m.sess| && !m.Connected(j)
    requires Acts(s, m.For(j)) && Checkup(s, m.For(j), parent).error.None?
    ensures HealthSpec(s, m.For(j), parent).result == HealthOk
    ensures var v := SharedStep(s, m, Act(j, DoHealth(parent)));
            |v.sess| == |m.sess| && v.sess[j].state == PathSelected && v.sess[j].active == m.sess[j].active
            && !v.Connected(j) && !Dials(s, m, Act(j, DoHealth(parent)))
  {
    HealthSplit(s, m.For(j), parent);
  }

  // ----- A history in which it happens -----

  /** Both paths answer at once until relay_quic goes down at the k-th call. */
  function RelayDownFrom(k: nat): Oracle {
    (q: Query) =>
      Answer(if q.path == PATH_GRPC_TUNNEL || (q.path == PATH_RELAY_QUIC && q.index < k) then None else Some("down"), 0)
  }

  function Production(o: Oracle): Setup {
    Setup(DefaultConfig().(enabled := true), PRODUCTION, o)
  }

  function Fresh(): SessionView {
    SessionView(Idle, "", None, None, None)
  }

  /** A healthy first rung wins and takes its slot. */
  lemma FirstRungWins(s: Setup, order: seq<string>, p: Plant, token: string, deadline: int,
                      lastError: Option<PathError>)
    requires order != [] && order[0] in s.adapters && order[0] in p.slots && (s.adapters[order[0]] ==> token != "")
    requires forall q: Query :: q.path == order[0] && q.index < p.net.calls + 2 ==> s.oracle(q) == Answer(None, 0)
    ensures var c := EnsureLadder(s, order, p, token, deadline, lastError);
            && c.won == Some(Handle(order[0], p.net.dialed)) && c.plant.slots == p.slots[order[0] := Some(p.net.dialed)]
            && c.plant.net.calls == p.net.calls + 2 && c.plant.net.dialed == p.net.dialed + 1
            && c.plant.net.open == Without(p.net.open + {p.net.dialed}, p.slots[order[0]])
  {
  }

  /** A rung that needs a token is passed over without one, at the price of a probe. */
  lemma TokenRungPasses(s: Setup, order: seq<string>, p: Plant, deadline: int, lastError: Option<PathError>)
    returns (p': Plant, e: Option<PathError>)
    requires order != [] && order[0] in s.adapters && order[0] in p.slots && s.adapters[order[0]]
    requires forall q: Query :: q.path == order[0] && q.index < p.net.calls + 1 ==> s.oracle(q) == Answer(None, 0)
    ensures EnsureLadder(s, order, p, "", deadline, lastError) == EnsureLadder(s, order[1..], p', "", deadline, e)
    ensures p'.slots == p.slots && p'.net.calls == p.net.calls + 1
    ensures p'.net.dialed == p.net.dialed && p'.net.open == p.net.open
  {
    var t := AttemptSpec(s, p, order[0], "", deadline);
    assert t.attempt == LostOpen(TOKEN_REQUIRED);
    assert t.plant.slots == p.slots;
    p', e := t.plant, Some(OpenFailed(order[0], TOKEN_REQUIRED));
  }

  lemma EnsureInstalls(s: Setup, w: World, token: string, c: Climb)
    requires s.cfg.Usable() && s.cfg.enabled && w.sess == Fresh()
    requires c == EnsureLadder(s, s.cfg.order, w.plant, token, w.plant.net.now + s.cfg.ladderTimeout, None)
    requires c.won.Some?
    ensures var v := EnsureSpec(s, w, token, None).world;
            && v.sess == SessionView(PathSelected, c.won.value.name, c.won, None, None) && v.plant == c.plant
  {
  }

  /** The first session opens relay_quic with its token. */
  lemma RelayOpens(s: Setup, w: World)
    requires s == Production(RelayDownFrom(5)) && w.sess == Fresh() && w.plant.net.calls == 0
    requires w.plant.slots == map[PATH_RELAY_QUIC := None, PATH_GRPC_TUNNEL := None]
    ensures var v := EnsureSpec(s, w, "token", None).world;
            var h := Handle(PATH_RELAY_QUIC, w.plant.net.dialed);
            && v.sess == SessionView(PathSelected, h.name, Some(h), None, None)
            && v.plant.slots == map[PATH_RELAY_QUIC := Some(h.session), PATH_GRPC_TUNNEL := None]
            && v.plant.net.calls == 2 && v.plant.net.dialed == h.session + 1
            && v.plant.net.open == w.plant.net.open + {h.session}
  {
    var deadline := w.plant.net.now + s.cfg.ladderTimeout;
    FirstRungWins(s, s.cfg.order, w.plant, "token", deadline, None);
    EnsureInstalls(s, w, "token", EnsureLadder(s, s.cfg.order, w.plant, "token", deadline, None));
  }

  lemma TunnelWins(s: Setup, p: Plant, deadline: int) returns (c: Climb)
    requires s == Production(RelayDownFrom(5)) && p.net.calls == 2
    requires p.slots.Keys == {PATH_RELAY_QUIC, PATH_GRPC_TUNNEL} && p.slots[PATH_GRPC_TUNNEL] == None
    ensures c == EnsureLadder(s, s.cfg.order, p, "", deadline, None)
    ensures c.won == Some(Handle(PATH_GRPC_TUNNEL, p.net.dialed))
    ensures c.plant.slots == p.slots[PATH_GRPC_TUNNEL := Some(p.net.dialed)]
    ensures c.plant.net.calls == 5 && c.plant.net.dialed == p.net.dialed + 1
    ensures c.plant.net.open == p.net.open + {p.net.dialed}
  {
    var p', e := TokenRungPasses(s, s.cfg.order, p, deadline, None);
    var rest := [PATH_GRPC_TUNNEL];
    assert s.cfg.order[1..] == rest;
    FirstRungWins(s, rest, p', "", deadline, e);
    c := EnsureLadder(s, rest, p', "", deadline, e);
  }

  /** The second one has no token and opens grpc_tunnel. */
  lemma TunnelOpens(s: Setup, w: World, relay: nat)
    requires s == Production(RelayDownFrom(5)) && w.sess == Fresh() && w.plant.net.calls == 2
    requires w.plant.slots == map[PATH_RELAY_QUIC := Some(relay), PATH_GRPC_TUNNEL := None]
    ensures var v := EnsureSpec(s, w, "", None).world;
            var h := Handle(PATH_GRPC_TUNNEL, w.plant.net.dialed);
            && v.sess == SessionView(PathSelected, h.name, Some(h), None, None)
            && v.plant.slots == map[PATH_RELAY_QUIC := Some(relay), PATH_GRPC_TUNNEL := Some(h.session)]
            && v.plant.net.calls == 5 && v.plant.net.dialed == h.session + 1
            && v.plant.net.open == w.plant.net.open + {h.session}
  {
    var c := TunnelWins(s, w.plant, w.plant.net.now + s.cfg.ladderTimeout);
    EnsureInstalls(s, w, "", c);
  }

  /** When relay_quic goes down the first session fails over to the tunnel and closes the other one's transport. */
  lemma FailoverCutsOff(s: Setup, w: World, other: Handle)
    requires s == Production(RelayDownFrom(5)) && w.plant.net.calls == 5 && OtherHolds(s, w, other)
    requires w.sess.state == PathSelected && w.sess.activePath == PATH_RELAY_QUIC && w.sess.lastFailover == None
    requires other.name == PATH_GRPC_TUNNEL
    ensures HealthCloses(s, w, None, other)
  {
    OthersMembers(s.cfg.order, PATH_RELAY_QUIC);
    FailsOverTo(s, w, None, PATH_GRPC_TUNNEL);
    HealthClosesByFailover(s, w, None, other);
  }

  lemma RunOfThree(s: Setup, m: Shared, a: Act, b: Act, c: Act)
    ensures var m2 := SharedStep(s, SharedStep(s, m, a), b);
            SharedRun(s, m, [a, b]) == m2 && SharedRun(s, m, [a, b, c]) == SharedStep(s, m2, c)
  {
    assert [a, b, c][..2] == [a, b] && [a, b][..1] == [a] && [a][..0] == [];
    assert SharedRun(s, m, [a]) == SharedStep(s, SharedRun(s, m, []), a);
    assert SharedRun(s, m, [a, b]) == SharedStep(s, SharedRun(s, m, [a]), b);
    assert SharedRun(s, m, [a, b, c]) == SharedStep(s, SharedRun(s, m, [a, b]), c);
  }

  /** Both sessions connected, each on its own path. */
  ghost predicate BothConnected(m: Shared) {
    var a, b := Handle(PATH_RELAY_QUIC, 0), Handle(PATH_GRPC_TUNNEL, 1);
    && m.sess == [SessionView(PathSelected, a.name, Some(a), None, None),
                  SessionView(PathSelected, b.name, Some(b), None, None)]
    && m.plant.slots == map[a.name := Some(0), b.name := Some(1)]
    && m.plant.net.calls == 5 && m.plant.net.dialed == 2 && m.plant.net.open == {0, 1}
  }

  lemma BothConnect(s: Setup, m: Shared)
    requires s == Production(RelayDownFrom(5)) && m.sess == [Fresh(), Fresh()]
    requires m.plant.net == NetView(0, 0, 0, {}, [], [])
    requires m.plant.slots == map[PATH_RELAY_QUIC := None, PATH_GRPC_TUNNEL := None]
    ensures BothConnected(SharedStep(s, SharedStep(s, m, Act(0, DoEnsure("token", None))), Act(1, DoEnsure("", None))))
  {
    var w1 := EnsureSpec(s, m.For(0), "token", None).world;
    RelayOpens(s, m.For(0));
    var m1 := m.With(0, w1);
    assert SharedStep(s, m, Act(0, DoEnsure("token", None))) == m1;
    TunnelOpens(s, m1.For(1), 0);
    var w2 := EnsureSpec(s, m1.For(1), "", None).world;
    assert SharedStep(s, m1, Act(1, DoEnsure("", None))) == m1.With(1, w2);
  }

  lemma ThenCutOff(s: Setup, m: Shared)
    requires s == Production(RelayDownFrom(5)) && BothConnected(m)
    ensures var v := SharedStep(s, m, Act(0, DoHealth(None)));
            |v.sess| == 2 && v.sess[1] == m.sess[1] && !v.Connected(1)
  {
    var other := Handle(PATH_GRPC_TUNNEL, 1);
    FailoverCutsOff(s, m.For(0), other);
    assert SharedStep(s, m, Act(0, DoHealth(None))) == m.With(0, HealthSpec(s, m.For(0), None).world);
  }

  function TwoFresh(): Shared {
    Shared([Fresh(), Fresh()],
           Plant(NetView(0, 0, 0, {}, [], []), map[PATH_RELAY_QUIC := None, PATH_GRPC_TUNNEL := None]),
           Counters(0, 0, 0))
  }

  lemma TwoFreshInitial(o: Oracle)
    ensures SharedInitial(Production(o), TwoFresh())
  {
    var s, m := Production(o), TwoFresh();
    assert m.plant.slots == map n | n in s.adapters :: None;
  }

  /**
   * Two sessions on the production selector, the first with a token, the
   * second without: once relay_quic goes down the second is still selected
   * and unaware, but its transport is closed.
   */
  lemma SessionCutOff(a: Act, b: Act, c: Act)
    requires a == Act(0, DoEnsure("token", None)) && b == Act(1, DoEnsure("", None)) && c == Act(0, DoHealth(None))
    ensures var s, m := Production(RelayDownFrom(5)), TwoFresh();
            var before, after := SharedRun(s, m, [a, b]), SharedRun(s, m, [a, b, c]);
            && SharedInitial(s, m) && |before.sess| == |after.sess| == 2
            && before.Connected(0) && before.Connected(1)
            && after.sess[1] == before.sess[1] && after.sess[1].state == PathSelected && !after.Connected(1)
  {
    var s, m := Production(RelayDownFrom(5)), TwoFresh();
    TwoFreshInitial(s.oracle);
    RunOfThree(s, m, a, b, c);
    BothConnect(s, m);
    ThenCutOff(s, SharedRun(s, m, [a, b]));
  }
}
