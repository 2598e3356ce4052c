// What a single ladder does, for every environment: which rung wins, which
// calls it makes, what it leaves open and how long it takes.
module LadderFacts {
  import opened Wrappers
  import opened Transports
  import opened Sessions
  import opened PathConfig
  import opened Selector

  // ----- Effect on sessions and slots -----

  /** A lost attempt leaves slots and sessions alone; a won one opens exactly one fresh session. */
  ghost predicate Effect(s: Setup, p: Plant, p': Plant, won: Option<Handle>, token: string) {
    && p'.net.now >= p.net.now
    && p'.net.failovers == p.net.failovers
    && p'.slots.Keys == p.slots.Keys
    && match won
       case None => p'.slots == p.slots && p'.net.open == p.net.open && p'.net.dialed == p.net.dialed
       case Some(h) =>
         && h.name in s.adapters && (s.adapters[h.name] ==> token != "")
         && h.name in p.slots
         && h.session == p.net.dialed && p'.net.dialed == p.net.dialed + 1
         && p'.slots == p.slots[h.name := Some(h.session)]
         && p'.net.open == Without(p.net.open + {h.session}, p.slots[h.name])
  }

  function LossError(name: string, a: Attempt): PathError
    requires !a.Won?
  {
    if a.LostProbe? then ProbeFailed(name, a.cause) else OpenFailed(name, a.cause)
  }

  function HandleOf(a: Attempt): Option<Handle> {
    if a.Won? then Some(a.handle) else None
  }

  lemma OpenEffect(o: Oracle, net: NetView, slot: Option<nat>, path: string, needsToken: bool, token: string,
                   deadline: int)
    ensures var d := OpenSpec(o, net, slot, path, needsToken, token, deadline);
            && d.net.now >= net.now
            && d.net.failovers == net.failovers
            && match d.attempt
               case LostProbe(_) => false
               case LostOpen(_) => d.slot == slot && d.net.open == net.open && d.net.dialed == net.dialed
               case Won(h) =>
                 && h == Handle(path, net.dialed) && d.slot == Some(net.dialed)
                 && (needsToken ==> token != "")
                 && d.net.dialed == net.dialed + 1
                 && d.net.open == Without(net.open + {net.dialed}, slot)
  {
  }

  lemma OpenRungEffect(s: Setup, p: Plant, name: string, token: string, deadline: int)
    requires name in s.adapters && p.slots.Keys == s.adapters.Keys
    ensures var t := OpenRung(s, p, name, token, deadline);
            !t.attempt.LostProbe? && RungEffect(s, p, t, name, token)
  {
    OpenEffect(s.oracle, p.net, p.slots[name], name, s.adapters[name], token, deadline);
    assert p.slots[name := p.slots[name]] == p.slots;
  }

  ghost predicate RungEffect(s: Setup, p: Plant, t: Tried, name: string, token: string) {
    Effect(s, p, t.plant, HandleOf(t.attempt), token) && (t.attempt.Won? ==> t.attempt.handle.name == name)
  }

  lemma AttemptEffect(s: Setup, p: Plant, name: string, token: string, deadline: int)
    requires name in s.adapters && p.slots.Keys == s.adapters.Keys
    ensures RungEffect(s, p, AttemptSpec(s, p, name, token, deadline), name, token)
  {
    var cut := Min(deadline, p.net.now + s.cfg.probeTimeout);
    ProbeEffect(s.oracle, p.net, name, cut);
    var a := ProbeSpec(s.oracle, p.net, name, cut);
    var p1 := p.(net := a.net);
    if a.error.None? {
      var cut' := Min(deadline, a.net.now + s.cfg.probeTimeout);
      OpenRungEffect(s, p1, name, token, cut');
      var t := OpenRung(s, p1, name, token, cut');
      assert AttemptSpec(s, p, name, token, deadline) == t;
      EffectCompose(s, p, p1, t.plant, HandleOf(t.attempt), token);
    }
  }

  lemma EffectCompose(s: Setup, p: Plant, p1: Plant, p2: Plant, won: Option<Handle>, token: string)
    requires Effect(s, p, p1, None, token) && Effect(s, p1, p2, won, token)
    ensures Effect(s, p, p2, won, token)
  {
  }

  lemma ProbeEffect(o: Oracle, net: NetView, path: string, deadline: int)
    ensures var net' := ProbeSpec(o, net, path, deadline).net;
            && net'.now >= net.now && net'.failovers == net.failovers
            && net'.open == net.open && net'.dialed == net.dialed
  {
  }

  lemma {:induction false} LadderEffect(s: Setup, order: seq<string>, p: Plant, token: string, deadline: int,
                                        lastError: Option<PathError>)
    requires p.slots.Keys == s.adapters.Keys
    ensures var c := EnsureLadder(s, order, p, token, deadline, lastError);
            && Effect(s, p, c.plant, c.won, token)
            && (c.won.Some? ==> c.won.value.name in order)
            && (c.won.None? && (order != [] || lastError.Some?) ==> c.lastError.Some?)
    decreases |order|
  {
    if order != [] {
      if order[0] !in s.adapters {
        LadderEffect(s, order[1..], p, token, deadline, Some(NotRegistered(order[0])));
      } else {
        AttemptEffect(s, p, order[0], token, deadline);
        var t := AttemptSpec(s, p, order[0], token, deadline);
        if !t.attempt.Won? {
          LadderEffect(s, order[1..], t.plant, token, deadline, Some(LossError(order[0], t.attempt)));
        }
      }
    }
  }

  // ----- The two loops make the same choice -----

  function Others(order: seq<string>, activePath: string): seq<string>
    decreases |order|
  {
    if order == [] then []
    else (if order[0] == activePath then [] else [order[0]]) + Others(order[1..], activePath)
  }

  function Candidates(cfg: Config, activePath: string): seq<string> {
    if cfg.softFail then cfg.order else Others(cfg.order, activePath)
  }

  lemma {:induction false} OthersMembers(order: seq<string>, activePath: string)
    ensures forall x :: x in Others(order, activePath) <==> x in order && x != activePath
    ensures |Others(order, activePath)| <= |order|
    decreases |order|
  {
    if order != [] {
      OthersMembers(order[1..], activePath);
    }
  }

  /**
   * HealthTick's hand-inlined loop, run from any state, probes, opens and
   * chooses exactly as Ensure's loop does on the candidate rungs without a token.
   */
  lemma {:induction false} HealthLadderIsEnsureLadder(s: Setup, order: seq<string>, p: Plant, activePath: string,
                                                      deadline: int, e1: Option<PathError>, e2: Option<PathError>)
    ensures var rungs := if s.cfg.softFail then order else Others(order, activePath);
            var h := HealthLadder(s, order, p, activePath, deadline, e1);
            var e := EnsureLadder(s, rungs, p, "", deadline, e2);
            h.plant == e.plant && h.won == e.won
    decreases |order|
  {
    if order != [] {
      var rungs := if s.cfg.softFail then order else Others(order, activePath);
      var rest := if s.cfg.softFail then order[1..] else Others(order[1..], activePath);
      if order[0] == activePath && !s.cfg.softFail {
        assert rungs == rest;
        HealthLadderIsEnsureLadder(s, order[1..], p, activePath, deadline, e1, e2);
      } else {
        assert rungs[0] == order[0] && rungs[1..] == rest;
        if order[0] !in s.adapters {
          HealthLadderIsEnsureLadder(s, order[1..], p, activePath, deadline, e1, Some(NotRegistered(order[0])));
        } else {
          var t := AttemptSpec(s, p, order[0], "", deadline);
          if !t.attempt.Won? {
            HealthLadderIsEnsureLadder(s, order[1..], t.plant, activePath, deadline, Some(Cause(t.attempt.cause)),
                                       Some(LossError(order[0], t.attempt)));
          }
        }
      }
    }
  }

  // ----- Which calls are made -----

  function Probes(ev: seq<Event>): seq<string> {
    if ev == [] then []
    else (if ev[0].Probed? then [ev[0].path] else []) + Probes(ev[1..])
  }

  function Registered(s: Setup, order: seq<string>): seq<string> {
    if order == [] then []
    else (if order[0] in s.adapters then [order[0]] else []) + Registered(s, order[1..])
  }

  /**
   * Opens follow successful probes of the same path and nothing else, and the
   * only successful open is the last event, present just when a rung won.
   */
  ghost predicate Disciplined(ev: seq<Event>, won: bool) {
    && (forall k :: 0 <= k < |ev| && ev[k].Probed? && ev[k].error.None? ==>
          k + 1 < |ev| && ev[k + 1].Opened? && ev[k + 1].path == ev[k].path)
    && (forall k :: 0 <= k < |ev| && ev[k].Opened? ==>
          && k > 0 && ev[k - 1] == Probed(ev[k].path, None)
          && (ev[k].error.None? <==> won && k == |ev| - 1))
    && (won ==> |ev| > 0 && ev[|ev| - 1].Opened?)
  }

  lemma AttemptEvents(s: Setup, p: Plant, name: string, token: string, deadline: int)
    requires name in s.adapters
    ensures var t := AttemptSpec(s, p, name, token, deadline);
            && t.plant.net.log == p.net.log + AttemptTrace(name, t.attempt)
            && Disciplined(AttemptTrace(name, t.attempt), t.attempt.Won?)
            && (t.attempt.Won? ==> t.attempt.handle.name == name)
  {
    var t := AttemptSpec(s, p, name, token, deadline);
    assert t.plant.net.log == p.net.log + AttemptTrace(name, t.attempt);
  }

  function AttemptTrace(name: string, a: Attempt): (ev: seq<Event>)
    ensures Probes(ev) == [name]
  {
    if a.LostProbe? then
      var ev := [Probed(name, Some(a.cause))];
      assert ev[1..] == [];
      ev
    else
      var tried := Opened(name, if a.Won? then None else Some(a.cause));
      var ev := [Probed(name, None), tried];
      assert ev[1..] == [tried] && ev[1..][1..] == [];
      assert Probes(ev[1..]) == [];
      ev
  }

  lemma {:induction false} ProbesAppend(a: seq<Event>, b: seq<Event>)
    ensures Probes(a + b) == Probes(a) + Probes(b)
  {
    if a == [] {
      assert a + b == b;
    } else {
      var tail := a[1..];
      ProbesAppend(tail, b);
      var first := if a[0].Probed? then [a[0].path] else [];
      assert (a + b)[1..] == tail + b;
      assert Probes(a + b) == first + Probes(tail + b);
      assert first + (Probes(tail) + Probes(b)) == (first + Probes(tail)) + Probes(b);
    }
  }

  lemma DisciplinedAppend(a: seq<Event>, b: seq<Event>, won: bool)
    requires Disciplined(a, false) && Disciplined(b, won)
    ensures Disciplined(a + b, won)
  {
    var ev := a + b;
    forall k | 0 <= k < |ev| && ev[k].Opened?
      ensures k > 0 && ev[k - 1] == Probed(ev[k].path, None) && (ev[k].error.None? <==> won && k == |ev| - 1)
    {
      if k >= |a| {
        assert ev[k] == b[k - |a|];
      }
    }
    if won {
      assert ev[|ev| - 1] == b[|b| - 1];
    }
  }

  /**
   * The exact calls of a ladder: with i the winning index (or the length of
   * the order), it probes the registered rungs up to i and none after, and
   * opens just those whose probe succeeded.
   */
  ghost predicate Calls(s: Setup, order: seq<string>, i: nat, ev: seq<Event>, won: Option<Handle>) {
    && i <= |order|
    && (won.Some? <==> i < |order|)
    && (i < |order| ==> order[i] in s.adapters && won.value.name == order[i])
    && Probes(ev) == Registered(s, order[..Min(i + 1, |order|)])
    && Disciplined(ev, won.Some?)
  }

  lemma ExtendCalls(s: Setup, order: seq<string>, i: nat, head: seq<Event>, tail: seq<Event>, won: Option<Handle>)
    requires order != [] && Calls(s, order[1..], i, tail, won)
    requires Probes(head) == (if order[0] in s.adapters then [order[0]] else []) && Disciplined(head, false)
    ensures Calls(s, order, i + 1, head + tail, won)
  {
    var a := order[..Min(i + 2, |order|)];
    assert a[0] == order[0] && a[1..] == order[1..][..Min(i + 1, |order| - 1)];
    ProbesAppend(head, tail);
    DisciplinedAppend(head, tail, won.Some?);
  }

  lemma {:induction false} LadderCalls(s: Setup, order: seq<string>, p: Plant, token: string, deadline: int,
                                       lastError: Option<PathError>) returns (i: nat, ev: seq<Event>)
    ensures var c := EnsureLadder(s, order, p, token, deadline, lastError);
            c.plant.net.log == p.net.log + ev && Calls(s, order, i, ev, c.won)
    decreases |order|, 1
  {
    if order == [] {
      i, ev := 0, [];
      assert order[..0] == [];
    } else if order[0] !in s.adapters {
      assert p.net.log == p.net.log + [];
      i, ev := LostCalls(s, order, p, p.net.log, [], token, deadline, NotRegistered(order[0]));
    } else {
      var t := AttemptSpec(s, p, order[0], token, deadline);
      AttemptEvents(s, p, order[0], token, deadline);
      var head := AttemptTrace(order[0], t.attempt);
      if t.attempt.Won? {
        WonCalls(s, order, head, t.attempt.handle);
        i, ev := 0, head;
      } else {
        i, ev := LostCalls(s, order, t.plant, p.net.log, head, token, deadline, LossError(order[0], t.attempt));
      }
    }
  }

  lemma WonCalls(s: Setup, order: seq<string>, head: seq<Event>, h: Handle)
    requires order != [] && order[0] in s.adapters && h.name == order[0]
    requires Probes(head) == [order[0]] && Disciplined(head, true)
    ensures Calls(s, order, 0, head, Some(h))
  {
    assert order[..1] == [order[0]] && order[..1][1..] == [];
  }

  lemma JoinCalls(s: Setup, order: seq<string>, i: nat, log: seq<Event>, head: seq<Event>, tail: seq<Event>,
                  won: Option<Handle>)
    requires order != [] && Calls(s, order[1..], i, tail, won)
    requires Probes(head) == (if order[0] in s.adapters then [order[0]] else []) && Disciplined(head, false)
    ensures Calls(s, order, i + 1, head + tail, won)
    ensures log + head + tail == log + (head + tail)
  {
    ExtendCalls(s, order, i, head, tail, won);
  }

  lemma {:induction false} LostCalls(s: Setup, order: seq<string>, p': Plant, log: seq<Event>, head: seq<Event>,
                                     token: string, deadline: int, err: PathError) returns (i: nat, ev: seq<Event>)
    requires order != [] && p'.net.log == log + head && Disciplined(head, false)
    requires Probes(head) == (if order[0] in s.adapters then [order[0]] else [])
    ensures var c := EnsureLadder(s, order[1..], p', token, deadline, Some(err));
            c.plant.net.log == log + ev && Calls(s, order, i, ev, c.won)
    decreases |order|, 0
  {
    var rest := order[1..];
    var tail;
    i, tail := LadderCalls(s, rest, p', token, deadline, Some(err));
    var c := EnsureLadder(s, rest, p', token, deadline, Some(err));
    JoinCalls(s, order, i, log, head, tail, c.won);
    i, ev := i + 1, head + tail;
  }

  // ----- Which error is reported -----

  /** The error that stands for the last rung of an order none of whose rungs won. */
  ghost predicate BlamesLast(s: Setup, last: string, log: seq<Event>, err: PathError) {
    if last !in s.adapters then err == NotRegistered(last)
    else
      && log != []
      && match log[|log| - 1]
         case Probed(path, error) => path == last && error.Some? && err == ProbeFailed(last, error.value)
         case Opened(path, error) => path == last && error.Some? && err == OpenFailed(last, error.value)
  }

  lemma AttemptBlame(s: Setup, p: Plant, name: string, token: string, deadline: int)
    requires name in s.adapters
    ensures var t := AttemptSpec(s, p, name, token, deadline);
            && (!t.attempt.Won? ==> BlamesLast(s, name, t.plant.net.log, LossError(name, t.attempt)))
            && (!t.attempt.Won? ==> BlamesCall(p.net.log, t.plant.net.log, t.attempt.cause))
            && |t.plant.net.log| > |p.net.log|
  {
    AttemptEvents(s, p, name, token, deadline);
  }

  /** A lost ladder reports the error of its last rung. */
  lemma {:induction false} LadderBlames(s: Setup, order: seq<string>, p: Plant, token: string, deadline: int,
                                        lastError: Option<PathError>)
    requires order != []
    ensures var c := EnsureLadder(s, order, p, token, deadline, lastError);
            c.won.None? ==> c.lastError.Some? && BlamesLast(s, order[|order| - 1], c.plant.net.log, c.lastError.value)
    decreases |order|
  {
    var p', le := p, Some(NotRegistered(order[0]));
    if order[0] in s.adapters {
      var t := AttemptSpec(s, p, order[0], token, deadline);
      AttemptBlame(s, p, order[0], token, deadline);
      if t.attempt.Won? {
        return;
      }
      p', le := t.plant, Some(LossError(order[0], t.attempt));
    }
    if |order| > 1 {
      assert order[1..][|order| - 2] == order[|order| - 1];
      LadderBlames(s, order[1..], p', token, deadline, le);
    }
  }

  /** The log grew, and the error of its last event is the cause. */
  ghost predicate BlamesCall(log: seq<Event>, log': seq<Event>, cause: string) {
    |log'| > |log| && log'[|log'| - 1].error == Some(cause)
  }

  /** HealthTick's lost ladder reports the error of its last call, if it made any. */
  lemma {:induction false} HealthLadderBlames(s: Setup, order: seq<string>, p: Plant, activePath: string,
                                              deadline: int, lastError: Option<PathError>)
    ensures var c := HealthLadder(s, order, p, activePath, deadline, lastError);
            c.won.None? ==>
              || (c.plant.net.log == p.net.log && c.lastError == lastError)
              || (c.lastError.Some? && c.lastError.value.Cause?
                  && BlamesCall(p.net.log, c.plant.net.log, c.lastError.value.cause))
    decreases |order|
  {
    if order != [] {
      if (order[0] == activePath && !s.cfg.softFail) || order[0] !in s.adapters {
        HealthLadderBlames(s, order[1..], p, activePath, deadline, lastError);
      } else {
        var t := AttemptSpec(s, p, order[0], "", deadline);
        AttemptBlame(s, p, order[0], "", deadline);
        if !t.attempt.Won? {
          HealthLadderBlames(s, order[1..], t.plant, activePath, deadline, Some(Cause(t.attempt.cause)));
        }
      }
    }
  }

  // ----- Which rung wins when the network is stable -----

  /** Whether a call fails depends on the call alone, not on when it is made. */
  ghost predicate Stable(o: Oracle) {
    forall q1: Query, q2: Query :: q1.kind == q2.kind && q1.path == q2.path && q1.token == q2.token
      ==> (o(q1).error.None? <==> o(q2).error.None?)
  }

  ghost predicate Healthy(s: Setup, name: string, token: string) {
    && name in s.adapters
    && s.oracle(Query(0, ProbeCall, name, "", 0)).error.None?
    && (s.adapters[name] ==> token != "")
    && s.oracle(Query(0, OpenCall, name, token, 0)).error.None?
  }

  ghost predicate IsFirstHealthy(s: Setup, order: seq<string>, token: string, i: int) {
    && 0 <= i < |order| && Healthy(s, order[i], token)
    && forall j :: 0 <= j < i ==> !Healthy(s, order[j], token)
  }

  /** `won` is the first healthy rung of the order, and absent only if no rung is healthy. */
  ghost predicate PicksFirst(s: Setup, order: seq<string>, token: string, won: Option<string>) {
    && (won.None? <==> forall n :: n in order ==> !Healthy(s, n, token))
    && (won.Some? ==> exists i :: IsFirstHealthy(s, order, token, i) && won.value == order[i])
  }

  function NameOf(h: Option<Handle>): Option<string> {
    if h.Some? then Some(h.value.name) else None
  }

  lemma AttemptHealthy(s: Setup, p: Plant, name: string, token: string, deadline: int)
    requires Stable(s.oracle) && name in s.adapters
    ensures var a := AttemptSpec(s, p, name, token, deadline).attempt;
            (a.Won? <==> Healthy(s, name, token)) && (a.Won? ==> a.handle.name == name)
  {
    var q := Query(p.net.calls, ProbeCall, name, "", Min(deadline, p.net.now + s.cfg.probeTimeout) - p.net.now);
    assert s.oracle(q).error.None? <==> s.oracle(Query(0, ProbeCall, name, "", 0)).error.None?;
    var net1 := ProbeSpec(s.oracle, p.net, name, Min(deadline, p.net.now + s.cfg.probeTimeout)).net;
    var q' := Query(net1.calls, OpenCall, name, token, Min(deadline, net1.now + s.cfg.probeTimeout) - net1.now);
    assert s.oracle(q').error.None? <==> s.oracle(Query(0, OpenCall, name, token, 0)).error.None?;
  }

  /** On a stable network the winner is the first healthy rung, and there is one just when the ladder succeeds. */
  lemma {:induction false} LadderPicksFirstHealthy(s: Setup, order: seq<string>, p: Plant, token: string,
                                                   deadline: int, lastError: Option<PathError>)
    requires Stable(s.oracle)
    ensures PicksFirst(s, order, token, NameOf(EnsureLadder(s, order, p, token, deadline, lastError).won))
    decreases |order|
  {
    if order != [] {
      var c := EnsureLadder(s, order, p, token, deadline, lastError);
      var p', le := p, Some(NotRegistered(order[0]));
      if order[0] in s.adapters {
        var t := AttemptSpec(s, p, order[0], token, deadline);
        AttemptHealthy(s, p, order[0], token, deadline);
        if t.attempt.Won? {
          assert IsFirstHealthy(s, order, token, 0) && order[0] in order;
          return;
        }
        p', le := t.plant, Some(LossError(order[0], t.attempt));
      }
      LadderPicksFirstHealthy(s, order[1..], p', token, deadline, le);
      if c.won.Some? {
        var i :| IsFirstHealthy(s, order[1..], token, i) && c.won.value.name == order[1..][i];
        assert forall j :: 0 < j < i + 1 ==> order[j] == order[1..][j - 1];
        assert IsFirstHealthy(s, order, token, i + 1);
      }
    }
  }

  // ----- Which rungs can win at all -----

  /** From the k-th call on exactly the calls on `name` succeed. */
  ghost predicate OnlyFrom(o: Oracle, k: nat, name: string) {
    forall q: Query :: q.index >= k ==> (o(q).error.None? <==> q.path == name)
  }

  /** A rung can win if it needs no token or the ladder has one, wherever it stands in the order. */
  lemma {:induction false} LadderReaches(s: Setup, order: seq<string>, p: Plant, token: string, deadline: int,
                                         lastError: Option<PathError>, name: string)
    requires name in order && name in s.adapters && (s.adapters[name] ==> token != "")
    requires OnlyFrom(s.oracle, p.net.calls, name)
    ensures NameOf(EnsureLadder(s, order, p, token, deadline, lastError).won) == Some(name)
    decreases |order|
  {
    if order[0] !in s.adapters {
      LadderReaches(s, order[1..], p, token, deadline, Some(NotRegistered(order[0])), name);
    } else if order[0] != name {
      var t := AttemptSpec(s, p, order[0], token, deadline);
      assert t.attempt.LostProbe? && t.plant.net.calls == p.net.calls + 1;
      LadderReaches(s, order[1..], t.plant, token, deadline, Some(LossError(order[0], t.attempt)), name);
    }
  }

  // ----- How long it takes -----

  /** Every call returns by its deadline, at once when that has passed. */
  ghost predicate Prompt(o: Oracle) {
    forall q: Query :: o(q).elapsed <= Max(0, q.remaining)
  }

  lemma AttemptTime(s: Setup, p: Plant, name: string, token: string, deadline: int)
    requires Prompt(s.oracle) && name in s.adapters && s.cfg.probeTimeout >= 0
    ensures var now' := AttemptSpec(s, p, name, token, deadline).plant.net.now;
            p.net.now <= now' <= Min(Max(p.net.now, deadline), p.net.now + 2 * s.cfg.probeTimeout)
  {
    var q := Query(p.net.calls, ProbeCall, name, "", Min(deadline, p.net.now + s.cfg.probeTimeout) - p.net.now);
    assert s.oracle(q).elapsed <= Max(0, q.remaining);
    var net1 := ProbeSpec(s.oracle, p.net, name, Min(deadline, p.net.now + s.cfg.probeTimeout)).net;
    var q' := Query(net1.calls, OpenCall, name, token, Min(deadline, net1.now + s.cfg.probeTimeout) - net1.now);
    assert s.oracle(q').elapsed <= Max(0, q'.remaining);
  }

  lemma {:induction false} LadderTime(s: Setup, order: seq<string>, p: Plant, token: string, deadline: int,
                                      lastError: Option<PathError>)
    requires Prompt(s.oracle) && s.cfg.probeTimeout >= 0
    ensures var now' := EnsureLadder(s, order, p, token, deadline, lastError).plant.net.now;
            p.net.now <= now' <= Min(Max(p.net.now, deadline), p.net.now + 2 * |order| * s.cfg.probeTimeout)
    decreases |order|
  {
    if order != [] {
      var n := |order| - 1;
      assert 2 * (n + 1) * s.cfg.probeTimeout == 2 * n * s.cfg.probeTimeout + 2 * s.cfg.probeTimeout;
      assert 2 * n * s.cfg.probeTimeout >= 0;
      if order[0] !in s.adapters {
        LadderTime(s, order[1..], p, token, deadline, Some(NotRegistered(order[0])));
      } else {
        AttemptTime(s, p, order[0], token, deadline);
        var t := AttemptSpec(s, p, order[0], token, deadline);
        if !t.attempt.Won? {
          LadderTime(s, order[1..], t.plant, token, deadline, Some(LossError(order[0], t.attempt)));
        }
      }
    }
  }
}
