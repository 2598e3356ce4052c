// The outside world of the path selector: a clock, the answers of probes and
// dials, and the set of transport sessions that are open. The two production
// adapters (relay_quic and grpc_tunnel) live here too: they differ only in
// their name and in whether a token is required before dialling.
module Transports {
  import opened Wrappers

  datatype CallKind = ProbeCall | OpenCall

  /** One call to the network; `remaining` is the time left on its context. */
  datatype Query = Query(index: nat, kind: CallKind, path: string, token: string, remaining: int)

  datatype Answer = Answer(error: Option<string>, elapsed: nat)

  /** An environment: it may answer every call as it likes. */
  type Oracle = Query -> Answer

  /** A call an adapter was asked for, and how it ended. */
  datatype Event = Probed(path: string, error: Option<string>) | Opened(path: string, error: Option<string>)

  /** A handle is immutable once built: the adapter's name and a transport session. */
  datatype Handle = Handle(name: string, session: nat)

  /** `log` and `failovers` are histories: every adapter call, and the times of the health failovers. */
  datatype NetView = NetView(now: int, calls: nat, dialed: nat, open: set<nat>, log: seq<Event>, failovers: seq<int>)

  /** What one rung yields: a handle, or the failure of its probe or of its open. */
  datatype Attempt = Won(handle: Handle) | LostProbe(cause: string) | LostOpen(cause: string)

  datatype Asked = Asked(net: NetView, error: Option<string>)

  datatype Dialed = Dialed(net: NetView, slot: Option<nat>, attempt: Attempt)

  const TOKEN_REQUIRED := "token required"

  /** The open sessions once `victim`, if any, has been closed (closing twice is harmless). */
  function Without(open: set<nat>, victim: Option<nat>): set<nat> {
    if victim.Some? then open - {victim.value} else open
  }

  ghost function Note(net: NetView, e: Event): NetView {
    net.(log := net.log + [e])
  }

  ghost function Ask(o: Oracle, net: NetView, kind: CallKind, path: string, token: string, deadline: int): Asked {
    var a := o(Query(net.calls, kind, path, token, deadline - net.now));
    Asked(net.(calls := net.calls + 1, now := net.now + a.elapsed), a.error)
  }

  ghost function ProbeSpec(o: Oracle, net: NetView, path: string, deadline: int): Asked {
    var a := Ask(o, net, ProbeCall, path, "", deadline);
    a.(net := Note(a.net, Probed(path, a.error)))
  }

  /** The adapter's Open: the network and the adapter's slot after it, and what came of it. */
  ghost function OpenSpec(o: Oracle, net: NetView, slot: Option<nat>, path: string, needsToken: bool,
                          token: string, deadline: int): Dialed
  {
    if needsToken && token == "" then
      Dialed(Note(net, Opened(path, Some(TOKEN_REQUIRED))), slot, LostOpen(TOKEN_REQUIRED))
    else
      var a := Ask(o, net, OpenCall, path, token, deadline);
      match a.error
      case Some(e) => Dialed(Note(a.net, Opened(path, Some(e))), slot, LostOpen(e))
      case None =>
        var id := a.net.dialed;
        Dialed(Note(a.net.(dialed := id + 1, open := Without(a.net.open + {id}, slot)), Opened(path, None)),
               Some(id), Won(Handle(path, id)))
  }

  class Network {
    const oracle: Oracle
    var now: int
    var calls: nat
    var dialed: nat
    var open: set<nat>
    ghost var log: seq<Event>
    ghost var failovers: seq<int>

    constructor (oracle: Oracle, start: int)
      ensures this.oracle == oracle
      ensures View() == NetView(start, 0, 0, {}, [], [])
    {
      this.oracle := oracle;
      now, calls, dialed, open, log, failovers := start, 0, 0, {}, [], [];
    }

    ghost function View(): NetView
      reads this
    {
      NetView(now, calls, dialed, open, log, failovers)
    }

    method Call(kind: CallKind, path: string, token: string, deadline: int) returns (error: Option<string>)
      modifies this
      ensures Asked(View(), error) == Ask(oracle, old(View()), kind, path, token, deadline)
    {
      var a := oracle(Query(calls, kind, path, token, deadline - now));
      calls := calls + 1;
      now := now + a.elapsed;
      error := a.error;
    }

    method CloseSession(id: nat)
      modifies this`open
      ensures open == old(open) - {id}
    {
      open := open - {id};
    }

    ghost method Record(e: Event)
      modifies this`log
      ensures View() == Note(old(View()), e)
    {
      log := log + [e];
    }

    ghost method RecordFailover()
      modifies this`failovers
      ensures failovers == old(failovers) + [now]
    {
      failovers := failovers + [now];
    }
  }

  /** One rung's adapter, with the slot that aliases the session it opened last. */
  class TransportPath {
    const name: string
    const needsToken: bool
    var active: Option<nat>

    constructor (name: string, needsToken: bool)
      ensures this.name == name && this.needsToken == needsToken && active == None
    {
      this.name := name;
      this.needsToken := needsToken;
      active := None;
    }

    method Probe(net: Network, deadline: int) returns (error: Option<string>)
      modifies net
      ensures Asked(net.View(), error) == ProbeSpec(net.oracle, old(net.View()), name, deadline)
    {
      error := net.Call(ProbeCall, name, "", deadline);
      net.Record(Probed(name, error));
    }

    method Open(net: Network, token: string, deadline: int) returns (r: Attempt)
      modifies this, net
      ensures Dialed(net.View(), active, r)
           == OpenSpec(net.oracle, old(net.View()), old(active), name, needsToken, token, deadline)
    {
      if needsToken && token == "" {
        net.Record(Opened(name, Some(TOKEN_REQUIRED)));
        return LostOpen(TOKEN_REQUIRED);
      }
      var err := net.Call(OpenCall, name, token, deadline);
      if err.Some? {
        net.Record(Opened(name, err));
        return LostOpen(err.value);
      }
      var id := net.dialed;
      net.dialed := id + 1;
      net.open := net.open + {id};
      if active.Some? {
        net.CloseSession(active.value);
      }
      active := Some(id);
      net.Record(Opened(name, None));
      r := Won(Handle(name, id));
    }

    method Close(net: Network)
      modifies this, net`open
      ensures active == None
      ensures net.open == Without(old(net.open), old(active))
    {
      if active.Some? {
        net.CloseSession(active.value);
        active := None;
      }
    }
  }
}
