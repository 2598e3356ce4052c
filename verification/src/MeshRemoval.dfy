// What removing peers and rerouting do to the routes, over every history.
module MeshRemoval {
  import opened Durations
  import opened Mesh
  import opened MeshRuns
  import opened MeshOwners

  // ----- Removal -----

  /** With no reroute a removal deletes exactly the routes through the removed peer. */
  lemma RemovalIsExact(w: Tables, id: string)
    requires InStep(w) && OneHopToOwner(w) && id in w.peers
    ensures RemoveSpec(w, id).routes == map d | d in w.routes && w.routes[d] != [id] :: w.routes[d]
  {
  }

  /** Adding a peer whose keys are all fresh and removing it again restores every table. */
  lemma AddThenRemoveRestores(w: Tables, p: PeerInfo)
    requires Core(w) && p.id !in w.peers
    requires forall d :: d in Dests(p) ==> d !in w.latencies
    ensures RemoveSpec(AddSpec(w, p), p.id) == w
  {
    var v := AddSpec(w, p);
    var gone := OwnedBy(v.owners, p.id);
    assert forall d :: d in gone <==> d in Dests(p);
    assert v.peers - {p.id} == w.peers;
    assert v.routes - gone == w.routes;
    assert v.latencies - gone == w.latencies;
    assert v.owners - gone == w.owners;
  }

  ghost predicate Through(w: Tables, d: string, id: string) {
    d in w.routes && w.routes[d] == [id]
  }

  ghost predicate Dangling(w: Tables, id: string) {
    id !in w.peers && exists d :: Through(w, d, id)
  }

  /**
   * Rerouting leaves the owner index alone, so a removal leaves routes through
   * the removed peer exactly when some destination had been rerouted to it.
   */
  lemma RemovalDanglesExactly(w: Tables, id: string)
    requires Core(w) && id in w.peers
    ensures Dangling(RemoveSpec(w, id), id) <==> exists d :: Through(w, d, id) && d != id && w.owners[d] != id
  {
    var v := RemoveSpec(w, id);
    if d :| Through(w, d, id) && d != id && w.owners[d] != id {
      assert Through(v, d, id);
    }
    if d :| Through(v, d, id) {
      assert Through(w, d, id) && d != id && w.owners[d] != id;
    }
  }

  // ----- How long a dangling route lives -----

  /** Somebody advertises `d` again, or a peer is removed that owns it or is named like it. */
  ghost predicate Repairs(op: MeshOp, w: Tables, w': Tables, d: string) {
    Claims(op, w', d) || (op.Remove? && op.id in w.peers && (op.id == d || Owns(w, op.id, d)))
  }

  ghost predicate Unrepaired(ops: seq<MeshOp>, ws: seq<Tables>, m: nat, n: nat, d: string)
    requires |ws| == |ops| + 1 && n <= |ops|
  {
    forall k :: m <= k < n ==> !Repairs(ops[k], ws[k], ws[k + 1], d)
  }

  lemma UnrepairedStep(ops: seq<MeshOp>, ws: seq<Tables>, m: nat, n: nat, d: string)
    requires |ws| == |ops| + 1 && m <= n < |ops|
    ensures Unrepaired(ops, ws, m, n + 1, d)
       <==> Unrepaired(ops, ws, m, n, d) && !Repairs(ops[n], ws[n], ws[n + 1], d)
  {
  }

  lemma ThroughAdd(w: Tables, p: PeerInfo, d: string, id: string)
    requires p.id != id
    ensures Through(AddSpec(w, p), d, id) <==> Through(w, d, id) && d !in Dests(p)
  {
  }

  lemma ThroughStep(inCidr: Membership, op: MeshOp, w: Tables, w': Tables, d: string, id: string)
    requires Core(w) && Next(inCidr, op, w, w') && id !in w.peers && id !in w'.peers
    ensures Through(w', d, id) <==> Through(w, d, id) && !Repairs(op, w, w', d)
  {
    if Advertising(op) {
      var p := AdvertStep(inCidr, op, w, w');
      ThroughAdd(w, p, d, id);
    } else if op.Reroute? && d in w.routes {
      assert RouteAfter(inCidr, w.peers, d, w.routes[d], w'.routes[d]);
    }
  }

  /**
   * While a peer is absent, a route through it stays exactly until somebody
   * advertises the destination again or a peer is removed that owns the
   * destination or is named like it; rerouting, however often, never ends it
   * and never starts it.
   */
  lemma {:induction false} DanglingLastsExactly(inCidr: Membership, ops: seq<MeshOp>, ws: seq<Tables>, m: nat, n: nat,
                                                d: string, id: string)
    requires IsRun(inCidr, ops, ws) && m <= n <= |ops|
    requires forall k :: m <= k <= n ==> id !in ws[k].peers
    ensures Through(ws[n], d, id) <==> Through(ws[m], d, id) && Unrepaired(ops, ws, m, n, d)
    decreases n
  {
    if m < n {
      var l := n - 1;
      DanglingLastsExactly(inCidr, ops, ws, m, l, d, id);
      EveryCore(inCidr, ops, ws, l);
      assert Next(inCidr, ops[l], ws[l], ws[l + 1]);
      ThroughStep(inCidr, ops[l], ws[l], ws[n], d, id);
      UnrepairedStep(ops, ws, m, l, d);
    }
  }

  // ----- A history that ends with a dangling route -----

  /** Such a history exists: the stand-in peer is removed and the route through it stays. */
  lemma DanglingRouteExists(inCidr: Membership) returns (ops: seq<MeshOp>, ws: seq<Tables>)
    ensures IsRun(inCidr, ops, ws)
    ensures Dangling(ws[|ops|], "b")
  {
    var b := PeerInfo("b", "", "", ["x"], 1, 100, true);
    var a := PeerInfo("a", "", "", ["x"], 1, 0, true);
    ops, ws := AddBoth(inCidr, b, a);
    var w := StaleSpec(ws[2], 50 * SECOND, SECOND);
    ops, ws := ExtendRun(inCidr, ops, ws, Stale(50 * SECOND, SECOND), w);
    TwoPeers(a, b);
    var w' := w.(routes := w.routes["x" := ["b"]]);
    NoStandInForA(inCidr, w);
    StandIn(inCidr, w, b);
    ops, ws := ExtendRun(inCidr, ops, ws, Reroute, w');
    StandInRemoved(w');
    ops, ws := ExtendRun(inCidr, ops, ws, Remove("b"), RemoveSpec(w', "b"));
  }

  lemma TwoPeers(a: PeerInfo, b: PeerInfo)
    requires a.id == "a" && b.id == "b" && a.allowed == b.allowed == ["x"]
    requires b.connected && a.lastSeen == 0 && b.lastSeen == 100
    ensures var w := StaleSpec(AddSpec(AddSpec(EMPTY, b), a), 50 * SECOND, SECOND);
            && w.peers.Keys == {"a", "b"} && w.peers["b"] == b && !w.peers["a"].connected
            && w.peers["a"].allowed == ["x"]
            && "x" in w.owners && w.owners["x"] == "a"
            && w.routes == map["a" := ["a"], "b" := ["b"], "x" := ["a"]]
  {
    AddTwo(a, b);
    var w := AddSpec(AddSpec(EMPTY, b), a);
    assert IsStale(w.peers["a"], 50 * SECOND, SECOND) && !IsStale(w.peers["b"], 50 * SECOND, SECOND);
  }

  lemma AddTwo(a: PeerInfo, b: PeerInfo)
    requires a.id == "a" && b.id == "b" && a.allowed == b.allowed == ["x"]
    ensures var w := AddSpec(AddSpec(EMPTY, b), a);
            && w.peers == map["a" := a, "b" := b]
            && "x" in w.owners && w.owners["x"] == "a"
            && w.routes == map["a" := ["a"], "b" := ["b"], "x" := ["a"]]
  {
    var w := AddSpec(EMPTY, b);
    AddPair(EMPTY, b, "x");
    AddPair(w, a, "x");
    RoutesOfTwo(w.routes);
  }

  lemma RoutesOfTwo(routes: map<string, seq<string>>)
    requires routes == map[]["b" := ["b"]]["x" := ["b"]]
    ensures routes["a" := ["a"]]["x" := ["a"]] == map["a" := ["a"], "b" := ["b"], "x" := ["a"]]
  {
  }

  lemma NoStandInForA(inCidr: Membership, w: Tables)
    requires w.peers.Keys == {"a", "b"} && w.peers["b"].allowed == ["x"]
    ensures forall id :: !Alternative(inCidr, w.peers, "a", "a", id)
  {
  }

  lemma StandIn(inCidr: Membership, w: Tables, b: PeerInfo)
    requires w.peers.Keys == {"a", "b"} && w.peers["b"] == b && !w.peers["a"].connected
    requires b.connected && b.allowed == ["x"]
    requires w.routes == map["a" := ["a"], "b" := ["b"], "x" := ["a"]]
    requires forall id :: !Alternative(inCidr, w.peers, "a", "a", id)
    ensures Rerouted(inCidr, w, w.(routes := w.routes["x" := ["b"]]))
  {
    assert Matches(inCidr, b.allowed[0], "x");
    assert Alternative(inCidr, w.peers, "x", "a", "b");
  }

  lemma StandInRemoved(w: Tables)
    requires "x" in w.routes && w.routes["x"] == ["b"] && "b" in w.peers && "x" in w.owners && w.owners["x"] == "a"
    ensures Dangling(RemoveSpec(w, "b"), "b")
  {
    assert "x" !in OwnedBy(w.owners, "b");
    assert Through(RemoveSpec(w, "b"), "x", "b");
  }

  // ----- Rerouting -----

  /**
   * Every changed route goes to a connected peer that advertises the
   * destination; a destination still routed via a known disconnected peer has
   * no such stand-in.
   */
  lemma ReroutingIsSound(inCidr: Membership, w: Tables, w': Tables, d: string)
    requires Rerouted(inCidr, w, w') && d in w.routes
    ensures w'.routes[d] != w.routes[d] ==>
              && Broken(w.peers, w.routes[d]) && |w'.routes[d]| == 1
              && Alternative(inCidr, w'.peers, d, w.routes[d][0], w'.routes[d][0])
    ensures Broken(w'.peers, w'.routes[d]) ==>
              w'.routes[d] == w.routes[d] && forall id :: !Alternative(inCidr, w'.peers, d, w'.routes[d][0], id)
  {
    assert RouteAfter(inCidr, w.peers, d, w.routes[d], w'.routes[d]);
  }

  /** The peer is connected and advertises the destination, by name or by a CIDR block that contains it. */
  ghost predicate CanServe(inCidr: Membership, p: PeerInfo, d: string) {
    p.connected && exists a :: a in p.allowed && (a == d || ('/' in a && inCidr(d, a)))
  }

  lemma ServesIsAlternative(inCidr: Membership, w: Tables, d: string, gone: string, id: string)
    ensures Alternative(inCidr, w.peers, d, gone, id)
       <==> id in w.peers && id != gone && CanServe(inCidr, w.peers[id], d)
  {
    if id in w.peers {
      var allowed := w.peers[id].allowed;
      if a :| a in allowed && (a == d || ('/' in a && inCidr(d, a))) {
        var k :| 0 <= k < |allowed| && allowed[k] == a;
        assert Matches(inCidr, allowed[k], d);
      }
      if k :| 0 <= k < |allowed| && Matches(inCidr, allowed[k], d) {
        assert allowed[k] in allowed;
      }
    }
  }

  /**
   * A pass replaces a route exactly if its first hop is a known peer that is
   * not connected and another known peer can serve the destination; then the
   * route is one hop to such a peer. Nothing else changes.
   */
  lemma ReroutingExactly(inCidr: Membership, w: Tables, w': Tables, d: string)
    requires Rerouted(inCidr, w, w') && d in w.routes
    ensures w'.peers == w.peers && w'.latencies == w.latencies && w'.owners == w.owners && d in w'.routes
    ensures var r, r' := w.routes[d], w'.routes[d];
            if r == [] || r[0] !in w.peers || w.peers[r[0]].connected
               || forall id :: id in w.peers && id != r[0] ==> !CanServe(inCidr, w.peers[id], d)
            then r' == r
            else |r'| == 1 && r'[0] in w.peers && r'[0] != r[0] && CanServe(inCidr, w.peers[r'[0]], d)
  {
    var r := w.routes[d];
    assert RouteAfter(inCidr, w.peers, d, r, w'.routes[d]);
    if r != [] {
      forall id: string
        ensures Alternative(inCidr, w.peers, d, r[0], id)
           <==> id in w.peers && id != r[0] && CanServe(inCidr, w.peers[id], d)
      {
        ServesIsAlternative(inCidr, w, d, r[0], id);
      }
    }
  }

  /** Any other operation gives the destinations it advertises a one-hop route to the peer and keeps the rest. */
  lemma RoutesFollow(inCidr: Membership, op: MeshOp, w: Tables, w': Tables, d: string)
    requires Core(w) && Next(inCidr, op, w, w') && !op.Reroute? && d in w'.routes
    ensures w'.routes[d] == if Claims(op, w', d) then [op.p.id] else if d in w.routes then w.routes[d] else []
    ensures d in w.routes || Claims(op, w', d)
  {
    if Advertising(op) {
      var p := AdvertStep(inCidr, op, w, w');
    }
  }

  /** A second pass on the same topology changes nothing, whatever the iteration orders. */
  lemma ReroutingSettles(inCidr: Membership, w: Tables, w': Tables, w'': Tables)
    requires Rerouted(inCidr, w, w') && Rerouted(inCidr, w', w'')
    ensures w'' == w'
  {
    forall d | d in w'.routes
      ensures w''.routes[d] == w'.routes[d]
    {
      ReroutingIsSound(inCidr, w, w', d);
      assert RouteAfter(inCidr, w'.peers, d, w'.routes[d], w''.routes[d]);
    }
    assert w''.routes == w'.routes;
  }
}
