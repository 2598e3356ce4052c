// What the mesh routing tables satisfy over every history of operations.
module MeshRuns {
  import opened Durations
  import opened Mesh

  datatype MeshOp =
    | Add(p: PeerInfo)
    | Upsert(p: PeerInfo, now: int)
    | SetLatency(id: string, latency: int)
    | Remove(id: string)
    | Stale(now: int, staleAfter: int)
    | Reroute

  const EMPTY := Tables(map[], map[], map[], map[])

  ghost predicate Next(inCidr: Membership, op: MeshOp, w: Tables, w': Tables) {
    match op
    case Add(p) => w' == AddSpec(w, p)
    case Upsert(p, now) => w' == UpsertSpec(w, p, now)
    case SetLatency(id, latency) => w' == LatencySpec(w, id, latency)
    case Remove(id) => w' == RemoveSpec(w, id)
    case Stale(now, staleAfter) => w' == StaleSpec(w, now, staleAfter)
    case Reroute => Rerouted(inCidr, w, w')
  }

  /** `ws` are the states a history of operations passes through, starting empty. */
  ghost predicate IsRun(inCidr: Membership, ops: seq<MeshOp>, ws: seq<Tables>) {
    && |ws| == |ops| + 1 && ws[0] == EMPTY
    && forall k :: 0 <= k < |ops| ==> Next(inCidr, ops[k], ws[k], ws[k + 1])
  }

  predicate Advertising(op: MeshOp) {
    op.Add? || op.Upsert?
  }

  // ----- What every history keeps -----

  /** Holds in every history, even when a peer advertises another peer's ID. */
  ghost predicate Core(w: Tables) {
    && w.owners.Keys == w.routes.Keys && w.routes.Keys <= w.latencies.Keys
    && (forall d :: d in w.owners ==> w.owners[d] in w.peers)
    && (forall d :: d in w.routes ==> |w.routes[d]| == 1)
    && (forall p :: p in w.peers ==> w.peers[p].id == p)
  }

  ghost predicate OneHopToOwner(w: Tables) {
    w.owners.Keys == w.routes.Keys && forall d :: d in w.routes ==> w.routes[d] == [w.owners[d]]
  }

  lemma AddCore(w: Tables, p: PeerInfo)
    requires Core(w)
    ensures Core(AddSpec(w, p))
  {
  }

  lemma RemoveCore(w: Tables, id: string)
    requires Core(w)
    ensures Core(RemoveSpec(w, id))
  {
  }

  lemma RerouteCore(inCidr: Membership, w: Tables, w': Tables)
    requires Core(w) && Rerouted(inCidr, w, w')
    ensures Core(w')
  {
    forall d | d in w.routes
      ensures |w'.routes[d]| == 1
    {
      assert RouteAfter(inCidr, w.peers, d, w.routes[d], w'.routes[d]);
    }
  }

  lemma NextCore(inCidr: Membership, op: MeshOp, w: Tables, w': Tables)
    requires Core(w) && Next(inCidr, op, w, w')
    ensures Core(w')
  {
    match op
    case Add(p) => AddCore(w, p);
    case Upsert(p, now) =>
      var stored := Stored(w, p, now);
      AddCore(w, stored);
    case Remove(id) => RemoveCore(w, id);
    case SetLatency(id, latency) =>
    case Stale(now, staleAfter) =>
    case Reroute => RerouteCore(inCidr, w, w');
  }

  lemma NextOneHop(inCidr: Membership, op: MeshOp, w: Tables, w': Tables)
    requires OneHopToOwner(w) && Next(inCidr, op, w, w') && !op.Reroute?
    ensures OneHopToOwner(w')
  {
  }

  // ----- When the tables stay in step -----

  /** Every peer owns its own ID. */
  ghost predicate OwnIds(w: Tables) {
    forall p :: p in w.peers ==> p in w.owners && w.owners[p] == p
  }

  ghost predicate OneKeySet(w: Tables) {
    w.owners.Keys == w.routes.Keys == w.latencies.Keys
  }

  /** All three maps have one key set, and each peer owns its ID at its own latency. */
  ghost predicate InStep(w: Tables) {
    && Core(w) && OneKeySet(w) && OwnIds(w)
    && forall p :: p in w.peers ==> w.latencies[p] == w.peers[p].latency
  }

  /** The operation stores a peer that advertises the ID of another one that is present. */
  ghost predicate Clash(op: MeshOp, after: Tables) {
    && Advertising(op) && op.p.id in after.peers
    && exists q :: q in after.peers && q != op.p.id && q in after.peers[op.p.id].allowed
  }

  /** No clash among the first n operations. */
  ghost predicate NoClash(ops: seq<MeshOp>, ws: seq<Tables>, n: nat)
    requires |ws| == |ops| + 1 && n <= |ops|
  {
    forall k :: 0 <= k < n ==> !Clash(ops[k], ws[k + 1])
  }

  /** The operation sets the latency of a peer whose ID has lost its route. */
  ghost predicate Strays(op: MeshOp, w: Tables) {
    op.SetLatency? && op.id in w.peers && op.id !in w.routes
  }

  lemma AdvertStep(inCidr: Membership, op: MeshOp, w: Tables, w': Tables) returns (p: PeerInfo)
    requires Core(w) && Next(inCidr, op, w, w') && Advertising(op)
    ensures w' == AddSpec(w, p) && p.id == op.p.id && p == w'.peers[p.id]
  {
    p := if op.Add? then op.p else Stored(w, op.p, op.now);
  }

  lemma AddOwnIds(w: Tables, p: PeerInfo)
    requires OwnIds(w)
    ensures OwnIds(AddSpec(w, p)) <==> forall q :: q in w.peers && q != p.id ==> q !in p.allowed
  {
    var w' := AddSpec(w, p);
    assert Dests(p)[0] == p.id;
    forall q | q in w'.peers
      ensures q in w'.owners && (w'.owners[q] == q <==> q == p.id || q !in p.allowed)
    {
      assert q in Dests(p) <==> q == p.id || q in p.allowed;
    }
  }

  /** One operation keeps every peer the owner of its ID exactly if it is no clash. */
  lemma OwnIdsStep(inCidr: Membership, op: MeshOp, w: Tables, w': Tables)
    requires Core(w) && OwnIds(w) && Next(inCidr, op, w, w')
    ensures OwnIds(w') <==> !Clash(op, w')
  {
    if Advertising(op) {
      var p := AdvertStep(inCidr, op, w, w');
      AddOwnIds(w, p);
    }
  }

  /**
   * A history leaves every peer the owner of its own ID throughout exactly if
   * no operation of it was a clash.
   */
  lemma {:induction false} OwnIdsExactly(inCidr: Membership, ops: seq<MeshOp>, ws: seq<Tables>, n: nat)
    requires IsRun(inCidr, ops, ws) && n <= |ops|
    ensures (forall k :: 0 <= k <= n ==> OwnIds(ws[k])) <==> NoClash(ops, ws, n)
    decreases n
  {
    if n > 0 {
      var m := n - 1;
      OwnIdsExactly(inCidr, ops, ws, m);
      EveryCore(inCidr, ops, ws, m);
      assert Next(inCidr, ops[m], ws[m], ws[m + 1]);
      if OwnIds(ws[m]) {
        OwnIdsStep(inCidr, ops[m], ws[m], ws[n]);
      }
      assert NoClash(ops, ws, n) <==> NoClash(ops, ws, m) && !Clash(ops[m], ws[m + 1]);
    }
  }

  lemma {:induction false} EveryCore(inCidr: Membership, ops: seq<MeshOp>, ws: seq<Tables>, n: nat)
    requires IsRun(inCidr, ops, ws) && n <= |ops|
    ensures Core(ws[n])
    decreases n
  {
    if n > 0 {
      var m := n - 1;
      EveryCore(inCidr, ops, ws, m);
      assert Next(inCidr, ops[m], ws[m], ws[m + 1]);
      NextCore(inCidr, ops[m], ws[m], ws[n]);
    }
  }

  /** One operation keeps one key set exactly if it does not stray. */
  lemma OneKeySetStep(inCidr: Membership, op: MeshOp, w: Tables, w': Tables)
    requires Core(w) && OneKeySet(w) && Next(inCidr, op, w, w')
    ensures OneKeySet(w') <==> !Strays(op, w)
  {
  }

  /** A history keeps the three maps on one key set throughout exactly if no operation of it strayed. */
  lemma {:induction false} OneKeySetExactly(inCidr: Membership, ops: seq<MeshOp>, ws: seq<Tables>, n: nat)
    requires IsRun(inCidr, ops, ws) && n <= |ops|
    ensures (forall k :: 0 <= k <= n ==> OneKeySet(ws[k])) <==> (forall k :: 0 <= k < n ==> !Strays(ops[k], ws[k]))
    decreases n
  {
    if n > 0 {
      var m := n - 1;
      OneKeySetExactly(inCidr, ops, ws, m);
      EveryCore(inCidr, ops, ws, m);
      assert Next(inCidr, ops[m], ws[m], ws[m + 1]);
      if OneKeySet(ws[m]) {
        OneKeySetStep(inCidr, ops[m], ws[m], ws[n]);
      }
    }
  }

  lemma AddInStep(w: Tables, p: PeerInfo)
    requires InStep(w) && OwnIds(AddSpec(w, p))
    ensures InStep(AddSpec(w, p))
  {
    var w' := AddSpec(w, p);
    AddCore(w, p);
    AddOwnIds(w, p);
    forall q | q in w'.peers
      ensures w'.latencies[q] == w'.peers[q].latency
    {
      assert q in Dests(p) <==> q == p.id || q in p.allowed;
      assert Dests(p)[0] == p.id;
    }
  }

  lemma RemoveInStep(w: Tables, id: string)
    requires InStep(w)
    ensures InStep(RemoveSpec(w, id))
  {
  }

  lemma LatencyInStep(w: Tables, id: string, latency: int)
    requires InStep(w)
    ensures InStep(LatencySpec(w, id, latency))
  {
  }

  lemma StaleInStep(w: Tables, now: int, staleAfter: int)
    requires InStep(w)
    ensures InStep(StaleSpec(w, now, staleAfter))
  {
  }

  lemma NextInStep(inCidr: Membership, op: MeshOp, w: Tables, w': Tables)
    requires InStep(w) && Next(inCidr, op, w, w') && !Clash(op, w')
    ensures InStep(w')
  {
    match op
    case Remove(id) => RemoveInStep(w, id);
    case SetLatency(id, latency) => LatencyInStep(w, id, latency);
    case Stale(now, staleAfter) => StaleInStep(w, now, staleAfter);
    case Reroute => RerouteCore(inCidr, w, w');
    case _ =>
      OwnIdsStep(inCidr, op, w, w');
      var p := AdvertStep(inCidr, op, w, w');
      AddInStep(w, p);
  }

  /**
   * The core holds after every history, the tables are in step as long as
   * there was no clash, and without reroutes every route is its owner.
   */
  lemma {:induction false} TablesStayInStep(inCidr: Membership, ops: seq<MeshOp>, ws: seq<Tables>, n: nat)
    requires IsRun(inCidr, ops, ws) && n <= |ops|
    ensures Core(ws[n])
    ensures NoClash(ops, ws, n) ==> InStep(ws[n])
    ensures Reroute !in ops ==> OneHopToOwner(ws[n])
    decreases n
  {
    EveryCore(inCidr, ops, ws, n);
    if n > 0 {
      var m := n - 1;
      TablesStayInStep(inCidr, ops, ws, m);
      assert Next(inCidr, ops[m], ws[m], ws[m + 1]);
      if NoClash(ops, ws, n) {
        assert NoClash(ops, ws, m);
        NextInStep(inCidr, ops[m], ws[m], ws[n]);
      }
      if Reroute !in ops {
        NextOneHop(inCidr, ops[m], ws[m], ws[n]);
      }
    }
  }

  /** A history keeps the tables in step throughout exactly if no operation of it was a clash. */
  lemma InStepExactly(inCidr: Membership, ops: seq<MeshOp>, ws: seq<Tables>, n: nat)
    requires IsRun(inCidr, ops, ws) && n <= |ops|
    ensures (forall k :: 0 <= k <= n ==> InStep(ws[k])) <==> NoClash(ops, ws, n)
  {
    OwnIdsExactly(inCidr, ops, ws, n);
    if NoClash(ops, ws, n) {
      forall k | 0 <= k <= n
        ensures InStep(ws[k])
      {
        assert NoClash(ops, ws, k);
        TablesStayInStep(inCidr, ops, ws, k);
      }
    }
  }

  // ----- Separate names never clash -----

  /** Peer IDs and allowed IPs are told apart by `isId`. */
  predicate Separated(isId: string -> bool, op: MeshOp) {
    Advertising(op) ==> isId(op.p.id) && forall a :: a in op.p.allowed ==> !isId(a)
  }

  ghost predicate AllSeparated(isId: string -> bool, ops: seq<MeshOp>) {
    forall op :: op in ops ==> Separated(isId, op)
  }

  ghost predicate Apart(isId: string -> bool, w: Tables) {
    forall p :: p in w.peers ==> isId(p) && forall a :: a in w.peers[p].allowed ==> !isId(a)
  }

  lemma NextApart(inCidr: Membership, isId: string -> bool, op: MeshOp, w: Tables, w': Tables)
    requires Apart(isId, w) && Separated(isId, op) && Core(w) && Next(inCidr, op, w, w')
    ensures Apart(isId, w') && !Clash(op, w')
  {
    if Advertising(op) {
      var p := AdvertStep(inCidr, op, w, w');
      assert isId(p.id) && forall a :: a in p.allowed ==> !isId(a);
    }
  }

  /** If IDs and allowed IPs are different strings, as they are meant to be, no operation is a clash. */
  lemma {:induction false} SeparatedNeverClashes(inCidr: Membership, isId: string -> bool, ops: seq<MeshOp>,
                                                 ws: seq<Tables>, n: nat)
    requires IsRun(inCidr, ops, ws) && n <= |ops| && AllSeparated(isId, ops)
    ensures NoClash(ops, ws, n) && Apart(isId, ws[n])
    decreases n
  {
    if n > 0 {
      var m := n - 1;
      SeparatedNeverClashes(inCidr, isId, ops, ws, m);
      EveryCore(inCidr, ops, ws, m);
      assert ops[m] in ops && Next(inCidr, ops[m], ws[m], ws[m + 1]);
      NextApart(inCidr, isId, ops[m], ws[m], ws[n]);
    }
  }

  // ----- A clash that strays -----

  /** A peer with a single allowed IP updates two keys of each table. */
  lemma AddPair(w: Tables, p: PeerInfo, d: string)
    requires p.allowed == [d]
    ensures AddSpec(w, p) == Tables(w.peers[p.id := p], w.routes[p.id := [p.id]][d := [p.id]],
                                    w.latencies[p.id := p.latency][d := p.latency],
                                    w.owners[p.id := p.id][d := p.id])
  {
    assert Dests(p) == [p.id] + [d] && [] + [p.id] == [p.id];
    PutAllSnoc(w.routes, [], p.id, [p.id]);
    PutAllSnoc(w.routes, [p.id], d, [p.id]);
    PutAllSnoc(w.latencies, [], p.id, p.latency);
    PutAllSnoc(w.latencies, [p.id], d, p.latency);
    PutAllSnoc(w.owners, [], p.id, p.id);
    PutAllSnoc(w.owners, [p.id], d, p.id);
  }

  lemma ExtendRun(inCidr: Membership, ops: seq<MeshOp>, ws: seq<Tables>, op: MeshOp, w: Tables)
    returns (ops': seq<MeshOp>, ws': seq<Tables>)
    requires IsRun(inCidr, ops, ws) && Next(inCidr, op, ws[|ops|], w)
    ensures ops' == ops + [op] && ws' == ws + [w] && IsRun(inCidr, ops', ws')
  {
    ops', ws' := ops + [op], ws + [w];
  }

  lemma AddBoth(inCidr: Membership, p: PeerInfo, q: PeerInfo) returns (ops: seq<MeshOp>, ws: seq<Tables>)
    ensures IsRun(inCidr, ops, ws) && ops == [Add(p), Add(q)] && ws[2] == AddSpec(AddSpec(EMPTY, p), q)
  {
    ops, ws := ExtendRun(inCidr, [], [EMPTY], Add(p), AddSpec(EMPTY, p));
    ops, ws := ExtendRun(inCidr, ops, ws, Add(q), AddSpec(AddSpec(EMPTY, p), q));
  }

  lemma Overlap(a: PeerInfo, b: PeerInfo) returns (w: Tables)
    requires a.id == "a" && a.allowed == ["b"] && b.id == "b" && b.allowed == []
    ensures w == AddSpec(AddSpec(EMPTY, b), a)
    ensures "b" in w.peers && w.peers["a"] == a && w.owners.Keys == w.routes.Keys
    ensures "b" in w.owners && w.owners["b"] == "a" && "b" in w.routes
  {
    w := AddSpec(AddSpec(EMPTY, b), a);
    AddPair(AddSpec(EMPTY, b), a, "b");
  }

  lemma OverlapRemoved(w: Tables)
    requires "a" in w.peers && "b" in w.peers && "b" in w.owners && w.owners["b"] == "a"
    ensures var v := RemoveSpec(w, "a");
            Strays(SetLatency("b", 7), v) && !OneKeySet(LatencySpec(v, "b", 7))
  {
    assert "b" in OwnedBy(w.owners, "a");
  }

  /** "a" advertises the ID of "b" and is removed; "b" then reports a latency. */
  lemma ClashHistory(inCidr: Membership) returns (ops: seq<MeshOp>, ws: seq<Tables>)
    ensures IsRun(inCidr, ops, ws) && |ops| == 4
    ensures Clash(ops[1], ws[2]) && !OwnIds(ws[2])
    ensures Strays(ops[3], ws[3]) && !OneKeySet(ws[4])
  {
    var b := PeerInfo("b", "", "", [], 1, 0, true);
    var a := PeerInfo("a", "", "", ["b"], 1, 0, true);
    ops, ws := AddBoth(inCidr, b, a);
    var w := Overlap(a, b);
    assert a.allowed[0] == "b" && Clash(ops[1], w);
    OverlapRemoved(w);
    var v := RemoveSpec(w, "a");
    ops, ws := ExtendRun(inCidr, ops, ws, Remove("a"), v);
    ops, ws := ExtendRun(inCidr, ops, ws, SetLatency("b", 7), LatencySpec(v, "b", 7));
  }

  // ----- Upserts repeat harmlessly -----

  /** Repeating an upsert changes nothing more. */
  lemma UpsertIsIdempotent(w: Tables, p: PeerInfo, now: int)
    requires Core(w)
    ensures var once := UpsertSpec(w, p, now); UpsertSpec(once, p, now) == once
  {
    var stored := Stored(w, p, now);
    var once := UpsertSpec(w, p, now);
    assert Stored(once, p, now) == stored;
    PutAllAgain(w.routes, Dests(stored), [stored.id]);
    PutAllAgain(w.latencies, Dests(stored), stored.latency);
    PutAllAgain(w.owners, Dests(stored), stored.id);
  }

  lemma PutAllAgain<V>(m: map<string, V>, ds: seq<string>, v: V)
    ensures PutAll(PutAll(m, ds, v), ds, v) == PutAll(m, ds, v)
  {
  }
}
