// What the tables know about a peer after any history: for every field, the
// last operation that reported it.
module MeshPeers {
  import opened Mesh
  import opened MeshRuns
  import opened MeshOwners

  predicate Names(op: MeshOp, id: string) {
    (op.Add? || op.Upsert?) && op.p.id == id
  }

  // ----- Presence -----

  ghost predicate JoinedAt(ops: seq<MeshOp>, n: nat, id: string, k: int)
    requires n <= |ops|
  {
    0 <= k < n && Names(ops[k], id) && forall j :: k < j < n ==> ops[j] != Remove(id)
  }

  ghost predicate Joined(ops: seq<MeshOp>, n: nat, id: string)
    requires n <= |ops|
  {
    exists k :: JoinedAt(ops, n, id, k)
  }

  lemma JoinedStep(ops: seq<MeshOp>, n: nat, id: string)
    requires n < |ops|
    ensures Joined(ops, n + 1, id) <==> Names(ops[n], id) || (ops[n] != Remove(id) && Joined(ops, n, id))
  {
    var m := n + 1;
    if k :| JoinedAt(ops, m, id, k) {
      assert k < n ==> JoinedAt(ops, n, id, k);
    }
    if Names(ops[n], id) {
      assert JoinedAt(ops, m, id, n);
    } else if ops[n] != Remove(id) {
      if k :| JoinedAt(ops, n, id, k) {
        assert JoinedAt(ops, m, id, k);
      }
    }
  }

  /** A peer is known exactly if it was added or upserted and not removed since. */
  lemma {:induction false} PresentExactly(inCidr: Membership, ops: seq<MeshOp>, ws: seq<Tables>, n: nat, id: string)
    requires IsRun(inCidr, ops, ws) && n <= |ops|
    ensures id in ws[n].peers <==> Joined(ops, n, id)
    decreases n
  {
    if n > 0 {
      var m := n - 1;
      PresentExactly(inCidr, ops, ws, m, id);
      EveryCore(inCidr, ops, ws, m);
      assert Next(inCidr, ops[m], ws[m], ws[m + 1]);
      JoinedStep(ops, m, id);
    }
  }

  // ----- Fields -----

  datatype Field = Endpoint | PublicKey | Allowed | Latency | LastSeen

  datatype Value = Text(text: string) | List(list: seq<string>) | Number(number: int)

  function ValueOf(f: Field, p: PeerInfo): Value {
    match f
    case Endpoint => Text(p.endpoint)
    case PublicKey => Text(p.publicKey)
    case Allowed => List(p.allowed)
    case Latency => Number(p.latency)
    case LastSeen => Number(p.lastSeen)
  }

  /** When an add or upsert saw the peer, in seconds: an Add brings its own time, an upsert takes the clock's. */
  function SeenIn(op: MeshOp): int {
    if op.Add? then op.p.lastSeen else if op.Upsert? then op.now else 0
  }

  /** The value an operation reports for the field. */
  function Reported(f: Field, op: MeshOp): Value {
    match op
    case Add(p) => ValueOf(f, p)
    case Upsert(p, now) => if f.LastSeen? then Number(now) else ValueOf(f, p)
    case SetLatency(_, latency) => Number(latency)
    case _ => Text("")
  }

  predicate Carries(f: Field, p: PeerInfo) {
    match f
    case Endpoint => p.endpoint != ""
    case PublicKey => p.publicKey != ""
    case Allowed => p.allowed != []
    case Latency => p.latency > 0
    case LastSeen => true
  }

  /**
   * Whether the operation reports the field of peer `id`, which is known
   * before it or not: an add or an insertion always, an upsert of a known
   * peer if it carries something, and a new latency for a known peer.
   */
  predicate Reports(f: Field, op: MeshOp, id: string, known: bool) {
    || (Names(op, id) && (op.Add? || !known || Carries(f, op.p)))
    || (f.Latency? && op.SetLatency? && op.id == id && known)
  }

  ghost predicate LastReport(f: Field, ops: seq<MeshOp>, ws: seq<Tables>, n: nat, id: string, k: int)
    requires |ws| == |ops| + 1 && n <= |ops|
  {
    && 0 <= k < n && Reports(f, ops[k], id, id in ws[k].peers)
    && forall j :: k < j < n ==> !Reports(f, ops[j], id, id in ws[j].peers)
  }

  lemma NextReports(inCidr: Membership, f: Field, op: MeshOp, w: Tables, w': Tables, id: string)
    requires Core(w) && Next(inCidr, op, w, w') && id in w'.peers
    ensures if Reports(f, op, id, id in w.peers) then ValueOf(f, w'.peers[id]) == Reported(f, op)
            else id in w.peers && ValueOf(f, w'.peers[id]) == ValueOf(f, w.peers[id])
  {
  }

  /**
   * What is known about a peer after any history is, for each field, what the
   * last operation reported that did report it.
   */
  lemma {:induction false} FieldIsHistory(inCidr: Membership, f: Field, ops: seq<MeshOp>, ws: seq<Tables>, n: nat,
                                          id: string) returns (k: int)
    requires IsRun(inCidr, ops, ws) && n <= |ops| && id in ws[n].peers
    ensures LastReport(f, ops, ws, n, id, k) && ValueOf(f, ws[n].peers[id]) == Reported(f, ops[k])
    decreases n
  {
    var m := n - 1;
    EveryCore(inCidr, ops, ws, m);
    assert Next(inCidr, ops[m], ws[m], ws[m + 1]);
    NextReports(inCidr, f, ops[m], ws[m], ws[n], id);
    if Reports(f, ops[m], id, id in ws[m].peers) {
      k := m;
    } else {
      k := FieldIsHistory(inCidr, f, ops, ws, m, id);
    }
  }

  // ----- Connection -----

  /** Between the k-th operation, which reported the peer, and the n-th no topology update found it stale. */
  ghost predicate NeverStale(ops: seq<MeshOp>, n: nat, k: int)
    requires 0 <= k < n <= |ops|
  {
    forall j :: k < j < n && ops[j].Stale? ==> ops[j].now - SeenIn(ops[k]) * 1_000_000_000 <= ops[j].staleAfter
  }

  ghost predicate ConnectedSince(ops: seq<MeshOp>, ws: seq<Tables>, n: nat, id: string, k: int)
    requires |ws| == |ops| + 1 && n <= |ops| && id in ws[n].peers
  {
    && LastReport(LastSeen, ops, ws, n, id, k) && (ops[k].Add? || ops[k].Upsert?)
    && ws[n].peers[id].lastSeen == SeenIn(ops[k])
    && (ws[n].peers[id].connected <==> ops[k].p.connected && NeverStale(ops, n, k))
  }

  lemma StaleStep(ops: seq<MeshOp>, n: nat, k: int)
    requires 0 <= k < n < |ops|
    ensures NeverStale(ops, n + 1, k) <==>
              && NeverStale(ops, n, k)
              && (ops[n].Stale? ==> ops[n].now - SeenIn(ops[k]) * 1_000_000_000 <= ops[n].staleAfter)
  {
  }

  lemma ConnectedStep(inCidr: Membership, ops: seq<MeshOp>, ws: seq<Tables>, n: nat, id: string, k: int)
    requires |ws| == |ops| + 1 && n < |ops| && id in ws[n].peers && id in ws[n + 1].peers
    requires Core(ws[n]) && Next(inCidr, ops[n], ws[n], ws[n + 1]) && !Names(ops[n], id)
    requires ConnectedSince(ops, ws, n, id, k)
    ensures ConnectedSince(ops, ws, n + 1, id, k)
  {
    StaleStep(ops, n, k);
  }

  lemma ConnectedAnew(inCidr: Membership, ops: seq<MeshOp>, ws: seq<Tables>, n: nat, id: string)
    requires |ws| == |ops| + 1 && n < |ops| && id in ws[n + 1].peers
    requires Core(ws[n]) && Next(inCidr, ops[n], ws[n], ws[n + 1]) && Names(ops[n], id)
    ensures ConnectedSince(ops, ws, n + 1, id, n)
  {
    assert LastReport(LastSeen, ops, ws, n + 1, id, n) && NeverStale(ops, n + 1, n);
  }

  /**
   * A known peer is connected exactly if its last add or upsert said so and
   * no topology update since then found more than its limit between its own
   * time and the one at which that add or upsert saw the peer.
   */
  lemma {:induction false} ConnectedIsHistory(inCidr: Membership, ops: seq<MeshOp>, ws: seq<Tables>, n: nat, id: string)
    returns (k: int)
    requires IsRun(inCidr, ops, ws) && n <= |ops| && id in ws[n].peers
    ensures ConnectedSince(ops, ws, n, id, k)
    decreases n
  {
    var m := n - 1;
    EveryCore(inCidr, ops, ws, m);
    assert Next(inCidr, ops[m], ws[m], ws[m + 1]);
    if Names(ops[m], id) {
      ConnectedAnew(inCidr, ops, ws, m, id);
      k := m;
    } else {
      k := ConnectedIsHistory(inCidr, ops, ws, m, id);
      ConnectedStep(inCidr, ops, ws, m, id, k);
    }
  }

  // ----- The latency table -----

  /** The operation writes the latency of `d`: somebody advertises it, or the known peer `d` reports one. */
  ghost predicate Times(op: MeshOp, w: Tables, after: Tables, d: string) {
    Claims(op, after, d) || (op.SetLatency? && op.id == d && d in w.peers)
  }

  ghost function TimeOf(op: MeshOp, after: Tables): int {
    if Advertising(op) && op.p.id in after.peers then after.peers[op.p.id].latency
    else if op.SetLatency? then op.latency
    else 0
  }

  ghost predicate LastTimed(ops: seq<MeshOp>, ws: seq<Tables>, n: nat, d: string, k: int)
    requires |ws| == |ops| + 1 && n <= |ops|
  {
    && 0 <= k < n && Times(ops[k], ws[k], ws[k + 1], d)
    && forall j :: k < j < n ==> !Times(ops[j], ws[j], ws[j + 1], d)
  }

  lemma LatencyStep(inCidr: Membership, op: MeshOp, w: Tables, w': Tables, d: string)
    requires Core(w) && Next(inCidr, op, w, w') && d in w'.latencies
    ensures if Times(op, w, w', d) then w'.latencies[d] == TimeOf(op, w')
            else d in w.latencies && w'.latencies[d] == w.latencies[d]
  {
    if Advertising(op) {
      var p := AdvertStep(inCidr, op, w, w');
    }
  }

  /** A latency in the table is that of the peer that last advertised the destination, or the last one set for it. */
  lemma {:induction false} LatencyTableIsHistory(inCidr: Membership, ops: seq<MeshOp>, ws: seq<Tables>, n: nat,
                                                 d: string) returns (k: int)
    requires IsRun(inCidr, ops, ws) && n <= |ops| && d in ws[n].latencies
    ensures LastTimed(ops, ws, n, d, k) && ws[n].latencies[d] == TimeOf(ops[k], ws[k + 1])
    decreases n
  {
    var m := n - 1;
    EveryCore(inCidr, ops, ws, m);
    assert Next(inCidr, ops[m], ws[m], ws[m + 1]);
    LatencyStep(inCidr, ops[m], ws[m], ws[n], d);
    if Times(ops[m], ws[m], ws[n], d) {
      k := m;
    } else {
      k := LatencyTableIsHistory(inCidr, ops, ws, m, d);
    }
  }
}
