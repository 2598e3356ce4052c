// Who owns a destination after any history of the mesh tables, and whether
// it still advertises it.
module MeshOwners {
  import opened Durations
  import opened Mesh
  import opened MeshRuns

  // ----- The owner index is the history -----

  ghost predicate Claims(op: MeshOp, after: Tables, d: string) {
    (op.Add? || op.Upsert?) && op.p.id in after.peers && d in Dests(after.peers[op.p.id])
  }

  /**
   * The operation ends the claim of `id` on `d`: it removes `id` or, where
   * `byKey` says that this counts, a peer whose ID is `d`.
   */
  ghost predicate EndsClaim(op: MeshOp, w: Tables, d: string, id: string, byKey: bool) {
    op == Remove(id) || (byKey && op == Remove(d) && d in w.peers)
  }

  /** `id` advertised `d`, and since then nobody has advertised it and nothing has ended the claim. */
  ghost predicate LastClaim(ops: seq<MeshOp>, ws: seq<Tables>, n: nat, d: string, id: string, byKey: bool)
    requires |ws| == |ops| + 1 && n <= |ops|
  {
    exists k :: ClaimedAt(ops, ws, n, d, id, byKey, k)
  }

  ghost predicate ClaimedAt(ops: seq<MeshOp>, ws: seq<Tables>, n: nat, d: string, id: string, byKey: bool, k: int)
    requires |ws| == |ops| + 1 && n <= |ops|
  {
    && 0 <= k < n && Claims(ops[k], ws[k + 1], d) && ops[k].p.id == id
    && forall j :: k < j < n ==> !Claims(ops[j], ws[j + 1], d) && !EndsClaim(ops[j], ws[j], d, id, byKey)
  }

  lemma LastClaimStep(ops: seq<MeshOp>, ws: seq<Tables>, n: nat, d: string, id: string, byKey: bool)
    requires |ws| == |ops| + 1 && n < |ops|
    ensures LastClaim(ops, ws, n + 1, d, id, byKey) <==>
              (if Claims(ops[n], ws[n + 1], d) then ops[n].p.id == id
               else LastClaim(ops, ws, n, d, id, byKey) && !EndsClaim(ops[n], ws[n], d, id, byKey))
  {
    if Claims(ops[n], ws[n + 1], d) {
      if ops[n].p.id == id {
        assert ClaimedAt(ops, ws, n + 1, d, id, byKey, n);
      }
    } else {
      if k :| ClaimedAt(ops, ws, n, d, id, byKey, k) {
        assert !EndsClaim(ops[n], ws[n], d, id, byKey) ==> ClaimedAt(ops, ws, n + 1, d, id, byKey, k);
      }
      var m := n + 1;
      if k :| ClaimedAt(ops, ws, m, d, id, byKey, k) {
        assert ClaimedAt(ops, ws, n, d, id, byKey, k);
      }
    }
  }

  ghost predicate Owns(w: Tables, id: string, d: string) {
    d in w.owners && w.owners[d] == id
  }

  lemma OwnerAdd(w: Tables, p: PeerInfo, d: string, id: string)
    ensures Owns(AddSpec(w, p), id, d) <==> (if d in Dests(p) then p.id == id else Owns(w, id, d))
  {
  }

  lemma OwnerRemove(w: Tables, gone: string, d: string, id: string, byKey: bool)
    requires Core(w) && (byKey || OwnIds(w))
    ensures Owns(RemoveSpec(w, gone), id, d) <==> Owns(w, id, d) && !EndsClaim(Remove(gone), w, d, id, byKey)
  {
  }

  lemma OwnerStep(inCidr: Membership, op: MeshOp, w: Tables, w': Tables, d: string, id: string, byKey: bool)
    requires Core(w) && (byKey || OwnIds(w)) && Next(inCidr, op, w, w')
    ensures Owns(w', id, d) <==>
              if Claims(op, w', d) then op.p.id == id else Owns(w, id, d) && !EndsClaim(op, w, d, id, byKey)
  {
    if Advertising(op) {
      var p := AdvertStep(inCidr, op, w, w');
      OwnerAdd(w, p, d, id);
    } else if op.Remove? {
      OwnerRemove(w, op.id, d, id, byKey);
    }
  }

  lemma {:induction false} OwnerHistory(inCidr: Membership, ops: seq<MeshOp>, ws: seq<Tables>, n: nat, d: string,
                                        id: string, byKey: bool)
    requires IsRun(inCidr, ops, ws) && n <= |ops| && (byKey || NoClash(ops, ws, n))
    ensures Owns(ws[n], id, d) <==> LastClaim(ops, ws, n, d, id, byKey)
    decreases n
  {
    if n > 0 {
      var m := n - 1;
      OwnerHistory(inCidr, ops, ws, m, d, id, byKey);
      TablesStayInStep(inCidr, ops, ws, m);
      assert Next(inCidr, ops[m], ws[m], ws[m + 1]);
      OwnerStep(inCidr, ops[m], ws[m], ws[n], d, id, byKey);
      LastClaimStep(ops, ws, m, d, id, byKey);
    }
  }

  /**
   * After every history a peer owns a destination exactly if it advertised
   * it, nobody has since, and neither it nor a peer named like the
   * destination was removed since. Without a clash so far the last proviso is
   * not needed: the owner is the last peer that advertised the destination,
   * unless it was removed since.
   */
  lemma OwnerIndexIsHistory(inCidr: Membership, ops: seq<MeshOp>, ws: seq<Tables>, n: nat, d: string, id: string)
    requires IsRun(inCidr, ops, ws) && n <= |ops|
    ensures Owns(ws[n], id, d) <==> LastClaim(ops, ws, n, d, id, true)
    ensures NoClash(ops, ws, n) ==> (Owns(ws[n], id, d) <==> LastClaim(ops, ws, n, d, id, false))
  {
    OwnerHistory(inCidr, ops, ws, n, d, id, true);
    if NoClash(ops, ws, n) {
      OwnerHistory(inCidr, ops, ws, n, d, id, false);
    }
  }

  // ----- Do owners advertise what they own? -----

  ghost predicate OwnersAdvertise(w: Tables) {
    forall d :: d in w.owners ==> w.owners[d] in w.peers && d in Dests(w.peers[w.owners[d]])
  }

  ghost predicate Drops(op: MeshOp, w: Tables, after: Tables, d: string) {
    Advertising(op) && op.p.id in after.peers && Owns(w, op.p.id, d) && d !in Dests(after.peers[op.p.id])
  }

  /** The operation stores a peer without a destination that the peer owns. */
  ghost predicate Abandons(op: MeshOp, w: Tables, after: Tables) {
    exists d :: Drops(op, w, after, d)
  }

  lemma AddAdvertises(w: Tables, p: PeerInfo)
    requires Core(w) && OwnersAdvertise(w)
    ensures OwnersAdvertise(AddSpec(w, p)) <==> forall d :: Owns(w, p.id, d) ==> d in Dests(p)
  {
    var w' := AddSpec(w, p);
    forall d | d in w'.owners
      ensures w'.owners[d] in w'.peers
      ensures d in Dests(w'.peers[w'.owners[d]]) <==> (Owns(w, p.id, d) ==> d in Dests(p))
    {
    }
  }

  /** One operation keeps every owner an advertiser exactly if it abandons nothing. */
  lemma OwnersAdvertiseStep(inCidr: Membership, op: MeshOp, w: Tables, w': Tables)
    requires Core(w) && OwnersAdvertise(w) && Next(inCidr, op, w, w')
    ensures OwnersAdvertise(w') <==> !Abandons(op, w, w')
  {
    if Advertising(op) {
      var p := AdvertStep(inCidr, op, w, w');
      AddAdvertises(w, p);
      assert forall d :: Drops(op, w, w', d) <==> Owns(w, p.id, d) && d !in Dests(p);
    }
  }

  /**
   * A history leaves every owned destination advertised by its owner
   * throughout exactly if no add or upsert of it shortened a peer's list by a
   * destination the peer owned.
   */
  lemma {:induction false} OwnersAdvertiseExactly(inCidr: Membership, ops: seq<MeshOp>, ws: seq<Tables>, n: nat)
    requires IsRun(inCidr, ops, ws) && n <= |ops|
    ensures (forall k :: 0 <= k <= n ==> OwnersAdvertise(ws[k]))
       <==> (forall k :: 0 <= k < n ==> !Abandons(ops[k], ws[k], ws[k + 1]))
    decreases n
  {
    if n > 0 {
      var m := n - 1;
      OwnersAdvertiseExactly(inCidr, ops, ws, m);
      EveryCore(inCidr, ops, ws, m);
      assert Next(inCidr, ops[m], ws[m], ws[m + 1]);
      if OwnersAdvertise(ws[m]) {
        OwnersAdvertiseStep(inCidr, ops[m], ws[m], ws[n]);
      }
    }
  }

  /** An abandoned destination keeps its owner, and its route. */
  lemma AbandonedStays(inCidr: Membership, op: MeshOp, w: Tables, w': Tables, d: string)
    requires Core(w) && Next(inCidr, op, w, w') && Drops(op, w, w', d)
    ensures Owns(w', op.p.id, d) && w'.routes[d] == w.routes[d]
  {
    var p := AdvertStep(inCidr, op, w, w');
  }

  lemma AddOne(p: PeerInfo, d: string)
    requires p.allowed == [d]
    ensures var w := AddSpec(EMPTY, p);
            p.id in w.peers && w.peers[p.id] == p && Owns(w, p.id, d) && d in w.routes && w.routes[d] == [p.id]
  {
    AddPair(EMPTY, p, d);
  }

  lemma UpsertDrops(w: Tables, p: PeerInfo, d: string, now: int)
    requires Core(w) && p.id in w.peers && p.allowed != [] && d !in [p.id] + p.allowed && Owns(w, p.id, d)
    ensures Drops(Upsert(p, now), w, UpsertSpec(w, p, now), d)
  {
    assert Stored(w, p, now).allowed == p.allowed;
  }

  lemma DropBreaks(inCidr: Membership, op: MeshOp, w: Tables, w': Tables, d: string)
    requires Core(w) && Next(inCidr, op, w, w') && Drops(op, w, w', d)
    ensures !OwnersAdvertise(w')
  {
    AbandonedStays(inCidr, op, w, w', d);
    assert w'.owners[d] == op.p.id;
  }

  /** "b" advertises "x" and is then upserted with "y" instead. */
  lemma AbandonHistory(inCidr: Membership) returns (ops: seq<MeshOp>, ws: seq<Tables>)
    ensures IsRun(inCidr, ops, ws) && |ops| == 2
    ensures Drops(ops[1], ws[1], ws[2], "x") && !OwnersAdvertise(ws[2])
    ensures Owns(ws[2], "b", "x") && ws[2].routes["x"] == ["b"]
  {
    var b := PeerInfo("b", "", "", ["x"], 1, 0, true);
    var op := Upsert(b.(allowed := ["y"]), 0);
    var w := AddSpec(EMPTY, b);
    var w' := UpsertSpec(w, op.p, 0);
    AddOne(b, "x");
    AddCore(EMPTY, b);
    UpsertDrops(w, op.p, "x", 0);
    AbandonedStays(inCidr, op, w, w', "x");
    DropBreaks(inCidr, op, w, w', "x");
    ops, ws := ExtendRun(inCidr, [], [EMPTY], Add(b), w);
    ops, ws := ExtendRun(inCidr, ops, ws, op, w');
  }
}
