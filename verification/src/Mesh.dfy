// Mesh routing tables: three maps that follow the peer set, as mutable
// objects tied to functions (and, for rerouting, a relation) on snapshots.
module Mesh {
  import opened Wrappers
  import opened Durations

  datatype PeerInfo = PeerInfo(
    id: string,
    endpoint: string,
    publicKey: string,
    allowed: seq<string>,
    latency: int,
    lastSeen: int,
    connected: bool)

  datatype Tables = Tables(
    peers: map<string, PeerInfo>,
    routes: map<string, seq<string>>,
    latencies: map<string, int>,
    owners: map<string, string>)

  /** Decides whether an IP address lies in a CIDR block. */
  type Membership = (string, string) -> bool

  function Dests(p: PeerInfo): seq<string> {
    [p.id] + p.allowed
  }

  function PutAll<V>(m: map<string, V>, ds: seq<string>, v: V): (r: map<string, V>)
    ensures r.Keys == m.Keys + set x | x in ds
  {
    map d | d in m.Keys + (set x | x in ds) :: if d in ds then v else m[d]
  }

  lemma PutAllSnoc<V>(m: map<string, V>, ds: seq<string>, d: string, v: V)
    ensures PutAll(m, ds, v)[d := v] == PutAll(m, ds + [d], v)
    ensures ds == [] ==> PutAll(m, ds, v) == m
  {
  }

  ghost function AddSpec(w: Tables, p: PeerInfo): Tables {
    Tables(w.peers[p.id := p],
           PutAll(w.routes, Dests(p), [p.id]),
           PutAll(w.latencies, Dests(p), p.latency),
           PutAll(w.owners, Dests(p), p.id))
  }

  /** The known peer `p` refreshed with the fields of `update` that carry something. */
  function Merge(p: PeerInfo, update: PeerInfo, now: int): PeerInfo {
    p.(endpoint := if update.endpoint != "" then update.endpoint else p.endpoint,
       publicKey := if update.publicKey != "" then update.publicKey else p.publicKey,
       latency := if update.latency > 0 then update.latency else p.latency,
       allowed := if update.allowed != [] then update.allowed else p.allowed,
       connected := update.connected,
       lastSeen := now)
  }

  /** The peer record an upsert stores. */
  ghost function Stored(w: Tables, p: PeerInfo, now: int): PeerInfo {
    if p.id in w.peers then Merge(w.peers[p.id], p, now) else p.(lastSeen := now)
  }

  ghost function UpsertSpec(w: Tables, p: PeerInfo, now: int): Tables {
    AddSpec(w, Stored(w, p, now))
  }

  ghost function LatencySpec(w: Tables, id: string, latency: int): Tables {
    if id in w.peers then
      w.(peers := w.peers[id := w.peers[id].(latency := latency)], latencies := w.latencies[id := latency])
    else
      w
  }

  /** The destinations a removal deletes: the peer's ID and all that it owns. */
  ghost function OwnedBy(owners: map<string, string>, id: string): set<string> {
    {id} + set d | d in owners && owners[d] == id
  }

  lemma DropOne<V>(m: map<string, V>, gone: set<string>, d: string)
    ensures m - gone - {d} == m - (gone + {d})
  {
  }

  ghost function RemoveSpec(w: Tables, id: string): Tables {
    if id !in w.peers then w
    else
      var gone := OwnedBy(w.owners, id);
      Tables(w.peers - {id}, w.routes - gone, w.latencies - gone, w.owners - gone)
  }

  predicate IsStale(p: PeerInfo, now: int, staleAfter: int) {
    now - p.lastSeen * SECOND > staleAfter
  }

  ghost function StaleSpec(w: Tables, now: int, staleAfter: int): Tables {
    w.(peers := map p | p in w.peers ::
         if IsStale(w.peers[p], now, staleAfter) then w.peers[p].(connected := false) else w.peers[p])
  }

  predicate Advertises(inCidr: Membership, allowed: seq<string>, dest: string) {
    exists k :: 0 <= k < |allowed| && Matches(inCidr, allowed[k], dest)
  }

  predicate Matches(inCidr: Membership, allowed: string, dest: string) {
    allowed == dest || ('/' in allowed && inCidr(dest, allowed))
  }

  /** Peer `id` can stand in for `excluded` on the way to `dest`. */
  ghost predicate Alternative(inCidr: Membership, peers: map<string, PeerInfo>, dest: string, excluded: string,
                              id: string)
  {
    id in peers && id != excluded && peers[id].connected && Advertises(inCidr, peers[id].allowed, dest)
  }

  ghost predicate Broken(peers: map<string, PeerInfo>, route: seq<string>) {
    route != [] && route[0] in peers && !peers[route[0]].connected
  }

  ghost predicate RouteAfter(inCidr: Membership, peers: map<string, PeerInfo>, dest: string, before: seq<string>,
                             after: seq<string>)
  {
    if Broken(peers, before) then
      if after == before then
        forall id :: !Alternative(inCidr, peers, dest, before[0], id)
      else
        |after| == 1 && Alternative(inCidr, peers, dest, before[0], after[0])
    else
      after == before
  }

  /** One reroute pass, for whatever orders the maps are iterated in. */
  ghost predicate Rerouted(inCidr: Membership, w: Tables, w': Tables) {
    && w' == w.(routes := w'.routes)
    && w'.routes.Keys == w.routes.Keys
    && forall d :: d in w.routes ==> RouteAfter(inCidr, w.peers, d, w.routes[d], w'.routes[d])
  }

  class Peer {
    const id: string
    var endpoint: string
    var publicKey: string
    var allowed: seq<string>
    var latency: int
    var lastSeen: int
    var connected: bool

    constructor (info: PeerInfo)
      ensures Info() == info
    {
      id := info.id;
      endpoint, publicKey, allowed := info.endpoint, info.publicKey, info.allowed;
      latency, lastSeen, connected := info.latency, info.lastSeen, info.connected;
    }

    ghost function Info(): PeerInfo
      reads this
    {
      PeerInfo(id, endpoint, publicKey, allowed, latency, lastSeen, connected)
    }

    method Refresh(update: Peer, now: int)
      modifies this
      ensures Info() == Merge(old(Info()), old(update.Info()), now)
    {
      if update.endpoint != "" {
        endpoint := update.endpoint;
      }
      if update.publicKey != "" {
        publicKey := update.publicKey;
      }
      if update.latency > 0 {
        latency := update.latency;
      }
      if update.allowed != [] {
        allowed := update.allowed;
      }
      connected := update.connected;
      lastSeen := now;
    }
  }

  class MeshNetwork {
    const inCidr: Membership
    var peers: map<string, Peer>
    var routes: map<string, seq<string>>
    var latencies: map<string, int>
    var owners: map<string, string>

    constructor (inCidr: Membership)
      ensures Valid() && View() == Tables(map[], map[], map[], map[])
    {
      this.inCidr := inCidr;
      peers, routes, latencies, owners := map[], map[], map[], map[];
    }

    ghost predicate Valid()
      reads this
    {
      forall n :: n in peers ==> peers[n].id == n
    }

    ghost function PeerView(): map<string, PeerInfo>
      reads this, peers.Values
    {
      map n | n in peers :: peers[n].Info()
    }

    ghost function View(): Tables
      reads this, peers.Values
    {
      Tables(PeerView(), routes, latencies, owners)
    }

    method UpdateRoutingForPeer(peer: Peer)
      modifies this`routes, this`latencies, this`owners
      ensures routes == PutAll(old(routes), Dests(peer.Info()), [peer.id])
      ensures latencies == PutAll(old(latencies), Dests(peer.Info()), peer.latency)
      ensures owners == PutAll(old(owners), Dests(peer.Info()), peer.id)
    {
      routes := routes[peer.id := [peer.id]];
      latencies := latencies[peer.id := peer.latency];
      owners := owners[peer.id := peer.id];
      ghost var ds := [peer.id];
      PutAllSnoc(old(routes), [], peer.id, [peer.id]);
      PutAllSnoc(old(latencies), [], peer.id, peer.latency);
      PutAllSnoc(old(owners), [], peer.id, peer.id);
      assert [] + ds == ds;
      for k := 0 to |peer.allowed|
        invariant ds == [peer.id] + peer.allowed[..k]
        invariant routes == PutAll(old(routes), ds, [peer.id])
        invariant latencies == PutAll(old(latencies), ds, peer.latency)
        invariant owners == PutAll(old(owners), ds, peer.id)
      {
        var d := peer.allowed[k];
        PutAllSnoc(old(routes), ds, d, [peer.id]);
        PutAllSnoc(old(latencies), ds, d, peer.latency);
        PutAllSnoc(old(owners), ds, d, peer.id);
        routes := routes[d := [peer.id]];
        latencies := latencies[d := peer.latency];
        owners := owners[d := peer.id];
        ds := ds + [d];
      }
      assert ds == Dests(peer.Info());
    }

    method Link(peer: Peer)
      requires Valid()
      modifies this
      ensures Valid() && View() == AddSpec(old(View()), peer.Info())
    {
      peers := peers[peer.id := peer];
      UpdateRoutingForPeer(peer);
      assert PeerView() == old(PeerView())[peer.id := peer.Info()];
    }

    method AddPeer(peer: Peer)
      requires Valid()
      modifies this
      ensures Valid() && View() == AddSpec(old(View()), old(peer.Info()))
    {
      Link(peer);
    }

    method UpsertPeer(peer: Peer, now: int)
      requires Valid()
      modifies this, peers.Values, peer
      ensures Valid() && View() == UpsertSpec(old(View()), old(peer.Info()), now)
    {
      if peer.id in peers {
        UpdateKnown(peer, now);
      } else {
        peer.lastSeen := now;
        assert PeerView() == old(PeerView());
        Link(peer);
      }
    }

    method UpdateKnown(peer: Peer, now: int)
      requires Valid() && peer.id in peers
      modifies this`routes, this`latencies, this`owners, peers.Values
      ensures Valid() && View() == AddSpec(old(View()), old(Merge(peers[peer.id].Info(), peer.Info(), now)))
    {
      var p := peers[peer.id];
      p.Refresh(peer, now);
      UpdateRoutingForPeer(p);
      assert PeerView() == old(PeerView())[peer.id := p.Info()];
    }

    method UpdatePeerLatency(peerID: string, latency: int)
      requires Valid()
      modifies this`latencies, peers.Values
      ensures Valid() && View() == LatencySpec(old(View()), peerID, latency)
    {
      if peerID in peers {
        peers[peerID].latency := latency;
        latencies := latencies[peerID := latency];
        assert PeerView() == old(PeerView())[peerID := peers[peerID].Info()];
      }
      assert peerID !in peers ==> PeerView() == old(PeerView());
    }

    /** False when the peer is not known. */
    method RemovePeer(peerID: string) returns (ok: bool)
      requires Valid()
      modifies this
      ensures ok <==> peerID in old(peers)
      ensures Valid() && View() == RemoveSpec(old(View()), peerID)
    {
      if peerID !in peers {
        return false;
      }
      peers := peers - {peerID};
      assert PeerView() == old(PeerView()) - {peerID};
      RemoveRoutingForPeer(peerID);
      ok := true;
    }

    method RemoveRoutingForPeer(peerID: string)
      modifies this`routes, this`latencies, this`owners
      ensures var gone := OwnedBy(old(owners), peerID);
              routes == old(routes) - gone && latencies == old(latencies) - gone && owners == old(owners) - gone
    {
      routes, latencies, owners := routes - {peerID}, latencies - {peerID}, owners - {peerID};
      var todo := owners.Keys;
      ghost var gone := {peerID};
      while todo != {}
        invariant todo <= owners.Keys
        invariant gone == {peerID} + set d | d in old(owners) && old(owners)[d] == peerID && d !in todo
        invariant routes == old(routes) - gone
        invariant latencies == old(latencies) - gone
        invariant owners == old(owners) - gone
        decreases todo
      {
        var dest :| dest in todo;
        todo := todo - {dest};
        if owners[dest] == peerID {
          DropOne(old(routes), gone, dest);
          DropOne(old(latencies), gone, dest);
          DropOne(old(owners), gone, dest);
          routes, latencies, owners := routes - {dest}, latencies - {dest}, owners - {dest};
          gone := gone + {dest};
        }
      }
      assert gone == OwnedBy(old(owners), peerID);
    }

    method UpdateTopology(now: int, staleAfter: int)
      requires Valid()
      modifies peers.Values
      ensures Valid() && View() == StaleSpec(old(View()), now, staleAfter)
    {
      var todo := peers.Keys;
      while todo != {}
        invariant todo <= peers.Keys
        invariant forall n :: n in peers ==>
                    peers[n].Info() == (if n in todo || !old(IsStale(peers[n].Info(), now, staleAfter))
                                        then old(peers[n].Info())
                                        else old(peers[n].Info()).(connected := false))
        decreases todo
      {
        var n :| n in todo;
        todo := todo - {n};
        var peer := peers[n];
        if now - peer.lastSeen * SECOND > staleAfter {
          if peer.connected {
            peer.connected := false;
          }
        }
      }
    }

    /** Some connected peer other than `excluded` that advertises the destination, if there is one. */
    method FindAlternativeRoute(dest: string, excluded: string) returns (r: Option<string>)
      requires Valid()
      ensures r.Some? ==> Alternative(inCidr, PeerView(), dest, excluded, r.value)
      ensures r.None? ==> forall id :: !Alternative(inCidr, PeerView(), dest, excluded, id)
    {
      var todo := peers.Keys;
      while todo != {}
        invariant todo <= peers.Keys
        invariant forall n :: n in peers && n !in todo ==> !Alternative(inCidr, PeerView(), dest, excluded, n)
        decreases todo
      {
        var n :| n in todo;
        todo := todo - {n};
        var peer := peers[n];
        assert View().peers[n] == peer.Info();
        if n == excluded || !peer.connected {
          continue;
        }
        for k := 0 to |peer.allowed|
          invariant forall i :: 0 <= i < k ==> !Matches(inCidr, peer.allowed[i], dest)
        {
          if peer.allowed[k] == dest {
            return Some(n);
          }
          if '/' in peer.allowed[k] && inCidr(dest, peer.allowed[k]) {
            return Some(n);
          }
        }
      }
      r := None;
    }

    method RerouteOne(dest: string)
      requires Valid() && dest in routes
      modifies this`routes
      ensures dest in routes && routes == old(routes)[dest := routes[dest]]
      ensures PeerView() == old(PeerView())
      ensures RouteAfter(inCidr, PeerView(), dest, old(routes[dest]), routes[dest])
    {
      var route := routes[dest];
      if |route| > 0 {
        if route[0] in peers {
          assert PeerView()[route[0]] == peers[route[0]].Info();
          if !peers[route[0]].connected {
            var alt := FindAlternativeRoute(dest, route[0]);
            if alt.Some? {
              routes := routes[dest := [alt.value]];
            }
          }
        }
      }
    }

    method UpdateRouting()
      requires Valid()
      modifies this`routes
      ensures Valid() && Rerouted(inCidr, old(View()), View())
    {
      var todo := routes.Keys;
      ghost var known := PeerView();
      while todo != {}
        invariant todo <= routes.Keys == old(routes).Keys
        invariant PeerView() == known
        invariant forall d :: d in todo ==> routes[d] == old(routes)[d]
        invariant forall d :: d in routes && d !in todo ==>
                    RouteAfter(inCidr, known, d, old(routes)[d], routes[d])
        decreases todo
      {
        var dest :| dest in todo;
        todo := todo - {dest};
        RerouteOne(dest);
      }
    }
  }
}
