/** The peer registry; each method runs under its mutex and is one registry step of Lifecycle. */
module Registry {
  import opened Wrappers
  import L = Lifecycle

  class Peer {
    const handler: L.Handler
    const id: L.Id
    const peerType: string
    var connected: bool
    var lastPing: int
    var createdAt: Option<int>

    constructor (handler: L.Handler, id: L.Id, peerType: string)
      ensures this.handler == handler && this.id == id && this.peerType == peerType
      ensures !connected && createdAt == None
    {
      this.handler, this.id, this.peerType := handler, id, peerType;
      connected, lastPing, createdAt := false, 0, None;
    }

    method Joins(now: int)
      modifies this`connected, this`lastPing, this`createdAt
      ensures connected && lastPing == now
      ensures createdAt == if old(createdAt).None? then Some(now) else old(createdAt)
    {
      if createdAt.None? {
        createdAt := Some(now);
      }
      connected := true;
      lastPing := now;
    }
  }

  class PeerRegistry {
    var peers: map<L.Id, Peer>

    /** Every peer that was ever added. */
    ghost var known: set<Peer>

    constructor ()
      ensures Valid() && View() == map[] && known == {}
    {
      peers, known := map[], {};
    }

    /** Peers are filed under their own ids, and those on file are marked connected. */
    ghost predicate Valid()
      reads this, known
    {
      forall id | id in peers :: peers[id] in known && peers[id].id == id && peers[id].connected
    }

    ghost function View(): L.Peers
      requires Valid()
      reads this, known
    {
      map id | id in peers :: L.PeerEntry(peers[id].handler, peers[id].lastPing)
    }

    method AddPeer(peer: Peer, now: int)
      requires Valid()
      modifies this`peers, this`known, peer
      ensures Valid() && View() == L.AddPeer(old(View()), peer.id, peer.handler, now)
      ensures peers == old(peers)[peer.id := peer] && known == old(known) + {peer}
      ensures peer.createdAt == if old(peer.createdAt).None? then Some(now) else old(peer.createdAt)
    {
      assert forall id | id in peers && id != peer.id :: peers[id] != peer;
      peer.Joins(now);
      assert View() - {peer.id} == old(View()) - {peer.id};
      File(peer);
      assert View() == old(View())[peer.id := L.PeerEntry(peer.handler, now)];
    }

    method File(peer: Peer)
      requires Valid() && peer.connected
      modifies this`peers, this`known
      ensures Valid() && View() == old(View())[peer.id := L.PeerEntry(peer.handler, peer.lastPing)]
      ensures peers == old(peers)[peer.id := peer] && known == old(known) + {peer}
    {
      peers := peers[peer.id := peer];
      known := known + {peer};
    }

    method RemovePeer(id: L.Id)
      requires Valid()
      modifies this`peers, (if id in peers then {peers[id]} else {})`connected
      ensures Valid() && View() == L.RemovePeer(old(View()), id)
      ensures peers == old(peers) - {id}
      ensures id in old(peers) ==> !old(peers)[id].connected
    {
      if id in peers {
        Drop(id);
      }
    }

    /** What RemovePeer and CleanupStale do to a peer that leaves. */
    method Drop(id: L.Id)
      requires Valid() && id in peers
      modifies this`peers, {peers[id]}`connected
      ensures Valid() && peers == old(peers) - {id} && !old(peers)[id].connected
      ensures |peers| == |old(peers)| - 1
    {
      RemoveOne(peers, id);
      peers[id].connected := false;
      peers := peers - {id};
    }

    method UpdateLastPing(id: L.Id, now: int)
      requires Valid()
      modifies (if id in peers then {peers[id]} else {})`lastPing
      ensures Valid() && View() == L.Ping(old(View()), id, now)
    {
      if id in peers {
        peers[id].lastPing := now;
      }
    }

    /** The peers of one type, each once, in no particular order. */
    method GetPeersByType(peerType: string) returns (found: seq<Peer>)
      requires Valid()
      ensures forall p :: p in found <==> p in peers.Values && p.peerType == peerType
      ensures forall i, j | 0 <= i < j < |found| :: found[i] != found[j]
    {
      found := [];
      var rest := peers.Keys;
      while rest != {}
        invariant rest <= peers.Keys
        invariant forall p | p in found :: p.id in peers && peers[p.id] == p && p.id !in rest && p.peerType == peerType
        invariant forall id | id in peers && id !in rest && peers[id].peerType == peerType :: peers[id] in found
        invariant forall i, j | 0 <= i < j < |found| :: found[i] != found[j]
        decreases rest
      {
        var id :| id in rest;
        if peers[id].peerType == peerType {
          found := found + [peers[id]];
        }
        rest := rest - {id};
      }
    }

    /**
     * Splits the registry: the fresh peers stay, the stale ones are marked disconnected and their ids
     * returned, each once.
     */
    method CleanupStale(timeout: int, now: int) returns (removed: seq<L.Id>)
      requires Valid()
      modifies this`peers, known`connected
      ensures Valid() && View() == L.Fresh(old(View()), timeout, now)
      ensures forall id :: id in removed <==> id in L.Stale(old(View()), timeout, now)
      ensures Distinct(removed)
      ensures |removed| + |peers| == |old(peers)|
      ensures forall id | id in removed :: id in old(peers) && !old(peers)[id].connected
      ensures forall id | id in peers :: id in old(peers) && peers[id] == old(peers)[id]
    {
      ghost var before := peers;
      removed := TakeStale(timeout, now);
      assert forall id | id in before :: id in peers <==> now - before[id].lastPing <= timeout;
    }

    /** The loop of CleanupStale over the map, which deletes while it iterates. */
    method TakeStale(timeout: int, now: int) returns (removed: seq<L.Id>)
      requires Valid()
      modifies this`peers, known`connected
      ensures Valid()
      ensures forall id | id in peers :: now - peers[id].lastPing <= timeout
      ensures Took(old(peers), peers, removed)
      ensures forall id | id in removed :: now - old(peers)[id].lastPing > timeout && !old(peers)[id].connected
    {
      removed := [];
      ghost var before := peers;
      var rest := peers.Keys;
      while rest != {}
        invariant Valid() && rest <= peers.Keys
        invariant Took(before, peers, removed)
        invariant forall id | id in peers && id !in rest :: now - peers[id].lastPing <= timeout
        invariant forall id | id in removed :: now - before[id].lastPing > timeout && !before[id].connected
        decreases rest
      {
        var id :| id in rest;
        var peer := peers[id];
        if now - peer.lastPing > timeout {
          TakeOne(before, peers, removed, id);
          Drop(id);
          removed := removed + [id];
        }
        rest := rest - {id};
      }
    }
  }

  predicate Distinct(ids: seq<L.Id>) { forall i, j | 0 <= i < j < |ids| :: ids[i] != ids[j] }

  /** `removed` lists, each once, the keys by which `before` exceeds `after`. */
  ghost predicate Took<T>(before: map<L.Id, T>, after: map<L.Id, T>, removed: seq<L.Id>) {
    && (forall id :: id in removed <==> id in before && id !in after)
    && (forall id | id in after :: id in before && after[id] == before[id])
    && Distinct(removed) && |removed| + |after| == |before|
  }

  lemma TakeOne<T>(before: map<L.Id, T>, after: map<L.Id, T>, removed: seq<L.Id>, id: L.Id)
    requires Took(before, after, removed) && id in after
    ensures Took(before, after - {id}, removed + [id])
  {
    AppendNew(removed, id);
    RemoveOne(after, id);
  }

  lemma AppendNew(ids: seq<L.Id>, id: L.Id)
    requires Distinct(ids) && id !in ids
    ensures Distinct(ids + [id]) && forall x :: x in ids + [id] <==> x in ids || x == id
  {
  }

  lemma RemoveOne<T>(m: map<L.Id, T>, id: L.Id)
    requires id in m
    ensures |m - {id}| == |m| - 1 && (m - {id}).Keys == m.Keys - {id}
  {
    assert (m - {id}).Keys == m.Keys - {id};
    assert |(m - {id}).Keys| == |m - {id}|;
  }
}
