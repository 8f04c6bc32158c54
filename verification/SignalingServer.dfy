/**
 * The signaling server's objects.  The methods on the connections are one critical section of s.mu each
 * and are shown to take the step of Lifecycle that bears their name.  Those of the rendezvous change
 * tables and channels as the steps of Rendezvous do, with the same functions on channels;
 * HandleAPIConnectResponse is two of its steps, lookup and send, with nothing in between.
 */
module SignalingServer {
  import opened Wrappers
  import L = Lifecycle
  import R = Rendezvous
  import Registry

  /** The channel a waiting REST request reads from. */
  class ResponseChan {
    var ch: R.Channel

    constructor ()
      ensures ch == R.NEW_CHANNEL
    {
      ch := R.NEW_CHANNEL;
    }
  }

  class PeerConnection {
    const handler: L.Handler
    const id: L.Id
    var cancelled: bool
    var closed: bool
    var clientDataChans: Option<map<R.ClientId, ResponseChan>>   // only edges have a table
    var sent: seq<R.Message>

    constructor (handler: L.Handler, id: L.Id, peerType: string)
      ensures this.handler == handler && this.id == id && !cancelled && !closed && sent == []
      ensures clientDataChans == if peerType == "edge" then Some(map[]) else None
    {
      this.handler, this.id, cancelled, closed, sent := handler, id, false, false, [];
      clientDataChans := if peerType == "edge" then Some(map[]) else None;
    }
  }

  datatype ConnectRequest = ConnectRequest(id: string, edgeId: string, publicKey: string)

  datatype ConnectError = BadRequest | EdgeNotOnline | EdgeNotInitialized

  datatype Delivery = NobodyWaits | Delivered | SendTimedOut | SendPanicked

  class Server {
    const registry: Registry.PeerRegistry
    var connections: map<L.Id, PeerConnection>

    /** A critical section panicked before it unlocked s.mu. */
    var muHeld: bool

    /** Every connection that was ever installed, by its handler. */
    ghost var installed: map<L.Handler, PeerConnection>
    ghost var known: set<PeerConnection>

    constructor (registry: Registry.PeerRegistry)
      ensures this.registry == registry && Valid() && !muHeld && View() == L.Table(map[], {}, {})
    {
      this.registry, connections, muHeld, installed, known := registry, map[], false, map[], {};
    }

    ghost predicate Valid()
      reads this
    {
      && (forall h | h in installed :: installed[h] in known && installed[h].handler == h)
      && (forall id | id in connections ::
            connections[id].handler in installed && installed[connections[id].handler] == connections[id])
    }

    ghost function View(): L.Table
      requires Valid()
      reads this, known
    {
      L.Table(map id | id in connections :: connections[id].handler,
              set h | h in installed && installed[h].cancelled,
              set h | h in installed && installed[h].closed)
    }

    /** Under s.mu: a connection already there is cancelled and closed, and the new one takes its place. */
    method Install(conn: PeerConnection)
      requires Valid() && !muHeld && conn.handler !in installed && !conn.cancelled && !conn.closed
      modifies this`connections, this`installed, this`known
      modifies if conn.id in connections then {connections[conn.id]} else {}
      ensures Valid() && installed == old(installed)[conn.handler := conn]
      ensures View() == L.Install(old(View()), conn.id, conn.handler)
      ensures connections == old(connections)[conn.id := conn]
    {
      if conn.id in connections {
        Shut(connections[conn.id]);
      }
      Put(conn);
    }

    method Put(conn: PeerConnection)
      requires Valid() && conn.handler !in installed && !conn.cancelled && !conn.closed
      modifies this`connections, this`installed, this`known
      ensures Valid() && installed == old(installed)[conn.handler := conn]
      ensures View() == old(View()).(current := old(View()).current[conn.id := conn.handler])
      ensures connections == old(connections)[conn.id := conn]
    {
      connections := connections[conn.id := conn];
      installed, known := installed[conn.handler := conn], known + {conn};
    }

    /** Under s.mu: the deferred cleanup deletes by id, whoever's connection is there. */
    method Delete(id: L.Id)
      requires Valid() && !muHeld
      modifies this`connections
      ensures Valid() && View() == L.DeleteEntry(old(View()), id)
    {
      connections := connections - {id};
    }

    /** Under s.mu: the connections of the peers that CleanupStale removed are cancelled and deleted. */
    method DeleteSwept(removed: seq<L.Id>)
      requires Valid() && !muHeld
      modifies this`connections, known`cancelled
      ensures Valid() && View() == L.DeleteSwept(old(View()), Elements(removed))
    {
      ghost var before := View();
      for i := 0 to |removed|
        invariant Valid()
        invariant View() == L.DeleteSwept(before, Elements(removed[..i]))
      {
        CancelAndDelete(removed[i]);
        SweepOneMore(before, removed, i);
      }
      assert removed[..|removed|] == removed;
    }

    method CancelAndDelete(id: L.Id)
      requires Valid()
      modifies this`connections, (if id in connections then {connections[id]} else {})`cancelled
      ensures Valid() && View() == L.DeleteSwept(old(View()), {id})
    {
      if id in connections {
        var conn := connections[id];
        conn.cancelled := true;
        connections := connections - {id};
      }
    }

    /** Under s.mu, when the server stops: every current connection is cancelled and closed. */
    method CloseAll()
      requires Valid() && !muHeld
      modifies known`cancelled, known`closed
      ensures Valid() && View() == L.CloseAll(old(View()))
    {
      ghost var before := View();
      var rest := connections.Keys;
      while rest != {}
        invariant rest <= connections.Keys
        invariant Valid() && View().current == before.current
        invariant View().cancelled == before.cancelled + HandlersOf(connections.Keys - rest)
        invariant View().closed == before.closed + HandlersOf(connections.Keys - rest)
        decreases rest
      {
        var id :| id in rest;
        Shut(connections[id]);
        assert connections.Keys - (rest - {id}) == (connections.Keys - rest) + {id};
        rest := rest - {id};
      }
      assert connections.Keys - rest == connections.Keys;
      assert HandlersOf(connections.Keys) == before.current.Values by {
        assert forall id | id in connections :: before.current[id] == connections[id].handler;
      }
    }

    ghost function HandlersOf(ids: set<L.Id>): set<L.Handler>
      requires ids <= connections.Keys
      reads this
    {
      set id | id in ids :: connections[id].handler
    }

    method Shut(conn: PeerConnection)
      requires Valid() && conn.handler in installed && installed[conn.handler] == conn
      modifies conn`cancelled, conn`closed
      ensures Valid()
      ensures View() == L.Table(old(View()).current, old(View()).cancelled + {conn.handler},
                                old(View()).closed + {conn.handler})
    {
      conn.cancelled := true;
      conn.closed := true;
    }

    /** Where a forwarded message goes: the current connection of its recipient, if there is one. */
    method Target(to: L.Id) returns (target: Option<PeerConnection>)
      requires Valid() && !muHeld
      ensures target.Some? <==> to != "" && to in View().current
      ensures target.Some? ==> target.value.handler == View().current[to] && target.value == connections[to]
    {
      if to == "" || to !in connections {
        return None;
      }
      return Some(connections[to]);
    }

    /** Sends a message on to its recipient's current connection, and to nobody else; a failed write is dropped. */
    method ForwardMessage(msg: R.Message, writeFails: bool)
      requires Valid() && !muHeld
      modifies known`sent
      ensures forall c | c in known ::
        c.sent == if !writeFails && msg.to != "" && msg.to in connections && connections[msg.to] == c
                  then old(c.sent) + [msg] else old(c.sent)
    {
      var target := Target(msg.to);
      if target.None? || writeFails {
        return;
      }
      target.value.sent := target.value.sent + [msg];
    }

    // ---------- the rendezvous ----------

    /** Under s.mu: finds the edge and files a fresh channel under the client's id. */
    method Register(req: ConnectRequest) returns (r: Result<(PeerConnection, ResponseChan), ConnectError>)
      requires !muHeld
      modifies connections.Values`clientDataChans
      ensures r.Err? && r.error == BadRequest <==> req.id == "" || req.edgeId == "" || req.publicKey == ""
      ensures r.Err? && r.error == EdgeNotOnline ==> req.edgeId !in connections
      ensures r.Err? && r.error == EdgeNotInitialized ==>
        req.edgeId in connections && connections[req.edgeId].clientDataChans.None?
      ensures r.Err? ==> forall c | c in connections.Values :: c.clientDataChans == old(c.clientDataChans)
      ensures r.Ok? ==>
        && req.edgeId in connections && r.value.0 == connections[req.edgeId]
        && fresh(r.value.1) && r.value.1.ch == R.NEW_CHANNEL
        && old(connections[req.edgeId].clientDataChans).Some?
        && r.value.0.clientDataChans == Some(old(connections[req.edgeId].clientDataChans).value[req.id := r.value.1])
        && forall c | c in connections.Values && c != r.value.0 :: c.clientDataChans == old(c.clientDataChans)
    {
      if req.id == "" || req.edgeId == "" || req.publicKey == "" {
        return Err(BadRequest);
      }
      if req.edgeId !in connections {
        return Err(EdgeNotOnline);
      }
      var edge := connections[req.edgeId];
      if edge.clientDataChans.None? {
        return Err(EdgeNotInitialized);
      }
      var response := new ResponseChan();
      edge.clientDataChans := Some(edge.clientDataChans.value[req.id := response]);
      return Ok((edge, response));
    }

    /** Looks the channel up and sends into it: a full one makes the send time out, a closed one panic. */
    method HandleAPIConnectResponse(from: PeerConnection, msg: R.Message) returns (result: Delivery)
      modifies (if from.clientDataChans.Some? then from.clientDataChans.value.Values else {})`ch
      ensures result.NobodyWaits? <==> from.clientDataChans.None? || msg.to !in from.clientDataChans.value
      ensures !result.NobodyWaits? ==>
        var ch := from.clientDataChans.value[msg.to];
        && result == (if !old(ch.ch).open then SendPanicked
                      else if old(ch.ch).buffer == [] then Delivered else SendTimedOut)
        && ch.ch == if result.Delivered? then R.Push(old(ch.ch), from.handler, msg) else old(ch.ch)
      ensures from.clientDataChans.Some? ==>
        forall c | c in from.clientDataChans.value.Values
                   && !(result.Delivered? && c == from.clientDataChans.value[msg.to]) :: c.ch == old(c.ch)
    {
      if from.clientDataChans.None? || msg.to !in from.clientDataChans.value {
        return NobodyWaits;
      }
      var response := from.clientDataChans.value[msg.to];
      if !response.ch.open {
        return SendPanicked;
      }
      if response.ch.buffer != [] {
        return SendTimedOut;
      }
      response.ch := R.Push(response.ch, from.handler, msg);
      return Delivered;
    }

    /** What the deferred cleanup closes: nothing can be closed where no open channel is filed. */
    predicate Closable(edge: PeerConnection, client: R.ClientId)
      requires edge.clientDataChans.Some?
      reads edge, if client in edge.clientDataChans.value then {edge.clientDataChans.value[client]} else {}
    {
      client in edge.clientDataChans.value && edge.clientDataChans.value[client].ch.open
    }

    /**
     * Under s.mu, deferred: closes the channel filed under the client's id and deletes the entry.  If
     * there is none, or it is closed already, it panics, with the table as it was and s.mu still locked.
     */
    method CleanUpRequest(edge: PeerConnection, client: R.ClientId)
      requires !muHeld
      modifies edge`clientDataChans, this`muHeld
      modifies (if edge.clientDataChans.Some? && client in edge.clientDataChans.value
                then {edge.clientDataChans.value[client]} else {})`ch
      ensures muHeld <==> old(edge.clientDataChans.Some? && !Closable(edge, client))
      ensures edge.clientDataChans == if old(edge.clientDataChans).None? || muHeld then old(edge.clientDataChans)
                                      else Some(old(edge.clientDataChans).value - {client})
      ensures old(edge.clientDataChans).Some? && client in old(edge.clientDataChans).value ==>
        var ch := old(edge.clientDataChans).value[client];
        ch.ch == if muHeld then old(ch.ch) else R.Shut(old(ch.ch))
    {
      muHeld := true;
      if edge.clientDataChans.Some? {
        if !Closable(edge, client) {
          return;
        }
        var response := edge.clientDataChans.value[client];
        response.ch := R.Shut(response.ch);
        edge.clientDataChans := Some(edge.clientDataChans.value - {client});
      }
      muHeld := false;
    }
  }

  function Elements(ids: seq<L.Id>): set<L.Id> { set id | id in ids }

  lemma SweepOneMore(t: L.Table, removed: seq<L.Id>, i: nat)
    requires i < |removed|
    ensures L.DeleteSwept(L.DeleteSwept(t, Elements(removed[..i])), {removed[i]})
         == L.DeleteSwept(t, Elements(removed[..i + 1]))
  {
    var done, more := Elements(removed[..i]), Elements(removed[..i + 1]);
    assert removed[..i + 1] == removed[..i] + [removed[i]];
    assert more == done + {removed[i]};
    assert (t.current - done) - {removed[i]} == t.current - more;
  }
}
