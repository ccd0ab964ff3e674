/**
  The notification hub of internal/ws/hub.go: connections grouped by game,
  registration and unregistration as atomic steps of the hub's event loop,
  and non-blocking delivery into each connection's bounded send buffer.
 */
module Ws {
  import opened Models

  /** The two kinds of frame the hub sends; the JSON encoding is not modelled. */
  datatype Message =
    | StateMessage(gameId: string, board: Board, currentTurn: Symbol, status: GameStatus, winner: Winner)
    | ErrorMessage(message: string)

  /** The snapshot a state broadcast carries. */
  function StateMessageOf(state: GameState): Message {
    StateMessage(state.id, state.board, state.currentTurn, state.status, state.winner)
  }

  /** The state frame carries exactly the id, board, turn, status and winner: seats and timestamps are not sent. */
  lemma StateMessageIsSnapshot(s1: GameState, s2: GameState)
    ensures StateMessageOf(s1).StateMessage?
    ensures StateMessageOf(s1) == StateMessageOf(s2) <==>
              s1.id == s2.id && s1.board == s2.board && s1.currentTurn == s2.currentTurn
              && s1.status == s2.status && s1.winner == s2.winner
  {
  }

  /**
    A non-blocking send into a buffer of the given capacity: the message is
    queued when there is room and dropped otherwise.
   */
  function Offer(queue: seq<Message>, capacity: nat, m: Message): (r: seq<Message>)
    ensures |queue| <= |r| <= |queue| + 1 && r[..|queue|] == queue
    ensures |r| == |queue| + 1 <==> |queue| < capacity
    ensures |r| == |queue| + 1 ==> r[|queue|] == m
    ensures |queue| <= capacity ==> |r| <= capacity
  {
    if |queue| < capacity then queue + [m] else queue
  }

  /** A client connection: the game it follows and its bounded send buffer. */
  class Connection {
    var gameID: string
    var send: seq<Message>
    const capacity: nat
    var closed: bool

    constructor(capacity: nat)
      ensures this.capacity == capacity && gameID == "" && send == [] && !closed
    {
      this.capacity := capacity;
      gameID := "";
      send := [];
      closed := false;
    }

    /** `select { case send <- m: default: }` */
    method TrySend(m: Message)
      requires !closed
      modifies this
      ensures send == Offer(old(send), capacity, m)
      ensures gameID == old(gameID) && closed == old(closed)
    {
      if |send| < capacity {
        send := send + [m];
      }
    }
  }

  type Clients = map<string, set<Connection>>

  /** The clients map after the register branch of the event loop. */
  function WithMember(clients: Clients, gameID: string, conn: Connection): (r: Clients)
    ensures gameID in r && conn in r[gameID]
    ensures r.Keys == clients.Keys + {gameID}
    ensures forall k | k in clients && k != gameID :: r[k] == clients[k]
    ensures r[gameID] - {conn} == (if gameID in clients then clients[gameID] else {}) - {conn}
  {
    var members := if gameID in clients then clients[gameID] else {};
    clients[gameID := members + {conn}]
  }

  /** The clients map after the unregister branch of the event loop. */
  function WithoutMember(clients: Clients, gameID: string, conn: Connection): (r: Clients)
    ensures gameID in r ==> gameID in clients && conn !in r[gameID] && r[gameID] == clients[gameID] - {conn}
    ensures gameID !in r ==> gameID !in clients || clients[gameID] - {conn} == {}
    ensures gameID in clients && clients[gameID] - {conn} == {} ==> gameID !in r
    ensures r.Keys - {gameID} == clients.Keys - {gameID}
    ensures forall k | k in clients && k != gameID :: k in r && r[k] == clients[k]
    ensures (forall k | k in clients :: clients[k] != {}) ==> (forall k | k in r :: r[k] != {})
  {
    if gameID in clients then
      var rest := clients[gameID] - {conn};
      if |rest| == 0 then clients - {gameID} else clients[gameID := rest]
    else
      clients
  }

  /** Registering the same connection for the same game twice is the same as once. */
  lemma RegisterIdempotent(clients: Clients, gameID: string, conn: Connection)
    ensures WithMember(WithMember(clients, gameID, conn), gameID, conn) == WithMember(clients, gameID, conn)
  {
    var once := WithMember(clients, gameID, conn);
    assert once[gameID] + {conn} == once[gameID];
  }

  /** Unregistering a connection that was just registered restores the previous map. */
  lemma UnregisterUndoesRegister(clients: Clients, gameID: string, conn: Connection)
    requires forall k | k in clients :: clients[k] != {}
    requires gameID in clients ==> conn !in clients[gameID]
    ensures WithoutMember(WithMember(clients, gameID, conn), gameID, conn) == clients
  {
    var once := WithMember(clients, gameID, conn);
    var r := WithoutMember(once, gameID, conn);
    if gameID in clients {
      assert clients[gameID] + {conn} - {conn} == clients[gameID];
      assert r == clients[gameID := clients[gameID]];
    } else {
      assert once[gameID] - {conn} == {};
      assert r == clients;
    }
  }

  /** Unregistering a connection that is not in its game's set changes no membership. */
  lemma UnregisterOfStranger(clients: Clients, conn: Connection)
    requires conn.gameID in clients ==> conn !in clients[conn.gameID]
    requires forall k | k in clients :: clients[k] != {}
    ensures WithoutMember(clients, conn.gameID, conn) == clients
  {
    var gameID := conn.gameID;
    if gameID in clients {
      assert clients[gameID] - {conn} == clients[gameID];
    }
  }

  /** Broadcasts drop nothing by accident: with room, every member gets exactly the message at the end. */
  lemma OfferAppendsWhenRoom(queue: seq<Message>, capacity: nat, m: Message)
    requires |queue| < capacity
    ensures Offer(queue, capacity, m) == queue + [m]
  {
  }

  /** A full buffer is left as it is. */
  lemma OfferDropsWhenFull(queue: seq<Message>, capacity: nat, m: Message)
    requires |queue| >= capacity
    ensures Offer(queue, capacity, m) == queue
  {
  }

  class Hub {
    /** gameID -> the connections following that game */
    var clients: Clients

    ghost function Members(): set<Connection>
      reads this
    {
      set k, c | k in clients && c in clients[k] :: c
    }

    /**
      No game has an empty set, every member follows the game it is filed
      under, and no member's buffer has been closed.
     */
    ghost predicate Valid()
      reads this, Members()
    {
      forall k | k in clients :: clients[k] != {} && forall c | c in clients[k] :: c.gameID == k && !c.closed
    }

    constructor()
      ensures Valid() && clients == map[]
    {
      clients := map[];
    }

    /** The register branch of `Run`. */
    method HandleRegister(conn: Connection)
      requires Valid() && !conn.closed
      modifies this
      ensures Valid()
      ensures clients == WithMember(old(clients), conn.gameID, conn)
    {
      if conn.gameID !in clients {
        clients := clients[conn.gameID := {}];
      }
      clients := clients[conn.gameID := clients[conn.gameID] + {conn}];
      assert forall c | c in Members() :: c == conn || c in old(Members());
    }

    /** The unregister branch of `Run`: the send buffer is closed whether or not the connection was a member. */
    method HandleUnregister(conn: Connection)
      requires Valid() && !conn.closed
      modifies this, conn
      ensures Valid()
      ensures clients == WithoutMember(old(clients), conn.gameID, conn)
      ensures conn.closed && conn.gameID == old(conn.gameID) && conn.send == old(conn.send)
    {
      if conn.gameID in clients {
        var members := clients[conn.gameID] - {conn};
        if |members| == 0 {
          clients := clients - {conn.gameID};
        } else {
          clients := clients[conn.gameID := members];
        }
      }
      assert forall c | c in Members() :: c in old(Members()) && c != conn;
      conn.closed := true;
    }

    /** Files the connection under `gameID` and processes its registration. */
    method Register(gameID: string, conn: Connection)
      requires Valid() && !conn.closed
      requires conn in Members() ==> conn.gameID == gameID
      modifies this, conn
      ensures Valid()
      ensures conn.gameID == gameID && conn.send == old(conn.send) && !conn.closed
      ensures clients == WithMember(old(clients), gameID, conn)
    {
      conn.gameID := gameID;
      HandleRegister(conn);
    }

    method Unregister(conn: Connection)
      requires Valid() && !conn.closed
      modifies this, conn
      ensures Valid()
      ensures clients == WithoutMember(old(clients), conn.gameID, conn)
      ensures conn.closed && conn.gameID == old(conn.gameID) && conn.send == old(conn.send)
    {
      HandleUnregister(conn);
    }

    /**
      Offers the state snapshot to every connection of `gameID`; full buffers
      drop it, and no other connection and no membership changes.
     */
    method BroadcastGameState(gameID: string, state: GameState)
      requires Valid()
      modifies if gameID in clients then clients[gameID] else {}
      ensures Valid() && clients == old(clients)
      ensures gameID in clients ==> forall c | c in clients[gameID] ::
                c.send == Offer(old(c.send), c.capacity, StateMessageOf(state))
                && c.gameID == old(c.gameID) && c.closed == old(c.closed)
    {
      if gameID !in clients {
        return;
      }
      var members := clients[gameID];
      var message := StateMessageOf(state);

      // Copy the members into a sequence, then send to each in turn.
      var conns: seq<Connection> := [];
      var rest := members;
      while rest != {}
        invariant rest <= members
        invariant forall c | c in members :: c in rest <==> c !in conns
        invariant forall i | 0 <= i < |conns| :: conns[i] in members
        invariant forall i, j | 0 <= i < j < |conns| :: conns[i] != conns[j]
        decreases |rest|
      {
        var c :| c in rest;
        conns := conns + [c];
        rest := rest - {c};
      }

      for i := 0 to |conns|
        invariant clients == old(clients)
        invariant forall j | 0 <= j < i :: conns[j].send == Offer(old(conns[j].send), conns[j].capacity, message)
        invariant forall j | i <= j < |conns| :: conns[j].send == old(conns[j].send)
        invariant forall c | c in members :: c.gameID == old(c.gameID) && c.closed == old(c.closed)
      {
        conns[i].TrySend(message);
      }
      assert forall c | c in members :: exists j :: 0 <= j < |conns| && conns[j] == c;
    }

    /** Offers an error frame to one connection; a full buffer drops it. */
    method BroadcastError(conn: Connection, message: string)
      requires Valid() && !conn.closed
      modifies conn
      ensures Valid() && clients == old(clients)
      ensures conn.send == Offer(old(conn.send), conn.capacity, ErrorMessage(message))
      ensures conn.gameID == old(conn.gameID) && conn.closed == old(conn.closed)
    {
      conn.TrySend(ErrorMessage(message));
    }
  }
}
