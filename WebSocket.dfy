/** The chat websocket room registry (internal/websocket.py): a map from a
    chat room id to the sockets connected to it, in connection order. The
    sockets themselves are outside the registry; what the registry does to
    them (accept, send a JSON message) is recorded in a `Network` log. */
module WebSocket {
  import opened Builtins
  import opened Errors

  /** A connected websocket, by identity. */
  type SocketId = nat

  /** What happened on the wire, in order. */
  datatype Event = Accepted(socket: SocketId) | Sent(socket: SocketId, message: Dict)

  /** The websocket side of the registry: every accept and every `send_json`. */
  class Network {
    var events: seq<Event>

    constructor ()
      ensures events == []
    {
      events := [];
    }

    /** `await websocket.accept()`. */
    method Accept(socket: SocketId)
      modifies this
      ensures events == old(events) + [Accepted(socket)]
    {
      events := events + [Accepted(socket)];
    }

    /** `await websocket.send_json(message)`. */
    method SendJson(socket: SocketId, message: Dict)
      modifies this
      ensures events == old(events) + [Sent(socket, message)]
    {
      events := events + [Sent(socket, message)];
    }
  }

  type Rooms = map<int, seq<SocketId>>

  /** The sockets of `room`, none when it is absent (what `connect` starts
      an absent room with). */
  function Members(rooms: Rooms, room: int): (r: seq<SocketId>)
    ensures room in rooms ==> r == rooms[room]
    ensures room !in rooms ==> r == []
  {
    if room in rooms then rooms[room] else []
  }

  /** The registry after `connect(websocket, room)`: the room exists and ends
      with the socket (a socket already there is appended again); every other
      room is as it was. */
  function Connected(rooms: Rooms, room: int, socket: SocketId): (r: Rooms)
    ensures r.Keys == rooms.Keys + {room}
    ensures r[room] == Members(rooms, room) + [socket]
    ensures room !in rooms ==> r[room] == [socket]
    ensures forall other :: other in rooms && other != room ==> r[other] == rooms[other]
  {
    rooms[room := Members(rooms, room) + [socket]]
  }

  /** The registry after `disconnect(room)`: the room is gone with all of its
      sockets; every other room is as it was. */
  function Disconnected(rooms: Rooms, room: int): (r: Rooms)
    ensures r.Keys == rooms.Keys - {room}
    ensures forall other :: other in r ==> r[other] == rooms[other]
  {
    rooms - {room}
  }

  /** The messages `broadcast` sends to the sockets of a room, one per socket
      in list order. */
  function Deliveries(sockets: seq<SocketId>, message: Dict): (r: seq<Event>)
    ensures |r| == |sockets|
    ensures forall i :: 0 <= i < |sockets| ==> r[i] == Sent(sockets[i], message)
  {
    if |sockets| == 0 then [] else [Sent(sockets[0], message)] + Deliveries(sockets[1..], message)
  }

  /** Connecting one socket to a fresh room and disconnecting that room gives
      back the registry as it was. */
  lemma ConnectThenDisconnect(rooms: Rooms, room: int, socket: SocketId)
    requires room !in rooms
    ensures Disconnected(Connected(rooms, room, socket), room) == rooms
  {
    assert Disconnected(Connected(rooms, room, socket), room).Keys == rooms.Keys;
  }

  /** A broadcast reaches each socket exactly as many times as it occurs in
      the room. */
  lemma {:induction false} DeliveriesPerSocket(sockets: seq<SocketId>, message: Dict, socket: SocketId)
    ensures multiset(Deliveries(sockets, message))[Sent(socket, message)] == multiset(sockets)[socket]
  {
    if |sockets| > 0 {
      var rest := sockets[1..];
      DeliveriesPerSocket(rest, message, socket);
      assert sockets == [sockets[0]] + rest;
      assert multiset(sockets) == multiset{sockets[0]} + multiset(rest);
      assert multiset(Deliveries(sockets, message))
          == multiset{Sent(sockets[0], message)} + multiset(Deliveries(rest, message));
    }
  }

  /** A broadcast sends only the given message, and only to sockets of the room. */
  lemma DeliveriesStayInRoom(sockets: seq<SocketId>, message: Dict)
    ensures forall e :: e in Deliveries(sockets, message) ==> e.Sent? && e.socket in sockets && e.message == message
  {
    forall e | e in Deliveries(sockets, message)
      ensures e.Sent? && e.socket in sockets && e.message == message
    {
      var i :| 0 <= i < |sockets| && Deliveries(sockets, message)[i] == e;
    }
  }

  /** Every socket of every room was accepted, earlier, on the network. */
  ghost predicate AllAccepted(rooms: Rooms, events: seq<Event>) {
    forall room, s :: room in rooms && s in rooms[room] ==> Accepted(s) in events
  }

  /** Extending the log keeps every registered socket accepted. */
  lemma AcceptedPersists(rooms: Rooms, events: seq<Event>, more: seq<Event>)
    requires AllAccepted(rooms, events)
    ensures AllAccepted(rooms, events + more)
  {
  }

  class WebSocketManager {
    /** `active_connections`. */
    var activeConnections: Rooms

    /** `__init__`: no rooms. */
    constructor ()
      ensures activeConnections == map[]
    {
      activeConnections := map[];
    }

    /** `connect`: the socket is accepted, then registered in the room. */
    method Connect(net: Network, websocket: SocketId, chatRoomId: int)
      modifies this, net
      ensures net.events == old(net.events) + [Accepted(websocket)]
      ensures activeConnections == Connected(old(activeConnections), chatRoomId, websocket)
      ensures old(AllAccepted(activeConnections, net.events)) ==> AllAccepted(activeConnections, net.events)
    {
      net.Accept(websocket);
      if AllAccepted(activeConnections, old(net.events)) {
        AcceptedPersists(activeConnections, old(net.events), [Accepted(websocket)]);
      }
      if chatRoomId !in activeConnections {
        activeConnections := activeConnections[chatRoomId := []];
      }
      activeConnections := activeConnections[chatRoomId := activeConnections[chatRoomId] + [websocket]];
    }

    /** `disconnect`: `dict.pop` without a default, so an absent room raises
        KeyError and changes nothing. The popped list is returned. */
    method Disconnect(chatRoomId: int) returns (r: Result<seq<SocketId>, Error>)
      modifies this
      ensures chatRoomId in old(activeConnections) ==>
                r == Ok(old(activeConnections)[chatRoomId])
                && activeConnections == Disconnected(old(activeConnections), chatRoomId)
      ensures chatRoomId !in old(activeConnections) ==>
                r == Err(Unhandled("KeyError")) && activeConnections == old(activeConnections)
    {
      if chatRoomId !in activeConnections {
        return Err(Unhandled("KeyError"));
      }
      r := Ok(activeConnections[chatRoomId]);
      activeConnections := activeConnections - {chatRoomId};
    }

    /** `send_message`: one message to one socket. */
    method SendMessage(net: Network, message: Dict, websocket: SocketId)
      modifies net
      ensures net.events == old(net.events) + [Sent(websocket, message)]
    {
      net.SendJson(websocket, message);
    }

    /** `broadcast`: the message goes to every socket of the room, in list
        order; an absent room raises KeyError before anything is sent. */
    method Broadcast(net: Network, message: Dict, chatRoomId: int) returns (r: Result<(), Error>)
      modifies net
      ensures chatRoomId in activeConnections ==>
                r == Ok(()) && net.events == old(net.events) + Deliveries(activeConnections[chatRoomId], message)
      ensures chatRoomId !in activeConnections ==>
                r == Err(Unhandled("KeyError")) && net.events == old(net.events)
    {
      if chatRoomId !in activeConnections {
        return Err(Unhandled("KeyError"));
      }
      var connections := activeConnections[chatRoomId];
      for i := 0 to |connections|
        invariant net.events == old(net.events) + Deliveries(connections[..i], message)
      {
        assert connections[..i + 1] == connections[..i] + [connections[i]];
        DeliveriesAppend(connections[..i], connections[i], message);
        net.SendJson(connections[i], message);
      }
      assert connections[..|connections|] == connections;
      r := Ok(());
    }
  }

  /** Sending to one more socket extends the deliveries by one message. */
  lemma DeliveriesAppend(sockets: seq<SocketId>, socket: SocketId, message: Dict)
    ensures Deliveries(sockets + [socket], message) == Deliveries(sockets, message) + [Sent(socket, message)]
  {
  }
}
