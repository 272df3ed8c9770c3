/**
 * The socket side of the server: the module-level `userSocketMap`, socket.io's room membership
 * (kept in both directions, as its adapter does), and every emit as a delivery appended to an
 * outbox. The handlers run one event at a time.
 */
module RelayServer {
  import opened Wrappers
  import opened Seqs
  import opened Protocol
  import opened RoomRegistry

  /** Every room is a non-empty set of sockets. */
  ghost predicate RoomsAreSets(rooms: Rooms) {
    forall r :: r in rooms ==> rooms[r] != [] && Distinct(rooms[r])
  }

  /** Every connected socket's room list is a set that holds the socket's own room. */
  ghost predicate RoomListsAreSets(socketRooms: map<SocketId, seq<RoomId>>) {
    forall s :: s in socketRooms ==> Distinct(socketRooms[s]) && s in socketRooms[s]
  }

  /** A member of a room is connected and lists that room. */
  ghost predicate MembersListRoom(rooms: Rooms, socketRooms: map<SocketId, seq<RoomId>>) {
    forall r, s :: r in rooms && s in rooms[r] ==> s in socketRooms && r in socketRooms[s]
  }

  /** A room a socket lists exists and has the socket as a member. */
  ghost predicate ListedRoomsHaveMember(rooms: Rooms, socketRooms: map<SocketId, seq<RoomId>>) {
    forall s, r :: s in socketRooms && r in socketRooms[s] ==> r in rooms && s in rooms[r]
  }

  /**
   * Rooms and socket room lists are sets, no room is empty, both directions of membership
   * agree, every connected socket is in its own room, and only connected sockets have a username.
   */
  ghost predicate Consistent(rooms: Rooms, socketRooms: map<SocketId, seq<RoomId>>, users: map<SocketId, string>) {
    && RoomsAreSets(rooms)
    && RoomListsAreSets(socketRooms)
    && MembersListRoom(rooms, socketRooms)
    && ListedRoomsHaveMember(rooms, socketRooms)
    && users.Keys <= socketRooms.Keys
  }

  /** Membership once socket.io has taken `sid` out of every room; rooms left empty are dropped. */
  function WithoutSocket(rooms: Rooms, sid: SocketId): (r: Rooms)
    ensures forall k :: k in r <==> k in rooms && Except(rooms[k], [sid]) != []
    ensures forall k :: k in r ==> r[k] == Except(rooms[k], [sid])
  {
    map k | k in rooms && Except(rooms[k], [sid]) != [] :: Except(rooms[k], [sid])
  }

  /** Removing a socket that has no username keeps the registry consistent. */
  lemma WithoutSocketConsistent(rooms: Rooms, socketRooms: map<SocketId, seq<RoomId>>, users: map<SocketId, string>, sid: SocketId)
    requires Consistent(rooms, socketRooms, users) && sid !in users
    ensures Consistent(WithoutSocket(rooms, sid), socketRooms - {sid}, users)
  {
    WithoutSocketRoomsAreSets(rooms, sid);
    WithoutSocketMembersListRoom(rooms, socketRooms, sid);
    WithoutSocketListedRoomsHaveMember(rooms, socketRooms, sid);
    assert RoomListsAreSets(socketRooms - {sid});
  }

  lemma WithoutSocketRoomsAreSets(rooms: Rooms, sid: SocketId)
    requires RoomsAreSets(rooms)
    ensures RoomsAreSets(WithoutSocket(rooms, sid))
  {
    var rooms' := WithoutSocket(rooms, sid);
    forall r | r in rooms' ensures rooms'[r] != [] && Distinct(rooms'[r]) {
      ExceptKeepsOthers(rooms[r], [sid]);
    }
  }

  lemma WithoutSocketMembersListRoom(rooms: Rooms, socketRooms: map<SocketId, seq<RoomId>>, sid: SocketId)
    requires MembersListRoom(rooms, socketRooms)
    ensures MembersListRoom(WithoutSocket(rooms, sid), socketRooms - {sid})
  {
    var rooms' := WithoutSocket(rooms, sid);
    forall r, s | r in rooms' && s in rooms'[r] ensures s in socketRooms - {sid} && r in (socketRooms - {sid})[s] {
      ExceptKeepsOthers(rooms[r], [sid]);
    }
  }

  lemma WithoutSocketListedRoomsHaveMember(rooms: Rooms, socketRooms: map<SocketId, seq<RoomId>>, sid: SocketId)
    requires ListedRoomsHaveMember(rooms, socketRooms)
    ensures ListedRoomsHaveMember(WithoutSocket(rooms, sid), socketRooms - {sid})
  {
    forall s, r | s in socketRooms - {sid} && r in (socketRooms - {sid})[s]
      ensures r in WithoutSocket(rooms, sid) && s in WithoutSocket(rooms, sid)[r]
    {
      ExceptKeepsOthers(rooms[r], [sid]);
    }
  }

  /** Adding a connected socket to a room keeps the registry consistent. */
  lemma JoinConsistent(rooms: Rooms, socketRooms: map<SocketId, seq<RoomId>>, users: map<SocketId, string>,
                       sid: SocketId, roomId: RoomId, username: string)
    requires Consistent(rooms, socketRooms, users) && sid in socketRooms
    ensures Consistent(rooms[roomId := AddOnce(Members(rooms, roomId), sid)],
                       socketRooms[sid := AddOnce(socketRooms[sid], roomId)],
                       users[sid := username])
  {
    var rooms' := rooms[roomId := AddOnce(Members(rooms, roomId), sid)];
    var socketRooms' := socketRooms[sid := AddOnce(socketRooms[sid], roomId)];
    forall r, s | r in rooms' && s in rooms'[r] ensures s in socketRooms' && r in socketRooms'[s] {
      if r != roomId || s != sid {
        assert s in rooms[r];
      }
    }
    forall s, r | s in socketRooms' && r in socketRooms'[s] ensures r in rooms' && s in rooms'[r] {
      if r != roomId || s != sid {
        assert r in socketRooms[s];
      }
    }
  }

  /** A new connection, entering its own room, keeps the registry consistent. */
  lemma ConnectConsistent(rooms: Rooms, socketRooms: map<SocketId, seq<RoomId>>, users: map<SocketId, string>, sid: SocketId)
    requires Consistent(rooms, socketRooms, users) && sid !in socketRooms
    ensures sid !in Members(rooms, sid)
    ensures Consistent(rooms[sid := Members(rooms, sid) + [sid]], socketRooms[sid := [sid]], users)
  {
    var rooms', socketRooms' := rooms[sid := Members(rooms, sid) + [sid]], socketRooms[sid := [sid]];
    forall r | r in rooms' ensures rooms'[r] != [] && Distinct(rooms'[r]) {
      if r == sid {
        AddOnceDistinct(Members(rooms, sid), sid);
      }
    }
    forall r, s | r in rooms' && s in rooms'[r] ensures s in socketRooms' && r in socketRooms'[s] {
      if s != sid {
        assert s in rooms[r];
      }
    }
  }

  lemma AddOnceDistinct(s: seq<SocketId>, x: SocketId)
    requires Distinct(s) && x !in s
    ensures Distinct(s + [x])
  {
    assert AddOnce(s, x) == s + [x];
  }

  class Relay {
    /** `userSocketMap`: socket id to the username it joined with. */
    var userSocketMap: map<SocketId, string>
    /** Room to members (socket.io's `adapter.rooms`). */
    var rooms: Rooms
    /** Socket to the rooms it is in, in joining order (`socket.rooms`); its keys are the connected sockets. */
    var socketRooms: map<SocketId, seq<RoomId>>
    /** Every emit so far, oldest first. */
    var outbox: seq<Delivery>

    ghost predicate Valid()
      reads this
    {
      Consistent(rooms, socketRooms, userSocketMap)
    }

    constructor ()
      ensures Valid()
      ensures userSocketMap == map[] && rooms == map[] && socketRooms == map[] && outbox == []
    {
      userSocketMap := map[];
      rooms := map[];
      socketRooms := map[];
      outbox := [];
    }

    /** The transport's step on a new connection: the socket enters the room named by its own id. */
    method Connect(sid: SocketId)
      requires Valid() && sid !in socketRooms
      modifies this
      ensures Valid()
      ensures socketRooms == old(socketRooms)[sid := [sid]]
      ensures rooms == old(rooms)[sid := Members(old(rooms), sid) + [sid]]
      ensures userSocketMap == old(userSocketMap) && outbox == old(outbox)
    {
      ConnectConsistent(rooms, socketRooms, userSocketMap, sid);
      rooms := rooms[sid := Members(rooms, sid) + [sid]];
      socketRooms := socketRooms[sid := [sid]];
    }

    /**
     * The `join` handler: record the username, enter the room, then emit `joined`, with one
     * snapshot of the room, to the room named by each member's id, in membership order.
     */
    method Join(sid: SocketId, roomId: RoomId, username: string)
      requires Valid() && sid in socketRooms
      modifies this
      ensures Valid()
      ensures userSocketMap == old(userSocketMap)[sid := username]
      ensures rooms == old(rooms)[roomId := AddOnce(Members(old(rooms), roomId), sid)]
      ensures socketRooms == old(socketRooms)[sid := AddOnce(old(socketRooms)[sid], roomId)]
      ensures outbox == old(outbox) +
        Emits(rooms, rooms[roomId], [], Joined(ConnectedClients(rooms, userSocketMap, roomId), username, sid))
    {
      Enter(sid, roomId, username);
      var clients := ConnectedClients(rooms, userSocketMap, roomId);
      SnapshotIsMembership(rooms, userSocketMap, roomId);
      EmitToEach(clients, Joined(clients, username, sid));
    }

    /** The first two steps of `join`: record the username, then `socket.join(roomId)`. */
    method Enter(sid: SocketId, roomId: RoomId, username: string)
      requires Valid() && sid in socketRooms
      modifies this`userSocketMap, this`rooms, this`socketRooms
      ensures Valid()
      ensures userSocketMap == old(userSocketMap)[sid := username]
      ensures rooms == old(rooms)[roomId := AddOnce(Members(old(rooms), roomId), sid)]
      ensures socketRooms == old(socketRooms)[sid := AddOnce(old(socketRooms)[sid], roomId)]
    {
      JoinConsistent(rooms, socketRooms, userSocketMap, sid, roomId, username);
      userSocketMap := userSocketMap[sid := username];
      rooms := rooms[roomId := AddOnce(Members(rooms, roomId), sid)];
      socketRooms := socketRooms[sid := AddOnce(socketRooms[sid], roomId)];
    }

    /** `clients.forEach(({socketId}) => io.to(socketId).emit(...))`: one emit to each listed client's own room, in order. */
    method EmitToEach(clients: seq<ClientInfo>, event: ServerEvent)
      modifies this`outbox
      ensures outbox == old(outbox) + Emits(rooms, SocketIds(clients), [], event)
    {
      ghost var ids := SocketIds(clients);
      var i := 0;
      while i < |clients|
        invariant 0 <= i <= |clients|
        invariant outbox == old(outbox) + Emits(rooms, ids[..i], [], event)
      {
        EmitsNext(rooms, ids, i, [], event, old(outbox));
        EmitToRoom(clients[i].socketId, [], event);
        i := i + 1;
      }
      assert ids[..i] == ids;
    }

    /**
     * One emit of the adapter: a delivery to each member of the room outside `excluded`, in
     * membership order (`io.to(roomId)` excludes nobody).
     */
    method EmitToRoom(roomId: RoomId, excluded: seq<SocketId>, event: ServerEvent)
      modifies this`outbox
      ensures outbox == old(outbox) + ToRoom(rooms, roomId, excluded, event)
    {
      outbox := outbox + Broadcast(Except(Members(rooms, roomId), excluded), event);
    }

    /** `rooms.forEach((roomId) => socket.in(roomId).emit(...))`: one relay per room, in order. */
    method NotifyRooms(sid: SocketId, roomList: seq<RoomId>, event: ServerEvent)
      modifies this`outbox
      ensures outbox == old(outbox) + Emits(rooms, roomList, Members(rooms, sid), event)
    {
      var i := 0;
      while i < |roomList|
        invariant 0 <= i <= |roomList|
        invariant outbox == old(outbox) + Emits(rooms, roomList[..i], Members(rooms, sid), event)
      {
        EmitsNext(rooms, roomList, i, Members(rooms, sid), event, old(outbox));
        RelayToRoom(sid, roomList[i], event);
        i := i + 1;
      }
      assert roomList[..i] == roomList;
    }

    /** `socket.in(roomId).emit(event)`: the room's members, less every member of the room named by the sender's id. */
    method RelayToRoom(sid: SocketId, roomId: RoomId, event: ServerEvent)
      modifies this`outbox
      ensures outbox == old(outbox) + ToRoom(rooms, roomId, Members(rooms, sid), event)
    {
      EmitToRoom(roomId, Members(rooms, sid), event);
    }

    /** The `code_change` handler: forward `{code, fileName}` to the room through `socket.in`. */
    method RelayCodeChange(sid: SocketId, roomId: RoomId, code: string, fileName: string)
      requires Valid()
      modifies this`outbox
      ensures Valid()
      ensures outbox == old(outbox) + ToRoom(rooms, roomId, Members(rooms, sid), Relayed(CodeChange(roomId, fileName, code)).value)
    {
      RelayToRoom(sid, roomId, Relayed(CodeChange(roomId, fileName, code)).value);
    }

    /** The `file_created` handler: forward `{fileName, language, value}` to the room through `socket.in`. */
    method RelayFileCreated(sid: SocketId, roomId: RoomId, fileName: string, language: string, value: string)
      requires Valid()
      modifies this`outbox
      ensures Valid()
      ensures outbox == old(outbox) +
        ToRoom(rooms, roomId, Members(rooms, sid), Relayed(FileCreated(roomId, fileName, language, value)).value)
    {
      RelayToRoom(sid, roomId, Relayed(FileCreated(roomId, fileName, language, value)).value);
    }

    /**
     * The `disconnecting` handler: for each of the socket's rooms, in order, tell the other members
     * who left; then forget the socket's username. Membership is left to the transport.
     */
    method Disconnecting(sid: SocketId)
      requires Valid() && sid in socketRooms
      modifies this
      ensures Valid()
      ensures rooms == old(rooms) && socketRooms == old(socketRooms)
      ensures outbox == old(outbox) +
        Emits(rooms, socketRooms[sid], Members(rooms, sid), Disconnected(sid, Lookup(old(userSocketMap), sid)))
      ensures userSocketMap == old(userSocketMap) - {sid}
    {
      NotifyRooms(sid, socketRooms[sid], Disconnected(sid, Lookup(userSocketMap, sid)));
      userSocketMap := userSocketMap - {sid};
    }

    /**
     * The transport's step after `disconnecting`: the socket leaves every room, and a room left
     * without members ceases to exist.
     */
    method LeaveAll(sid: SocketId)
      requires Valid() && sid in socketRooms && sid !in userSocketMap
      modifies this
      ensures Valid()
      ensures socketRooms == old(socketRooms) - {sid}
      ensures rooms == WithoutSocket(old(rooms), sid)
      ensures forall r :: r in rooms ==> sid !in rooms[r]
      ensures forall r, s :: s != sid ==> (r in rooms && s in rooms[r] <==> r in old(rooms) && s in old(rooms)[r])
      ensures userSocketMap == old(userSocketMap) && outbox == old(outbox)
    {
      WithoutSocketConsistent(rooms, socketRooms, userSocketMap, sid);
      forall r | r in rooms {
        ExceptKeepsOthers(rooms[r], [sid]);
      }
      rooms := WithoutSocket(rooms, sid);
      socketRooms := socketRooms - {sid};
    }

    /** A whole disconnect: the handler, then the transport's removal of the socket. */
    method Disconnect(sid: SocketId)
      requires Valid() && sid in socketRooms
      modifies this
      ensures Valid()
      ensures outbox == old(outbox) +
        Emits(old(rooms), old(socketRooms)[sid], Members(old(rooms), sid), Disconnected(sid, Lookup(old(userSocketMap), sid)))
      ensures userSocketMap == old(userSocketMap) - {sid}
      ensures socketRooms == old(socketRooms) - {sid}
      ensures rooms == WithoutSocket(old(rooms), sid)
      ensures sid !in socketRooms && forall r :: r in rooms ==> sid !in rooms[r]
      ensures forall r, s :: s != sid ==> (r in rooms && s in rooms[r] <==> r in old(rooms) && s in old(rooms)[r])
    {
      Disconnecting(sid);
      LeaveAll(sid);
    }
  }
}
