/**
 * The server's view of rooms as values: the membership map, the username map, the member
 * snapshot that `joined` carries, and the list of deliveries one emit to a room produces.
 */
module RoomRegistry {
  import opened Wrappers
  import opened Seqs
  import opened Protocol

  /** Room name to its members, each room in the insertion order of socket.io's `Set`. */
  type Rooms = map<RoomId, seq<SocketId>>

  /** The members of a room; a room nobody is in has none. */
  function Members(rooms: Rooms, roomId: RoomId): (ids: seq<SocketId>)
    ensures roomId !in rooms ==> ids == []
    ensures roomId in rooms ==> ids == rooms[roomId]
  {
    if roomId in rooms then rooms[roomId] else []
  }

  /** `userSocketMap[socketId]`, undefined for a socket that has not joined. */
  function Lookup(users: map<SocketId, string>, socketId: SocketId): (name: Option<string>)
    ensures name.Some? <==> socketId in users
    ensures name.Some? ==> name.value == users[socketId]
  {
    if socketId in users then Some(users[socketId]) else None
  }

  /** One `{socketId, username}` entry per id, in order. */
  function Describe(ids: seq<SocketId>, users: map<SocketId, string>): (clients: seq<ClientInfo>)
    ensures |clients| == |ids|
    ensures forall i :: 0 <= i < |ids| ==> clients[i] == ClientInfo(ids[i], Lookup(users, ids[i]))
  {
    if ids == [] then [] else [ClientInfo(ids[0], Lookup(users, ids[0]))] + Describe(ids[1..], users)
  }

  /** `getAllConnectedClients(roomId)`: a snapshot of the room's members with their usernames. */
  function ConnectedClients(rooms: Rooms, users: map<SocketId, string>, roomId: RoomId): (clients: seq<ClientInfo>)
    ensures roomId !in rooms ==> clients == []
    ensures |clients| == |Members(rooms, roomId)|
    ensures forall i :: 0 <= i < |clients| ==>
      clients[i].socketId == Members(rooms, roomId)[i] && clients[i].username == Lookup(users, clients[i].socketId)
  {
    Describe(Members(rooms, roomId), users)
  }

  /** The socket ids of a client list. */
  function SocketIds(clients: seq<ClientInfo>): (ids: seq<SocketId>)
    ensures |ids| == |clients|
    ensures forall i :: 0 <= i < |clients| ==> ids[i] == clients[i].socketId
  {
    if clients == [] then [] else [clients[0].socketId] + SocketIds(clients[1..])
  }

  /** The snapshot lists exactly the room's members, each once, when the room is a set. */
  lemma SnapshotIsMembership(rooms: Rooms, users: map<SocketId, string>, roomId: RoomId)
    requires Distinct(Members(rooms, roomId))
    ensures SocketIds(ConnectedClients(rooms, users, roomId)) == Members(rooms, roomId)
    ensures Distinct(SocketIds(ConnectedClients(rooms, users, roomId)))
    ensures forall s :: s in SocketIds(ConnectedClients(rooms, users, roomId)) <==> s in Members(rooms, roomId)
  {
    var ids := SocketIds(ConnectedClients(rooms, users, roomId));
    assert ids == Members(rooms, roomId);
  }

  /** One delivery of `event` to each recipient, in order. */
  function Broadcast(recipients: seq<SocketId>, event: ServerEvent): (out: seq<Delivery>)
    ensures |out| == |recipients|
  {
    if recipients == [] then [] else [Delivery(recipients[0], event)] + Broadcast(recipients[1..], event)
  }

  /** A broadcast holds the event for exactly the listed recipients. */
  lemma {:induction false} BroadcastMembers(recipients: seq<SocketId>, event: ServerEvent)
    ensures forall d :: d in Broadcast(recipients, event) <==> d.event == event && d.to in recipients
  {
    if recipients != [] {
      BroadcastMembers(recipients[1..], event);
      assert recipients == [recipients[0]] + recipients[1..];
    }
  }

  /** How many of the deliveries go to `socketId`. */
  function DeliveredTo(out: seq<Delivery>, socketId: SocketId): nat {
    if out == [] then 0 else (if out[0].to == socketId then 1 else 0) + DeliveredTo(out[1..], socketId)
  }

  lemma {:induction false} DeliveredToAppend(a: seq<Delivery>, b: seq<Delivery>, socketId: SocketId)
    ensures DeliveredTo(a + b, socketId) == DeliveredTo(a, socketId) + DeliveredTo(b, socketId)
  {
    if a != [] {
      assert (a + b)[1..] == a[1..] + b;
      DeliveredToAppend(a[1..], b, socketId);
    } else {
      assert a + b == b;
    }
  }

  /** The deliveries to one socket are counted by the occurrences of that socket among the recipients. */
  lemma {:induction false} DeliveredToCountsRecipients(recipients: seq<SocketId>, event: ServerEvent, socketId: SocketId)
    ensures DeliveredTo(Broadcast(recipients, event), socketId) == Occurrences(recipients, socketId)
  {
    if recipients != [] {
      DeliveredToCountsRecipients(recipients[1..], event, socketId);
    }
  }

  /** A broadcast to a set of recipients reaches each of them exactly once and nobody else. */
  lemma BroadcastExactlyOnce(recipients: seq<SocketId>, event: ServerEvent, socketId: SocketId)
    requires Distinct(recipients)
    ensures DeliveredTo(Broadcast(recipients, event), socketId) == if socketId in recipients then 1 else 0
  {
    DeliveredToCountsRecipients(recipients, event, socketId);
    DistinctOccursOnce(recipients, socketId);
  }

  /**
   * One emit of the adapter to the room `roomId`: a delivery to each member that is not in
   * `excluded`, in membership order.
   */
  function ToRoom(rooms: Rooms, roomId: RoomId, excluded: seq<SocketId>, event: ServerEvent): seq<Delivery> {
    Broadcast(Except(Members(rooms, roomId), excluded), event)
  }

  /** An emit to a room reaches each member that is not excluded exactly once, and nobody else. */
  lemma ToRoomOnce(rooms: Rooms, roomId: RoomId, excluded: seq<SocketId>, event: ServerEvent, socketId: SocketId)
    requires Distinct(Members(rooms, roomId))
    ensures DeliveredTo(ToRoom(rooms, roomId, excluded, event), socketId)
         == if socketId in Members(rooms, roomId) && socketId !in excluded then 1 else 0
  {
    ExceptKeepsOthers(Members(rooms, roomId), excluded);
    BroadcastExactlyOnce(Except(Members(rooms, roomId), excluded), event, socketId);
  }

  /**
   * `socket.in(roomId).emit(event)` from `sender` excepts the room named by the sender's id: a
   * member of `roomId` receives the event exactly once unless it is also in that room, and then
   * never. When the sender's own room holds only the sender, that is every member but the sender.
   */
  lemma RelayReachesOthersOnce(rooms: Rooms, roomId: RoomId, sender: SocketId, event: ServerEvent, socketId: SocketId)
    requires Distinct(Members(rooms, roomId))
    ensures DeliveredTo(ToRoom(rooms, roomId, Members(rooms, sender), event), socketId)
         == if socketId in Members(rooms, roomId) && socketId !in Members(rooms, sender) then 1 else 0
    ensures Members(rooms, sender) == [sender] ==>
      DeliveredTo(ToRoom(rooms, roomId, Members(rooms, sender), event), socketId)
        == if socketId in Members(rooms, roomId) && socketId != sender then 1 else 0
  {
    ToRoomOnce(rooms, roomId, Members(rooms, sender), event, socketId);
  }

  /** The emits to each room of `targets`, in order, each without `excluded`. */
  function Emits(rooms: Rooms, targets: seq<RoomId>, excluded: seq<SocketId>, event: ServerEvent): seq<Delivery> {
    FlatMap(targets, r => ToRoom(rooms, r, excluded, event))
  }

  /** The emit to one more room follows the emits already sent. */
  lemma EmitsNext(rooms: Rooms, targets: seq<RoomId>, i: nat, excluded: seq<SocketId>, event: ServerEvent, sent: seq<Delivery>)
    requires i < |targets|
    ensures sent + Emits(rooms, targets[..i + 1], excluded, event)
         == (sent + Emits(rooms, targets[..i], excluded, event)) + ToRoom(rooms, targets[i], excluded, event)
  {
    FlatMapPrefix(targets, i, r => ToRoom(rooms, r, excluded, event));
  }

  /** The socket is a member of one of the rooms of `targets`. */
  ghost predicate InSomeRoom(rooms: Rooms, targets: seq<RoomId>, socketId: SocketId) {
    exists r :: r in targets && socketId in Members(rooms, r)
  }

  /** Every delivery carries the event to a member of a target room that is not excluded, and every such socket gets one. */
  lemma {:induction false} EmitsReach(rooms: Rooms, targets: seq<RoomId>, excluded: seq<SocketId>, event: ServerEvent)
    ensures forall d :: d in Emits(rooms, targets, excluded, event) <==>
      d.event == event && d.to !in excluded && InSomeRoom(rooms, targets, d.to)
  {
    if targets != [] {
      var first, rest := targets[0], targets[1..];
      EmitsReach(rooms, rest, excluded, event);
      ExceptKeepsOthers(Members(rooms, first), excluded);
      BroadcastMembers(Except(Members(rooms, first), excluded), event);
      assert targets == [first] + rest;
      forall s: SocketId
        ensures InSomeRoom(rooms, targets, s) <==> s in Members(rooms, first) || InSomeRoom(rooms, rest, s)
      {
        if InSomeRoom(rooms, rest, s) {
          var r :| r in rest && s in Members(rooms, r);
          assert r in targets;
        }
      }
    }
  }

  /** How many rooms of `targets` have `socketId` as a member. */
  function SharedRooms(rooms: Rooms, targets: seq<RoomId>, socketId: SocketId): nat {
    if targets == [] then 0
    else (if socketId in Members(rooms, targets[0]) then 1 else 0) + SharedRooms(rooms, targets[1..], socketId)
  }

  /** An excluded socket receives nothing; any other socket receives one delivery per target room it is in. */
  lemma {:induction false} EmitsCount(rooms: Rooms, targets: seq<RoomId>, excluded: seq<SocketId>, event: ServerEvent, socketId: SocketId)
    requires forall r :: r in targets ==> Distinct(Members(rooms, r))
    ensures DeliveredTo(Emits(rooms, targets, excluded, event), socketId)
         == if socketId in excluded then 0 else SharedRooms(rooms, targets, socketId)
  {
    if targets != [] {
      EmitsCount(rooms, targets[1..], excluded, event, socketId);
      DeliveredToAppend(ToRoom(rooms, targets[0], excluded, event), Emits(rooms, targets[1..], excluded, event), socketId);
      ToRoomOnce(rooms, targets[0], excluded, event, socketId);
    }
  }

  /** Every listed socket's own room holds that socket and nobody else. */
  ghost predicate OwnRoomsPrivate(rooms: Rooms, ids: seq<SocketId>) {
    forall s :: s in ids ==> Members(rooms, s) == [s]
  }

  /** Emitting to each listed socket's own room, when those rooms are private, is a broadcast to the list. */
  lemma {:induction false} EmitsToOwnRooms(rooms: Rooms, ids: seq<SocketId>, event: ServerEvent)
    requires OwnRoomsPrivate(rooms, ids)
    ensures Emits(rooms, ids, [], event) == Broadcast(ids, event)
  {
    if ids != [] {
      EmitsToOwnRooms(rooms, ids[1..], event);
      ExceptKeepsOthers(Members(rooms, ids[0]), []);
    }
  }

  /**
   * The `joined` loop emits to the own room of each member of `roomId`: a socket receives one copy
   * per member whose own room it is in. When every member's own room holds only that member, the
   * loop is a broadcast to the members: each of them, the joiner included, receives `joined`
   * exactly once, in membership order.
   */
  lemma JoinedReachesMembers(rooms: Rooms, roomId: RoomId, event: ServerEvent, socketId: SocketId)
    requires forall r :: r in rooms ==> Distinct(rooms[r])
    ensures DeliveredTo(Emits(rooms, Members(rooms, roomId), [], event), socketId)
         == SharedRooms(rooms, Members(rooms, roomId), socketId)
    ensures OwnRoomsPrivate(rooms, Members(rooms, roomId)) ==>
      Emits(rooms, Members(rooms, roomId), [], event) == Broadcast(Members(rooms, roomId), event)
    ensures OwnRoomsPrivate(rooms, Members(rooms, roomId)) ==>
      DeliveredTo(Emits(rooms, Members(rooms, roomId), [], event), socketId) == if socketId in Members(rooms, roomId) then 1 else 0
  {
    var ids := Members(rooms, roomId);
    EmitsCount(rooms, ids, [], event, socketId);
    if OwnRoomsPrivate(rooms, ids) {
      EmitsToOwnRooms(rooms, ids, event);
      BroadcastExactlyOnce(ids, event, socketId);
    }
  }

  /**
   * The `disconnected` notices for the sender's rooms, each excepting the sender's own room:
   * every notice carries the event to a socket outside that room which shares one of the listed
   * rooms, and every such socket gets one. When the sender's own room holds only the sender,
   * these are the sender's roommates.
   */
  lemma NoticesReachRoommates(rooms: Rooms, roomList: seq<RoomId>, sender: SocketId, event: ServerEvent)
    ensures forall d :: d in Emits(rooms, roomList, Members(rooms, sender), event) <==>
      d.event == event && d.to !in Members(rooms, sender) && InSomeRoom(rooms, roomList, d.to)
    ensures Members(rooms, sender) == [sender] ==>
      forall d :: d in Emits(rooms, roomList, Members(rooms, sender), event) <==>
        d.event == event && d.to != sender && InSomeRoom(rooms, roomList, d.to)
  {
    EmitsReach(rooms, roomList, Members(rooms, sender), event);
  }

  /**
   * A member of the sender's own room receives no notice; any other socket receives one notice per
   * listed room it is in. When the sender's own room holds only the sender, only the sender is left out.
   */
  lemma NoticesOncePerSharedRoom(rooms: Rooms, roomList: seq<RoomId>, sender: SocketId, event: ServerEvent, socketId: SocketId)
    requires forall r :: r in roomList ==> Distinct(Members(rooms, r))
    ensures DeliveredTo(Emits(rooms, roomList, Members(rooms, sender), event), socketId)
         == if socketId in Members(rooms, sender) then 0 else SharedRooms(rooms, roomList, socketId)
    ensures Members(rooms, sender) == [sender] ==>
      DeliveredTo(Emits(rooms, roomList, Members(rooms, sender), event), socketId)
        == if socketId == sender then 0 else SharedRooms(rooms, roomList, socketId)
  {
    EmitsCount(rooms, roomList, Members(rooms, sender), event, socketId);
  }
}
