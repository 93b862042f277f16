/** The real-time hub as the backend sees it: which rooms every connected
    socket has joined, and the log of everything emitted. An emission goes to
    a room, to a room minus the sending socket, or to one socket. */
module Realtime {
  import opened Common
  import opened MessageModel

  type SocketId = nat

  /** Rooms are named by a conversation id or by a user id. Sockets join a
      conversation's room under the id's string form; `ObjectIdRoom` is what
      `io.to` is handed when it is given the id value itself, a name that no
      `join` ever uses. */
  datatype Room = ConvRoom(conv: ConvId) | UserRoom(user: UserId) | ObjectIdRoom(conv: ConvId)

  /** Every room a socket is in was joined by its string name. */
  predicate JoinedByName(rooms: map<SocketId, set<Room>>) {
    forall s, room :: s in rooms && room in rooms[s] ==> !room.ObjectIdRoom?
  }

  /** The events the server emits, with their payloads. */
  datatype Event =
    | MessagesDelivered(reader: UserId, conversationId: ConvId)          // 'messages-delivered'
    | NewMessage(messageId: MsgId, message: Message)                     // 'new-message'
    | MessageBroadcast(messageId: MsgId, message: Message)               // 'message'
    | MessagesRead(reader: UserId, conversationId: ConvId)               // 'messages-read'
    | MessageDeleted(messageId: MsgId, conversationId: ConvId)           // 'message-deleted'
    | TypingNotice(userId: UserId, userName: string, conversationId: ConvId, isTyping: bool) // 'typing'
    | ReadNotice(reader: UserId, conversationId: ConvId, readMessage: Option<MsgId>)       // 'read'
    | UserOnline(userId: UserId, conversationId: ConvId)                 // 'user-online'
    | UserOffline(userId: UserId, conversationId: ConvId, lastSeen: nat) // 'user-offline'
    | ErrorNotice(text: string)                                          // 'error'

  /** `io.to(room)`, `socket.to(room)` and `socket.emit`. */
  datatype Target = ToRoom(room: Room) | ToRoomExcept(room: Room, except: SocketId) | ToSocket(socket: SocketId)

  datatype Emission = Emission(target: Target, event: Event)

  /** The rooms a socket is in; none if it is not connected. */
  function RoomsOf(rooms: map<SocketId, set<Room>>, s: SocketId): set<Room> {
    if s in rooms then rooms[s] else {}
  }

  /** The sockets an emission reaches, given the current room membership. */
  function Receivers(rooms: map<SocketId, set<Room>>, t: Target): (r: set<SocketId>)
    ensures t.ToRoom? ==> forall s :: s in r <==> s in rooms && t.room in rooms[s]
    ensures t.ToRoomExcept? ==> forall s :: s in r <==> s in rooms && t.room in rooms[s] && s != t.except
    ensures t.ToSocket? ==> r == {t.socket}
  {
    match t
    case ToRoom(room) => set s | s in rooms && room in rooms[s]
    case ToRoomExcept(room, except) => set s | s in rooms && room in rooms[s] && s != except
    case ToSocket(s) => {s}
  }

  /** A relay through `socket.to(room)` never reaches the socket that sent it. */
  lemma RelaySkipsSender(rooms: map<SocketId, set<Room>>, room: Room, sender: SocketId)
    ensures sender !in Receivers(rooms, ToRoomExcept(room, sender))
    ensures Receivers(rooms, ToRoomExcept(room, sender)) == Receivers(rooms, ToRoom(room)) - {sender}
  {
  }

  /** An emission to a room named by an id value reaches no socket while
      every join uses a string name. */
  lemma ObjectIdRoomReachesNobody(rooms: map<SocketId, set<Room>>, c: ConvId)
    requires JoinedByName(rooms)
    ensures Receivers(rooms, ToRoom(ObjectIdRoom(c))) == {}
  {
    forall s | s in rooms ensures ObjectIdRoom(c) !in rooms[s] {
      assert ObjectIdRoom(c) in rooms[s] ==> !ObjectIdRoom(c).ObjectIdRoom?;
    }
  }

  /** Joining by a string name, and leaving, keep every join by name. */
  lemma JoinKeepsJoinedByName(rooms: map<SocketId, set<Room>>, s: SocketId, room: Room)
    requires JoinedByName(rooms) && !room.ObjectIdRoom?
    ensures JoinedByName(rooms[s := RoomsOf(rooms, s) + {room}])
    ensures JoinedByName(rooms - {s})
  {
  }

  /** The socket.io server object. */
  class Io {
    var rooms: map<SocketId, set<Room>>
    var log: seq<Emission>

    constructor ()
      ensures rooms == map[] && log == []
    {
      rooms := map[];
      log := [];
    }

    /** Appends one emission to the log. */
    method Emit(t: Target, e: Event)
      modifies this`log
      ensures log == old(log) + [Emission(t, e)]
    {
      log := log + [Emission(t, e)];
    }

    /** `socket.join(room)`: joining a room twice is the same as once. */
    method Join(s: SocketId, room: Room)
      modifies this`rooms
      ensures rooms == old(rooms)[s := RoomsOf(old(rooms), s) + {room}]
    {
      rooms := rooms[s := RoomsOf(rooms, s) + {room}];
    }

    /** A closed connection leaves all its rooms. */
    method Drop(s: SocketId)
      modifies this`rooms
      ensures rooms == old(rooms) - {s}
    {
      rooms := rooms - {s};
    }
  }
}
