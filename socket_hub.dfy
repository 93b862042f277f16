/** The socket.io server: the handshake that attaches a user to a socket,
    the presence broadcasts, the room joins of a new connection, and the
    'message', 'typing', 'read' and 'disconnect' handlers. Handlers run one
    at a time; one clock reading stands for every `new Date()` of one handler. */
module SocketHub {
  import opened Common
  import opened MessageModel
  import opened ConversationModel
  import opened Store
  import opened Realtime
  import opened MessageController

  /** A connection and what the handshake attached to it. */
  class Socket {
    const id: SocketId
    var userId: Option<UserId>
    var userName: string

    constructor (id: SocketId)
      ensures this.id == id && userId.None? && userName == ""
    {
      this.id := id;
      userId := None;
      userName := "";
    }
  }

  // ------------------------------------------------------------ handshake

  /** The answer of the authentication middleware. */
  datatype Handshake = Accept(user: UserId, name: string) | Reject(reason: string)

  /** A missing or empty token, or one that does not verify, is an
      'Authentication error'; a token naming a user who does not exist is
      'User not found'; otherwise the socket belongs to that user. Token
      verification is a parameter: `verify(token)` is the id in a valid
      token, or `None` when verification throws. */
  function Authenticate(users: map<UserId, User>, token: Option<string>, verify: string -> Option<UserId>)
    : (h: Handshake)
    ensures h.Accept? <==>
      token.Some? && token.value != "" && verify(token.value).Some? && verify(token.value).value in users
    ensures h.Accept? ==> h.user == verify(token.value).value && h.name == users[h.user].name
    ensures h == Reject("User not found") <==>
      token.Some? && token.value != "" && verify(token.value).Some? && verify(token.value).value !in users
    ensures h.Reject? && h != Reject("User not found") ==> h == Reject("Authentication error")
  {
    if token.None? || token.value == "" then Reject("Authentication error")
    else match verify(token.value)
      case None => Reject("Authentication error")
      case Some(u) => if u in users then Accept(u, users[u].name) else Reject("User not found")
  }

  /** `io.use(...)`: on success the socket carries the user's id and name;
      a rejected socket is left as it was. */
  method Admit(db: Db, socket: Socket, token: Option<string>, verify: string -> Option<UserId>)
    returns (h: Handshake)
    modifies socket
    ensures h == Authenticate(db.users, token, verify)
    ensures h.Accept? ==> socket.userId == Some(h.user) && socket.userName == h.name
    ensures h.Reject? ==> socket.userId == old(socket.userId) && socket.userName == old(socket.userName)
  {
    h := Authenticate(db.users, token, verify);
    if h.Accept? {
      socket.userId := Some(h.user);
      socket.userName := h.name;
    }
  }

  // ------------------------------------------------------------- presence

  /** The payload of 'user-online' or 'user-offline' for one conversation. */
  function Presence(u: UserId, cid: ConvId, online: bool, lastSeen: nat): Event {
    if online then UserOnline(u, cid) else UserOffline(u, cid, lastSeen)
  }

  /** The emissions of the presence loop over the conversations `cs`, one
      per conversation, in order. */
  function PresenceNotices(cs: seq<ConvId>, u: UserId, online: bool, lastSeen: nat): (r: seq<Emission>)
    ensures |r| == |cs|
  {
    if cs == [] then []
    else PresenceNotices(cs[..|cs| - 1], u, online, lastSeen)
         + [Emission(ToRoom(ConvRoom(cs[|cs| - 1])), Presence(u, cs[|cs| - 1], online, lastSeen))]
  }

  /** The rooms of the conversations `cs`. */
  function ConvRooms(cs: seq<ConvId>): (r: set<Room>)
    ensures forall room :: room in r <==> room.ConvRoom? && room.conv in cs
  {
    set c | c in cs :: ConvRoom(c)
  }

  /** The rooms a sequence of emissions addresses with `io.to`. */
  function RoomsReached(log: seq<Emission>): (r: set<Room>)
    ensures forall room :: room in r <==> exists i :: 0 <= i < |log| && log[i].target == ToRoom(room)
  {
    set i | 0 <= i < |log| && log[i].target.ToRoom? :: log[i].target.room
  }

  /** The `i`-th presence notice goes to the room of the `i`-th
      conversation and is about that conversation. */
  lemma {:induction false} PresenceNoticeAt(cs: seq<ConvId>, u: UserId, online: bool, lastSeen: nat)
    ensures forall i :: 0 <= i < |cs| ==>
      PresenceNotices(cs, u, online, lastSeen)[i] == Emission(ToRoom(ConvRoom(cs[i])), Presence(u, cs[i], online, lastSeen))
  {
    if cs != [] {
      var init := cs[..|cs| - 1];
      PresenceNoticeAt(init, u, online, lastSeen);
      var r, p := PresenceNotices(cs, u, online, lastSeen), PresenceNotices(init, u, online, lastSeen);
      assert forall i :: 0 <= i < |init| ==> r[i] == p[i] && init[i] == cs[i];
    }
  }

  /** The presence loop emits to the room of every conversation in `cs` and
      to no other room or socket, each time about the user and that
      conversation. */
  lemma PresenceReachesExactly(cs: seq<ConvId>, u: UserId, online: bool, lastSeen: nat)
    ensures forall e :: e in PresenceNotices(cs, u, online, lastSeen) ==>
      e.target.ToRoom? && e.target.room.ConvRoom? && e.event == Presence(u, e.target.room.conv, online, lastSeen)
    ensures RoomsReached(PresenceNotices(cs, u, online, lastSeen)) == ConvRooms(cs)
  {
    PresenceNoticeAt(cs, u, online, lastSeen);
    var r := PresenceNotices(cs, u, online, lastSeen);
    forall e | e in r
      ensures e.target.ToRoom? && e.target.room.ConvRoom? && e.event == Presence(u, e.target.room.conv, online, lastSeen)
    {
      var i :| 0 <= i < |r| && r[i] == e;
    }
    forall room ensures room in RoomsReached(r) <==> room in ConvRooms(cs) {
      if room in ConvRooms(cs) {
        var i :| 0 <= i < |cs| && cs[i] == room.conv;
        assert r[i].target == ToRoom(room);
      }
    }
  }

  /** The loop of `handleUserOnline` and `handleUserOffline`: one notice to
      the room of each conversation in `cs`, in order. */
  method EmitPresence(io: Io, cs: seq<ConvId>, u: UserId, online: bool, now: nat)
    modifies io`log
    ensures io.log == old(io.log) + PresenceNotices(cs, u, online, now)
  {
    var i := 0;
    while i < |cs|
      invariant 0 <= i <= |cs|
      invariant io.log == old(io.log) + PresenceNotices(cs[..i], u, online, now)
    {
      assert cs[..i + 1][..i] == cs[..i];
      io.Emit(ToRoom(ConvRoom(cs[i])), Presence(u, cs[i], online, now));
      i := i + 1;
    }
    assert cs[..|cs|] == cs;
  }

  /** `handleUserOnline` and `handleUserOffline`: the user's status and
      last-seen time are set (a missing user stays missing), then one
      notice goes to the room of every conversation the user is in. */
  method AnnouncePresence(db: Db, io: Io, u: UserId, online: bool)
    requires db.Valid()
    modifies db`users, db`clock, io`log
    ensures db.Valid() && db.clock == old(db.clock) + 1
    ensures db.users == if u in old(db.users)
                        then old(db.users)[u := User(old(db.users)[u].name, online, old(db.clock))]
                        else old(db.users)
    ensures io.log == old(io.log) + PresenceNotices(db.ConversationsOf(u), u, online, old(db.clock))
    ensures forall room :: room in RoomsReached(io.log[|old(io.log)|..]) <==>
      room.ConvRoom? && room.conv in db.convs && u in db.convs[room.conv].participants
  {
    var now := db.Now();
    if u in db.users {
      db.UpdateUser(u, User(db.users[u].name, online, now));
    }
    var cs := db.ConversationsOf(u);
    EmitPresence(io, cs, u, online, now);
    assert io.log[|old(io.log)|..] == PresenceNotices(cs, u, online, now);
    PresenceReachesExactly(cs, u, online, now);
  }

  // ----------------------------------------------------------- room joins

  /** The two joining steps: the rooms of `cs` one by one, then the
      user's own room. */
  method JoinAll(io: Io, s: SocketId, cs: seq<ConvId>, u: UserId)
    modifies io`rooms
    ensures io.rooms == old(io.rooms)[s := RoomsOf(old(io.rooms), s) + ConvRooms(cs) + {UserRoom(u)}]
  {
    var i := 0;
    while i < |cs|
      invariant 0 <= i <= |cs|
      invariant io.rooms == if i == 0 then old(io.rooms)
                            else old(io.rooms)[s := RoomsOf(old(io.rooms), s) + ConvRooms(cs[..i])]
    {
      ghost var prev := io.rooms;
      assert RoomsOf(prev, s) == RoomsOf(old(io.rooms), s) + ConvRooms(cs[..i]) by {
        if i == 0 { assert cs[..0] == []; }
      }
      assert cs[..i + 1] == cs[..i] + [cs[i]];
      assert RoomsOf(prev, s) + {ConvRoom(cs[i])} == RoomsOf(old(io.rooms), s) + ConvRooms(cs[..i + 1]);
      assert forall x :: x != s ==> (x in prev <==> x in old(io.rooms)) && (x in prev ==> prev[x] == old(io.rooms)[x]);
      io.Join(s, ConvRoom(cs[i]));
      i := i + 1;
    }
    assert cs[..|cs|] == cs;
    assert RoomsOf(io.rooms, s) == RoomsOf(old(io.rooms), s) + ConvRooms(cs) by {
      if |cs| == 0 { assert cs == []; }
    }
    io.Join(s, UserRoom(u));
    assert io.rooms == old(io.rooms)[s := RoomsOf(old(io.rooms), s) + ConvRooms(cs) + {UserRoom(u)}];
  }

  /** `joinUserRooms`: the socket joins the room of every conversation its
      user is in, then the user's own room. If the lookup fails it joins
      nothing. */
  method JoinUserRooms(db: Db, io: Io, socket: Socket, lookupFails: bool)
    requires db.Valid() && socket.userId.Some?
    modifies io`rooms
    ensures lookupFails ==> io.rooms == old(io.rooms)
    ensures !lookupFails ==>
      io.rooms == old(io.rooms)[socket.id := RoomsOf(old(io.rooms), socket.id)
                                            + ConvRooms(db.ConversationsOf(socket.userId.value))
                                            + {UserRoom(socket.userId.value)}]
    ensures !lookupFails ==> forall room :: room in io.rooms[socket.id] <==>
      || room in RoomsOf(old(io.rooms), socket.id)
      || room == UserRoom(socket.userId.value)
      || (room.ConvRoom? && room.conv in db.convs && socket.userId.value in db.convs[room.conv].participants)
  {
    if lookupFails {
      return;
    }
    var u := socket.userId.value;
    JoinAll(io, socket.id, db.ConversationsOf(u), u);
  }

  /** A new connection: the user is announced online first, then the
      socket joins its rooms. */
  method Connect(db: Db, io: Io, socket: Socket, lookupFails: bool)
    requires db.Valid() && socket.userId.Some?
    modifies db`users, db`clock, io`log, io`rooms
    ensures db.Valid() && db.clock == old(db.clock) + 1
    ensures var u := socket.userId.value;
      db.users == if u in old(db.users)
                  then old(db.users)[u := User(old(db.users)[u].name, true, old(db.clock))]
                  else old(db.users)
    ensures io.log == old(io.log) + PresenceNotices(db.ConversationsOf(socket.userId.value), socket.userId.value,
                                                     true, old(db.clock))
    ensures !lookupFails ==>
      io.rooms == old(io.rooms)[socket.id := RoomsOf(old(io.rooms), socket.id)
                                            + ConvRooms(db.ConversationsOf(socket.userId.value))
                                            + {UserRoom(socket.userId.value)}]
    ensures lookupFails ==> io.rooms == old(io.rooms)
  {
    AnnouncePresence(db, io, socket.userId.value, true);
    JoinUserRooms(db, io, socket, lookupFails);
  }

  /** 'disconnect': the socket has left its rooms, and its user is
      announced offline, whatever other sockets that user still has. */
  method Disconnect(db: Db, io: Io, socket: Socket)
    requires db.Valid() && socket.userId.Some?
    modifies db`users, db`clock, io`log, io`rooms
    ensures db.Valid() && db.clock == old(db.clock) + 1
    ensures io.rooms == old(io.rooms) - {socket.id}
    ensures var u := socket.userId.value;
      db.users == if u in old(db.users)
                  then old(db.users)[u := User(old(db.users)[u].name, false, old(db.clock))]
                  else old(db.users)
    ensures io.log == old(io.log) + PresenceNotices(db.ConversationsOf(socket.userId.value), socket.userId.value,
                                                     false, old(db.clock))
  {
    io.Drop(socket.id);
    AnnouncePresence(db, io, socket.userId.value, false);
  }

  // -------------------------------------------------------------- message

  /** The document the 'message' handler creates: the sender is the
      socket's user, the type defaults to text, and both flags are given as
      false. */
  function SocketFields(cid: Option<ConvId>, sender: UserId, content: Option<string>, msgType: Option<string>,
                        file: Option<string>, encrypted: Option<string>): (f: MessageFields)
    ensures f.sender == sender && f.conversationId == cid && f.msgType == Some(msgType.GetOr("text"))
    ensures f.content == content && f.file == file && f.encryptedContent == encrypted
    ensures f.delivered == Some(false) && f.read == Some(false)
  {
    MessageFields(cid, sender, content, Some(msgType.GetOr("text")), file, encrypted, Some(false), Some(false))
  }

  /** Users the source would notify: each participant who has a user
      document, is offline and is not the sender, in participant order. */
  function OfflineRecipients(ps: seq<UserId>, users: map<UserId, User>, sender: UserId): (r: seq<UserId>)
    ensures forall p :: p in r <==> p in ps && p in users && !users[p].isOnline && p != sender
    ensures |r| <= |ps|
  {
    if ps == [] then []
    else
      var rest := OfflineRecipients(ps[1..], users, sender);
      assert forall p :: p in ps <==> p == ps[0] || p in ps[1..] by {
        assert ps == [ps[0]] + ps[1..];
      }
      if ps[0] in users && !users[ps[0]].isOnline && ps[0] != sender then [ps[0]] + rest else rest
  }

  /** `sendOfflineNotifications`: finds the offline recipients and changes
      nothing, because its counter update names a field the schema does not
      have and matches no document. */
  method SendOfflineNotifications(db: Db, cid: ConvId, sender: UserId) returns (r: seq<UserId>)
    ensures cid !in db.convs ==> r == []
    ensures cid in db.convs ==>
      forall p :: p in r <==> p in db.convs[cid].participants && p in db.users && !db.users[p].isOnline && p != sender
  {
    if cid !in db.convs {
      return [];
    }
    r := OfflineRecipients(db.convs[cid].participants, db.users, sender);
  }

  /** The conversation after the socket handler's update: only the last
      message and the activity time change; no counter moves. */
  function AfterBroadcast(c: Conversation, mid: MsgId, now: nat): (r: Conversation)
    ensures r.lastMessage == Some(mid) && r.updatedAt == now
    ensures r.(lastMessage := c.lastMessage, updatedAt := c.updatedAt) == c
  {
    c.(lastMessage := Some(mid), updatedAt := now)
  }

  /** 'message'. A message that fails validation gets an 'error' on the
      sending socket only and nothing is stored. Otherwise the message is
      stored (with no participant check), the conversation, if it exists,
      points to it, and only then is the message broadcast to the room. */
  method OnMessage(db: Db, io: Io, socket: Socket, cid: Option<ConvId>, content: Option<string>,
                   msgType: Option<string>, file: Option<string>, encrypted: Option<string>)
    returns (sent: Option<MsgId>, notified: seq<UserId>)
    requires db.Valid() && socket.userId.Some?
    modifies db`msgs, db`msgOrder, db`convs, db`clock, db`nextId, io`log
    ensures db.Valid()
    ensures !Acceptable(SocketFields(cid, socket.userId.value, content, msgType, file, encrypted)) ==>
      && sent.None? && notified == []
      && db.msgs == old(db.msgs) && db.convs == old(db.convs)
      && io.log == old(io.log) + [Emission(ToSocket(socket.id), ErrorNotice("Failed to send message"))]
    ensures Acceptable(SocketFields(cid, socket.userId.value, content, msgType, file, encrypted)) ==>
      var m := MessageModel.Create(SocketFields(cid, socket.userId.value, content, msgType, file, encrypted),
                                   old(db.clock)).value;
      && sent == Some(old(db.nextId))
      && db.msgs == old(db.msgs)[old(db.nextId) := m]
      && db.msgOrder == old(db.msgOrder) + [old(db.nextId)]
      && db.convs == (if cid.value in old(db.convs)
                      then old(db.convs)[cid.value := AfterBroadcast(old(db.convs)[cid.value], old(db.nextId), old(db.clock) + 1)]
                      else old(db.convs))
      && io.log == old(io.log) + [Emission(ToRoom(ConvRoom(cid.value)), MessageBroadcast(old(db.nextId), m))]
      && (forall p :: p in notified <==>
            (cid.value in old(db.convs) && p in old(db.convs)[cid.value].participants
             && p in db.users && !db.users[p].isOnline && p != socket.userId.value))
  {
    var u := socket.userId.value;
    var fields := SocketFields(cid, u, content, msgType, file, encrypted);
    if !Acceptable(fields) {
      io.Emit(ToSocket(socket.id), ErrorNotice("Failed to send message"));
      return None, [];
    }
    var mid := StoreAndBroadcast(db, io, cid.value, fields);
    sent := Some(mid);
    notified := SendOfflineNotifications(db, cid.value, u);
  }

  /** The accepted path of 'message': the message is stored, then the
      conversation updated and the message broadcast. */
  method StoreAndBroadcast(db: Db, io: Io, cid: ConvId, fields: MessageFields) returns (mid: MsgId)
    requires db.Valid() && Acceptable(fields)
    modifies db`msgs, db`msgOrder, db`convs, db`clock, db`nextId, io`log
    ensures db.Valid()
    ensures var m := MessageModel.Create(fields, old(db.clock)).value;
      && mid == old(db.nextId)
      && db.msgs == old(db.msgs)[mid := m]
      && db.msgOrder == old(db.msgOrder) + [mid]
      && db.convs == (if cid in old(db.convs)
                      then old(db.convs)[cid := AfterBroadcast(old(db.convs)[cid], mid, old(db.clock) + 1)]
                      else old(db.convs))
      && io.log == old(io.log) + [Emission(ToRoom(ConvRoom(cid)), MessageBroadcast(mid, m))]
  {
    var r := db.CreateMessage(fields);
    mid := r.value;
    Broadcast(db, io, cid, mid);
  }

  /** The writes after the message is stored: the conversation update, if
      there is a conversation, then the broadcast. */
  method Broadcast(db: Db, io: Io, cid: ConvId, mid: MsgId)
    requires db.Valid() && mid in db.msgs
    modifies db`convs, db`clock, io`log
    ensures db.Valid()
    ensures db.convs == if cid in old(db.convs)
                        then old(db.convs)[cid := AfterBroadcast(old(db.convs)[cid], mid, old(db.clock))]
                        else old(db.convs)
    ensures io.log == old(io.log) + [Emission(ToRoom(ConvRoom(cid)), MessageBroadcast(mid, db.msgs[mid]))]
  {
    if cid in db.convs {
      var now := db.Now();
      db.UpdateConversation(cid, AfterBroadcast(db.convs[cid], mid, now));
    }
    io.Emit(ToRoom(ConvRoom(cid)), MessageBroadcast(mid, db.msgs[mid]));
  }

  // --------------------------------------------------------------- typing

  /** 'typing': relayed to the rest of the room with the socket's own user
      id and name; nothing is stored. */
  method OnTyping(io: Io, socket: Socket, cid: ConvId, isTyping: bool)
    requires socket.userId.Some?
    modifies io`log
    ensures io.log == old(io.log) + [Emission(ToRoomExcept(ConvRoom(cid), socket.id),
                                              TypingNotice(socket.userId.value, socket.userName, cid, isTyping))]
    ensures socket.id !in Receivers(io.rooms, io.log[|io.log| - 1].target)
  {
    io.Emit(ToRoomExcept(ConvRoom(cid), socket.id), TypingNotice(socket.userId.value, socket.userName, cid, isTyping));
    RelaySkipsSender(io.rooms, ConvRoom(cid), socket.id);
  }

  // ----------------------------------------------------------------- read

  /** `findByIdAndUpdate(messageId, { read: true })`: that message only,
      whatever its conversation; a missing id changes nothing. */
  function SetRead(msgs: map<MsgId, Message>, mid: MsgId): (r: map<MsgId, Message>)
    ensures r.Keys == msgs.Keys
    ensures mid in msgs ==> r[mid] == msgs[mid].(read := true)
    ensures forall id :: id in msgs && id != mid ==> r[id] == msgs[id]
  {
    if mid in msgs then msgs[mid := msgs[mid].(read := true)] else msgs
  }

  /** The socket's `updateMany`: every pending message of the conversation
      becomes read, with no receipt added; every other message is
      untouched. */
  function FlagRead(msgs: map<MsgId, Message>, cid: ConvId, reader: UserId): (r: map<MsgId, Message>)
    ensures r.Keys == msgs.Keys
    ensures forall id :: id in msgs && ReadPending(msgs[id], cid, reader) ==> r[id] == msgs[id].(read := true)
    ensures forall id :: id in msgs && !ReadPending(msgs[id], cid, reader) ==> r[id] == msgs[id]
  {
    map id | id in msgs :: if ReadPending(msgs[id], cid, reader) then msgs[id].(read := true) else msgs[id]
  }

  /** Flagging is idempotent, read flags only become true, and it flips
      exactly the messages the route's `markAsRead` flips, but without
      receipts. */
  lemma FlagReadProperties(msgs: map<MsgId, Message>, cid: ConvId, reader: UserId, now: nat)
    ensures FlagRead(FlagRead(msgs, cid, reader), cid, reader) == FlagRead(msgs, cid, reader)
    ensures forall id :: id in msgs && msgs[id].read ==> FlagRead(msgs, cid, reader)[id].read
    ensures forall id :: id in msgs ==>
      && FlagRead(msgs, cid, reader)[id].read == MarkRead(msgs, cid, reader, now)[id].read
      && FlagRead(msgs, cid, reader)[id].readBy == msgs[id].readBy
  {
    var once := FlagRead(msgs, cid, reader);
    forall id | id in once ensures !ReadPending(once[id], cid, reader) {
    }
  }

  /** 'read'. With a message id, that message is flagged read; without one,
      every pending message of the conversation is. Either way the rest of
      the room hears of it. */
  method OnRead(db: Db, io: Io, socket: Socket, cid: ConvId, messageId: Option<MsgId>)
    requires db.Valid() && socket.userId.Some?
    modifies db`msgs, io`log
    ensures db.Valid()
    ensures messageId.Some? ==> db.msgs == SetRead(old(db.msgs), messageId.value)
    ensures messageId.None? ==> db.msgs == FlagRead(old(db.msgs), cid, socket.userId.value)
    ensures io.log == old(io.log) + [Emission(ToRoomExcept(ConvRoom(cid), socket.id),
                                              ReadNotice(socket.userId.value, cid, messageId))]
  {
    if messageId.Some? {
      db.UpdateMessages(SetRead(db.msgs, messageId.value));
    } else {
      db.UpdateMessages(FlagRead(db.msgs, cid, socket.userId.value));
    }
    io.Emit(ToRoomExcept(ConvRoom(cid), socket.id), ReadNotice(socket.userId.value, cid, messageId));
  }
}
