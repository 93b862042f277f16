/** The message routes: fetch a page of a conversation (which marks it
    delivered), send a message, mark a conversation read and delete a
    message. Each handler is a sequence of store writes followed by an emit
    to the conversation's room. */
module MessageController {
  import opened Common
  import opened MessageModel
  import opened ConversationModel
  import opened Store
  import opened Realtime

  /** `Conversation.findOne({ _id: cid, participants: u })` finds a document. */
  predicate Participates(convs: map<ConvId, Conversation>, cid: ConvId, u: UserId) {
    cid in convs && u in convs[cid].participants
  }

  // ------------------------------------------------------------ paging

  function Reverse<T>(s: seq<T>): (r: seq<T>)
    ensures |r| == |s|
    ensures forall i :: 0 <= i < |s| ==> r[i] == s[|s| - 1 - i]
  {
    if s == [] then [] else Reverse(s[1..]) + [s[0]]
  }

  /** The skip of page `page` of size `limit` (both after `parseInt`, with
      the defaults 1 and 50 for absent parameters). */
  function SkipOf(page: Option<int>, limit: Option<int>): int {
    (page.GetOr(1) - 1) * limit.GetOr(50)
  }

  /** A cursor's `.limit(n)`: 0 is no limit, and a negative `n` returns at
      most `-n` documents. */
  function LimitOf(limit: Option<int>): (r: Option<nat>)
    ensures r.None? <==> limit.GetOr(50) == 0
    ensures r.Some? ==> r.value == if limit.GetOr(50) < 0 then -limit.GetOr(50) else limit.GetOr(50)
  {
    var n := limit.GetOr(50);
    if n == 0 then None else if n < 0 then Some(-n) else Some(n)
  }

  /** `.skip(skip).limit(take)` over a result list. */
  function Cursor<T>(s: seq<T>, skip: nat, take: Option<nat>): (r: seq<T>)
    ensures |r| <= |s| && (take.Some? ==> |r| <= take.value)
    ensures skip >= |s| ==> r == []
    ensures forall x :: x in r ==> x in s
  {
    var t := if skip < |s| then s[skip..] else [];
    if take.Some? && take.value < |t| then t[..take.value] else t
  }

  /** The page of `getMessages`: the messages newest first, the cursor, and
      then `reverse()` back into chronological order. */
  function Page(ids: seq<MsgId>, skip: nat, take: Option<nat>): (r: seq<MsgId>)
    ensures |r| <= |ids| && (take.Some? ==> |r| <= take.value)
    ensures forall x :: x in r ==> x in ids
  {
    Reverse(Cursor(Reverse(ids), skip, take))
  }

  /** The page is the contiguous run of the `take` messages that precede the
      `skip` newest ones, oldest first. */
  lemma PageIsSlice(ids: seq<MsgId>, skip: nat, take: Option<nat>)
    ensures var hi := if skip < |ids| then |ids| - skip else 0;
            var lo := if take.Some? && take.value < hi then hi - take.value else 0;
            Page(ids, skip, take) == ids[lo..hi]
  {
    var hi := if skip < |ids| then |ids| - skip else 0;
    var lo := if take.Some? && take.value < hi then hi - take.value else 0;
    var rev := Reverse(ids);
    var c := Cursor(rev, skip, take);
    CursorAt(rev, skip, take);
    assert |c| == hi - lo;
    var p := Reverse(c);
    forall i | 0 <= i < |p| ensures p[i] == ids[lo..hi][i] {
      calc {
        p[i];
        c[|c| - 1 - i];
        rev[skip + |c| - 1 - i];
        ids[lo + i];
      }
    }
  }

  /** The `i`-th document after `.skip(skip).limit(take)` is the
      `skip + i`-th of the list. */
  lemma CursorAt<T>(s: seq<T>, skip: nat, take: Option<nat>)
    ensures var n := if skip < |s| then |s| - skip else 0;
      |Cursor(s, skip, take)| == if take.Some? && take.value < n then take.value else n
    ensures forall i :: 0 <= i < |Cursor(s, skip, take)| ==> skip + i < |s| && Cursor(s, skip, take)[i] == s[skip + i]
  {
  }

  /** A page holds no more messages than the limit, and only messages of
      the list it was cut from. */
  lemma PageBounds(ids: seq<MsgId>, skip: nat, take: Option<nat>)
    ensures take.Some? ==> |Page(ids, skip, take)| <= take.value
    ensures forall id :: id in Page(ids, skip, take) ==> id in ids
  {
    PageIsSlice(ids, skip, take);
  }

  /** The stored documents of `ids`, in that order. */
  function Docs(msgs: map<MsgId, Message>, ids: seq<MsgId>): (r: seq<Message>)
    requires forall id :: id in ids ==> id in msgs
    ensures |r| == |ids| && forall i :: 0 <= i < |ids| ==> r[i] == msgs[ids[i]]
  {
    seq(|ids|, i requires 0 <= i < |ids| => msgs[ids[i]])
  }

  /** The stored documents of one page of `ids`. */
  function PageDocs(msgs: map<MsgId, Message>, ids: seq<MsgId>, skip: nat, take: Option<nat>): (r: seq<Message>)
    requires forall id :: id in ids ==> id in msgs
    ensures |r| == |Page(ids, skip, take)|
    ensures forall m :: m in r ==> exists id :: id in ids && msgs[id] == m
  {
    PageBounds(ids, skip, take);
    var page := Page(ids, skip, take);
    var r := Docs(msgs, page);
    assert forall i :: 0 <= i < |r| ==> page[i] in ids && r[i] == msgs[page[i]];
    r
  }

  /** In a consistent store the messages of a conversation, in natural
      order, are in the order they were created. */
  lemma MessagesChronological(db: Db, cid: ConvId)
    requires db.Valid()
    ensures var ids := db.MessagesOf(cid);
      forall i, j :: 0 <= i < j < |ids| ==> db.msgs[ids[i]].createdAt < db.msgs[ids[j]].createdAt
  {
    var ids := db.MessagesOf(cid);
    KeepIncreasing(db.msgOrder, MessageIdsIn(db.msgs, cid));
    forall i, j | 0 <= i < j < |ids| ensures db.msgs[ids[i]].createdAt < db.msgs[ids[j]].createdAt {
      assert ids[i] in ids && ids[j] in ids;
    }
  }

  // ------------------------------------------------------- delivery

  /** `updateMany({ conversationId: cid, sender: { $ne: reader }, delivered: false }, { delivered: true })`:
      the flag becomes true exactly on the messages of `cid` that others
      sent; nothing else changes. */
  function MarkDelivered(msgs: map<MsgId, Message>, cid: ConvId, reader: UserId): (r: map<MsgId, Message>)
    ensures r.Keys == msgs.Keys
    ensures forall id :: id in msgs ==> r[id] == msgs[id].(delivered := r[id].delivered)
    ensures forall id :: id in msgs ==>
      r[id].delivered == (msgs[id].delivered || (msgs[id].conversationId == cid && msgs[id].sender != reader))
  {
    map id | id in msgs ::
      if msgs[id].conversationId == cid && msgs[id].sender != reader && !msgs[id].delivered
      then msgs[id].(delivered := true) else msgs[id]
  }

  /** Fetching a page twice marks nothing more the second time. */
  lemma MarkDeliveredIdempotent(msgs: map<MsgId, Message>, cid: ConvId, reader: UserId)
    ensures MarkDelivered(MarkDelivered(msgs, cid, reader), cid, reader) == MarkDelivered(msgs, cid, reader)
  {
    var once := MarkDelivered(msgs, cid, reader);
    var twice := MarkDelivered(once, cid, reader);
    forall id | id in once ensures twice[id] == once[id] {
      assert once[id] == msgs[id].(delivered := once[id].delivered);
    }
  }

  /** GET /api/messages/:conversationId. A requester outside the
      conversation gets NotFound; a negative skip makes the query fail;
      otherwise the page is read, then the conversation's messages from
      others are marked delivered and 'messages-delivered' goes to its room.
      The response shows the page as it was before the update. */
  method GetMessages(db: Db, io: Io, requester: UserId, cid: ConvId, page: Option<int>, limit: Option<int>)
    returns (r: Result<seq<Message>>)
    requires db.Valid()
    modifies db`msgs, io`log
    ensures db.Valid()
    ensures !Participates(old(db.convs), cid, requester) ==>
      r == Err(NotFound) && db.msgs == old(db.msgs) && io.log == old(io.log)
    ensures Participates(old(db.convs), cid, requester) && SkipOf(page, limit) < 0 ==>
      r == Err(ServerError) && db.msgs == old(db.msgs) && io.log == old(io.log)
    ensures Participates(old(db.convs), cid, requester) && SkipOf(page, limit) >= 0 ==>
      && r == Ok(PageDocs(old(db.msgs), old(db.MessagesOf(cid)), SkipOf(page, limit), LimitOf(limit)))
      && db.msgs == MarkDelivered(old(db.msgs), cid, requester)
      && io.log == old(io.log) + [Emission(ToRoom(ConvRoom(cid)), MessagesDelivered(requester, cid))]
  {
    if !Participates(db.convs, cid, requester) {
      return Err(NotFound);
    }
    var skip := SkipOf(page, limit);
    if skip < 0 {
      return Err(ServerError);
    }
    var docs := PageDocs(db.msgs, db.MessagesOf(cid), skip, LimitOf(limit));
    db.UpdateMessages(MarkDelivered(db.msgs, cid, requester));
    io.Emit(ToRoom(ConvRoom(cid)), MessagesDelivered(requester, cid));
    r := Ok(docs);
  }

  // ---------------------------------------------------------- sending

  /** The unread update the comment at the call site describes: every entry
      except the sender's goes up by one. */
  function BumpUnread(entries: seq<UnreadEntry>, sender: UserId): (r: seq<UnreadEntry>)
    ensures |r| == |entries|
    ensures forall i :: 0 <= i < |entries| ==> r[i].user == entries[i].user
    ensures forall i :: 0 <= i < |entries| ==>
      r[i].count == if entries[i].user == sender then entries[i].count else entries[i].count + 1
  {
    seq(|entries|, i requires 0 <= i < |entries| =>
      if entries[i].user == sender then entries[i] else entries[i].(count := entries[i].count + 1))
  }

  /** Read through the `unreadCount` virtual, a message raises every other
      user's count by exactly one and leaves the sender's as it was. */
  lemma BumpUnreadCounts(entries: seq<UnreadEntry>, sender: UserId, u: UserId)
    ensures u == sender ==> UnreadCountOf(BumpUnread(entries, sender), Some(u)) == UnreadCountOf(entries, Some(u))
    ensures u != sender && FirstEntryOf(entries, u) < |entries| ==>
      UnreadCountOf(BumpUnread(entries, sender), Some(u)) == UnreadCountOf(entries, Some(u)) + 1
    ensures FirstEntryOf(entries, u) == |entries| ==> UnreadCountOf(BumpUnread(entries, sender), Some(u)) == 0
  {
    var b := BumpUnread(entries, sender);
    FirstEntrySameUsers(entries, b, u);
  }

  /** Two entry lists with the same users at the same places have their
      first entry for any user at the same index. */
  lemma {:induction false} FirstEntrySameUsers(a: seq<UnreadEntry>, b: seq<UnreadEntry>, u: UserId)
    requires |a| == |b| && forall i :: 0 <= i < |a| ==> a[i].user == b[i].user
    ensures FirstEntryOf(a, u) == FirstEntryOf(b, u)
  {
    if a != [] && a[0].user != u {
      FirstEntrySameUsers(a[1..], b[1..], u);
    }
  }

  /** The unread update as written: the filter
      `'unreadCounts.user': { $ne: sender }` matches a conversation only when
      no entry in it is the sender's. If one is, nothing is updated; if none
      is, the positional `$` has no matched element and the update fails
      (`None`). */
  function BumpUnreadAsWritten(entries: seq<UnreadEntry>, sender: UserId): (r: Option<seq<UnreadEntry>>)
    ensures r.Some? <==> exists i :: 0 <= i < |entries| && entries[i].user == sender
    ensures r.Some? ==> r.value == entries
  {
    if FirstEntryOf(entries, sender) < |entries| then Some(entries) else None
  }

  /** In a conversation created for users 1 and 2, a message from user 1
      leaves user 2's count at 0 as written, and raises it to 1 as intended. */
  lemma BumpUnreadAsWrittenMissesRecipient()
    ensures var entries := [UnreadEntry(1, 0), UnreadEntry(2, 0)];
      && BumpUnreadAsWritten(entries, 1) == Some(entries)
      && UnreadCountOf(BumpUnreadAsWritten(entries, 1).value, Some(2)) == 0
      && UnreadCountOf(BumpUnread(entries, 1), Some(2)) == 1
  {
    var entries := [UnreadEntry(1, 0), UnreadEntry(2, 0)];
    assert BumpUnreadAsWritten(entries, 1) == Some(entries) by {
      assert FirstEntryOf(entries, 1) == 0;
    }
    assert FirstEntryOf(entries, 2) == 1;
    BumpUnreadCounts(entries, 1, 2);
  }

  /** The fields `sendMessage` passes to `Message.create`: the sender is the
      requester, whatever the payload says, and an absent type is text. */
  function SendFields(cid: Option<ConvId>, sender: UserId, content: Option<string>, msgType: Option<string>,
                      file: Option<string>, encrypted: Option<string>): (f: MessageFields)
    ensures f.sender == sender && f.conversationId == cid && f.msgType == Some(msgType.GetOr("text"))
    ensures f.content == content && f.file == file && f.encryptedContent == encrypted
    ensures f.delivered.None? && f.read.None?
  {
    MessageFields(cid, sender, content, Some(msgType.GetOr("text")), file, encrypted, None, None)
  }

  /** The participant check of `sendMessage`. An absent `conversationId` is
      dropped from the query, which then finds any conversation of the user. */
  predicate FindsConversation(convs: map<ConvId, Conversation>, cid: Option<ConvId>, u: UserId) {
    if cid.Some? then Participates(convs, cid.value, u)
    else exists id :: id in convs && u in convs[id].participants
  }

  /** The conversation after a message `mid` from `sender` at time `now`. */
  function AfterSend(c: Conversation, mid: MsgId, sender: UserId, now: nat): (r: Conversation)
    ensures r.lastMessage == Some(mid) && r.updatedAt == now
    ensures r.unreadCounts == BumpUnread(c.unreadCounts, sender)
    ensures r.(lastMessage := c.lastMessage, updatedAt := c.updatedAt, unreadCounts := c.unreadCounts) == c
  {
    c.(lastMessage := Some(mid), updatedAt := now, unreadCounts := BumpUnread(c.unreadCounts, sender))
  }

  /** POST /api/messages. A requester outside the conversation gets NotFound
      and a message that fails validation a server error, both with nothing
      stored. Otherwise exactly one message is stored, the conversation
      points to it, the unread counts of the others go up, and only then is
      'new-message' emitted to the room. */
  method SendMessage(db: Db, io: Io, requester: UserId, cid: Option<ConvId>, content: Option<string>,
                     msgType: Option<string>, file: Option<string>, encrypted: Option<string>)
    returns (r: Result<MsgId>)
    requires db.Valid()
    modifies db`msgs, db`msgOrder, db`convs, db`clock, db`nextId, io`log
    ensures db.Valid()
    ensures !FindsConversation(old(db.convs), cid, requester) ==> r == Err(NotFound)
    ensures (FindsConversation(old(db.convs), cid, requester)
             && !Acceptable(SendFields(cid, requester, content, msgType, file, encrypted))) ==> r == Err(ServerError)
    ensures r.Err? ==>
      db.msgs == old(db.msgs) && db.msgOrder == old(db.msgOrder) && db.convs == old(db.convs) && io.log == old(io.log)
    ensures (FindsConversation(old(db.convs), cid, requester)
             && Acceptable(SendFields(cid, requester, content, msgType, file, encrypted))) ==>
      var m := MessageModel.Create(SendFields(cid, requester, content, msgType, file, encrypted), old(db.clock)).value;
      && Participates(old(db.convs), cid.value, requester)
      && r == Ok(old(db.nextId)) && old(db.nextId) !in old(db.msgs)
      && db.msgs == old(db.msgs)[r.value := m]
      && db.msgOrder == old(db.msgOrder) + [r.value]
      && db.convs == old(db.convs)[cid.value := AfterSend(old(db.convs)[cid.value], r.value, requester, old(db.clock) + 1)]
      && io.log == old(io.log) + [Emission(ToRoom(ConvRoom(cid.value)), NewMessage(r.value, m))]
  {
    if !FindsConversation(db.convs, cid, requester) {
      return Err(NotFound);
    }
    var fields := SendFields(cid, requester, content, msgType, file, encrypted);
    if !Acceptable(fields) {
      return Err(ServerError);
    }
    r := CreateAndDeliver(db, io, requester, cid.value, fields);
  }

  /** `sendMessage` once the message passes validation: it is stored under
      a fresh id, then delivered. */
  method CreateAndDeliver(db: Db, io: Io, requester: UserId, cid: ConvId, fields: MessageFields)
    returns (r: Result<MsgId>)
    requires db.Valid() && Participates(db.convs, cid, requester) && Acceptable(fields)
    modifies db`msgs, db`msgOrder, db`convs, db`clock, db`nextId, io`log
    ensures db.Valid()
    ensures var m := MessageModel.Create(fields, old(db.clock)).value;
      && r == Ok(old(db.nextId)) && old(db.nextId) !in old(db.msgs)
      && db.msgs == old(db.msgs)[r.value := m]
      && db.msgOrder == old(db.msgOrder) + [r.value]
      && db.convs == old(db.convs)[cid := AfterSend(old(db.convs)[cid], r.value, requester, old(db.clock) + 1)]
      && io.log == old(io.log) + [Emission(ToRoom(ConvRoom(cid)), NewMessage(r.value, m))]
  {
    var mid := db.CreateMessage(fields);
    r := Ok(mid.value);
    Deliver(db, io, cid, mid.value, requester);
  }

  /** The writes after the message is stored: the conversation update, then
      the emit. */
  method Deliver(db: Db, io: Io, cid: ConvId, mid: MsgId, sender: UserId)
    requires db.Valid() && cid in db.convs && mid in db.msgs
    modifies db`convs, db`clock, io`log
    ensures db.Valid()
    ensures db.convs == old(db.convs)[cid := AfterSend(old(db.convs)[cid], mid, sender, old(db.clock))]
    ensures io.log == old(io.log) + [Emission(ToRoom(ConvRoom(cid)), NewMessage(mid, db.msgs[mid]))]
  {
    var now := db.Now();
    db.UpdateConversation(cid, AfterSend(db.convs[cid], mid, sender, now));
    io.Emit(ToRoom(ConvRoom(cid)), NewMessage(mid, db.msgs[mid]));
  }

  // ---------------------------------------------------------- reading

  /** A message of `cid` from someone other than `reader` not yet read. */
  predicate ReadPending(m: Message, cid: ConvId, reader: UserId) {
    m.conversationId == cid && m.sender != reader && !m.read
  }

  /** The messages `markAsRead` flips. */
  function PendingIds(msgs: map<MsgId, Message>, cid: ConvId, reader: UserId): (r: set<MsgId>)
    ensures forall id :: id in r <==> id in msgs && ReadPending(msgs[id], cid, reader)
  {
    set id | id in msgs && ReadPending(msgs[id], cid, reader)
  }

  /** `updateMany({ conversationId: cid, sender: { $ne: reader }, read: false },
      { $set: { read: true }, $addToSet: { readBy: { user: reader, readAt: now } } })`:
      every pending message becomes read with one more receipt for the
      reader; every other message is untouched. */
  function MarkRead(msgs: map<MsgId, Message>, cid: ConvId, reader: UserId, now: nat): (r: map<MsgId, Message>)
    ensures r.Keys == msgs.Keys
    ensures forall id :: id in msgs && ReadPending(msgs[id], cid, reader) ==>
      r[id] == msgs[id].(read := true, readBy := msgs[id].readBy + [ReadReceipt(reader, now)])
    ensures forall id :: id in msgs && !ReadPending(msgs[id], cid, reader) ==> r[id] == msgs[id]
  {
    map id | id in msgs ::
      if ReadPending(msgs[id], cid, reader)
      then msgs[id].(read := true, readBy := msgs[id].readBy + [ReadReceipt(reader, now)])
      else msgs[id]
  }

  /** Flags only become true: a read or delivered message stays so. */
  lemma MarkReadMonotone(msgs: map<MsgId, Message>, cid: ConvId, reader: UserId, now: nat)
    ensures forall id :: id in msgs ==>
      && (msgs[id].read ==> MarkRead(msgs, cid, reader, now)[id].read)
      && MarkRead(msgs, cid, reader, now)[id].delivered == msgs[id].delivered
      && MarkRead(msgs, cid, reader, now)[id].createdAt == msgs[id].createdAt
  {
  }

  /** After marking read nothing is pending, so a second call flips nothing. */
  lemma MarkReadClearsPending(msgs: map<MsgId, Message>, cid: ConvId, reader: UserId, now: nat)
    ensures PendingIds(MarkRead(msgs, cid, reader, now), cid, reader) == {}
  {
    var r := MarkRead(msgs, cid, reader, now);
    forall id | id in r ensures !ReadPending(r[id], cid, reader) {
      if ReadPending(msgs[id], cid, reader) {
        assert r[id].read;
      }
    }
  }

  /** Marking read twice is marking read once, whatever the second time. */
  lemma MarkReadIdempotent(msgs: map<MsgId, Message>, cid: ConvId, reader: UserId, t1: nat, t2: nat)
    ensures MarkRead(MarkRead(msgs, cid, reader, t1), cid, reader, t2) == MarkRead(msgs, cid, reader, t1)
  {
    var once := MarkRead(msgs, cid, reader, t1);
    MarkReadClearsPending(msgs, cid, reader, t1);
    assert forall id :: id in once ==> !ReadPending(once[id], cid, reader);
  }

  /** `updateOne({ _id, 'unreadCounts.user': u }, { $set: { 'unreadCounts.$.count': 0 } })`:
      the first entry of `u` is set to 0 and every other entry is kept. */
  function ResetUnread(entries: seq<UnreadEntry>, u: UserId): (r: seq<UnreadEntry>)
    ensures |r| == |entries|
    ensures forall i :: 0 <= i < |entries| ==> r[i].user == entries[i].user
    ensures forall i :: 0 <= i < |entries| && i != FirstEntryOf(entries, u) ==> r[i] == entries[i]
    ensures FirstEntryOf(entries, u) < |entries| ==> r[FirstEntryOf(entries, u)].count == 0
  {
    var k := FirstEntryOf(entries, u);
    if k < |entries| then entries[k := entries[k].(count := 0)] else entries
  }

  /** After a reset the reader's `unreadCount` is 0 and every other user's
      is what it was. */
  lemma ResetUnreadCounts(entries: seq<UnreadEntry>, u: UserId, v: UserId)
    ensures UnreadCountOf(ResetUnread(entries, u), Some(u)) == 0
    ensures v != u ==> UnreadCountOf(ResetUnread(entries, u), Some(v)) == UnreadCountOf(entries, Some(v))
  {
    var r := ResetUnread(entries, u);
    FirstEntrySameUsers(entries, r, u);
    FirstEntrySameUsers(entries, r, v);
    var kv := FirstEntryOf(entries, v);
    if v != u && kv < |entries| {
      assert kv != FirstEntryOf(entries, u);
    }
  }

  /** The conversation after the reader's counter is reset at `now`. The
      update only matches when the reader has an entry, and then the
      `timestamps` option also moves `updatedAt`. */
  function AfterReset(c: Conversation, reader: UserId, now: nat): (r: Conversation)
    ensures FirstEntryOf(c.unreadCounts, reader) == |c.unreadCounts| ==> r == c
    ensures FirstEntryOf(c.unreadCounts, reader) < |c.unreadCounts| ==>
      r == c.(unreadCounts := ResetUnread(c.unreadCounts, reader), updatedAt := now)
    ensures UnreadCountOf(r.unreadCounts, Some(reader)) == 0
  {
    ResetUnreadCounts(c.unreadCounts, reader, reader);
    if FirstEntryOf(c.unreadCounts, reader) < |c.unreadCounts| then
      c.(unreadCounts := ResetUnread(c.unreadCounts, reader), updatedAt := now)
    else c
  }

  /** POST /api/messages/:conversationId/read. A requester outside the
      conversation gets NotFound. Otherwise the pending messages are marked
      read, the requester's counter is reset, 'messages-read' goes to the
      room, and the answer is the number of messages flipped. */
  method MarkAsRead(db: Db, io: Io, reader: UserId, cid: ConvId) returns (r: Result<nat>)
    requires db.Valid()
    modifies db`msgs, db`convs, db`clock, io`log
    ensures db.Valid()
    ensures !Participates(old(db.convs), cid, reader) ==>
      r == Err(NotFound) && db.msgs == old(db.msgs) && db.convs == old(db.convs) && io.log == old(io.log)
    ensures Participates(old(db.convs), cid, reader) ==>
      && r == Ok(|PendingIds(old(db.msgs), cid, reader)|)
      && db.msgs == MarkRead(old(db.msgs), cid, reader, old(db.clock))
      && db.convs == old(db.convs)[cid := AfterReset(old(db.convs)[cid], reader, old(db.clock))]
      && io.log == old(io.log) + [Emission(ToRoom(ConvRoom(cid)), MessagesRead(reader, cid))]
  {
    if !Participates(db.convs, cid, reader) {
      return Err(NotFound);
    }
    var now := db.Now();
    r := Ok(|PendingIds(db.msgs, cid, reader)|);
    db.UpdateMessages(MarkRead(db.msgs, cid, reader, now));
    db.UpdateConversation(cid, AfterReset(db.convs[cid], reader, now));
    io.Emit(ToRoom(ConvRoom(cid)), MessagesRead(reader, cid));
  }

  // --------------------------------------------------------- deleting

  /** The message `findOne({ conversationId }, {}, { sort: { createdAt: -1 } })`
      returns: one created last, or none if there is no message. */
  function Latest(ids: seq<MsgId>, msgs: map<MsgId, Message>): (r: Option<MsgId>)
    requires forall id :: id in ids ==> id in msgs
    ensures r.None? <==> ids == []
    ensures r.Some? ==> r.value in ids && forall id :: id in ids ==> msgs[id].createdAt <= msgs[r.value].createdAt
  {
    if ids == [] then None
    else
      var rest := Latest(ids[1..], msgs);
      if rest.Some? && msgs[ids[0]].createdAt <= msgs[rest.value].createdAt then rest else Some(ids[0])
  }

  /** The conversation after message `mid` was removed: if it was the last
      message, the newest remaining one (or none) takes its place, and the
      update moves `updatedAt`; otherwise the conversation is untouched. */
  function AfterDelete(c: Conversation, mid: MsgId, newest: Option<MsgId>, now: nat): (r: Conversation)
    ensures c.lastMessage != Some(mid) ==> r == c
    ensures c.lastMessage == Some(mid) ==> r == c.(lastMessage := newest, updatedAt := now)
  {
    if c.lastMessage == Some(mid) then c.(lastMessage := newest, updatedAt := now) else c
  }

  /** DELETE /api/messages/:id. A missing message gives NotFound and a
      requester who did not send it Forbidden, both with nothing changed.
      Otherwise the message is removed; if its conversation no longer
      exists, reading it fails after the removal; if it was the
      conversation's last message, the newest remaining one replaces it;
      then 'message-deleted' goes to the room named by the conversation id
      value rather than its string form, which no socket has joined. */
  method DeleteMessage(db: Db, io: Io, requester: UserId, mid: MsgId) returns (r: Result<()>)
    requires db.Valid()
    modifies db`msgs, db`msgOrder, db`convs, db`clock, io`log
    ensures db.Valid()
    ensures mid !in old(db.msgs) ==> r == Err(NotFound)
    ensures mid in old(db.msgs) && old(db.msgs)[mid].sender != requester ==> r == Err(Forbidden)
    ensures r == Err(NotFound) || r == Err(Forbidden) ==>
      db.msgs == old(db.msgs) && db.msgOrder == old(db.msgOrder) && db.convs == old(db.convs) && io.log == old(io.log)
    ensures mid in old(db.msgs) && old(db.msgs)[mid].sender == requester ==>
      var cid := old(db.msgs)[mid].conversationId;
      && db.msgs == old(db.msgs) - {mid}
      && db.msgOrder == Keep(old(db.msgOrder), old(db.msgs).Keys - {mid})
      && (cid !in old(db.convs) ==> r == Err(ServerError) && db.convs == old(db.convs) && io.log == old(io.log))
      && (cid in old(db.convs) ==>
           && r == Ok(())
           && db.convs == old(db.convs)[cid := AfterDelete(old(db.convs)[cid], mid, Latest(db.MessagesOf(cid), db.msgs), old(db.clock))]
           && io.log == old(io.log) + [Emission(ToRoom(ObjectIdRoom(cid)), MessageDeleted(mid, cid))])
    ensures r.Ok? && JoinedByName(io.rooms) ==>
      |io.log| > 0 && Receivers(io.rooms, io.log[|io.log| - 1].target) == {}
  {
    if mid !in db.msgs {
      return Err(NotFound);
    }
    var m := db.msgs[mid];
    if m.sender != requester {
      return Err(Forbidden);
    }
    db.DeleteMessages({mid});
    r := RepairConversation(db, io, m.conversationId, mid);
  }

  /** What `deleteMessage` does once the message is gone: a lost
      conversation fails; otherwise the last-message pointer is repaired
      and the deletion announced. */
  method RepairConversation(db: Db, io: Io, cid: ConvId, mid: MsgId) returns (r: Result<()>)
    requires db.Valid()
    modifies db`convs, db`clock, io`log
    ensures db.Valid() && db.msgs == old(db.msgs) && db.msgOrder == old(db.msgOrder)
    ensures cid !in old(db.convs) ==> r == Err(ServerError) && db.convs == old(db.convs) && io.log == old(io.log)
    ensures cid in old(db.convs) ==>
      && r == Ok(())
      && db.convs == old(db.convs)[cid := AfterDelete(old(db.convs)[cid], mid, Latest(db.MessagesOf(cid), db.msgs), old(db.clock))]
      && io.log == old(io.log) + [Emission(ToRoom(ObjectIdRoom(cid)), MessageDeleted(mid, cid))]
    ensures r.Ok? && JoinedByName(io.rooms) ==>
      |io.log| > 0 && Receivers(io.rooms, io.log[|io.log| - 1].target) == {}
  {
    if cid !in db.convs {
      return Err(ServerError);
    }
    var now := db.Now();
    var newest := Latest(db.MessagesOf(cid), db.msgs);
    db.UpdateConversation(cid, AfterDelete(db.convs[cid], mid, newest, now));
    AnnounceDeletion(io, cid, mid);
    r := Ok(());
  }

  /** The 'message-deleted' emission, addressed by the conversation id value. */
  method AnnounceDeletion(io: Io, cid: ConvId, mid: MsgId)
    modifies io`log
    ensures io.log == old(io.log) + [Emission(ToRoom(ObjectIdRoom(cid)), MessageDeleted(mid, cid))]
    ensures JoinedByName(io.rooms) ==> Receivers(io.rooms, io.log[|io.log| - 1].target) == {}
  {
    io.Emit(ToRoom(ObjectIdRoom(cid)), MessageDeleted(mid, cid));
    if JoinedByName(io.rooms) {
      ObjectIdRoomReachesNobody(io.rooms, cid);
    }
  }
}
