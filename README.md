# Chat application: a verified model of the messaging core

This project models the core of a real-time chat application. The backend
is Express with a MongoDB (Mongoose) store and a Socket.IO server. The
frontend is React with a Zustand store. The model states in Dafny what that
core promises and proves it.

**What each part of the model is**

- The database is the class `Store.Db`:
  - conversations and messages are maps from id to document;
  - the natural insertion order of each collection is a sequence;
  - a clock gives the `createdAt`/`updatedAt` timestamps, and a counter gives fresh ids.
- The Socket.IO server is the class `Realtime.Io`: which socket is in which rooms, plus the log of everything emitted.
- Each REST handler and each socket handler is a module-level method.
  - Its `ensures` clause ties the new database state, the emissions and the HTTP answer to pure functions.
  - The pure functions and the lemmas about them carry the properties.
- What the outside world decides is a parameter:
  - the JWT check;
  - the answer of the upload endpoint;
  - whether a database lookup fails;
  - which request throws;
  - encryption and decryption.
- On the client:
  - the message composer is the class `MessageInput.Composer`;
  - the group typing indicator is the class `GroupChat.TypingPanel`;
  - the conversation store is the class `ConversationStore.ConversationState`;
  - rendering decisions (what a row or a bubble shows) are pure functions.

**Modules**

- `Common`: options, whitespace trimming, ASCII lowercasing, substring search, sorted unique id lists, order-keeping filters.
- `MessageModel`, `ConversationModel`: the two Mongoose schemas.
  - Defaults, `trim`, `required` and `enum` validation.
  - The `unreadCount` virtual and `setUserId`.
  - The unique index on direct conversations.
- `Store`: the database.
- `Realtime`: rooms and emissions.
- `MessageController`: listing messages with pagination, sending, marking read, deleting.
- `ConversationController`: listing conversations, reading one, creating a direct conversation, creating a group, marking read, leaving or deleting.
- `DbUtils`: `createOrGetDirectConversation`.
- `SocketHub`: the handshake; connection and presence; the `message`, `typing`, `read` and `disconnect` events; offline notifications.
- `ClientTypes`: the client-side shapes of users, messages and conversations.
- `MessageInput`, `GroupChat`, `ConversationItem`, `MessageBubble`, `Sidebar`, `ConversationStore`: the client rules listed above.

The model follows the code as written, with two exceptions. In each, a
comment in the source states an intent that the code does not carry out:

- The unread bump after a send (message.controller.js:116-123, "for all participants except sender") follows that comment. The update as written is `MessageController.BumpUnreadAsWritten`, and the first two Findings compare the two.
- The unique index on direct conversations (conversation.model.js:67-78, one conversation per pair) follows the comment too. The multikey index as written is `ConversationModel.MultikeyRefusesSecondPartner`.

Elsewhere the model keeps what the code does even where that looks unintended:

- `sendOfflineNotifications` reads but changes nothing, because its update matches no document.
- The socket `message` handler does not check that the sender takes part in the conversation.
- A conversation list row puts its delivery ticks on other people's messages (see `ConversationItem.StatusIconOppositeOfBubble`).

## Model

| member | source | states |
|---|---|---|
| Common.Trim | backend/src/models/message.model.js:15-19 | the result occurs in the input and starts and ends with a non-space character, or is empty |
| Common.TrimDropsOnlySpace | backend/src/models/message.model.js:15-19 | the result sits in the input with only whitespace before and after it |
| Common.TrimIdempotent | backend/src/models/message.model.js:15-19 | trimming twice is trimming once |
| Common.TrimEmptyIffAllSpace | frontend/src/components/MessageInput.tsx:97 | `text.trim()` is empty exactly when the text is all whitespace |
| Common.Lower | frontend/src/components/Sidebar.tsx:25 | same length; each character is mapped to lower case, A-Z only |
| Common.IncludesIffOccurs | frontend/src/components/Sidebar.tsx:25 | `includes` holds exactly when the needle occurs at some position |
| Common.IncludesEmpty | frontend/src/components/Sidebar.tsx:25 | every string includes the empty string |
| Common.SortUnique | backend/src/controllers/conversation.controller.js:203-205 | the de-duplicated, sorted id list is strictly increasing and has the same members |
| Common.SortUniqueOrderIndependent | backend/src/controllers/conversation.controller.js:203-205 | lists with the same members give the same participant list, whatever their order and repeats |
| Common.SortPair | backend/src/controllers/conversation.controller.js:113 | the two ids in increasing order, as a multiset equal to the pair |
| Common.SortPairSymmetric | backend/src/utils/db.utils.js:122 | the sorted pair does not depend on which user asked |
| Common.Keep | backend/src/controllers/message.controller.js:271 | removing documents keeps exactly the others that were there, and no more of them than before |
| Common.KeepNoDup | backend/src/controllers/message.controller.js:271 | removing documents adds no duplicate |
| Common.KeepIncreasing | backend/src/controllers/message.controller.js:271 | removing documents keeps the natural order increasing |
| Common.KeepAll | backend/src/controllers/message.controller.js:271 | removing nothing present leaves the order unchanged |
| MessageModel.ParseType | backend/src/models/message.model.js:20-24 | accepts exactly the four enum names and yields the type with that name |
| MessageModel.ParseTypeName | backend/src/models/message.model.js:20-24 | parsing a type's name gives back the type |
| MessageModel.Create | backend/src/models/message.model.js:3-62 | validation succeeds exactly when the fields are acceptable; the stored content is trimmed, the other fields take their given values or schema defaults, `readBy` is empty and `createdAt` is the clock |
| MessageModel.Acceptable | backend/src/models/message.model.js:5-24 | a message that validates has a conversation, content that is not all whitespace, and a type from the four enum names or none |
| MessageModel.CreateDefaults | backend/src/models/message.model.js:20-49 | without those fields a message is text, not delivered, not read, with no receipts |
| MessageModel.CreatedContentTrimmed | backend/src/models/message.model.js:15-19 | stored content is non-empty and already trimmed |
| ConversationModel.Create | backend/src/models/conversation.model.js:3-57 | a created conversation satisfies the schema; it keeps participants, unread counts and admin, trims name and description, has no last message, and both timestamps are the clock |
| ConversationModel.RequiredOnlyForGroups | backend/src/models/conversation.model.js:14-50 | a direct conversation always validates; a group validates exactly when it has an admin and a name that is not blank |
| ConversationModel.FirstEntryOf | backend/src/models/conversation.model.js:92-94 | the index `find` stops at: no earlier entry is the user's, and the entry there is |
| ConversationModel.UnreadCountOf | backend/src/models/conversation.model.js:86-100 | 0 without a user in context or without an entry for that user; otherwise the count of the user's first entry |
| ConversationModel.ConversationDoc.constructor | backend/src/models/conversation.model.js:86-100 | a loaded document has no user in context |
| ConversationModel.ConversationDoc.SetUserId | backend/src/models/conversation.model.js:103-106 | sets the user in context, leaves the data alone and returns the same document |
| ConversationModel.ConversationDoc.UnreadCount | backend/src/models/conversation.model.js:86-100 | the virtual reads the count for the user in context |
| ConversationModel.PairIndexInsert | backend/src/models/conversation.model.js:67-78 | with direct pairs already unique, an insert keeps them unique exactly when the pair index admits it |
| ConversationModel.MultikeyRefusesSecondPartner | backend/src/models/conversation.model.js:67-78 | a concrete pair of conversations, {1,2} and then {1,3}: the intended pair index admits the second, the multikey index as written refuses it |
| Realtime.Receivers | backend/src/socket.js:99 | a room emission reaches exactly the sockets in the room; a `socket.to` emission reaches the same sockets minus the emitting one; a socket emission reaches one socket |
| Realtime.ObjectIdRoomReachesNobody | backend/src/controllers/message.controller.js:291 | when every join is by string name, an emission to the room named by the id value reaches no socket |
| Realtime.JoinKeepsJoinedByName | backend/src/socket.js:210-214 | joining by string name, and dropping a socket, keep every join by name |
| Realtime.RelaySkipsSender | backend/src/socket.js:96-105 | a relayed event never reaches its sender, and reaches everyone else in the room |
| Realtime.Io.constructor | backend/src/socket.js:50-57 | no rooms and nothing emitted |
| Realtime.Io.Emit | backend/src/controllers/message.controller.js:127 | appends exactly one emission to the log |
| Realtime.Io.Join | backend/src/socket.js:210-214 | adds the room to that socket's rooms only |
| Realtime.Io.Drop | backend/src/socket.js:139-144 | a disconnected socket leaves every room |
| Store.InsertWellFormed | backend/src/models/conversation.model.js:67-78 | inserting a valid conversation, which the pair index admits, keeps the collection well formed |
| Store.AddMessageWellFormed | backend/src/controllers/message.controller.js:98-105 | a message created now under the next id keeps the messages collection well formed |
| Store.ReplaceWellFormed | backend/src/controllers/message.controller.js:111-114 | replacing a conversation by a valid one of the same kind and members keeps the collection well formed |
| Store.RemoveWellFormed | backend/src/controllers/conversation.controller.js:340 | removing a conversation and its id from the order keeps the collection well formed |
| Store.FindDirect | backend/src/controllers/conversation.controller.js:116-126 | `findOne` returns the first conversation in natural order that matches the participant pair; `None` means none matches |
| Store.FindAfterInsert | backend/src/utils/db.utils.js:125-136 | after a direct conversation is created because none was found, the same query finds it |
| Store.Db.MessagesOf | backend/src/controllers/message.controller.js:32-36 | exactly the conversation's stored messages |
| Store.Db.ConversationsOf | backend/src/controllers/conversation.controller.js:13-18 | exactly the user's conversations, in increasing id order |
| Store.Db.constructor | backend/src/models/conversation.model.js:3-57 | empty collections over the given users |
| Store.Db.Now | backend/src/models/conversation.model.js:53 | returns the clock reading and advances it |
| Store.Db.CreateMessage | backend/src/controllers/message.controller.js:98-105 | stores the validated message under a fresh id at the end of the natural order, or stores nothing when validation fails |
| Store.Db.InsertMessage | backend/src/controllers/message.controller.js:98-105 | the message is stored under a fresh id at the end of the natural order; the clock and the allocator move on |
| Store.Db.UpdateMessages | backend/src/controllers/message.controller.js:43-50 | replaces the message documents; creation times are kept |
| Store.Db.DeleteMessages | backend/src/controllers/conversation.controller.js:337 | removes exactly those messages and keeps the order of the rest |
| Store.Db.CreateConversation | backend/src/controllers/conversation.controller.js:131-138 | invalid fields store nothing; a duplicate pair is refused; otherwise the conversation is stored under a fresh id |
| Store.Db.InsertConversation | backend/src/controllers/conversation.controller.js:214-221 | stores the conversation under a fresh id at the end of the order |
| Store.Db.UpdateConversation | backend/src/controllers/message.controller.js:111-114 | replaces that one conversation |
| Store.Db.DeleteConversation | backend/src/controllers/conversation.controller.js:340 | removes that conversation and keeps the order of the rest |
| Store.Db.UpdateUser | backend/src/socket.js:154-158 | `findByIdAndUpdate` on a user: a missing user changes nothing |
| MessageController.Reverse | backend/src/controllers/message.controller.js:60 | `reverse` puts position i at position n-1-i |
| MessageController.LimitOf | backend/src/controllers/message.controller.js:37 | limit 0 means no limit; a negative limit acts as its absolute value; the default is 50 |
| MessageController.PageIsSlice | backend/src/controllers/message.controller.js:30-60 | sorting newest first, skipping, limiting and reversing gives one contiguous slice of the chronological list |
| MessageController.Cursor | backend/src/controllers/message.controller.js:35-37 | `.skip(n).limit(k)` keeps no more than k of the documents and none of them past the end; skipping all gives nothing |
| MessageController.Page | backend/src/controllers/message.controller.js:33-60 | a page holds no more than `limit` ids, all of them from the conversation's messages (its exact slice is PageIsSlice) |
| MessageController.CursorAt | backend/src/controllers/message.controller.js:35-36 | `.skip(n).limit(k)` keeps at most k documents, the ones from position n on |
| MessageController.PageDocs | backend/src/controllers/message.controller.js:33-37 | one document per id of the page, each a stored document of the conversation |
| MessageController.PageBounds | backend/src/controllers/message.controller.js:37 | a page holds at most `limit` messages, all of the conversation |
| MessageController.MessagesChronological | backend/src/models/message.model.js:62 | a conversation's messages in natural order have strictly increasing creation times |
| MessageController.MarkDelivered | backend/src/controllers/message.controller.js:43-50 | exactly the messages of the conversation sent by others become delivered; nothing else changes |
| MessageController.MarkDeliveredIdempotent | backend/src/controllers/message.controller.js:43-50 | marking delivered twice is marking once |
| MessageController.GetMessages | backend/src/controllers/message.controller.js:11-67 | outsiders get 404 and a negative skip gets 500, both changing nothing; otherwise the page as read before the update, the delivered flags updated, and one `messages-delivered` emitted to the room |
| MessageController.BumpUnread | backend/src/controllers/message.controller.js:116-123 | every entry but the sender's goes up by one, users unchanged |
| MessageController.BumpUnreadCounts | backend/src/controllers/message.controller.js:116-123 | the sender's visible count is unchanged; every other participant with an entry sees one more; no entry reads 0 |
| MessageController.BumpUnreadAsWritten | backend/src/controllers/message.controller.js:116-123 | the update as written succeeds, changing nothing, exactly when the sender has an entry (the `$ne` filter then matches no document); when no entry is the sender's it fails (the positional `$` has no match) |
| MessageController.BumpUnreadAsWrittenMissesRecipient | backend/src/controllers/message.controller.js:116-123 | for two participants, the recipient's count stays 0 as written and becomes 1 as intended |
| MessageController.SendFields | backend/src/controllers/message.controller.js:98-105 | the fields handed to `create`: type defaults to "text", no delivered or read flags |
| MessageController.AfterSend | backend/src/controllers/message.controller.js:111-123 | the conversation points to the new message, is bumped to now, and its unread counts are raised; nothing else changes |
| MessageController.SendMessage | backend/src/controllers/message.controller.js:74-137 | 404 outside the conversation and 500 on a failed validation, both changing nothing; otherwise one message stored under a fresh id, the conversation updated by `AfterSend`, and one `new-message` emitted |
| MessageController.CreateAndDeliver | backend/src/controllers/message.controller.js:98-128 | a validated message is stored under a fresh id, the conversation updated by `AfterSend`, and one `new-message` emitted |
| MessageController.Deliver | backend/src/controllers/message.controller.js:111-128 | the conversation update, then the one emission |
| MessageController.PendingIds | backend/src/controllers/message.controller.js:194-209 | exactly the unread messages of the conversation sent by others |
| MessageController.MarkRead | backend/src/controllers/message.controller.js:194-209 | every pending message becomes read with one receipt for the reader at now; every other message is unchanged |
| MessageController.MarkReadMonotone | backend/src/controllers/message.controller.js:194-209 | read stays read; delivered flags and creation times are untouched |
| MessageController.MarkReadClearsPending | backend/src/controllers/message.controller.js:194-209 | nothing is pending after marking |
| MessageController.MarkReadIdempotent | backend/src/controllers/message.controller.js:194-209 | a second marking, at any time, adds no receipt |
| MessageController.ResetUnread | backend/src/controllers/message.controller.js:212-215 | only the reader's first entry is set to 0, as the positional `$` does |
| MessageController.ResetUnreadCounts | backend/src/controllers/message.controller.js:212-215 | the reader then reads 0 and every other user's count is unchanged |
| MessageController.AfterReset | backend/src/controllers/message.controller.js:212-215 | no entry for the reader means the update matches nothing; otherwise the entry is reset and the conversation bumped; either way the reader reads 0 |
| MessageController.MarkAsRead | backend/src/controllers/message.controller.js:176-235 | 404 outside, changing nothing; otherwise the number of messages flipped, the messages marked, the counter reset, and one `messages-read` emitted |
| MessageController.Latest | backend/src/controllers/message.controller.js:277-281 | `None` exactly for no messages; otherwise a message with the greatest creation time |
| MessageController.AfterDelete | backend/src/controllers/message.controller.js:274-287 | the last-message pointer moves to the newest remaining message only when it pointed to the deleted one |
| MessageController.AnnounceDeletion | backend/src/controllers/message.controller.js:290-296 | one `message-deleted` emission to the room named by the id value, which reaches nobody while every join is by name |
| MessageController.DeleteMessage | backend/src/controllers/message.controller.js:242-307 | 404 for a missing message and 403 for someone else's, both changing nothing; otherwise the message is removed, a lost conversation fails with 500 after the removal, and otherwise the pointer is repaired and `message-deleted` is emitted to the room named by the id value, which reaches no socket while every join is by string name |
| MessageController.RepairConversation | backend/src/controllers/message.controller.js:273-296 | after the removal: a lost conversation fails with 500 and changes nothing more; otherwise the pointer is repaired and one `message-deleted` goes to the id-value room, which reaches nobody while every join is by name |
| ConversationController.AnnotationIsVirtual | backend/src/controllers/conversation.controller.js:21-28 | the count attached to each listed conversation is the virtual's value for the requester |
| ConversationController.SortByUpdated | backend/src/controllers/conversation.controller.js:18 | a permutation of the ids, ordered newest update first |
| ConversationController.InsertByUpdatedAdds | backend/src/controllers/conversation.controller.js:18 | one insertion step adds exactly the inserted id |
| ConversationController.InsertByUpdatedBound | backend/src/controllers/conversation.controller.js:18 | a time no earlier than every entry stays so after the insertion |
| ConversationController.InsertByUpdatedSorted | backend/src/controllers/conversation.controller.js:18 | inserting into a list sorted newest first keeps it sorted |
| ConversationController.ConsDesc | backend/src/controllers/conversation.controller.js:18 | a conversation at least as recent as every listed one can go first |
| ConversationController.Annotate | backend/src/controllers/conversation.controller.js:21-35 | one view per id, in order, holding the document and the requester's unread count |
| ConversationController.ListViews | backend/src/controllers/conversation.controller.js:13-35 | the views are exactly the user's conversations, each once, newest update first, each with its unread count |
| ConversationController.SameMembers | backend/src/controllers/conversation.controller.js:13-18 | two lists holding the same ids as many times hold the same ids |
| ConversationController.GetConversations | backend/src/controllers/conversation.controller.js:10-44 | the answer lists exactly the conversations the user takes part in, newest first, each with the user's unread count |
| ConversationController.GetConversationById | backend/src/controllers/conversation.controller.js:51-82 | 404 for a missing id, 403 for a non-participant, otherwise the document with the requester in context |
| ConversationController.DirectFields | backend/src/controllers/conversation.controller.js:131-138 | sorted pair, not a group, a zero unread entry for each user |
| ConversationController.NoMatchAdmits | backend/src/controllers/conversation.controller.js:116-138 | when the lookup finds no conversation, the new one validates and the pair index admits it |
| ConversationController.CreateConversation | backend/src/controllers/conversation.controller.js:89-176 | 400 without another user; the existing conversation when the pair already has one, with nothing stored; otherwise a new conversation under a fresh id |
| ConversationController.MultikeyAnswersConflict | backend/src/controllers/conversation.controller.js:116-168 | as written, a pair with no conversation can still be refused by the index |
| ConversationController.ZeroEntries | backend/src/controllers/conversation.controller.js:208-211 | one zero entry per participant, in order |
| ConversationController.GroupStartsAtZero | backend/src/controllers/conversation.controller.js:203-211 | every user reads 0 in a new group; the creator is a member; the members are the creator and the supplied users; the list is sorted |
| ConversationController.NewGroup | backend/src/controllers/conversation.controller.js:214-221 | validates exactly when the name is not blank; a group with the creator as admin and the trimmed name and description, no last message, the sorted unique list of the supplied users and the creator as participants, and a zero unread entry for each of them |
| ConversationController.InsertGroup | backend/src/controllers/conversation.controller.js:214-221 | a blank name fails validation and stores nothing; otherwise the group is stored under a fresh id |
| ConversationController.CreateGroupConversation | backend/src/controllers/conversation.controller.js:183-234 | 400 for a missing name or participant list and for fewer than two participants; 500 for a blank name; otherwise the new group |
| ConversationController.MarkConversationRead | backend/src/controllers/conversation.controller.js:241-292 | 404 outside, changing nothing; otherwise the requester's counter reset and every pending message read with a receipt |
| ConversationController.Pull | backend/src/controllers/conversation.controller.js:322-325 | `$pull` removes exactly that user, keeping an increasing list increasing and a duplicate-free one duplicate-free |
| ConversationController.DeleteConversation | backend/src/controllers/conversation.controller.js:299-358 | 404 for non-participants; a non-admin group member leaves the group; anyone else deletes the conversation and all its messages |
| DbUtils.PlainDirect | backend/src/utils/db.utils.js:130-133 | the conversation `create` builds from the sorted pair alone: not a group, no unread entries |
| DbUtils.CreateOrGetDirect | backend/src/utils/db.utils.js:119-146 | the existing conversation of the pair with nothing changed, or a new one at the end of the order |
| DbUtils.SecondCallRepeats | backend/src/utils/db.utils.js:119-146 | after one call, a call with the users swapped finds what the first found or created, or fails as it did, changing nothing |
| DbUtils.CreateOrGetTwice | backend/src/utils/db.utils.js:119-146 | a second call with the same users answers the same conversation and stores nothing more |
| SocketHub.Socket.constructor | backend/src/socket.js:22-48 | a socket starts without a user |
| SocketHub.Authenticate | backend/src/socket.js:22-48 | accepted exactly when a non-empty token verifies to a known user; "User not found" exactly for a verified unknown user; "Authentication error" otherwise |
| SocketHub.Admit | backend/src/socket.js:22-48 | an accepted handshake stores the user on the socket; a refused one leaves it alone |
| SocketHub.PresenceReachesExactly | backend/src/socket.js:160-170 | the presence notices reach exactly the rooms of the user's conversations, each with the user, the room's conversation, the status and the time |
| SocketHub.PresenceNoticeAt | backend/src/socket.js:165-170 | the i-th notice goes to the room of the i-th conversation and is about it |
| SocketHub.EmitPresence | backend/src/socket.js:165-170 | the loop emits one notice per conversation in order |
| SocketHub.AnnouncePresence | backend/src/socket.js:152-199 | the user is marked online or offline with last seen as now, and the notice reaches exactly the user's conversation rooms |
| SocketHub.JoinAll | backend/src/socket.js:209-214 | the socket joins every conversation room and its user room |
| SocketHub.JoinUserRooms | backend/src/socket.js:201-218 | a failed lookup joins nothing; otherwise the socket's rooms become its old rooms, its user room and exactly its user's conversation rooms |
| SocketHub.Connect | backend/src/socket.js:50-57 | the user is marked online with the clock as last seen, other users untouched; an online notice goes to each of the user's conversations; then, unless the lookup fails, the socket joins every conversation room and the user room, and otherwise no room |
| SocketHub.Disconnect | backend/src/socket.js:139-144 | the socket leaves every room; the user is marked offline with the clock as last seen, other users untouched; an offline notice goes to each of the user's conversations |
| SocketHub.SocketFields | backend/src/socket.js:61-74 | the socket variant gives explicit false delivered and read flags |
| SocketHub.OfflineRecipients | backend/src/socket.js:229-231 | exactly the participants who are offline and not the sender |
| SocketHub.SendOfflineNotifications | backend/src/socket.js:220-248 | no conversation gives nobody; otherwise exactly the offline recipients, changing nothing |
| SocketHub.AfterBroadcast | backend/src/socket.js:80-82 | the conversation points to the message and is bumped; its unread counts are not touched |
| SocketHub.OnMessage | backend/src/socket.js:60-93 | a failed validation stores nothing and answers the socket with an error; otherwise one message stored, the conversation updated when it exists, the message emitted to the room, and the offline recipients computed |
| SocketHub.StoreAndBroadcast | backend/src/socket.js:65-85 | the accepted message is stored under a fresh id, the conversation updated when it exists, and the message emitted to its room |
| SocketHub.Broadcast | backend/src/socket.js:80-85 | the conversation update, then the emission to the whole room |
| SocketHub.OnTyping | backend/src/socket.js:96-105 | one typing notice, relayed to the room but not to the typing socket |
| SocketHub.SetRead | backend/src/socket.js:114 | exactly that message becomes read |
| SocketHub.FlagRead | backend/src/socket.js:117-125 | every pending message becomes read, without a receipt |
| SocketHub.FlagReadProperties | backend/src/socket.js:117-125 | socket marking is idempotent, monotone, flips what the REST marking flips and records no receipts |
| SocketHub.OnRead | backend/src/socket.js:108-136 | one message or all pending ones are flagged, then the read notice is relayed to the room |
| ClientTypes.FirstOther | frontend/src/components/ConversationItem.tsx:19 | the index `find` stops at: every earlier participant is the viewer and the one there is not |
| ClientTypes.OtherParticipant | frontend/src/components/ConversationItem.tsx:18-20 | none for a group; otherwise a participant who is not the viewer, found whenever one exists |
| MessageInput.Extension | frontend/src/components/MessageInput.tsx:185 | no longer than the file name |
| MessageInput.ExtensionIsLastPart | frontend/src/components/MessageInput.tsx:185 | `split('.').pop()` is the suffix after the last dot, or the whole name when there is no dot |
| MessageInput.Classify | frontend/src/components/MessageInput.tsx:188-196 | never text; an image exactly for the image extensions and a video exactly for the video extensions |
| MessageInput.FileType | frontend/src/components/MessageInput.tsx:184-197 | a file is never sent as text |
| MessageInput.FileTypeByExtension | frontend/src/components/MessageInput.tsx:184-197 | a file is an image or a video exactly when its lower-cased extension is in that list |
| MessageInput.ExtensionOfLastPart | frontend/src/components/MessageInput.tsx:185 | only the part after the last dot counts |
| MessageInput.FileTypeOfLastPart | frontend/src/components/MessageInput.tsx:184-197 | the file type depends only on the last part of the name |
| MessageInput.LowerExtension | frontend/src/components/MessageInput.tsx:185 | lower-casing commutes with taking the extension |
| MessageInput.LowerSnoc | frontend/src/components/MessageInput.tsx:185 | lower-casing a string with one more character appends that character lower-cased |
| MessageInput.FileTypeIgnoresCase | frontend/src/components/MessageInput.tsx:185 | names equal up to case get the same type |
| MessageInput.DotFreeExtension | frontend/src/components/MessageInput.tsx:185 | a name without a dot is its own extension |
| MessageInput.ImageExample | frontend/src/components/MessageInput.tsx:184-197 | "holiday.photo.JPG" is an image |
| MessageInput.VideoExample | frontend/src/components/MessageInput.tsx:184-197 | "clip.mp4" is a video |
| MessageInput.DocumentExamples | frontend/src/components/MessageInput.tsx:185-196 | a name with no dot, or ending in a dot, is a document |
| MessageInput.NoDotExample | frontend/src/components/MessageInput.tsx:185-196 | "TODO", which has no dot, is a document |
| MessageInput.TrailingDotExample | frontend/src/components/MessageInput.tsx:185-196 | "photo.", with an empty extension, is a document |
| MessageInput.AfterFileChange | frontend/src/components/MessageInput.tsx:55-82 | the choice is appended whole or not at all, exactly when it is empty or fits the count and every file fits the size limit; the limits are preserved |
| MessageInput.Without | frontend/src/components/MessageInput.tsx:85 | drops exactly the file at that index; an index out of range changes nothing |
| MessageInput.RemovingKeepsLimits | frontend/src/components/MessageInput.tsx:84-86 | removing a file keeps the limits and shortens the list by one when the index is in range |
| MessageInput.FileMessages | frontend/src/components/MessageInput.tsx:122-133 | one post per uploaded file, in upload order |
| MessageInput.SendPlanShape | frontend/src/components/MessageInput.tsx:100-154 | with files: one file post per upload, then the text when it is not blank; without files: the text alone; exactly the text posts carry no file |
| MessageInput.SendPlan | frontend/src/components/MessageInput.tsx:100-154 | a send posts nothing exactly when files were chosen, none was uploaded and the text is blank |
| MessageInput.Blocked | frontend/src/components/MessageInput.tsx:97 | the guard holds exactly when the trimmed text is empty and no file is selected, nobody is signed in, or an upload is in flight |
| MessageInput.Reached | frontend/src/components/MessageInput.tsx:122-154 | how many posts are made before the first one that throws |
| MessageInput.Composer.constructor | frontend/src/components/MessageInput.tsx:17-24 | empty text and selection, not uploading, no timer |
| MessageInput.Composer.Type | frontend/src/components/MessageInput.tsx:26-36 | the text is replaced, a typing status sent and the timer set |
| MessageInput.Composer.FileChange | frontend/src/components/MessageInput.tsx:55-82 | the selection follows `AfterFileChange`; its limits are kept |
| MessageInput.Composer.RemoveFile | frontend/src/components/MessageInput.tsx:84-86 | the selection loses one file; its limits are kept |
| MessageInput.Composer.Unmount | frontend/src/components/MessageInput.tsx:38-47 | the upload flag and the selection are reset |
| MessageInput.Composer.HandleSendMessage | frontend/src/components/MessageInput.tsx:96-182 | ignored exactly when blocked by the guard, changing nothing; a failed upload or post keeps the text and selection; the posts made are a prefix of the plan; success clears text and selection and sends a stop-typing status if a timer was ever set; the upload flag always ends down |
| MessageInput.Composer.Post | frontend/src/components/MessageInput.tsx:122-133 | the first n planned messages are posted, in order |
| MessageInput.Composer.Finish | frontend/src/components/MessageInput.tsx:145-160 | the success path's clearing and stop-typing status |
| GroupChat.Added | frontend/src/pages/GroupChat.tsx:40-44 | set insertion: the name is present afterwards, appended only when new; no duplicates arise |
| GroupChat.Removed | frontend/src/pages/GroupChat.tsx:53-57 | set deletion: exactly that name is gone; no duplicates arise |
| GroupChat.StopLooksLikeStart | frontend/src/pages/GroupChat.tsx:37-44 | a stop-typing event shows its sender as typing, like a start event |
| GroupChat.TypingMessage | frontend/src/pages/GroupChat.tsx:89-95 | no line exactly when nobody types |
| GroupChat.TypingMessageNames | frontend/src/pages/GroupChat.tsx:89-95 | one or two typers are named in the order they started; from three on the line is the same for every group |
| GroupChat.TypingPanel.constructor | frontend/src/pages/GroupChat.tsx:33-36 | nobody typing, no timeout pending |
| GroupChat.TypingPanel.OnTyping | frontend/src/pages/GroupChat.tsx:37-60 | an event of this group adds the sender and replaces the pending timeout with one for that sender; other groups change nothing; no duplicates arise |
| GroupChat.TypingPanel.TimerFires | frontend/src/pages/GroupChat.tsx:52-58 | the pending timeout removes its own sender only |
| GroupChat.TypingPanel.Leave | frontend/src/pages/GroupChat.tsx:64-70 | the cleanup clears the pending timeout |
| GroupChat.TypingPanel.Rebind | frontend/src/pages/GroupChat.tsx:33-71 | moving to another group route (one `GroupChat` element serves every `/group/:groupId`, App.tsx:50) re-binds the group and clears the timeout but keeps the typing names |
| GroupChat.TyperCarriesOver | frontend/src/pages/GroupChat.tsx:33-71 | a name typing in one group when the user moves to another stays shown there after every timer has fired |
| GroupChat.StaleTyper | frontend/src/pages/GroupChat.tsx:46-58 | two members typing within three seconds leave the first one shown as typing after every timer has fired |
| MessageBubble.Render | frontend/src/components/MessageBubble.tsx:134-163 | the bubble sits on the right exactly for the viewer's own messages |
| MessageBubble.Shown | frontend/src/components/MessageBubble.tsx:30-32 | a non-empty ciphertext is shown decrypted; otherwise the plain content is shown |
| MessageBubble.BodyOf | frontend/src/components/MessageBubble.tsx:50-119 | the body matches the message kind, one to one: image and video show the file, a document card shows the content as its name and links the file, text shows the shown content |
| MessageBubble.StatusOf | frontend/src/components/MessageBubble.tsx:122-132 | a tick exactly on the viewer's own messages: read, else delivered, else sent |
| MessageBubble.OwnMessageLayout | frontend/src/components/MessageBubble.tsx:122-160 | own messages: no avatar, spacer or name; a double tick exactly when read, a delivered tick exactly when delivered but unread, a sent tick otherwise |
| MessageBubble.ReceivedMessageLayout | frontend/src/components/MessageBubble.tsx:122-160 | others' messages: no tick; exactly one of avatar and spacer; the avatar, and in groups the name, only on the first message of a run |
| MessageBubble.SignedOutSeesNoTicks | frontend/src/components/MessageBubble.tsx:26-123 | with nobody signed in every bubble is on the left without a tick |
| MessageBubble.TextShownAsTyped | frontend/src/components/MessageBubble.tsx:30-32 | when decryption undoes encryption, a text shows exactly what was typed |
| MessageBubble.FileBodiesIgnoreCiphertext | frontend/src/components/MessageBubble.tsx:50-119 | image, video and document bodies never depend on the ciphertext; a document shows its file name |
| ConversationItem.DirectTitlesCross | frontend/src/components/ConversationItem.tsx:18-24 | in a direct conversation each participant sees the other's name |
| ConversationItem.DisplayName | frontend/src/components/ConversationItem.tsx:22-24 | a group is titled by its name or "Unnamed Group"; a direct conversation by the name of a participant who is not the viewer when there is one, else "Unknown User" |
| ConversationItem.SelfConversationUnknown | frontend/src/components/ConversationItem.tsx:22-24 | a direct conversation with only the viewer is titled "Unknown User" |
| ConversationItem.BadgeOf | frontend/src/components/ConversationItem.tsx:31-113 | no badge exactly for a count of 0 or less; the number for 1 to 9; "9+" exactly above 9 |
| ConversationItem.BadgeMonotone | frontend/src/components/ConversationItem.tsx:109-113 | more unread messages never give a smaller badge |
| ConversationItem.Preview | frontend/src/components/ConversationItem.tsx:99-103 | a text message is previewed by its stored content, any other kind as "Sent a " and its type name, and no last message as "No messages yet" |
| ConversationItem.PreviewNamesKind | frontend/src/components/ConversationItem.tsx:99-103 | a file preview is "Sent a " followed by a type name that parses back to the message's kind, so two file messages share a preview exactly when they are of the same kind |
| ConversationItem.PreviewOfFile | frontend/src/components/ConversationItem.tsx:99-103 | a file's preview does not show its content and differs from the empty preview |
| ConversationItem.StatusIcon | frontend/src/components/ConversationItem.tsx:46-54 | never a sent tick; any tick sits on a message somebody else sent |
| ConversationItem.StatusIconOppositeOfBubble | frontend/src/components/ConversationItem.tsx:46-54 | the row and the bubble never both tick a message; for a delivered or read message exactly one does, and it shows the right tick |
| ConversationItem.RouteInjective | frontend/src/components/ConversationItem.tsx:39-43 | different conversations lead to different paths, and the path tells a group from a direct chat |
| ConversationItem.Route | frontend/src/components/ConversationItem.tsx:39-43 | the path ends with the conversation id and its second character is `g` exactly for a group |
| ConversationItem.Click | frontend/src/components/ConversationItem.tsx:33-44 | the conversation becomes current, the sidebar toggles only on a narrow screen, and the page moves to its route |
| Sidebar.FilterAsWritten | frontend/src/components/Sidebar.tsx:20-26 | the filter as written (the no-throw case also in FilterAsWrittenWhenNamed) |
| Sidebar.SearchNameAsWritten | frontend/src/components/Sidebar.tsx:21-23 | no title (so the search throws) exactly for a group without a name; a group's title is its name |
| Sidebar.SearchName | frontend/src/components/Sidebar.tsx:21-23 | a group is searched by its name or ""; a direct conversation by a non-viewer participant's name, or "" when there is none |
| Sidebar.UnnamedGroupBreaksSearch | frontend/src/components/Sidebar.tsx:21-25 | one group without a name makes the filter throw, whatever the search term |
| Sidebar.Filtered | frontend/src/components/Sidebar.tsx:20-26 | the search shows no more conversations than are listed |
| Sidebar.FilteredMembers | frontend/src/components/Sidebar.tsx:20-26 | exactly the listed conversations whose title contains the term, ignoring case |
| Sidebar.FilterBy | frontend/src/components/Sidebar.tsx:20 | `filter` keeps no more entries than the list has |
| Sidebar.FilterByMembers | frontend/src/components/Sidebar.tsx:20 | `filter` keeps exactly the entries that pass |
| Sidebar.FilterByAppend | frontend/src/components/Sidebar.tsx:20 | filtering a concatenation concatenates the filtered parts |
| Sidebar.FilterAsWrittenWhenNamed | frontend/src/components/Sidebar.tsx:20-26 | where every group is named, the corrected filter is the one written |
| Sidebar.FilteredAppend | frontend/src/components/Sidebar.tsx:20-26 | the filter keeps the list's order |
| Sidebar.EmptyTermKeepsAll | frontend/src/components/Sidebar.tsx:20-26 | an empty search shows every conversation |
| Sidebar.Directs | frontend/src/components/Sidebar.tsx:118-120 | exactly the direct conversations |
| Sidebar.Groups | frontend/src/components/Sidebar.tsx:149-151 | exactly the groups |
| Sidebar.SectionsPartition | frontend/src/components/Sidebar.tsx:118-151 | the two sections split the filtered list: every entry lands in exactly one |
| ConversationStore.ReplaceById | frontend/src/stores/conversationStore.ts:66-68 | same length; each entry with that id is replaced, the others kept |
| ConversationStore.ReplaceAbsent | frontend/src/stores/conversationStore.ts:66-68 | a list without that id is unchanged |
| ConversationStore.ReplaceIdempotent | frontend/src/stores/conversationStore.ts:66-68 | applying the same answer twice is applying it once; an answer with the asked id keeps every id in place |
| ConversationStore.RefreshKeepsCurrentListed | frontend/src/stores/conversationStore.ts:65-72 | a listed current conversation stays listed after the update |
| ConversationStore.ConversationState.constructor | frontend/src/stores/conversationStore.ts:20-25 | empty list, nothing current, not loading, no error, sidebar closed |
| ConversationStore.ConversationState.SetCurrentConversation | frontend/src/stores/conversationStore.ts:26 | the conversation becomes current |
| ConversationStore.ConversationState.FetchConversations | frontend/src/stores/conversationStore.ts:27-36 | the answer replaces the list, or the error is recorded and thrown with the list kept; loading ends |
| ConversationStore.ConversationState.GetConversation | frontend/src/stores/conversationStore.ts:37-46 | the answer becomes current, or the error is recorded and thrown; loading ends |
| ConversationStore.ConversationState.CreateGroup | frontend/src/stores/conversationStore.ts:47-60 | the new group is appended and returned, or the error recorded; a listed current conversation stays listed |
| ConversationStore.ConversationState.ApplyParticipantChange | frontend/src/stores/conversationStore.ts:61-96 | the answer replaces that id in the list and, if current, on the page, or the error is recorded and thrown; a listed current conversation stays listed |
| ConversationStore.ConversationState.AddParticipant | frontend/src/stores/conversationStore.ts:61-78 | as `ApplyParticipantChange` |
| ConversationStore.ConversationState.RemoveParticipant | frontend/src/stores/conversationStore.ts:79-96 | as `ApplyParticipantChange` |
| ConversationStore.ConversationState.ToggleSidebar | frontend/src/stores/conversationStore.ts:97 | the sidebar flag is flipped |
| ConversationStore.ToggleTwice | frontend/src/stores/conversationStore.ts:97 | toggling twice restores the sidebar |

## Left out

- Population (`populate`) of senders and participants: the model keeps ids. The client types carry the populated shape instead.
- Each REST handler and each socket handler reads the clock once or twice through `Store.Db.Now`. Wall-clock time, and dates as `Date` objects, are not modelled.
- SocketHub.AnnouncePresence: the offline notices reuse the reading stored as `lastSeen` instead of reading the clock again for each notice (socket.js:180 and 193). So the model makes the emitted and stored times equal, which the program does not guarantee.
- Lowercasing covers ASCII A-Z only; JavaScript's Unicode case mapping is not modelled.
- `parseInt` of page and limit: non-numeric text (NaN) is not modelled, and neither are cast errors on malformed ObjectIds. Page and limit are optional integers.
- The message `updatedAt` timestamp and the `reactions` array are not modelled; no core operation reads them, and only `createdAt` orders messages.
- Deleting a message's file from disk (message.controller.js:262-269) is not modelled: it calls `fs`, which that file does not import, and has no effect on the database.
- MessageController.MarkAsRead: the answer's count is the number of messages the update changed, which is `result.modifiedCount` in the result shape of Mongoose 6 and later. config/db.js:12 passes `bufferMaxEntries`, an option only Mongoose 5 accepts, and there `updateMany` answers `{n, nModified, ok}`, so the JSON answer would carry no count. The model assumes the newer result shape.
- MessageController.DeleteMessage: `message-deleted` goes to `message.conversationId`, an ObjectId, while sockets join the string form of the id (socket.js:210). The model names that room `ObjectIdRoom` and proves it reaches no socket, but it does not model how Socket.IO turns a non-string room name into a key.
- MessageController.SendMessage: follows the intended unread bump. As written, in a conversation with no unread entries, such as one made by `createOrGetDirectConversation`, which passes none (db.utils.js:130-133), the update fails. The request then answers 500 after the message is stored and `lastMessage` moved, and `new-message` is never emitted. `MessageController.BumpUnreadAsWritten` returns `None` for exactly that case.
- Document versioning (`remove()` on an old version) and the session/transaction in deleteConversation: the model applies the writes in order, without concurrency.
- Every socket handler runs to completion before the next starts. Concurrency and interleaving between requests are not modelled.
- Connect: presence is announced before the rooms are joined, as written. Every disconnect of any one socket marks the user offline, even when another socket of the same user stays connected.
- SocketHub.SendOfflineNotifications: its counter update matches no document, so the model proves it changes nothing rather than modelling that update.
- Socket handlers: database errors other than failed validation and a failed room lookup are not modelled.
- SocketHub.Authenticate: JWT verification is a parameter function.
- `getIO()` throwing before the server starts is not modelled. It never returns nothing (socket.js:251-256), so the `if (getIO())` guards never skip an emission; without a server the handler would answer 500 after its database writes. Every emission is made.
- ConversationController.CreateConversation: the duplicate-key fallback (conversation.controller.js:149-168) is unreachable under the pair index the model uses. The literal index behaviour is the first Finding.
- The upload endpoint (`uploadFiles`) and search (`searchMessages`) are not part of this model. The upload's answer is a parameter of `MessageInput.Composer.HandleSendMessage`.
- MessageInput.Composer.Type: the 3-second stop-typing timeout is recorded as set but never fired. The model does not pass time.
- Encryption and decryption are parameter functions.
- Avatar URLs, `encodeURIComponent`, the online dot, relative times, the emoji picker and all styling are not modelled.
- The store's intermediate `loading: true` state during an awaited call is not observable in the model; each call is one step that ends with loading false.
- `sendTypingStatus` in the message store is a placeholder that sends nothing; the model records the statuses the composer asks to send.
- React rendering itself: each component is modelled as the values it computes on one render.

## Findings

| source | as written | input that shows it | evidently intended | confidence | as-written member | corrected member |
|---|---|---|---|---|---|---|
| backend/src/models/conversation.model.js:67-78 | the unique index on `participants` is multikey, so no two direct conversations may share any single participant | user 1 already has a direct conversation with user 2; creating one between users 1 and 3 is refused as a duplicate key | each unordered pair of users has at most one direct conversation | not executed; medium | ConversationModel.MultikeyRefusesSecondPartner, ConversationController.MultikeyAnswersConflict | ConversationModel.PairIndexInsert, Store.InsertWellFormed |
| backend/src/controllers/message.controller.js:116-123 | `updateMany` filters on `unreadCounts.user: {$ne: sender}`, which on an array means no entry is the sender's, and `$inc` uses the positional `$` | a conversation of users 1 and 2 with entries for both; user 1 sends; the filter matches nothing and user 2's count stays 0. With no entries at all (db.utils.js:130-133), the update fails and the send answers 500 after storing the message | every participant other than the sender gets one more unread message | not executed; high | MessageController.BumpUnreadAsWritten, MessageController.BumpUnreadAsWrittenMissesRecipient | MessageController.BumpUnread, MessageController.BumpUnreadCounts |
| frontend/src/components/Sidebar.tsx:21-25 | for a group, the search reads `conversation.name.toLowerCase()` with no fallback | one group without a name in the list; the filter throws and the sidebar cannot render | a missing name is searched as an empty title, as ConversationItem.tsx:23 handles it with 'Unnamed Group' | not executed; low, since the server requires a group name | Sidebar.FilterAsWritten, Sidebar.UnnamedGroupBreaksSearch | Sidebar.FilteredMembers, Sidebar.FilterAsWrittenWhenNamed |
