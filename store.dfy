/** The MongoDB database as the backend sees it: the users, conversations and
    messages collections, each collection's natural (insertion) order, an
    id allocator and a monotone clock. Every write is one atomic step. */
module Store {
  import opened Common
  import opened MessageModel
  import opened ConversationModel

  /** The fields of a user document the core reads and writes. */
  datatype User = User(name: string, isOnline: bool, lastSeen: nat)

  /** The outcome of `Conversation.create`: a new document, a validation
      error, or a duplicate-key error (code 11000) from the unique index. */
  datatype Insertion = Inserted(id: ConvId) | Invalid | DuplicateKey

  /** Ids are handed out in increasing order at increasing times, so a
      message with a larger id was created later. */
  ghost predicate TimesFollowIds(msgs: map<MsgId, Message>) {
    forall a, b :: a in msgs && b in msgs && a < b ==> msgs[a].createdAt < msgs[b].createdAt
  }

  /** A fresh id larger than all others keeps a list increasing. */
  lemma AppendIncreasing(s: seq<nat>, x: nat)
    requires Increasing(s) && forall y :: y in s ==> y < x
    ensures Increasing(s + [x])
  {
    var t := s + [x];
    forall i, j | 0 <= i < j < |t| ensures t[i] < t[j] {
      if j == |s| {
        assert t[i] == s[i] && s[i] in s;
      }
    }
  }

  /** Storing a message under a larger id and a later time keeps times
      following ids. */
  lemma InsertFollows(msgs: map<MsgId, Message>, id: MsgId, m: Message)
    requires TimesFollowIds(msgs)
    requires forall k :: k in msgs ==> k < id && msgs[k].createdAt < m.createdAt
    ensures TimesFollowIds(msgs[id := m])
  {
    var msgs' := msgs[id := m];
    forall a, b | a in msgs' && b in msgs' && a < b
      ensures msgs'[a].createdAt < msgs'[b].createdAt
    {
      assert a in msgs && a != id;
      if b != id {
        assert b in msgs;
      }
    }
  }

  /** The natural order of messages lists each message once, by id; ids
      are below `next` and times are before `clock`. */
  ghost predicate MessagesWellFormed(msgs: map<MsgId, Message>, order: seq<MsgId>, clock: nat, next: nat) {
    && (forall id :: id in order <==> id in msgs)
    && Increasing(order)
    && TimesFollowIds(msgs)
    && (forall id :: id in msgs ==> id < next && msgs[id].createdAt < clock)
  }

  /** Storing a message created now under the next id keeps the collection
      well formed once the clock and the allocator move on. */
  lemma AddMessageWellFormed(msgs: map<MsgId, Message>, order: seq<MsgId>, clock: nat, next: nat, m: Message)
    requires MessagesWellFormed(msgs, order, clock, next) && m.createdAt == clock
    ensures next !in msgs
    ensures MessagesWellFormed(msgs[next := m], order + [next], clock + 1, next + 1)
  {
    AppendIncreasing(order, next);
    InsertFollows(msgs, next, m);
  }

  /** The natural order of conversations lists each one once, by id; ids
      are below `next`; every stored conversation passed validation and the
      unique index on direct conversations. */
  ghost predicate ConversationsWellFormed(convs: map<ConvId, Conversation>, order: seq<ConvId>, next: nat) {
    && (forall id :: id in order <==> id in convs)
    && Increasing(order)
    && (forall id :: id in convs ==> id < next)
    && (forall id :: id in convs ==> SchemaValid(convs[id]))
    && DirectPairsUnique(convs)
  }

  /** Inserting an admitted, valid conversation under the next id keeps the
      collection well formed. */
  lemma InsertWellFormed(convs: map<ConvId, Conversation>, order: seq<ConvId>, next: nat, c: Conversation)
    requires ConversationsWellFormed(convs, order, next)
    requires SchemaValid(c) && PairIndexAllows(convs, c)
    ensures ConversationsWellFormed(convs[next := c], order + [next], next + 1)
  {
    PairIndexInsert(convs, next, c);
    AppendIncreasing(order, next);
  }

  /** Handing out an id elsewhere keeps the conversations well formed. */
  lemma NextWellFormed(convs: map<ConvId, Conversation>, order: seq<ConvId>, next: nat)
    requires ConversationsWellFormed(convs, order, next)
    ensures ConversationsWellFormed(convs, order, next + 1)
  {
  }

  /** Replacing a conversation by a valid one of the same kind, and with
      the same members when direct, keeps the collection well formed. */
  lemma ReplaceWellFormed(convs: map<ConvId, Conversation>, order: seq<ConvId>, next: nat, id: ConvId, c: Conversation)
    requires ConversationsWellFormed(convs, order, next) && id in convs && SchemaValid(c)
    requires c.isGroup == convs[id].isGroup && (c.isGroup || Members(c) == Members(convs[id]))
    ensures ConversationsWellFormed(convs[id := c], order, next)
  {
    var m := convs[id := c];
    assert m.Keys == convs.Keys;
    assert forall k :: k in m && k != id ==> m[k] == convs[k];
    assert DirectPairsUnique(m) by {
      forall a, b | a in m && b in m && a != b && !m[a].isGroup && !m[b].isGroup
        ensures Members(m[a]) != Members(m[b])
      {
        assert !convs[a].isGroup && !convs[b].isGroup;
        assert Members(m[a]) == Members(convs[a]) && Members(m[b]) == Members(convs[b]);
      }
    }
  }

  /** Removing a conversation, and its id from the order, keeps the
      collection well formed. */
  lemma RemoveWellFormed(convs: map<ConvId, Conversation>, order: seq<ConvId>, next: nat, id: ConvId)
    requires ConversationsWellFormed(convs, order, next)
    ensures ConversationsWellFormed(convs - {id}, Keep(order, convs.Keys - {id}), next)
  {
    KeepIncreasing(order, convs.Keys - {id});
    var m := convs - {id};
    assert forall k :: k in m ==> k in convs && m[k] == convs[k];
    assert DirectPairsUnique(m) by {
      forall a, b | a in m && b in m && a != b && !m[a].isGroup && !m[b].isGroup
        ensures Members(m[a]) != Members(m[b])
      {
        assert m[a] == convs[a] && m[b] == convs[b];
      }
    }
  }

  /** The ids of the messages of conversation `cid`. */
  function MessageIdsIn(msgs: map<MsgId, Message>, cid: ConvId): set<MsgId> {
    set id | id in msgs && msgs[id].conversationId == cid
  }

  /** The ids of the conversations `u` participates in. */
  function ConvIdsOf(convs: map<ConvId, Conversation>, u: UserId): set<ConvId> {
    set id | id in convs && u in convs[id].participants
  }

  /** The filter `{ participants: { $all: ps }, isGroup: false }`, with
      `$size: |ps|` as well when `sized` holds. */
  predicate DirectWithAll(convs: map<ConvId, Conversation>, id: ConvId, ps: seq<UserId>, sized: bool) {
    && id in convs && !convs[id].isGroup
    && (forall p :: p in ps ==> p in convs[id].participants)
    && (sized ==> |convs[id].participants| == |ps|)
  }

  /** `Conversation.findOne` with that filter: the first match in natural
      order, or none. */
  function FindDirect(order: seq<ConvId>, convs: map<ConvId, Conversation>, ps: seq<UserId>, sized: bool): (r: Option<ConvId>)
    ensures r.None? ==> forall id :: id in order ==> !DirectWithAll(convs, id, ps, sized)
    ensures r.Some? ==> exists k :: (0 <= k < |order| && order[k] == r.value && DirectWithAll(convs, r.value, ps, sized)
                                     && forall j :: 0 <= j < k ==> !DirectWithAll(convs, order[j], ps, sized))
  {
    if order == [] then None
    else if DirectWithAll(convs, order[0], ps, sized) then Some(order[0])
    else
      var r := FindDirect(order[1..], convs, ps, sized);
      assert r.Some? ==> exists k :: (0 <= k < |order| && order[k] == r.value && DirectWithAll(convs, r.value, ps, sized)
                                      && forall j :: 0 <= j < k ==> !DirectWithAll(convs, order[j], ps, sized)) by {
        if r.Some? {
          var k :| 0 <= k < |order[1..]| && order[1..][k] == r.value && DirectWithAll(convs, r.value, ps, sized)
            && forall j :: 0 <= j < k ==> !DirectWithAll(convs, order[1..][j], ps, sized);
          assert order[k + 1] == r.value;
          assert forall j :: 0 <= j < k + 1 ==> !DirectWithAll(convs, order[j], ps, sized) by {
            forall j | 0 <= j < k + 1 ensures !DirectWithAll(convs, order[j], ps, sized) {
              if j > 0 { assert order[j] == order[1..][j - 1]; }
            }
          }
        }
      }
      r
  }

  /** Once no direct conversation matches, a matching one appended under a
      fresh id is what the next search finds. */
  lemma {:induction false} FindAfterInsert(order: seq<ConvId>, convs: map<ConvId, Conversation>, ps: seq<UserId>,
                                           sized: bool, id: ConvId, c: Conversation)
    requires FindDirect(order, convs, ps, sized).None? && id !in order
    requires DirectWithAll(convs[id := c], id, ps, sized)
    ensures FindDirect(order + [id], convs[id := c], ps, sized) == Some(id)
  {
    if order == [] {
      assert order + [id] == [id];
    } else {
      assert order[0] != id;
      assert !DirectWithAll(convs[id := c], order[0], ps, sized);
      FindAfterInsert(order[1..], convs, ps, sized, id, c);
      assert (order + [id])[1..] == order[1..] + [id];
    }
  }

  class Db {
    var users: map<UserId, User>
    var convs: map<ConvId, Conversation>
    var convOrder: seq<ConvId>
    var msgs: map<MsgId, Message>
    var msgOrder: seq<MsgId>
    var clock: nat
    var nextId: nat

    /** Each collection's natural order lists its documents once; messages
        were created in that order at distinct, past times; ids are fresh
        below `nextId`; stored conversations passed validation and the unique
        index on direct conversations. */
    ghost predicate Valid()
      reads this`convs, this`convOrder, this`msgs, this`msgOrder, this`clock, this`nextId
    {
      MessagesValid() && ConversationsValid()
    }

    /** The natural order of messages lists each message once, by id; ids
        are below `nextId` and times are in the past. */
    ghost predicate MessagesValid()
      reads this`msgs, this`msgOrder, this`clock, this`nextId
    {
      MessagesWellFormed(msgs, msgOrder, clock, nextId)
    }

    ghost predicate ConversationsValid()
      reads this`convs, this`convOrder, this`nextId
    {
      ConversationsWellFormed(convs, convOrder, nextId)
    }

    /** `Message.find({ conversationId: cid })` in natural order. */
    function MessagesOf(cid: ConvId): (r: seq<MsgId>)
      reads this`msgs, this`msgOrder
      ensures forall id :: id in r <==> id in msgOrder && id in msgs && msgs[id].conversationId == cid
    {
      Keep(msgOrder, MessageIdsIn(msgs, cid))
    }

    /** `Conversation.find({ participants: u })` in natural order. */
    function ConversationsOf(u: UserId): (r: seq<ConvId>)
      reads this`convs, this`convOrder
      ensures forall id :: id in r <==> id in convOrder && id in convs && u in convs[id].participants
      ensures Increasing(convOrder) ==> Increasing(r)
    {
      if Increasing(convOrder) then KeepIncreasing(convOrder, ConvIdsOf(convs, u)); Keep(convOrder, ConvIdsOf(convs, u))
      else Keep(convOrder, ConvIdsOf(convs, u))
    }

    constructor (users: map<UserId, User>)
      ensures Valid()
      ensures this.users == users && convs == map[] && convOrder == [] && msgs == map[] && msgOrder == []
    {
      this.users := users;
      convs := map[];
      convOrder := [];
      msgs := map[];
      msgOrder := [];
      clock := 0;
      nextId := 0;
    }

    /** `new Date()`: a reading of the clock, which then moves on. */
    method Now() returns (t: nat)
      requires Valid()
      modifies this`clock
      ensures Valid()
      ensures t == old(clock) && clock == old(clock) + 1
    {
      t := clock;
      clock := clock + 1;
    }

    /** `Message.create`: on a validation error nothing is stored, otherwise
        the message is stored at the current time under a fresh id. */
    method CreateMessage(f: MessageFields) returns (r: Option<MsgId>)
      requires Valid()
      modifies this`msgs, this`msgOrder, this`clock, this`nextId
      ensures Valid()
      ensures MessageModel.Create(f, old(clock)).None? ==>
        r.None? && msgs == old(msgs) && msgOrder == old(msgOrder) && clock == old(clock) && nextId == old(nextId)
      ensures MessageModel.Create(f, old(clock)).Some? ==>
        && r == Some(old(nextId)) && old(nextId) !in old(msgs)
        && msgs == old(msgs)[old(nextId) := MessageModel.Create(f, old(clock)).value]
        && msgOrder == old(msgOrder) + [old(nextId)]
        && clock == old(clock) + 1 && nextId == old(nextId) + 1
    {
      var m := MessageModel.Create(f, clock);
      if m.None? {
        return None;
      }
      var id := InsertMessage(m.value);
      r := Some(id);
    }

    /** Stores a message created now under a fresh id. */
    method InsertMessage(m: Message) returns (id: MsgId)
      requires Valid() && m.createdAt == clock
      modifies this`msgs, this`msgOrder, this`clock, this`nextId
      ensures Valid()
      ensures id == old(nextId) && id !in old(msgs)
      ensures msgs == old(msgs)[id := m] && msgOrder == old(msgOrder) + [id]
      ensures clock == old(clock) + 1 && nextId == old(nextId) + 1
    {
      id := nextId;
      AddMessageWellFormed(msgs, msgOrder, clock, id, m);
      NextWellFormed(convs, convOrder, id);
      msgs := msgs[id := m];
      msgOrder := msgOrder + [id];
      nextId := id + 1;
      clock := clock + 1;
    }

    /** An update of existing messages that keeps their ids and times. */
    method UpdateMessages(m: map<MsgId, Message>)
      requires Valid()
      requires m.Keys == msgs.Keys
      requires forall id :: id in m ==> m[id].createdAt == msgs[id].createdAt
      modifies this`msgs
      ensures Valid() && msgs == m
    {
      msgs := m;
    }

    /** Removes the messages in `gone`, keeping the order of the rest. */
    method DeleteMessages(gone: set<MsgId>)
      requires Valid()
      modifies this`msgs, this`msgOrder
      ensures Valid()
      ensures msgs == old(msgs) - gone
      ensures msgOrder == Keep(old(msgOrder), old(msgs).Keys - gone)
    {
      KeepIncreasing(msgOrder, msgs.Keys - gone);
      msgOrder := Keep(msgOrder, msgs.Keys - gone);
      msgs := msgs - gone;
    }

    /** `Conversation.create`: validation first, then the unique index on
        direct conversations, then a write at the current time. */
    method CreateConversation(f: ConversationFields) returns (r: Insertion)
      requires Valid()
      modifies this`convs, this`convOrder, this`clock, this`nextId
      ensures Valid()
      ensures ConversationModel.Create(f, old(clock)).None? ==> r == Invalid
      ensures ConversationModel.Create(f, old(clock)).Some? ==>
        var c := ConversationModel.Create(f, old(clock)).value;
        && (PairIndexAllows(old(convs), c) ==> r == Inserted(old(nextId)))
        && (!PairIndexAllows(old(convs), c) ==> r == DuplicateKey)
      ensures r.Inserted? ==>
        && r.id !in old(convs)
        && convs == old(convs)[r.id := ConversationModel.Create(f, old(clock)).value]
        && convOrder == old(convOrder) + [r.id]
        && clock == old(clock) + 1 && nextId == old(nextId) + 1
      ensures !r.Inserted? ==>
        convs == old(convs) && convOrder == old(convOrder) && clock == old(clock) && nextId == old(nextId)
    {
      var c := ConversationModel.Create(f, clock);
      if c.None? {
        return Invalid;
      }
      if !PairIndexAllows(convs, c.value) {
        return DuplicateKey;
      }
      var id := InsertConversation(c.value);
      r := Inserted(id);
    }

    /** Stores an admitted conversation under a fresh id. */
    method InsertConversation(c: Conversation) returns (id: ConvId)
      requires Valid() && SchemaValid(c) && PairIndexAllows(convs, c)
      modifies this`convs, this`convOrder, this`clock, this`nextId
      ensures Valid()
      ensures id == old(nextId) && id !in old(convs)
      ensures convs == old(convs)[id := c] && convOrder == old(convOrder) + [id]
      ensures clock == old(clock) + 1 && nextId == old(nextId) + 1
    {
      id := nextId;
      InsertWellFormed(convs, convOrder, id, c);
      convs := convs[id := c];
      convOrder := convOrder + [id];
      nextId := id + 1;
      clock := clock + 1;
    }

    /** An update of an existing conversation that keeps it valid and does
        not change which direct conversation it is. */
    method UpdateConversation(id: ConvId, c: Conversation)
      requires Valid() && id in convs && SchemaValid(c)
      requires c.isGroup == convs[id].isGroup
      requires c.isGroup || Members(c) == Members(convs[id])
      modifies this`convs
      ensures Valid() && convs == old(convs)[id := c]
    {
      ReplaceWellFormed(convs, convOrder, nextId, id, c);
      convs := convs[id := c];
    }

    /** `findByIdAndDelete`: removes the conversation, keeping the order of
        the rest. */
    method DeleteConversation(id: ConvId)
      requires Valid()
      modifies this`convs, this`convOrder
      ensures Valid()
      ensures convs == old(convs) - {id}
      ensures convOrder == Keep(old(convOrder), old(convs).Keys - {id})
    {
      RemoveWellFormed(convs, convOrder, nextId, id);
      convOrder := Keep(convOrder, convs.Keys - {id});
      convs := convs - {id};
    }

    /** `User.findByIdAndUpdate`: a missing user is left missing. */
    method UpdateUser(id: UserId, u: User)
      modifies this`users
      ensures users == if id in old(users) then old(users)[id := u] else old(users)
    {
      if id in users {
        users := users[id := u];
      }
    }
  }
}
