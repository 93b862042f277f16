/** The conversation routes: list the requester's conversations, get one,
    find or create a direct conversation, create a group, mark a
    conversation read, and delete a conversation or leave a group. */
module ConversationController {
  import opened Common
  import opened MessageModel
  import opened ConversationModel
  import opened Store
  import opened MessageController

  // ------------------------------------------------------------- listing

  /** A listed conversation with the requester's unread count attached. */
  datatype ConvView = ConvView(id: ConvId, conv: Conversation, unreadCount: nat)

  /** `unreadCounts.find(uc => uc.user == u)?.count || 0`. */
  function AnnotatedUnread(entries: seq<UnreadEntry>, u: UserId): nat {
    var k := FirstEntryOf(entries, u);
    if k < |entries| && entries[k].count != 0 then entries[k].count else 0
  }

  /** The count attached by the listing is the `unreadCount` virtual for the
      requester. */
  lemma AnnotationIsVirtual(entries: seq<UnreadEntry>, u: UserId)
    ensures AnnotatedUnread(entries, u) == UnreadCountOf(entries, Some(u))
  {
  }

  /** Newest activity first. */
  ghost predicate UpdatedDesc(ids: seq<ConvId>, convs: map<ConvId, Conversation>)
    requires forall id :: id in ids ==> id in convs
  {
    forall i, j :: 0 <= i < j < |ids| ==> convs[ids[i]].updatedAt >= convs[ids[j]].updatedAt
  }

  /** A conversation at least as recent as every one of a list sorted
      newest first can go in front of it. */
  lemma ConsDesc(x: ConvId, s: seq<ConvId>, convs: map<ConvId, Conversation>)
    requires x in convs && forall y :: y in s ==> y in convs
    requires UpdatedDesc(s, convs)
    requires forall y :: y in s ==> convs[x].updatedAt >= convs[y].updatedAt
    ensures UpdatedDesc([x] + s, convs)
  {
    var t := [x] + s;
    forall i, j | 0 <= i < j < |t| ensures convs[t[i]].updatedAt >= convs[t[j]].updatedAt {
      assert t[j] == s[j - 1];
      if i > 0 {
        assert t[i] == s[i - 1];
      }
    }
  }

  /** One step of the sort: `id` goes before the first conversation that
      is not more recent than it. */
  function InsertByUpdated(id: ConvId, sorted: seq<ConvId>, convs: map<ConvId, Conversation>): seq<ConvId>
    requires id in convs && forall x :: x in sorted ==> x in convs
  {
    if sorted == [] then [id]
    else if convs[id].updatedAt >= convs[sorted[0]].updatedAt then [id] + sorted
    else [sorted[0]] + InsertByUpdated(id, sorted[1..], convs)
  }

  /** Inserting adds exactly `id`. */
  lemma {:induction false} InsertByUpdatedAdds(id: ConvId, sorted: seq<ConvId>, convs: map<ConvId, Conversation>)
    requires id in convs && forall x :: x in sorted ==> x in convs
    ensures multiset(InsertByUpdated(id, sorted, convs)) == multiset(sorted) + multiset{id}
    ensures forall x :: x in InsertByUpdated(id, sorted, convs) ==> x in convs
  {
    if sorted != [] && convs[id].updatedAt < convs[sorted[0]].updatedAt {
      assert sorted == [sorted[0]] + sorted[1..];
      InsertByUpdatedAdds(id, sorted[1..], convs);
    }
  }

  /** A time no earlier than `id` and every listed conversation stays no
      earlier than everything in the list after the insertion. */
  lemma InsertByUpdatedBound(id: ConvId, sorted: seq<ConvId>, convs: map<ConvId, Conversation>, t: nat)
    requires id in convs && forall x :: x in sorted ==> x in convs
    requires convs[id].updatedAt <= t && forall x :: x in sorted ==> convs[x].updatedAt <= t
    ensures forall x :: x in InsertByUpdated(id, sorted, convs) ==> x in convs && convs[x].updatedAt <= t
  {
    InsertByUpdatedAdds(id, sorted, convs);
    forall x | x in InsertByUpdated(id, sorted, convs) ensures x in convs && convs[x].updatedAt <= t {
      assert x in multiset(InsertByUpdated(id, sorted, convs));
    }
  }

  /** Inserting into a list sorted newest first keeps it sorted. */
  lemma {:induction false} InsertByUpdatedSorted(id: ConvId, sorted: seq<ConvId>, convs: map<ConvId, Conversation>)
    requires id in convs && forall x :: x in sorted ==> x in convs
    requires UpdatedDesc(sorted, convs)
    ensures forall x :: x in InsertByUpdated(id, sorted, convs) ==> x in convs
    ensures UpdatedDesc(InsertByUpdated(id, sorted, convs), convs)
  {
    InsertByUpdatedAdds(id, sorted, convs);
    if sorted == [] {
    } else if convs[id].updatedAt >= convs[sorted[0]].updatedAt {
      forall y | y in sorted ensures convs[id].updatedAt >= convs[y].updatedAt {
        var k :| 0 <= k < |sorted| && sorted[k] == y;
        if k > 0 {
          assert convs[sorted[0]].updatedAt >= convs[sorted[k]].updatedAt;
        }
      }
      ConsDesc(id, sorted, convs);
    } else {
      var x, tail := sorted[0], sorted[1..];
      assert sorted == [x] + tail;
      assert UpdatedDesc(tail, convs) by {
        forall i, j | 0 <= i < j < |tail| ensures convs[tail[i]].updatedAt >= convs[tail[j]].updatedAt {
          assert tail[i] == sorted[i + 1] && tail[j] == sorted[j + 1];
        }
      }
      InsertByUpdatedSorted(id, tail, convs);
      forall y | y in tail ensures convs[y].updatedAt <= convs[x].updatedAt {
        var k :| 0 <= k < |tail| && tail[k] == y;
        assert sorted[k + 1] == y;
      }
      InsertByUpdatedBound(id, tail, convs, convs[x].updatedAt);
      ConsDesc(x, InsertByUpdated(id, tail, convs), convs);
    }
  }

  /** `.sort({ updatedAt: -1 })`: the same conversations, newest activity
      first. */
  function SortByUpdated(ids: seq<ConvId>, convs: map<ConvId, Conversation>): (r: seq<ConvId>)
    requires forall x :: x in ids ==> x in convs
    ensures multiset(r) == multiset(ids)
    ensures forall x :: x in r ==> x in convs
    ensures UpdatedDesc(r, convs)
  {
    if ids == [] then []
    else
      assert ids == [ids[0]] + ids[1..];
      InsertByUpdatedAdds(ids[0], SortByUpdated(ids[1..], convs), convs);
      InsertByUpdatedSorted(ids[0], SortByUpdated(ids[1..], convs), convs);
      InsertByUpdated(ids[0], SortByUpdated(ids[1..], convs), convs)
  }

  function ViewIds(views: seq<ConvView>): (r: seq<ConvId>)
    ensures |r| == |views| && forall i :: 0 <= i < |views| ==> r[i] == views[i].id
  {
    seq(|views|, i requires 0 <= i < |views| => views[i].id)
  }

  /** The `map` over the sorted documents: each one as it is stored, with
      the requester's unread count. */
  function Annotate(ids: seq<ConvId>, convs: map<ConvId, Conversation>, u: UserId): (r: seq<ConvView>)
    requires forall x :: x in ids ==> x in convs
    ensures ViewIds(r) == ids
    ensures forall i :: 0 <= i < |r| ==>
      r[i].conv == convs[ids[i]] && r[i].unreadCount == UnreadCountOf(convs[ids[i]].unreadCounts, Some(u))
  {
    if ids == [] then []
    else
      AnnotationIsVirtual(convs[ids[0]].unreadCounts, u);
      [ConvView(ids[0], convs[ids[0]], AnnotatedUnread(convs[ids[0]].unreadCounts, u))] + Annotate(ids[1..], convs, u)
  }

  /** Two lists with the same multiset have the same members. */
  lemma SameMembers(a: seq<ConvId>, b: seq<ConvId>)
    requires multiset(a) == multiset(b)
    ensures forall x :: x in a <==> x in b
  {
    forall x ensures x in a <==> x in b {
      assert x in a <==> x in multiset(a);
      assert x in b <==> x in multiset(b);
    }
  }

  /** The listing over the requester's conversations `mine`: the same ids,
      each with its document and the requester's unread count, newest
      activity first. */
  function ListViews(mine: seq<ConvId>, convs: map<ConvId, Conversation>, u: UserId): (r: seq<ConvView>)
    requires forall x :: x in mine ==> x in convs
    ensures multiset(ViewIds(r)) == multiset(mine)
    ensures forall id :: id in ViewIds(r) <==> id in mine
    ensures forall i :: 0 <= i < |r| ==>
      r[i].id in convs && r[i].conv == convs[r[i].id]
      && r[i].unreadCount == UnreadCountOf(r[i].conv.unreadCounts, Some(u))
    ensures forall i, j :: 0 <= i < j < |r| ==> r[i].conv.updatedAt >= r[j].conv.updatedAt
  {
    var ids := SortByUpdated(mine, convs);
    var r := Annotate(ids, convs, u);
    SameMembers(ids, mine);
    assert forall i, j :: 0 <= i < j < |r| ==> r[i].conv.updatedAt >= r[j].conv.updatedAt by {
      forall i, j | 0 <= i < j < |r| ensures r[i].conv.updatedAt >= r[j].conv.updatedAt {
        assert r[i].conv == convs[ids[i]] && r[j].conv == convs[ids[j]];
      }
    }
    r
  }

  /** GET /api/conversations: exactly the conversations the requester is
      in, each once, newest activity first, each with the requester's
      unread count. */
  method GetConversations(db: Db, u: UserId) returns (r: seq<ConvView>)
    requires db.Valid()
    ensures multiset(ViewIds(r)) == multiset(db.ConversationsOf(u))
    ensures forall id :: id in ViewIds(r) <==> id in db.convs && u in db.convs[id].participants
    ensures forall i :: 0 <= i < |r| ==>
      r[i].id in db.convs && r[i].conv == db.convs[r[i].id]
      && r[i].unreadCount == UnreadCountOf(r[i].conv.unreadCounts, Some(u))
    ensures forall i, j :: 0 <= i < j < |r| ==> r[i].conv.updatedAt >= r[j].conv.updatedAt
  {
    var convs := db.convs;
    var mine := db.ConversationsOf(u);
    r := ListViews(mine, convs, u);
  }

  /** GET /api/conversations/:id: NotFound for a missing conversation,
      Forbidden for one the requester is not in, otherwise the document with
      the requester as its user context. */
  method GetConversationById(db: Db, u: UserId, id: ConvId) returns (r: Result<ConversationDoc>)
    requires db.Valid()
    ensures id !in db.convs ==> r == Err(NotFound)
    ensures id in db.convs && u !in db.convs[id].participants ==> r == Err(Forbidden)
    ensures Participates(db.convs, id, u) ==>
      r.Ok? && r.value.data == db.convs[id] && r.value.userContext == Some(u)
      && r.value.UnreadCount() == UnreadCountOf(db.convs[id].unreadCounts, Some(u))
  {
    if id !in db.convs {
      return Err(NotFound);
    }
    if u !in db.convs[id].participants {
      return Err(Forbidden);
    }
    var doc := new ConversationDoc(db.convs[id]);
    doc := doc.SetUserId(u);
    r := Ok(doc);
  }

  // ------------------------------------------------------------ creating

  /** A found conversation (200) or a created one (201). */
  datatype Outcome = Existing(id: ConvId) | Created(id: ConvId)

  /** The document `createConversation` asks for: the sorted pair, not a
      group, and a zero counter for each of the two users. */
  function DirectFields(me: UserId, other: UserId): (f: ConversationFields)
    ensures f.participants == SortPair(me, other) && f.isGroup == Some(false)
    ensures f.unreadCounts == [UnreadEntry(me, 0), UnreadEntry(other, 0)]
    ensures f.name.None? && f.admin.None?
  {
    ConversationFields(SortPair(me, other), Some(false), None, None, [UnreadEntry(me, 0), UnreadEntry(other, 0)], None)
  }

  /** If no direct conversation holds both users, none has exactly the two
      of them, so the intended index admits the new one. */
  lemma NoMatchAdmits(db: Db, me: UserId, other: UserId, now: nat)
    requires db.Valid()
    requires FindDirect(db.convOrder, db.convs, SortPair(me, other), false).None?
    ensures ConversationModel.Create(DirectFields(me, other), now).Some?
    ensures PairIndexAllows(db.convs, ConversationModel.Create(DirectFields(me, other), now).value)
  {
    RequiredOnlyForGroups(DirectFields(me, other), now);
    var c := ConversationModel.Create(DirectFields(me, other), now).value;
    var ps := SortPair(me, other);
    assert multiset(ps) == multiset{me, other};
    assert me in ps && other in ps by {
      assert me in multiset(ps) && other in multiset(ps);
    }
    forall id | id in db.convs && !db.convs[id].isGroup ensures Members(db.convs[id]) != Members(c) {
      assert id in db.convOrder;
      assert !DirectWithAll(db.convs, id, ps, false);
      var p :| p in ps && p !in db.convs[id].participants;
      assert p in Members(c) && p !in Members(db.convs[id]);
    }
  }

  /** POST /api/conversations. No user id or one's own id is a bad request.
      An existing direct conversation with both users is returned as it is;
      otherwise one is created with the sorted pair and a zero counter for
      each user. */
  method CreateConversation(db: Db, me: UserId, userId: Option<UserId>) returns (r: Result<Outcome>)
    requires db.Valid()
    modifies db`convs, db`convOrder, db`clock, db`nextId
    ensures db.Valid()
    ensures userId.None? || userId == Some(me) ==> r == Err(BadRequest)
    ensures r.Err? || r.value.Existing? ==>
      db.convs == old(db.convs) && db.convOrder == old(db.convOrder) && db.nextId == old(db.nextId)
    ensures userId.Some? && userId.value != me ==>
      var found := FindDirect(old(db.convOrder), old(db.convs), SortPair(me, userId.value), false);
      && (found.Some? ==> r == Ok(Existing(found.value)))
      && (found.None? ==>
           && r == Ok(Created(old(db.nextId)))
           && db.convs == old(db.convs)[old(db.nextId) := ConversationModel.Create(DirectFields(me, userId.value), old(db.clock)).value]
           && db.convOrder == old(db.convOrder) + [old(db.nextId)])
  {
    if userId.None? || userId.value == me {
      return Err(BadRequest);
    }
    var other := userId.value;
    var ps := SortPair(me, other);
    var found := FindDirect(db.convOrder, db.convs, ps, false);
    if found.Some? {
      return Ok(Existing(found.value));
    }
    NoMatchAdmits(db, me, other, db.clock);
    var ins := db.CreateConversation(DirectFields(me, other));
    match ins
    case Inserted(id) => r := Ok(Created(id));
    case Invalid => r := Err(ServerError);
    case DuplicateKey =>
      // The source finds again and answers Conflict if there is still no
      // match; with no match found above, the index admits the document.
      assert false;
  }

  /** As written, the unique index is multikey: once users 1 and 2 have a
      direct conversation, user 1 asking for one with user 3 finds none,
      is refused by the index, finds none again, and is answered Conflict. */
  lemma MultikeyAnswersConflict()
    ensures var ab := Conversation([1, 2], false, None, "", "", None, [], None, 0, 0);
            var ac := Conversation([1, 3], false, None, "", "", None, [], None, 1, 1);
            && FindDirect([7], map[7 := ab], SortPair(1, 3), false).None?
            && !MultikeyIndexAllows(map[7 := ab], ac)
  {
    var ab := Conversation([1, 2], false, None, "", "", None, [], None, 0, 0);
    assert 3 !in ab.participants;
    assert !DirectWithAll(map[7 := ab], 7, [1, 3], false);
    assert FindDirect([7], map[7 := ab], [1, 3], false).None? by {
      assert [7][1..] == [];
    }
    MultikeyRefusesSecondPartner();
  }

  /** `participants.map(p => ({ user: p, count: 0 }))`. */
  function ZeroEntries(ps: seq<UserId>): (r: seq<UnreadEntry>)
    ensures |r| == |ps|
    ensures forall i :: 0 <= i < |ps| ==> r[i] == UnreadEntry(ps[i], 0)
  {
    if ps == [] then [] else [UnreadEntry(ps[0], 0)] + ZeroEntries(ps[1..])
  }

  /** The document `createGroupConversation` asks for. */
  function GroupFields(me: UserId, name: string, description: Option<string>, supplied: seq<UserId>): ConversationFields {
    var ps := SortUnique(supplied + [me]);
    ConversationFields(ps, Some(true), Some(name), description, ZeroEntries(ps), Some(me))
  }

  /** Every member of a new group starts at zero unread messages, the
      creator is a member, and each member is listed once, in order. */
  lemma GroupStartsAtZero(me: UserId, name: string, description: Option<string>, supplied: seq<UserId>, u: UserId)
    ensures var f := GroupFields(me, name, description, supplied);
      && UnreadCountOf(f.unreadCounts, Some(u)) == 0
      && me in f.participants
      && (forall p :: p in f.participants <==> p == me || p in supplied)
      && Increasing(f.participants)
  {
    var f := GroupFields(me, name, description, supplied);
    var k := FirstEntryOf(f.unreadCounts, u);
    if 0 < |f.unreadCounts| && k < |f.unreadCounts| {
      assert f.unreadCounts[k].count == 0;
    }
    assert forall p :: p in supplied + [me] <==> p == me || p in supplied;
  }

  /** The group `createGroupConversation` stores at time `now`, or `None`
      when validation refuses it: exactly when its name is blank. Being a
      group, the partial unique index never refuses it. */
  function NewGroup(me: UserId, name: string, description: Option<string>, supplied: seq<UserId>, now: nat)
    : (r: Option<Conversation>)
    ensures r.Some? <==> !AllSpace(name)
    ensures r.Some? ==> r.value.isGroup && r.value.admin == Some(me) && r.value.name == Some(Trim(name))
    ensures r.Some? ==> r.value.createdAt == now && r.value.updatedAt == now
    ensures r.Some? ==>
      && r.value.participants == SortUnique(supplied + [me])
      && r.value.unreadCounts == ZeroEntries(r.value.participants)
      && r.value.lastMessage.None? && r.value.description == Trim(description.GetOr(""))
  {
    RequiredOnlyForGroups(GroupFields(me, name, description, supplied), now);
    ConversationModel.Create(GroupFields(me, name, description, supplied), now)
  }

  /** Creates the group once the request has been checked: a name that is
      blank once trimmed fails validation; otherwise the group is stored
      under the next id. */
  method InsertGroup(db: Db, me: UserId, name: string, description: Option<string>, supplied: seq<UserId>)
    returns (r: Result<ConvId>)
    requires db.Valid()
    modifies db`convs, db`convOrder, db`clock, db`nextId
    ensures db.Valid()
    ensures AllSpace(name) ==> r == Err(ServerError)
    ensures !AllSpace(name) ==>
      && r == Ok(old(db.nextId))
      && db.convs == old(db.convs)[old(db.nextId) :=
           NewGroup(me, name, description, supplied, old(db.clock)).value]
      && db.convOrder == old(db.convOrder) + [old(db.nextId)]
    ensures r.Err? ==> db.convs == old(db.convs) && db.convOrder == old(db.convOrder) && db.nextId == old(db.nextId)
  {
    var f := GroupFields(me, name, description, supplied);
    ghost var c := NewGroup(me, name, description, supplied, db.clock);
    var ins := db.CreateConversation(f);
    if ins.Inserted? {
      r := Ok(ins.id);
    } else {
      r := Err(ServerError);
    }
  }

  /** POST /api/conversations/group. A missing or empty name, no
      participant list, or fewer than two supplied participants is a bad
      request (the creator is not counted); otherwise the group is created
      with the creator as its admin. */
  method CreateGroupConversation(db: Db, me: UserId, name: Option<string>, description: Option<string>,
                                 participants: Option<seq<UserId>>) returns (r: Result<ConvId>)
    requires db.Valid()
    modifies db`convs, db`convOrder, db`clock, db`nextId
    ensures db.Valid()
    ensures name.None? || name == Some("") || participants.None? ==> r == Err(BadRequest)
    ensures participants.Some? && |participants.value| < 2 ==> r == Err(BadRequest)
    ensures name.Some? && name.value != "" && participants.Some? && |participants.value| >= 2 ==>
      && (AllSpace(name.value) ==> r == Err(ServerError))
      && (!AllSpace(name.value) ==>
           && r == Ok(old(db.nextId))
           && db.convs == old(db.convs)[old(db.nextId) :=
                NewGroup(me, name.value, description, participants.value, old(db.clock)).value]
           && db.convOrder == old(db.convOrder) + [old(db.nextId)])
    ensures r.Err? ==> db.convs == old(db.convs) && db.convOrder == old(db.convOrder) && db.nextId == old(db.nextId)
  {
    if name.None? || name.value == "" || participants.None? {
      return Err(BadRequest);
    }
    if |participants.value| < 2 {
      return Err(BadRequest);
    }
    r := InsertGroup(db, me, name.value, description, participants.value);
  }

  // ------------------------------------------------------ read and delete

  /** POST /api/conversations/:id/read: the requester's counter is reset,
      then the messages from others are marked read; nothing is emitted. */
  method MarkConversationRead(db: Db, reader: UserId, cid: ConvId) returns (r: Result<()>)
    requires db.Valid()
    modifies db`msgs, db`convs, db`clock
    ensures db.Valid()
    ensures !Participates(old(db.convs), cid, reader) ==>
      r == Err(NotFound) && db.msgs == old(db.msgs) && db.convs == old(db.convs)
    ensures Participates(old(db.convs), cid, reader) ==>
      && r == Ok(())
      && db.convs == old(db.convs)[cid := AfterReset(old(db.convs)[cid], reader, old(db.clock))]
      && db.msgs == MarkRead(old(db.msgs), cid, reader, old(db.clock))
  {
    if !Participates(db.convs, cid, reader) {
      return Err(NotFound);
    }
    var now := db.Now();
    db.UpdateConversation(cid, AfterReset(db.convs[cid], reader, now));
    db.UpdateMessages(MarkRead(db.msgs, cid, reader, now));
    r := Ok(());
  }

  /** What deleting did: the requester left a group, or the conversation is gone. */
  datatype Deletion = LeftGroup | Deleted

  /** `$pull: { participants: u }`: every occurrence of `u` is removed and
      the others keep their order. */
  function Pull(ps: seq<UserId>, u: UserId): (r: seq<UserId>)
    ensures forall p :: p in r <==> p in ps && p != u
    ensures |r| <= |ps|
    ensures Increasing(ps) ==> Increasing(r)
    ensures NoDup(ps) ==> NoDup(r)
  {
    var keep := set p | p in ps && p != u;
    if Increasing(ps) then KeepIncreasing(ps, keep); KeepNoDup(ps, keep); Keep(ps, keep)
    else if NoDup(ps) then KeepNoDup(ps, keep); Keep(ps, keep)
    else Keep(ps, keep)
  }

  /** DELETE /api/conversations/:id. A requester outside the conversation
      gets NotFound. A group member who is not its admin leaves the group:
      only the participant list changes, and no message does. Otherwise the
      conversation and all its messages are deleted, and nothing else. */
  method DeleteConversation(db: Db, u: UserId, cid: ConvId) returns (r: Result<Deletion>)
    requires db.Valid()
    modifies db`msgs, db`msgOrder, db`convs, db`convOrder, db`clock
    ensures db.Valid()
    ensures !Participates(old(db.convs), cid, u) ==>
      r == Err(NotFound) && db.msgs == old(db.msgs) && db.convs == old(db.convs) && db.convOrder == old(db.convOrder)
    ensures Participates(old(db.convs), cid, u) && old(db.convs)[cid].isGroup && old(db.convs)[cid].admin != Some(u) ==>
      var c := old(db.convs)[cid];
      && r == Ok(LeftGroup)
      && db.convs == old(db.convs)[cid := c.(participants := Pull(c.participants, u), updatedAt := old(db.clock))]
      && db.msgs == old(db.msgs) && db.msgOrder == old(db.msgOrder) && db.convOrder == old(db.convOrder)
    ensures Participates(old(db.convs), cid, u) && !(old(db.convs)[cid].isGroup && old(db.convs)[cid].admin != Some(u)) ==>
      && r == Ok(Deleted)
      && db.convs == old(db.convs) - {cid}
      && db.msgs == old(db.msgs) - MessageIdsIn(old(db.msgs), cid)
      && (forall id :: id in db.msgs ==> db.msgs[id].conversationId != cid)
  {
    if !Participates(db.convs, cid, u) {
      return Err(NotFound);
    }
    var c := db.convs[cid];
    if c.isGroup && c.admin != Some(u) {
      var now := db.Now();
      db.UpdateConversation(cid, c.(participants := Pull(c.participants, u), updatedAt := now));
      return Ok(LeftGroup);
    }
    db.DeleteMessages(MessageIdsIn(db.msgs, cid));
    db.DeleteConversation(cid);
    r := Ok(Deleted);
  }
}
