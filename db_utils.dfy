/** `createOrGetDirectConversation`: the direct conversation of two users,
    found by its participants or created without unread counters. */
module DbUtils {
  import opened Common
  import opened ConversationModel
  import opened Store

  /** The document it creates: the sorted pair, not a group, and (unlike
      the route handler) no unread counters. Direct conversations need no
      name or admin, so validation always accepts it. */
  function PlainDirect(a: UserId, b: UserId, now: nat): (c: Conversation)
    ensures ConversationModel.Create(ConversationFields(SortPair(a, b), Some(false), None, None, [], None), now)
            == Some(c)
    ensures c.participants == SortPair(a, b) && !c.isGroup && c.unreadCounts == []
    ensures c.lastMessage.None? && c.createdAt == now && c.updatedAt == now
  {
    var f := ConversationFields(SortPair(a, b), Some(false), None, None, [], None);
    RequiredOnlyForGroups(f, now);
    ConversationModel.Create(f, now).value
  }

  /** What one call does to the conversations, given the state before it:
      an existing direct conversation of exactly the two users is returned
      and nothing changes; otherwise a new one is stored under the next id,
      unless the unique index refuses it, which is an error that changes
      nothing. */
  ghost predicate DirectOutcome(convs0: map<ConvId, Conversation>, order0: seq<ConvId>, next0: nat, clock0: nat,
                                a: UserId, b: UserId, r: Result<ConvId>,
                                convs: map<ConvId, Conversation>, order: seq<ConvId>, next: nat)
  {
    var found := FindDirect(order0, convs0, SortPair(a, b), true);
    var same := convs == convs0 && order == order0 && next == next0;
    && (found.Some? ==> r == Ok(found.value) && same)
    && (found.None? && PairIndexAllows(convs0, PlainDirect(a, b, clock0)) ==>
          && r == Ok(next0)
          && convs == convs0[next0 := PlainDirect(a, b, clock0)]
          && order == order0 + [next0] && next == next0 + 1)
    && (found.None? && !PairIndexAllows(convs0, PlainDirect(a, b, clock0)) ==>
          r == Err(ServerError) && same)
  }

  /** The participant ids are sorted first, so the argument order does not
      matter; the search asks for both users and exactly two participants. */
  method CreateOrGetDirect(db: Db, a: UserId, b: UserId) returns (r: Result<ConvId>)
    requires db.Valid()
    modifies db`convs, db`convOrder, db`clock, db`nextId
    ensures db.Valid()
    ensures DirectOutcome(old(db.convs), old(db.convOrder), old(db.nextId), old(db.clock), a, b, r,
                          db.convs, db.convOrder, db.nextId)
    ensures r.Err? || FindDirect(old(db.convOrder), old(db.convs), SortPair(a, b), true).Some? ==>
      db.clock == old(db.clock)
  {
    var ps := SortPair(a, b);
    var found := FindDirect(db.convOrder, db.convs, ps, true);
    if found.Some? {
      return Ok(found.value);
    }
    var ins := db.CreateConversation(ConversationFields(ps, Some(false), None, None, [], None));
    if ins.Inserted? {
      r := Ok(ins.id);
    } else {
      r := Err(ServerError);
    }
  }

  /** Given the state before, one call's outcome is determined. */
  lemma OutcomeDetermined(convs0: map<ConvId, Conversation>, order0: seq<ConvId>, next0: nat, clock0: nat,
                          a: UserId, b: UserId,
                          r: Result<ConvId>, convs: map<ConvId, Conversation>, order: seq<ConvId>, next: nat,
                          r': Result<ConvId>, convs': map<ConvId, Conversation>, order': seq<ConvId>, next': nat)
    requires DirectOutcome(convs0, order0, next0, clock0, a, b, r, convs, order, next)
    requires DirectOutcome(convs0, order0, next0, clock0, a, b, r', convs', order', next')
    ensures r == r' && convs == convs' && order == order' && next == next'
  {
  }

  /** After one call, a call with the users swapped finds what the first
      one found or created, or fails as it did, and changes nothing. */
  lemma SecondCallRepeats(convs0: map<ConvId, Conversation>, order0: seq<ConvId>, next0: nat, clock0: nat,
                          a: UserId, b: UserId,
                          r: Result<ConvId>, convs: map<ConvId, Conversation>, order: seq<ConvId>, next: nat, clock: nat)
    requires forall id :: id in order0 ==> id < next0
    requires DirectOutcome(convs0, order0, next0, clock0, a, b, r, convs, order, next)
    requires r.Err? || FindDirect(order0, convs0, SortPair(a, b), true).Some? ==> clock == clock0
    ensures DirectOutcome(convs, order, next, clock, b, a, r, convs, order, next)
  {
    SortPairSymmetric(a, b);
    var ps := SortPair(a, b);
    if FindDirect(order0, convs0, ps, true).None? && PairIndexAllows(convs0, PlainDirect(a, b, clock0)) {
      assert next0 !in order0;
      FindAfterInsert(order0, convs0, ps, true, next0, PlainDirect(a, b, clock0));
    }
  }

  /** Calling it twice, the second time with the users swapped, answers the
      same both times and leaves the store as one call does: the second call
      finds what the first one found or created. */
  method CreateOrGetTwice(db: Db, a: UserId, b: UserId) returns (r1: Result<ConvId>, r2: Result<ConvId>)
    requires db.Valid()
    modifies db`convs, db`convOrder, db`clock, db`nextId
    ensures db.Valid()
    ensures r1 == r2
    ensures DirectOutcome(old(db.convs), old(db.convOrder), old(db.nextId), old(db.clock), a, b, r1,
                          db.convs, db.convOrder, db.nextId)
  {
    ghost var convs0, order0, next0, clock0 := db.convs, db.convOrder, db.nextId, db.clock;
    r1 := CreateOrGetDirect(db, a, b);
    SecondCallRepeats(convs0, order0, next0, clock0, a, b, r1, db.convs, db.convOrder, db.nextId, db.clock);
    ghost var convs1, order1, next1, clock1 := db.convs, db.convOrder, db.nextId, db.clock;
    r2 := CreateOrGetDirect(db, b, a);
    OutcomeDetermined(convs1, order1, next1, clock1, b, a, r1, convs1, order1, next1,
                      r2, db.convs, db.convOrder, db.nextId);
  }
}
