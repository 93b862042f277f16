/** The Conversation document: its fields and defaults, the fields required
    only of groups, the per-user `unreadCount` virtual with its user context,
    and the unique index on direct conversations. */
module ConversationModel {
  import opened Common

  /** One entry of `unreadCounts`. */
  datatype UnreadEntry = UnreadEntry(user: UserId, count: nat)

  /** A stored conversation; `createdAt` and `updatedAt` are clock readings
      kept by the schema's `timestamps` option. */
  datatype Conversation = Conversation(
    participants: seq<UserId>,
    isGroup: bool,
    name: Option<string>,
    description: string,
    avatar: string,
    lastMessage: Option<MsgId>,
    unreadCounts: seq<UnreadEntry>,
    admin: Option<UserId>,
    createdAt: nat,
    updatedAt: nat)

  /** What a caller passes to `Conversation.create`; `None` is an absent field. */
  datatype ConversationFields = ConversationFields(
    participants: seq<UserId>,
    isGroup: Option<bool>,
    name: Option<string>,
    description: Option<string>,
    unreadCounts: seq<UnreadEntry>,
    admin: Option<UserId>)

  /** The conditional `required` validators: a group needs a (non-blank)
      name and an admin; a direct conversation needs neither. */
  predicate SchemaValid(c: Conversation) {
    c.isGroup ==> c.name.Some? && c.name.value != "" && c.admin.Some?
  }

  /** `Conversation.create` at time `now`; `None` is a validation error.
      `isGroup` defaults to false, `name` and `description` are trimmed,
      `description` and `avatar` default to the empty string and there is no
      `lastMessage` yet. */
  function Create(f: ConversationFields, now: nat): (r: Option<Conversation>)
    ensures r.Some? ==> SchemaValid(r.value)
    ensures r.Some? ==>
      && r.value.participants == f.participants
      && r.value.isGroup == f.isGroup.GetOr(false)
      && r.value.unreadCounts == f.unreadCounts
      && r.value.admin == f.admin
      && r.value.lastMessage.None?
      && r.value.description == Trim(f.description.GetOr(""))
      && r.value.avatar == ""
      && (f.name.Some? <==> r.value.name.Some?)
      && (f.name.Some? ==> r.value.name.value == Trim(f.name.value))
      && r.value.createdAt == now && r.value.updatedAt == now
  {
    var isGroup := f.isGroup.GetOr(false);
    var name := if f.name.Some? then Some(Trim(f.name.value)) else None;
    var c := Conversation(f.participants, isGroup, name, Trim(f.description.GetOr("")), "",
                          None, f.unreadCounts, f.admin, now, now);
    if SchemaValid(c) then Some(c) else None
  }

  /** `name` and `admin` are required exactly when the conversation is a
      group: a direct conversation is always accepted, a group exactly when
      it has an admin and a name that is not blank. */
  lemma RequiredOnlyForGroups(f: ConversationFields, now: nat)
    ensures !f.isGroup.GetOr(false) ==> Create(f, now).Some?
    ensures f.isGroup.GetOr(false) ==>
      (Create(f, now).Some? <==> f.admin.Some? && f.name.Some? && !AllSpace(f.name.value))
  {
    if f.name.Some? {
      TrimEmptyIffAllSpace(f.name.value);
    }
  }

  // ------------------------------------------------------ unread counters

  /** Index of the first entry for `u` (the element `Array.prototype.find`
      and the positional `$` operator select), or `|entries|` if none. */
  function FirstEntryOf(entries: seq<UnreadEntry>, u: UserId): (k: nat)
    ensures k <= |entries|
    ensures forall j :: 0 <= j < k ==> entries[j].user != u
    ensures k < |entries| ==> entries[k].user == u
  {
    if entries == [] then 0
    else if entries[0].user == u then 0
    else 1 + FirstEntryOf(entries[1..], u)
  }

  /** The `unreadCount` virtual: 0 without entries or without a user
      context, otherwise the count of the first entry for the context user,
      or 0 if that user has none. */
  function UnreadCountOf(entries: seq<UnreadEntry>, context: Option<UserId>): (n: nat)
    ensures context.None? ==> n == 0
    ensures context.Some? && (forall i :: 0 <= i < |entries| ==> entries[i].user != context.value) ==> n == 0
    ensures context.Some? ==> forall i :: 0 <= i < |entries| && entries[i].user == context.value ==>
      (forall j :: 0 <= j < i ==> entries[j].user != context.value) ==> n == entries[i].count
  {
    if |entries| == 0 then 0
    else if context.None? then 0
    else
      var k := FirstEntryOf(entries, context.value);
      if k < |entries| then entries[k].count else 0
  }

  /** A conversation document with the user context that `setUserId`
      installs for its virtual fields. */
  class ConversationDoc {
    var data: Conversation
    var userContext: Option<UserId>

    constructor (c: Conversation)
      ensures data == c && userContext == None
    {
      data := c;
      userContext := None;
    }

    /** Sets the user context only, and returns the same document. */
    method SetUserId(u: UserId) returns (self: ConversationDoc)
      modifies this
      ensures self == this
      ensures userContext == Some(u) && data == old(data)
    {
      userContext := Some(u);
      self := this;
    }

    /** The `unreadCount` virtual read through the document. */
    function UnreadCount(): (n: nat)
      reads this
      ensures n == UnreadCountOf(data.unreadCounts, userContext)
    {
      UnreadCountOf(data.unreadCounts, userContext)
    }
  }

  // ----------------------------------------------- direct-conversation index

  /** The set of users of a conversation. */
  function Members(c: Conversation): set<UserId> {
    set p | p in c.participants
  }

  /** The intent of the partial unique index on (participants, isGroup): at
      most one direct conversation per set of participants. */
  ghost predicate DirectPairsUnique(convs: map<ConvId, Conversation>) {
    forall a, b :: a in convs && b in convs && a != b && !convs[a].isGroup && !convs[b].isGroup
      ==> Members(convs[a]) != Members(convs[b])
  }

  /** The intended index admits a new document unless it is direct and an
      existing direct conversation has the same participants. */
  predicate PairIndexAllows(convs: map<ConvId, Conversation>, c: Conversation) {
    c.isGroup || forall id :: id in convs && !convs[id].isGroup ==> Members(convs[id]) != Members(c)
  }

  /** Inserting under a fresh id keeps direct conversations unique exactly
      when the intended index admits the document. */
  lemma PairIndexInsert(convs: map<ConvId, Conversation>, id: ConvId, c: Conversation)
    requires DirectPairsUnique(convs) && id !in convs
    ensures DirectPairsUnique(convs[id := c]) <==> PairIndexAllows(convs, c)
  {
    var m := convs[id := c];
    if PairIndexAllows(convs, c) {
      forall a, b | a in m && b in m && a != b && !m[a].isGroup && !m[b].isGroup
        ensures Members(m[a]) != Members(m[b])
      {
        if a == id { assert m[b] == convs[b]; }
        else if b == id { assert m[a] == convs[a]; }
        else { assert m[a] == convs[a] && m[b] == convs[b]; }
      }
    } else {
      var other :| other in convs && !convs[other].isGroup && Members(convs[other]) == Members(c);
      assert m[other] == convs[other] && m[id] == c && other != id;
    }
  }

  /** The index as written: an index on an array field is multikey, so each
      participant is its own key, and uniqueness forbids any user from being
      in two direct conversations at all. */
  predicate MultikeyIndexAllows(convs: map<ConvId, Conversation>, c: Conversation) {
    c.isGroup || forall id :: id in convs && !convs[id].isGroup ==> Members(convs[id]) !! Members(c)
  }

  /** User 1 already talks directly with user 2; a first direct conversation
      between users 1 and 3 is admitted by the intended index but refused by
      the index as written. */
  lemma MultikeyRefusesSecondPartner()
    ensures var ab := Conversation([1, 2], false, None, "", "", None, [], None, 0, 0);
            var ac := Conversation([1, 3], false, None, "", "", None, [], None, 1, 1);
            PairIndexAllows(map[7 := ab], ac) && !MultikeyIndexAllows(map[7 := ab], ac)
  {
    var ab := Conversation([1, 2], false, None, "", "", None, [], None, 0, 0);
    var ac := Conversation([1, 3], false, None, "", "", None, [], None, 1, 1);
    var convs := map[7 := ab];
    assert 2 in Members(ab) && 2 !in Members(ac);
    assert Members(convs[7]) != Members(ac);
    assert PairIndexAllows(convs, ac);
    assert 1 in Members(convs[7]) && 1 in Members(ac);
    assert !(Members(convs[7]) !! Members(ac));
  }
}
