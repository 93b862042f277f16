/** One row of the sidebar: the title, the preview of the last message,
    the unread badge, the delivery ticks, and what a click does. */
module ConversationItem {
  import opened Common
  import opened MessageModel
  import opened ClientTypes
  import MessageBubble
  import ConversationStore

  /** The title: a group's name (or "Unnamed Group"), else the name of the
      first participant who is not the viewer (or "Unknown User"). */
  function DisplayName(c: ClientConversation, viewer: Option<string>): (r: string)
    ensures c.isGroup ==> r == c.name.GetOr("Unnamed Group")
    ensures !c.isGroup && (exists p :: p in c.participants && viewer != Some(p.id)) ==>
      exists p :: p in c.participants && viewer != Some(p.id) && r == p.name
    ensures !c.isGroup && (forall p :: p in c.participants ==> viewer == Some(p.id)) ==> r == "Unknown User"
  {
    if c.isGroup then c.name.GetOr("Unnamed Group")
    else
      match OtherParticipant(c, viewer)
      case Some(p) => p.name
      case None => "Unknown User"
  }

  /** In a direct conversation the two participants see each other's name. */
  lemma DirectTitlesCross(c: ClientConversation, a: ClientUser, b: ClientUser)
    requires !c.isGroup && a.id != b.id
    requires c.participants == [a, b] || c.participants == [b, a]
    ensures DisplayName(c, Some(a.id)) == b.name
    ensures DisplayName(c, Some(b.id)) == a.name
  {
  }

  /** A direct conversation whose only participant is the viewer has no
      other participant to name. */
  lemma SelfConversationUnknown(c: ClientConversation, me: ClientUser)
    requires !c.isGroup && c.participants == [me]
    ensures DisplayName(c, Some(me.id)) == "Unknown User"
  {
    assert FirstOther(c.participants, Some(me.id)) == 1 + FirstOther([], Some(me.id));
  }

  datatype Badge = NoBadge | Count(n: nat) | NinePlus

  /** `unreadCount ?? 0`, then the badge: none unless positive, the number
      up to nine, "9+" beyond. */
  function BadgeOf(c: ClientConversation): (b: Badge)
    ensures b == NoBadge <==> c.unreadCount.GetOr(0) <= 0
    ensures b.Count? ==> 1 <= b.n <= 9 && b.n == c.unreadCount.GetOr(0)
    ensures b == NinePlus <==> c.unreadCount.GetOr(0) > 9
  {
    var n := c.unreadCount.GetOr(0);
    if n <= 0 then NoBadge else if n > 9 then NinePlus else Count(n)
  }

  /** More unread messages never shrink the badge. */
  function BadgeRank(b: Badge): nat {
    match b
    case NoBadge => 0
    case Count(n) => n
    case NinePlus => 10
  }

  lemma BadgeMonotone(c: ClientConversation, d: ClientConversation)
    requires c.unreadCount.GetOr(0) <= d.unreadCount.GetOr(0)
    ensures BadgeRank(BadgeOf(c)) <= BadgeRank(BadgeOf(d))
  {
  }

  /** The second line of the row: a text message as stored, any other
      message by its kind, and a placeholder when there is none. */
  function Preview(last: Option<ClientMessage>): (r: string)
    ensures last.None? ==> r == "No messages yet"
    ensures last.Some? && last.value.msgType == Text ==> r == last.value.content
    ensures last.Some? && last.value.msgType != Text ==> r == "Sent a " + TypeName(last.value.msgType)
  {
    match last
    case None => "No messages yet"
    case Some(m) => if m.msgType == Text then m.content else "Sent a " + TypeName(m.msgType)
  }

  /** The preview of a file message names its kind: messages of different
      kinds of file never share a preview, and the kind can be read back
      from it. */
  lemma PreviewNamesKind(m: ClientMessage, n: ClientMessage)
    requires m.msgType != Text && n.msgType != Text
    ensures |Preview(Some(m))| >= 7 && ParseType(Preview(Some(m))[7..]) == Some(m.msgType)
    ensures Preview(Some(m)) == Preview(Some(n)) <==> m.msgType == n.msgType
  {
    var p, q := Preview(Some(m)), Preview(Some(n));
    assert p[7..] == TypeName(m.msgType);
    assert q[7..] == TypeName(n.msgType);
    ParseTypeName(m.msgType);
    ParseTypeName(n.msgType);
  }

  /** A file's name never reaches the preview; only its kind does. Text is
      previewed as stored, not decrypted. */
  lemma PreviewOfFile(m: ClientMessage, other: string)
    requires m.msgType != Text
    ensures Preview(Some(m)) == Preview(Some(m.(content := other)))
    ensures Preview(Some(m)) != Preview(None)
  {
    assert Preview(Some(m))[0] == 'S' && Preview(None)[0] == 'N';
  }

  /** `messageStatusIcon`: nothing without a last message or when the
      viewer sent it; otherwise a double tick once read, a single tick once
      delivered, and nothing before. */
  function StatusIcon(last: Option<ClientMessage>, viewer: Option<string>): (t: MessageBubble.Tick)
    ensures t != MessageBubble.SentTick
    ensures t != MessageBubble.NoTick ==> last.Some? && viewer != Some(last.value.sender.id)
  {
    if last.None? || viewer == Some(last.value.sender.id) then MessageBubble.NoTick
    else if last.value.read then MessageBubble.ReadTick
    else if last.value.delivered then MessageBubble.DeliveredTick
    else MessageBubble.NoTick
  }

  /** The row and the message page mark complementary sets of messages:
      the row puts its ticks on messages others sent, which the page never
      marks, and leaves the viewer's own messages, which the page always
      marks, bare. For a message that is read or delivered, exactly one of
      the two shows a tick, and the same one. */
  lemma StatusIconOppositeOfBubble(m: ClientMessage, viewer: Option<string>, previous: Option<ClientMessage>,
                                   showAvatar: bool, decrypt: string -> string)
    ensures var page := MessageBubble.Render(m, previous, viewer, showAvatar, decrypt).tick;
      var row := StatusIcon(Some(m), viewer);
      && (row == MessageBubble.NoTick || page == MessageBubble.NoTick)
      && (m.read || m.delivered ==> (row == MessageBubble.NoTick <==> page != MessageBubble.NoTick))
      && (m.read || m.delivered ==> (if row == MessageBubble.NoTick then page else row)
                                     == (if m.read then MessageBubble.ReadTick else MessageBubble.DeliveredTick))
  {
  }

  /** Where a click leads. */
  function Route(c: ClientConversation): (r: string)
    ensures |r| >= |c.id| + 6 && r[|r| - |c.id|..] == c.id
    ensures r[1] == 'g' <==> c.isGroup
  {
    if c.isGroup then "/group/" + c.id else "/chat/" + c.id
  }

  /** Different conversations lead to different places, and the path tells
      a group from a direct conversation. */
  lemma RouteInjective(c: ClientConversation, d: ClientConversation)
    requires Route(c) == Route(d)
    ensures c.id == d.id && c.isGroup == d.isGroup
  {
    var p := Route(c);
    assert p[1] == (if c.isGroup then 'g' else 'c');
    assert p[1] == (if d.isGroup then 'g' else 'c');
    var n := if c.isGroup then 7 else 6;
    assert p[n..] == c.id;
    assert p[n..] == d.id;
  }

  /** `handleClick`: the conversation becomes the open one, the sidebar is
      toggled on a narrow screen, and the page moves to its route. */
  method Click(store: ConversationStore.ConversationState, c: ClientConversation, narrow: bool)
    returns (path: string)
    modifies store`current, store`isOpen
    ensures store.current == Some(c)
    ensures store.isOpen == (if narrow then !old(store.isOpen) else old(store.isOpen))
    ensures path == Route(c)
  {
    store.SetCurrentConversation(c);
    if narrow {
      store.ToggleSidebar();
    }
    path := Route(c);
  }
}
