/** The documents as the browser client receives them: ids are strings,
    the sender and the participants are populated user objects, and the
    listing attaches the requester's unread count. */
module ClientTypes {
  import opened Common
  import MessageModel

  datatype ClientUser = ClientUser(id: string, name: string, avatar: Option<string>)

  datatype ClientMessage = ClientMessage(
    id: string,
    conversationId: string,
    sender: ClientUser,
    content: string,
    msgType: MessageModel.MsgType,
    file: Option<string>,
    encryptedContent: Option<string>,
    read: bool,
    delivered: bool,
    conversationIsGroup: Option<bool>)

  datatype ClientConversation = ClientConversation(
    id: string,
    participants: seq<ClientUser>,
    isGroup: bool,
    name: Option<string>,
    lastMessage: Option<ClientMessage>,
    unreadCount: Option<int>)

  /** `participants.find(p => p._id !== viewer?._id)`: the index of the
      first participant who is not the viewer (with no viewer, the first
      participant), or `|ps|` if there is none. */
  function FirstOther(ps: seq<ClientUser>, viewer: Option<string>): (k: nat)
    ensures k <= |ps|
    ensures forall j :: 0 <= j < k ==> viewer == Some(ps[j].id)
    ensures k < |ps| ==> viewer != Some(ps[k].id)
  {
    if ps == [] then 0
    else if viewer != Some(ps[0].id) then 0
    else 1 + FirstOther(ps[1..], viewer)
  }

  /** The other participant of a direct conversation, if there is one. */
  function OtherParticipant(c: ClientConversation, viewer: Option<string>): (r: Option<ClientUser>)
    ensures c.isGroup ==> r.None?
    ensures r.Some? ==> r.value in c.participants && viewer != Some(r.value.id)
    ensures !c.isGroup && (exists p :: p in c.participants && viewer != Some(p.id)) ==> r.Some?
  {
    var k := FirstOther(c.participants, viewer);
    if c.isGroup || k == |c.participants| then None else Some(c.participants[k])
  }
}
