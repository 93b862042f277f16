/** The Message document: its fields, the `type` enumeration, and the
    defaults and validation Mongoose applies when a message is created. */
module MessageModel {
  import opened Common

  /** The `type` enumeration of a message. */
  datatype MsgType = Text | Image | Video | Document

  function TypeName(t: MsgType): string {
    match t
    case Text => "text"
    case Image => "image"
    case Video => "video"
    case Document => "document"
  }

  /** The enum validator: a stored type is one of the four names. */
  function ParseType(s: string): (r: Option<MsgType>)
    ensures r.Some? ==> TypeName(r.value) == s
    ensures r.None? ==> forall t: MsgType :: TypeName(t) != s
  {
    if s == "text" then Some(Text)
    else if s == "image" then Some(Image)
    else if s == "video" then Some(Video)
    else if s == "document" then Some(Document)
    else None
  }

  /** Every type survives being rendered and validated again. */
  lemma ParseTypeName(t: MsgType)
    ensures ParseType(TypeName(t)) == Some(t)
  {
  }

  /** One entry of `readBy`: who read the message and when. */
  datatype ReadReceipt = ReadReceipt(user: UserId, readAt: nat)

  /** A stored message. `createdAt` is a reading of the store's clock. */
  datatype Message = Message(
    conversationId: ConvId,
    sender: UserId,
    content: string,
    msgType: MsgType,
    file: string,
    encryptedContent: string,
    delivered: bool,
    read: bool,
    readBy: seq<ReadReceipt>,
    createdAt: nat)

  /** What a caller passes to `Message.create`; `None` is an absent field. */
  datatype MessageFields = MessageFields(
    conversationId: Option<ConvId>,
    sender: UserId,
    content: Option<string>,
    msgType: Option<string>,
    file: Option<string>,
    encryptedContent: Option<string>,
    delivered: Option<bool>,
    read: Option<bool>)

  /** The validation part of `Message.create`: a conversation reference, a
      content that is not blank once trimmed, and a type from the enum. */
  predicate Acceptable(f: MessageFields)
    ensures Acceptable(f) ==> f.content.Some? && !AllSpace(f.content.value)
    ensures Acceptable(f) ==> f.msgType.None? || f.msgType.value in ["text", "image", "video", "document"]
  {
    && f.conversationId.Some?
    && f.content.Some? && (TrimEmptyIffAllSpace(f.content.value); Trim(f.content.value) != "")
    && (f.msgType.None? || ParseType(f.msgType.value).Some?)
  }

  /** `Message.create` at time `now`: `None` is a validation error. Content is
      stored trimmed; type defaults to text, file and encryptedContent to the
      empty string, delivered and read to false; readBy starts empty. */
  function Create(f: MessageFields, now: nat): (r: Option<Message>)
    ensures r.Some? <==> Acceptable(f)
    ensures r.Some? ==>
      && r.value.conversationId == f.conversationId.value
      && r.value.sender == f.sender
      && r.value.content == Trim(f.content.value)
      && TypeName(r.value.msgType) == f.msgType.GetOr("text")
      && r.value.file == f.file.GetOr("")
      && r.value.encryptedContent == f.encryptedContent.GetOr("")
      && r.value.delivered == f.delivered.GetOr(false)
      && r.value.read == f.read.GetOr(false)
      && r.value.readBy == []
      && r.value.createdAt == now
  {
    if !Acceptable(f) then None
    else
      var t := if f.msgType.Some? then ParseType(f.msgType.value).value else Text;
      Some(Message(f.conversationId.value, f.sender, Trim(f.content.value), t,
                   f.file.GetOr(""), f.encryptedContent.GetOr(""),
                   f.delivered.GetOr(false), f.read.GetOr(false), [], now))
  }

  /** A message created without flags is neither delivered nor read, carries
      no receipts, and is a text message if no type was given. */
  lemma CreateDefaults(f: MessageFields, now: nat)
    requires Acceptable(f) && f.delivered.None? && f.read.None? && f.msgType.None?
    ensures var m := Create(f, now).value;
      !m.delivered && !m.read && m.readBy == [] && m.msgType == Text
  {
  }

  /** Stored content is already trimmed: trimming it again changes nothing,
      and it is never blank. */
  lemma CreatedContentTrimmed(f: MessageFields, now: nat)
    requires Create(f, now).Some?
    ensures var c := Create(f, now).value.content; Trim(c) == c && c != ""
  {
    TrimIdempotent(f.content.value);
  }
}
