/** One message as the chat pages draw it: which side it sits on, whether
    the sender's avatar and name are shown, what the bubble holds, and the
    delivery ticks. Decryption is a parameter. */
module MessageBubble {
  import opened Common
  import opened MessageModel
  import opened ClientTypes

  /** The delivery mark: a double tick, a single tick, the light single tick
      of a message not yet delivered, or nothing. */
  datatype Tick = NoTick | SentTick | DeliveredTick | ReadTick

  datatype Side = Left | Right

  /** What the bubble holds: the file as an image or a video, a document
      card with the file's name, or the text. */
  datatype Body = Picture(src: Option<string>) | Clip(src: Option<string>)
                | FileCard(name: string, link: Option<string>) | Words(text: string)

  datatype BubbleView = BubbleView(
    side: Side,
    avatar: bool,
    spacer: bool,
    senderName: Option<string>,
    body: Body,
    tick: Tick)

  predicate IsSender(m: ClientMessage, viewer: Option<string>) {
    viewer == Some(m.sender.id)
  }

  predicate IsConsecutive(m: ClientMessage, previous: Option<ClientMessage>) {
    previous.Some? && previous.value.sender.id == m.sender.id
  }

  /** `decryptedContent`: a non-empty ciphertext is decrypted, otherwise the
      plain content is shown. */
  function Shown(m: ClientMessage, decrypt: string -> string): (r: string)
    ensures m.encryptedContent.Some? && m.encryptedContent.value != "" ==> r == decrypt(m.encryptedContent.value)
    ensures m.encryptedContent.None? || m.encryptedContent.value == "" ==> r == m.content
  {
    if m.encryptedContent.Some? && m.encryptedContent.value != "" then decrypt(m.encryptedContent.value)
    else m.content
  }

  /** The body shows the kind of the message: an image, a video, a
      document card with the content as its name, or the shown text. */
  function BodyOf(m: ClientMessage, decrypt: string -> string): (r: Body)
    ensures r.Words? <==> m.msgType == Text
    ensures r.Words? ==> r.text == Shown(m, decrypt)
    ensures r.Picture? <==> m.msgType == Image
    ensures r.Clip? <==> m.msgType == Video
    ensures r.FileCard? <==> m.msgType == Document
    ensures !r.Words? ==> (if r.FileCard? then r.link else r.src) == m.file
    ensures r.FileCard? ==> r.name == m.content
  {
    match m.msgType
    case Image => Picture(m.file)
    case Video => Clip(m.file)
    case Document => FileCard(m.content, m.file)
    case Text => Words(Shown(m, decrypt))
  }

  /** `renderMessageStatus`. */
  function StatusOf(m: ClientMessage, viewer: Option<string>): (r: Tick)
    ensures r == NoTick <==> !IsSender(m, viewer)
    ensures r == ReadTick <==> IsSender(m, viewer) && m.read
    ensures r == DeliveredTick <==> IsSender(m, viewer) && !m.read && m.delivered
  {
    if !IsSender(m, viewer) then NoTick
    else if m.read then ReadTick
    else if m.delivered then DeliveredTick
    else SentTick
  }

  /** The whole component, for a message, the one drawn before it, the
      signed-in user and the `showAvatar` prop (true unless given). */
  function Render(m: ClientMessage, previous: Option<ClientMessage>, viewer: Option<string>,
                  showAvatar: bool, decrypt: string -> string): (v: BubbleView)
    ensures v.side == Right <==> IsSender(m, viewer)
  {
    var mine := IsSender(m, viewer);
    var consecutive := IsConsecutive(m, previous);
    BubbleView(
      if mine then Right else Left,
      !mine && showAvatar && !consecutive,
      !mine && (consecutive || !showAvatar),
      if !mine && !consecutive && m.conversationIsGroup == Some(true) then Some(m.sender.name) else None,
      BodyOf(m, decrypt),
      StatusOf(m, viewer))
  }

  /** The viewer's own messages sit on the right with no avatar, no spacer
      and no name, and always carry a tick: read beats delivered beats sent. */
  lemma OwnMessageLayout(m: ClientMessage, previous: Option<ClientMessage>, viewer: Option<string>,
                         showAvatar: bool, decrypt: string -> string)
    requires IsSender(m, viewer)
    ensures var v := Render(m, previous, viewer, showAvatar, decrypt);
      && v.side == Right && !v.avatar && !v.spacer && v.senderName.None?
      && (v.tick == ReadTick <==> m.read)
      && (v.tick == DeliveredTick <==> !m.read && m.delivered)
      && (v.tick == SentTick <==> !m.read && !m.delivered)
  {
  }

  /** Someone else's messages carry no tick and take exactly one of the
      avatar and its placeholder, so the bubbles of a run line up; the
      avatar and, in a group, the name appear only on the first message of
      a run by the same sender. */
  lemma ReceivedMessageLayout(m: ClientMessage, previous: Option<ClientMessage>, viewer: Option<string>,
                              showAvatar: bool, decrypt: string -> string)
    requires !IsSender(m, viewer)
    ensures var v := Render(m, previous, viewer, showAvatar, decrypt);
      && v.side == Left && v.tick == NoTick
      && (v.avatar != v.spacer)
      && (v.avatar <==> showAvatar && !IsConsecutive(m, previous))
      && (v.senderName.Some? <==> !IsConsecutive(m, previous) && m.conversationIsGroup == Some(true))
      && (v.senderName.Some? ==> v.senderName.value == m.sender.name)
  {
  }

  /** Without a signed-in user every message is drawn as someone else's. */
  lemma SignedOutSeesNoTicks(m: ClientMessage, previous: Option<ClientMessage>, showAvatar: bool,
                             decrypt: string -> string)
    ensures Render(m, previous, None, showAvatar, decrypt).side == Left
    ensures Render(m, previous, None, showAvatar, decrypt).tick == NoTick
  {
  }

  /** A text message composed with an encryption that decryption undoes
      shows exactly what was typed, whether or not the ciphertext came out
      empty. */
  lemma TextShownAsTyped(m: ClientMessage, previous: Option<ClientMessage>, viewer: Option<string>,
                         showAvatar: bool, encrypt: string -> string, decrypt: string -> string)
    requires forall s :: decrypt(encrypt(s)) == s
    requires m.msgType == Text && m.encryptedContent == Some(encrypt(m.content))
    ensures Render(m, previous, viewer, showAvatar, decrypt).body == Words(m.content)
  {
  }

  /** File messages never show their ciphertext: images and videos show the
      stored file, documents the original file name. */
  lemma FileBodiesIgnoreCiphertext(m: ClientMessage, decrypt: string -> string, c: Option<string>)
    requires m.msgType != Text
    ensures BodyOf(m, decrypt) == BodyOf(m.(encryptedContent := c), decrypt)
    ensures m.msgType == Document ==> BodyOf(m, decrypt) == FileCard(m.content, m.file)
  {
  }
}
