/** The client's conversation store: the list shown in the sidebar, the
    conversation open on the page, the request flags, and whether the
    sidebar is open. The answers of the REST calls are parameters. */
module ConversationStore {
  import opened Common
  import opened ClientTypes

  /** What an awaited API call gives back: the parsed body, or the message
      of the error it throws. */
  datatype Answer<T> = Answered(value: T) | Failed(message: string)

  /** `conversations.map(c => c._id === id ? conv : c)`. */
  function ReplaceById(cs: seq<ClientConversation>, id: string, conv: ClientConversation): (r: seq<ClientConversation>)
    ensures |r| == |cs|
    ensures forall k :: 0 <= k < |cs| ==> r[k] == if cs[k].id == id then conv else cs[k]
  {
    if cs == [] then []
    else [if cs[0].id == id then conv else cs[0]] + ReplaceById(cs[1..], id, conv)
  }

  /** A list without that id comes back unchanged. */
  lemma ReplaceAbsent(cs: seq<ClientConversation>, id: string, conv: ClientConversation)
    requires forall k :: 0 <= k < |cs| ==> cs[k].id != id
    ensures ReplaceById(cs, id, conv) == cs
  {
  }

  /** Applying the same answer twice is applying it once; and when the
      answer carries the id that was asked for, every position keeps its id. */
  lemma ReplaceIdempotent(cs: seq<ClientConversation>, id: string, conv: ClientConversation)
    ensures ReplaceById(ReplaceById(cs, id, conv), id, conv) == ReplaceById(cs, id, conv)
    ensures conv.id == id ==> forall k :: 0 <= k < |cs| ==> ReplaceById(cs, id, conv)[k].id == cs[k].id
  {
    var once := ReplaceById(cs, id, conv);
    var twice := ReplaceById(once, id, conv);
    forall k | 0 <= k < |cs| ensures twice[k] == once[k] {
      if cs[k].id != id {
        assert once[k] == cs[k];
      }
    }
  }

  /** `currentConversation?._id === id ? conv : currentConversation`. */
  function Refreshed(current: Option<ClientConversation>, id: string, conv: ClientConversation): Option<ClientConversation> {
    if current.Some? && current.value.id == id then Some(conv) else current
  }

  /** A participant change keeps the open conversation in the list, when it
      was there: either it was the one replaced, and the list holds the new
      version, or it was left alone in both. */
  lemma RefreshKeepsCurrentListed(cs: seq<ClientConversation>, current: Option<ClientConversation>,
                                  id: string, conv: ClientConversation)
    requires current.Some? && current.value in cs
    ensures Refreshed(current, id, conv).Some?
    ensures Refreshed(current, id, conv).value in ReplaceById(cs, id, conv)
  {
    var r := ReplaceById(cs, id, conv);
    var k :| 0 <= k < |cs| && cs[k] == current.value;
    assert r[k] == Refreshed(current, id, conv).value;
  }

  class ConversationState {
    var conversations: seq<ClientConversation>
    var current: Option<ClientConversation>
    var loading: bool
    var error: Option<string>
    var isOpen: bool

    /** The open conversation, if any, is one of the listed ones. Only
        `CreateGroup` and `ApplyParticipantChange` are proved to keep it;
        the other actions set the list and the open conversation
        independently and do not keep it in general. */
    ghost predicate CurrentListed()
      reads this`conversations, this`current
    {
      current.Some? ==> current.value in conversations
    }

    constructor()
      ensures conversations == [] && current == None && !loading && error == None && !isOpen
    {
      conversations, current, loading, error, isOpen := [], None, false, None, false;
    }

    method SetCurrentConversation(conv: ClientConversation)
      modifies this`current
      ensures current == Some(conv)
    {
      current := Some(conv);
    }

    /** On success the list is replaced; on failure it is kept, the error
        recorded and thrown on. Either way the request has ended. */
    method FetchConversations(answer: Answer<seq<ClientConversation>>) returns (thrown: Option<string>)
      modifies this`conversations, this`loading, this`error
      ensures !loading
      ensures answer.Answered? ==> conversations == answer.value && error == None && thrown == None
      ensures answer.Failed? ==>
        conversations == old(conversations) && error == Some(answer.message) && thrown == error
    {
      loading, error := true, None;
      if answer.Answered? {
        conversations, loading := answer.value, false;
        thrown := None;
      } else {
        error, loading := Some(answer.message), false;
        thrown := error;
      }
    }

    method GetConversation(answer: Answer<ClientConversation>) returns (thrown: Option<string>)
      modifies this`current, this`loading, this`error
      ensures !loading
      ensures answer.Answered? ==> current == Some(answer.value) && error == None && thrown == None
      ensures answer.Failed? ==> current == old(current) && error == Some(answer.message) && thrown == error
    {
      loading, error := true, None;
      if answer.Answered? {
        current, loading := Some(answer.value), false;
        thrown := None;
      } else {
        error, loading := Some(answer.message), false;
        thrown := error;
      }
    }

    /** The new group goes to the end of the list and is returned. */
    method CreateGroup(answer: Answer<ClientConversation>) returns (r: Answer<ClientConversation>)
      modifies this`conversations, this`loading, this`error
      ensures r == answer && !loading
      ensures answer.Answered? ==> conversations == old(conversations) + [answer.value] && error == None
      ensures answer.Failed? ==> conversations == old(conversations) && error == Some(answer.message)
      ensures old(CurrentListed()) ==> CurrentListed()
    {
      loading, error := true, None;
      if answer.Answered? {
        conversations, loading := conversations + [answer.value], false;
      } else {
        error, loading := Some(answer.message), false;
      }
      r := answer;
    }

    /** `addParticipant` and `removeParticipant` differ only in the request
        they send: the answered conversation replaces the one with that id,
        in the list and, if it is the open one, on the page. */
    method ApplyParticipantChange(conversationId: string, answer: Answer<ClientConversation>)
      returns (thrown: Option<string>)
      modifies this`conversations, this`current, this`loading, this`error
      ensures !loading
      ensures answer.Answered? ==>
        && conversations == ReplaceById(old(conversations), conversationId, answer.value)
        && current == Refreshed(old(current), conversationId, answer.value)
        && error == None && thrown == None
      ensures answer.Failed? ==>
        && conversations == old(conversations) && current == old(current)
        && error == Some(answer.message) && thrown == error
      ensures old(CurrentListed()) ==> CurrentListed()
    {
      loading, error := true, None;
      if answer.Answered? {
        if current.Some? && current.value in conversations {
          RefreshKeepsCurrentListed(conversations, current, conversationId, answer.value);
        }
        conversations := ReplaceById(conversations, conversationId, answer.value);
        current := Refreshed(current, conversationId, answer.value);
        loading := false;
        thrown := None;
      } else {
        error, loading := Some(answer.message), false;
        thrown := error;
      }
    }

    method AddParticipant(conversationId: string, answer: Answer<ClientConversation>) returns (thrown: Option<string>)
      modifies this`conversations, this`current, this`loading, this`error
      ensures !loading
      ensures answer.Answered? ==>
        && conversations == ReplaceById(old(conversations), conversationId, answer.value)
        && current == Refreshed(old(current), conversationId, answer.value)
        && error == None && thrown == None
      ensures answer.Failed? ==>
        && conversations == old(conversations) && current == old(current)
        && error == Some(answer.message) && thrown == error
    {
      thrown := ApplyParticipantChange(conversationId, answer);
    }

    method RemoveParticipant(conversationId: string, answer: Answer<ClientConversation>) returns (thrown: Option<string>)
      modifies this`conversations, this`current, this`loading, this`error
      ensures !loading
      ensures answer.Answered? ==>
        && conversations == ReplaceById(old(conversations), conversationId, answer.value)
        && current == Refreshed(old(current), conversationId, answer.value)
        && error == None && thrown == None
      ensures answer.Failed? ==>
        && conversations == old(conversations) && current == old(current)
        && error == Some(answer.message) && thrown == error
    {
      thrown := ApplyParticipantChange(conversationId, answer);
    }

    method ToggleSidebar()
      modifies this`isOpen
      ensures isOpen == !old(isOpen)
    {
      isOpen := !isOpen;
    }
  }

  /** Toggling twice leaves the sidebar as it was. */
  method ToggleTwice(s: ConversationState)
    modifies s`isOpen
    ensures s.isOpen == old(s.isOpen)
  {
    s.ToggleSidebar();
    s.ToggleSidebar();
  }
}
