/** The sidebar's search and its two lists: the conversations whose
    title contains the search term, ignoring case, split into direct
    messages and group chats. */
module Sidebar {
  import opened Common
  import opened ClientTypes

  /** The searched title as written: a group's `name`, which is `undefined`
      (here `None`) when the group has none, so that `toLowerCase` throws;
      otherwise the other participant's name, or "". */
  function SearchNameAsWritten(c: ClientConversation, viewer: Option<string>): (r: Option<string>)
    ensures r.None? <==> c.isGroup && c.name.None?
    ensures c.isGroup ==> r == c.name
  {
    if c.isGroup then c.name
    else
      match OtherParticipant(c, viewer)
      case Some(p) => Some(p.name)
      case None => Some("")
  }

  /** `conversations.filter(...)` as written: `None` when the callback
      throws for some conversation, which fails the whole render. */
  function FilterAsWritten(cs: seq<ClientConversation>, viewer: Option<string>, term: string)
    : Option<seq<ClientConversation>>
  {
    if cs == [] then Some([])
    else
      match SearchNameAsWritten(cs[0], viewer)
      case None => None
      case Some(name) =>
        match FilterAsWritten(cs[1..], viewer, term)
        case None => None
        case Some(rest) => Some((if Includes(Lower(name), Lower(term)) then [cs[0]] else []) + rest)
  }

  /** One group without a name anywhere in the list, and the sidebar cannot
      be drawn, whatever is typed in the search box, even nothing. */
  lemma {:induction false} UnnamedGroupBreaksSearch(cs: seq<ClientConversation>, viewer: Option<string>,
                                                    term: string, k: nat)
    requires k < |cs| && cs[k].isGroup && cs[k].name.None?
    ensures FilterAsWritten(cs, viewer, term).None?
  {
    if k > 0 {
      UnnamedGroupBreaksSearch(cs[1..], viewer, term, k - 1);
    }
  }

  /** The searched title with a missing group name read as "", as the
      direct case already does for a missing participant. */
  function SearchName(c: ClientConversation, viewer: Option<string>): (r: string)
    ensures c.isGroup ==> r == c.name.GetOr("")
    ensures !c.isGroup && r != "" ==> exists p :: p in c.participants && viewer != Some(p.id) && r == p.name
    ensures !c.isGroup && (forall p :: p in c.participants ==> viewer == Some(p.id)) ==> r == ""
  {
    SearchNameAsWritten(c, viewer).GetOr("")
  }

  predicate Matches(c: ClientConversation, viewer: Option<string>, term: string) {
    Includes(Lower(SearchName(c, viewer)), Lower(term))
  }

  /** `cs.filter(keep)`. */
  function FilterBy(cs: seq<ClientConversation>, keep: ClientConversation -> bool): (r: seq<ClientConversation>)
    ensures |r| <= |cs|
  {
    if cs == [] then [] else (if keep(cs[0]) then [cs[0]] else []) + FilterBy(cs[1..], keep)
  }

  lemma {:induction false} FilterByMembers(cs: seq<ClientConversation>, keep: ClientConversation -> bool)
    ensures forall c :: c in FilterBy(cs, keep) <==> c in cs && keep(c)
  {
    if cs != [] {
      FilterByMembers(cs[1..], keep);
      assert cs == [cs[0]] + cs[1..];
    }
  }

  lemma {:induction false} FilterByAppend(a: seq<ClientConversation>, b: seq<ClientConversation>,
                                          keep: ClientConversation -> bool)
    ensures FilterBy(a + b, keep) == FilterBy(a, keep) + FilterBy(b, keep)
  {
    if a != [] {
      assert (a + b)[0] == a[0] && (a + b)[1..] == a[1..] + b;
      FilterByAppend(a[1..], b, keep);
    } else {
      assert a + b == b;
    }
  }

  /** `filteredConversations`. */
  function Filtered(cs: seq<ClientConversation>, viewer: Option<string>, term: string): (r: seq<ClientConversation>)
    ensures |r| <= |cs|
  {
    FilterBy(cs, c => Matches(c, viewer, term))
  }

  /** The search shows exactly the listed conversations whose title
      contains the term, ignoring case. */
  lemma FilteredMembers(cs: seq<ClientConversation>, viewer: Option<string>, term: string)
    ensures forall c :: c in Filtered(cs, viewer, term) <==> c in cs && Matches(c, viewer, term)
  {
    FilterByMembers(cs, c => Matches(c, viewer, term));
  }

  /** Where every group has a name, the corrected search is the one written. */
  lemma {:induction false} FilterAsWrittenWhenNamed(cs: seq<ClientConversation>, viewer: Option<string>, term: string)
    requires forall k :: 0 <= k < |cs| && cs[k].isGroup ==> cs[k].name.Some?
    ensures FilterAsWritten(cs, viewer, term) == Some(Filtered(cs, viewer, term))
  {
    if cs != [] {
      FilterAsWrittenWhenNamed(cs[1..], viewer, term);
    }
  }

  /** The search keeps the list's order: filtering a concatenation is
      concatenating the filtered parts. */
  lemma FilteredAppend(a: seq<ClientConversation>, b: seq<ClientConversation>, viewer: Option<string>, term: string)
    ensures Filtered(a + b, viewer, term) == Filtered(a, viewer, term) + Filtered(b, viewer, term)
  {
    FilterByAppend(a, b, c => Matches(c, viewer, term));
  }

  /** An empty search box shows every conversation. */
  lemma {:induction false} EmptyTermKeepsAll(cs: seq<ClientConversation>, viewer: Option<string>)
    ensures Filtered(cs, viewer, "") == cs
  {
    if cs != [] {
      IncludesEmpty(Lower(SearchName(cs[0], viewer)));
      EmptyTermKeepsAll(cs[1..], viewer);
    }
  }

  /** The direct-message list and the group list. */
  function Directs(fs: seq<ClientConversation>): (r: seq<ClientConversation>)
    ensures forall c :: c in r <==> c in fs && !c.isGroup
  {
    if fs == [] then [] else (if !fs[0].isGroup then [fs[0]] else []) + Directs(fs[1..])
  }

  function Groups(fs: seq<ClientConversation>): (r: seq<ClientConversation>)
    ensures forall c :: c in r <==> c in fs && c.isGroup
  {
    if fs == [] then [] else (if fs[0].isGroup then [fs[0]] else []) + Groups(fs[1..])
  }

  /** Every matching conversation appears in exactly one of the two lists,
      once for each time it is listed. */
  lemma {:induction false} SectionsPartition(fs: seq<ClientConversation>)
    ensures |Directs(fs)| + |Groups(fs)| == |fs|
    ensures multiset(Directs(fs)) + multiset(Groups(fs)) == multiset(fs)
  {
    if fs != [] {
      SectionsPartition(fs[1..]);
      assert fs == [fs[0]] + fs[1..];
    }
  }
}
