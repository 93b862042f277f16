/** The typing indicator of the group chat page: the names of the members
    typing, kept in the order they started, one shared 3-second timer, and
    the line shown under the messages. */
module GroupChat {
  import opened Common

  /** The `typing` event the server relays to the rest of the room. */
  datatype TypingEvent = TypingEvent(conversationId: string, userName: Option<string>, isTyping: bool)

  /** The name shown for the event's sender. */
  function Typer(e: TypingEvent): string {
    e.userName.GetOr("Someone")
  }

  /** `Set.prototype.add` on an insertion-ordered set. */
  function Added(s: seq<string>, x: string): (r: seq<string>)
    ensures forall y :: y in r <==> y in s || y == x
    ensures NoDup(s) ==> NoDup(r)
    ensures x in s ==> r == s
    ensures x !in s ==> r == s + [x]
  {
    if x in s then s else s + [x]
  }

  /** `Set.prototype.delete`: the others keep their order. */
  function Removed(s: seq<string>, x: string): (r: seq<string>)
    ensures forall y :: y in r <==> y in s && y != x
    ensures |r| <= |s|
    ensures NoDup(s) ==> NoDup(r)
    ensures x !in s ==> r == s
  {
    if s == [] then []
    else
      var rest := Removed(s[1..], x);
      assert NoDup(s) ==> NoDup(s[1..]) by {
        if NoDup(s) {
          forall i, j | 0 <= i < j < |s[1..]| ensures s[1..][i] != s[1..][j] {
            assert s[1..][i] == s[i + 1] && s[1..][j] == s[j + 1];
          }
        }
      }
      assert NoDup(s) ==> s[0] !in s[1..];
      if s[0] == x then rest
      else
        assert NoDup([s[0]] + rest) <== NoDup(rest) && s[0] !in rest by {
          if NoDup(rest) && s[0] !in rest {
            var t := [s[0]] + rest;
            forall i, j | 0 <= i < j < |t| ensures t[i] != t[j] {
              if i == 0 { assert t[j] == rest[j - 1]; } else { assert t[i] == rest[i - 1] && t[j] == rest[j - 1]; }
            }
          }
        }
        [s[0]] + rest
  }

  /** The names after one event arrives for the page showing `groupId`:
      events of other conversations change nothing. Whether the sender
      started or stopped typing is not looked at. */
  function AfterEvent(typers: seq<string>, groupId: string, e: TypingEvent): seq<string> {
    if e.conversationId == groupId then Added(typers, Typer(e)) else typers
  }

  /** A stop-typing event shows its sender as typing, exactly as a
      start-typing event does. */
  lemma StopLooksLikeStart(typers: seq<string>, groupId: string, e: TypingEvent)
    requires e.conversationId == groupId
    ensures AfterEvent(typers, groupId, e.(isTyping := false)) == AfterEvent(typers, groupId, e.(isTyping := true))
    ensures Typer(e) in AfterEvent(typers, groupId, e.(isTyping := false))
  {
  }

  /** `typingMessage`. */
  function TypingMessage(typers: seq<string>): (r: Option<string>)
    ensures r.None? <==> typers == []
  {
    if |typers| == 0 then None
    else if |typers| == 1 then Some(typers[0] + " is typing...")
    else if |typers| == 2 then Some(typers[0] + " and " + typers[1] + " are typing...")
    else Some("Several people are typing...")
  }

  /** Up to two names are all shown, in the order they started typing;
      from three on, the line names nobody and is the same for any group. */
  lemma TypingMessageNames(typers: seq<string>, others: seq<string>)
    ensures 1 <= |typers| <= 2 ==>
      OccursAt(TypingMessage(typers).value, typers[0], 0)
    ensures |typers| == 2 ==>
      OccursAt(TypingMessage(typers).value, typers[1], |typers[0]| + 5)
    ensures |typers| >= 3 && |others| >= 3 ==> TypingMessage(typers) == TypingMessage(others)
  {
    if |typers| == 1 {
      assert (typers[0] + " is typing...")[..|typers[0]|] == typers[0];
    } else if |typers| == 2 {
      var m := typers[0] + " and " + typers[1] + " are typing...";
      assert m[..|typers[0]|] == typers[0];
      assert m[|typers[0]| + 5..|typers[0]| + 5 + |typers[1]|] == typers[1];
    }
  }

  class TypingPanel {
    /** The `:groupId` of the current route. The same component instance
        serves every group route, so this changes without a remount. */
    var groupId: string
    /** `typingUsers`. */
    var typers: seq<string>
    /** Whose removal the one pending timeout will do, if one is pending. */
    var pending: Option<string>

    ghost predicate Valid()
      reads this`typers
    {
      NoDup(typers)
    }

    constructor(groupId: string)
      ensures this.groupId == groupId && typers == [] && pending == None && Valid()
    {
      this.groupId := groupId;
      typers, pending := [], None;
    }

    /** `handleTyping`: the sender is added and the previous timeout is
        replaced by one that will remove this sender only. */
    method OnTyping(e: TypingEvent)
      modifies this`typers, this`pending
      ensures typers == AfterEvent(old(typers), groupId, e)
      ensures pending == if e.conversationId == groupId then Some(Typer(e)) else old(pending)
      ensures old(Valid()) ==> Valid()
    {
      if e.conversationId == groupId {
        var name := Typer(e);
        typers := Added(typers, name);
        pending := Some(name);
      }
    }

    /** The pending timeout fires. */
    method TimerFires()
      modifies this`typers, this`pending
      ensures old(pending).None? ==> typers == old(typers)
      ensures old(pending).Some? ==> typers == Removed(old(typers), old(pending).value)
      ensures pending == None
      ensures old(Valid()) ==> Valid()
    {
      if pending.Some? {
        typers := Removed(typers, pending.value);
      }
      pending := None;
    }

    /** The effect's cleanup, on leaving the page: the timeout is cleared. */
    method Leave()
      modifies this`pending
      ensures pending == None
    {
      pending := None;
    }

    /** Navigating to another group route: the effect for the old id is
        cleaned up and re-run for the new one, but the component is not
        remounted, so the typing names stay. */
    method Rebind(g: string)
      modifies this`groupId, this`pending
      ensures groupId == g && typers == old(typers) && pending == None
      ensures old(Valid()) ==> Valid()
    {
      Leave();
      groupId := g;
    }
  }

  /** A member of group `a` starts typing and the user moves to group `b`
      before the timeout fires: the cleared timeout never removes the name,
      so group `b` shows it as typing, after every timer has fired. */
  method TyperCarriesOver(a: string, b: string, name: string) returns (shown: seq<string>, line: Option<string>)
    requires a != b
    ensures shown == [name]
    ensures line == Some(name + " is typing...")
  {
    var panel := new TypingPanel(a);
    panel.OnTyping(TypingEvent(a, Some(name), true));
    panel.Rebind(b);
    panel.TimerFires();
    assert panel.groupId == b;
    shown := panel.typers;
    line := TypingMessage(shown);
  }

  /** Two members start typing within three seconds: only the second one's
      timeout survives, so the first stays listed as typing after neither
      sends another event and every timer has fired. */
  method StaleTyper(groupId: string, a: string, b: string) returns (shown: seq<string>, line: Option<string>)
    requires a != b
    ensures shown == [a]
    ensures line == Some(a + " is typing...")
  {
    var panel := new TypingPanel(groupId);
    panel.OnTyping(TypingEvent(groupId, Some(a), true));
    panel.OnTyping(TypingEvent(groupId, Some(b), true));
    panel.TimerFires();
    panel.TimerFires();
    shown := panel.typers;
    line := TypingMessage(shown);
  }
}
