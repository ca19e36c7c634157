/** The message index and its groups as mutable objects. */
module Index {
  import opened Messages
  import opened Grouping
  import opened IndexState
  import opened Updating

  class MessageGroup {
    const kind: GroupKind
    const messages: seq<Message>
    const messageCount: int
    const byteCount: int
    const tokenCount: int
    const turnIndex: Option<int>
    var isExcluded: bool
    var excludeReason: string

    constructor (g: Group)
      ensures View() == g
    {
      kind, messages, messageCount := g.kind, g.messages, g.messageCount;
      byteCount, tokenCount, turnIndex := g.byteCount, g.tokenCount, g.turn;
      isExcluded, excludeReason := g.excluded, g.reason;
    }

    function View(): Group
      reads this
    {
      Group(kind, messages, messageCount, byteCount, tokenCount, turnIndex, isExcluded, excludeReason)
    }

    method SetExclusion(reason: string)
      modifies this
      ensures View() == Exclude(old(View()), reason)
    {
      isExcluded, excludeReason := true, reason;
    }

    method Reinclude()
      modifies this
      ensures View() == old(View()).(excluded := false, reason := "")
    {
      isExcluded, excludeReason := false, "";
    }
  }

  function ViewOf(groups: seq<MessageGroup>): (v: seq<Group>)
    reads groups
    ensures |v| == |groups|
    ensures forall i :: 0 <= i < |groups| ==> v[i] == groups[i].View()
  {
    seq(|groups|, i requires 0 <= i < |groups| reads groups => groups[i].View())
  }

  class MessageIndex {
    const measure: Measure
    var groups: seq<MessageGroup>
    var currentTurn: int
    var lastProcessed: Option<Message>

    /** No group object is listed twice. */
    ghost predicate Valid()
      reads this
    {
      forall i, j :: 0 <= i < j < |groups| ==> groups[i] != groups[j]
    }

    function View(): seq<Group>
      reads this, groups
    {
      ViewOf(groups)
    }

    /** An index over given groups; the backward scan stops once both facts are found. */
    constructor Restore(groups: seq<MessageGroup>, measure: Measure)
      ensures this.groups == groups && this.measure == measure
      ensures (forall i, j :: 0 <= i < j < |groups| ==> groups[i] != groups[j]) ==> Valid()
      ensures (lastProcessed, currentTurn) == Scan(ViewOf(groups), None, 0)
    {
      this.groups, this.measure := groups, measure;
      currentTurn, lastProcessed := 0, None;
      new;
      hide Scan;
      ghost var v := ViewOf(groups);
      var i := |groups|;
      assert v[..i] == v;
      ScanNothing();
      while i > 0
        invariant 0 <= i <= |groups| && this.groups == groups && ViewOf(groups) == v
        invariant Scan(v[..i], lastProcessed, currentTurn) == Scan(v, None, 0)
      {
        ScanStep(v, i - 1, lastProcessed, currentTurn);
        i := i - 1;
        var group := groups[i];
        if lastProcessed.None? && group.kind != Summary && |group.messages| > 0 {
          lastProcessed := Some(group.messages[|group.messages| - 1]);
        }
        if group.turnIndex.Some? {
          currentTurn := group.turnIndex.value;
          if lastProcessed.Some? { return; }
        }
      }
    }

    /** A fresh index over the grouping of a message list. */
    constructor Create(messages: seq<Message>, measure: Measure)
      ensures Valid() && this.measure == measure
      ensures forall g :: g in groups ==> fresh(g)
      ensures View() == Parse(measure, messages, 0)
      ensures currentTurn == UserCount(messages) && lastProcessed == Last(messages)
    {
      this.groups, this.measure := [], measure;
      currentTurn, lastProcessed := 0, None;
      new;
      hide Parse, UserCount;
      AppendFromMessages(messages, 0);
      assert messages[0..] == messages;
    }

    /** Groups the messages from `start` on, after the groups already there. */
    method AppendFromMessages(messages: seq<Message>, start: nat)
      requires Valid() && start <= |messages|
      modifies this
      ensures Valid() && old(groups) <= groups
      ensures forall k :: |old(groups)| <= k < |groups| ==> fresh(groups[k])
      ensures View() == old(View()) + Parse(measure, messages[start..], old(currentTurn))
      ensures currentTurn == old(currentTurn) + UserCount(messages[start..])
      ensures lastProcessed == if messages == [] then old(lastProcessed) else Last(messages)
    {
      hide FirstGroup, Parse, UserCount, NewGroup;
      ghost var v0, g0, turn0 := View(), groups, currentTurn;
      ghost var done := [];
      var i := start;
      while i < |messages|
        invariant start <= i <= |messages|
        invariant Valid() && g0 <= groups && (forall k :: |g0| <= k < |groups| ==> fresh(groups[k]))
        invariant View() == v0 + done && lastProcessed == old(lastProcessed)
        invariant Parse(measure, messages[start..], turn0) == done + Parse(measure, messages[i..], currentTurn)
        invariant UserCount(messages[start..]) + turn0 == UserCount(messages[i..]) + currentTurn
      {
        ParseAdvance(measure, messages, start, i, turn0, currentTurn, done);
        ghost var g := NextOf(measure, messages, i, currentTurn);
        var n := AppendNext(messages, i);
        ConcatAssociates(v0, done, [g]);
        done := done + [g];
        i := i + n;
      }
      NothingLeft(measure, messages, currentTurn);
      if |messages| > 0 { lastProcessed := Some(messages[|messages| - 1]); }
    }

    /** Groups the messages at `i`, and tells how many they are. */
    method AppendNext(messages: seq<Message>, i: nat) returns (n: nat)
      requires Valid() && i < |messages|
      modifies this`groups, this`currentTurn
      ensures Valid() && |groups| == |old(groups)| + 1 && old(groups) <= groups && fresh(groups[|old(groups)|])
      ensures View() == old(View()) + [NextOf(measure, messages, i, old(currentTurn))]
      ensures var (kind, m) := FirstGroup(messages[i..]);
        n == m && 1 <= n <= |messages| - i && currentTurn == NextTurn(kind, old(currentTurn))
    {
      hide FirstGroup;
      var kind;
      kind, n := NextGroup(messages, i);
      if kind == UserKind { currentTurn := currentTurn + 1; }
      AddGroup(NewGroup(measure, kind, messages[i..i + n], if kind == SystemKind then None else Some(currentTurn)));
    }

    method AddGroup(g: Group)
      requires Valid()
      modifies this`groups
      ensures Valid() && |groups| == |old(groups)| + 1 && old(groups) <= groups && fresh(groups[|old(groups)|])
      ensures View() == old(View()) + [g]
    {
      var group := new MessageGroup(g);
      groups := groups + [group];
    }

    /** Creates a group and inserts it at the given position. */
    method InsertGroup(at: nat, g: Group)
      requires Valid() && at <= |groups|
      modifies this`groups
      ensures Valid() && exists o: MessageGroup ::
                fresh(o) && groups == old(groups)[..at] + [o] + old(groups)[at..]
      ensures View() == old(View())[..at] + [g] + old(View())[at..]
    {
      var group := new MessageGroup(g);
      groups := groups[..at] + [group] + groups[at..];
    }

    /** Excludes one group in place. */
    method ExcludeAt(i: nat, reason: string)
      requires Valid() && i < |groups|
      modifies groups[i]
      ensures View() == old(View())[i := Exclude(old(View())[i], reason)]
    {
      groups[i].SetExclusion(reason);
    }

    /** The end of the prefix of messages that is already grouped, or -1 to start over. */
    method ProcessedPrefix(messages: seq<Message>) returns (k: int)
      ensures k == Boundary(View(), lastProcessed, messages)
    {
      var processed := IncludedRawMessageCount();
      var found := -1;
      if lastProcessed.Some? {
        var expected := processed - 1;
        if 0 <= expected < |messages| && MessageContentEqual(messages[expected], lastProcessed.value) {
          found := expected;
        } else {
          found := FindLast(messages, lastProcessed.value);
        }
      }
      return if found < 0 || found + 1 < processed then -1 else found + 1;
    }

    /** Brings the index up to date with a message list that may have grown or been replaced. */
    method Update(messages: seq<Message>)
      requires Valid()
      modifies this
      ensures Valid()
      ensures forall g :: g in groups ==> g in old(groups) || fresh(g)
      ensures (View(), currentTurn, lastProcessed)
           == Updated(measure, old(View()), old(currentTurn), old(lastProcessed), messages)
    {
      hide Parse, UserCount, Boundary;
      if |messages| == 0 {
        groups, currentTurn, lastProcessed := [], 0, None;
        return;
      }
      var k := ProcessedPrefix(messages);
      BoundaryRange(View(), lastProcessed, messages);
      if k < 0 {
        groups, currentTurn, lastProcessed := [], 0, None;
        k := 0;
        assert messages[0..] == messages;
        assert [] + Parse(measure, messages, 0) == Parse(measure, messages, 0);
      }
      AppendFromMessages(messages, k);
    }

    method IncludedRawMessageCount() returns (total: int)
      ensures total == IncludedRawMessages(View())
    {
      total := 0;
      for i := 0 to |groups|
        invariant total == IncludedRawMessages(View()[..i])
      {
        assert View()[..i + 1][..i] == View()[..i];
        if IncludedRaw(groups[i].View()) { total := total + groups[i].messageCount; }
      }
      assert View()[..|groups|] == View();
    }

    method IncludedNonSystemGroupCount() returns (total: nat)
      ensures total == NonSystemCount(View())
    {
      total := 0;
      for i := 0 to |groups|
        invariant total == NonSystemCount(View()[..i])
      {
        assert View()[..i + 1][..i] == View()[..i];
        if IncludedNonSystem(groups[i].View()) { total := total + 1; }
      }
      assert View()[..|groups|] == View();
    }

    method IncludedTurnCount() returns (total: nat)
      ensures total == |IncludedTurns(View())|
    {
      var seen := {};
      for i := 0 to |groups|
        invariant seen == IncludedTurns(View()[..i])
      {
        var g := groups[i];
        assert View()[..i + 1] == View()[..i] + [g.View()];
        if !g.isExcluded && g.turnIndex.Some? && g.turnIndex.value > 0 { seen := seen + {g.turnIndex.value}; }
      }
      assert View()[..|groups|] == View();
      total := |seen|;
    }

    /** The messages of the groups that are not excluded. */
    method IncludedMessages() returns (messages: seq<Message>)
      ensures messages == Project(View(), Included)
    {
      messages := [];
      assert Project([], Included) == [];
      hide Project;
      for i := 0 to |groups|
        invariant messages + Project(View()[i..], Included) == Project(View(), Included)
      {
        ProjectsFirst(View()[i..], Included);
        assert View()[i..][1..] == View()[i + 1..];
        if !groups[i].isExcluded { messages := messages + groups[i].messages; }
      }
    }
  }

  lemma ScanNothing()
    ensures forall last, turn :: Scan([], last, turn) == (last, turn)
  {
  }

  lemma ScanStep(v: seq<Group>, i: nat, last: Option<Message>, turn: int)
    requires i < |v|
    ensures var g := v[i];
      var last' := if last.None? && IsRaw(g) && g.messages != [] then Some(g.messages[|g.messages| - 1]) else last;
      Scan(v[..i + 1], last, turn)
      == if g.turn.None? then Scan(v[..i], last', turn)
         else if last'.Some? then (last', g.turn.value)
         else Scan(v[..i], last', g.turn.value)
  {
    assert v[..i + 1][..i] == v[..i];
  }

  /** The group that starts at position `i`. */
  function NextOf(measure: Measure, messages: seq<Message>, i: nat, turn: int): Group
    requires i < |messages|
  {
    var (kind, n) := FirstGroup(messages[i..]);
    NewGroup(measure, kind, messages[i..i + n], GroupTurn(kind, turn))
  }

  /** One group further into the list, with the groups `done` so far. */
  lemma ParseAdvance(measure: Measure, messages: seq<Message>, start: nat, i: nat, turn0: int, turn: int, done: seq<Group>)
    requires start <= i < |messages|
    requires Parse(measure, messages[start..], turn0) == done + Parse(measure, messages[i..], turn)
    ensures var (kind, n) := FirstGroup(messages[i..]);
      var next := NextTurn(kind, turn);
      && Parse(measure, messages[start..], turn0) == done + [NextOf(measure, messages, i, turn)] + Parse(measure, messages[i + n..], next)
      && turn + UserCount(messages[i..]) == next + UserCount(messages[i + n..])
  {
    hide FirstGroup, Parse, UserCount;
    var rest := messages[i..];
    var (kind, n) := FirstGroup(rest);
    ParseStep(measure, rest, turn);
    FirstGroupUsers(rest);
    assert rest[..n] == messages[i..i + n] && rest[n..] == messages[i + n..];
    ConcatAssociates(done, [NewGroup(measure, kind, messages[i..i + n], GroupTurn(kind, turn))],
                     Parse(measure, messages[i + n..], NextTurn(kind, turn)));
  }

  lemma NothingLeft(measure: Measure, messages: seq<Message>, turn: int)
    ensures Parse(measure, messages[|messages|..], turn) == [] && UserCount(messages[|messages|..]) == 0
  {
  }

  method FindLast(messages: seq<Message>, m: Message) returns (found: int)
    ensures found == LastMatch(messages, m)
  {
    var i := |messages|;
    assert messages[..i] == messages;
    while i > 0
      invariant 0 <= i <= |messages|
      invariant LastMatch(messages, m) == LastMatch(messages[..i], m)
    {
      i := i - 1;
      assert messages[..i + 1][..i] == messages[..i];
      if MessageContentEqual(messages[i], m) { return i; }
    }
    return -1;
  }

  /** The lookahead step of grouping: kind and length of the group at position `i`. */
  method NextGroup(messages: seq<Message>, i: nat) returns (kind: GroupKind, n: nat)
    requires i < |messages|
    ensures (kind, n) == FirstGroup(messages[i..])
    ensures 1 <= n <= |messages| - i
  {
    var m := messages[i];
    match m.role
    case System => return SystemKind, 1;
    case User => return UserKind, 1;
    case Assistant =>
      if HasToolCalls(m) {
        var j := SkipFollowers(messages, i + 1);
        assert messages[i..][1..] == messages[i + 1..];
        return ToolCall, j - i;
      } else if m.summaryFlag {
        return Summary, 1;
      } else if HasOnlyReasoning(m) {
        var lookahead := SkipReasoning(messages, i);
        if lookahead < |messages| && IsToolCaller(messages[lookahead]) {
          var j := SkipFollowers(messages, lookahead + 1);
          assert messages[i..][lookahead - i + 1..] == messages[lookahead + 1..];
          return ToolCall, j - i;
        }
        return AssistantText, 1;
      }
      return AssistantText, 1;
    case _ => return AssistantText, 1;
  }

  method SkipFollowers(messages: seq<Message>, i: nat) returns (j: nat)
    requires i <= |messages|
    ensures i <= j <= |messages| && j == i + FollowerRun(messages[i..])
  {
    j := i;
    while j < |messages| && IsFollower(messages[j])
      invariant i <= j <= |messages|
      invariant j + FollowerRun(messages[j..]) == i + FollowerRun(messages[i..])
    {
      assert messages[j..][1..] == messages[j + 1..];
      j := j + 1;
    }
  }

  method SkipReasoning(messages: seq<Message>, i: nat) returns (j: nat)
    requires i <= |messages|
    ensures i <= j <= |messages| && j == i + ReasoningRun(messages[i..])
  {
    j := i;
    while j < |messages| && IsBareReasoning(messages[j])
      invariant i <= j <= |messages|
      invariant j + ReasoningRun(messages[j..]) == i + ReasoningRun(messages[i..])
    {
      assert messages[j..][1..] == messages[j + 1..];
      j := j + 1;
    }
  }
}
