/** The grouping of a message list is the only one that follows the rules. */
module Uniqueness {
  import opened Messages
  import opened Grouping
  import opened Updating

  /** A fresh group records what it holds and the sizes that the counters give. */
  predicate Records(measure: Measure, g: Group) {
    && g.messages != [] && g.messageCount == |g.messages|
    && g.byteCount == measure(g.messages).bytes && g.tokenCount == measure(g.messages).tokens
    && !g.excluded && g.reason == ""
  }

  /** A tool call is atomic and does not begin with a summary that calls nothing. Every other group
      is one message, and that tells its kind. */
  ghost predicate KindIsRight(g: Group)
    requires g.messages != []
  {
    var m := g.messages[0];
    if g.kind.ToolCall? then IsAtomicToolCall(g.messages) && (IsToolCaller(m) || !m.summaryFlag)
    else
      && |g.messages| == 1 && !IsToolCaller(m)
      && (g.kind.SystemKind? <==> m.role.System?)
      && (g.kind.UserKind? <==> m.role.User?)
      && (g.kind.Summary? <==> m.role.Assistant? && m.summaryFlag)
  }

  /** Bare reasoning alone up to a message that calls a tool. */
  ghost predicate CallAhead(ms: seq<Message>) {
    exists k: nat :: k < |ms| && IsToolCaller(ms[k]) && forall j :: 0 <= j < k ==> IsBareReasoning(ms[j])
  }

  /** A group in its place: `turn` user messages have come so far, and `behind` is what follows. A
      tool call takes in all that it can, and reasoning stays alone only where it leads to none. */
  ghost predicate Fits(measure: Measure, g: Group, turn: int, behind: seq<Message>) {
    && Records(measure, g) && KindIsRight(g)
    && g.turn == (if g.kind.SystemKind? then None else Some(turn))
    && (g.kind.ToolCall? ==> behind == [] || !IsFollower(behind[0]))
    && (g.kind.AssistantText? && IsBareReasoning(g.messages[0]) ==> !CallAhead(behind))
  }

  /** The rules for groups of a list, the first of them after `turn` user messages. */
  ghost predicate IsGrouping(measure: Measure, ms: seq<Message>, turn: int, p: seq<Group>) {
    && Flatten(p) == ms
    && forall i: nat :: i < |p| ==> FitsAt(measure, turn, p, i)
  }

  ghost predicate FitsAt(measure: Measure, turn: int, p: seq<Group>, i: nat)
    requires i < |p|
  {
    Fits(measure, p[i], turn + UserCount(Flatten(p[..i + 1])), Flatten(p[i + 1..]))
  }

  /** An assistant message calls a tool if it holds a function call, and is bare reasoning if it holds
      nothing but reasoning, or nothing. */
  lemma AssistantMessages(m: Message)
    ensures IsToolCaller(m) <==> m.role.Assistant? && exists i :: 0 <= i < |m.contents| && m.contents[i].FunctionCall?
    ensures IsBareReasoning(m) <==> m.role.Assistant? && forall i :: 0 <= i < |m.contents| ==> m.contents[i].Reasoning?
    ensures IsFollower(m) <==> m.role.Tool? || IsBareReasoning(m)
  {
    if HasToolCalls(m) {
      var c :| c in m.contents && c.FunctionCall?;
      var i :| 0 <= i < |m.contents| && m.contents[i] == c;
    }
    if i :| 0 <= i < |m.contents| && m.contents[i].FunctionCall? { assert m.contents[i] in m.contents; }
    if forall i :: 0 <= i < |m.contents| ==> m.contents[i].Reasoning? { assert HasOnlyReasoning(m); }
    if HasOnlyReasoning(m) {
      forall i | 0 <= i < |m.contents| ensures m.contents[i].Reasoning? { assert m.contents[i] in m.contents; }
    }
  }

  // ---------------------------------------------------------------- one group

  lemma CallAheadIs(ms: seq<Message>)
    ensures CallAhead(ms) <==> LeadsToToolCall(ms)
  {
    ReasoningRunMaximal(ms);
    var r := ReasoningRun(ms);
    if k: nat :| k < |ms| && IsToolCaller(ms[k]) && forall j :: 0 <= j < k ==> IsBareReasoning(ms[j]) {
      if IsBareReasoning(ms[k]) { BareReasoningCallsNothing(ms[k]); }
      assert r == k;
    }
  }

  lemma FollowersEnd(ms: seq<Message>, n: nat)
    requires n <= |ms| && (forall i :: 0 <= i < n ==> IsFollower(ms[i])) && (n < |ms| ==> !IsFollower(ms[n]))
    ensures FollowerRun(ms) == n
  {
    FollowerRunMaximal(ms);
  }

  lemma ReasoningEnds(ms: seq<Message>, n: nat)
    requires n <= |ms| && (forall i :: 0 <= i < n ==> IsBareReasoning(ms[i])) && (n < |ms| ==> !IsBareReasoning(ms[n]))
    ensures ReasoningRun(ms) == n
  {
    ReasoningRunMaximal(ms);
  }

  lemma NotBoth(m: Message)
    ensures IsBareReasoning(m) ==> !IsToolCaller(m)
  {
    if IsBareReasoning(m) { BareReasoningCallsNothing(m); }
  }

  /** A tool call that fits is the one that the lookahead finds. */
  lemma CallIsFirst(measure: Measure, g: Group, turn: int, behind: seq<Message>)
    requires Fits(measure, g, turn, behind) && g.kind.ToolCall?
    ensures FirstGroup(g.messages + behind) == (ToolCall, |g.messages|)
  {
    KindOpens(measure, g, turn, behind);
    var own, ms := g.messages, g.messages + behind;
    var c: nat :| c < |own| && IsToolCaller(own[c])
      && (forall i :: 0 <= i < c ==> IsBareReasoning(own[i])) && (forall i :: c < i < |own| ==> IsFollower(own[i]));
    hide *;
    CallEndsThere(own, behind, c);
    if c == 0 {
      CallerIsFirst(ms);
    } else {
      assert forall i :: 0 <= i < c ==> ms[i] == own[i];
      NotBoth(own[0]);
      ReasoningLeadsTo(ms, c);
    }
  }

  lemma KindOpens(measure: Measure, g: Group, turn: int, behind: seq<Message>)
    requires Fits(measure, g, turn, behind) && g.kind.ToolCall?
    ensures IsAtomicToolCall(g.messages) && g.messages != [] && (IsToolCaller(g.messages[0]) || !g.messages[0].summaryFlag)
    ensures behind == [] || !IsFollower(behind[0])
  {
  }

  /** The caller of a tool call, at its place among the messages of the group and behind them. */
  lemma CallEndsThere(own: seq<Message>, behind: seq<Message>, c: nat)
    requires c < |own| && (forall i :: c < i < |own| ==> IsFollower(own[i])) && (behind == [] || !IsFollower(behind[0]))
    ensures (own + behind)[c] == own[c] && CallGroup(own + behind, c) == (ToolCall, |own|)
  {
    var ms := own + behind;
    var tail, n := ms[c + 1..], |own| - c - 1;
    assert forall i :: 0 <= i < n ==> tail[i] == own[c + 1 + i];
    assert n < |tail| ==> tail[n] == behind[0];
    hide IsFollower;
    FollowersEnd(tail, n);
  }

  lemma ReasoningLeadsTo(ms: seq<Message>, c: nat)
    requires 0 < c < |ms| && IsToolCaller(ms[c]) && (forall i :: 0 <= i < c ==> IsBareReasoning(ms[i])) && !ms[0].summaryFlag
    ensures FirstGroup(ms) == CallGroup(ms, c)
  {
    NotBoth(ms[0]);
    NotBoth(ms[c]);
    ReasoningEnds(ms, c);
    FirstIsReasoning(ms);
    hide IsToolCaller, ReasoningRun, CallGroup;
    ReasoningGroupIs(ms);
  }

  lemma CallerIsFirst(ms: seq<Message>)
    requires ms != [] && IsToolCaller(ms[0])
    ensures FirstGroup(ms) == CallGroup(ms, 0)
  {
    hide CallGroup;
  }

  /** A single message that fits is one the lookahead leaves alone, with that kind. */
  lemma SingleIsFirst(measure: Measure, g: Group, turn: int, behind: seq<Message>)
    requires Fits(measure, g, turn, behind) && !g.kind.ToolCall?
    ensures FirstGroup(g.messages + behind) == (g.kind, 1)
  {
    var ms, m := g.messages + behind, g.messages[0];
    assert ms[0] == m && ms[1..] == behind;
    CallAheadIs(behind);
    hide IsToolCaller, IsBareReasoning;
    if g.kind.AssistantText? && IsBareReasoning(m) {
      assert ReasoningRun(ms) == 1 + ReasoningRun(behind);
      var r := ReasoningRun(behind);
      assert r < |behind| ==> ms[r + 1] == behind[r];
    }
  }

  lemma UsersOf(g: Group)
    requires g.messages != [] && KindIsRight(g)
    ensures UserCount(g.messages) == if g.kind.UserKind? then 1 else 0
  {
    if g.kind.ToolCall? {
      NoUsers(g.messages);
    } else {
      assert g.messages == [g.messages[0]] && UserCount([g.messages[0]]) == if g.messages[0].role.User? then 1 else 0;
    }
  }

  /** The first group of a list by the rules is the first one of its grouping. */
  lemma FirstFits(measure: Measure, g: Group, turn: int, behind: seq<Message>)
    requires Fits(measure, g, turn + UserCount(g.messages), behind)
    ensures FirstGroup(g.messages + behind) == (g.kind, |g.messages|)
    ensures NextTurn(g.kind, turn) == turn + UserCount(g.messages)
    ensures g == NewGroup(measure, g.kind, g.messages, GroupTurn(g.kind, turn))
  {
    UsersOf(g);
    if g.kind.ToolCall? {
      CallIsFirst(measure, g, turn + UserCount(g.messages), behind);
    } else {
      SingleIsFirst(measure, g, turn + UserCount(g.messages), behind);
    }
    hide FirstGroup, UserCount, IsToolCaller, CallAhead;
  }

  /** And the first one of the grouping fits. */
  lemma NewFits(measure: Measure, ms: seq<Message>, turn: int)
    requires ms != []
    ensures var (kind, n) := FirstGroup(ms);
      Fits(measure, NewGroup(measure, kind, ms[..n], GroupTurn(kind, turn)), turn + UserCount(ms[..n]), ms[n..])
  {
    var (kind, n) := FirstGroup(ms);
    var g := NewGroup(measure, kind, ms[..n], GroupTurn(kind, turn));
    FirstGroupShape(ms);
    assert g.messages[0] == ms[0];
    CallAheadIs(ms[1..]);
    if kind.AssistantText? && IsBareReasoning(ms[0]) {
      assert ReasoningRun(ms) == 1 + ReasoningRun(ms[1..]);
      var r := ReasoningRun(ms[1..]);
      assert r < |ms[1..]| ==> ms[r + 1] == ms[1..][r];
    }
    assert KindIsRight(g) by { hide CallAhead, LeadsToToolCall; }
    UsersOf(g);
    hide FirstGroup, UserCount, IsToolCaller, CallAhead, KindIsRight;
  }

  // ---------------------------------------------------------------- the whole list

  /** The rules, group by group. */
  lemma GroupingStep(measure: Measure, turn: int, g: Group, rest: seq<Group>)
    ensures var p, behind, next := [g] + rest, Flatten(rest), turn + UserCount(g.messages);
      IsGrouping(measure, g.messages + behind, turn, p) <==> Fits(measure, g, next, behind) && IsGrouping(measure, behind, next, rest)
  {
    hide *;
    var p, behind, next := [g] + rest, Flatten(rest), turn + UserCount(g.messages);
    FlattenStep(p);
    assert p[1..] == rest && p[0] == g;
    FitsFirst(measure, turn, g, rest);
    GroupingIs(measure, g.messages + behind, turn, p);
    GroupingIs(measure, behind, next, rest);
    if IsGrouping(measure, g.messages + behind, turn, p) {
      forall i: nat | i < |rest| ensures FitsAt(measure, next, rest, i) {
        FitsLater(measure, turn, g, rest, i);
        assert FitsAt(measure, turn, p, i + 1);
      }
    }
    if Fits(measure, g, next, behind) && IsGrouping(measure, behind, next, rest) {
      forall i: nat | i < |p| ensures FitsAt(measure, turn, p, i) {
        if i > 0 { FitsLater(measure, turn, g, rest, i - 1); }
      }
    }
  }

  lemma GroupingIs(measure: Measure, ms: seq<Message>, turn: int, p: seq<Group>)
    ensures IsGrouping(measure, ms, turn, p) <==> Flatten(p) == ms && forall i: nat :: i < |p| ==> FitsAt(measure, turn, p, i)
  {
    hide Fits, UserCount, Flatten;
  }

  lemma FitsFirst(measure: Measure, turn: int, g: Group, rest: seq<Group>)
    ensures FitsAt(measure, turn, [g] + rest, 0) <==> Fits(measure, g, turn + UserCount(g.messages), Flatten(rest))
  {
    hide Fits, UserCount;
    var p := [g] + rest;
    assert p[..0 + 1] == [g] && p[0 + 1..] == rest;
    FlattenStep([g]);
    FlattenNothing();
    hide Flatten;
    assert Flatten([g]) == g.messages;
  }

  lemma FitsLater(measure: Measure, turn: int, g: Group, rest: seq<Group>, i: nat)
    requires i < |rest|
    ensures FitsAt(measure, turn, [g] + rest, i + 1) <==> FitsAt(measure, turn + UserCount(g.messages), rest, i)
  {
    hide Fits, UserCount, Flatten;
    var p := [g] + rest;
    assert p[i + 1..][1..] == rest[i + 1..] && p[i + 1 + 1..] == rest[i + 1..] && p[..i + 1 + 1] == [g] + rest[..i + 1];
    FlattenStep([g] + rest[..i + 1]);
    assert ([g] + rest[..i + 1])[1..] == rest[..i + 1];
    UserCountConcat(g.messages, Flatten(rest[..i + 1]));
  }

  /** The grouping of a list follows the rules, and it is the only one that does. */
  lemma {:induction false} OnlyGrouping(measure: Measure, ms: seq<Message>, turn: int, p: seq<Group>)
    ensures IsGrouping(measure, ms, turn, p) <==> p == Parse(measure, ms, turn)
    decreases |p|
  {
    hide *;
    ParseIsGrouping(measure, ms, turn);
    GroupingIs(measure, ms, turn, p);
    if p == [] {
      FlattenNothing();
      if ms == [] { NothingGrouped(measure, turn); } else { ParseStep(measure, ms, turn); }
    } else {
      var g, rest := p[0], p[1..];
      var behind, next := Flatten(rest), turn + UserCount(g.messages);
      assert p == [g] + rest;
      FlattenStep(p);
      if IsGrouping(measure, ms, turn, p) {
        GroupingStep(measure, turn, g, rest);
        OnlyGrouping(measure, behind, next, rest);
        FirstFits(measure, g, turn, behind);
        assert ms[..|g.messages|] == g.messages && ms[|g.messages|..] == behind;
        assert ms != [] by { FitsHolds(measure, g, next, behind); }
        ParseStep(measure, ms, turn);
      }
    }
  }

  lemma FitsHolds(measure: Measure, g: Group, turn: int, behind: seq<Message>)
    requires Fits(measure, g, turn, behind)
    ensures g.messages != []
  {
  }

  lemma {:induction false} ParseIsGrouping(measure: Measure, ms: seq<Message>, turn: int)
    ensures IsGrouping(measure, ms, turn, Parse(measure, ms, turn))
    decreases |ms|
  {
    if ms != [] {
      hide IsGrouping, Fits, UserCount;
      var (kind, n) := FirstGroup(ms);
      var g, next := NewGroup(measure, kind, ms[..n], GroupTurn(kind, turn)), NextTurn(kind, turn);
      var rest := Parse(measure, ms[n..], next);
      NewFits(measure, ms, turn);
      FirstGroupUsers(ms);
      assert ms == ms[..n] + ms[n..];
      UserCountConcat(ms[..n], ms[n..]);
      ParseIsGrouping(measure, ms[n..], next);
      ParsePartitions(measure, ms[n..], next);
      ParseStep(measure, ms, turn);
      hide FirstGroup, Parse, Flatten;
      assert next == turn + UserCount(g.messages);
      GroupingStep(measure, turn, g, rest);
    }
  }
}
