/** Message groups as values, and the grouping of a flat message list. */
module Grouping {
  import opened Messages

  datatype GroupKind = SystemKind | UserKind | AssistantText | ToolCall | Summary

  /** What a message group records. `reason` is empty when none was given. */
  datatype Group = Group(
    kind: GroupKind, messages: seq<Message>, messageCount: int, byteCount: int, tokenCount: int,
    turn: Option<int>, excluded: bool, reason: string)

  datatype Sizes = Sizes(bytes: int, tokens: int)

  /** Byte and token counting, kept abstract. */
  type Measure = seq<Message> -> Sizes

  function NewGroup(measure: Measure, kind: GroupKind, messages: seq<Message>, turn: Option<int>): Group {
    Group(kind, messages, |messages|, measure(messages).bytes, measure(messages).tokens, turn, false, "")
  }

  // ---------------------------------------------------------------- grouping

  predicate IsFollower(m: Message) {
    m.role.Tool? || IsBareReasoning(m)
  }

  /** Length of the longest prefix of messages that a preceding tool call absorbs. */
  function FollowerRun(ms: seq<Message>): (n: nat)
    ensures n <= |ms|
  {
    if ms == [] || !IsFollower(ms[0]) then 0 else 1 + FollowerRun(ms[1..])
  }

  /** Length of the longest prefix of assistant messages that hold nothing but reasoning. */
  function ReasoningRun(ms: seq<Message>): (n: nat)
    ensures n <= |ms|
  {
    if ms == [] || !IsBareReasoning(ms[0]) then 0 else 1 + ReasoningRun(ms[1..])
  }

  lemma {:induction false} FollowerRunMaximal(ms: seq<Message>)
    ensures var n := FollowerRun(ms);
      && (forall i :: 0 <= i < n ==> IsFollower(ms[i]))
      && (n < |ms| ==> !IsFollower(ms[n]))
  {
    if ms != [] && IsFollower(ms[0]) { FollowerRunMaximal(ms[1..]); }
  }

  lemma {:induction false} ReasoningRunMaximal(ms: seq<Message>)
    ensures var n := ReasoningRun(ms);
      && (forall i :: 0 <= i < n ==> IsBareReasoning(ms[i]))
      && (n < |ms| ==> !IsBareReasoning(ms[n]))
  {
    if ms != [] && IsBareReasoning(ms[0]) { ReasoningRunMaximal(ms[1..]); }
  }

  /** The kind of the group that starts a message list, and how many messages it takes. */
  function FirstGroup(ms: seq<Message>): (r: (GroupKind, nat))
    requires ms != []
    ensures 1 <= r.1 <= |ms|
  {
    var m := ms[0];
    if m.role.System? then (SystemKind, 1)
    else if m.role.User? then (UserKind, 1)
    else if IsToolCaller(m) then CallGroup(ms, 0)
    else if m.role.Assistant? && m.summaryFlag then (Summary, 1)
    else if IsBareReasoning(m) then ReasoningGroup(ms)
    else (AssistantText, 1)
  }

  /** Bare reasoning belongs to the tool call it leads to, if any. */
  function ReasoningGroup(ms: seq<Message>): (r: (GroupKind, nat))
    requires ms != []
    ensures 1 <= r.1 <= |ms|
  {
    var r := ReasoningRun(ms);
    if r < |ms| && IsToolCaller(ms[r]) then CallGroup(ms, r) else (AssistantText, 1)
  }

  /** A tool call takes in everything up to its caller and what follows that. */
  function CallGroup(ms: seq<Message>, c: nat): (r: (GroupKind, nat))
    requires c < |ms|
    ensures 1 <= r.1 <= |ms|
  {
    (ToolCall, c + 1 + FollowerRun(ms[c + 1..]))
  }

  function NextTurn(kind: GroupKind, turn: int): int {
    if kind.UserKind? then turn + 1 else turn
  }

  function GroupTurn(kind: GroupKind, turn: int): Option<int> {
    if kind.SystemKind? then None else Some(NextTurn(kind, turn))
  }

  /** The groups of a message list that continues after `turn` user turns. */
  function Parse(measure: Measure, ms: seq<Message>, turn: int): seq<Group>
    decreases |ms|
  {
    if ms == [] then [] else
      var (kind, n) := FirstGroup(ms);
      [NewGroup(measure, kind, ms[..n], GroupTurn(kind, turn))] + Parse(measure, ms[n..], NextTurn(kind, turn))
  }

  function UserCount(ms: seq<Message>): nat {
    if ms == [] then 0 else (if ms[0].role.User? then 1 else 0) + UserCount(ms[1..])
  }

  function Flatten(v: seq<Group>): seq<Message> {
    if v == [] then [] else v[0].messages + Flatten(v[1..])
  }

  /** One assistant message with function calls, wrapped in reasoning and tool messages. */
  ghost predicate IsAtomicToolCall(ms: seq<Message>) {
    exists c: nat ::
      && c < |ms| && IsToolCaller(ms[c])
      && (forall i :: 0 <= i < c ==> IsBareReasoning(ms[i]))
      && (forall i :: c < i < |ms| ==> IsFollower(ms[i]))
  }

  lemma BareReasoningCallsNothing(m: Message)
    requires IsBareReasoning(m)
    ensures !IsToolCaller(m)
  {
    if c :| c in m.contents && c.FunctionCall? {
      assert false;
    }
  }

  ghost predicate IsSoleCaller(ms: seq<Message>, c: nat) {
    c < |ms| && forall i: nat :: i < |ms| ==> (IsToolCaller(ms[i]) <==> i == c)
  }

  /** An atomic tool call holds exactly one assistant message with function calls. */
  lemma OneCaller(ms: seq<Message>)
    requires IsAtomicToolCall(ms)
    ensures exists c: nat :: IsSoleCaller(ms, c)
  {
    var c: nat :| c < |ms| && IsToolCaller(ms[c])
      && (forall i :: 0 <= i < c ==> IsBareReasoning(ms[i]))
      && (forall i :: c < i < |ms| ==> IsFollower(ms[i]));
    forall i: nat | i < |ms| && i != c ensures !IsToolCaller(ms[i]) {
      if IsBareReasoning(ms[i]) { BareReasoningCallsNothing(ms[i]); }
    }
    assert IsSoleCaller(ms, c);
  }

  lemma FirstGroupShape(ms: seq<Message>)
    requires ms != []
    ensures var (kind, n) := FirstGroup(ms);
      && (kind.ToolCall? ==> IsAtomicToolCall(ms[..n]) && (n < |ms| ==> !IsFollower(ms[n])))
      && (!kind.ToolCall? ==> n == 1)
  {
    var (kind, n) := FirstGroup(ms);
    if kind.ToolCall? {
      var c := if IsToolCaller(ms[0]) then 0 else ReasoningRun(ms);
      ReasoningRunMaximal(ms);
      FollowerRunMaximal(ms[c + 1..]);
      assert n == c + 1 + FollowerRun(ms[c + 1..]);
      assert IsToolCaller(ms[..n][c]);
      forall i | c < i < n ensures IsFollower(ms[..n][i]) {
        assert ms[i] == ms[c + 1..][i - c - 1];
      }
      if n < |ms| { assert ms[n] == ms[c + 1..][n - c - 1]; }
    }
  }

  // ------------------------------------------------- the grouping is a partition

  /** Grouping loses, repeats and reorders nothing. */
  lemma {:induction false} ParsePartitions(measure: Measure, ms: seq<Message>, turn: int)
    ensures Flatten(Parse(measure, ms, turn)) == ms
    decreases |ms|
  {
    hide FirstGroup;
    if ms != [] {
      var (kind, n) := FirstGroup(ms);
      ParsePartitions(measure, ms[n..], NextTurn(kind, turn));
      var rest := Parse(measure, ms[n..], NextTurn(kind, turn));
      assert Parse(measure, ms, turn)[1..] == rest;
      assert ms[..n] + ms[n..] == ms;
    }
  }

  /** What holds of every group the grouping creates, and between neighbours. */
  ghost predicate WellFormedGroup(measure: Measure, g: Group) {
    && g.messages != []
    && g == NewGroup(measure, g.kind, g.messages, g.turn)
    && (g.kind.SystemKind? <==> g.turn.None?)
    && (g.kind.SystemKind? <==> g.messages[0].role.System?)
    && (g.kind.UserKind? <==> g.messages[0].role.User?)
    && (g.kind.ToolCall? ==> IsAtomicToolCall(g.messages))
    && (!g.kind.ToolCall? ==> |g.messages| == 1)
    && (g.kind.Summary? ==> g.messages[0].role.Assistant? && g.messages[0].summaryFlag)
  }

  lemma {:induction false} ParseShapes(measure: Measure, ms: seq<Message>, turn: int)
    ensures var v := Parse(measure, ms, turn);
      && (forall i :: 0 <= i < |v| ==> WellFormedGroup(measure, v[i]))
      && (forall i :: 0 < i < |v| && v[i - 1].kind.ToolCall? ==> !IsFollower(v[i].messages[0]))
    ensures ms != [] ==> Parse(measure, ms, turn) != [] && Parse(measure, ms, turn)[0].messages[0] == ms[0]
    decreases |ms|
  {
    if ms != [] {
      var (kind, n) := FirstGroup(ms);
      FirstGroupShape(ms);
      ParseShapes(measure, ms[n..], NextTurn(kind, turn));
      var v := Parse(measure, ms, turn);
      var rest := Parse(measure, ms[n..], NextTurn(kind, turn));
      assert v == [v[0]] + rest;
      if n < |ms| { assert ms[n..][0] == ms[n]; }
      forall i | 0 < i < |v| && v[i - 1].kind.ToolCall? ensures !IsFollower(v[i].messages[0]) {
        if i == 1 {
          assert v[1] == rest[0];
        } else {
          assert v[i - 1] == rest[i - 2] && v[i] == rest[i - 1];
        }
      }
    }
  }

  lemma {:induction false} UserCountConcat(a: seq<Message>, b: seq<Message>)
    ensures UserCount(a + b) == UserCount(a) + UserCount(b)
  {
    if a == [] {
      assert a + b == b;
    } else {
      UserCountConcat(a[1..], b);
      assert (a + b)[1..] == a[1..] + b;
    }
  }

  lemma {:induction false} NoUsers(ms: seq<Message>)
    requires forall i :: 0 <= i < |ms| ==> !ms[i].role.User?
    ensures UserCount(ms) == 0
  {
    if ms != [] { NoUsers(ms[1..]); }
  }

  /** A group takes one user message when it is a user group, and none otherwise. */
  lemma FirstGroupUsers(ms: seq<Message>)
    requires ms != []
    ensures var (kind, n) := FirstGroup(ms);
      UserCount(ms) == (if kind.UserKind? then 1 else 0) + UserCount(ms[n..])
  {
    var (kind, n) := FirstGroup(ms);
    FirstGroupShape(ms);
    assert ms == ms[..n] + ms[n..];
    UserCountConcat(ms[..n], ms[n..]);
    if kind.ToolCall? {
      NoUsers(ms[..n]);
    } else {
      assert ms[..n] == [ms[0]];
      assert UserCount([ms[0]]) == if ms[0].role.User? then 1 else 0;
    }
  }

  ghost predicate OpensTurn(g: Group, turn: int) {
    g.kind.UserKind? && g.turn == Some(turn)
  }

  ghost predicate HasTurn(v: seq<Group>, turn: int) {
    exists g :: g in v && OpensTurn(g, turn)
  }

  ghost predicate TurnsWithin(v: seq<Group>, low: int, high: int) {
    forall g :: g in v && g.turn.Some? ==> low <= g.turn.value <= high
  }

  ghost predicate TurnsSorted(v: seq<Group>) {
    forall i, j :: 0 <= i < j < |v| && v[i].turn.Some? && v[j].turn.Some? ==> v[i].turn.value <= v[j].turn.value
  }

  /** Turn numbers run without gaps: each lies between the starting turn and the user count
      added to it, they never decrease, and every new turn has a user group. */
  lemma {:induction false} ParseTurns(measure: Measure, ms: seq<Message>, turn: int)
    ensures TurnsWithin(Parse(measure, ms, turn), turn, turn + UserCount(ms))
    ensures TurnsSorted(Parse(measure, ms, turn))
    ensures forall t :: turn < t <= turn + UserCount(ms) ==> HasTurn(Parse(measure, ms, turn), t)
    decreases |ms|
  {
    if ms != [] {
      var (kind, n) := FirstGroup(ms);
      var next := NextTurn(kind, turn);
      ParseTurns(measure, ms[n..], next);
      FirstGroupUsers(ms);
      var v := Parse(measure, ms, turn);
      var rest := Parse(measure, ms[n..], next);
      assert v == [v[0]] + rest;
      forall i, j | 0 <= i < j < |v| && v[i].turn.Some? && v[j].turn.Some?
        ensures v[i].turn.value <= v[j].turn.value
      {
        assert v[j] == rest[j - 1] && v[j] in rest;
      }
      forall t | turn < t <= turn + UserCount(ms) ensures HasTurn(v, t) {
        if t == next && kind.UserKind? {
          assert v[0] in v && OpensTurn(v[0], t);
        } else {
          assert HasTurn(rest, t);
          var g :| g in rest && OpensTurn(g, t);
          assert g in v;
        }
      }
    }
  }

  // ------------------------------------------------- grouping is incremental

  lemma {:induction false} FollowerRunConcat(a: seq<Message>, b: seq<Message>)
    ensures FollowerRun(a + b) == if FollowerRun(a) < |a| then FollowerRun(a) else |a| + FollowerRun(b)
  {
    if a == [] {
      assert a + b == b;
    } else {
      assert (a + b)[1..] == a[1..] + b;
      FollowerRunConcat(a[1..], b);
    }
  }

  lemma {:induction false} ReasoningRunConcat(a: seq<Message>, b: seq<Message>)
    ensures ReasoningRun(a + b) == if ReasoningRun(a) < |a| then ReasoningRun(a) else |a| + ReasoningRun(b)
  {
    if a == [] {
      assert a + b == b;
    } else {
      assert (a + b)[1..] == a[1..] + b;
      ReasoningRunConcat(a[1..], b);
    }
  }

  /** Some tool caller is followed by nothing but what its group absorbs. */
  ghost predicate EndsInToolCall(a: seq<Message>) {
    exists i: nat :: i < |a| && ToolCallFrom(a, i)
  }

  ghost predicate ToolCallFrom(a: seq<Message>, i: nat)
    requires i < |a|
  {
    IsToolCaller(a[i]) && forall j: nat :: i < j < |a| ==> IsFollower(a[j])
  }

  /** Some message that is no summary begins a tail of bare reasoning. */
  ghost predicate EndsInOpenReasoning(a: seq<Message>) {
    exists i: nat :: i < |a| && OpenFrom(a, i)
  }

  ghost predicate OpenFrom(a: seq<Message>, i: nat)
    requires i < |a|
  {
    !a[i].summaryFlag && forall j: nat :: i <= j < |a| ==> IsBareReasoning(a[j])
  }

  /** Bare reasoning up to a tool caller. */
  predicate LeadsToToolCall(b: seq<Message>) {
    ReasoningRun(b) < |b| && IsToolCaller(b[ReasoningRun(b)])
  }

  /** A group that begins in the first list goes on in the second: a tool call takes in what
      follows it, or trailing reasoning turns out to lead to one. */
  ghost predicate ReachesInto(a: seq<Message>, b: seq<Message>) {
    b != [] && if EndsInToolCall(a) then IsFollower(b[0]) else EndsInOpenReasoning(a) && LeadsToToolCall(b)
  }

  /** A list that ends in a user or system message, or with plain text, reaches into nothing. */
  lemma NothingReaches(a: seq<Message>, b: seq<Message>)
    requires a == [] || (!IsToolCaller(a[|a| - 1]) && !IsFollower(a[|a| - 1]))
    ensures !ReachesInto(a, b)
  {
    if a != [] {
      var last := a[|a| - 1];
      forall i: nat | i < |a| ensures !ToolCallFrom(a, i) && !OpenFrom(a, i) {
        assert ToolCallFrom(a, i) ==> i == |a| - 1 || IsFollower(last);
        assert OpenFrom(a, i) ==> IsBareReasoning(last);
      }
    }
  }

  /** Nothing reaches into a user or system message. */
  lemma NothingReached(a: seq<Message>, b: seq<Message>)
    requires b == [] || (!b[0].role.Tool? && !b[0].role.Assistant?)
    ensures !ReachesInto(a, b)
  {
  }

  lemma TailEnds(a: seq<Message>, n: nat)
    requires n <= |a|
    requires forall i: nat :: i < n ==> !ToolCallFrom(a, i) && !OpenFrom(a, i)
    ensures EndsInToolCall(a) <==> EndsInToolCall(a[n..])
    ensures EndsInOpenReasoning(a) <==> EndsInOpenReasoning(a[n..])
  {
    var t := a[n..];
    assert forall j: nat :: j < |t| ==> t[j] == a[n + j];
    forall i: nat | i < |t| ensures ToolCallFrom(a, n + i) <==> ToolCallFrom(t, i) {
      if ToolCallFrom(t, i) { assert forall j: nat :: n + i < j < |a| ==> a[j] == t[j - n]; }
    }
    forall i: nat | i < |t| ensures OpenFrom(a, n + i) <==> OpenFrom(t, i) {
      if OpenFrom(t, i) { assert forall j: nat :: n + i <= j < |a| ==> a[j] == t[j - n]; }
    }
    if i: nat :| i < |t| && ToolCallFrom(t, i) { assert ToolCallFrom(a, n + i); }
    if i: nat :| i < |a| && ToolCallFrom(a, i) { assert ToolCallFrom(t, i - n); }
    if i: nat :| i < |t| && OpenFrom(t, i) { assert OpenFrom(a, n + i); }
    if i: nat :| i < |a| && OpenFrom(a, i) { assert OpenFrom(t, i - n); }
  }

  /** Where the caller of the first group stands, for a tool call. */
  function CallerAt(ms: seq<Message>): (c: nat)
    requires ms != [] && FirstGroup(ms).0.ToolCall?
    ensures c < |ms| && IsToolCaller(ms[c]) && FirstGroup(ms).1 == c + 1 + FollowerRun(ms[c + 1..])
  {
    if IsToolCaller(ms[0]) then 0 else ReasoningRun(ms)
  }

  /** What more messages change of the first group: nothing, unless it is a tool call that goes to
      the end or reasoning alone. */
  lemma FirstGroupMore(a: seq<Message>, b: seq<Message>)
    requires a != []
    ensures var (kind, n) := FirstGroup(a);
      FirstGroup(a + b) ==
        if kind.ToolCall? && n == |a| then (ToolCall, |a| + FollowerRun(b))
        else if !kind.ToolCall? && OpenFrom(a, 0) && LeadsToToolCall(b) then
          (ToolCall, |a| + ReasoningRun(b) + 1 + FollowerRun(b[ReasoningRun(b) + 1..]))
        else (kind, n)
  {
    var ab, m := a + b, a[0];
    assert ab[0] == m;
    if m.role.System? || m.role.User? || (!IsToolCaller(m) && ((m.role.Assistant? && m.summaryFlag) || !IsBareReasoning(m))) {
      assert !OpenFrom(a, 0) by { assert OpenFrom(a, 0) ==> IsBareReasoning(a[0]); }
    } else if IsToolCaller(m) {
      BareReasoningNoCall(m);
      assert ab[1..] == a[1..] + b;
      FollowerRunConcat(a[1..], b);
    } else {
      ReasoningFirst(a, b);
    }
  }

  lemma BareReasoningNoCall(m: Message)
    requires IsToolCaller(m)
    ensures !IsBareReasoning(m)
  {
    if IsBareReasoning(m) { BareReasoningCallsNothing(m); }
  }

  lemma ReasoningFirst(a: seq<Message>, b: seq<Message>)
    requires a != [] && IsBareReasoning(a[0]) && !IsToolCaller(a[0]) && !a[0].summaryFlag
    ensures var (kind, n) := FirstGroup(a);
      FirstGroup(a + b) ==
        if kind.ToolCall? && n == |a| then (ToolCall, |a| + FollowerRun(b))
        else if !kind.ToolCall? && OpenFrom(a, 0) && LeadsToToolCall(b) then
          (ToolCall, |a| + ReasoningRun(b) + 1 + FollowerRun(b[ReasoningRun(b) + 1..]))
        else (kind, n)
  {
    hide *;
    assert (a + b)[0] == a[0];
    FirstIsReasoning(a);
    FirstIsReasoning(a + b);
    ReasoningGroupIs(a);
    ReasoningGroupIs(a + b);
    ReasoningRunConcat(a, b);
    OpenIs(a);
    var r, q := ReasoningRun(a), ReasoningRun(b);
    if r < |a| {
      CallerBefore(a, b, r);
      CallGroupIs(a, r);
      CallGroupIs(a + b, r);
    } else {
      LeadsIs(b);
      if q < |b| {
        CallerBehind(a, b, q);
        CallGroupIs(a + b, |a| + q);
      }
    }
  }

  lemma OpenIs(a: seq<Message>)
    requires a != [] && !a[0].summaryFlag
    ensures OpenFrom(a, 0) <==> ReasoningRun(a) == |a|
  {
    ReasoningRunMaximal(a);
  }

  lemma LeadsIs(b: seq<Message>)
    ensures LeadsToToolCall(b) <==> ReasoningRun(b) < |b| && IsToolCaller(b[ReasoningRun(b)])
  {
  }

  lemma CallerBefore(a: seq<Message>, b: seq<Message>, r: nat)
    requires r < |a|
    ensures (a + b)[r] == a[r]
    ensures FollowerRun((a + b)[r + 1..])
         == if FollowerRun(a[r + 1..]) < |a| - r - 1 then FollowerRun(a[r + 1..]) else |a| - r - 1 + FollowerRun(b)
  {
    assert (a + b)[r + 1..] == a[r + 1..] + b;
    FollowerRunConcat(a[r + 1..], b);
  }

  lemma CallerBehind(a: seq<Message>, b: seq<Message>, q: nat)
    requires q < |b|
    ensures (a + b)[|a| + q] == b[q] && (a + b)[|a| + q + 1..] == b[q + 1..]
  {
  }

  lemma FirstIsReasoning(ms: seq<Message>)
    requires ms != [] && IsBareReasoning(ms[0]) && !IsToolCaller(ms[0]) && !ms[0].summaryFlag
    ensures FirstGroup(ms) == ReasoningGroup(ms)
  {
    hide ReasoningGroup;
  }

  lemma ReasoningGroupIs(ms: seq<Message>)
    requires ms != []
    ensures var r := ReasoningRun(ms);
      ReasoningGroup(ms) == if r < |ms| && IsToolCaller(ms[r]) then CallGroup(ms, r) else (AssistantText, 1)
  {
    hide ReasoningRun, IsToolCaller, CallGroup;
  }

  lemma CallGroupIs(ms: seq<Message>, c: nat)
    requires c < |ms|
    ensures CallGroup(ms, c).0 == ToolCall && CallGroup(ms, c).1 == c + 1 + FollowerRun(ms[c + 1..])
  {
    hide FollowerRun;
  }

  /** One group further: either it reaches into the second list, and then it is longer than the
      first one, or the question is about the rest. */
  lemma ReachStep(a: seq<Message>, b: seq<Message>)
    requires a != []
    ensures var n := FirstGroup(a).1;
      if FirstGroup(a + b) == FirstGroup(a) then ReachesInto(a, b) <==> ReachesInto(a[n..], b)
      else ReachesInto(a, b) && FirstGroup(a + b).1 > |a|
  {
    var (kind, n) := FirstGroup(a);
    FirstGroupMore(a, b);
    if kind.ToolCall? {
      ReachToolCall(a, b);
    } else if OpenFrom(a, 0) {
      ReachOpen(a, b);
    } else {
      assert n == 1 by { FirstGroupShape(a); }
      assert !IsToolCaller(a[0]);
      hide FirstGroup;
      TailEnds(a, 1);
    }
  }

  lemma ReachToolCall(a: seq<Message>, b: seq<Message>)
    requires a != [] && FirstGroup(a).0.ToolCall?
    ensures var n := FirstGroup(a).1;
      if n == |a| then (ReachesInto(a, b) <==> FollowerRun(b) > 0) && !ReachesInto(a[n..], b)
      else ReachesInto(a, b) <==> ReachesInto(a[n..], b)
  {
    var n, c := FirstGroup(a).1, CallerAt(a);
    FollowerRunMaximal(a[c + 1..]);
    assert forall j: nat :: c < j < n ==> a[j] == a[c + 1..][j - c - 1];
    if n == |a| {
      assert ToolCallFrom(a, c);
      assert a[n..] == [];
    } else {
      assert a[n] == a[c + 1..][n - c - 1];
      assert !IsFollower(a[n]);
      hide FirstGroup, FollowerRun;
      var m := a[n];
      forall i: nat | i < n ensures !ToolCallFrom(a, i) && !OpenFrom(a, i) {
        assert OpenFrom(a, i) ==> IsBareReasoning(m);
      }
      TailEnds(a, n);
    }
  }

  lemma ReachOpen(a: seq<Message>, b: seq<Message>)
    requires a != [] && OpenFrom(a, 0)
    ensures ReachesInto(a, b) <==> LeadsToToolCall(b)
    ensures !LeadsToToolCall(b) ==> !ReachesInto(a[1..], b)
  {
    forall i: nat | i < |a| ensures !IsToolCaller(a[i]) {
      if IsToolCaller(a[i]) { BareReasoningNoCall(a[i]); }
    }
    forall i: nat | i < |a| - 1 ensures !IsToolCaller(a[1..][i]) { assert a[1..][i] == a[i + 1]; }
  }

  lemma SplitPrefix<T>(a: seq<T>, b: seq<T>, n: nat)
    requires n <= |a|
    ensures (a + b)[..n] == a[..n] && (a + b)[n..] == a[n..] + b
  {
  }

  lemma ConcatAssociates<T>(a: seq<T>, b: seq<T>, c: seq<T>)
    ensures a + (b + c) == (a + b) + c
  {
  }

  lemma ParseStep(measure: Measure, ms: seq<Message>, turn: int)
    requires ms != []
    ensures var (kind, n) := FirstGroup(ms);
      Parse(measure, ms, turn)
      == [NewGroup(measure, kind, ms[..n], GroupTurn(kind, turn))] + Parse(measure, ms[n..], NextTurn(kind, turn))
  {
    hide FirstGroup;
  }

  lemma ParseStepBefore(measure: Measure, a: seq<Message>, b: seq<Message>, turn: int)
    requires a != [] && FirstGroup(a + b) == FirstGroup(a)
    ensures var (kind, n) := FirstGroup(a);
      Parse(measure, a + b, turn)
      == [NewGroup(measure, kind, a[..n], GroupTurn(kind, turn))] + Parse(measure, a[n..] + b, NextTurn(kind, turn))
  {
    hide FirstGroup, Parse;
    var (_, n) := FirstGroup(a);
    ParseStep(measure, a + b, turn);
    SplitPrefix(a, b, n);
  }

  /** Grouping a list in two parts gives the groups of the whole if and only if no group of the
      first part reaches into the second. */
  lemma {:induction false} ParseConcat(measure: Measure, a: seq<Message>, b: seq<Message>, turn: int)
    ensures Parse(measure, a + b, turn) == Parse(measure, a, turn) + Parse(measure, b, turn + UserCount(a))
       <==> !ReachesInto(a, b)
    decreases |a|
  {
    hide *;
    if a == [] {
      NothingReaches(a, b);
      NothingGrouped(measure, turn);
      assert a + b == b;
      assert [] + Parse(measure, b, turn) == Parse(measure, b, turn);
    } else {
      var (kind, n) := FirstGroup(a);
      ParseConcat(measure, a[n..], b, NextTurn(kind, turn));
      ConcatStep(measure, a, b, turn);
    }
  }

  lemma NothingGrouped(measure: Measure, turn: int)
    ensures Parse(measure, [], turn) == [] && UserCount([]) == 0
  {
  }

  lemma ConcatStep(measure: Measure, a: seq<Message>, b: seq<Message>, turn: int)
    requires a != []
    requires var (kind, n) := FirstGroup(a);
      var next := NextTurn(kind, turn);
      Parse(measure, a[n..] + b, next) == Parse(measure, a[n..], next) + Parse(measure, b, next + UserCount(a[n..]))
      <==> !ReachesInto(a[n..], b)
    ensures Parse(measure, a + b, turn) == Parse(measure, a, turn) + Parse(measure, b, turn + UserCount(a))
       <==> !ReachesInto(a, b)
  {
    hide *;
    var (kind, n) := FirstGroup(a);
    var next := NextTurn(kind, turn);
    var g := NewGroup(measure, kind, a[..n], GroupTurn(kind, turn));
    assert |g.messages| <= |a| by { NewGroupHolds(measure, kind, a[..n], GroupTurn(kind, turn)); }
    ReachStep(a, b);
    TurnsAdd(a, turn);
    ParseStep(measure, a, turn);
    var x, y, z := Parse(measure, a[n..] + b, next), Parse(measure, a[n..], next), Parse(measure, b, turn + UserCount(a));
    if FirstGroup(a + b) == FirstGroup(a) {
      ParseStepBefore(measure, a, b, turn);
      SameBehind(g, x, y, z);
    } else {
      LongerFirst(measure, a, b, turn, [g] + y, z);
    }
  }

  lemma NewGroupHolds(measure: Measure, kind: GroupKind, ms: seq<Message>, turn: Option<int>)
    ensures NewGroup(measure, kind, ms, turn).messages == ms
  {
  }

  lemma TurnsAdd(a: seq<Message>, turn: int)
    requires a != []
    ensures var (kind, n) := FirstGroup(a); NextTurn(kind, turn) + UserCount(a[n..]) == turn + UserCount(a)
  {
    FirstGroupUsers(a);
  }

  lemma SameBehind<T>(g: T, x: seq<T>, y: seq<T>, z: seq<T>)
    ensures [g] + x == [g] + y + z <==> x == y + z
  {
    assert [g] + y + z == [g] + (y + z);
    assert ([g] + x)[1..] == x && ([g] + (y + z))[1..] == y + z;
  }

  /** Where the first groups differ in length, the groupings differ. */
  lemma FirstTells(measure: Measure, a: seq<Message>, b: seq<Message>, turn: int, other: seq<Group>)
    requires a != [] && FirstGroup(a + b).1 > |a| && other != [] && |other[0].messages| <= |a|
    ensures Parse(measure, a + b, turn) != other
  {
    ParseStep(measure, a + b, turn);
    hide FirstGroup, Parse;
    var n := FirstGroup(a + b).1;
    assert |Parse(measure, a + b, turn)[0].messages| == |(a + b)[..n]| == n;
  }

  /** A cut between two groups of the whole is one that nothing reaches across. */
  lemma {:induction false} CutsReachNothing(measure: Measure, a: seq<Message>, b: seq<Message>, turn: int, p: seq<Group>, q: seq<Group>)
    requires Parse(measure, a + b, turn) == p + q && Flatten(p) == a && forall g :: g in p ==> g.messages != []
    ensures !ReachesInto(a, b)
    decreases |a|
  {
    if a == [] {
      NothingReaches(a, b);
    } else {
      FlattenFirst(p);
      assert p[0] in p && forall g :: g in p[1..] ==> g in p;
      hide *;
      LongerFirst(measure, a, b, turn, p, q);
      ReachStep(a, b);
      if FirstGroup(a + b) == FirstGroup(a) {
        var (kind, n) := FirstGroup(a);
        ParseStepBefore(measure, a, b, turn);
        CutFirst(measure, kind, a, n, GroupTurn(kind, turn), Parse(measure, a[n..] + b, NextTurn(kind, turn)), p, q);
        CutsReachNothing(measure, a[n..], b, NextTurn(kind, turn), p[1..], q);
      }
    }
  }

  lemma FlattenFirst(p: seq<Group>)
    ensures p == [] ==> Flatten(p) == []
    ensures p != [] ==> Flatten(p) == p[0].messages + Flatten(p[1..])
  {
  }

  /** The first group taken off both sides. */
  lemma CutFirst(measure: Measure, kind: GroupKind, a: seq<Message>, n: nat, turn: Option<int>, rest: seq<Group>, p: seq<Group>, q: seq<Group>)
    requires n <= |a| && p != [] && [NewGroup(measure, kind, a[..n], turn)] + rest == p + q
    requires a == p[0].messages + Flatten(p[1..])
    ensures rest == p[1..] + q && Flatten(p[1..]) == a[n..]
  {
    hide Flatten;
    var g := NewGroup(measure, kind, a[..n], turn);
    assert ([g] + rest)[0] == g && (p + q)[0] == p[0];
    assert ([g] + rest)[1..] == rest && (p + q)[1..] == p[1..] + q;
  }

  lemma LongerFirst(measure: Measure, a: seq<Message>, b: seq<Message>, turn: int, p: seq<Group>, q: seq<Group>)
    requires a != [] && p != [] && |p[0].messages| <= |a|
    ensures FirstGroup(a + b).1 > |a| ==> Parse(measure, a + b, turn) != p + q
  {
    assert (p + q)[0] == p[0];
    hide FirstGroup, Parse;
    if FirstGroup(a + b).1 > |a| { FirstTells(measure, a, b, turn, p + q); }
  }
}
