/** Incremental updates of a message index, against grouping the whole list again. */
module Updating {
  import opened Messages
  import opened Grouping
  import opened IndexState

  function Last(ms: seq<Message>): Option<Message> {
    if ms == [] then None else Some(ms[|ms| - 1])
  }

  /** The last position whose message matches, or -1. */
  function LastMatch(ms: seq<Message>, m: Message): int {
    if ms == [] then -1
    else if MessageContentEqual(ms[|ms| - 1], m) then |ms| - 1
    else LastMatch(ms[..|ms| - 1], m)
  }

  /** How many messages an update takes as already grouped, or -1 when it starts over. */
  function Boundary(v: seq<Group>, last: Option<Message>, ms: seq<Message>): int {
    var processed := IncludedRawMessages(v);
    var found :=
      if last.None? then -1
      else if 0 <= processed - 1 < |ms| && MessageContentEqual(ms[processed - 1], last.value) then processed - 1
      else LastMatch(ms, last.value);
    if found < 0 || found + 1 < processed then -1 else found + 1
  }

  lemma {:induction false} LastMatchIs(ms: seq<Message>, m: Message)
    ensures var k := LastMatch(ms, m);
      && -1 <= k < |ms|
      && (k >= 0 ==> MessageContentEqual(ms[k], m))
      && (forall i :: k < i < |ms| ==> !MessageContentEqual(ms[i], m))
  {
    if ms != [] && !MessageContentEqual(ms[|ms| - 1], m) { LastMatchIs(ms[..|ms| - 1], m); }
  }

  lemma BoundaryRange(v: seq<Group>, last: Option<Message>, ms: seq<Message>)
    ensures var k := Boundary(v, last, ms); k == -1 || 1 <= k <= |ms|
  {
    if last.Some? { LastMatchIs(ms, last.value); }
  }

  /** Groups, turn counter and last message after an update. */
  function Updated(measure: Measure, v: seq<Group>, turn: int, last: Option<Message>, ms: seq<Message>)
    : (seq<Group>, int, Option<Message>)
  {
    var k := Boundary(v, last, ms);
    BoundaryRange(v, last, ms);
    if ms == [] then ([], 0, None)
    else if k < 0 then (Parse(measure, ms, 0), UserCount(ms), Last(ms))
    else (v + Parse(measure, ms[k..], turn), turn + UserCount(ms[k..]), Last(ms))
  }

  // ------------------------------------------------- any list

  /** Nothing that was grouped is found in the list: it is grouped anew, and nothing old stays. */
  lemma UnknownIsRebuilt(measure: Measure, v: seq<Group>, turn: int, last: Option<Message>, ms: seq<Message>)
    requires last.Some? ==> forall i :: 0 <= i < |ms| ==> !MessageContentEqual(ms[i], last.value)
    ensures Updated(measure, v, turn, last, ms) == (Parse(measure, ms, 0), UserCount(ms), Last(ms))
  {
    hide IncludedRawMessages;
    EmptyGrouping(measure);
    if last.Some? { LastMatchIs(ms, last.value); }
  }

  /** The first `k` messages of the list are those grouped before: the place where the last one is
      expected, after `counted` messages, if it matches there, and otherwise its last match. */
  ghost predicate KnownUpTo(ms: seq<Message>, counted: int, last: Message, k: nat) {
    && 1 <= k <= |ms| && MessageContentEqual(ms[k - 1], last)
    && (k == counted ||
        ((1 <= counted <= |ms| ==> !MessageContentEqual(ms[counted - 1], last))
         && forall i :: k <= i < |ms| ==> !MessageContentEqual(ms[i], last)))
  }

  /** Where the last message is found again, for any index and any list: the messages behind it are
      grouped behind the old groups, unless it ends before all counted messages. Then the list is
      grouped anew. */
  lemma KnownIsContinued(measure: Measure, v: seq<Group>, turn: int, last: Message, ms: seq<Message>, k: nat)
    requires KnownUpTo(ms, IncludedRawMessages(v), last, k)
    ensures Updated(measure, v, turn, Some(last), ms) ==
      if k < IncludedRawMessages(v) then (Parse(measure, ms, 0), UserCount(ms), Last(ms))
      else (v + Parse(measure, ms[k..], turn), turn + UserCount(ms[k..]), Last(ms))
  {
    hide IncludedRawMessages, Parse, UserCount;
    LastMatchIs(ms, last);
  }

  /** One of the two is always the case. */
  lemma KnownOrNot(ms: seq<Message>, counted: int, last: Message)
    ensures (exists k: nat :: KnownUpTo(ms, counted, last, k)) <==> exists i :: 0 <= i < |ms| && MessageContentEqual(ms[i], last)
  {
    LastMatchIs(ms, last);
    var n := LastMatch(ms, last);
    if 1 <= counted <= |ms| && MessageContentEqual(ms[counted - 1], last) {
      assert KnownUpTo(ms, counted, last, counted);
    } else if n >= 0 {
      assert KnownUpTo(ms, counted, last, n + 1);
    }
  }

  // ------------------------------------------------- incremental equals rebuild

  lemma {:induction false} FlattenConcat(a: seq<Group>, b: seq<Group>)
    ensures Flatten(a + b) == Flatten(a) + Flatten(b)
  {
    hide *;
    if a == [] {
      FlattenNothing();
      assert a + b == b;
      assert [] + Flatten(b) == Flatten(b);
    } else {
      FlattenConcat(a[1..], b);
      FlattenStep(a + b);
      FlattenStep(a);
      assert (a + b)[1..] == a[1..] + b && (a + b)[0] == a[0];
      ConcatAssociates(a[0].messages, Flatten(a[1..]), Flatten(b));
    }
  }

  lemma FlattenNothing()
    ensures Flatten([]) == []
  {
  }

  lemma FlattenStep(v: seq<Group>)
    requires v != []
    ensures Flatten(v) == v[0].messages + Flatten(v[1..])
  {
  }

  lemma {:induction false} RawMessagesFlat(v: seq<Group>)
    requires forall g :: g in v ==> g.messageCount == |g.messages| && IncludedRaw(g)
    ensures IncludedRawMessages(v) == |Flatten(v)|
  {
    if v != [] {
      RawMessagesFlat(v[..|v| - 1]);
      FlattenConcat(v[..|v| - 1], v[|v| - 1..]);
      assert v == v[..|v| - 1] + v[|v| - 1..];
    }
  }

  lemma EmptyGrouping(measure: Measure)
    ensures Parse(measure, [], 0) == [] && UserCount([]) == 0
  {
  }

  /** Whether an update knows the old messages again, with `known` of them counted as original
      and included: all are counted, or the last one counted looks different from the last one,
      and so do all new ones. */
  predicate KnownAgain(known: int, ms: seq<Message>, delta: seq<Message>)
    requires ms != []
  {
    var last := ms[|ms| - 1];
    known == |ms| ||
    ((0 < known <= |ms| ==> !MessageContentEqual(ms[known - 1], last)) && forall d :: d in delta ==> !MessageContentEqual(d, last))
  }

  lemma BoundaryIs(v: seq<Group>, ms: seq<Message>, delta: seq<Message>)
    requires ms != [] && IncludedRawMessages(v) <= |ms|
    ensures Boundary(v, Last(ms), ms + delta) == |ms| <==> KnownAgain(IncludedRawMessages(v), ms, delta)
    ensures Boundary(v, Last(ms), ms + delta) >= 1
  {
    hide IncludedRawMessages;
    var all, last := ms + delta, ms[|ms| - 1];
    MessageEqualReflexive(last);
    LastMatchIs(all, last);
    assert all[|ms| - 1] == last;
    assert forall i :: |ms| <= i < |all| ==> all[i] == delta[i - |ms|];
    assert forall d :: d in delta ==> exists i :: |ms| <= i < |all| && all[i] == d by {
      forall d | d in delta ensures exists i :: |ms| <= i < |all| && all[i] == d {
        var i :| 0 <= i < |delta| && delta[i] == d;
        assert all[|ms| + i] == d;
      }
    }
  }

  /** An update keeps all groups and appends the grouping of exactly the new messages if and
      only if it knows the old ones again. */
  lemma UpdateAppends(measure: Measure, v: seq<Group>, turn: int, ms: seq<Message>, delta: seq<Message>)
    requires ms != [] && IncludedRawMessages(v) <= |ms|
    ensures Updated(measure, v, turn, Last(ms), ms + delta)
         == (v + Parse(measure, delta, turn), turn + UserCount(delta), Last(ms + delta))
         <==> KnownAgain(IncludedRawMessages(v), ms, delta)
  {
    hide Parse, UserCount, Boundary, IncludedRawMessages, KnownAgain;
    var all := ms + delta;
    var k := Boundary(v, Last(ms), all);
    BoundaryIs(v, ms, delta);
    BoundaryRange(v, Last(ms), all);
    assert all[|ms|..] == delta;
    if k != |ms| { LengthTells(measure, v, turn, all[k..], delta); }
  }

  lemma LengthTells(measure: Measure, v: seq<Group>, turn: int, a: seq<Message>, b: seq<Message>)
    requires |a| != |b|
    ensures v + Parse(measure, a, turn) != v + Parse(measure, b, turn)
  {
    hide Parse, Flatten;
    var x, y := Parse(measure, a, turn), Parse(measure, b, turn);
    ParsePartitions(measure, a, turn);
    ParsePartitions(measure, b, turn);
    FlattenConcat(v, x);
    FlattenConcat(v, y);
    assert |Flatten(v + x)| != |Flatten(v + y)|;
  }

  /** Updating a freshly grouped index gives what grouping the longer list gives if and only if
      the update knows the old messages again and no old group reaches into the new ones. */
  lemma UpdateEqualsRebuild(measure: Measure, ms: seq<Message>, delta: seq<Message>)
    ensures Updated(measure, Parse(measure, ms, 0), UserCount(ms), Last(ms), ms + delta)
         == (Parse(measure, ms + delta, 0), UserCount(ms + delta), Last(ms + delta))
         <==> ms == [] || (KnownAgain(IncludedRawMessages(Parse(measure, ms, 0)), ms, delta) && !ReachesInto(ms, delta))
  {
    if ms == [] {
      hide Parse, UserCount;
      EmptyGrouping(measure);
    } else {
      hide *;
      var v, all := Parse(measure, ms, 0), ms + delta;
      KnownAtMost(measure, ms, v);
      BoundaryIs(v, ms, delta);
      UpdateAtBoundary(measure, ms, delta, Boundary(v, Last(ms), all));
    }
  }

  /** With `k` messages of the longer list taken as already grouped, an update groups anew if and
      only if those are the old ones and no group reaches across. */
  lemma UpdateAtBoundary(measure: Measure, ms: seq<Message>, delta: seq<Message>, k: int)
    requires ms != [] && k == Boundary(Parse(measure, ms, 0), Last(ms), ms + delta) && k >= 1
    ensures Updated(measure, Parse(measure, ms, 0), UserCount(ms), Last(ms), ms + delta)
         == (Parse(measure, ms + delta, 0), UserCount(ms + delta), Last(ms + delta))
         <==> k == |ms| && !ReachesInto(ms, delta)
  {
    hide *;
    var v, all := Parse(measure, ms, 0), ms + delta;
    BoundaryRange(v, Last(ms), all);
    UpdatedIs(measure, v, UserCount(ms), Last(ms), all);
    if k != |ms| {
      LongerTells(measure, ms, all, k);
    } else {
      assert all[k..] == delta;
      ParseConcat(measure, ms, delta, 0);
      UserCountConcat(ms, delta);
    }
  }

  lemma UpdatedIs(measure: Measure, v: seq<Group>, turn: int, last: Option<Message>, ms: seq<Message>)
    requires ms != [] && 0 <= Boundary(v, last, ms) <= |ms|
    ensures var k := Boundary(v, last, ms);
      Updated(measure, v, turn, last, ms) == (v + Parse(measure, ms[k..], turn), turn + UserCount(ms[k..]), Last(ms))
  {
  }

  /** Groups that hold more or fewer messages than the list are not its grouping. */
  lemma LongerTells(measure: Measure, ms: seq<Message>, all: seq<Message>, k: nat)
    requires k <= |all| && k != |ms|
    ensures Parse(measure, ms, 0) + Parse(measure, all[k..], UserCount(ms)) != Parse(measure, all, 0)
  {
    hide *;
    var v, w := Parse(measure, ms, 0), Parse(measure, all[k..], UserCount(ms));
    ParsePartitions(measure, ms, 0);
    ParsePartitions(measure, all, 0);
    ParsePartitions(measure, all[k..], UserCount(ms));
    FlattenConcat(v, w);
    assert |Flatten(v + w)| == |ms| + |all| - k;
  }

  /** Without summary groups all old messages are counted, so only groups that reach into the new
      messages make a difference, whatever the new messages repeat. */
  lemma IncrementalEqualsRebuild(measure: Measure, ms: seq<Message>, delta: seq<Message>)
    requires forall g :: g in Parse(measure, ms, 0) ==> IsRaw(g)
    ensures Updated(measure, Parse(measure, ms, 0), UserCount(ms), Last(ms), ms + delta)
         == (Parse(measure, ms + delta, 0), UserCount(ms + delta), Last(ms + delta))
         <==> !ReachesInto(ms, delta)
  {
    if ms == [] { NothingReaches(ms, delta); }
    UpdateEqualsRebuild(measure, ms, delta);
    hide Parse, IncludedRawMessages, Updated, UserCount, ReachesInto;
    var v := Parse(measure, ms, 0);
    ParseSound(measure, ms, 0);
    FreshIncluded(measure, ms, 0);
    RawMessagesFlat(v);
    ParsePartitions(measure, ms, 0);
  }

  /** An update that brings the result of a tool call parts it from its call, although nothing is
      a summary and the old messages are known again. */
  lemma ResultParted(measure: Measure, call: Content)
    requires call.FunctionCall?
    ensures var ms := [Message(User, [], "", "", false), Message(Assistant, [call], "", "", false)];
      var delta := [Message(Tool, [], "", "", false)];
      && (forall g :: g in Parse(measure, ms, 0) ==> IsRaw(g))
      && KnownAgain(IncludedRawMessages(Parse(measure, ms, 0)), ms, delta)
      && Updated(measure, Parse(measure, ms, 0), UserCount(ms), Last(ms), ms + delta)
         != (Parse(measure, ms + delta, 0), UserCount(ms + delta), Last(ms + delta))
  {
    var asks, calls, result := Message(User, [], "", "", false), Message(Assistant, [call], "", "", false), Message(Tool, [], "", "", false);
    var ms := [asks, calls];
    assert IsToolCaller(calls) by { assert call in calls.contents; }
    assert ToolCallFrom(ms, 1);
    assert ReachesInto(ms, [result]);
    TwoGroups(measure, asks, calls);
    hide Parse, Updated, IncludedRawMessages, ReachesInto;
    IncrementalEqualsRebuild(measure, ms, [result]);
    var v := Parse(measure, ms, 0);
    ParseSound(measure, ms, 0);
    FreshIncluded(measure, ms, 0);
    RawMessagesFlat(v);
    ParsePartitions(measure, ms, 0);
  }

  lemma TwoGroups(measure: Measure, asks: Message, calls: Message)
    requires asks.role.User? && IsToolCaller(calls)
    ensures forall g :: g in Parse(measure, [asks, calls], 0) ==> IsRaw(g)
  {
    var ms := [asks, calls];
    assert ms[1..] == [calls] && [calls][1..] == [];
    assert FirstGroup(ms) == (UserKind, 1) && FirstGroup([calls]) == (ToolCall, 1);
    ParseStep(measure, ms, 0);
    ParseStep(measure, [calls], 1);
    assert Parse(measure, [], 1) == [];
  }

  lemma FreshIncluded(measure: Measure, ms: seq<Message>, turn: int)
    ensures forall g :: g in Parse(measure, ms, turn) ==> Included(g)
  {
    ParseShapes(measure, ms, turn);
    var v := Parse(measure, ms, turn);
    forall g | g in v ensures Included(g) {
      var i :| 0 <= i < |v| && v[i] == g;
      assert WellFormedGroup(measure, v[i]);
    }
  }

  /** With a summary in the list the promise fails: the update groups the last message twice,
      because the summary is not counted and the message before the last one looks the same. */
  lemma SummaryBreaksUpdate(measure: Measure)
    ensures var said := Message(User, [], "", "", false);
      var ms := [Message(Assistant, [Text(Header(None, None), "s")], "", "", true), said, said];
      Updated(measure, Parse(measure, ms, 0), UserCount(ms), Last(ms), ms + [])
      != (Parse(measure, ms + [], 0), UserCount(ms + []), Last(ms + []))
  {
    var said := Message(User, [], "", "", false);
    var note := Message(Assistant, [Text(Header(None, None), "s")], "", "", true);
    var ms := [note, said, said];
    SummaryNotCounted(measure, note, said);
    MessageEqualReflexive(said);
    assert ms + [] == ms;
    NothingReached(ms, []);
    hide Parse, Updated, IncludedRawMessages, ReachesInto;
    UpdateEqualsRebuild(measure, ms, []);
  }

  lemma SummaryNotCounted(measure: Measure, note: Message, said: Message)
    requires note.role.Assistant? && note.summaryFlag && !HasToolCalls(note) && said.role.User?
    ensures IncludedRawMessages(Parse(measure, [note, said, said], 0)) == 2
  {
    var ms, tail, one := [note, said, said], [said, said], [said];
    var a, b, c := NewGroup(measure, Summary, [note], Some(0)), NewGroup(measure, UserKind, [said], Some(1)),
                   NewGroup(measure, UserKind, [said], Some(2));
    FirstGroups(note, said);
    assert Parse(measure, [], 2) == [];
    assert IncludedRawMessages([]) == 0;
    hide Parse, FirstGroup, IncludedRawMessages;
    assert ms[1..] == tail && tail[1..] == one && one[1..] == [];
    assert ms[..1] == [note] && tail[..1] == [said] && one[..1] == [said];
    ParseStep(measure, ms, 0);
    ParseStep(measure, tail, 0);
    ParseStep(measure, one, 1);
    assert Parse(measure, ms, 0) == [a, b, c];
    RawSplit([a, b, c]);
    RawSplit([b, c]);
    RawSplit([c]);
    assert [a, b, c][1..] == [b, c] && [b, c][1..] == [c] && [c][1..] == [];
  }

  lemma FirstGroups(note: Message, said: Message)
    requires note.role.Assistant? && note.summaryFlag && !HasToolCalls(note) && said.role.User?
    ensures FirstGroup([note, said, said]) == (Summary, 1)
    ensures FirstGroup([said, said]) == (UserKind, 1) && FirstGroup([said]) == (UserKind, 1)
  {
    hide HasToolCalls;
  }

  // ------------------------------------------------- updating after compaction

  /** Compaction never raises the number of included original messages. */
  lemma {:induction false} ConservesRawCount(before: seq<Group>, after: seq<Group>)
    requires Conserves(before, after)
    requires forall g :: g in before ==> g.messageCount >= 0
    ensures IncludedRawMessages(after) <= IncludedRawMessages(before)
    decreases |after|
  {
    if before == [] && after == [] {
    } else if before != [] && after != [] && Evolves(before[0], after[0]) && Conserves(before[1..], after[1..]) {
      ConservesRawCount(before[1..], after[1..]);
      RawSplit(before);
      RawSplit(after);
      assert before[0] in before;
    } else {
      ConservesRawCount(before, after[1..]);
      RawSplit(after);
    }
  }

  lemma RawSplit(v: seq<Group>)
    requires v != []
    ensures IncludedRawMessages(v)
         == (if IncludedRaw(v[0]) then v[0].messageCount else 0) + IncludedRawMessages(v[1..])
  {
    assert v == [v[0]] + v[1..];
    SumConcat([v[0]], v[1..], IncludedRaw, (g: Group) => g.messageCount);
    assert IncludedRawMessages([v[0]]) == if IncludedRaw(v[0]) then v[0].messageCount else 0 by {
      assert [v[0]][..0] == [];
    }
  }

  /** A compacted index never counts more messages than were grouped. */
  lemma KnownAtMost(measure: Measure, ms: seq<Message>, v: seq<Group>)
    requires Conserves(Parse(measure, ms, 0), v) || v == Parse(measure, ms, 0)
    ensures IncludedRawMessages(v) <= |ms|
  {
    hide Parse, Flatten, Conserves, IncludedRawMessages;
    var p := Parse(measure, ms, 0);
    ParseSound(measure, ms, 0);
    CountedAtMost(p, v);
    ParsePartitions(measure, ms, 0);
  }

  lemma CountedAtMost(p: seq<Group>, v: seq<Group>)
    requires Conserves(p, v) || v == p
    requires forall g :: g in p ==> g.messageCount == |g.messages|
    ensures IncludedRawMessages(v) <= |Flatten(p)|
  {
    hide Flatten, Conserves, IncludedRawMessages;
    if v != p { ConservesRawCount(p, v); }
    RawAtMostFlat(p);
  }

  /** After any compaction of the index of `ms`, an update keeps every group and every exclusion
      and appends the grouping of exactly the new messages if and only if it knows the old
      messages again. */
  lemma UpdateAfterCompaction(measure: Measure, ms: seq<Message>, delta: seq<Message>, v: seq<Group>)
    requires ms != [] && Conserves(Parse(measure, ms, 0), v)
    ensures Updated(measure, v, UserCount(ms), Last(ms), ms + delta)
         == (v + Parse(measure, delta, UserCount(ms)), UserCount(ms + delta), Last(ms + delta))
         <==> KnownAgain(IncludedRawMessages(v), ms, delta)
  {
    hide Parse, UserCount, Conserves, IncludedRawMessages, Updated, KnownAgain;
    KnownAtMost(measure, ms, v);
    UserCountConcat(ms, delta);
    UpdateAppends(measure, v, UserCount(ms), ms, delta);
  }

  /** A last message that nothing else looks like is always known again. */
  lemma UniqueIsKnown(known: int, ms: seq<Message>, delta: seq<Message>)
    requires ms != []
    requires forall i :: 0 <= i < |ms + delta| && i != |ms| - 1 ==> !MessageContentEqual((ms + delta)[i], ms[|ms| - 1])
    ensures KnownAgain(known, ms, delta)
  {
    var all := ms + delta;
    if 0 < known < |ms| { assert all[known - 1] == ms[known - 1]; }
    forall d | d in delta ensures !MessageContentEqual(d, ms[|ms| - 1]) {
      var i :| 0 <= i < |delta| && delta[i] == d;
      assert all[|ms| + i] == d;
    }
  }

  lemma {:induction false} RawAtMostFlat(v: seq<Group>)
    requires forall g :: g in v ==> g.messageCount == |g.messages|
    ensures IncludedRawMessages(v) <= |Flatten(v)|
  {
    if v != [] {
      RawAtMostFlat(v[..|v| - 1]);
      FlattenConcat(v[..|v| - 1], v[|v| - 1..]);
      assert v == v[..|v| - 1] + v[|v| - 1..];
    }
  }

  lemma EmptyWellBuilt()
    ensures WellBuilt([], 0)
  {
  }

  /** An update keeps the index invariant from any well-built index. */
  lemma UpdateWellBuilt(measure: Measure, v: seq<Group>, turn: int, last: Option<Message>, ms: seq<Message>)
    requires WellBuilt(v, turn)
    ensures var (v', turn', _) := Updated(measure, v, turn, last, ms); WellBuilt(v', turn')
  {
    hide Parse, UserCount, Boundary, WellBuilt;
    EmptyWellBuilt();
    BoundaryRange(v, last, ms);
    ParseWellBuilt(measure, ms);
    var k := Boundary(v, last, ms);
    if k >= 0 { AppendWellBuilt(measure, v, ms[k..], turn); }
  }

  // ------------------------------------------------- restoring

  lemma {:induction false} ConservesLastRaw(before: seq<Group>, after: seq<Group>)
    requires Conserves(before, after)
    ensures LastRaw(after) == LastRaw(before)
    decreases |after|
  {
    if before == [] && after == [] {
    } else if before != [] && after != [] && Evolves(before[0], after[0]) && Conserves(before[1..], after[1..]) {
      ConservesLastRaw(before[1..], after[1..]);
      LastRawSplit(before);
      LastRawSplit(after);
    } else {
      ConservesLastRaw(before, after[1..]);
      LastRawSplit(after);
    }
  }

  function OwnLast(g: Group): Option<Message> {
    if IsRaw(g) then Last(g.messages) else None
  }

  lemma {:induction false} LastRawSplit(v: seq<Group>)
    requires v != []
    ensures LastRaw(v) == if LastRaw(v[1..]).Some? then LastRaw(v[1..]) else OwnLast(v[0])
  {
    if |v| > 1 {
      LastRawSplit(v[..|v| - 1]);
      assert v[..|v| - 1][1..] == v[1..][..|v| - 2];
    }
  }

  lemma {:induction false} ParseLastRaw(measure: Measure, ms: seq<Message>, turn: int)
    requires forall g :: g in Parse(measure, ms, turn) ==> IsRaw(g)
    ensures LastRaw(Parse(measure, ms, turn)) == Last(ms)
  {
    hide Parse;
    var v := Parse(measure, ms, turn);
    ParsePartitions(measure, ms, turn);
    ParseSound(measure, ms, turn);
    if v != [] {
      var n := |v| - 1;
      assert v == v[..n] + [v[n]];
      FlattenConcat(v[..n], [v[n]]);
      assert Flatten([v[n]]) == v[n].messages;
      assert v[n] in v;
    } else {
      assert ms == [];
    }
  }

  /** Saving the groups of a compacted index and restoring an index from them recovers the turn
      counter always, and the last processed message if and only if that ends a group that is
      no summary. */
  lemma RestoreAfterCompaction(measure: Measure, ms: seq<Message>, v: seq<Group>)
    requires Conserves(Parse(measure, ms, 0), v) && WellBuilt(v, UserCount(ms))
    ensures Scan(v, None, 0).1 == UserCount(ms)
    ensures Scan(v, None, 0).0 == Last(ms) <==> LastRaw(Parse(measure, ms, 0)) == Last(ms)
    ensures (forall g :: g in Parse(measure, ms, 0) ==> IsRaw(g)) ==> Scan(v, None, 0).0 == Last(ms)
  {
    hide Parse, Conserves, WellBuilt, LastRaw, Scan, UserCount;
    RestoreRecovers(v, UserCount(ms));
    ConservesLastRaw(Parse(measure, ms, 0), v);
    if forall g :: g in Parse(measure, ms, 0) ==> IsRaw(g) { ParseLastRaw(measure, ms, 0); }
  }

  // ------------------------------------------------- turn count

  /** A freshly grouped index counts one turn for each user message. */
  lemma TotalTurns(measure: Measure, ms: seq<Message>)
    ensures |AllTurns(Parse(measure, ms, 0))| == UserCount(ms)
  {
    hide Parse, UserCount;
    ParseTurns(measure, ms, 0);
    var v, n := Parse(measure, ms, 0), UserCount(ms);
    forall t: int | 1 <= t <= n ensures t in AllTurns(v) {
      assert HasTurn(v, t);
      var g :| g in v && OpensTurn(g, t);
    }
    assert AllTurns(v) == FirstTurns(n);
  }

  function FirstTurns(n: nat): (s: set<int>)
    ensures |s| == n && forall t :: t in s <==> 1 <= t <= n
  {
    if n == 0 then {} else FirstTurns(n - 1) + {n}
  }
}
