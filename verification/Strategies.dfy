/** The compaction strategies as they run, in place on a message index. */
module Strategies {
  import opened Messages
  import opened Grouping
  import opened IndexState
  import opened Index
  import opened Compaction
  import opened Collapsing
  import opened Windowing

  /** The target to use, and whether compaction should run at all: an absent trigger always
      fires, an absent target is met when the trigger does not fire, and an index with at most
      one included non-system group is never compacted. */
  method PrepareCompaction(index: MessageIndex, trigger: Option<Trigger>, target: Option<Trigger>)
    returns (goal: Trigger, ok: bool)
    ensures goal == TargetOf(trigger, target) && (ok <==> ShouldCompact(index.View(), trigger))
    ensures target.Some? ==> goal == target.value
    ensures target.None? ==> forall v :: goal(v) <==> trigger.Some? && !trigger.value(v)
    ensures ok ==> NonSystemCount(index.View()) > 1 && (trigger.Some? ==> trigger.value(index.View()))
    ensures !ok ==> NonSystemCount(index.View()) <= 1 || (trigger.Some? && !trigger.value(index.View()))
  {
    goal := TargetOf(trigger, target);
    if target.None? {
      assert forall v :: goal(v) <==> !TriggerOf(trigger)(v);
    }
    var n := index.IncludedNonSystemGroupCount();
    ok := n > 1 && TriggerOf(trigger)(index.View());
  }

  /** No exclusion count up to `n` meets the target. */
  ghost predicate NotMet(v: seq<Group>, reason: string, target: Trigger, n: int) {
    forall j: nat :: 1 <= j <= n ==> !target(ExcludeOldest(v, j, reason))
  }

  lemma NotMetStep(v: seq<Group>, reason: string, target: Trigger, n: nat)
    ensures NotMet(v, reason, target, 0)
    ensures NotMet(v, reason, target, n) && !target(ExcludeOldest(v, n + 1, reason)) ==> NotMet(v, reason, target, n + 1)
  {
  }

  lemma Stops(v: seq<Group>, reason: string, target: Trigger, most: int, k: nat)
    requires 1 <= k <= most && NotMet(v, reason, target, k - 1)
    requires k == most || target(ExcludeOldest(v, k, reason))
    ensures StopsAtOldest(v, reason, target, most, k)
  {
  }

  /** The group at a position that the loop has not reached is the original one. */
  lemma StillOriginal(v: seq<Group>, i: nat, reason: string)
    requires i < |v|
    ensures ExcludeOldest(v, Rank(v, i), reason)[i] == v[i]
  {
  }

  method Truncate(index: MessageIndex, trigger: Option<Trigger>, target: Option<Trigger>, minimum: Option<int>)
    returns (compacted: bool)
    requires index.Valid()
    modifies index.groups
    ensures TruncationOutcome(old(index.View()), index.View(), trigger, target, Floor(minimum, 32), compacted)
  {
    var goal, ok := PrepareCompaction(index, trigger, target);
    if !ok { return false; }
    var removable := index.IncludedNonSystemGroupCount();
    var maxRemovable := removable - Floor(minimum, 32);
    if maxRemovable <= 0 { return false; }
    compacted := RemoveOldest(index, goal, maxRemovable);
  }

  /** Excludes the oldest group that is not excluded yet. */
  method ExcludeAnother(index: MessageIndex, i: nat, ghost v: seq<Group>, ghost k: nat, reason: string)
    requires index.Valid() && i < |index.groups| == |v| && index.View() == ExcludeOldest(v, k, reason)
    requires IncludedNonSystem(v[i]) && Rank(v, i) == k
    modifies index.groups
    ensures index.View() == ExcludeOldest(v, k + 1, reason)
  {
    ExcludeNext(v, i, k, reason);
    hide Rank, NonSystemCount, ExcludeOldest, Exclude;
    index.ExcludeAt(i, reason);
  }

  /** The truncation loop: excludes one group after the other until the target is met. */
  method RemoveOldest(index: MessageIndex, goal: Trigger, most: nat) returns (compacted: bool)
    requires index.Valid() && 1 <= most <= NonSystemCount(index.View())
    modifies index.groups
    ensures compacted && exists k: nat :: StopsAtOldest(old(index.View()), TRUNCATED, goal, most, k)
                                       && index.View() == ExcludeOldest(old(index.View()), k, TRUNCATED)
  {
    hide Rank, NonSystemCount, ExcludeOldest, NotMet, StopsAtOldest;
    compacted := false;
    ghost var v := index.View();
    var removed := 0;
    RankEnds(v);
    ExcludeNone(v, TRUNCATED);
    NotMetStep(v, TRUNCATED, goal, 0);
    for i := 0 to |index.groups|
      invariant |index.groups| == |v| && removed == Rank(v, i) <= most
      invariant compacted == (removed > 0)
      invariant index.View() == ExcludeOldest(v, removed, TRUNCATED)
      invariant NotMet(v, TRUNCATED, goal, removed)
    {
      if removed >= most { break; }
      StillOriginal(v, i, TRUNCATED);
      RankStep(v, i);
      if IncludedNonSystem(index.groups[i].View()) {
        NotMetStep(v, TRUNCATED, goal, removed);
        ExcludeAnother(index, i, v, removed, TRUNCATED);
        removed := removed + 1;
        compacted := true;
        ghost var w := ExcludeOldest(v, removed, TRUNCATED);
        assert index.View() == w;
        if goal(index.View()) {
          assert goal(w) && NotMet(v, TRUNCATED, goal, removed - 1);
          Stops(v, TRUNCATED, goal, most, removed);
          return;
        }
      }
    }
    NotMetFewer(v, TRUNCATED, goal, removed);
    Stops(v, TRUNCATED, goal, most, removed);
  }

  lemma NotMetFewer(v: seq<Group>, reason: string, target: Trigger, n: nat)
    requires NotMet(v, reason, target, n)
    ensures NotMet(v, reason, target, n - 1)
  {
  }

  lemma RankEnds(v: seq<Group>)
    ensures Rank(v, 0) == 0 && Rank(v, |v|) == NonSystemCount(v)
  {
    assert v[..|v|] == v;
  }

  // ---------------------------------------------------------------- summarization

  /** The prompt in effect; `standard` is the program's own one, whatever its text. */
  function PromptOf(prompt: Option<string>, standard: string): string {
    if prompt.Some? then prompt.value else standard
  }

  method Summarize(index: MessageIndex, trigger: Option<Trigger>, target: Option<Trigger>,
                   summarizer: Option<Summarizer>, minimum: Option<int>, prompt: Option<string>, standard: string,
                   unavailable: string)
    returns (compacted: bool, cancelled: bool)
    requires index.Valid()
    modifies index`groups, index.groups
    ensures index.Valid() && forall g :: g in index.groups ==> g in old(index.groups) || fresh(g)
    ensures SummarizationOutcome(index.measure, old(index.View()), index.View(), trigger, target, summarizer,
                                 Floor(minimum, 8), PromptOf(prompt, standard), unavailable, compacted, cancelled)
  {
    hide StopsAtOldest, OldestMessages, ExcludeOldest, Restored, FirstNonSystem, TargetOf, SummaryText;
    var goal, ok := PrepareCompaction(index, trigger, target);
    if !ok || summarizer.None? { return false, false; }
    var count := index.IncludedNonSystemGroupCount();
    var floor := Floor(minimum, 8);
    var most := count - if floor < count then floor else count;
    if most <= 0 { return false, false; }
    ghost var k;
    compacted, cancelled, k := SummarizeOldest(index, goal, most, summarizer.value, PromptOf(prompt, standard), unavailable);
  }

  method SummarizeOldest(index: MessageIndex, goal: Trigger, most: nat, summarizer: Summarizer, prompt: string,
                         unavailable: string)
    returns (compacted: bool, cancelled: bool, ghost k: nat)
    requires index.Valid() && 1 <= most <= NonSystemCount(index.View())
    modifies index`groups, index.groups
    ensures index.Valid() && forall g :: g in index.groups ==> g in old(index.groups) || fresh(g)
    ensures StopsAtOldest(old(index.View()), SUMMARIZED, goal, most, k)
    ensures SummaryEffect(index.measure, old(index.View()), index.View(), k,
                          summarizer(Sent(old(index.View()), k, prompt)), unavailable, compacted, cancelled)
  {
    hide StopsAtOldest, OldestMessages, ExcludeOldest, Restored, FirstNonSystem, SummaryText, Picks, NonSystemCount, Rank;
    ghost var v := index.View();
    var sent, picked, at;
    sent, picked, at, k := SelectOldest(index, goal, most, TextMessage(System, prompt, false));
    assert Selected(index.groups, v, TextMessage(System, prompt, false), goal, most, k, sent, picked, at);
    assert sent == Sent(v, k, prompt);
    match summarizer(sent)
    case Summarized(text) =>
      index.InsertGroup(at, SummaryFor(index.measure, text, unavailable));
      compacted, cancelled := true, false;
    case Failed =>
      UndoSelection(index, picked, v, k);
      compacted, cancelled := false, false;
    case Cancelled =>
      UndoSelection(index, picked, v, k);
      compacted, cancelled := false, true;
  }

  /** The selection loop: excludes the oldest groups and collects their messages. */
  method SelectOldest(index: MessageIndex, goal: Trigger, most: nat, first: Message)
    returns (sent: seq<Message>, picked: seq<MessageGroup>, at: nat, ghost k: nat)
    requires index.Valid() && 1 <= most <= NonSystemCount(index.View())
    modifies index.groups
    ensures index.View() == ExcludeOldest(old(index.View()), k, SUMMARIZED)
    ensures Selected(index.groups, old(index.View()), first, goal, most, k, sent, picked, at)
  {
    hide Selected, Selecting, NotMet, Rank, NonSystemCount, ExcludeOldest, AmongOldest, Exclude, Evolves, Conserves, WellBuilt, CountIf, Project;
    ghost var v := index.View();
    sent, picked, k := [first], [], 0;
    var insertAt := -1;
    ExcludeNone(v, SUMMARIZED);
    SelectionStarts(index.groups, v, first, goal, most);
    for i := 0 to |index.groups|
      invariant index.groups == old(index.groups) && |index.groups| == |v|
      invariant index.View() == ExcludeOldest(v, k, SUMMARIZED)
      invariant Selecting(index.groups, v, i, first, goal, most, k, sent, picked, insertAt)
    {
      SelectionSize(index.groups, v, i, first, goal, most, k, sent, picked, insertAt);
      if |picked| >= most { break; }
      var done;
      sent, picked, insertAt, done, k := SelectNext(index, i, goal, most, first, sent, picked, insertAt, v, k);
      if done { return sent, picked, insertAt, k; }
    }
    SelectionEnds(index.groups, v, first, goal, most, k, sent, picked, insertAt);
    at := insertAt;
  }

  /** Selects the group at position `i` if it is an included non-system group; `done` says that
      the target is met. */
  method SelectNext(index: MessageIndex, i: nat, goal: Trigger, most: nat, first: Message,
                    sent: seq<Message>, picked: seq<MessageGroup>, insertAt: int, ghost v: seq<Group>, ghost k: nat)
    returns (sent': seq<Message>, picked': seq<MessageGroup>, insertAt': int, done: bool, ghost k': nat)
    requires index.Valid() && i < |index.groups| == |v| && |picked| < most
    requires index.View() == ExcludeOldest(v, k, SUMMARIZED)
    requires Selecting(index.groups, v, i, first, goal, most, k, sent, picked, insertAt)
    modifies index.groups
    ensures index.View() == ExcludeOldest(v, k', SUMMARIZED)
    ensures !done ==> Selecting(index.groups, v, i + 1, first, goal, most, k', sent', picked', insertAt')
    ensures done ==> 0 <= insertAt' && Selected(index.groups, v, first, goal, most, k', sent', picked', insertAt')
  {
    hide Selected, Selecting, NotMet, Rank, NonSystemCount, ExcludeOldest;
    SelectionSize(index.groups, v, i, first, goal, most, k, sent, picked, insertAt);
    SelectionStep(index.groups, v, i, first, goal, most, k, sent, picked, insertAt);
    sent', picked', insertAt', done, k' := sent, picked, insertAt, false, k;
    var group := index.groups[i];
    if IncludedNonSystem(group.View()) {
      if insertAt < 0 { insertAt' := i; }
      sent' := sent + group.messages;
      ExcludeAnother(index, i, v, k, SUMMARIZED);
      picked' := picked + [group];
      k' := k + 1;
      done := goal(index.View());
    }
  }

  /** What the selection loop has gathered when it comes to position `i`. */
  ghost predicate Selecting(groups: seq<MessageGroup>, v: seq<Group>, i: nat, first: Message, goal: Trigger, most: nat,
                            k: nat, sent: seq<Message>, picked: seq<MessageGroup>, insertAt: int)
  {
    && i <= |v| && |picked| == k == Rank(v, i) <= most
    && sent == [first] + OldestMessages(v, k)
    && (if k == 0 then insertAt == -1 else 0 <= insertAt < |v| && insertAt == FirstNonSystem(v))
    && (k == 0 ==> forall j :: 0 <= j < i ==> !IncludedNonSystem(v[j]))
    && Picks(groups, v, k, picked)
    && NotMet(v, SUMMARIZED, goal, k)
  }

  lemma SelectionStarts(groups: seq<MessageGroup>, v: seq<Group>, first: Message, goal: Trigger, most: nat)
    requires |groups| == |v|
    ensures Selecting(groups, v, 0, first, goal, most, 0, [first], [], -1)
  {
    OldestNone(v);
    PicksNone(groups, v);
    assert [first] + [] == [first];
  }

  lemma SelectionSize(groups: seq<MessageGroup>, v: seq<Group>, i: nat, first: Message, goal: Trigger, most: nat,
                      k: nat, sent: seq<Message>, picked: seq<MessageGroup>, insertAt: int)
    requires Selecting(groups, v, i, first, goal, most, k, sent, picked, insertAt)
    ensures i <= |v| && |picked| == k == Rank(v, i) <= most && (k == 0 ==> insertAt == -1) && (k > 0 ==> 0 <= insertAt)
    ensures k > 0 ==> Picks(groups, v, k, picked) && insertAt == FirstNonSystem(v) < |v| && sent == [first] + OldestMessages(v, k)
  {
  }

  /** One position further: a group that is passed over, or one that is selected. In the second
      case the selection is complete once the target is met. */
  lemma SelectionStep(groups: seq<MessageGroup>, v: seq<Group>, i: nat, first: Message, goal: Trigger, most: nat,
                      k: nat, sent: seq<Message>, picked: seq<MessageGroup>, insertAt: int)
    requires Selecting(groups, v, i, first, goal, most, k, sent, picked, insertAt) && i < |v| && k < most
    requires forall a, b :: 0 <= a < b < |groups| ==> groups[a] != groups[b]
    ensures ExcludeOldest(v, k, SUMMARIZED)[i] == v[i]
    ensures !IncludedNonSystem(v[i]) ==> Selecting(groups, v, i + 1, first, goal, most, k, sent, picked, insertAt)
    ensures IncludedNonSystem(v[i]) ==>
      var w := ExcludeOldest(v, k + 1, SUMMARIZED);
      var sent', picked', at := sent + v[i].messages, picked + [groups[i]], if insertAt < 0 then i else insertAt;
      && ExcludeOldest(v, k, SUMMARIZED)[i := Exclude(v[i], SUMMARIZED)] == w
      && (!goal(w) ==> Selecting(groups, v, i + 1, first, goal, most, k + 1, sent', picked', at))
      && (goal(w) ==> Selected(groups, v, first, goal, most, k + 1, sent', picked', at))
  {
    hide Rank, OldestMessages, FirstNonSystem, ExcludeOldest, StopsAtOldest, Picks, NotMet;
    StillOriginal(v, i, SUMMARIZED);
    RankStep(v, i);
    if IncludedNonSystem(v[i]) {
      if k == 0 { FirstFound(v, i); }
      OldestNext(v, i, k);
      ConcatAssociates([first], OldestMessages(v, k), v[i].messages);
      PicksNext(groups, v, i, k, picked);
      ExcludeNext(v, i, k, SUMMARIZED);
      NotMetStep(v, SUMMARIZED, goal, k);
      if goal(ExcludeOldest(v, k + 1, SUMMARIZED)) { Stops(v, SUMMARIZED, goal, most, k + 1); }
    }
  }

  /** What the loop hands on when it is done. */
  ghost predicate Selected(groups: seq<MessageGroup>, v: seq<Group>, first: Message, goal: Trigger, most: nat,
                           k: nat, sent: seq<Message>, picked: seq<MessageGroup>, insertAt: int)
  {
    && StopsAtOldest(v, SUMMARIZED, goal, most, k)
    && sent == [first] + OldestMessages(v, k)
    && insertAt == FirstNonSystem(v) < |v|
    && Picks(groups, v, k, picked)
  }

  lemma SelectionEnds(groups: seq<MessageGroup>, v: seq<Group>, first: Message, goal: Trigger, most: nat,
                      k: nat, sent: seq<Message>, picked: seq<MessageGroup>, insertAt: int)
    requires 1 <= most <= NonSystemCount(v)
    requires exists i: nat :: Selecting(groups, v, i, first, goal, most, k, sent, picked, insertAt) && (i == |v| || k >= most)
    ensures Selected(groups, v, first, goal, most, k, sent, picked, insertAt) && 0 <= insertAt
  {
    RankEnds(v);
    NotMetFewer(v, SUMMARIZED, goal, k);
    Stops(v, SUMMARIZED, goal, most, k);
  }

  lemma FirstFound(v: seq<Group>, i: nat)
    requires i < |v| && IncludedNonSystem(v[i]) && forall j :: 0 <= j < i ==> !IncludedNonSystem(v[j])
    ensures FirstNonSystem(v) == i
  {
  }

  /** The picked objects are those of the `k` oldest groups, each once. */
  ghost predicate Picks(groups: seq<MessageGroup>, v: seq<Group>, k: nat, picked: seq<MessageGroup>) {
    && |groups| == |v|
    && (forall i: nat :: i < |v| ==> (AmongOldest(v, i, k) <==> groups[i] in picked))
    && (forall g :: g in picked ==> g in groups)
  }

  lemma PicksNone(groups: seq<MessageGroup>, v: seq<Group>)
    requires |groups| == |v|
    ensures Picks(groups, v, 0, [])
  {
  }

  lemma PicksNext(groups: seq<MessageGroup>, v: seq<Group>, i: nat, k: nat, picked: seq<MessageGroup>)
    requires Picks(groups, v, k, picked) && i < |v| && IncludedNonSystem(v[i]) && Rank(v, i) == k
    requires forall a, b :: 0 <= a < b < |groups| ==> groups[a] != groups[b]
    ensures Picks(groups, v, k + 1, picked + [groups[i]])
  {
    hide Rank;
    forall j: nat | j < |v| ensures AmongOldest(v, j, k + 1) <==> groups[j] in picked + [groups[i]] {
      if j < i && IncludedNonSystem(v[j]) { RankStrict(v, j, i); }
      if i < j { RankStrict(v, i, j); }
    }
  }

  /** Includes the selected groups again and clears their reasons. */
  method UndoSelection(index: MessageIndex, picked: seq<MessageGroup>, ghost v: seq<Group>, ghost k: nat)
    requires index.Valid() && Picks(index.groups, v, k, picked)
    requires index.View() == ExcludeOldest(v, k, SUMMARIZED)
    modifies index.groups
    ensures index.View() == Restored(v, k)
  {
    hide Rank;
    var groups := index.groups;
    for j := 0 to |picked|
      invariant groups == index.groups
      invariant forall i: nat :: i < |v| ==>
        groups[i].View() == if groups[i] in picked[..j] then v[i].(reason := "") else ExcludeOldest(v, k, SUMMARIZED)[i]
    {
      assert picked[j] in picked;
      picked[j].Reinclude();
      assert picked[..j + 1] == picked[..j] + [picked[j]];
    }
    assert picked[..|picked|] == picked;
  }

  // ---------------------------------------------------------------- tool results

  method CollapseToolResults(index: MessageIndex, trigger: Option<Trigger>, target: Option<Trigger>,
                             minimum: Option<int>, format: Formatter)
    returns (compacted: bool)
    requires index.Valid()
    modifies index`groups, index.groups
    ensures index.Valid() && forall g :: g in index.groups ==> g in old(index.groups) || fresh(g)
    ensures ToolResultOutcome(index.measure, old(index.View()), index.View(), trigger, target,
                              Floor(minimum, 16), format, compacted)
  {
    hide Collapse, StopsCollapsing;
    var goal, ok := PrepareCompaction(index, trigger, target);
    if !ok { return false; }
    var eligible := EligibleIndices(index, Floor(minimum, 16));
    if |eligible| == 0 { return false; }
    compacted := CollapseEligible(index, eligible, goal, format);
  }

  /** Positions of the included non-system groups. */
  ghost predicate NonSystemPositions(v: seq<Group>, positions: seq<nat>, n: nat) {
    && n <= |v| && |positions| == Rank(v, n)
    && (forall r :: 0 <= r < |positions| ==> positions[r] < n && Rank(v, positions[r]) == r)
    && (forall i: nat :: i < n && IncludedNonSystem(v[i]) ==> Rank(v, i) < |positions| && positions[Rank(v, i)] == i)
  }

  method EligibleIndices(index: MessageIndex, floor: nat) returns (eligible: seq<nat>)
    ensures eligible == Eligible(index.View(), floor)
  {
    hide Rank, NonSystemCount;
    ghost var v := index.View();
    RankEnds(v);
    var positions: seq<nat> := [];
    for i := 0 to |index.groups|
      invariant NonSystemPositions(v, positions, i)
    {
      RankStep(v, i);
      if IncludedNonSystem(index.groups[i].View()) { positions := positions + [i]; }
    }
    var protectedStart := if |positions| > floor then |positions| - floor else 0;
    var protected := positions[protectedStart..];
    eligible := [];
    for i := 0 to |index.groups|
      invariant eligible == EligibleBefore(v, floor, i)
    {
      var group := index.groups[i];
      if IncludedNonSystem(v[i]) { ProtectedIs(v, positions, protectedStart, i); }
      if !group.isExcluded && group.kind == ToolCall && i !in protected { eligible := eligible + [i]; }
    }
  }

  lemma ProtectedIs(v: seq<Group>, positions: seq<nat>, start: nat, i: nat)
    requires NonSystemPositions(v, positions, |v|) && start <= |positions| && i < |v| && IncludedNonSystem(v[i])
    ensures i in positions[start..] <==> Rank(v, i) >= start
  {
    hide Rank;
    if i in positions[start..] {
      var r :| 0 <= r < |positions[start..]| && positions[start..][r] == i;
      assert positions[start + r] == i;
    }
    if Rank(v, i) >= start { assert positions[start..][Rank(v, i) - start] == i; }
  }

  /** No number of collapses up to `n` meets the target. */
  ghost predicate NotMetCollapsing(measure: Measure, v: seq<Group>, eligible: seq<nat>, format: Formatter,
                                   target: Trigger, n: int)
  {
    forall j: nat :: 1 <= j <= n && j <= |eligible| ==> !target(Collapse(measure, v, eligible[..j], format))
  }

  lemma CollapsingStarts(measure: Measure, v: seq<Group>, eligible: seq<nat>, format: Formatter, goal: Trigger)
    ensures Collapse(measure, v, eligible[..0], format) == v
    ensures NotMetCollapsing(measure, v, eligible, format, goal, 0)
  {
    CollapseNone(measure, v, format);
  }

  /** One more collapse at its shifted position; the loop is complete once the target is met. */
  lemma CollapsingStep(measure: Measure, v: seq<Group>, eligible: seq<nat>, format: Formatter, goal: Trigger, n: nat)
    requires Ascending(eligible, |v|) && n < |eligible|
    requires NotMetCollapsing(measure, v, eligible, format, goal, n)
    ensures var c := Collapse(measure, v, eligible[..n], format);
      var w := Collapse(measure, v, eligible[..n + 1], format);
      var at := eligible[n] + n;
      && at < |c|
      && InsertAt(c[at := Exclude(c[at], COLLAPSED)], at + 1, SummaryOf(measure, c[at], format)) == w
      && (!goal(w) ==> NotMetCollapsing(measure, v, eligible, format, goal, n + 1))
      && (goal(w) || n + 1 == |eligible| ==> StopsCollapsing(measure, v, eligible, format, goal, n + 1))
  {
    hide SummaryOf, Collapse;
    CollapseNext(measure, v, eligible[..n], eligible[n], format);
    assert eligible[..n + 1] == eligible[..n] + [eligible[n]];
    assert eligible[..|eligible|] == eligible;
  }

  /** The collapsing loop. Earlier insertions shift every later eligible group by the offset. */
  method CollapseEligible(index: MessageIndex, eligible: seq<nat>, goal: Trigger, format: Formatter)
    returns (compacted: bool)
    requires index.Valid() && eligible != [] && Ascending(eligible, |index.groups|)
    modifies index`groups, index.groups
    ensures index.Valid() && forall g :: g in index.groups ==> g in old(index.groups) || fresh(g)
    ensures compacted && exists k: nat ::
      && StopsCollapsing(index.measure, old(index.View()), eligible, format, goal, k)
      && index.View() == Collapse(index.measure, old(index.View()), eligible[..k], format)
  {
    hide Collapse, StopsCollapsing, NotMetCollapsing, SummaryOf, InsertAt;
    compacted := false;
    ghost var v := index.View();
    var offset := 0;
    CollapsingStarts(index.measure, v, eligible, format, goal);
    for n := 0 to |eligible|
      invariant index.Valid() && forall g :: g in index.groups ==> g in old(index.groups) || fresh(g)
      invariant offset == n && compacted == (n > 0)
      invariant index.View() == Collapse(index.measure, v, eligible[..n], format)
      invariant NotMetCollapsing(index.measure, v, eligible, format, goal, n)
      invariant n == |eligible| ==> StopsCollapsing(index.measure, v, eligible, format, goal, n)
    {
      CollapsingStep(index.measure, v, eligible, format, goal, n);
      assert forall i :: 0 <= i < |index.groups| ==> index.groups[i] in index.groups;
      CollapseAnother(index, eligible, n, offset, v, format);
      offset := offset + 1;
      compacted := true;
      ghost var w := Collapse(index.measure, v, eligible[..n + 1], format);
      assert index.View() == w;
      if goal(index.View()) {
        assert goal(w);
        return;
      }
    }
  }

  /** Collapses the next eligible group at its shifted position. */
  method CollapseAnother(index: MessageIndex, eligible: seq<nat>, n: nat, offset: nat, ghost v: seq<Group>, format: Formatter)
    requires index.Valid() && n < |eligible| && offset == n && Ascending(eligible, |v|)
    requires index.View() == Collapse(index.measure, v, eligible[..n], format)
    modifies index`groups, index.groups
    ensures index.Valid() && forall g :: g in index.groups ==> g in old(index.groups) || fresh(g)
    ensures index.View() == Collapse(index.measure, v, eligible[..n + 1], format)
  {
    hide Collapse, SummaryOf, InsertAt;
    CollapseNext(index.measure, v, eligible[..n], eligible[n], format);
    assert eligible[..n + 1] == eligible[..n] + [eligible[n]];
    var at := eligible[n] + offset;
    assert index.groups[at] in index.groups;
    CollapseAt(index, at, format);
  }

  /** Excludes the group at a position and inserts its summary behind it. */
  method CollapseAt(index: MessageIndex, at: nat, format: Formatter)
    requires index.Valid() && at < |index.groups|
    modifies index`groups, index.groups[at]
    ensures index.Valid() && forall g :: g in index.groups ==> g in old(index.groups) || fresh(g)
    ensures var c := old(index.View());
      index.View() == InsertAt(c[at := Exclude(c[at], COLLAPSED)], at + 1, SummaryOf(index.measure, c[at], format))
  {
    var group := index.groups[at];
    var summary := SummaryOf(index.measure, group.View(), format);
    index.ExcludeAt(at, COLLAPSED);
    index.InsertGroup(at + 1, summary);
  }

  // ---------------------------------------------------------------- sliding window

  predicate OfTurn(v: seq<Group>, n: nat, i: nat, t: int)
    requires n <= |v|
  {
    i < n && InTurn(v[i]) && v[i].turn.value == t
  }

  /** The turn table of the groups before position `n`. */
  ghost predicate TurnTable(v: seq<Group>, n: nat, table: map<int, seq<nat>>, order: seq<int>) {
    && n <= |v| && order == TurnOrder(v[..n])
    && (forall t :: t in table <==> t in order)
    && (forall t, i: nat :: t in table ==> (i in table[t] <==> OfTurn(v, n, i, t)))
  }

  lemma NoneBefore(v: seq<Group>, n: nat, t: int)
    requires n <= |v| && t !in TurnOrder(v[..n])
    ensures forall i: nat :: i < n && InTurn(v[i]) ==> v[i].turn.value != t
  {
    TurnOrderIs(v[..n]);
    forall i: nat | i < n && InTurn(v[i]) ensures v[i].turn.value != t {
      assert v[i] in v[..n];
      assert TurnPresent(v[..n], v[i].turn.value);
    }
  }

  lemma OrderStep(v: seq<Group>, n: nat)
    requires n < |v|
    ensures TurnOrder(v[..n + 1])
         == TurnOrder(v[..n]) + if InTurn(v[n]) && v[n].turn.value !in TurnOrder(v[..n]) then [v[n].turn.value] else []
  {
    assert v[..n + 1][..n] == v[..n];
  }

  /** The table with one more group taken in. */
  function Extend(table: map<int, seq<nat>>, g: Group, n: nat): map<int, seq<nat>> {
    if !InTurn(g) then table
    else table[g.turn.value := (if g.turn.value in table then table[g.turn.value] else []) + [n]]
  }

  lemma TurnTableStep(v: seq<Group>, n: nat, table: map<int, seq<nat>>, order: seq<int>)
    requires TurnTable(v, n, table, order) && n < |v|
    ensures TurnTable(v, n + 1, Extend(table, v[n], n), TurnOrder(v[..n + 1]))
  {
    hide TurnOrder;
    OrderStep(v, n);
    if InTurn(v[n]) && v[n].turn.value !in order { NoneBefore(v, n, v[n].turn.value); }
  }

  method BuildTurnTable(index: MessageIndex) returns (table: map<int, seq<nat>>, order: seq<int>)
    ensures TurnTable(index.View(), |index.View()|, table, order) && order == TurnOrder(index.View())
  {
    hide TurnOrder;
    ghost var v := index.View();
    table, order := map[], [];
    NoTurns(v);
    for n := 0 to |index.groups|
      invariant TurnTable(v, n, table, order)
    {
      TurnTableStep(v, n, table, order);
      OrderStep(v, n);
      var group := index.groups[n];
      if group.isExcluded || group.kind == SystemKind || group.turnIndex.None? { continue; }
      var t := group.turnIndex.value;
      if t <= 0 { continue; }
      if t !in table { order := order + [t]; }
      table := table[t := (if t in table then table[t] else []) + [n]];
    }
    assert v[..|v|] == v;
  }

  lemma NoTurns(v: seq<Group>)
    ensures TurnTable(v, 0, map[], [])
  {
  }

  ghost predicate NotMetTurns(v: seq<Group>, target: Trigger, n: int) {
    forall j: nat :: 1 <= j <= n && j <= |TurnOrder(v)| ==> !target(ExcludeTurns(v, TurnOrder(v)[..j]))
  }

  method SlideWindow(index: MessageIndex, trigger: Option<Trigger>, target: Option<Trigger>, minimum: Option<int>)
    returns (compacted: bool)
    requires index.Valid()
    modifies index.groups
    ensures WindowOutcome(old(index.View()), index.View(), trigger, target, Floor(minimum, 1), compacted)
  {
    hide ExcludeTurns, StopsAtTurn, TurnOrder;
    var goal, ok := PrepareCompaction(index, trigger, target);
    if !ok { return false; }
    var table, order := BuildTurnTable(index);
    var floor := Floor(minimum, 1);
    compacted := DropTurns(index, table, order, goal, if floor < |order| then floor else |order|);
  }

  /** The window loop: excludes turn after turn, passing over the protected last ones. */
  method DropTurns(index: MessageIndex, table: map<int, seq<nat>>, order: seq<int>, goal: Trigger, turnsToProtect: nat)
    returns (compacted: bool)
    requires index.Valid() && order == TurnOrder(index.View()) && turnsToProtect <= |order|
    requires TurnTable(index.View(), |index.View()|, table, order)
    modifies index.groups
    ensures var v := old(index.View());
      if turnsToProtect == |order| then !compacted && index.View() == v
      else compacted && exists k: nat ::
        StopsAtTurn(v, goal, |order| - turnsToProtect, k) && index.View() == ExcludeTurns(v, order[..k])
  {
    hide ExcludeTurns, StopsAtTurn, NotMetTurns, TurnTable, TurnOrder;
    ghost var v, groups := index.View(), index.groups;
    var most := |order| - turnsToProtect;
    var protected := order[most..];
    TurnOrderIs(v);
    compacted := false;
    DroppingStarts(v, goal);
    for j := 0 to |order|
      invariant index.groups == groups
      invariant var m := if j < most then j else most;
        && index.View() == ExcludeTurns(v, order[..m]) && NotMetTurns(v, goal, m) && compacted == (m > 0)
    {
      ProtectedTurn(order, most, j);
      if order[j] in protected { continue; }
      DropTurn(index, table, order, j, v);
      compacted := true;
      DroppingStep(v, goal, most, j);
      ghost var w := ExcludeTurns(v, order[..j + 1]);
      assert index.View() == w;
      if goal(index.View()) {
        assert goal(w);
        return;
      }
    }
    DroppingEnds(v, goal, most);
  }

  lemma DroppingStarts(v: seq<Group>, goal: Trigger)
    ensures ExcludeTurns(v, TurnOrder(v)[..0]) == v && NotMetTurns(v, goal, 0)
  {
  }

  lemma ProtectedTurn(order: seq<int>, most: nat, j: nat)
    requires Distinct(order) && most <= |order| && j < |order|
    ensures order[j] in order[most..] <==> j >= most
  {
    if j >= most { assert order[most..][j - most] == order[j]; }
  }

  lemma DroppingStep(v: seq<Group>, goal: Trigger, most: nat, j: nat)
    requires j < most <= |TurnOrder(v)| && NotMetTurns(v, goal, j)
    ensures var w := ExcludeTurns(v, TurnOrder(v)[..j + 1]);
      && (!goal(w) ==> NotMetTurns(v, goal, j + 1))
      && (goal(w) ==> StopsAtTurn(v, goal, most, j + 1))
  {
    hide ExcludeTurns, TurnOrder;
  }

  lemma DroppingEnds(v: seq<Group>, goal: Trigger, most: nat)
    requires most <= |TurnOrder(v)| && NotMetTurns(v, goal, most)
    ensures most > 0 ==> StopsAtTurn(v, goal, most, most)
  {
    hide ExcludeTurns, TurnOrder;
  }

  /** Excludes every group of one turn. */
  method DropTurn(index: MessageIndex, table: map<int, seq<nat>>, order: seq<int>, j: nat, ghost v: seq<Group>)
    requires index.Valid() && j < |order| && Distinct(order)
    requires TurnTable(v, |v|, table, order) && index.View() == ExcludeTurns(v, order[..j])
    modifies index.groups
    ensures index.View() == ExcludeTurns(v, order[..j + 1])
  {
    hide TurnOrder;
    assert order[j] in order;
    var positions := table[order[j]];
    assert order[..j + 1] == order[..j] + [order[j]];
    for p := 0 to |positions|
      invariant |index.groups| == |v|
      invariant forall i: nat :: i < |v| ==>
        index.View()[i] == if i in positions[..p] then Exclude(v[i], WINDOWED) else ExcludeTurns(v, order[..j])[i]
    {
      assert positions[p] in table[order[j]];
      assert OfTurn(v, |v|, positions[p], order[j]);
      assert positions[..p + 1] == positions[..p] + [positions[p]];
      index.ExcludeAt(positions[p], WINDOWED);
    }
    assert positions[..|positions|] == positions;
  }
}
