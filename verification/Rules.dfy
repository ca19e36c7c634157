/** What each compaction strategy must do, in plain terms, and that it does nothing else. */
module Rules {
  import opened Messages
  import opened Grouping
  import opened IndexState
  import opened Compaction
  import opened Collapsing
  import opened Windowing
  import opened Uniqueness
  import opened Strategies
  import opened Pipeline

  /** A strategy without a trigger always runs. */
  predicate Fires(trigger: Option<Trigger>, v: seq<Group>) {
    trigger.Some? ==> trigger.value(v)
  }

  /** It stops at its target or, without one, where its trigger does not fire any more. */
  predicate IsMet(trigger: Option<Trigger>, target: Option<Trigger>, v: seq<Group>) {
    match target
    case Some(t) => t(v)
    case None => !Fires(trigger, v)
  }

  lemma TargetIsMet(trigger: Option<Trigger>, target: Option<Trigger>)
    ensures forall v :: TargetOf(trigger, target)(v) == IsMet(trigger, target, v)
    ensures forall v :: ShouldCompact(v, trigger) <==> NonSystemCount(v) > 1 && Fires(trigger, v)
  {
    forall v ensures TargetOf(trigger, target)(v) == IsMet(trigger, target, v) {
      if target.None? { assert TargetOf(trigger, target)(v) == !TriggerOf(trigger)(v); }
    }
  }

  // ---------------------------------------------------------------- the oldest groups

  /** Some included non-system groups are excluded with the reason, and nothing else differs. */
  ghost predicate ExcludesSome(v: seq<Group>, u: seq<Group>, reason: string) {
    && |u| == |v|
    && forall i :: 0 <= i < |v| ==>
         u[i] == v[i] || (!v[i].excluded && !v[i].kind.SystemKind? && u[i] == v[i].(excluded := true, reason := reason))
  }

  /** Once one of them stays, all later ones do. */
  ghost predicate ExcludesOldest(v: seq<Group>, u: seq<Group>, reason: string) {
    && ExcludesSome(v, u, reason)
    && forall i, j :: 0 <= i < j < |v| && IncludedNonSystem(v[i]) && u[i] == v[i] ==> u[j] == v[j]
  }

  /** Excluding the `k` oldest groups is the only way to exclude oldest groups and leave so many. */
  lemma {:induction false} OldestExactly(v: seq<Group>, u: seq<Group>, k: nat, reason: string)
    requires k <= NonSystemCount(v)
    ensures u == ExcludeOldest(v, k, reason) <==> ExcludesOldest(v, u, reason) && NonSystemCount(u) == NonSystemCount(v) - k
  {
    if u == ExcludeOldest(v, k, reason) { OldestExcluded(v, k, reason); }
    if ExcludesOldest(v, u, reason) && NonSystemCount(u) == NonSystemCount(v) - k { OldestForced(v, u, k, reason); }
  }

  lemma OldestExcluded(v: seq<Group>, k: nat, reason: string)
    requires k <= NonSystemCount(v)
    ensures var u := ExcludeOldest(v, k, reason); ExcludesOldest(v, u, reason) && NonSystemCount(u) == NonSystemCount(v) - k
  {
    var u := ExcludeOldest(v, k, reason);
    ExcludeOldestCount(v, k, reason);
    hide Rank, NonSystemCount;
    forall i: nat, j: nat | i < j < |v| && IncludedNonSystem(v[i]) && u[i] == v[i] ensures u[j] == v[j] { RankMonotone(v, i, j); }
  }

  lemma {:induction false} OldestForced(v: seq<Group>, u: seq<Group>, k: nat, reason: string)
    requires k <= NonSystemCount(v) && ExcludesOldest(v, u, reason) && NonSystemCount(u) == NonSystemCount(v) - k
    ensures u == ExcludeOldest(v, k, reason)
  {
    hide *;
    SameLength(v, u, reason);
    if v != [] {
      var n := |v| - 1;
      var v', u' := v[..n], u[..n];
      LastForced(v, u, k, reason);
      ExcludeOldestPrefix(v, k, reason, n);
      LastExcluded(v, k, reason);
      if u[n] == v[n] {
        OldestForced(v', u', k, reason);
      } else {
        NoneStays(v', u', v, u, reason);
        OldestForced(v', u', NonSystemCount(v'), reason);
        OldestAll(v', reason);
      }
      var w := ExcludeOldest(v, k, reason);
      assert u == u' + [u[n]] && w == w[..n] + [w[n]];
    } else {
      assert ExcludeOldest(v, k, reason) == [];
    }
  }

  lemma SameLength(v: seq<Group>, u: seq<Group>, reason: string)
    requires ExcludesOldest(v, u, reason)
    ensures |u| == |v|
  {
  }

  lemma LastExcluded(v: seq<Group>, k: nat, reason: string)
    requires v != []
    ensures var n, w := |v| - 1, ExcludeOldest(v, k, reason);
      |w| == |v| && w[n] == if IncludedNonSystem(v[n]) && NonSystemCount(v[..n]) < k then Exclude(v[n], reason) else v[n]
  {
    hide NonSystemCount;
  }

  lemma LastForced(v: seq<Group>, u: seq<Group>, k: nat, reason: string)
    requires v != [] && ExcludesOldest(v, u, reason)
    ensures var n := |v| - 1;
      && |u| == |v| && ExcludesOldest(v[..n], u[..n], reason)
      && NonSystemCount(v) == NonSystemCount(v[..n]) + (if IncludedNonSystem(v[n]) then 1 else 0)
      && NonSystemCount(u) == NonSystemCount(u[..n]) + (if IncludedNonSystem(u[n]) then 1 else 0)
      && (u[n] == v[n] || (IncludedNonSystem(v[n]) && !IncludedNonSystem(u[n]) && u[n] == Exclude(v[n], reason)))
  {
  }

  /** Where the last group is excluded, none before it stays. */
  lemma NoneStays(v': seq<Group>, u': seq<Group>, v: seq<Group>, u: seq<Group>, reason: string)
    requires v != [] && ExcludesOldest(v, u, reason) && v' == v[..|v| - 1] && u' == u[..|v| - 1] && u[|v| - 1] != v[|v| - 1]
    ensures NonSystemCount(u') == 0
  {
    forall i | 0 <= i < |u'| ensures !IncludedNonSystem(u'[i]) {
      if IncludedNonSystem(v[i]) { assert u[i] != v[i]; }
    }
    NoneCounts(u');
  }

  lemma OldestAll(v: seq<Group>, reason: string)
    ensures ExcludeOldest(v, NonSystemCount(v), reason) == ExcludeOldest(v, NonSystemCount(v) + 1, reason)
  {
    assert v[..|v|] == v;
    forall i: nat | i < |v| && IncludedNonSystem(v[i]) ensures Rank(v, i) < NonSystemCount(v) { RankStrict(v, i, |v|); }
    hide Rank, NonSystemCount;
  }

  /** The oldest groups are excluded one by one until the target is met or only `floor` are left,
      and at least one is. */
  ghost predicate StopsInTime(v: seq<Group>, u: seq<Group>, reason: string, trigger: Option<Trigger>, target: Option<Trigger>, floor: nat) {
    && ExcludesOldest(v, u, reason) && floor <= NonSystemCount(u) < NonSystemCount(v)
    && (NonSystemCount(u) == floor || IsMet(trigger, target, u))
    && forall x :: ExcludesOldest(v, x, reason) && NonSystemCount(u) < NonSystemCount(x) < NonSystemCount(v) ==> !IsMet(trigger, target, x)
  }

  lemma StopIsInTime(v: seq<Group>, u: seq<Group>, reason: string, trigger: Option<Trigger>, target: Option<Trigger>, floor: nat, k: nat)
    requires NonSystemCount(v) > floor && k <= NonSystemCount(v) && u == ExcludeOldest(v, k, reason)
    ensures StopsAtOldest(v, reason, TargetOf(trigger, target), NonSystemCount(v) - floor, k) <==> StopsInTime(v, u, reason, trigger, target, floor)
  {
    TargetIsMet(trigger, target);
    OldestExactly(v, u, k, reason);
    var n := NonSystemCount(v);
    hide NonSystemCount, ExcludesOldest, ExcludeOldest, IsMet, TargetOf;
    if StopsAtOldest(v, reason, TargetOf(trigger, target), n - floor, k) {
      forall x | ExcludesOldest(v, x, reason) && n - k < NonSystemCount(x) < n ensures !IsMet(trigger, target, x) {
        OldestExactly(v, x, n - NonSystemCount(x), reason);
      }
    }
    if StopsInTime(v, u, reason, trigger, target, floor) {
      forall j: nat | 1 <= j < k ensures !IsMet(trigger, target, ExcludeOldest(v, j, reason)) {
        OldestExactly(v, ExcludeOldest(v, j, reason), j, reason);
      }
    }
  }

  /** Truncation, in plain terms. */
  ghost predicate TruncationRule(v: seq<Group>, w: seq<Group>, trigger: Option<Trigger>, target: Option<Trigger>,
                                 floor: nat, compacted: bool)
  {
    && (compacted <==> NonSystemCount(v) > 1 && NonSystemCount(v) > floor && Fires(trigger, v))
    && if compacted then StopsInTime(v, w, TRUNCATED, trigger, target, floor) else w == v
  }

  /** The strategy does what the rule says, and all that the rule admits. */
  lemma TruncationExactly(v: seq<Group>, w: seq<Group>, trigger: Option<Trigger>, target: Option<Trigger>,
                          floor: nat, compacted: bool)
    ensures TruncationOutcome(v, w, trigger, target, floor, compacted) <==> TruncationRule(v, w, trigger, target, floor, compacted)
  {
    TargetIsMet(trigger, target);
    var n := NonSystemCount(v);
    hide NonSystemCount, StopsAtOldest, TargetOf, ExcludeOldest, Fires;
    if ShouldCompact(v, trigger) && n > floor {
      if k: nat :| StopsAtOldest(v, TRUNCATED, TargetOf(trigger, target), n - floor, k) && w == ExcludeOldest(v, k, TRUNCATED) {
        assert k <= n by { StopBound(v, TRUNCATED, TargetOf(trigger, target), n - floor, k); }
        StopIsInTime(v, w, TRUNCATED, trigger, target, floor, k);
      }
      if StopsInTime(v, w, TRUNCATED, trigger, target, floor) {
        var k: nat := n - NonSystemCount(w);
        OldestExactly(v, w, k, TRUNCATED);
        StopIsInTime(v, w, TRUNCATED, trigger, target, floor, k);
      }
    }
    hide StopsInTime;
  }

  lemma StopBound(v: seq<Group>, reason: string, target: Trigger, most: int, k: nat)
    requires StopsAtOldest(v, reason, target, most, k)
    ensures 1 <= k <= most
  {
  }

  // ---------------------------------------------------------------- summarization

  /** The summarizer's text after its heading, or a notice in place of a blank one. */
  ghost predicate Says(message: Message, text: string, unavailable: string) {
    exists shown: string ::
      && message == Message(Assistant, [Text(Header(None, None), "[Summary]\n" + shown)], "", "", true)
      && ((exists c :: c in text && !IsSpace(c)) ==> shown == text)
      && ((forall c :: c in text ==> IsSpace(c)) ==> shown == if unavailable != "" then unavailable else "[Summary unavailable]")
  }

  /** A fresh summary group of one message. */
  ghost predicate IsSummaryGroup(measure: Measure, g: Group, turn: Option<int>) {
    Records(measure, g) && g.kind.Summary? && |g.messages| == 1 && g.turn == turn
  }

  /** What follows from what the summarizer was sent: its summary stands before the first group that
      was picked, or the picked groups are included again, without a reason. */
  ghost predicate SummaryRule(measure: Measure, v: seq<Group>, u: seq<Group>, w: seq<Group>, result: SummaryResult,
                              unavailable: string, compacted: bool, cancelled: bool)
    requires |u| == |v|
  {
    match result
    case Summarized(text) =>
      && compacted && !cancelled
      && exists p: nat, g: Group ::
           && p < |v| && u[p] != v[p] && (forall i :: 0 <= i < p ==> !IncludedNonSystem(v[i]))
           && w == InsertAt(u, p, g) && IsSummaryGroup(measure, g, None) && Says(g.messages[0], text, unavailable)
    case _ =>
      && !compacted && (cancelled <==> result.Cancelled?)
      && |w| == |v| && forall i :: 0 <= i < |v| ==> w[i] == if u[i] == v[i] then v[i] else v[i].(reason := "")
  }

  /** In `u` the groups picked are excluded. Their messages are sent behind the prompt. */
  ghost predicate Picked(measure: Measure, v: seq<Group>, u: seq<Group>, sent: seq<Message>, w: seq<Group>,
                         trigger: Option<Trigger>, target: Option<Trigger>, summarizer: Summarizer,
                         floor: nat, prompt: string, unavailable: string, compacted: bool, cancelled: bool)
  {
    && |u| == |v| && StopsInTime(v, u, SUMMARIZED, trigger, target, floor)
    && Project(v, IncludedNonSystem) == sent + Project(u, IncludedNonSystem)
    && SummaryRule(measure, v, u, w, summarizer([Message(System, [Text(Header(None, None), prompt)], "", "", false)] + sent),
                   unavailable, compacted, cancelled)
  }

  /** Summarization, in plain terms. */
  ghost predicate SummarizationRule(measure: Measure, v: seq<Group>, w: seq<Group>,
                                    trigger: Option<Trigger>, target: Option<Trigger>, summarizer: Option<Summarizer>,
                                    floor: nat, prompt: string, unavailable: string, compacted: bool, cancelled: bool)
  {
    if NonSystemCount(v) > 1 && NonSystemCount(v) > floor && Fires(trigger, v) && summarizer.Some? then
      exists u, sent ::
        Picked(measure, v, u, sent, w, trigger, target, summarizer.value, floor, prompt, unavailable, compacted, cancelled)
    else !compacted && !cancelled && w == v
  }

  lemma SaysExactly(message: Message, text: string, unavailable: string)
    ensures Says(message, text, unavailable) <==> message == TextMessage(Assistant, SummaryText(text, unavailable), true)
  {
    if message == TextMessage(Assistant, SummaryText(text, unavailable), true) {
      var shown := if !IsBlank(text) then text else if unavailable != "" then unavailable else "[Summary unavailable]";
      assert SummaryText(text, unavailable) == "[Summary]\n" + shown;
      hide IsSpace, SummaryText;
    }
  }

  lemma SummaryGroupExactly(measure: Measure, g: Group, text: string, unavailable: string)
    ensures g == SummaryFor(measure, text, unavailable) <==>
      IsSummaryGroup(measure, g, None) && Says(g.messages[0], text, unavailable)
  {
    hide SummaryText, Says;
    if |g.messages| == 1 {
      SaysExactly(g.messages[0], text, unavailable);
      assert g.messages == [g.messages[0]];
    }
  }

  lemma FirstPicked(v: seq<Group>, k: nat)
    requires 1 <= k <= NonSystemCount(v)
    ensures var u, p := ExcludeOldest(v, k, SUMMARIZED), FirstNonSystem(v);
      p < |v| && u[p] != v[p] && forall i: nat :: i < |v| && u[i] != v[i] && (forall j :: 0 <= j < i ==> !IncludedNonSystem(v[j])) ==> i == p
  {
    FirstIsOldest(v);
    hide Rank, NonSystemCount;
  }

  lemma EffectIsRule(measure: Measure, v: seq<Group>, w: seq<Group>, k: nat, result: SummaryResult,
                     unavailable: string, compacted: bool, cancelled: bool)
    requires 1 <= k <= NonSystemCount(v)
    ensures SummaryEffect(measure, v, w, k, result, unavailable, compacted, cancelled) <==>
      SummaryRule(measure, v, ExcludeOldest(v, k, SUMMARIZED), w, result, unavailable, compacted, cancelled)
  {
    var u := ExcludeOldest(v, k, SUMMARIZED);
    if result.Summarized? {
      FirstPicked(v, k);
      var p := FirstNonSystem(v);
      var s := SummaryFor(measure, result.text, unavailable);
      SummaryGroupExactly(measure, s, result.text, unavailable);
      hide ExcludeOldest, Says, SummaryFor, NonSystemCount, IsSummaryGroup;
      if SummaryRule(measure, v, u, w, result, unavailable, compacted, cancelled) {
        var q: nat, g: Group :|
          && q < |v| && u[q] != v[q] && (forall i :: 0 <= i < q ==> !IncludedNonSystem(v[i]))
          && w == InsertAt(u, q, g) && IsSummaryGroup(measure, g, None) && Says(g.messages[0], result.text, unavailable);
        SummaryGroupExactly(measure, g, result.text, unavailable);
        assert q == p && g == s;
      }
    } else {
      RestoredPicked(v, k);
      hide ExcludeOldest, Restored, NonSystemCount;
    }
  }

  lemma RestoredPicked(v: seq<Group>, k: nat)
    ensures var u, r := ExcludeOldest(v, k, SUMMARIZED), Restored(v, k);
      |u| == |v| && |r| == |v| && forall i :: 0 <= i < |v| ==> r[i] == if u[i] == v[i] then v[i] else v[i].(reason := "")
  {
    hide Rank, NonSystemCount;
  }

  lemma SummarizationExactly(measure: Measure, v: seq<Group>, w: seq<Group>,
                             trigger: Option<Trigger>, target: Option<Trigger>, summarizer: Option<Summarizer>,
                             floor: nat, prompt: string, unavailable: string, compacted: bool, cancelled: bool)
    ensures SummarizationOutcome(measure, v, w, trigger, target, summarizer, floor, prompt, unavailable, compacted, cancelled)
       <==> SummarizationRule(measure, v, w, trigger, target, summarizer, floor, prompt, unavailable, compacted, cancelled)
  {
    hide NonSystemCount, StopsAtOldest, TargetOf, ExcludeOldest, Fires, SummaryEffect, StopsInTime, Picked;
    TargetIsMet(trigger, target);
    var n := NonSystemCount(v);
    if ShouldCompact(v, trigger) && n > floor && summarizer.Some? {
      if k: nat :| StopsAtOldest(v, SUMMARIZED, TargetOf(trigger, target), n - floor, k)
                   && SummaryEffect(measure, v, w, k, summarizer.value(Sent(v, k, prompt)), unavailable, compacted, cancelled)
      {
        EffectIsPicked(measure, v, w, trigger, target, summarizer.value, floor, prompt, unavailable, compacted, cancelled, k);
      }
      if u, sent :| Picked(measure, v, u, sent, w, trigger, target, summarizer.value, floor, prompt, unavailable, compacted, cancelled) {
        var k := PickedIsEffect(measure, v, u, sent, w, trigger, target, summarizer.value, floor, prompt, unavailable, compacted, cancelled);
      }
    }
  }

  lemma EffectIsPicked(measure: Measure, v: seq<Group>, w: seq<Group>, trigger: Option<Trigger>, target: Option<Trigger>,
                       summarizer: Summarizer, floor: nat, prompt: string, unavailable: string, compacted: bool, cancelled: bool, k: nat)
    requires NonSystemCount(v) > floor
    requires StopsAtOldest(v, SUMMARIZED, TargetOf(trigger, target), NonSystemCount(v) - floor, k)
    requires SummaryEffect(measure, v, w, k, summarizer(Sent(v, k, prompt)), unavailable, compacted, cancelled)
    ensures Picked(measure, v, ExcludeOldest(v, k, SUMMARIZED), OldestMessages(v, k), w, trigger, target, summarizer, floor,
                   prompt, unavailable, compacted, cancelled)
  {
    hide NonSystemCount, StopsAtOldest, TargetOf, ExcludeOldest, OldestMessages, Project, SummaryEffect, SummaryRule, StopsInTime;
    StopBound(v, SUMMARIZED, TargetOf(trigger, target), NonSystemCount(v) - floor, k);
    StopIsInTime(v, ExcludeOldest(v, k, SUMMARIZED), SUMMARIZED, trigger, target, floor, k);
    OldestComeFirst(v, k);
    EffectIsRule(measure, v, w, k, summarizer(Sent(v, k, prompt)), unavailable, compacted, cancelled);
  }

  lemma PickedIsEffect(measure: Measure, v: seq<Group>, u: seq<Group>, sent: seq<Message>, w: seq<Group>,
                       trigger: Option<Trigger>, target: Option<Trigger>, summarizer: Summarizer,
                       floor: nat, prompt: string, unavailable: string, compacted: bool, cancelled: bool)
    returns (k: nat)
    requires NonSystemCount(v) > floor
    requires Picked(measure, v, u, sent, w, trigger, target, summarizer, floor, prompt, unavailable, compacted, cancelled)
    ensures StopsAtOldest(v, SUMMARIZED, TargetOf(trigger, target), NonSystemCount(v) - floor, k)
    ensures SummaryEffect(measure, v, w, k, summarizer(Sent(v, k, prompt)), unavailable, compacted, cancelled)
  {
    hide NonSystemCount, StopsAtOldest, TargetOf, ExcludeOldest, OldestMessages, Project, SummaryEffect, SummaryRule, StopsInTime;
    InTimeBound(v, u, SUMMARIZED, trigger, target, floor);
    k := NonSystemCount(v) - NonSystemCount(u);
    OldestExactly(v, u, k, SUMMARIZED);
    StopIsInTime(v, u, SUMMARIZED, trigger, target, floor, k);
    OldestComeFirst(v, k);
    SameFrontOf(sent, OldestMessages(v, k), Project(u, IncludedNonSystem));
    EffectIsRule(measure, v, w, k, summarizer(Sent(v, k, prompt)), unavailable, compacted, cancelled);
  }

  lemma InTimeBound(v: seq<Group>, u: seq<Group>, reason: string, trigger: Option<Trigger>, target: Option<Trigger>, floor: nat)
    requires StopsInTime(v, u, reason, trigger, target, floor)
    ensures ExcludesOldest(v, u, reason) && floor <= NonSystemCount(u) < NonSystemCount(v)
  {
  }

  lemma SameFrontOf<T>(x: seq<T>, y: seq<T>, z: seq<T>)
    requires x + z == y + z
    ensures x == y
  {
    assert |x| == |y|;
    assert (x + z)[..|x|] == x && (y + z)[..|y|] == y;
  }

  // ---------------------------------------------------------------- tool results

  /** A tool call that is included and has at least `floor` included non-system groups behind it. */
  predicate MayCollapse(v: seq<Group>, i: nat, floor: nat)
    requires i < |v|
  {
    !v[i].excluded && v[i].kind.ToolCall? && NonSystemCount(v[i + 1..]) >= floor
  }

  lemma EligibleIff(v: seq<Group>, i: nat, floor: nat)
    requires i < |v|
    ensures IsEligible(v, i, floor) <==> MayCollapse(v, i, floor)
  {
    assert v == v[..i + 1] + v[i + 1..];
    CountConcat(v[..i + 1], v[i + 1..], IncludedNonSystem);
    RankStep(v, i);
  }

  function MarksBefore(marks: seq<nat>, i: nat): nat {
    |set m | m in marks && m < i|
  }

  lemma MarksStep(marks: seq<nat>, i: nat)
    ensures MarksBefore(marks, i + 1) == MarksBefore(marks, i) + if i in marks then 1 else 0
    ensures MarksBefore(marks, 0) == 0
  {
    assert (set m | m in marks && m < i + 1) == (set m | m in marks && m < i) + if i in marks then {i} else {};
    assert (set m | m in marks && m < 0) == {};
  }

  /** The summary of a tool call: one message with the formatted text, in the same turn. */
  ghost predicate SummarizesCall(measure: Measure, g: Group, s: Group, format: Formatter) {
    && IsSummaryGroup(measure, s, g.turn)
    && s.messages[0] == Message(Assistant, [Text(Header(None, None), format(g))], "", "", true)
  }

  /** The marked groups are excluded, each with its summary directly behind it, and all others are
      as they were, every one moved by the number of marks before it. */
  ghost predicate IsCollapse(measure: Measure, v: seq<Group>, w: seq<Group>, marks: seq<nat>, format: Formatter) {
    && |w| == |v| + MarksBefore(marks, |v|)
    && forall i: nat :: i < |v| ==> CollapsedAt(measure, v, w, marks, format, i)
  }

  ghost predicate CollapsedAt(measure: Measure, v: seq<Group>, w: seq<Group>, marks: seq<nat>, format: Formatter, i: nat)
    requires i < |v|
  {
    var at := i + MarksBefore(marks, i);
    if i in marks then
      && at + 1 < |w| && w[at] == v[i].(excluded := true, reason := "collapsed by ToolResultStrategy")
      && SummarizesCall(measure, v[i], w[at + 1], format)
    else at < |w| && w[at] == v[i]
  }

  lemma {:induction false} CollapseIs(measure: Measure, v: seq<Group>, marks: seq<nat>, format: Formatter)
    ensures IsCollapse(measure, v, Collapse(measure, v, marks, format), marks, format)
  {
    var w := Collapse(measure, v, marks, format);
    if v == [] {
      MarksStep(marks, 0);
    } else {
      var n := |v| - 1;
      var w' := Collapse(measure, v[..n], marks, format);
      CollapseIs(measure, v[..n], marks, format);
      MarksStep(marks, n);
      hide MarksBefore;
      forall i: nat | i < |v| ensures CollapsedAt(measure, v, w, marks, format, i) {
        if i < n { assert CollapsedAt(measure, v[..n], w', marks, format, i); }
      }
    }
  }

  ghost predicate AnyMayCollapse(v: seq<Group>, floor: nat) {
    exists i: nat :: i < |v| && MayCollapse(v, i, floor)
  }

  /** Tool-result collapsing, in plain terms: the oldest eligible calls are marked, one at least,
      until the target is met or no more are eligible. */
  ghost predicate ToolResultRule(measure: Measure, v: seq<Group>, w: seq<Group>, trigger: Option<Trigger>,
                                 target: Option<Trigger>, floor: nat, format: Formatter, marks: seq<nat>)
  {
    && marks != [] && Ascending(marks, |v|) && IsCollapse(measure, v, w, marks, format)
    && (forall m :: m in marks ==> m < |v| && MayCollapse(v, m, floor))
    && (forall i: nat, m :: m in marks && i < m && i < |v| && MayCollapse(v, i, floor) ==> i in marks)
    && (IsMet(trigger, target, w) || forall i: nat :: i < |v| && MayCollapse(v, i, floor) ==> i in marks)
    && (forall j: nat, x :: 1 <= j < |marks| && x == Collapse(measure, v, marks[..j], format) ==> !IsMet(trigger, target, x))
  }

  lemma ToolResultFollowsRule(measure: Measure, v: seq<Group>, w: seq<Group>, trigger: Option<Trigger>,
                              target: Option<Trigger>, floor: nat, format: Formatter, compacted: bool)
    returns (marks: seq<nat>)
    requires ToolResultOutcome(measure, v, w, trigger, target, floor, format, compacted)
    ensures compacted <==> NonSystemCount(v) > 1 && Fires(trigger, v) && AnyMayCollapse(v, floor)
    ensures if compacted then ToolResultRule(measure, v, w, trigger, target, floor, format, marks) else w == v && marks == []
  {
    TargetIsMet(trigger, target);
    var e := Eligible(v, floor);
    EligibleAre(v, floor);
    hide NonSystemCount, MayCollapse, TargetOf, Fires, Collapse, Eligible;
    marks := [];
    if e != [] { assert e[0] in e; }
    if compacted {
      var k: nat :| StopsCollapsing(measure, v, e, format, TargetOf(trigger, target), k) && w == Collapse(measure, v, e[..k], format);
      marks := e[..k];
      CollapseIs(measure, v, marks, format);
      forall j: nat, x | 1 <= j < |marks| && x == Collapse(measure, v, marks[..j], format) ensures !IsMet(trigger, target, x) {
        assert marks[..j] == e[..j];
      }
      MarksAreOldest(v, e, k, floor);
      hide IsCollapse, IsMet;
    }
  }

  lemma EligibleAre(v: seq<Group>, floor: nat)
    ensures Ascending(Eligible(v, floor), |v|)
    ensures forall i: nat :: i in Eligible(v, floor) <==> i < |v| && MayCollapse(v, i, floor)
  {
    forall i: nat | i < |v| ensures IsEligible(v, i, floor) <==> MayCollapse(v, i, floor) { EligibleIff(v, i, floor); }
    var e := EligibleBefore(v, floor, |v|);
    forall i | i in e ensures i < |v| && IsEligible(v, i, floor) {
      var j :| 0 <= j < |e| && e[j] == i;
    }
  }

  lemma InOrder(e: seq<nat>, bound: nat, a: nat, b: nat)
    requires Ascending(e, bound) && a < |e| && b < |e| && e[a] < e[b]
    ensures a < b
  {
  }

  lemma MarksAreOldest(v: seq<Group>, e: seq<nat>, k: nat, floor: nat)
    requires Ascending(e, |v|) && k <= |e| && forall i: nat :: i in e <==> i < |v| && MayCollapse(v, i, floor)
    ensures Ascending(e[..k], |v|) && forall m :: m in e[..k] ==> m < |v| && MayCollapse(v, m, floor)
    ensures forall i: nat, m :: m in e[..k] && i < m && i < |v| && MayCollapse(v, i, floor) ==> i in e[..k]
    ensures k == |e| ==> forall i: nat :: i < |v| && MayCollapse(v, i, floor) ==> i in e[..k]
  {
    hide MayCollapse;
    forall m | m in e[..k] ensures m in e {
    }
    forall i: nat, m | m in e[..k] && i < m && i < |v| && MayCollapse(v, i, floor) ensures i in e[..k] {
      var a :| 0 <= a < k && e[a] == m;
      var b :| 0 <= b < |e| && e[b] == i;
      InOrder(e, |v|, b, a);
      assert e[..k][b] == i;
    }
    assert k == |e| ==> e[..k] == e;
  }

  // ---------------------------------------------------------------- sliding window

  /** The sliding window, in plain terms: whole turns are dropped, oldest first, one at least, until
      the target is met or only `floor` are left. */
  ghost predicate WindowRule(v: seq<Group>, w: seq<Group>, trigger: Option<Trigger>, target: Option<Trigger>,
                             floor: nat, compacted: bool)
  {
    && (compacted <==> NonSystemCount(v) > 1 && |IncludedTurns(v)| > floor && Fires(trigger, v))
    && if compacted then WindowStops(v, w, trigger, target, floor) else w == v
  }

  ghost predicate WindowStops(v: seq<Group>, w: seq<Group>, trigger: Option<Trigger>, target: Option<Trigger>, floor: nat) {
    && DropsOldestTurns(v, w) && floor <= |IncludedTurns(w)| < |IncludedTurns(v)|
    && (|IncludedTurns(w)| == floor || IsMet(trigger, target, w))
    && forall x :: DropsOldestTurns(v, x) && |IncludedTurns(w)| < |IncludedTurns(x)| < |IncludedTurns(v)| ==> !IsMet(trigger, target, x)
  }

  /** Dropping the first `k` turns is the only way to drop the oldest ones and leave so many. */
  lemma TurnsExactly(v: seq<Group>, turn: int, x: seq<Group>, k: nat)
    requires WellBuilt(v, turn) && k <= |TurnOrder(v)|
    ensures |TurnOrder(v)| == |IncludedTurns(v)|
    ensures x == ExcludeTurns(v, TurnOrder(v)[..k]) <==> DropsOldestTurns(v, x) && |IncludedTurns(x)| == |IncludedTurns(v)| - k
  {
    var w := ExcludeTurns(v, TurnOrder(v)[..k]);
    OrderIsIncludedTurns(v);
    DroppedTurns(v, k);
    DropsWholeTurns(v, k);
    if DropsOldestTurns(v, x) && |IncludedTurns(x)| == |IncludedTurns(v)| - k {
      SameUpperPart(IncludedTurns(v), IncludedTurns(x), IncludedTurns(w));
      hide IncludedTurns, ExcludeTurns, TurnOrder, WellBuilt;
      assert forall i :: 0 <= i < |v| ==> x[i] == w[i];
    }
  }

  lemma SameUpperPart(all: set<int>, a: set<int>, b: set<int>)
    requires a <= all && b <= all && |a| == |b|
    requires forall gone, kept :: gone in all && gone !in a && kept in a ==> gone < kept
    requires forall gone, kept :: gone in all && gone !in b && kept in b ==> gone < kept
    ensures a == b
  {
    forall x, y | x in a && y in b ensures x in b || y in a {
      assert x in all && y in all;
    }
    assert a <= b || b <= a by {
      if x :| x in a && x !in b { assert forall y :: y in b ==> y in a; }
    }
    if a <= b { SameSize(a, b); } else { SameSize(b, a); }
  }

  lemma SameSize<T>(a: set<T>, b: set<T>)
    requires a <= b && |a| == |b|
    ensures a == b
  {
    assert b == a + (b - a);
    assert |b| == |a| + |b - a|;
  }

  lemma WindowExactly(v: seq<Group>, w: seq<Group>, turn: int, trigger: Option<Trigger>, target: Option<Trigger>,
                      floor: nat, compacted: bool)
    requires WellBuilt(v, turn)
    ensures WindowOutcome(v, w, trigger, target, floor, compacted) <==> WindowRule(v, w, trigger, target, floor, compacted)
  {
    hide NonSystemCount, TargetOf, ExcludeTurns, Fires, TurnOrder, IncludedTurns, WindowStops, WellBuilt;
    TargetIsMet(trigger, target);
    TurnsExactly(v, turn, v, 0);
    var n, order := |TurnOrder(v)|, TurnOrder(v);
    if ShouldCompact(v, trigger) && n > floor {
      if k: nat :| StopsAtTurn(v, TargetOf(trigger, target), n - floor, k) && w == ExcludeTurns(v, order[..k]) {
        StopStopsWindow(v, turn, trigger, target, floor, k);
      }
      if WindowStops(v, w, trigger, target, floor) {
        var k := WindowStopIsStop(v, w, turn, trigger, target, floor);
      }
    }
  }

  lemma StopStopsWindow(v: seq<Group>, turn: int, trigger: Option<Trigger>, target: Option<Trigger>, floor: nat, k: nat)
    requires WellBuilt(v, turn) && |TurnOrder(v)| > floor
    requires StopsAtTurn(v, TargetOf(trigger, target), |TurnOrder(v)| - floor, k)
    ensures k <= |TurnOrder(v)| && WindowStops(v, ExcludeTurns(v, TurnOrder(v)[..k]), trigger, target, floor)
  {
    hide TargetOf, ExcludeTurns, TurnOrder, IncludedTurns, DropsOldestTurns, WellBuilt, IsMet;
    TargetIsMet(trigger, target);
    var n := |TurnOrder(v)|;
    var w := ExcludeTurns(v, TurnOrder(v)[..k]);
    TurnsExactly(v, turn, w, k);
    forall x | DropsOldestTurns(v, x) && n - k < |IncludedTurns(x)| < n ensures !IsMet(trigger, target, x) {
      TurnsExactly(v, turn, x, n - |IncludedTurns(x)|);
    }
  }

  lemma WindowStopIsStop(v: seq<Group>, w: seq<Group>, turn: int, trigger: Option<Trigger>, target: Option<Trigger>, floor: nat)
    returns (k: nat)
    requires WellBuilt(v, turn) && |TurnOrder(v)| > floor && WindowStops(v, w, trigger, target, floor)
    ensures StopsAtTurn(v, TargetOf(trigger, target), |TurnOrder(v)| - floor, k)
    ensures k <= |TurnOrder(v)| && w == ExcludeTurns(v, TurnOrder(v)[..k])
  {
    hide TargetOf, ExcludeTurns, TurnOrder, IncludedTurns, DropsOldestTurns, WellBuilt, IsMet;
    TargetIsMet(trigger, target);
    TurnsExactly(v, turn, v, 0);
    k := |TurnOrder(v)| - |IncludedTurns(w)|;
    TurnsExactly(v, turn, w, k);
    forall j: nat | 1 <= j < k ensures !IsMet(trigger, target, ExcludeTurns(v, TurnOrder(v)[..j])) {
      TurnsExactly(v, turn, ExcludeTurns(v, TurnOrder(v)[..j]), j);
    }
  }

  // ---------------------------------------------------------------- context window

  /** A fraction of the input budget. */
  function Share(budget: int, threshold: real): real {
    budget as real * threshold
  }

  lemma ExceedsShare(budget: int, threshold: real, v: seq<Group>)
    ensures TokensExceed(TokensAt(budget, threshold))(v) <==> IncludedTokens(v) as real > Share(budget, threshold)
  {
    ExceedsFraction(budget, threshold, v);
  }

  lemma ShareMonotone(budget: int, x: real, y: real)
    requires budget >= 0 && x <= y
    ensures Share(budget, x) <= Share(budget, y)
  {
    ScaleMonotone(budget as real, x, y);
  }

  /** The two phases of a context-window run. Over the tool fraction of the budget tool results are
      collapsed, oldest first, until the tokens are down to it; over the truncation fraction the
      oldest groups go until the tokens are down to that. Two groups are protected in both. */
  ghost predicate ContextWindowRule(measure: Measure, v: seq<Group>, mid: seq<Group>, w: seq<Group>, marks: seq<nat>,
                                    toolLimit: real, truncLimit: real, format: Formatter, a: bool, b: bool)
  {
    && (a <==> NonSystemCount(v) > 1 && IncludedTokens(v) as real > toolLimit && AnyMayCollapse(v, 2))
    && (b <==> NonSystemCount(mid) > 2 && IncludedTokens(mid) as real > truncLimit)
    && (if a then CollapsesOver(measure, v, mid, marks, toolLimit, format) else mid == v)
    && (if b then TruncatesOver(mid, w, truncLimit) else w == mid)
  }

  ghost predicate CollapsesOver(measure: Measure, v: seq<Group>, mid: seq<Group>, marks: seq<nat>, limit: real, format: Formatter) {
    && marks != [] && Ascending(marks, |v|) && IsCollapse(measure, v, mid, marks, format)
    && (forall m :: m in marks ==> m < |v| && MayCollapse(v, m, 2))
    && (forall i: nat, m :: m in marks && i < m && i < |v| && MayCollapse(v, i, 2) ==> i in marks)
    && (IncludedTokens(mid) as real <= limit || forall i: nat :: i < |v| && MayCollapse(v, i, 2) ==> i in marks)
    && (forall j: nat, x :: 1 <= j < |marks| && x == Collapse(measure, v, marks[..j], format) ==> IncludedTokens(x) as real > limit)
  }

  ghost predicate TruncatesOver(mid: seq<Group>, w: seq<Group>, limit: real) {
    && ExcludesOldest(mid, w, TRUNCATED) && 2 <= NonSystemCount(w) < NonSystemCount(mid)
    && (NonSystemCount(w) == 2 || IncludedTokens(w) as real <= limit)
    && forall x :: ExcludesOldest(mid, x, TRUNCATED) && NonSystemCount(w) < NonSystemCount(x) < NonSystemCount(mid) ==> IncludedTokens(x) as real > limit
  }

  lemma CollapsingOver(measure: Measure, v: seq<Group>, mid: seq<Group>, over: Trigger, limit: real, format: Formatter, a: bool)
    returns (marks: seq<nat>)
    requires ToolResultOutcome(measure, v, mid, Some(over), None, 2, format, a)
    requires forall x :: over(x) <==> IncludedTokens(x) as real > limit
    ensures a <==> NonSystemCount(v) > 1 && IncludedTokens(v) as real > limit && AnyMayCollapse(v, 2)
    ensures if a then CollapsesOver(measure, v, mid, marks, limit, format) else mid == v
  {
    hide ToolResultOutcome, IncludedTokens, MayCollapse, AnyMayCollapse, IsCollapse, NonSystemCount, Collapse;
    marks := ToolResultFollowsRule(measure, v, mid, Some(over), None, 2, format, a);
    if a {
      forall j: nat, x | 1 <= j < |marks| && x == Collapse(measure, v, marks[..j], format) ensures IncludedTokens(x) as real > limit {
        assert !IsMet(Some(over), None, x);
      }
    }
  }

  lemma TruncatingOver(mid: seq<Group>, w: seq<Group>, over: Trigger, limit: real, b: bool)
    requires TruncationOutcome(mid, w, Some(over), None, 2, b)
    requires forall x :: over(x) <==> IncludedTokens(x) as real > limit
    ensures b <==> NonSystemCount(mid) > 2 && IncludedTokens(mid) as real > limit
    ensures if b then TruncatesOver(mid, w, limit) else w == mid
  {
    hide TruncationOutcome, IncludedTokens, ExcludesOldest, NonSystemCount;
    TruncationExactly(mid, w, Some(over), None, 2, b);
  }

  lemma ContextWindowFollowsRule(measure: Measure, v: seq<Group>, w: seq<Group>, maxContext: int, maxOutput: int,
                                 tool: real, trunc: real, format: Formatter, compacted: bool, err: Option<Error>)
    returns (mid: seq<Group>, marks: seq<nat>, a: bool, b: bool)
    requires ContextWindowOutcome(measure, v, w, maxContext, maxOutput, tool, trunc, format, compacted, err) && err.None?
    ensures ContextWindowRule(measure, v, mid, w, marks, Share(maxContext - maxOutput, tool), Share(maxContext - maxOutput, trunc), format, a, b)
    ensures compacted <==> a || b
  {
    hide *;
    var budget := maxContext - maxOutput;
    var t, r := TokensExceed(TokensAt(budget, tool)), TokensExceed(TokensAt(budget, trunc));
    mid, a, b := Phases(measure, v, w, maxContext, maxOutput, tool, trunc, format, compacted, err);
    forall x ensures t(x) <==> IncludedTokens(x) as real > Share(budget, tool) { ExceedsShare(budget, tool, x); }
    forall x ensures r(x) <==> IncludedTokens(x) as real > Share(budget, trunc) { ExceedsShare(budget, trunc, x); }
    marks := PhasesFollowRule(measure, v, mid, w, t, r, Share(budget, tool), Share(budget, trunc), format, a, b);
  }

  lemma Phases(measure: Measure, v: seq<Group>, w: seq<Group>, maxContext: int, maxOutput: int,
               tool: real, trunc: real, format: Formatter, compacted: bool, err: Option<Error>)
    returns (mid: seq<Group>, a: bool, b: bool)
    requires ContextWindowOutcome(measure, v, w, maxContext, maxOutput, tool, trunc, format, compacted, err) && err.None?
    ensures ToolResultOutcome(measure, v, mid, Some(TokensExceed(TokensAt(maxContext - maxOutput, tool))), None, 2, format, a)
    ensures TruncationOutcome(mid, w, Some(TokensExceed(TokensAt(maxContext - maxOutput, trunc))), None, 2, b)
    ensures (compacted <==> a || b) && 0 < maxContext - maxOutput && tool <= trunc
  {
    hide ToolResultOutcome, TruncationOutcome, TokensAt, TokensExceed;
    var budget := maxContext - maxOutput;
    mid, a, b :|
      && ToolResultOutcome(measure, v, mid, Some(TokensExceed(TokensAt(budget, tool))), None, 2, format, a)
      && TruncationOutcome(mid, w, Some(TokensExceed(TokensAt(budget, trunc))), None, 2, b)
      && compacted == (a || b);
  }

  lemma PhasesFollowRule(measure: Measure, v: seq<Group>, mid: seq<Group>, w: seq<Group>, t: Trigger, r: Trigger,
                         toolLimit: real, truncLimit: real, format: Formatter, a: bool, b: bool)
    returns (marks: seq<nat>)
    requires ToolResultOutcome(measure, v, mid, Some(t), None, 2, format, a) && TruncationOutcome(mid, w, Some(r), None, 2, b)
    requires forall x :: t(x) <==> IncludedTokens(x) as real > toolLimit
    requires forall x :: r(x) <==> IncludedTokens(x) as real > truncLimit
    ensures ContextWindowRule(measure, v, mid, w, marks, toolLimit, truncLimit, format, a, b)
  {
    hide ToolResultOutcome, TruncationOutcome, CollapsesOver, TruncatesOver, AnyMayCollapse, NonSystemCount, IncludedTokens;
    marks := CollapsingOver(measure, v, mid, t, toolLimit, format, a);
    TruncatingOver(mid, w, r, truncLimit, b);
  }

  /** While the tokens are within the tool fraction of the budget nothing happens. */
  lemma WithinBudgetNothing(measure: Measure, v: seq<Group>, w: seq<Group>, maxContext: int, maxOutput: int,
                            tool: real, trunc: real, format: Formatter, compacted: bool, err: Option<Error>)
    requires ContextWindowOutcome(measure, v, w, maxContext, maxOutput, tool, trunc, format, compacted, err) && err.None?
    requires IncludedTokens(v) as real <= Share(maxContext - maxOutput, tool)
    ensures !compacted && w == v
  {
    var budget := maxContext - maxOutput;
    hide *;
    var mid, marks, a, b := ContextWindowFollowsRule(measure, v, w, maxContext, maxOutput, tool, trunc, format, compacted, err);
    var _, _, _ := Phases(measure, v, w, maxContext, maxOutput, tool, trunc, format, compacted, err);
    ShareMonotone(budget, tool, trunc);
    QuietRule(measure, v, mid, w, marks, Share(budget, tool), Share(budget, trunc), format, a, b);
  }

  lemma QuietRule(measure: Measure, v: seq<Group>, mid: seq<Group>, w: seq<Group>, marks: seq<nat>,
                  toolLimit: real, truncLimit: real, format: Formatter, a: bool, b: bool)
    requires ContextWindowRule(measure, v, mid, w, marks, toolLimit, truncLimit, format, a, b)
    requires IncludedTokens(v) as real <= toolLimit <= truncLimit
    ensures !a && !b && w == v
  {
    hide AnyMayCollapse, CollapsesOver, TruncatesOver, NonSystemCount, IncludedTokens;
  }

  /** Over it the oldest eligible tool call is collapsed, where there is one, with the formatted
      summary behind it. */
  lemma OverBudgetCollapses(measure: Measure, v: seq<Group>, w: seq<Group>, maxContext: int, maxOutput: int,
                            tool: real, trunc: real, format: Formatter, compacted: bool, err: Option<Error>, i: nat)
    requires ContextWindowOutcome(measure, v, w, maxContext, maxOutput, tool, trunc, format, compacted, err) && err.None?
    requires IncludedTokens(v) as real > Share(maxContext - maxOutput, tool) && NonSystemCount(v) > 1
    requires i < |v| && MayCollapse(v, i, 2) && forall j: nat :: j < i ==> !MayCollapse(v, j, 2)
    ensures compacted && i + 1 < |w| && w[i] == v[i].(excluded := true, reason := "collapsed by ToolResultStrategy")
    ensures w[i + 1].kind.Summary? && w[i + 1].messages == [Message(Assistant, [Text(Header(None, None), format(v[i]))], "", "", true)]
  {
    var mid, marks, a, b := ContextWindowFollowsRule(measure, v, w, maxContext, maxOutput, tool, trunc, format, compacted, err);
    assert AnyMayCollapse(v, 2);
    hide NonSystemCount, IncludedTokens, MayCollapse;
    FirstMarked(measure, v, mid, marks, Share(maxContext - maxOutput, tool), format, i);
    if b { assert w[i] == mid[i] && w[i + 1].messages == mid[i + 1].messages; }
  }

  lemma FirstMarked(measure: Measure, v: seq<Group>, mid: seq<Group>, marks: seq<nat>, limit: real, format: Formatter, i: nat)
    requires CollapsesOver(measure, v, mid, marks, limit, format)
    requires i < |v| && MayCollapse(v, i, 2) && forall j: nat :: j < i ==> !MayCollapse(v, j, 2)
    ensures i + 1 < |mid| && mid[i] == v[i].(excluded := true, reason := "collapsed by ToolResultStrategy")
    ensures SummarizesCall(measure, v[i], mid[i + 1], format) && |mid[i + 1].messages| == 1
  {
    hide MayCollapse;
    var m := marks[0];
    assert m in marks;
    assert i in marks by { if i != m { assert i < m; } }
    assert (set m | m in marks && m < i) == {};
    assert CollapsedAt(measure, v, mid, marks, format, i);
  }

  // ---------------------------------------------------------------- strategies

  /** How many groups, or turns, a strategy protects: the default, or what is given, if positive. */
  predicate Protects(minimum: Option<int>, default: nat, floor: nat) {
    match minimum
    case None => floor == default
    case Some(m) => if m <= 0 then floor == 0 else floor == m
  }

  /** Each strategy follows its rule with its own default of what it protects. */
  lemma TruncationDefault(measure: Measure, s: Strategy, v: seq<Group>, w: seq<Group>, compacted: bool, err: Option<Error>, floor: nat)
    requires s.Truncation? && Protects(s.minimum, 32, floor)
    ensures Outcome(measure, s, v, w, compacted, err) <==> err.None? && TruncationRule(v, w, s.trigger, s.target, floor, compacted)
  {
    TruncationExactly(v, w, s.trigger, s.target, floor, compacted);
    hide TruncationOutcome, TruncationRule;
  }

  lemma WindowDefault(measure: Measure, s: Strategy, v: seq<Group>, w: seq<Group>, turn: int, compacted: bool, err: Option<Error>, floor: nat)
    requires s.SlidingWindow? && Protects(s.minimum, 1, floor) && WellBuilt(v, turn)
    ensures Outcome(measure, s, v, w, compacted, err) <==> err.None? && WindowRule(v, w, s.trigger, s.target, floor, compacted)
  {
    WindowExactly(v, w, turn, s.trigger, s.target, floor, compacted);
    hide WindowOutcome, WindowRule, WellBuilt;
  }

  lemma ToolResultDefault(measure: Measure, s: Strategy, v: seq<Group>, w: seq<Group>, compacted: bool, err: Option<Error>, floor: nat)
    returns (marks: seq<nat>)
    requires s.ToolResult? && Protects(s.minimum, 16, floor) && Outcome(measure, s, v, w, compacted, err)
    ensures err.None? && (compacted <==> NonSystemCount(v) > 1 && Fires(s.trigger, v) && AnyMayCollapse(v, floor))
    ensures if compacted then ToolResultRule(measure, v, w, s.trigger, s.target, floor, s.format, marks) else w == v
  {
    hide ToolResultOutcome, ToolResultRule, AnyMayCollapse;
    marks := ToolResultFollowsRule(measure, v, w, s.trigger, s.target, floor, s.format, compacted);
  }

  lemma SummarizationDefault(measure: Measure, s: Strategy, v: seq<Group>, w: seq<Group>, compacted: bool, err: Option<Error>, floor: nat)
    requires s.Summarization? && Protects(s.minimum, 8, floor)
    ensures Outcome(measure, s, v, w, compacted, err) <==>
      && (err == None || err == Some(ContextCancelled))
      && SummarizationRule(measure, v, w, s.trigger, s.target, s.summarizer, floor, if s.prompt.Some? then s.prompt.value else s.standard,
                           s.unavailable, compacted, err.Some?)
  {
    var prompt, cancelled := PromptOf(s.prompt, s.standard), err.Some?;
    assert prompt == if s.prompt.Some? then s.prompt.value else s.standard;
    SummarizationExactly(measure, v, w, s.trigger, s.target, s.summarizer, floor, prompt, s.unavailable, compacted, cancelled);
    hide SummarizationOutcome, SummarizationRule, PromptOf;
    assert Floor(s.minimum, 8) == floor;
    if Outcome(measure, s, v, w, compacted, err) {
      var c :| err == (if c then Some(ContextCancelled) else None)
        && SummarizationOutcome(measure, v, w, s.trigger, s.target, s.summarizer, floor, prompt, s.unavailable, compacted, c);
      assert c == cancelled;
    }
  }

  /** A context-window strategy refuses exactly the configurations that are not valid, thresholds of
      zero standing for their defaults, and then changes nothing. */
  lemma ContextWindowDefault(measure: Measure, s: Strategy, v: seq<Group>, w: seq<Group>, compacted: bool, err: Option<Error>,
                             tool: real, trunc: real)
    requires s.ContextWindow? && Outcome(measure, s, v, w, compacted, err)
    requires tool == if s.toolEviction == 0.0 then 0.5 else s.toolEviction
    requires trunc == if s.truncation == 0.0 then 0.8 else s.truncation
    ensures err.None? <==> 0 <= s.maxOutput < s.maxContext && 0.0 < tool <= trunc <= 1.0
    ensures err == Some(InvalidContextTokens) <==> s.maxContext <= 0
    ensures err == Some(InvalidOutputTokens) <==> s.maxContext > 0 && !(0 <= s.maxOutput < s.maxContext)
    ensures err == Some(ThresholdOrder) <==> 0 <= s.maxOutput < s.maxContext && 0.0 < trunc < tool <= 1.0
    ensures err.Some? ==> !compacted && w == v
    ensures err.None? ==> ContextWindowOutcome(measure, v, w, s.maxContext, s.maxOutput, tool, trunc, s.format, compacted, err)
  {
    hide ToolResultOutcome, TruncationOutcome, TokensAt, TokensExceed;
  }

  /** What the `j`-th strategy of a pipeline does; a missing one does nothing. */
  ghost predicate Runs(measure: Measure, s: Strategy, j: nat, before: seq<Group>, after: seq<Group>, did: bool, err: Option<Error>)
    requires s.Sequential? && j < |s.children|
  {
    match s.children[j]
    case None => after == before && !did && err.None?
    case Some(child) => Outcome(measure, child, before, after, did, err)
  }

  /** The strategies from the `i`-th to before the `n`-th run on one index, which goes through the
      states. Only the last may end in an error. */
  ghost predicate RunsThrough(measure: Measure, s: Strategy, i: nat, n: nat, states: seq<seq<Group>>, did: seq<bool>, err: Option<Error>)
    requires s.Sequential?
  {
    && i <= n <= |s.children| && |states| == n - i + 1 && |did| == n - i
    && (forall k: nat :: k < |did| ==>
          Runs(measure, s, i + k, states[k], states[k + 1], did[k], if k + 1 == |did| then err else None))
    && (err.None? ==> n == |s.children|) && (err.Some? ==> did != [])
  }

  lemma OneMoreBefore(measure: Measure, s: Strategy, i: nat, n: nat, states: seq<seq<Group>>, did: seq<bool>, err: Option<Error>,
                      v: seq<Group>, c: bool)
    requires s.Sequential? && i < |s.children| && RunsThrough(measure, s, i + 1, n, states, did, err)
    requires Runs(measure, s, i, v, states[0], c, None) && (err.None? || did != [])
    ensures RunsThrough(measure, s, i, n, [v] + states, [c] + did, err)
  {
    hide Runs;
    var all, d := [v] + states, [c] + did;
    forall k: nat | k < |d| ensures Runs(measure, s, i + k, all[k], all[k + 1], d[k], if k + 1 == |d| then err else None) {
      if k > 0 {
        var j: nat := k - 1;
        assert Runs(measure, s, i + 1 + j, states[j], states[j + 1], did[j], if j + 1 == |did| then err else None);
      }
    }
  }

  /** Some strategy reported that it compacted; the report of one that ended in an error is not
      counted. */
  predicate AnyDid(did: seq<bool>, err: Option<Error>) {
    true in (if err.Some? && did != [] then did[..|did| - 1] else did)
  }

  lemma AnyDidStep(c: bool, did: seq<bool>, err: Option<Error>)
    requires err.Some? ==> did != []
    ensures AnyDid([c] + did, err) <==> c || AnyDid(did, err)
  {
    assert did != [] ==> ([c] + did)[..|did|] == [c] + did[..|did| - 1];
  }

  /** A pipeline runs its strategies one after the other on one index, passes over missing ones and
      stops at the first error. */
  lemma {:induction false} PipelineStates(measure: Measure, s: Strategy, i: nat, any: bool, v: seq<Group>, w: seq<Group>, compacted: bool,
                                          err: Option<Error>)
    returns (states: seq<seq<Group>>, did: seq<bool>, n: nat)
    requires s.Sequential? && i <= |s.children| && PipelineOutcome(measure, s, i, any, v, w, compacted, err)
    ensures RunsThrough(measure, s, i, n, states, did, err) && states[0] == v && states[|did|] == w
    ensures compacted <==> any || AnyDid(did, err)
    decreases |s.children| - i
  {
    hide Outcome, PipelineOutcome;
    if i == |s.children| {
      PipelineEnds(measure, s, any, v, w, compacted, err);
      states, did, n := [v], [], i;
    } else {
      var mid, c, e := PipelineNext(measure, s, i, any, v, w, compacted, err);
      if e.Some? {
        states, did, n := [v, w], [c], i + 1;
      } else {
        states, did, n := PipelineStates(measure, s, i + 1, any || c, mid, w, compacted, err);
        OneMoreBefore(measure, s, i, n, states, did, err, v, c);
        AnyDidStep(c, did, err);
        states, did := [v] + states, [c] + did;
      }
    }
  }

  lemma PipelineEnds(measure: Measure, s: Strategy, any: bool, v: seq<Group>, w: seq<Group>, compacted: bool, err: Option<Error>)
    requires s.Sequential? && PipelineOutcome(measure, s, |s.children|, any, v, w, compacted, err)
    ensures err.None? && w == v && compacted == any
  {
  }

  lemma PipelineNext(measure: Measure, s: Strategy, i: nat, any: bool, v: seq<Group>, w: seq<Group>, compacted: bool, err: Option<Error>)
    returns (mid: seq<Group>, c: bool, e: Option<Error>)
    requires s.Sequential? && i < |s.children| && PipelineOutcome(measure, s, i, any, v, w, compacted, err)
    ensures Runs(measure, s, i, v, mid, c, e)
    ensures if e.Some? then err == e && w == mid && compacted == any else PipelineOutcome(measure, s, i + 1, any || c, mid, w, compacted, err)
  {
    hide Outcome;
    if s.children[i].None? {
      mid, c, e := v, false, None;
    } else {
      mid, c, e :| PipelineStep(measure, s, i, any, v, mid, c, e, w, compacted, err);
    }
  }
}
