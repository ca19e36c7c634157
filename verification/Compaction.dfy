/** What each compaction strategy does to an index, stated on values. */
module Compaction {
  import opened Messages
  import opened Grouping
  import opened IndexState

  /** Triggers and targets are predicates over the state of the index. */
  type Trigger = seq<Group> -> bool

  function TriggerOf(trigger: Option<Trigger>): Trigger {
    if trigger.Some? then trigger.value else _ => true
  }

  /** Without a target, compaction goes on until its trigger would not fire any more. */
  function TargetOf(trigger: Option<Trigger>, target: Option<Trigger>): Trigger {
    if target.Some? then target.value else v => !TriggerOf(trigger)(v)
  }

  predicate ShouldCompact(v: seq<Group>, trigger: Option<Trigger>) {
    NonSystemCount(v) > 1 && TriggerOf(trigger)(v)
  }

  function Floor(minimum: Option<int>, default: nat): nat {
    if minimum.None? then default else if minimum.value < 0 then 0 else minimum.value
  }

  function TokensExceed(limit: int): Trigger {
    v => IncludedTokens(v) > limit
  }

  // ------------------------------------------------- excluding the oldest groups

  /** How many included non-system groups come before position `i`. */
  function Rank(v: seq<Group>, i: nat): nat
    requires i <= |v|
  {
    NonSystemCount(v[..i])
  }

  predicate AmongOldest(v: seq<Group>, i: nat, k: nat)
    requires i < |v|
  {
    IncludedNonSystem(v[i]) && Rank(v, i) < k
  }

  /** The `k` oldest included non-system groups excluded, everything else as it was. */
  function ExcludeOldest(v: seq<Group>, k: nat, reason: string): (w: seq<Group>)
    ensures |w| == |v|
  {
    seq(|v|, i requires 0 <= i < |v| => if AmongOldest(v, i, k) then Exclude(v[i], reason) else v[i])
  }

  /** `k` is the least positive number of exclusions that meets the target, or the most allowed. */
  ghost predicate StopsAtOldest(v: seq<Group>, reason: string, target: Trigger, most: int, k: nat) {
    && 1 <= k <= most
    && (k == most || target(ExcludeOldest(v, k, reason)))
    && (forall j: nat :: 1 <= j < k ==> !target(ExcludeOldest(v, j, reason)))
  }

  lemma RankStep(v: seq<Group>, i: nat)
    requires i < |v|
    ensures Rank(v, i + 1) == Rank(v, i) + if IncludedNonSystem(v[i]) then 1 else 0
  {
    assert v[..i + 1][..i] == v[..i];
  }

  lemma {:induction false} RankMonotone(v: seq<Group>, i: nat, j: nat)
    requires i <= j <= |v|
    ensures Rank(v, i) <= Rank(v, j)
    decreases j - i
  {
    if i < j {
      RankMonotone(v, i, j - 1);
      RankStep(v, j - 1);
    }
  }

  lemma RankStrict(v: seq<Group>, i: nat, j: nat)
    requires i < j <= |v| && IncludedNonSystem(v[i])
    ensures Rank(v, i) < Rank(v, j)
  {
    RankStep(v, i);
    RankMonotone(v, i + 1, j);
  }

  lemma ExcludeNext(v: seq<Group>, i: nat, k: nat, reason: string)
    requires i < |v| && IncludedNonSystem(v[i]) && k == Rank(v, i)
    ensures
      && ExcludeOldest(v, k, reason)[i] == v[i]
      && ExcludeOldest(v, k, reason)[i := Exclude(v[i], reason)] == ExcludeOldest(v, k + 1, reason)
  {
    hide Rank;
    forall j: nat | j < |v| && j != i && IncludedNonSystem(v[j]) ensures Rank(v, j) != Rank(v, i) {
      if j < i { RankStrict(v, j, i); } else { RankStrict(v, i, j); }
    }
  }

  lemma ExcludeNone(v: seq<Group>, reason: string)
    ensures ExcludeOldest(v, 0, reason) == v
  {
  }

  lemma ExcludeOldestPrefix(v: seq<Group>, k: nat, reason: string, n: nat)
    requires n <= |v|
    ensures ExcludeOldest(v, k, reason)[..n] == ExcludeOldest(v[..n], k, reason)
    ensures forall i: nat :: i < n ==> AmongOldest(v, i, k) == AmongOldest(v[..n], i, k)
  {
    forall i: nat | i < n ensures AmongOldest(v, i, k) == AmongOldest(v[..n], i, k) { assert v[..n][..i] == v[..i]; }
  }

  /** Each exclusion lowers the number of included non-system groups by one. */
  lemma {:induction false} ExcludeOldestCount(v: seq<Group>, k: nat, reason: string)
    ensures NonSystemCount(ExcludeOldest(v, k, reason))
         == if k <= NonSystemCount(v) then NonSystemCount(v) - k else 0
  {
    if v != [] {
      ExcludeOldestCount(v[..|v| - 1], k, reason);
      ExcludeOldestPrefix(v, k, reason, |v| - 1);
    }
  }

  lemma ExcludeOldestEvolves(v: seq<Group>, k: nat, reason: string)
    ensures Conserves(v, ExcludeOldest(v, k, reason))
  {
    ConservesPointwise(v, ExcludeOldest(v, k, reason));
  }

  /** Changing nothing but exclusions keeps the index invariant. */
  lemma FlagsWellBuilt(v: seq<Group>, w: seq<Group>, turn: int)
    requires WellBuilt(v, turn) && |w| == |v|
    requires forall i :: 0 <= i < |v| ==> Evolves(v[i], w[i]) && (w[i].excluded || w[i].reason == "")
    ensures WellBuilt(w, turn)
  {
    forall g | g in w ensures Sound(g) && (g.turn.Some? ==> 0 <= g.turn.value <= turn) {
      var i :| 0 <= i < |w| && w[i] == g;
      assert v[i] in v && Sound(v[i]);
    }
    if turn > 0 {
      var g :| g in v && OpensTurn(g, turn);
      var i :| 0 <= i < |v| && v[i] == g;
      assert w[i] in w && OpensTurn(w[i], turn);
    }
  }

  /** The included groups are flagged by nothing: the invariant seen from one position. */
  lemma SoundReason(v: seq<Group>, turn: int)
    requires WellBuilt(v, turn)
    ensures forall i :: 0 <= i < |v| ==> v[i].excluded || v[i].reason == ""
  {
    forall i | 0 <= i < |v| ensures v[i].excluded || v[i].reason == "" { assert v[i] in v && Sound(v[i]); }
  }

  // ---------------------------------------------------------------- truncation

  const TRUNCATED := "truncated by TruncationStrategy"

  ghost predicate TruncationOutcome(v: seq<Group>, w: seq<Group>, trigger: Option<Trigger>, target: Option<Trigger>,
                                    floor: nat, compacted: bool)
  {
    if ShouldCompact(v, trigger) && NonSystemCount(v) > floor then
      compacted && exists k: nat ::
        && StopsAtOldest(v, TRUNCATED, TargetOf(trigger, target), NonSystemCount(v) - floor, k)
        && w == ExcludeOldest(v, k, TRUNCATED)
    else
      !compacted && w == v
  }

  /** Truncation never goes below the floor, stops as soon as its target is met, and takes
      groups strictly from the oldest end. */
  lemma TruncationBounds(v: seq<Group>, w: seq<Group>, trigger: Option<Trigger>, target: Option<Trigger>,
                         floor: nat, compacted: bool)
    requires TruncationOutcome(v, w, trigger, target, floor, compacted)
    ensures NonSystemCount(w) >= if floor <= NonSystemCount(v) then floor else NonSystemCount(v)
    ensures compacted ==> NonSystemCount(w) < NonSystemCount(v)
    ensures compacted ==> NonSystemCount(w) == floor || TargetOf(trigger, target)(w)
    ensures |w| == |v|
    ensures forall i, j :: 0 <= i < j < |v| && IncludedNonSystem(v[i]) && Included(w[i]) ==> w[j] == v[j]
    ensures Conserves(v, w)
  {
    if compacted {
      var k: nat :| StopsAtOldest(v, TRUNCATED, TargetOf(trigger, target), NonSystemCount(v) - floor, k)
        && w == ExcludeOldest(v, k, TRUNCATED);
      ExcludeOldestCount(v, k, TRUNCATED);
      ExcludeOldestEvolves(v, k, TRUNCATED);
      forall i: nat, j: nat | i < j < |v| && IncludedNonSystem(v[i]) && Included(w[i]) ensures w[j] == v[j] {
        RankMonotone(v, i, j);
      }
    } else {
      ConservesPointwise(v, v);
    }
  }

  /** With the target that a trigger implies, truncating again changes nothing: either the trigger
      has fallen silent or the floor is reached. */
  lemma TruncationSettles(v: seq<Group>, w: seq<Group>, w': seq<Group>, trigger: Option<Trigger>, floor: nat, c: bool, c': bool)
    requires TruncationOutcome(v, w, trigger, None, floor, c) && TruncationOutcome(w, w', trigger, None, floor, c')
    ensures !c' && w' == w
  {
    hide StopsAtOldest;
    TruncationBounds(v, w, trigger, None, floor, c);
  }

  // ---------------------------------------------------------------- summarization

  const SUMMARIZED := "summarized by SummarizationStrategy"

  datatype SummaryResult = Summarized(text: string) | Failed | Cancelled

  type Summarizer = seq<Message> -> SummaryResult

  function TextMessage(role: Role, text: string, summary: bool): Message {
    Message(role, [Text(Header(None, None), text)], "", "", summary)
  }

  /** The messages of the `k` oldest included non-system groups. */
  function OldestMessages(v: seq<Group>, k: nat): seq<Message> {
    if v == [] then []
    else OldestMessages(v[..|v| - 1], k) + if AmongOldest(v, |v| - 1, k) then v[|v| - 1].messages else []
  }

  /** What an abandoned summarization leaves: the groups it had excluded are included again. */
  function Restored(v: seq<Group>, k: nat): (w: seq<Group>)
    ensures |w| == |v|
  {
    seq(|v|, i requires 0 <= i < |v| => if AmongOldest(v, i, k) then v[i].(reason := "") else v[i])
  }

  function FirstNonSystem(v: seq<Group>): (i: nat)
    ensures i <= |v|
    ensures i < |v| ==> IncludedNonSystem(v[i])
    ensures forall j :: 0 <= j < i ==> !IncludedNonSystem(v[j])
  {
    if v == [] || IncludedNonSystem(v[0]) then 0 else 1 + FirstNonSystem(v[1..])
  }

  function InsertAt(v: seq<Group>, at: nat, g: Group): seq<Group>
    requires at <= |v|
  {
    v[..at] + [g] + v[at..]
  }

  predicate IsBlank(s: string) {
    forall c :: c in s ==> IsSpace(c)
  }

  function SummaryText(text: string, unavailable: string): string {
    "[Summary]\n" + if !IsBlank(text) then text
                    else if unavailable != "" then unavailable else "[Summary unavailable]"
  }

  /** What the summarizer is sent: the prompt, then the messages of the selected groups. */
  function Sent(v: seq<Group>, k: nat, prompt: string): seq<Message> {
    [TextMessage(System, prompt, false)] + OldestMessages(v, k)
  }

  function SummaryFor(measure: Measure, text: string, unavailable: string): Group {
    NewGroup(measure, Summary, [TextMessage(Assistant, SummaryText(text, unavailable), true)], None)
  }

  ghost predicate SummaryEffect(measure: Measure, v: seq<Group>, w: seq<Group>, k: nat, result: SummaryResult,
                                unavailable: string, compacted: bool, cancelled: bool)
  {
    match result
    case Summarized(text) =>
      && compacted && !cancelled
      && w == InsertAt(ExcludeOldest(v, k, SUMMARIZED), FirstNonSystem(v), SummaryFor(measure, text, unavailable))
    case Failed => !compacted && !cancelled && w == Restored(v, k)
    case Cancelled => !compacted && cancelled && w == Restored(v, k)
  }

  ghost predicate SummarizationOutcome(measure: Measure, v: seq<Group>, w: seq<Group>,
                                       trigger: Option<Trigger>, target: Option<Trigger>,
                                       summarizer: Option<Summarizer>, floor: nat, prompt: string,
                                       unavailable: string, compacted: bool, cancelled: bool)
  {
    if ShouldCompact(v, trigger) && summarizer.Some? && NonSystemCount(v) > floor then
      exists k: nat ::
        && StopsAtOldest(v, SUMMARIZED, TargetOf(trigger, target), NonSystemCount(v) - floor, k)
        && SummaryEffect(measure, v, w, k, summarizer.value(Sent(v, k, prompt)), unavailable, compacted, cancelled)
    else
      !compacted && !cancelled && w == v
  }

  lemma {:induction false} OldestNone(v: seq<Group>)
    ensures OldestMessages(v, 0) == []
  {
    if v != [] { OldestNone(v[..|v| - 1]); }
  }

  /** The messages sent grow by exactly the messages of the next group excluded. */
  lemma {:induction false} OldestNext(v: seq<Group>, i: nat, k: nat)
    requires i < |v| && IncludedNonSystem(v[i]) && k == Rank(v, i)
    ensures OldestMessages(v, k + 1) == OldestMessages(v, k) + v[i].messages
  {
    var n := |v| - 1;
    var u := v[..n];
    if i < n {
      assert u[..i] == v[..i];
      OldestNext(u, i, k);
      RankStrict(v, i, n);
    } else {
      OldestEnough(u, k);
    }
  }

  lemma {:induction false} OldestEnough(v: seq<Group>, k: nat)
    requires k == NonSystemCount(v)
    ensures OldestMessages(v, k) == OldestMessages(v, k + 1)
  {
    if v != [] {
      var u := v[..|v| - 1];
      OldestSaturates(u, NonSystemCount(u), k);
      OldestSaturates(u, NonSystemCount(u), k + 1);
    }
  }

  lemma {:induction false} OldestSaturates(v: seq<Group>, k: nat, k': nat)
    requires NonSystemCount(v) <= k <= k'
    ensures OldestMessages(v, k) == OldestMessages(v, k')
  {
    if v != [] { OldestSaturates(v[..|v| - 1], k, k'); }
  }

  lemma ProjectLast(v: seq<Group>, p: Group -> bool)
    requires v != []
    ensures Project(v, p) == Project(v[..|v| - 1], p) + if p(v[|v| - 1]) then v[|v| - 1].messages else []
  {
    var n := |v| - 1;
    assert v == v[..n] + [v[n]];
    ProjectConcat(v[..n], [v[n]], p);
    assert Project([v[n]], p) == if p(v[n]) then v[n].messages else [];
  }

  /** The included non-system messages are those of the `k` oldest groups followed by those left. */
  lemma {:induction false} OldestComeFirst(v: seq<Group>, k: nat)
    ensures Project(v, IncludedNonSystem)
         == OldestMessages(v, k) + Project(ExcludeOldest(v, k, SUMMARIZED), IncludedNonSystem)
    ensures NonSystemCount(v) <= k ==> Project(ExcludeOldest(v, k, SUMMARIZED), IncludedNonSystem) == []
  {
    if v == [] {
      assert Project(v, IncludedNonSystem) == [];
    } else {
      var n, w := |v| - 1, ExcludeOldest(v, k, SUMMARIZED);
      ExcludeOldestPrefix(v, k, SUMMARIZED, n);
      assert v[..n] + [v[n]] == v;
      assert AmongOldest(v, n, k) <==> IncludedNonSystem(v[n]) && NonSystemCount(v[..n]) < k;
      hide Project, ExcludeOldest, OldestMessages;
      OldestComeFirst(v[..n], k);
      ProjectLast(v, IncludedNonSystem);
      ProjectLast(w, IncludedNonSystem);
      OldestPrefix(v, k);
    }
  }

  lemma {:induction false} OldestPrefix(v: seq<Group>, k: nat)
    requires v != []
    ensures OldestMessages(v, k)
         == OldestMessages(v[..|v| - 1], k) + if AmongOldest(v, |v| - 1, k) then v[|v| - 1].messages else []
  {
  }

  /** What a summarization that succeeds does to the conversation: its oldest non-system messages,
      exactly those sent after the prompt, give way to the summary, and everything else stays. */
  lemma SummarizationReplaces(measure: Measure, v: seq<Group>, w: seq<Group>,
                              trigger: Option<Trigger>, target: Option<Trigger>, summarizer: Option<Summarizer>,
                              floor: nat, prompt: string, unavailable: string, compacted: bool, cancelled: bool)
    returns (sent: seq<Message>, rest: seq<Message>, text: string)
    requires SummarizationOutcome(measure, v, w, trigger, target, summarizer, floor, prompt, unavailable, compacted, cancelled)
    requires compacted
    ensures summarizer.Some? && summarizer.value([TextMessage(System, prompt, false)] + sent) == Summarized(text)
    ensures Project(v, IncludedNonSystem) == sent + rest
    ensures Project(w, IncludedNonSystem) == [TextMessage(Assistant, SummaryText(text, unavailable), true)] + rest
    ensures Project(w, IsSystem) == Project(v, IsSystem)
    ensures NonSystemCount(v) > floor
  {
    var k: nat :| StopsAtOldest(v, SUMMARIZED, TargetOf(trigger, target), NonSystemCount(v) - floor, k)
      && SummaryEffect(measure, v, w, k, summarizer.value(Sent(v, k, prompt)), unavailable, compacted, cancelled);
    text := summarizer.value(Sent(v, k, prompt)).text;
    var x := ExcludeOldest(v, k, SUMMARIZED);
    sent, rest := OldestMessages(v, k), Project(x, IncludedNonSystem);
    OldestComeFirst(v, k);
    hide StopsAtOldest, Project, OldestMessages, SummaryText;
    SummaryComesFirst(v, k, SummaryFor(measure, text, unavailable));
    SystemStays(v, k);
  }

  /** A summary that is inserted in place of the oldest groups comes before all that is left. */
  lemma SummaryComesFirst(v: seq<Group>, k: nat, g: Group)
    requires g.kind.Summary? && Included(g)
    ensures var x, at := ExcludeOldest(v, k, SUMMARIZED), FirstNonSystem(v);
      && Project(InsertAt(x, at, g), IncludedNonSystem) == g.messages + Project(x, IncludedNonSystem)
      && Project(InsertAt(x, at, g), IsSystem) == Project(x, IsSystem)
  {
    var x, at := ExcludeOldest(v, k, SUMMARIZED), FirstNonSystem(v);
    var a, b := x[..at], x[at..];
    forall i | 0 <= i < |a| ensures !IncludedNonSystem(a[i]) { assert a[i] == v[i]; }
    ProjectNothing(a, IncludedNonSystem);
    assert x == a + b && InsertAt(x, at, g) == a + [g] + b;
    hide Project, ExcludeOldest, FirstNonSystem, InsertAt;
    ProjectInsert(a, g, b, IncludedNonSystem);
    ProjectInsert(a, g, b, IsSystem);
    ProjectConcat(a, b, IncludedNonSystem);
    ProjectConcat(a, b, IsSystem);
    assert [] + g.messages == g.messages && Project(a, IsSystem) + [] == Project(a, IsSystem);
    assert [] + Project(b, IncludedNonSystem) == Project(b, IncludedNonSystem);
  }

  lemma ProjectInsert(a: seq<Group>, g: Group, b: seq<Group>, p: Group -> bool)
    ensures Project(a + [g] + b, p) == Project(a, p) + (if p(g) then g.messages else []) + Project(b, p)
  {
    assert Project([g], p) == (if p(g) then g.messages else []) + Project([], p);
    hide Project;
    ProjectConcat(a + [g], b, p);
    ProjectConcat(a, [g], p);
  }

  lemma {:induction false} ProjectNothing(v: seq<Group>, p: Group -> bool)
    requires forall i :: 0 <= i < |v| ==> !p(v[i])
    ensures Project(v, p) == []
  {
    if v != [] { ProjectNothing(v[1..], p); }
  }

  lemma {:induction false} SystemStays(v: seq<Group>, k: nat)
    ensures Project(ExcludeOldest(v, k, SUMMARIZED), IsSystem) == Project(v, IsSystem)
  {
    if v != [] {
      var n, w := |v| - 1, ExcludeOldest(v, k, SUMMARIZED);
      ExcludeOldestPrefix(v, k, SUMMARIZED, n);
      SystemStays(v[..n], k);
      assert IsSystem(w[n]) == IsSystem(v[n]) && (IsSystem(v[n]) ==> w[n] == v[n]);
      hide Project, ExcludeOldest;
      ProjectLast(v, IsSystem);
      ProjectLast(w, IsSystem);
    }
  }

  lemma {:induction false} ProjectConcat(a: seq<Group>, b: seq<Group>, p: Group -> bool)
    ensures Project(a + b, p) == Project(a, p) + Project(b, p)
  {
    if a == [] {
      assert a + b == b;
      assert [] + Project(b, p) == Project(b, p);
    } else {
      ProjectConcat(a[1..], b, p);
      ProjectFirst(a + b, p);
      ProjectFirst(a, p);
      hide Project;
      assert (a + b)[1..] == a[1..] + b;
      ConcatAssociates(if p(a[0]) then a[0].messages else [], Project(a[1..], p), Project(b, p));
    }
  }

  lemma ProjectFirst(v: seq<Group>, p: Group -> bool)
    requires v != []
    ensures Project(v, p) == (if p(v[0]) then v[0].messages else []) + Project(v[1..], p)
  {
  }

  /** A failed summarization leaves the index as it was exactly when none of the groups it had
      picked carried an exclude reason while included. */
  lemma RestoredIsOriginal(v: seq<Group>, k: nat)
    ensures Restored(v, k) == v <==> forall i: nat :: i < |v| && AmongOldest(v, i, k) ==> v[i].reason == ""
  {
    if Restored(v, k) == v {
      forall i: nat | i < |v| && AmongOldest(v, i, k) ensures v[i].reason == "" { assert Restored(v, k)[i] == v[i]; }
    }
  }

  /** So a summarization that does not succeed leaves the index as it was exactly when it picked
      no group with an exclude reason, where it picked any. */
  lemma FailureRestoresIff(measure: Measure, v: seq<Group>, w: seq<Group>,
                           trigger: Option<Trigger>, target: Option<Trigger>, summarizer: Option<Summarizer>,
                           floor: nat, prompt: string, unavailable: string, compacted: bool, cancelled: bool)
    returns (k: nat)
    requires SummarizationOutcome(measure, v, w, trigger, target, summarizer, floor, prompt, unavailable, compacted, cancelled)
    requires !compacted
    ensures ShouldCompact(v, trigger) && summarizer.Some? && NonSystemCount(v) > floor ==>
      StopsAtOldest(v, SUMMARIZED, TargetOf(trigger, target), NonSystemCount(v) - floor, k)
    ensures w == v <==>
      (ShouldCompact(v, trigger) && summarizer.Some? && NonSystemCount(v) > floor ==>
         forall i: nat :: i < |v| && AmongOldest(v, i, k) ==> v[i].reason == "")
  {
    k := 0;
    if ShouldCompact(v, trigger) && summarizer.Some? && NonSystemCount(v) > floor {
      k :| StopsAtOldest(v, SUMMARIZED, TargetOf(trigger, target), NonSystemCount(v) - floor, k)
        && SummaryEffect(measure, v, w, k, summarizer.value(Sent(v, k, prompt)), unavailable, compacted, cancelled);
      RestoredIsOriginal(v, k);
    }
  }

  lemma FailureRestores(measure: Measure, v: seq<Group>, w: seq<Group>, turn: int,
                        trigger: Option<Trigger>, target: Option<Trigger>, summarizer: Option<Summarizer>,
                        floor: nat, prompt: string, unavailable: string, compacted: bool, cancelled: bool)
    requires SummarizationOutcome(measure, v, w, trigger, target, summarizer, floor, prompt, unavailable, compacted, cancelled)
    requires WellBuilt(v, turn) && !compacted
    ensures w == v
  {
    SoundReason(v, turn);
    if ShouldCompact(v, trigger) && summarizer.Some? && NonSystemCount(v) > floor {
      var k: nat :| SummaryEffect(measure, v, w, k, summarizer.value(Sent(v, k, prompt)), unavailable, compacted, cancelled);
      RestoredIsOriginal(v, k);
    }
  }

  /** A successful summarization: the summary sits where the first excluded group was, which
      follows it, and the protected recent groups are as they were, one place further. */
  ghost predicate SummaryPlaced(v: seq<Group>, w: seq<Group>, floor: nat) {
    var p := FirstNonSystem(v);
    && p < |v| && |w| == |v| + 1
    && w[p].kind.Summary? && Included(w[p]) && w[p + 1] == Exclude(v[p], SUMMARIZED)
    && (forall i: nat :: i < |v| && IncludedNonSystem(v[i]) && Rank(v, i) >= NonSystemCount(v) - floor ==> w[i + 1] == v[i])
  }

  lemma SummaryInPlace(v: seq<Group>, k: nat, floor: nat, g: Group)
    requires 1 <= k <= NonSystemCount(v) - floor && g.kind.Summary? && Included(g)
    ensures SummaryPlaced(v, InsertAt(ExcludeOldest(v, k, SUMMARIZED), FirstNonSystem(v), g), floor)
  {
    FirstIsOldest(v);
    hide Rank, NonSystemCount, FirstNonSystem;
    var e, p := ExcludeOldest(v, k, SUMMARIZED), FirstNonSystem(v);
    var w := InsertAt(e, p, g);
    assert w[p + 1] == e[p];
    forall i: nat | i < |v| && IncludedNonSystem(v[i]) && Rank(v, i) >= NonSystemCount(v) - floor
      ensures w[i + 1] == v[i]
    {
      assert i >= p && w[i + 1] == e[i];
    }
  }

  lemma SummaryLeavesFloor(v: seq<Group>, k: nat, floor: nat, g: Group)
    requires 1 <= k <= NonSystemCount(v) - floor && g.kind.Summary? && Included(g)
    ensures NonSystemCount(InsertAt(ExcludeOldest(v, k, SUMMARIZED), FirstNonSystem(v), g)) >= floor + 1
  {
    hide NonSystemCount;
    InsertCount(ExcludeOldest(v, k, SUMMARIZED), FirstNonSystem(v), g);
    ExcludeOldestCount(v, k, SUMMARIZED);
  }

  /** A summarization that succeeds adds one included summary in place of the oldest groups and
      leaves at least the floor of recent groups included. */
  lemma SuccessBounds(measure: Measure, v: seq<Group>, w: seq<Group>,
                      trigger: Option<Trigger>, target: Option<Trigger>, summarizer: Option<Summarizer>,
                      floor: nat, prompt: string, unavailable: string, compacted: bool, cancelled: bool)
    requires SummarizationOutcome(measure, v, w, trigger, target, summarizer, floor, prompt, unavailable, compacted, cancelled)
    requires compacted
    ensures NonSystemCount(w) >= floor + 1 && SummaryPlaced(v, w, floor)
  {
    hide NonSystemCount, SummaryPlaced;
    var k: nat :| StopsAtOldest(v, SUMMARIZED, TargetOf(trigger, target), NonSystemCount(v) - floor, k)
      && SummaryEffect(measure, v, w, k, summarizer.value(Sent(v, k, prompt)), unavailable, compacted, cancelled);
    var g := SummaryFor(measure, summarizer.value(Sent(v, k, prompt)).text, unavailable);
    SummaryInPlace(v, k, floor, g);
    SummaryLeavesFloor(v, k, floor, g);
  }

  lemma FirstIsOldest(v: seq<Group>)
    requires NonSystemCount(v) > 0
    ensures var p := FirstNonSystem(v); p < |v| && Rank(v, p) == 0
  {
    var p := FirstNonSystem(v);
    NoneCounts(v[..p]);
    assert v[..|v|] == v;
  }

  lemma InsertCount(v: seq<Group>, at: nat, g: Group)
    requires at <= |v|
    ensures NonSystemCount(InsertAt(v, at, g)) == NonSystemCount(v) + if IncludedNonSystem(g) then 1 else 0
  {
    CountConcat(v[..at] + [g], v[at..], IncludedNonSystem);
    CountConcat(v[..at], [g], IncludedNonSystem);
    CountConcat(v[..at], v[at..], IncludedNonSystem);
    assert v == v[..at] + v[at..] && [g][..0] == [];
  }

  lemma {:induction false} NoneCounts(v: seq<Group>)
    requires forall i :: 0 <= i < |v| ==> !IncludedNonSystem(v[i])
    ensures NonSystemCount(v) == 0
  {
    if v != [] { NoneCounts(v[..|v| - 1]); }
  }
}
