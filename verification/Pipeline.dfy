/** Strategies composed: the pipeline, the context-window budget, and what any run keeps. */
module Pipeline {
  import opened Messages
  import opened Grouping
  import opened IndexState
  import opened Index
  import opened Compaction
  import opened Collapsing
  import opened Windowing
  import opened Strategies

  datatype Strategy =
    | Truncation(trigger: Option<Trigger>, target: Option<Trigger>, minimum: Option<int>)
    | SlidingWindow(trigger: Option<Trigger>, target: Option<Trigger>, minimum: Option<int>)
    | ToolResult(trigger: Option<Trigger>, target: Option<Trigger>, minimum: Option<int>, format: Formatter)
    | Summarization(trigger: Option<Trigger>, target: Option<Trigger>, summarizer: Option<Summarizer>,
                    minimum: Option<int>, prompt: Option<string>, standard: string, unavailable: string)
    | ContextWindow(maxContext: int, maxOutput: int, toolEviction: real, truncation: real, format: Formatter)
    | Sequential(children: seq<Option<Strategy>>)

  datatype Error = ContextCancelled | InvalidContextTokens | InvalidOutputTokens | InvalidThreshold | ThresholdOrder

  // ---------------------------------------------------------------- context window

  function OrDefault(threshold: real, default: real): real {
    if threshold == 0.0 then default else threshold
  }

  predicate InUnitRange(threshold: real) {
    0.0 < threshold <= 1.0
  }

  /** The first complaint about a context-window configuration. */
  function ConfigError(maxContext: int, maxOutput: int, tool: real, trunc: real): Option<Error> {
    if maxContext <= 0 then Some(InvalidContextTokens)
    else if maxOutput < 0 || maxOutput >= maxContext then Some(InvalidOutputTokens)
    else if !InUnitRange(tool) || !InUnitRange(trunc) then Some(InvalidThreshold)
    else if trunc < tool then Some(ThresholdOrder)
    else None
  }

  /** The token count at a fraction of the input budget, rounded down. */
  function TokensAt(budget: int, threshold: real): int {
    (budget as real * threshold).Floor
  }

  /** It is the whole number that the fraction of the budget reaches. */
  lemma FractionRoundedDown(budget: int, threshold: real)
    ensures TokensAt(budget, threshold) as real <= budget as real * threshold < (TokensAt(budget, threshold) + 1) as real
  {
  }

  /** A count of tokens exceeds the limit if and only if it exceeds the fraction of the budget. */
  lemma ExceedsFraction(budget: int, threshold: real, v: seq<Group>)
    ensures TokensExceed(TokensAt(budget, threshold))(v) <==> IncludedTokens(v) as real > budget as real * threshold
  {
    FractionRoundedDown(budget, threshold);
  }

  /** A valid configuration orders its limits within the input budget. */
  lemma LimitsOrdered(maxContext: int, maxOutput: int, tool: real, trunc: real)
    requires ConfigError(maxContext, maxOutput, tool, trunc).None?
    ensures var budget := maxContext - maxOutput;
      0 <= TokensAt(budget, tool) <= TokensAt(budget, trunc) <= budget
  {
    var b := (maxContext - maxOutput) as real;
    ScaleMonotone(b, 0.0, tool);
    ScaleMonotone(b, tool, trunc);
    ScaleMonotone(b, trunc, 1.0);
  }

  lemma ScaleMonotone(b: real, x: real, y: real)
    requires b >= 0.0 && x <= y
    ensures b * x <= b * y
  {
    assert b * (y - x) >= 0.0;
  }

  // ---------------------------------------------------------------- outcomes

  /** What one run of a strategy does to an index, what it reports, and with which error. */
  ghost predicate Outcome(measure: Measure, s: Strategy, v: seq<Group>, w: seq<Group>,
                          compacted: bool, err: Option<Error>)
    decreases s
  {
    match s
    case Truncation(trigger, target, minimum) =>
      err.None? && TruncationOutcome(v, w, trigger, target, Floor(minimum, 32), compacted)
    case SlidingWindow(trigger, target, minimum) =>
      err.None? && WindowOutcome(v, w, trigger, target, Floor(minimum, 1), compacted)
    case ToolResult(trigger, target, minimum, format) =>
      err.None? && ToolResultOutcome(measure, v, w, trigger, target, Floor(minimum, 16), format, compacted)
    case Summarization(trigger, target, summarizer, minimum, prompt, standard, unavailable) =>
      exists cancelled ::
        && err == (if cancelled then Some(ContextCancelled) else None)
        && SummarizationOutcome(measure, v, w, trigger, target, summarizer, Floor(minimum, 8), PromptOf(prompt, standard),
                                unavailable, compacted, cancelled)
    case ContextWindow(maxContext, maxOutput, tool, trunc, format) =>
      ContextWindowOutcome(measure, v, w, maxContext, maxOutput, OrDefault(tool, 0.5), OrDefault(trunc, 0.8),
                           format, compacted, err)
    case Sequential(_) => PipelineOutcome(measure, s, 0, false, v, w, compacted, err)
  }

  ghost predicate ContextWindowOutcome(measure: Measure, v: seq<Group>, w: seq<Group>, maxContext: int, maxOutput: int,
                                       tool: real, trunc: real, format: Formatter, compacted: bool, err: Option<Error>)
  {
    if ConfigError(maxContext, maxOutput, tool, trunc).Some? then
      !compacted && w == v && err == ConfigError(maxContext, maxOutput, tool, trunc)
    else
      var budget := maxContext - maxOutput;
      err.None? && exists mid, a, b ::
        && ToolResultOutcome(measure, v, mid, Some(TokensExceed(TokensAt(budget, tool))), None, 2, format, a)
        && TruncationOutcome(mid, w, Some(TokensExceed(TokensAt(budget, trunc))), None, 2, b)
        && compacted == (a || b)
  }

  /** A pipeline runs its strategies in order on one index and stops at the first error: what
      the strategies from the `i`-th on do, when `any` says whether an earlier one compacted. */
  ghost predicate PipelineOutcome(measure: Measure, s: Strategy, i: nat, any: bool,
                                  v: seq<Group>, w: seq<Group>, compacted: bool, err: Option<Error>)
    requires s.Sequential? && i <= |s.children|
    decreases s, |s.children| - i
  {
    if i == |s.children| then err.None? && w == v && compacted == any
    else if s.children[i].None? then PipelineOutcome(measure, s, i + 1, any, v, w, compacted, err)
    else exists mid, c, e :: PipelineStep(measure, s, i, any, v, mid, c, e, w, compacted, err)
  }

  ghost predicate PipelineStep(measure: Measure, s: Strategy, i: nat, any: bool, v: seq<Group>,
                               mid: seq<Group>, c: bool, e: Option<Error>,
                               w: seq<Group>, compacted: bool, err: Option<Error>)
    requires s.Sequential? && i < |s.children| && s.children[i].Some?
    decreases s, |s.children| - i, 0
  {
    && Outcome(measure, s.children[i].value, v, mid, c, e)
    && if e.Some? then err == e && w == mid && compacted == any
       else PipelineOutcome(measure, s, i + 1, any || c, mid, w, compacted, err)
  }

  // ---------------------------------------------------------------- main results

  ghost predicate KeepsBuilt(v: seq<Group>, w: seq<Group>) {
    forall turn :: WellBuilt(v, turn) ==> WellBuilt(w, turn)
  }

  lemma SummarizationKeeps(measure: Measure, v: seq<Group>, w: seq<Group>,
                           trigger: Option<Trigger>, target: Option<Trigger>, summarizer: Option<Summarizer>,
                           floor: nat, prompt: string, unavailable: string, compacted: bool, cancelled: bool)
    requires SummarizationOutcome(measure, v, w, trigger, target, summarizer, floor, prompt, unavailable, compacted, cancelled)
    ensures Conserves(v, w) && KeepsBuilt(v, w)
  {
    ConservesPointwise(v, v);
    if ShouldCompact(v, trigger) && summarizer.Some? && NonSystemCount(v) > floor {
      var k: nat :| StopsAtOldest(v, SUMMARIZED, TargetOf(trigger, target), NonSystemCount(v) - floor, k)
        && SummaryEffect(measure, v, w, k, summarizer.value(Sent(v, k, prompt)), unavailable, compacted, cancelled);
      match summarizer.value(Sent(v, k, prompt))
      case Summarized(text) => InsertedSummaryKeeps(v, k, SummaryFor(measure, text, unavailable));
      case _ => RestoredKeeps(v, k);
    }
  }

  lemma InsertedSummaryKeeps(v: seq<Group>, k: nat, g: Group)
    requires g.kind.Summary? && Sound(g) && g.turn.None?
    ensures var w := InsertAt(ExcludeOldest(v, k, SUMMARIZED), FirstNonSystem(v), g);
      Conserves(v, w) && KeepsBuilt(v, w)
  {
    var e, at := ExcludeOldest(v, k, SUMMARIZED), FirstNonSystem(v);
    ExcludeOldestEvolves(v, k, SUMMARIZED);
    ConservesInsert(e, at, g);
    ConservesTransitive(v, e, InsertAt(e, at, g));
    forall turn | WellBuilt(v, turn) ensures WellBuilt(InsertAt(e, at, g), turn) {
      ExcludeOldestBuilt(v, k, SUMMARIZED, turn);
      InsertWellBuilt(e, at, g, turn);
    }
  }

  lemma ExcludeOldestBuilt(v: seq<Group>, k: nat, reason: string, turn: int)
    requires WellBuilt(v, turn)
    ensures WellBuilt(ExcludeOldest(v, k, reason), turn)
  {
    SoundReason(v, turn);
    FlagsWellBuilt(v, ExcludeOldest(v, k, reason), turn);
  }

  lemma RestoredKeeps(v: seq<Group>, k: nat)
    ensures Conserves(v, Restored(v, k)) && KeepsBuilt(v, Restored(v, k))
  {
    ConservesPointwise(v, Restored(v, k));
    forall turn | WellBuilt(v, turn) ensures WellBuilt(Restored(v, k), turn) {
      SoundReason(v, turn);
      FlagsWellBuilt(v, Restored(v, k), turn);
    }
  }

  lemma TruncationKeeps(v: seq<Group>, w: seq<Group>, trigger: Option<Trigger>, target: Option<Trigger>,
                        floor: nat, compacted: bool)
    requires TruncationOutcome(v, w, trigger, target, floor, compacted)
    ensures Conserves(v, w) && KeepsBuilt(v, w)
  {
    TruncationBounds(v, w, trigger, target, floor, compacted);
    if compacted {
      var k: nat :| StopsAtOldest(v, TRUNCATED, TargetOf(trigger, target), NonSystemCount(v) - floor, k)
        && w == ExcludeOldest(v, k, TRUNCATED);
      forall turn | WellBuilt(v, turn) ensures WellBuilt(w, turn) { ExcludeOldestBuilt(v, k, TRUNCATED, turn); }
    }
  }

  lemma WindowKeeps(v: seq<Group>, w: seq<Group>, trigger: Option<Trigger>, target: Option<Trigger>,
                    floor: nat, compacted: bool)
    requires WindowOutcome(v, w, trigger, target, floor, compacted)
    ensures Conserves(v, w) && KeepsBuilt(v, w)
  {
    if compacted {
      var k: nat :| StopsAtTurn(v, TargetOf(trigger, target), |TurnOrder(v)| - floor, k)
        && w == ExcludeTurns(v, TurnOrder(v)[..k]);
      ExcludeTurnsEvolves(v, TurnOrder(v)[..k]);
    } else {
      ConservesPointwise(v, v);
    }
  }

  /** Whole-run conservation: whatever strategies run in whatever nesting, with whatever
      triggers, floors, summarizer results and errors, the groups that were there are still
      there in order with their messages, kinds and turns, none that was excluded is included
      again, no system group is excluded, and only summaries were added. */
  lemma {:induction false} OutcomeConserves(measure: Measure, s: Strategy, v: seq<Group>, w: seq<Group>,
                                            compacted: bool, err: Option<Error>)
    requires Outcome(measure, s, v, w, compacted, err)
    ensures Conserves(v, w) && KeepsBuilt(v, w)
    decreases s
  {
    match s
    case Truncation(trigger, target, minimum) =>
      TruncationKeeps(v, w, trigger, target, Floor(minimum, 32), compacted);
    case SlidingWindow(trigger, target, minimum) =>
      WindowKeeps(v, w, trigger, target, Floor(minimum, 1), compacted);
    case ToolResult(trigger, target, minimum, format) =>
      ToolResultKeeps(measure, v, w, trigger, target, Floor(minimum, 16), format, compacted);
    case Summarization(trigger, target, summarizer, minimum, prompt, standard, unavailable) =>
      var cancelled :| SummarizationOutcome(measure, v, w, trigger, target, summarizer, Floor(minimum, 8),
                                            PromptOf(prompt, standard), unavailable, compacted, cancelled);
      SummarizationKeeps(measure, v, w, trigger, target, summarizer, Floor(minimum, 8), PromptOf(prompt, standard),
                         unavailable, compacted, cancelled);
    case ContextWindow(maxContext, maxOutput, tool, trunc, format) =>
      ContextWindowKeeps(measure, v, w, maxContext, maxOutput, OrDefault(tool, 0.5), OrDefault(trunc, 0.8),
                         format, compacted, err);
    case Sequential(_) =>
      PipelineConserves(measure, s, 0, false, v, w, compacted, err);
  }

  lemma {:induction false} PipelineConserves(measure: Measure, s: Strategy, i: nat, any: bool,
                                             v: seq<Group>, w: seq<Group>, compacted: bool, err: Option<Error>)
    requires s.Sequential? && i <= |s.children|
    requires PipelineOutcome(measure, s, i, any, v, w, compacted, err)
    ensures Conserves(v, w) && KeepsBuilt(v, w)
    decreases s, |s.children| - i
  {
    if i == |s.children| {
      ConservesPointwise(v, v);
    } else if s.children[i].None? {
      PipelineConserves(measure, s, i + 1, any, v, w, compacted, err);
    } else {
      var mid, c, e :| PipelineStep(measure, s, i, any, v, mid, c, e, w, compacted, err);
      OutcomeConserves(measure, s.children[i].value, v, mid, c, e);
      if e.None? {
        PipelineConserves(measure, s, i + 1, any || c, mid, w, compacted, err);
        ConservesTransitive(v, mid, w);
      }
    }
  }

  lemma ContextWindowKeeps(measure: Measure, v: seq<Group>, w: seq<Group>, maxContext: int, maxOutput: int,
                           tool: real, trunc: real, format: Formatter, compacted: bool, err: Option<Error>)
    requires ContextWindowOutcome(measure, v, w, maxContext, maxOutput, tool, trunc, format, compacted, err)
    ensures Conserves(v, w) && KeepsBuilt(v, w)
  {
    if err.Some? {
      ConservesPointwise(v, v);
    } else {
      var budget := maxContext - maxOutput;
      var mid, a, b :|
        && ToolResultOutcome(measure, v, mid, Some(TokensExceed(TokensAt(budget, tool))), None, 2, format, a)
        && TruncationOutcome(mid, w, Some(TokensExceed(TokensAt(budget, trunc))), None, 2, b);
      ToolResultKeeps(measure, v, mid, Some(TokensExceed(TokensAt(budget, tool))), None, 2, format, a);
      TruncationKeeps(mid, w, Some(TokensExceed(TokensAt(budget, trunc))), None, 2, b);
      ConservesTransitive(v, mid, w);
    }
  }

  /** The budget guarantee: a valid context-window run brings the included tokens down to the
      truncation fraction of the budget, or cannot go on because at most two groups remain. */
  lemma BudgetGuarantee(measure: Measure, v: seq<Group>, w: seq<Group>, maxContext: int, maxOutput: int,
                        tool: real, trunc: real, format: Formatter, compacted: bool, err: Option<Error>)
    requires ContextWindowOutcome(measure, v, w, maxContext, maxOutput, tool, trunc, format, compacted, err)
    requires err.None?
    ensures IncludedTokens(w) as real <= (maxContext - maxOutput) as real * trunc || NonSystemCount(w) <= 2
    ensures NonSystemCount(w) >= if NonSystemCount(v) < 2 then NonSystemCount(v) else 2
  {
    var limit := TokensAt(maxContext - maxOutput, trunc);
    var tool' := Some(TokensExceed(TokensAt(maxContext - maxOutput, tool)));
    var mid, a, b :|
      && ToolResultOutcome(measure, v, mid, tool', None, 2, format, a)
      && TruncationOutcome(mid, w, Some(TokensExceed(limit)), None, 2, b);
    ToolResultKeeps(measure, v, mid, tool', None, 2, format, a);
    TruncationBounds(mid, w, Some(TokensExceed(limit)), None, 2, b);
    ExceedsFraction(maxContext - maxOutput, trunc, w);
  }

  // ---------------------------------------------------------------- running strategies

  /** Runs a strategy on an index, in place. */
  method Compact(s: Strategy, index: MessageIndex) returns (compacted: bool, err: Option<Error>)
    requires index.Valid()
    modifies index`groups, index.groups
    ensures index.Valid() && forall g :: g in index.groups ==> g in old(index.groups) || fresh(g)
    ensures Outcome(index.measure, s, old(index.View()), index.View(), compacted, err)
    decreases s
  {
    match s
    case Truncation(trigger, target, minimum) =>
      compacted := Truncate(index, trigger, target, minimum);
      err := None;
    case SlidingWindow(trigger, target, minimum) =>
      compacted := SlideWindow(index, trigger, target, minimum);
      err := None;
    case ToolResult(trigger, target, minimum, format) =>
      compacted := CollapseToolResults(index, trigger, target, minimum, format);
      err := None;
    case Summarization(trigger, target, summarizer, minimum, prompt, standard, unavailable) =>
      var cancelled;
      compacted, cancelled := Summarize(index, trigger, target, summarizer, minimum, prompt, standard, unavailable);
      err := if cancelled then Some(ContextCancelled) else None;
    case ContextWindow(maxContext, maxOutput, tool, trunc, format) =>
      compacted, err := FitContextWindow(index, maxContext, maxOutput, OrDefault(tool, 0.5), OrDefault(trunc, 0.8), format);
    case Sequential(_) =>
      compacted, err := RunPipeline(s, index);
  }

  method FitContextWindow(index: MessageIndex, maxContext: int, maxOutput: int, tool: real, trunc: real, format: Formatter)
    returns (compacted: bool, err: Option<Error>)
    requires index.Valid()
    modifies index`groups, index.groups
    ensures index.Valid() && forall g :: g in index.groups ==> g in old(index.groups) || fresh(g)
    ensures ContextWindowOutcome(index.measure, old(index.View()), index.View(), maxContext, maxOutput, tool, trunc,
                                 format, compacted, err)
  {
    err := ConfigError(maxContext, maxOutput, tool, trunc);
    if err.Some? { return false, err; }
    hide ContextWindowOutcome, ToolResultOutcome, TruncationOutcome, TokensAt, TokensExceed, ConfigError, Conserves, WellBuilt;
    var budget := maxContext - maxOutput;
    ghost var v := index.View();
    var a := CollapseToolResults(index, Some(TokensExceed(TokensAt(budget, tool))), None, Some(2), format);
    assert forall i :: 0 <= i < |index.groups| ==> index.groups[i] in index.groups;
    ghost var mid := index.View();
    var b := Truncate(index, Some(TokensExceed(TokensAt(budget, trunc))), None, Some(2));
    assert Floor(Some(2), 16) == 2 && Floor(Some(2), 32) == 2;
    TwoPhases(index.measure, v, mid, index.View(), maxContext, maxOutput, tool, trunc, format, a, b);
    return a || b, None;
  }

  lemma TwoPhases(measure: Measure, v: seq<Group>, mid: seq<Group>, w: seq<Group>, maxContext: int, maxOutput: int,
                  tool: real, trunc: real, format: Formatter, a: bool, b: bool)
    requires ConfigError(maxContext, maxOutput, tool, trunc).None?
    requires ToolResultOutcome(measure, v, mid, Some(TokensExceed(TokensAt(maxContext - maxOutput, tool))), None, 2, format, a)
    requires TruncationOutcome(mid, w, Some(TokensExceed(TokensAt(maxContext - maxOutput, trunc))), None, 2, b)
    ensures ContextWindowOutcome(measure, v, w, maxContext, maxOutput, tool, trunc, format, a || b, None)
  {
    hide ToolResultOutcome, TruncationOutcome, TokensAt, TokensExceed, ConfigError;
  }

  method RunPipeline(s: Strategy, index: MessageIndex) returns (anyCompacted: bool, err: Option<Error>)
    requires index.Valid() && s.Sequential?
    modifies index`groups, index.groups
    ensures index.Valid() && forall g :: g in index.groups ==> g in old(index.groups) || fresh(g)
    ensures PipelineOutcome(index.measure, s, 0, false, old(index.View()), index.View(), anyCompacted, err)
    decreases s, 0
  {
    hide Outcome;
    ghost var v := index.View();
    anyCompacted := false;
    for i := 0 to |s.children|
      invariant index.Valid() && forall g :: g in index.groups ==> g in old(index.groups) || fresh(g)
      invariant forall w, c, e ::
        PipelineOutcome(index.measure, s, i, anyCompacted, index.View(), w, c, e)
        ==> PipelineOutcome(index.measure, s, 0, false, v, w, c, e)
    {
      if s.children[i].None? { continue; }
      assert forall k :: 0 <= k < |index.groups| ==> index.groups[k] in index.groups;
      ghost var before, any := index.View(), anyCompacted;
      var compacted, e := Compact(s.children[i].value, index);
      if e.Some? {
        assert PipelineStep(index.measure, s, i, any, before, index.View(), compacted, e, index.View(), any, e);
        return anyCompacted, e;
      }
      if compacted { anyCompacted := true; }
      forall w, c, e' | PipelineOutcome(index.measure, s, i + 1, anyCompacted, index.View(), w, c, e')
        ensures PipelineOutcome(index.measure, s, i, any, before, w, c, e')
      {
        assert PipelineStep(index.measure, s, i, any, before, index.View(), compacted, e, w, c, e');
      }
    }
    return anyCompacted, None;
  }

  /** Ad-hoc compaction of a message list. */
  method CompactMessages(s: Strategy, messages: seq<Message>, measure: Measure)
    returns (result: seq<Message>, err: Option<Error>)
    ensures exists w, compacted ::
      && Outcome(measure, s, Parse(measure, messages, 0), w, compacted, err)
      && result == if err.Some? then [] else Project(w, Included)
  {
    hide Parse, Outcome;
    var index := new MessageIndex.Create(messages, measure);
    var compacted;
    assert forall i :: 0 <= i < |index.groups| ==> index.groups[i] in index.groups;
    compacted, err := Compact(s, index);
    if err.Some? { return [], err; }
    result := index.IncludedMessages();
  }

  function SystemMessages(ms: seq<Message>): seq<Message> {
    if ms == [] then [] else (if ms[0].role.System? then [ms[0]] else []) + SystemMessages(ms[1..])
  }

  lemma {:induction false} SystemConcat(a: seq<Message>, b: seq<Message>)
    ensures SystemMessages(a + b) == SystemMessages(a) + SystemMessages(b)
  {
    if a == [] {
      assert a + b == b;
      assert [] + SystemMessages(b) == SystemMessages(b);
    } else {
      SystemConcat(a[1..], b);
      SystemFirst(a + b);
      SystemFirst(a);
      hide SystemMessages;
      assert (a + b)[1..] == a[1..] + b;
      ConcatAssociates(if a[0].role.System? then [a[0]] else [], SystemMessages(a[1..]), SystemMessages(b));
    }
  }

  lemma SystemFirst(ms: seq<Message>)
    requires ms != []
    ensures SystemMessages(ms) == (if ms[0].role.System? then [ms[0]] else []) + SystemMessages(ms[1..])
  {
  }

  lemma {:induction false} NoSystem(ms: seq<Message>)
    requires forall i :: 0 <= i < |ms| ==> !ms[i].role.System?
    ensures SystemMessages(ms) == []
  {
    if ms != [] { NoSystem(ms[1..]); }
  }

  lemma GroupSystem(measure: Measure, g: Group)
    requires WellFormedGroup(measure, g)
    ensures SystemMessages(g.messages) == if IsSystem(g) then g.messages else []
  {
    if g.kind.ToolCall? {
      NoSystem(g.messages);
    } else {
      assert g.messages == [g.messages[0]];
      assert SystemMessages([g.messages[0]]) == if g.messages[0].role.System? then [g.messages[0]] else [];
    }
  }

  lemma {:induction false} GroupsSystem(measure: Measure, v: seq<Group>)
    requires forall i :: 0 <= i < |v| ==> WellFormedGroup(measure, v[i])
    ensures Project(v, IsSystem) == SystemMessages(Flatten(v))
  {
    if v != [] {
      hide WellFormedGroup, SystemMessages;
      GroupsSystem(measure, v[1..]);
      GroupSystem(measure, v[0]);
      SystemConcat(v[0].messages, Flatten(v[1..]));
    } else {
      NoSystem([]);
    }
  }

  lemma {:induction false} ProjectionSubsequence(v: seq<Group>, p: Group -> bool)
    ensures IsSubsequence(Project(v, p), Flatten(v))
  {
    if v != [] {
      ProjectionSubsequence(v[1..], p);
      SubsequencePrepend(v[0].messages, Project(v[1..], p), Flatten(v[1..]), p(v[0]));
    }
  }

  lemma {:induction false} SubsequenceTransitive<T(!new)>(a: seq<T>, b: seq<T>, c: seq<T>)
    requires IsSubsequence(a, b) && IsSubsequence(b, c)
    ensures IsSubsequence(a, c)
    decreases |b| + |c|
  {
    if a != [] {
      if b[0] == c[0] && IsSubsequence(b[1..], c[1..]) {
        if a[0] == b[0] && IsSubsequence(a[1..], b[1..]) {
          SubsequenceTransitive(a[1..], b[1..], c[1..]);
        } else {
          SubsequenceTransitive(a, b[1..], c[1..]);
        }
      } else {
        SubsequenceTransitive(a, b, c[1..]);
      }
    }
  }

  /** What conserves well-formed groups that hold a conversation. */
  lemma ConservedConversation(measure: Measure, v: seq<Group>, w: seq<Group>)
    requires Conserves(v, w) && forall i :: 0 <= i < |v| ==> WellFormedGroup(measure, v[i])
    ensures IsSubsequence(Project(w, IncludedRaw), Flatten(v))
    ensures Project(w, IsSystem) == SystemMessages(Flatten(v))
  {
    hide *;
    ConservesProjection(v, w);
    GroupsSystem(measure, v);
    ProjectionSubsequence(v, IncludedRaw);
    SubsequenceTransitive(Project(w, IncludedRaw), Project(v, IncludedRaw), Flatten(v));
  }

  /** What ad-hoc compaction returns, summaries apart, is part of the conversation in order, and
      its system messages are exactly those of the conversation. */
  lemma CompactedConversation(measure: Measure, s: Strategy, messages: seq<Message>, w: seq<Group>,
                              compacted: bool, err: Option<Error>)
    requires Outcome(measure, s, Parse(measure, messages, 0), w, compacted, err)
    ensures IsSubsequence(Project(w, IncludedRaw), messages)
    ensures Project(w, IsSystem) == SystemMessages(messages)
    ensures WellBuilt(w, UserCount(messages))
  {
    hide Outcome, Parse, Project, Conserves, WellBuilt;
    OutcomeConserves(measure, s, Parse(measure, messages, 0), w, compacted, err);
    ParseWellBuilt(measure, messages);
    ParsePartitions(measure, messages, 0);
    ParseShapes(measure, messages, 0);
    ConservedConversation(measure, Parse(measure, messages, 0), w);
  }
}
