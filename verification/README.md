# Verification model of the agent framework's stateful core

The agent framework keeps conversations within a model's context window, shares caches between concurrent callers,
assembles streamed answers, and validates user-built graphs. This project models those parts in Dafny and proves what
they promise, for all inputs, all runs and all interleavings:

- **Compaction** (`Messages`, `Grouping`, `IndexState`, `Updating`, `Index`, `Compaction`, `Collapsing`, `Windowing`,
  `Strategies`, `Pipeline`, `History`, `Uniqueness`, `Rules`). A flat message list is grouped, kept in a mutable index
  and compacted in place by truncation, sliding window, tool-result collapsing, summarization, the context-window
  budget and pipelines of them. `Index` and `Strategies` hold the objects and loops; the other modules hold what they
  amount to and what follows from that, for one call and (in `History`) for any sequence of updates, compactions and
  restorations. `Uniqueness` and `Rules` say in plain terms what grouping and each strategy must do, and that they do
  exactly that.
- **The caching skill source** (`SkillCache`) and **workflow ownership** (`Ownership`), as transition systems whose
  steps are the critical sections, channel operations, atomic loads and compare-and-swaps of any number of callers.
- **Streams and coalescing** (`Coalescing`, `Contents`, `Keyed`, `CoalesceAll`, `Adjacency`, `Idempotence`, `Kept`,
  `Responses`, `Batches`, `Chunking`, `Usage`, `Injection`). Updates are folded into messages, runs of content are
  merged in an array, and queued messages are injected between provider calls.
- **Graphs** (`TypeWalk`, `Filters`, `Meaning`, `Building`): pointer-chain cycle detection, filter validation on
  shared and cyclic graphs, and the workflow builder with its orphan search.
- **Data URIs** (`Base64`, `DataUri`): RFC 2397 sections 2 and 3, RFC 4648 section 4.

Triggers, targets, token counting, the tool-call formatter, the summarizer, media-type parsing, percent-decoding and
type compatibility are arbitrary pure functions; the program's own summarization prompt is an arbitrary text;
thresholds are real numbers.

Six promises do not hold on all inputs. For each the exact condition is proved, and for some an input that fails:

- Updating an index equals grouping anew if and only if the update knows the old messages again (all of them are
  counted as original, or the last one counted, and every new one, looks different from the last) and no old group
  reaches into the new messages: a tool call that the list ends in takes in a new tool message or bare reasoning,
  trailing bare reasoning leads to a new tool call (`Updating.UpdateEqualsRebuild`). Two inputs fail:
  `Updating.SummaryBreaksUpdate`, where a summary is not counted, and `Updating.ResultParted`, where a tool result is
  parted from its call. A list that ends in a user or system message or in plain text reaches into nothing
  (`Grouping.NothingReaches`); without summary messages the old ones are always known again
  (`Updating.IncrementalEqualsRebuild`). Whether an update, also of a compacted index, appends exactly the new
  messages depends on their being known again alone (`Updating.UpdateAppends`, `Updating.UpdateAfterCompaction`), and
  an index restored from its groups knows the last message if and only if that ends a group that is no summary
  (`Updating.RestoreAfterCompaction`).
- A failed summarization leaves the index as it was if and only if the groups it picked carried no exclude reason
  (`Compaction.FailureRestoresIff`); every index this package builds satisfies that (`Compaction.FailureRestores`).
- Coalescing a list twice gives what coalescing it once gives if and only if nothing that coalescing deletes keeps
  apart what would merge (`Idempotence.CoalesceIdempotentIff`): no two plain texts with only nil entries and repeated
  images and searches between them, no open reasoning (one without protected data) so parted from the next one by a
  repeat, and the same again for what each run of interpreter items holds. `CoalesceAll.NotIdempotent` is a list that
  fails. For the text and the reasoning pass alone the condition is about nil entries
  (`Idempotence.TextPassIdempotentIff`, `Idempotence.ReasoningPassIdempotentIff`).
- A data URI reads back as the content it was printed from if and only if the media type is valid, has no comma in it
  and no space around it, and the data is valid base64 (`DataUri.PrintParse`). Contents may be built without
  validation; those made from bytes or from a URI have valid parts, and there the media type decides
  (`DataUri.BytesRoundTrip`, `DataUri.OverrideRoundTrip`).
- A response turned into updates is gathered again unchanged if and only if it is empty, or has messages, each with a
  role and told apart from its neighbour (`Responses.WholeComesBackIff`). For the messages alone a response without
  any is fine, too, when it has no continuation token (`Responses.ComesBackIff`).
- While a reset is outstanding and nobody owns the workflow, a step gives it an owner if and only if its call had
  passed the reset check before (`Ownership.ResetExcludesIff`; `Ownership.NeedsResetIff` says when a reset is
  outstanding); calls that begin while it is outstanding never do as long as it stays so
  (`Ownership.LaterTakesExcluded`). `Ownership.TakeBeforeReset` is a run where an earlier one does.

Where code and documentation disagree the model follows the code. The comment at `message/content.go:1139-1143` says
that code-interpreter items with one call ID are combined regardless of position; the code combines them only when
they stand next to each other. In the builder, the check for outputs missing from the graph cannot fail once nothing
is unbound, because declaring an output registers it; `Building.Builder.Validate` proves its branch dead.

## Model

| member | source | states |
|---|---|---|
| `Messages.MessageEqualReflexive` | agent/compaction/equality.go:12-110 | every message matches itself, nested contents included, so an index always finds its own last message again |
| `Messages.ContentEqualIff` | agent/compaction/equality.go:41-154 | two items match if and only if they are the same once properties and annotations are taken away at every depth |
| `Messages.MessageEqualIff` | agent/compaction/equality.go:12-39 | messages that both have IDs match by these alone, others if role, author and the bare contents are the same |
| `Grouping.ParsePartitions` | agent/compaction/index.go:113-166 | the messages of the groups, concatenated, are the input |
| `Grouping.ParseShapes` | agent/compaction/index.go:113-166 | each group is non-empty and has the shape of its kind, system groups have no turn, and no group after a tool call starts with a tool message or a reasoning-only assistant message |
| `Grouping.OneCaller` | agent/compaction/index.go:113-166 | a tool-call group holds exactly one assistant message with function calls |
| `Grouping.ParseTurns` | agent/compaction/index.go:113-166 | turn numbers never decrease, lie between the starting turn and the number of user messages added to it, and every turn in that range appears |
| `Grouping.ParseConcat` | agent/compaction/index.go:75-111 | grouping a list in two parts gives the groups of the whole if and only if no group of the first part reaches into the second: a tool call at its end takes in what the second begins with, or bare reasoning at its end leads to a tool call there |
| `Grouping.NothingReaches` | agent/compaction/index.go:113-166 | a list that ends in a message that neither calls a tool nor can belong to a tool call, such as a user message, reaches into nothing |
| `Grouping.CutsReachNothing` | agent/compaction/index.go:113-166 | wherever a grouping is cut between two of its groups, nothing before the cut reaches behind it |
| `Uniqueness.OnlyGrouping` | agent/compaction/index.go:113-166 | a list of groups is the grouping of a message list if and only if it follows the rules: the messages in order, kinds and turns as the messages tell, counts and sizes as measured, tool calls atomic and as long as possible, and reasoning alone only where it leads to no tool call |
| `Uniqueness.AssistantMessages` | agent/compaction/index.go:452-464 | an assistant message calls a tool if and only if it holds a function call, and is bare reasoning if and only if it holds nothing else |
| `IndexState.ParseWellBuilt` | agent/compaction/index.go:65-70 | a fresh index satisfies the index invariant (sound groups, ascending turns, turn counter present) |
| `IndexState.AppendWellBuilt` | agent/compaction/index.go:113-166 | appending further messages keeps the index invariant |
| `IndexState.ExcludeWellBuilt` | agent/compaction/group.go:78-81 | excluding a group keeps the index invariant |
| `IndexState.InsertWellBuilt` | agent/compaction/index.go:169-173 | inserting a summary without a turn, or with the turn of the group before it, keeps the index invariant |
| `IndexState.RestoreRecovers` | agent/compaction/index.go:42-62 | the backward scan over the groups of any well-built index finds its last original message and its turn counter |
| `IndexState.ConservesTransitive` | agent/compaction/pipeline.go:17-32 | conservation (same groups in order, flags only from included to excluded, only summaries added) composes |
| `IndexState.ConservesEmbeds` | agent/compaction/pipeline.go:17-32 | a conserving run has an ascending embedding of the old groups such that all other groups are summaries: erasing those leaves the old groups, same messages, kinds and turns |
| `IndexState.ConservesProjection` | agent/compaction/index.go:183-191 | after a conserving run the included original messages are a subsequence of those before, and the included system messages are the same |
| `IndexState.TokensAddUp` | agent/compaction/index.go:266-274 | the included tokens are those of the included groups, added up |
| `IndexState.RawMessagesAddUp` | agent/compaction/index.go:322-330 | the included original messages are those of the included groups other than summaries, added up |
| `IndexState.CountIsSize` | agent/compaction/index.go:299-309 | a count of groups is the number of positions that have one |
| `IndexState.ScanTurnIs` | agent/compaction/index.go:42-62 | on any list of groups the backward scan takes the turn of the last group that has one and has an original message in it or behind it, and of the first group that has one where there is no such |
| `Updating.UpdateAppends` | agent/compaction/index.go:75-111 | on any index that counts no more original messages than were grouped, an update keeps all groups and appends the grouping of exactly the new messages if and only if the old ones are known again |
| `Updating.UnknownIsRebuilt` | agent/compaction/index.go:75-111 | for any index and any list: if no message was processed yet, or nothing in the list looks like the last one, groups, turn counter and last message are those of grouping the list anew |
| `Updating.KnownIsContinued` | agent/compaction/index.go:75-111 | for any index and any list in which the last message is found again, at the expected place or else at its last match: what comes behind it is grouped behind the old groups, or the list is grouped anew if that place lies before all counted messages |
| `Updating.KnownOrNot` | agent/compaction/index.go:75-111 | such a place exists if and only if some message looks like the last one |
| `Updating.UpdateEqualsRebuild` | agent/compaction/index.go:75-111 | for all old and new messages an update equals grouping the longer list (groups, turn counter, last message) if and only if there were none or the old ones are known again (all are counted, or the last one counted and every new one look different from the last) and no old group reaches into the new ones |
| `Updating.IncrementalEqualsRebuild` | agent/compaction/index.go:75-111 | without summary messages an update equals grouping anew if and only if no old group reaches into the new messages, whatever those repeat |
| `Updating.ResultParted` | agent/compaction/index.go:75-111 | an update that brings the result of a tool call parts it from the call, although nothing is a summary and the old messages are known again |
| `Updating.SummaryBreaksUpdate` | agent/compaction/index.go:75-111 | a list with a summary message on which an update differs from grouping anew |
| `Updating.UpdateAfterCompaction` | agent/compaction/index.go:75-111 | after any conserving run an update keeps all groups and exclusions and appends exactly the new messages if and only if the old ones are known again |
| `Updating.UniqueIsKnown` | agent/compaction/index.go:75-111 | a last message that nothing else in the longer list looks like is always known again |
| `Updating.UpdateWellBuilt` | agent/compaction/index.go:75-111 | an update keeps the index invariant from any well-built index and any message list |
| `Updating.RestoreAfterCompaction` | agent/compaction/index.go:42-62 | restoring an index from the groups of a compacted one recovers the turn counter, and the last processed message if and only if that ends a group that is no summary |
| `Updating.ConservesRawCount` | agent/compaction/index.go:322-330 | no run raises the number of included original messages |
| `Updating.TotalTurns` | agent/compaction/index.go:277-285 | a fresh index has as many turns as the list has user messages |
| `Index.MessageGroup.SetExclusion` | agent/compaction/group.go:78-81 | flags one group object, reason included, and changes nothing else of it |
| `Index.MessageIndex.Restore` | agent/compaction/index.go:42-62 | the constructor over any given groups finds what the specified backward scan finds, with its early stop |
| `Index.MessageIndex.Create` | agent/compaction/index.go:65-70 | a fresh index holds the grouping of the list, its user count and its last message |
| `Index.MessageIndex.AppendFromMessages` | agent/compaction/index.go:113-166 | the lookahead loop appends exactly the specified grouping, as new objects, and leaves the old ones |
| `Index.MessageIndex.Update` | agent/compaction/index.go:75-111 | the method's groups, turn counter and last message are those of the update specification, which `Updating.UnknownIsRebuilt` and `Updating.KnownIsContinued` pin down for every index and list |
| `Index.MessageIndex.InsertGroup` | agent/compaction/index.go:169-173 | a new group object stands at the position, all others keep their order |
| `Index.MessageIndex.IncludedTurnCount` | agent/compaction/index.go:288-296 | counts the distinct positive turns of included groups |
| `Index.MessageIndex.IncludedNonSystemGroupCount` | agent/compaction/index.go:299-309 | counts the included groups that are not system groups |
| `Index.MessageIndex.IncludedRawMessageCount` | agent/compaction/index.go:322-330 | sums the message counts of included groups other than summaries |
| `Index.MessageIndex.IncludedMessages` | agent/compaction/index.go:183-191 | returns the messages of the included groups in order |
| `Index.NextGroup` | agent/compaction/index.go:113-166 | the lookahead at a position gives the kind and length of the group that starts there |
| `Compaction.ExcludeOldestCount` | agent/compaction/truncation.go:43-65 | excluding the oldest `k` non-system groups lowers their included number by exactly `k` |
| `Compaction.TruncationBounds` | agent/compaction/truncation.go:33-65 | truncation takes groups strictly from the oldest end, never goes below min(floor, initial count), removes at least one if it reports compaction, and then has met its target or stands at the floor |
| `Compaction.TruncationSettles` | agent/compaction/strategy.go:23-37 | with the target that a trigger implies, truncating a second time changes nothing |
| `Compaction.SummarizationReplaces` | agent/compaction/summarization.go:96-153 | on success the included non-system messages were those sent after the prompt followed by a rest; afterwards they are the summary followed by the same rest, and the system messages are as before |
| `Compaction.ProjectInsert` | agent/compaction/index.go:183-191 | the messages read off a list of groups are those of the selected groups, one group after the other |
| `Compaction.OldestComeFirst` | agent/compaction/summarization.go:103-128 | the included non-system messages are those of the `k` oldest groups, in order, followed by those left |
| `Compaction.FailureRestoresIff` | agent/compaction/summarization.go:130-139 | a summarization that does not succeed leaves the index as it was if and only if no group it picked carried an exclude reason |
| `Compaction.FailureRestores` | agent/compaction/summarization.go:130-139 | on a well-built index a summarization that does not succeed changes nothing |
| `Compaction.SuccessBounds` | agent/compaction/summarization.go:141-153 | on success one included summary stands where the first excluded group was, and the protected recent groups follow unchanged and number at least the floor |
| `Collapsing.CollapseNext` | agent/compaction/toolresult.go:77-99 | after `n` collapses the next eligible group stands at its index plus `n`, and collapsing it there gives the specified list with one mark more |
| `Collapsing.CollapseCounts` | agent/compaction/toolresult.go:77-99 | collapsing keeps the included group count, the non-system count and the set of included turns |
| `Collapsing.ProtectedUntouched` | agent/compaction/toolresult.go:54-75 | from the first protected group on, the list is as it was, moved by the number of summaries |
| `Collapsing.ToolResultKeeps` | agent/compaction/toolresult.go:44-101 | any outcome of the strategy keeps the counts, conserves the groups and keeps the index invariant |
| `Windowing.OrderIsIncludedTurns` | agent/compaction/slidingwindow.go:44-58 | the turn order lists each included positive turn once |
| `Windowing.OrderAscends` | agent/compaction/slidingwindow.go:44-58 | on a well-built index the order of first appearance is the order of age |
| `Windowing.DroppedTurns` | agent/compaction/slidingwindow.go:60-76 | dropping the first `k` turns removes exactly those from the included turns, and lowers their count by `k` |
| `Windowing.DropsWholeTurns` | agent/compaction/slidingwindow.go:60-76 | every turn is afterwards untouched or fully excluded, the excluded ones are older than the kept ones, and groups without a positive turn are untouched |
| `Windowing.WindowBounds` | agent/compaction/slidingwindow.go:34-76 | a run drops whole oldest turns only, never below min(floor, initial turns), and if it reports compaction it met its target or stands exactly at the floor |
| `Windowing.WindowSettles` | agent/compaction/strategy.go:23-37 | with the target that a trigger implies, sliding the window a second time changes nothing |
| `Strategies.Truncate` | agent/compaction/truncation.go:33-65 | in place: excludes the `k` oldest groups for the least positive `k` that meets the target, or as many as the floor allows |
| `Strategies.Summarize` | agent/compaction/summarization.go:77-153 | in place: selection, call with the prompt first, rollback or insertion, exactly as specified for every summarizer outcome |
| `Strategies.SelectOldest` | agent/compaction/summarization.go:103-128 | the selection loop's exclusions, collected messages, picked objects and insertion point belong to the same least `k` |
| `Strategies.UndoSelection` | agent/compaction/summarization.go:131-135 | re-includes exactly the picked objects and clears their reasons |
| `Strategies.CollapseToolResults` | agent/compaction/toolresult.go:44-101 | in place: excludes the first `k` eligible groups, each directly followed by a summary of the same turn, for the least `k` meeting the target or all of them |
| `Strategies.EligibleIndices` | agent/compaction/toolresult.go:54-75 | finds exactly the included tool calls outside the protected recent groups |
| `Strategies.CollapseEligible` | agent/compaction/toolresult.go:77-99 | the loop with insertion and growing offset gives the specified list |
| `Strategies.SlideWindow` | agent/compaction/slidingwindow.go:34-76 | in place: excludes whole turns, oldest first, for the least number meeting the target or down to the floor |
| `Strategies.BuildTurnTable` | agent/compaction/slidingwindow.go:44-58 | the table lists for each turn exactly its included non-system groups, and the order is that of first appearance |
| `Pipeline.LimitsOrdered` | agent/compaction/contextwindow.go:61-76 | 0 <= tool-eviction tokens <= truncation tokens <= input budget for every valid configuration |
| `Pipeline.FractionRoundedDown` | agent/compaction/contextwindow.go:76-78 | a limit is the whole number that the fraction of the input budget reaches |
| `Pipeline.ExceedsFraction` | agent/compaction/contextwindow.go:76-94 | a phase is triggered if and only if the included tokens exceed its fraction of the input budget |
| `Pipeline.BudgetGuarantee` | agent/compaction/contextwindow.go:51-94 | after a valid run the included tokens are within the truncation fraction of the input budget or at most two non-system groups remain, and never fewer than min(2, initial count) |
| `Pipeline.OutcomeConserves` | agent/compaction/pipeline.go:17-32 | every nesting of the built-in strategies, with any triggers, floors and summarizer outcomes, errors included, conserves the groups and keeps the index invariant |
| `Pipeline.Compact` | agent/compaction/pipeline.go:17-32 | running a strategy on an index object has a specified outcome and keeps or freshly makes all group objects |
| `Pipeline.RunPipeline` | agent/compaction/pipeline.go:17-32 | children run in order on one index, nil ones are passed over, the first error ends the run, and the result says whether any of them compacted |
| `Pipeline.FitContextWindow` | agent/compaction/contextwindow.go:51-94 | the configuration checks in order, then tool-result collapsing and truncation with the computed limits, whose meaning `Rules.ContextWindowFollowsRule` states in fractions of the budget |
| `Pipeline.CompactMessages` | agent/compaction/strategy.go:43-52 | ad-hoc compaction returns the included messages of some specified outcome on the grouped list, or nothing on error |
| `Pipeline.CompactedConversation` | agent/compaction/strategy.go:43-52 | what any strategy leaves, summaries apart, is a subsequence of the conversation with exactly its system messages |
| `Rules.OldestExactly` | agent/compaction/truncation.go:43-65 | excluding the `k` oldest non-system groups is the only way to exclude groups from the oldest end and leave so many |
| `Rules.TruncationExactly` | agent/compaction/truncation.go:33-65 | truncation does what its rule says and all that it admits: it runs if and only if more than one and more than the floor of groups are included and its trigger fires; it excludes groups from the oldest end, at least one, with its reason, until the target is met or the floor reached, and not earlier |
| `Rules.SummarizationExactly` | agent/compaction/summarization.go:77-153 | summarization does exactly what its rule says: the same selection, the prompt followed by the messages of the picked groups, and on success one fresh summary, its heading and the text or a notice for a blank one, before the first picked group; otherwise the picked groups are included again without a reason |
| `Rules.ToolResultFollowsRule` | agent/compaction/toolresult.go:44-101 | tool-result collapsing runs if and only if a tool call with enough groups behind it is included; it marks the oldest such calls until the target is met or no more are left, and not earlier; each marked call is excluded and followed by one summary with the formatted text in the same turn, all other groups are as they were |
| `Rules.CollapseIs` | agent/compaction/toolresult.go:77-99 | position by position, what the list looks like once some groups are collapsed |
| `Rules.TurnsExactly` | agent/compaction/slidingwindow.go:60-76 | on a well-built index dropping the first `k` turns is the only way to drop whole turns from the oldest end and leave so many |
| `Rules.WindowExactly` | agent/compaction/slidingwindow.go:34-76 | on a well-built index the sliding window does exactly what its rule says: whole turns are dropped oldest first, at least one, until the target is met or the floor reached, and not earlier |
| `Rules.ContextWindowFollowsRule` | agent/compaction/contextwindow.go:51-94 | over the tool fraction of the input budget the oldest tool results are collapsed until the tokens are down to it; over the truncation fraction the oldest groups are excluded until the tokens are down to that; two groups are protected in both |
| `Rules.WithinBudgetNothing` | agent/compaction/contextwindow.go:51-94 | while the tokens are within the tool fraction of the input budget nothing changes |
| `Rules.OverBudgetCollapses` | agent/compaction/contextwindow.go:51-94 | over it the oldest tool call that is not protected is collapsed, with its formatted summary behind it |
| `Rules.TruncationDefault` | agent/compaction/truncation.go:9-65 | the strategy follows its rule and protects 32 groups unless told otherwise, none for a negative number |
| `Rules.WindowDefault` | agent/compaction/slidingwindow.go:10-76 | the strategy follows its rule and protects 1 turn unless told otherwise |
| `Rules.ToolResultDefault` | agent/compaction/toolresult.go:15-101 | the strategy follows its rule and protects 16 groups unless told otherwise |
| `Rules.SummarizationDefault` | agent/compaction/summarization.go:14-153 | the strategy follows its rule with the given or the standard prompt, protects 8 groups unless told otherwise, and reports an error exactly when cancelled |
| `Rules.ContextWindowDefault` | agent/compaction/contextwindow.go:12-74 | with thresholds of zero standing for 0.5 and 0.8, exactly the invalid configurations are refused, each with its error, and then nothing changes |
| `Rules.PipelineStates` | agent/compaction/pipeline.go:17-32 | a pipeline takes the index through one state after another, each what its strategy makes of the one before; missing strategies change nothing, the first error ends the run, and the result says whether any strategy without an error compacted |
| `History.GrowthAppends` | agent/compaction/index.go:75-111 | whatever the new messages begin with, growing an index whose messages are known again appends exactly their grouping, and the index goes on tracking the conversation |
| `History.AlwaysTracks` | agent/compaction/index.go:42-111 | through any alternation of updates that know the old messages again, strategies with any outcome and restorations after which the last message is known, the index conserves the conversation grouped in the pieces in which it came, satisfies the index invariant, and knows its turn count and last message |
| `History.AlwaysFaithful` | agent/compaction/index.go:183-191 | after any such history the included messages, summaries apart, are a subsequence of the conversation with exactly its system messages |
| `History.RestoringTracks` | agent/compaction/provider.go:122-130 | making an index again from its groups recovers the turn counter, and changes nothing at all if and only if the last message ends a group that is no summary |
| `History.AlwaysRestores` | agent/compaction/provider.go:122-130 | at any moment of such a history the groups alone give back the turn counter, and everything the index knows if and only if the last message ends a group that is no summary |
| `History.PiecesAreWhole` | agent/compaction/index.go:75-111 | the conversation grouped in pieces is the grouping of the whole if and only if in no update an old group reaches into the new messages |
| `History.AlwaysInStep` | agent/compaction/index.go:75-111 | through any such history in which no old group reaches into new messages, the index conserves the grouping of the whole conversation, as if it had come at once |
| `SkillCache.KeysDistinct` | agent/skills/source.go:141-146 | the shared bucket and all selected keys, the empty one too, are different buckets |
| `SkillCache.StepKeepsInv` | agent/skills/source.go:137-196 | every step of every caller keeps the lock, loading-mark, channel and waiter invariants |
| `SkillCache.SingleFlight` | agent/skills/source.go:137-196 | in every reachable state a key has a loading mark exactly when a caller fetches it, that caller is the only one, and waiters wait on a closed channel or on that fetch |
| `SkillCache.OnlySuccessCaches` | agent/skills/source.go:180-196 | failed and panicked fetches leave the cached list, flag and time unchanged; a change comes from a successful fetch of that key and stores its result |
| `SkillCache.FetchedOnce` | agent/skills/source.go:147-178 | without an interval each key has at most one successful fetch, and all successful calls on it return one list |
| `SkillCache.RefreshesAreSpaced` | agent/skills/source.go:147-178 | with an interval, successful fetches of one key end at least the interval apart, and nobody fetches what the last successful fetch still serves |
| `SkillCache.ServedExactly` | agent/skills/source.go:147-178 | in every reachable state a call at the top of the loop is served the result of the last successful fetch of its key if and only if there is one and, with an interval, less than that has passed since it ended; otherwise it fails if cancelled, waits if and only if another call fetches the key, and else fetches it |
| `SkillCache.ZeroReloads` | agent/skills/source.go:99-101 | with a zero or negative interval no call is served from the cache |
| `SkillCache.HowCallsEnd` | agent/skills/source.go:137-196 | a call returns a list if and only if it is served that list or its own fetch delivered it, panics if and only if its own fetch did, and fails if and only if the source was closed, it was cancelled, or its own fetch failed |
| `SkillCache.NothingInvented` | agent/skills/source.go:137-196 | a call that succeeds returns a list some fetch of its own key delivered |
| `SkillCache.NeverStuck` | agent/skills/source.go:147-196 | while a call has not returned, some unfinished call can take its next step |
| `Ownership.StepKeepsInv` | workflow/workflow.go:398-483 | every load, check and compare-and-swap of every call keeps the protocol invariant |
| `Ownership.NeverStolen` | workflow/workflow.go:398-483 | a present owner never has a nil token, and a step that changes or clears the owner's token belongs to a call that presented exactly that token; an unowned workflow only gets an owner through a take |
| `Ownership.CheckIsExact` | workflow/workflow.go:386-396 | the ownership check answers yes for exactly the current owner's token |
| `Ownership.TakesExclude` | workflow/workflow.go:398-483 | between two successful takes of an unowned workflow with different new tokens lies a change by a call that presented the first one's token and gave it away |
| `Ownership.SuccessIsReal` | workflow/workflow.go:398-450 | a take that reports success made a compare-and-swap of its own that installed its new token |
| `Ownership.NeedsResetIff` | workflow/workflow.go:370-447 | in every reachable state a reset is outstanding if and only if the workflow has resettable executors and a take has ended since the last successful reset |
| `Ownership.ResetCheckIff` | workflow/workflow.go:413-420 | the reset check turns a take away if and only if the workflow has resettable executors and a take has ended since the last successful reset |
| `Ownership.NeverNeedsReset` | workflow/workflow.go:398-450 | without resettable executors no take is ever turned away for a reset |
| `Ownership.FlagIsOfLastTake` | workflow/workflow.go:398-483 | in every reachable state an owner owns the workflow as a subworkflow if and only if the last take asked for that, through all hand-overs since |
| `Ownership.UndisturbedCall` | workflow/workflow.go:398-483 | from every reachable state a call that no other one disturbs ends within five steps with the result that its arguments, the owner's token, the flag of the last take and an outstanding reset determine; success installs the new or the target token and is logged, a rejection changes nothing |
| `Ownership.ResetExcludesIff` | workflow/workflow.go:370-450 | in every reachable state without owner and with a reset outstanding, a step gives the workflow an owner if and only if its call had passed the reset check, and no call passes it then |
| `Ownership.LaterTakesExcluded` | workflow/workflow.go:370-450 | as long as a reset stays outstanding, only calls that had begun before take the workflow from no owner |
| `Ownership.TakeBeforeReset` | workflow/workflow.go:370-383 | a run in which such an earlier take succeeds while a release has not yet reset the workflow |
| `Coalescing.RunIsMaximal` | message/content.go:1326-1357 | the run found consists of mergeable neighbours and cannot be made longer |
| `Coalescing.CoalesceRuns` | message/content.go:1326-1372 | the in-place loop (store at the start, nil out, delete) gives the list with every maximal run replaced by its merge, and clears the places behind it |
| `Coalescing.DeleteAbsent` | message/content.go:1371-1371 | removes exactly the nil entries, in order |
| `Contents.MergedKeeps` | message/content.go:1326-1372 | what a merge keeps of every run, the pass keeps of the list |
| `Contents.MergedSettles` | message/content.go:1326-1372 | after a stable pass over a list without nil entries no two neighbours merge |
| `Contents.UsageItem` | message/content.go:687-703 | usage is read off usage items alone, and all of it |
| `Idempotence.TextPassIdempotentIff` | message/content.go:1172-1179 | the text pass is idempotent on a list if and only if no two plain texts stand with nil entries alone between them |
| `Idempotence.ReasoningPassIdempotentIff` | message/content.go:1181-1195 | the reasoning pass is idempotent on a list if and only if no open plain reasoning stands with nil entries alone before the next plain one |
| `Contents.NilBreaksIdempotence` | message/content.go:1326-1372 | a list with a nil entry on which the text pass is not idempotent |
| `Keyed.CoalesceKeyed` | message/content.go:1262-1324 | the indexed loop gives the list with all items of one call ID collected at the first one's place |
| `Keyed.OnePerCallId` | message/content.go:1262-1324 | in the list a keyed pass returns every call ID occurs once |
| `Keyed.LastImageWins` | message/content.go:1262-1277 | of the image results with one call ID the last is kept |
| `Keyed.SearchKeepsQueries` | message/content.go:1279-1324 | the collected web search call has the queries of all calls with its ID, in order |
| `Kept.SearchKeepsFirstHeader` | message/content.go:1279-1324 | the collected web search call has the first properties and the first annotations that a call with its ID gives |
| `Keyed.KeyedKeeps` | message/content.go:1262-1324 | what is read off all other items stays as it was |
| `CoalesceAll.CoalesceInPlace` | message/content.go:1144-1260 | the seven passes on one array give the composed specification |
| `CoalesceAll.CoalesceIsRecursive` | message/content.go:1221-1257 | coalescing satisfies its recursion: the seven passes with nested inputs and outputs coalesced by the whole function itself |
| `CoalesceAll.TextKept` | message/content.go:1144-1260 | coalescing preserves the concatenated text |
| `CoalesceAll.ReasoningKept` | message/content.go:1144-1260 | coalescing preserves the concatenated reasoning text |
| `CoalesceAll.ProtectedKept` | message/content.go:1181-1195 | coalescing preserves the exact sequence of non-empty protected data |
| `CoalesceAll.UsageKept` | message/content.go:1144-1260 | coalescing preserves the sequence of usage items |
| `CoalesceAll.BytesKept` | message/content.go:1200-1219 | decoding, joining and encoding again preserves the bytes of all inline data |
| `Kept.OutOfReachKept` | message/content.go:1144-1260 | items that nothing may merge (function calls and results, usage, unknown kinds, annotated items, data that is no decodable text) come through as they are, all of them and in order |
| `Kept.NamedBytesKept` | message/content.go:1200-1219 | inline data keeps its bytes under every name and media type |
| `Kept.DeepTextKept` | message/content.go:1144-1260 | the text at every depth of nesting is preserved, in order |
| `Kept.InterpreterTextKept` | message/content.go:1221-1257 | the text that interpreters take in and put out stays with its call ID |
| `Kept.AllNestedCoalesced` | message/content.go:1221-1257 | in a coalesced list the inputs and outputs of every item without annotations are coalesced, too |
| `Kept.MergedHeaders` | message/content.go:1172-1257 | merged items have the properties of the first one and no annotations, merged data has neither |
| `Kept.TopLevelIs` | message/datauri.go:132-145 | the top-level media type is what stands before the first slash, or everything where there is none, trimmed and in lower case |
| `CoalesceAll.NotIdempotent` | message/content.go:1144-1260 | a list on which coalescing twice differs from coalescing once |
| `Adjacency.MeetsIsSplits` | message/content.go:1326-1372 | after a pass and the deletion of nil entries and repeats, two items that would merge are neighbours if and only if a scan of the list before finds them parted |
| `Adjacency.SplitsIsParted` | message/content.go:1262-1372 | the scan finds exactly the pairs with nothing but deleted items, one that counts among them, between them |
| `Adjacency.BlurMerged` | message/content.go:1326-1372 | a pass over other items changes nothing in what is left of the relevant ones, order and adjacency included |
| `Idempotence.TextsMeet` | message/content.go:1144-1260 | after coalescing two plain texts are neighbours if and only if they were parted by nil entries and repeated images and searches alone |
| `Idempotence.ReasoningsMeet` | message/content.go:1144-1260 | the same for an open reasoning and the next one, where a repeat must be among the deleted |
| `Idempotence.CoalescedIsClear` | message/content.go:1144-1260 | in a coalesced list no call ID of images or searches repeats, and no neighbours merge as text data or interpreter items |
| `Idempotence.IdempotentStep` | message/content.go:1144-1260 | coalescing is idempotent on a list if and only if no texts and no reasonings are parted and it is idempotent on what each run of interpreter calls and of results holds |
| `Idempotence.CoalesceIdempotentIff` | message/content.go:1144-1260 | the same at every depth: coalescing twice gives what coalescing once gives if and only if the list is steady |
| `Responses.Response.TargetMessage` | agent/response.go:261-274 | starts a message exactly when there is none or the last can be told apart from the update |
| `Responses.Response.Update` | agent/response.go:190-238 | folds an update into the whole state of the response as specified |
| `Responses.Response.ToUpdates` | agent/response.go:145-183 | one update per message, and one with metadata when there is a token |
| `Responses.Collect` | agent/response.go:19-29 | gathers all updates, then coalesces every message |
| `Responses.ContentsGathered` | agent/response.go:190-238 | before coalescing the messages hold exactly the contents of the updates, in order |
| `Responses.SplitAnywhere` | agent/response.go:190-238 | splitting the contents of one update, anywhere in a stream, into two updates with the same fields changes nothing in the response |
| `Responses.FaithfulComesBack` | agent/response.go:145-238 | the messages of a faithful response come back from its updates, and with messages all its fields do |
| `Responses.ComesBackIff` | agent/response.go:145-238 | the messages come back if and only if the response is faithful |
| `Responses.WholeComesBackIff` | agent/response.go:145-238 | the whole response comes back if and only if it is empty, or faithful with at least one message |
| `Batches.MessagesAreBatches` | agent/response.go:190-274 | the messages gathered from a stream are its batches: consecutive updates that agree on author, ID and role wherever they give one (an update without a role that begins a message counts as the assistant's); each message has what its batch gives and all its contents, and the next batch begins with an update that does not agree with the one before |
| `Batches.LatestStays` | agent/response.go:214-227 | agent, response ID, conversation and finish reason are the last ones given in the stream; the token is that of the last update |
| `Chunking.MergedAlike` | message/content.go:1172-1195 | the pass over plain texts or plain reasonings makes no difference between an item and its two plain chunks in place, whatever properties the second chunk has |
| `Chunking.ChunksDoNotShow` | agent/response.go:19-29 | a plain text, or a plain reasoning with its protected data at the end, that arrives in two chunks, anywhere in a stream, is collected as if it had arrived in one, with the properties of the first chunk |
| `Usage.Accumulate` | message/content.go:687-703 | adding a usage gives the specified sum, in whatever order the extra counters are visited |
| `Usage.AddedNames` | message/content.go:687-703 | a sum has extra counters if and only if a part of it has, and exactly those that a part has |
| `Usage.AddAssociates` | message/content.go:687-703 | wrapping 64-bit addition of usages is associative |
| `Usage.TotalIsExact` | message/content.go:687-703 | every counter of a total is the exact sum over all usages, wrapped once |
| `Injection.MessageInjector.EnqueueMessages` | agent/messageinjection.go:138-163 | appends exactly the messages that are not nil, or reports that there is no session |
| `Injection.MessageInjector.Drain` | agent/messageinjection.go:192-204 | takes everything queued and leaves nothing |
| `Injection.MessageInjector.PlayCall` | agent/messageinjection.go:53-79 | one provider call with enqueues between any two updates: queue, stream, gathered response and the function-call flag are those of the events that took place |
| `Injection.MessageInjector.MakeCall` | agent/messageinjection.go:49-133 | one call and what it takes from the queue; the run goes on exactly after an undisturbed call without an actionable function call and with queued messages (`Injection.CallDecides`), and then carries on the usage |
| `Injection.MessageInjector.Run` | agent/messageinjection.go:30-135 | for every interleaving and consumer, enqueues while the answer or an error is yielded included: the batches handed to the calls followed by the queue are the given messages, the earlier queue and the non-nil messages enqueued, in order; a completed run without a function call at its end leaves exactly what arrived after its last look at the queue; a stream shows every update; a completed run without streaming yields the last response with the total usage of all calls |
| `Injection.ActionableIff` | agent/messageinjection.go:212-217 | a call asks for action if and only if some update brought a function call that is not there for information only |
| `Injection.CallDecides` | agent/messageinjection.go:86-110 | after a call that neither failed nor was stopped: if it asked for action, the run is complete and nothing is taken from the queue; if not, the whole queue is taken, the run goes on if and only if that was not empty, and otherwise exactly what arrived later stays |
| `Injection.NonNilAround` | agent/messageinjection.go:156-160 | enqueued messages keep their order, and only missing ones are passed over |
| `Injection.ShownAt` | agent/messageinjection.go:53-79 | every update and every failure of a call is shown in its place |
| `Injection.MarkComesFirst` | agent/messageinjection.go:62-85 | the reset mark is on the first update of a further structured call, or stands alone where it has none |
| `Injection.AnswerExactly` | agent/messageinjection.go:95-110 | update by update, a run without streaming yields the coalesced messages of the last call with the fields of its response, the usage of the earlier calls at the end of the last message, and a token on its own |
| `Injection.StreamShowsAll` | agent/messageinjection.go:53-85 | a stream shows the updates and failures of the calls, in order, and besides them nothing but reset marks; without structured output it is exactly what the calls yield |
| `Injection.OneResetPerFurtherCall` | agent/messageinjection.go:62-84 | with structured output every call after the first is announced by exactly one reset mark, also when it yields nothing |
| `Injection.AnswerUsages` | agent/messageinjection.go:95-111 | the usages in the answer are those of the last call followed by the total of the earlier ones |
| `Injection.AnswerTotal` | agent/messageinjection.go:95-121 | the total usage in the answer is that of all calls |
| `TypeWalk.DereferencePointerType` | workflow/typeid.go:80-97 | terminates on every finite type graph, returns the one non-pointer base of an acyclic chain, and fails exactly on chains that enter a cycle |
| `TypeWalk.MustMeet` | workflow/typeid.go:80-97 | on a cyclic chain the two cursors meet within as many rounds of the slow one as there are pointer types |
| `TypeWalk.BaseUnique` | workflow/typeid.go:80-97 | a chain has only one base |
| `Filters.ValidateNode` | vectordata/filter.go:51-87 | the recursive walk restores the set of open filters and accepts exactly when all walks from the node are acceptable |
| `Filters.AcceptsIsValid` | vectordata/filter.go:51-87 | accepting all walks means: every reachable node is well formed and no cycle is reachable |
| `Filters.Validate` | vectordata/filter.go:47-49 | validation is sound and complete on aliased graphs; shared acyclic sub-filters are accepted |
| `Meaning.ValidIffMeans` | vectordata/filter.go:51-87 | a filter is valid if and only if it unfolds to a finite expression of conjunctions, disjunctions, negations and tests, and then to one only |
| `Building.ReflectsBound` | workflow/builder.go:525-575 | registering an ID that is bound changes neither what is bound nor what is unbound |
| `Building.ReflectsPlaceholder` | workflow/builder.go:534-541 | a placeholder for an ID that is not bound makes it unbound and changes nothing else |
| `Building.ReflectsReal` | workflow/builder.go:541-568 | the first real binding of an ID binds it, whatever placeholders came before, and it is unbound no more |
| `Building.ReflectsKnown` | workflow/builder.go:525-575 | bound and unbound IDs are disjoint and are together exactly the registered IDs |
| `Building.PortsTracked` | workflow/builder.go:509-523 | ports tracked without an error keep all definitions and each have the new one |
| `Building.AcceptedIfFit` | workflow/builder.go:525-575 | a binding is accepted if and only if it is named, an instance can be compared, and all real bindings of one ID have one implementation and the instance of the first, if that has one |
| `Building.PortsAcceptedIff` | workflow/builder.go:509-523 | ports are accepted if and only if each is named and typed and has the definition of all others with its ID |
| `Building.EdgeAdded` | workflow/builder.go:412-419 | an edge comes behind those of its source and changes no other, so it leads exactly from its source to its targets |
| `Building.EdgeAddedAtAll` | workflow/builder.go:224-252 | a fan-in edge is listed at each of its sources, once for each time one is named |
| `Building.Builder.constructor` | workflow/builder.go:42-58 | a new builder is consistent and has registered its start executor or holds an error |
| `Building.Builder.Track` | workflow/builder.go:525-575 | the error or success, the ports and the registrations are as specified; the registry stays what the registrations amount to |
| `Building.Builder.BindExecutor` | workflow/builder.go:141-151 | without an error afterwards the executor is bound |
| `Building.Builder.AddEdge` | workflow/builder.go:157-188 | duplicates without a condition are an error or nothing, every other edge is appended once with both ends registered |
| `Building.Builder.AddFanOutEdge` | workflow/builder.go:194-218 | one edge to all targets at the source, all registered, or an error and no edge |
| `Building.Builder.AddFanInBarrierEdge` | workflow/builder.go:224-252 | one edge listed at each source, all registered, or an error and no edge |
| `Building.Builder.WithOutputFrom` | workflow/builder.go:116-137 | all declared outputs are registered |
| `Building.Builder.FindOrphans` | workflow/builder.go:337-355 | the worklist terminates and leaves exactly the bound executors that no walk from the start reaches |
| `Building.Builder.CheckOrphans` | workflow/builder.go:335-361 | no complaint if and only if every bound executor is reachable; otherwise exactly the unreachable ones are named |
| `Building.Builder.CheckTypes` | workflow/builder.go:421-497 | no complaint if and only if every edge can deliver: a source that declares what it sends and a sink that declares what it accepts share a compatible pair; otherwise an edge that cannot is named |
| `Building.Builder.Validate` | workflow/builder.go:316-405 | passes if and only if there was no error, nothing is unbound, (if asked for) every bound executor is reachable, and every edge can deliver; names the unbound or orphaned executors or an edge that fails |
| `Base64.EncodeRoundTrip` | message/content.go:227-239 | every encoding is accepted by the validator, decodes to the bytes, and has their number as byte count |
| `Base64.AlphabetOrder` | message/content.go:227-239 | the alphabet is that of RFC 4648, section 4, in its order |
| `Base64.QuantumBits` | message/content.go:227-239 | four characters hold the 24 bits of three bytes, the first byte on top |
| `Base64.PaddedQuanta` | message/content.go:227-239 | one or two bytes at the end are encoded as if zero bytes followed, with padding for what holds nothing else |
| `Base64.IsValidBase64Data` | message/datauri.go:184-219 | the validator's loop accepts exactly whole quanta of the alphabet with up to two padding characters at the end |
| `Base64.ValidIffDecodes` | message/datauri.go:184-219 | the validator accepts exactly what decodes and has no line end in it |
| `Base64.ByteCountExact` | agent/compaction/index.go:392-395 | for valid data the byte count taken from the length is the decoded length |
| `DataUri.ParseDataUri` | message/datauri.go:30-72 | the parser with its validator loop gives the specified result, errors in order |
| `DataUri.ParseGivesPlain` | message/datauri.go:30-72 | whatever parses has a valid media type without comma or outer space, and valid base64 if marked so |
| `DataUri.ParsesExactly` | message/datauri.go:30-72 | the parser accepts exactly the strings of the form scheme, media type, optional base64 mark, comma and data, scheme and mark in any case, and gives their parts |
| `DataUri.ErrorsExactly` | message/datauri.go:30-72 | which error is reported for which string: no scheme, no comma, marked data that is not base64, and otherwise the media type |
| `DataUri.FromUriExactly` | message/content.go:248-278 | a content can be read from exactly the data URIs unless a given media type is invalid; marked data is taken over, other data gives the bytes it escapes |
| `DataUri.FromUriErrors` | message/content.go:248-278 | the empty string is refused first, then what the parser refuses, then an invalid media type |
| `DataUri.TrimsExactly` | message/datauri.go:57-62 | trimming takes away all space at both ends and nothing else |
| `DataUri.PrintParse` | message/content.go:241-245 | for every content, validated or not, printing and parsing gives back data and media type if and only if the media type is valid and plain (no comma, no outer space) and the data is valid base64 |
| `DataUri.CanonicalIsStable` | message/content.go:248-278 | a content read from a URI prints to a URI that reads back as the same content |
| `DataUri.OverrideRoundTrip` | message/content.go:248-278 | with a media type given by the caller this holds exactly for plain ones |
| `DataUri.BytesRoundTrip` | message/content.go:227-278 | raw bytes and their media type come back from the URI made of them if and only if the media type is valid and plain |

## Left out

- Update in place of the coalesced elements: interpreter items are nested values, so the nested coalescing is a recursive function, not a second array loop; one pointer listed twice, which the web-search pass passes over, cannot be told from two equal items.
- Messages of a response are values in a sequence; a message shared with the caller of a run is not modelled.
- The same group object listed twice: an index over such a list can be restored, but the strategies ask for distinct objects, as every index built by the package has them.
- Strategies, triggers and targets written by users, which may change the index they look at; triggers are arbitrary pure functions of the index here, so the predefined triggers and their combinators are covered as instances only.
- Token counting and byte counting of messages are one arbitrary pure function; of the byte counts only the one for inline data is modelled.
- The default tool-call formatter: an arbitrary pure function of the group.
- Rounding of floating-point thresholds, and thresholds that are not numbers.
- Message fields that no modelled operation reads, raw representations, timestamps and additional properties of responses and updates.
- `Responses.Collect`: a stream that reports an error yields that error and no response; the model gathers streams without errors.
- `Injection.MessageInjector.Run`: an update that comes together with an error, nil updates, conversation and service IDs handed from call to call, and session state that cannot be decoded.
- Concurrent runs of the injector on one session: enqueues may come from anywhere at any time, but only one run drains the queue.
- The aggregating, filtering and deduplicating skill sources around the cache, and the clean-up when the source is closed.
- Making executor instances to ask for their message types: each binding carries what its instance describes, or nothing; type compatibility is an arbitrary relation. Output tags, telemetry and warnings about self-loops and dead ends change no result.
- Validity of a request port beyond having an ID and message types.
- Media-type parsing and percent-decoding are arbitrary functions, and of the media types accepted without parsing only the default one is named; strings are sequences of characters, so UTF-8 and invalid bytes do not occur.
- JSON, reflection-built executors, providers, history persistence, checkpoint and runner state, type caches for message routing: they rest on libraries or callbacks outside the modelled files.
