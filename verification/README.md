# A model of stakit's agent loop, migration compiler, stream decoder, SQL builder, broker and migration runner

This project states, in Dafny, what six components of the workspace promise, and proves it of a model that
follows their code branch by branch. It needs nothing outside itself; `dafny verify dfyconfig.toml` checks all of it.

**Agent loop** (`Wrappers`, `Metering`, `Conversation`, `StepAccum`, `StreamHistory`, `Replay`, `ToolBatch`, `Agent`,
`Contract`). `Agent` and `StepAccum` are classes with the source's fields. Middleware, providers, tools, cancellation
and prices are arbitrary functions in `Env`: hooks may rewrite messages, model and system prompt at every call, and a
stream may hold any events and break off anywhere. Each request leaves a record of what was asked, read, pushed,
dispatched, answered and metered; a run's events, its finish and what it leaves are stated over those records alone.
Ghost logs of bindings and requests, metered usage and hooks are tied to the fields by the class invariant. The claims
are about every run and every sequence of runs.

**Migration compiler** (`Schema`, `Machine`, `TopoSort`, `KeyedDiff`, `GrantDiff`, `ColumnDiff`, `ColumnOrigins`,
`TableDiff`, `Migration`, `MigrationTheorems`, `MigrationExactness`, `MigrationNeeded`, `MigrationSafety`,
`MigrationKeys`, `MigrationDown`, `MigrationIndexes`, `MigrationCompiler`, `DollarQuote`). A change has a forward meaning
(`ApplyDb`, for `up`), a backward one (`UndoDb`, for `down`), a condition for meeting the database it expects (`FitsDb`)
and one for being called for by the two schemas (`Needs`). The change list is a function of the two schemas and a rename
resolver; the compiler's loops are methods that produce exactly that list. The resolver is any function of the table, the column and the candidates:
with unique names no question is asked twice, so this loses no behaviour of a stateful one. A grant names at least one
privilege, as the attribute parser requires (crates/orm-schema-support/src/lib.rs:411).

**Incremental JSONL decoder** (`StreamDecoder`). The buffer-and-drain loop over arbitrary chunks, transport errors and
the size cap, against splitting the received bytes at their newlines. JSON decoding of one line is an arbitrary function,
and so is whether a line says it is a `next` frame; what a line means is stated in terms of those two.

**SQL rendering and literals** (`Text`, `LikeEscape`, `Decimal`, `Composite`, `SqlText`, `SqlGrammar`, `PredicateSql`,
`PredicateWriter`, `InsertSql`, `UpsertSql`, `UpsertOrder`, `InsertWriter`, `StatementGrammar`, `InsertReading`). SQL text
is a sequence of tokens; `SqlGrammar` is an independent precedence parser with a three-valued evaluator and
`StatementGrammar` one for whole insert statements, so that what is written is judged by what a database reads, not by
how it was printed. The composite and LIKE codecs work on characters.

**Postgres broker** (`Broker`). A class with the node's counters, replay guard, pending calls, running device calls,
queue and listener, and a ghost history of what it accepted, dispatched, resolved, freed, reset and sealed. The class
is proved to step as the pure transition `After` does, about which the lemmas are. Taking a counter and queueing are two steps,
so concurrent sends may overtake each other, as they may in the source. `wire::open` is the input: an opened
envelope, or none. Counters wrap as 64-bit release arithmetic does.

**Migration runner** (`MigrationRunner`). Any number of migrators stepping in any order over atomic transactions, each
step possibly failing before or after its commit takes effect, and each migrator restarting at will.

## Where the code and its promises differ

- `type_differs` compares type and nullability only, so a surviving or renamed column keeps its other attributes
  (`MigrationExactness.DefaultIsKept`); `ColumnOrigins.ExactlyNewIff` and `MigrationExactness.DiffExactIff` give the
  exact condition, for every resolver, for reaching the declared columns and the declared schema.
- A table may be dropped while a kept table still refers to it, or when dropped tables form a cycle
  (`MigrationKeys.KeptReferenceBlocksDrop`, `MigrationKeys.CycleBlocksDrop`); `MigrationKeys.DropsUnreferencedIff` says
  exactly when that cannot happen.
- On the way down a kept table's discarded column is added back before a dropped table it refers to is recreated
  (`MigrationDown.DiscardedReferenceBlocksDown`); `MigrationDown.DownTargetsReadyIff` is the exact condition.
- Postgres scopes index names to the schema, while indexes are compared table by table: an index that moves to a table
  edited earlier is created before it is dropped (`MigrationIndexes.MovedIndexClashes`);
  `MigrationIndexes.IndexNamesFreeIff` is the exact condition.
- The decoder's size cap is described as the size one frame may grow to, but it is compared with the undrained buffer:
  many short frames in one chunk trip it (`StreamDecoder.SmallFramesOverfill`). `StreamDecoder.ReceivedAllIff` is the
  exact condition and `StreamDecoder.ShortLinesFit` one that needs only the longest line and the largest chunk.
- Without complete blocks repeated tool ids are not rejected, and a halted batch then answers them once;
  `ToolBatch.RepeatedIdLosesAResult` and `ToolBatch.AnsweredExactlyIff`.
- The upsert builder accepts a column twice. Postgres rejects such a clause, SQLite uses the last assignment and MySQL
  runs them in order (`UpsertSql.RepeatedColumnDiffers`); `UpsertOrder.ClausesAgreeIff` says exactly when the last two
  agree.
- A migration list may repeat a version. The first run fails on the repeated version's key, a rerun skips past it
  (`MigrationRunner.MigrateTwiceListed`, `MigrationRunner.RerunPasses`).
- The replay guard stores the accepted counter plus one, which wraps at the last counter;
  `Broker.LastCounterReplays` and `Broker.RefusedAgainIff`.
- A body that ends in an opened dollar tag would be closed early; the bodies the compiler quotes never do
  (`DollarQuote.ReadsBackIff`, `DollarQuote.QuoteRole`).

## Model

| member | source | states |
|---|---|---|
| `Metering.TallyIsClampedSum` | crates/ai-sdk/src/usage.rs:62-75 | each accumulated usage field is the exact sum of the metered counts, clamped once at 2^64-1 |
| `Metering.MergeAllConcat` | crates/ai-sdk/src/usage.rs:62-75 | metering one batch and then another is metering their concatenation |
| `Metering.CostKnownIffAllPriced` | crates/ai-sdk/src/agent.rs:327-334 | the running total is known iff every metered request was priced, and is then the sum |
| `StepAccumulator.StepAccum.Apply` | crates/ai-sdk/src/agent.rs:1261-1335 | folds one event: the new state is the reading of the history with that event, or unchanged with the protocol error the limits demand |
| `StreamHistory.LimitsIff` | crates/ai-sdk/src/agent.rs:1261-1335 | no event of a stream is refused iff the response as a whole stays within the block, byte, call and usage limits and repeats nothing |
| `StreamHistory.DeltasShow` | crates/ai-sdk/src/agent.rs:1261-1335 | the live events show the streamed text and reasoning, and every call as it is queued, in order |
| `StepAccumulator.StepAccum.CaptureCompleteText` | crates/ai-sdk/src/agent.rs:1339-1354 | text and reasoning come from complete blocks only where none was streamed |
| `StreamHistory.BlocksJoin` | crates/ai-sdk/src/agent.rs:1339-1354 | the text and visible reasoning of a list of blocks are those of its parts in order |
| `StreamHistory.OneBlock` | crates/ai-sdk/src/agent.rs:1339-1354 | a text block is its text and a visible thought its reasoning; nothing else is either |
| `StepAccumulator.StepAccum.ValidateBlocks` | crates/ai-sdk/src/agent.rs:1358-1399 | accepts iff signatures are backed and, when blocks came, indices are 0..n-1, tool ids are distinct and the tool blocks are a permutation of the well-parsed calls; the call list then is the tool blocks in order |
| `StepAccumulator.MatchCalls` | crates/ai-sdk/src/agent.rs:1373-1397 | the matching loop succeeds iff the tool blocks have distinct ids and permute the queued calls, whatever order those arrived in |
| `StepAccumulator.CheckIndices` | crates/ai-sdk/src/agent.rs:1368-1372 | the ascending keys pass iff each equals its position |
| `StepAccumulator.ExactIndicesIff` | crates/ai-sdk/src/agent.rs:1368-1372 | that is the case iff the keys are exactly 0..n-1 |
| `StepAccumulator.CallsInUseIds` | crates/ai-sdk/src/agent.rs:1373-1392 | the calls taken from blocks carry the ids of the turn's tool_use blocks, in order |
| `Replay.Append` | crates/ai-sdk/src/agent.rs:552-559 | a legal entry keeps the session log disciplined |
| `Replay.BindingOnlyGrows` | crates/ai-sdk/src/agent.rs:75-98 | once bound, the binding in force keeps model, system, tools and every bound message |
| `Replay.RequestsKeepTheBoundPrefix` | crates/ai-sdk/src/agent.rs:528-559 | every later request has the bound context and starts with the bound messages |
| `Replay.RebindingStrictlyExtends` | crates/ai-sdk/src/agent.rs:727-734 | each rebinding keeps the context and strictly extends the bound prefix |
| `Replay.SignedBlocksNeverMove` | crates/ai-sdk/src/agent.rs:92-98 | a block of a bound turn keeps its turn, place and content in every later request |
| `ToolBatch.ResolveApproval` | crates/ai-sdk/src/agent.rs:1187-1206 | a call is allowed iff every middleware allows it; otherwise the first objection decides |
| `ToolBatch.ApprovalPass` | crates/ai-sdk/src/agent.rs:750-794 | plans are exactly the calls before the first Stop or error, each with its own decision |
| `ToolBatch.DispatchPlans` | crates/ai-sdk/src/agent.rs:1145-1171 | exactly the allowed, well-parsed plans reach a tool, in order |
| `ToolBatch.ExecutedResults` | crates/ai-sdk/src/agent.rs:804-828 | one result per executed plan, in order, an error unless the tool succeeded |
| `ToolBatch.SyntheticResults` | crates/ai-sdk/src/agent.rs:835-851 | a cancelled result for exactly the ids no record answers |
| `ToolBatch.CollectResults` | crates/ai-sdk/src/agent.rs:804-855 | the result ids are the executed ones followed by the missing ones |
| `ToolBatch.EveryCallIsAnswered` | crates/ai-sdk/src/agent.rs:835-851 | wherever the batch is cut, every call id has a result |
| `ToolBatch.AnsweredExactlyIff` | crates/ai-sdk/src/agent.rs:835-851 | the result ids are exactly the call ids in order iff no id after the cut repeats one before it |
| `ToolBatch.RepeatedIdLosesAResult` | crates/ai-sdk/src/agent.rs:835-851 | an input with a repeated id for which they are not |
| `AgentLoop.TurnIds` | crates/ai-sdk/src/agent.rs:701-726 | the assembled turn's tool_use ids are the ids of the granted calls |
| `AgentLoop.Drain` | crates/ai-sdk/src/agent.rs:595-626 | reads the stream up to its first terminal event or refusal and no further |
| `AgentLoop.DispatchIff` | crates/ai-sdk/src/agent.rs:647-667 | a call reaches a tool iff the stream ended asking for tools, the blocks passed, every middleware allows it, it parses, and no earlier call halted the batch |
| `AgentLoop.TurnsArePaired` | crates/ai-sdk/src/agent.rs:728-855 | every tool_use of a pushed turn is answered in the very next turn |
| `AgentLoop.DistinctCallsAnsweredInOrder` | crates/ai-sdk/src/agent.rs:744-855 | with distinct ids the answers are the calls in order; interrupted steps append no tool_use |
| `AgentLoop.StepKeepsPairing` | crates/ai-sdk/src/agent.rs:728-855 | a step keeps a paired conversation paired |
| `AgentLoop.Agent.RecordUsage` | crates/ai-sdk/src/agent.rs:327-334 | one more metered usage and cost, totals kept exact |
| `AgentLoop.Agent.RecordPartial` | crates/ai-sdk/src/agent.rs:336-346 | an interrupted step is metered once and leaves at most a plain text turn |
| `AgentLoop.Agent.RunHooks` | crates/ai-sdk/src/agent.rs:502-520 | each middleware sees what the previous one left, up to the first that does not continue |
| `AgentLoop.Agent.RunOnStart` | crates/ai-sdk/src/agent.rs:465-482 | counts exactly the middlewares whose on_start was called |
| `AgentLoop.Agent.RunOnFinish` | crates/ai-sdk/src/agent.rs:1104-1116 | on_finish once, in order, for exactly those |
| `AgentLoop.Agent.BindLoadedHistory` | crates/ai-sdk/src/agent.rs:484-490 | binds loaded signed history once, before the first step |
| `AgentLoop.Agent.RunTools` | crates/ai-sdk/src/agent.rs:744-855 | dispatches exactly the cleared calls and answers all of them |
| `AgentLoop.Agent.PushTurn` | crates/ai-sdk/src/agent.rs:724-734 | appends the turn; a signed one becomes the new bound prefix |
| `AgentLoop.Agent.FinishStep` | crates/ai-sdk/src/agent.rs:661-876 | a completed response: turn, binding, one metering, tools, one closing event |
| `AgentLoop.Agent.AbandonStep` | crates/ai-sdk/src/agent.rs:633-660 | a response cut short: its text and one metering, nothing dispatched |
| `AgentLoop.Agent.Receive` | crates/ai-sdk/src/agent.rs:595-667 | a ready stream leaves one record of what was read, pushed, dispatched and answered; it completed iff it ended and passed, and then the run may go on iff it was authorized, granted a call and no call halted the batch |
| `AgentLoop.Agent.Step` | crates/ai-sdk/src/agent.rs:559-876 | a request handed to the provider leaves one legal record, the events that record calls for and the exit it explains, metered once if a stream was obtained |
| `AgentLoop.Agent.Attempt` | crates/ai-sdk/src/agent.rs:495-559 | the request is what on_step left of the conversation; it is sent iff the run is not cancelled, the hooks continue, the model is registered, the cache fits and the binding accepts it |
| `AgentLoop.Agent.Turn` | crates/ai-sdk/src/agent.rs:494-920 | one turn takes at most one step, announces it, and goes on or ends as that step and on_step_done say |
| `AgentLoop.Agent.RunSteps` | crates/ai-sdk/src/agent.rs:492-927 | each step follows from the one before, which completed, was authorized, granted calls, was not halted and not stopped; the loop ends only where the last step is not followed, at the cap, or at an attempt that cannot be sent |
| `AgentLoop.Agent.PrepareSkills` | crates/ai-sdk/src/agent.rs:422-451 | skills are listed once and their manifest rendered once |
| `AgentLoop.Agent.Prelude` | crates/ai-sdk/src/agent.rs:422-490 | what happens before the step loop, and that it is entered iff the skills are listed and every on_start continues |
| `AgentLoop.Agent.Run` | crates/ai-sdk/src/agent.rs:399-943 | the events are those of the steps and one Done, last, with their number, the tallies, the cost and the finish the last step explains; steps follow one another and the conversation left is what they made of it; on_finish mirrors on_start; the log stays disciplined; pairing kept if no middleware breaks it |
| `AgentLoop.WhyItEnded` | crates/ai-sdk/src/agent.rs:886-927 | a finish is EndTurn iff the last step completed, was authorized, granted no call and no hook stopped it; the step limit iff sixteen steps were taken and the last would go on; cancelled iff the stream was, or the next attempt |
| `AgentLoop.AuthorizedIff` | crates/ai-sdk/src/agent.rs:58-72 | a response stands iff it stopped for tools and named some, or ended its turn or hit a stop sequence and named none |
| `AgentLoop.HooksInOrder` | crates/ai-sdk/src/agent.rs:502-520 | middlewares run in order, each on what the one before left, up to the first that stops |
| `AgentLoop.PromptHolds` | crates/ai-sdk/src/agent.rs:985-995 | the system prompt starts with the agent's own and ends with the skill manifest; there is none iff both are missing |
| `AgentLoop.Session` | crates/ai-sdk/src/agent.rs:382-943 | over any sequence of runs and reconfigurations: one disciplined log, clamped tallies, and every request of a bound session accepted by its binding |
| `AgentLoop.BoundFrom` | crates/ai-sdk/src/agent.rs:552-559 | a session that starts bound sends only requests its binding accepts |
| `AgentLoop.ValidateStreamReplay` | crates/ai-sdk/src/agent.rs:1418-1427 | accepts a recording iff no event is refused and the block protocol holds |
| `AgentLoop.ContractMatchesAgent` | crates/ai-sdk/src/agent.rs:1416-1427 | a recording that ends once, with its terminal event, passes iff the agent, fed that stream, completes the step |
| `ProviderContract.CheckEvent` | crates/ai-sdk/src/test_support/contract/stream.rs:61-119 | one event is admitted iff nothing ended before it, a start is first, usage is sound and covers every earlier report, tool ids and names are nonempty and ids new, positions are new, and the end is the expected one with a tool where it asks for one |
| `ProviderContract.AssertStream` | crates/ai-sdk/src/test_support/contract/stream.rs:44-139 | the contract loop accepts iff the stream never fails and its events conform: those conditions, at most 4096 events, positions without a gap and a replay the agent accepts |
| `ProviderContract.ConformingEnds` | crates/ai-sdk/src/test_support/contract/stream.rs:61-66 | a conforming recording ends once, with the expected stop and usage |
| `ProviderContract.RequestedOnce` | crates/ai-sdk/src/test_support/contract/stream.rs:84-91 | the calls it asks for are the streamed ones, each once, with distinct ids |
| `ProviderContract.ConformingStep` | crates/ai-sdk/src/test_support/contract/stream.rs:44-139 | fed a conforming stream the agent reads all of it, completes the step, meters the reported usage and answers exactly its calls, in order |
| `SchemaModel.Find` | crates/orm-cli/src/model.rs:160-206 | a lookup finds an entry of that name, and nothing only if there is none |
| `SchemaModel.FindIsLookup` | crates/orm-cli/src/model.rs:160-206 | with unique names it is lookup in the map the list stands for |
| `TopoSort.TopoSortCreates` | crates/orm-cli/src/diff.rs:85-114 | the loop ends with the specified order |
| `TopoSort.SortedPermutes` | crates/orm-cli/src/diff.rs:85-114 | it is a permutation of its input, whatever cycles there are |
| `TopoSort.SortedParentsFirstIff` | crates/orm-cli/src/diff.rs:85-114 | every table follows all its in-set targets iff the foreign keys, self-references aside, have no cycle |
| `TopoSort.SortedIff` | crates/orm-cli/src/diff.rs:98-112 | it is the one order in which each table is, of those left, the first that waits for none of them, or where a cycle leaves no such table the first of all |
| `TopoSort.OrderedStays` | crates/orm-cli/src/diff.rs:81-84 | a list that has every parent first already stays as it is |
| `TopoSort.DropsChildrenFirst` | crates/orm-cli/src/diff.rs:143-152 | reversed, no table is dropped while a table still to be dropped refers to it |
| `KeyedDiff.KeyedEditsCorrect` | crates/orm-cli/src/diff.rs:273-296 | policies (and indexes) dropped and created turn one named set into the other, never onto a taken name |
| `KeyedDiff.KeyedReverses` | crates/orm-cli/src/diff.rs:835-839 | each of these edits is undone exactly |
| `GrantDiff.CanonicalConfersTheSame` | crates/orm-cli/src/diff.rs:540-548 | the canonical list confers what the list does |
| `GrantDiff.CanonicalEqualIff` | crates/orm-cli/src/diff.rs:540-548 | canonical lists are equal iff they confer the same privileges, ALL included |
| `GrantDiff.GrantEditsCorrect` | crates/orm-cli/src/diff.rs:234-269 | the grant edits end in the new grants as privilege sets, each revoke taking exactly what is held |
| `GrantDiff.GrantsReverse` | crates/orm-cli/src/diff.rs:824-834 | a grant undoes a revoke and a revoke a grant |
| `ColumnDiff.ColumnsReverse` | crates/orm-cli/src/diff.rs:800-816 | each column edit is undone exactly, renames and retypes included |
| `ColumnDiff.RunRetypes` | crates/orm-cli/src/diff.rs:299-309 | retyping gives surviving columns the new type and leaves the rest |
| `ColumnDiff.RunFill` | crates/orm-cli/src/diff.rs:311-353 | for any resolver every added column arrives, new or from a removed one, and what was not used is left |
| `ColumnDiff.ColumnEditsCorrect` | crates/orm-cli/src/diff.rs:298-361 | each column edit meets the column it expects or a free name, and exactly the new columns result |
| `ColumnDiff.ReachedTypes` | crates/orm-cli/src/model.rs:57-59 | with the new name, type and nullability |
| `ColumnOrigins.OriginIff` | crates/orm-cli/src/diff.rs:324-332 | an added column is renamed from a removed one iff the resolver, offered those still left, names it |
| `ColumnOrigins.OriginsDistinct` | crates/orm-cli/src/diff.rs:324-332 | no removed column becomes two new ones |
| `ColumnOrigins.FillOrigins` | crates/orm-cli/src/diff.rs:324-353 | each added column ends as declared, or as the removed column it was renamed from under its own name, type and nullability |
| `ColumnOrigins.ExactlyNewIff` | crates/orm-cli/src/model.rs:57-59 | for every resolver the columns end as declared iff no surviving and no renamed column is declared with other attributes |
| `TableDiff.TablesReverse` | crates/orm-cli/src/diff.rs:796-841 | every edit of a kept table is undone exactly |
| `TableDiff.TableEditsCorrect` | crates/orm-cli/src/diff.rs:214-361 | columns, flags, grants, policies and indexes of a kept table end as declared |
| `Migration.DbReverses` | crates/orm-cli/src/diff.rs:796-841 | the backward meaning of a change undoes the forward one |
| `MigrationTheorems.DiffCorrect` | crates/orm-cli/src/diff.rs:123-180 | for every resolver the list never adds a present name, edits an absent one or drops an unknown one, and ends in the new schema |
| `MigrationTheorems.DiffReverses` | crates/orm-cli/src/diff.rs:849-858 | down after up, or after any prefix of up, restores the old database through the very states up went through |
| `MigrationExactness.DiffExactIff` | crates/orm-cli/src/diff.rs:123-180 | for every resolver the migrated database is exactly the new schema iff that holds in every kept table |
| `MigrationExactness.DefaultIsKept` | crates/orm-cli/src/model.rs:57-59 | a surviving column whose declared default changes keeps the default it had |
| `MigrationNeeded.EveryChangeNeeded` | crates/orm-cli/src/diff.rs:123-361 | for every resolver each change of the list is called for: what it adds is declared only by the new schema or differently, what it drops only by the old one or differently, and what it alters or regrants differs |
| `MigrationNeeded.EmptyIffAlike` | crates/orm-cli/src/diff.rs:123-361 | for every resolver the list is empty iff both schemas declare the same roles, tables, flags, grants, policies, indexes and column types |
| `MigrationNeeded.NothingToDo` | crates/orm-cli/src/main.rs:155-159 | a schema compared with itself yields no change |
| `MigrationSafety.RolesAlwaysExist` | crates/orm-cli/src/diff.rs:123-180 | in every database on the way up and on the way down each role named by a grant or policy exists |
| `MigrationSafety.RoleSafeKeeps` | crates/orm-cli/src/diff.rs:126-136 | a change that names only existing roles and drops no named one keeps this so |
| `MigrationKeys.TargetsReadyIff` | crates/orm-cli/src/diff.rs:153-169 | with closed keys every created table and added column finds its targets iff the created tables form no cycle |
| `MigrationKeys.TargetsReady` | crates/orm-cli/src/diff.rs:153-169 | in particular when the new schema has no cycle |
| `MigrationKeys.DropsUnreferencedIff` | crates/orm-cli/src/diff.rs:138-152 | no table is dropped under a reference iff no kept old table refers to a dropped one and the dropped ones form no cycle |
| `MigrationKeys.KeptReferenceBlocksDrop` | crates/orm-cli/src/diff.rs:138-152 | a table dropped while a kept one refers to it |
| `MigrationKeys.CycleBlocksDrop` | crates/orm-cli/src/diff.rs:85-114 | two dropped tables that refer to each other |
| `MigrationDown.RecreatedReadyIff` | crates/orm-cli/src/diff.rs:138-152 | tables that down recreates find their targets iff the dropped tables form no cycle |
| `MigrationDown.DownTargetsReadyIff` | crates/orm-cli/src/diff.rs:849-858 | along the reversed list every recreated table and every column added back finds its targets iff, besides, no kept table discards a column that refers to a dropped one |
| `MigrationDown.DiscardedReferenceBlocksDown` | crates/orm-cli/src/diff.rs:796-805 | a column added back before the table it refers to |
| `MigrationIndexes.TurnFreeIff` | crates/orm-cli/src/diff.rs:470-493 | a kept table's turn creates no taken index name iff each new or changed index finds its name free in every other table |
| `MigrationIndexes.IndexNamesFreeIff` | crates/orm-cli/src/diff.rs:463-493 | over the whole list every created index finds its name free in the schema iff every name that moves leaves a dropped table, or a kept one edited before the kept one it moves to |
| `MigrationIndexes.MovedIndexClashes` | crates/orm-cli/src/diff.rs:463-493 | an index moved to a table edited earlier is created while its old table still has it |
| `MigrationCompiler.DiffGrants` | crates/orm-cli/src/diff.rs:234-269 | the loops push exactly the grant edits |
| `MigrationCompiler.DiffKeyed` | crates/orm-cli/src/diff.rs:470-493 | the loops push exactly the drops, then the creates |
| `MigrationCompiler.DiffTableRls` | crates/orm-cli/src/diff.rs:214-229 | flags, grants and policies, in that order |
| `MigrationCompiler.PushFill` | crates/orm-cli/src/diff.rs:311-353 | the loop over added columns, with `removed` shrinking, pushes exactly the renames and additions |
| `MigrationCompiler.DiffColumns` | crates/orm-cli/src/diff.rs:298-361 | retypes, renames and additions, drops: exactly the specified column edits |
| `MigrationCompiler.PushRoles` | crates/orm-cli/src/diff.rs:126-136 | roles created or altered |
| `MigrationCompiler.CompileDiff` | crates/orm-cli/src/diff.rs:123-180 | the whole compiler returns the specified list, which runs without a clash, reaches the new schema and holds only changes that are needed |
| `DollarQuote.DollarTag` | crates/orm-cli/src/diff.rs:565-571 | terminates with the shortest tag of its family that the body does not contain |
| `DollarQuote.ReadsBackIff` | crates/orm-cli/src/diff.rs:565-571 | such a body is read back whole iff it does not end in the tag without its last dollar |
| `DollarQuote.QuoteRole` | crates/orm-cli/src/diff.rs:580-607 | the block built for any role is read back whole under the tag chosen for it |
| `DollarQuote.CreateRoleReads` | crates/orm-cli/src/diff.rs:580-595 | the statement reads back as creating the role of that name with exactly the attributes it has |
| `DollarQuote.BodyCreates` | crates/orm-cli/src/diff.rs:596-604 | the quoted block asks for a role of exactly that name, tells of it if there is one, and runs that statement otherwise |
| `StreamDecoder.SplitUnique` | crates/client/src/stream.rs:154-156 | lines and tail are the one way of cutting a body at its newlines |
| `StreamDecoder.SplitJoins` | crates/client/src/stream.rs:154-156 | joined again they are the body |
| `StreamDecoder.LinesConcat` | crates/client/src/stream.rs:142-156 | more input completes the unfinished line and adds to it |
| `StreamDecoder.StreamWith` | crates/client/src/stream.rs:134-168 | for all deliveries the loop yields what the lines of the received bytes decode to |
| `StreamDecoder.DecodesTo` | crates/client/src/stream.rs:56-80 | of any body: the data of each line that decodes to some, in order, up to the first line that ends or fails the stream, then that line's error, the wrong-frame error, nothing, or the interruption |
| `StreamDecoder.NoiseIrrelevant` | crates/client/src/stream.rs:41-72 | a line that is blank, or neither decodes nor says it is a next frame, can be added or left out wherever a line starts |
| `StreamDecoder.ReceivedUpTo` | crates/client/src/stream.rs:141-153 | what is looked at is the body up to the delivery that breaks off or overfills the buffer |
| `StreamDecoder.ReceivedAllIff` | crates/client/src/stream.rs:141-153 | the whole body is looked at iff no arrival overfills the buffer |
| `StreamDecoder.ChunkingIrrelevant` | crates/client/src/stream.rs:134-168 | two ways of chunking a body that never overfill the buffer decode alike, as the whole body does |
| `StreamDecoder.OverfullAgreesIff` | crates/client/src/stream.rs:151-153 | when exactly an overfull buffer changes the result |
| `StreamDecoder.ShortLinesFit` | crates/client/src/stream.rs:151-153 | longest line plus largest chunk within the cap is enough |
| `StreamDecoder.SmallFramesOverfill` | crates/client/src/stream.rs:151-153 | a finished stream of short frames reported as interrupted |
| `StreamDecoder.OutputShape` | crates/client/src/stream.rs:56-80 | results, then at most one error and nothing after it; none iff an end frame stopped the stream |
| `StreamDecoder.Stream` | crates/client/src/stream.rs:134-168 | the client's stream with its own cap: for any deliveries the decoding of what is received, in the shape of any output, and the whole body whenever the buffer never overfills |
| `LikeEscape.EscapeLike` | crates/orm/src/expr.rs:887-896 | the loop computes the escaping |
| `LikeEscape.EscapedIsLiteral` | crates/orm/src/expr.rs:887-896 | escaped text reads back as its own characters, whatever follows |
| `LikeEscape.ContainsFilterIff` | crates/orm/src/expr.rs:875-882 | the pattern is well formed and matches iff the needle is a literal substring |
| `Decimal.Itoa` | crates/orm/src/sql.rs:263-276 | writes the decimal digits backwards and never runs out of its twenty places |
| `Decimal.NaturalReads` | crates/orm/src/sql.rs:263-276 | decimal text reads back as the number |
| `Composite.Encode` | crates/orm/src/composite.rs:20-31 | the loop writes the literal |
| `Composite.EncodeText` | crates/orm/src/composite.rs:75-92 | quoted with doubled quotes and backslashes where needed |
| `Composite.Parse` | crates/orm/src/composite.rs:103-176 | the character loop computes the specified scan, errors included |
| `Composite.RoundTrip` | crates/orm/src/composite.rs:20-176 | every field's exact text comes back, NULL told from the empty string; the parse succeeds iff the expected count is the number of fields, an empty literal counting as one NULL |
| `Composite.TypedRoundTrip` | crates/orm/src/composite.rs:184-207 | nullable booleans, integers and text come back as the very values |
| `SqlText.SqlWriter.PushBind` | crates/orm/src/sql.rs:148-188 | one more bind, one more placeholder, however it is wrapped; placeholders stay those of the binds, in order |
| `SqlText.SqlWriter.PushGeo` | crates/orm/src/sql.rs:193-210 | a geometry is wrapped with its reference only where the backend casts |
| `SqlText.BindConsumes` | crates/orm/src/sql.rs:148-220 | however wrapped, a bind is one placeholder of the right number |
| `PredicateSql.PredicateParses` | crates/orm/src/expr.rs:431-485 | the text of a predicate is read by the precedence parser as that predicate |
| `PredicateSql.OperandParses` | crates/orm/src/expr.rs:72-125 | the text of an operand is read as one primary, whatever follows |
| `PredicateSql.PredicateEval` | crates/orm/src/expr.rs:431-485 | what is read has the truth of the tree on every row |
| `SqlGrammar.AnyIsIn` | crates/orm/src/expr.rs:628-663 | `= any(array)` and `in (…)` have the same three-valued truth, NULL elements and the empty list included |
| `PredicateWriter.PredicateConsumes` | crates/orm/src/expr.rs:431-485 | placeholders are those of the predicate's binds, each once and in order |
| `PredicateWriter.ResolveMask` | crates/orm/src/sql.rs:213-220 | numbered text is recovered from bare placeholders by counting them |
| `PredicateWriter.MeaningPreserved` | crates/orm/src/expr.rs:431-485 | in every dialect the database's answer to text and binds is the truth of the tree, for every row |
| `PredicateWriter.WriteOperand` | crates/orm/src/expr.rs:72-125 | writes exactly that text and those binds, or reports an invalid identifier |
| `PredicateWriter.WritePredicate` | crates/orm/src/expr.rs:431-485 | likewise for predicates |
| `PredicateWriter.WriteAnyOf` | crates/orm/src/expr.rs:628-663 | one array bind, `in (…)` with one bind per element, or `1 = 0` |
| `PredicateWriter.Combine` | crates/orm/src/expr.rs:665-677 | both sides and the operator inside parentheses |
| `PredicateWriter.WriteLike` | crates/orm/src/expr.rs:583-594 | the escaped pattern bound, with its escape clause |
| `PredicateWriter.RenderPredicate` | crates/orm/src/expr.rs:431-485 | rendered from scratch, a predicate is answered as it was meant on every row |
| `InsertSql.OptionalIncluded` | crates/orm/src/insert.rs:154-162 | a defaulted column is flagged iff some row supplies it |
| `InsertSql.ColumnNames` | crates/orm/src/insert.rs:164-172 | required columns, then the flagged ones |
| `InsertSql.OmittedIff` | crates/orm/src/insert.rs:154-172 | a column is omitted iff it has a default and no row supplies it |
| `InsertSql.TupleMatchesColumns` | crates/orm-derive/src/lib.rs:713-736 | a tuple holds its row's value for each listed column, NULL where the row leaves an optional one out |
| `InsertSql.BindValues` | crates/orm-derive/src/lib.rs:758-763 | a row's values, comma-separated, bound in order |
| `UpsertSql.OverwrittenExactly` | crates/orm/src/insert.rs:640-661 | update-all sets each listed column that is neither target nor skipped, once, to the incoming value |
| `UpsertSql.ResolvedExactly` | crates/orm/src/insert.rs:640-661 | which columns each action sets: none, those asked for, or each listed one that is neither target nor skipped |
| `UpsertSql.UpdatesParse` | crates/orm/src/insert.rs:584-629 | the written assignments are read back as the chosen updates |
| `UpsertSql.DialectsAgree` | crates/orm/src/insert.rs:584-629 | for distinct overwrite, coalesce and add columns MySQL's left-to-right clause and the standard simultaneous one leave the same row, the one that was meant |
| `UpsertSql.RepeatedColumnDiffers` | crates/orm/src/insert.rs:584-629 | a repeated column for which they do not |
| `UpsertOrder.ColumnRuns` | crates/orm/src/insert.rs:584-629 | both readings of any clause, seen from one column: each update applied to the one before, or to the stored value |
| `UpsertOrder.AgreeAlwaysIff` | crates/orm/src/insert.rs:584-629 | the two readings leave the same row for all stored and incoming rows iff each column's last update overwrites, is its only one, or coalesces after nothing but coalesces |
| `UpsertOrder.DistinctIsOrderFree` | crates/orm/src/insert.rs:584-629 | distinct columns meet that condition |
| `UpsertOrder.OverwriteSettles` | crates/orm/src/insert.rs:584-629 | so does a column overwritten last, after any updates of it |
| `UpsertOrder.ClausesAgreeIff` | crates/orm/src/insert.rs:584-721 | the same of the clauses as written and read back |
| `InsertWriter.SelfAssignmentKeeps` | crates/orm/src/insert.rs:672-683 | MySQL's stand-in for DO NOTHING leaves the row as it was |
| `InsertWriter.WriteUpdate` | crates/orm/src/insert.rs:584-629 | one assignment in the dialect's own names |
| `InsertWriter.WriteConflict` | crates/orm/src/insert.rs:631-721 | the clause of each dialect, what a database makes of which is `InsertReading.ClauseRuns`; a guard is reported iff the dialect cannot express it |
| `InsertWriter.Render` | crates/orm/src/insert.rs:188-223 | lists exactly the required and supplied columns; placeholders are those of the binds in order; every tuple holds its row's values; a cast or guard is reported iff the dialect lacks it |
| `InsertWriter.BindOfRow` | crates/orm/src/insert.rs:207-214 | bind i*n+c is row i's value for the c-th of n listed columns |
| `InsertReading.StatementReads` | crates/orm/src/insert.rs:188-223 | an independent parser reads the written statement as that table, those columns, those rows and that clause |
| `InsertReading.RowsAreRead` | crates/orm/src/insert.rs:207-214 | and every row in its place, each value with its own bind and cast |
| `InsertReading.ClauseRuns` | crates/orm/src/insert.rs:584-721 | read back, the clause leaves a conflicting row alone iff there is nothing to update or the guard is not true, and else updates it as meant |
| `InsertReading.StatementRuns` | crates/orm/src/insert.rs:188-223 | so of the statement and binds as rendered, in every dialect, for every stored and incoming row |
| `Broker.Node.Seal` | crates/pubsub-postgres/src/lib.rs:226-228 | takes a counter, then seals; a message that cannot be sealed leaves a gap |
| `Broker.Node.Enqueue` | crates/pubsub-postgres/src/lib.rs:229-233 | queues a sealed message, concurrent ones in any order, or reports a full queue |
| `Broker.Node.Fresh` | crates/pubsub-postgres/src/lib.rs:236-245 | accepts iff the counter was not reached before |
| `Broker.Node.Handle` | crates/pubsub-postgres/src/lib.rs:247-289 | what an opened envelope causes: own and replayed ones nothing, a device call a place iff one is free, a reply the call that waits for it |
| `Broker.Node.StartCall` | crates/pubsub-postgres/src/lib.rs:336-362 | a call waits under a new id; a failed send leaves nothing waiting |
| `Broker.Node.FinishCall` | crates/pubsub-postgres/src/lib.rs:206-215 | however a call ends its entry goes |
| `Broker.Node.LoseConnection` | crates/pubsub-postgres/src/lib.rs:168-182 | a lost connection resets the subscribers |
| `Broker.Node.Reconnect` | crates/pubsub-postgres/src/lib.rs:183-190 | and so does listening again |
| `Broker.Node.Serve` | crates/pubsub-postgres/src/lib.rs:291-309 | frees the place of a finished device call, having sealed one reply to its caller, with an error if the answer cannot be sent |
| `Broker.RefusedAgainIff` | crates/pubsub-postgres/src/lib.rs:236-245 | an accepted envelope is refused from then on iff its counter is not the last one |
| `Broker.LastCounterReplays` | crates/pubsub-postgres/src/lib.rs:236-245 | that one is accepted again |
| `Broker.OvertakenIsRefused` | crates/pubsub-postgres/src/lib.rs:226-245 | an envelope overtaken by a later one of its origin is refused |
| `Broker.AcceptKeeps` | crates/pubsub-postgres/src/lib.rs:236-245 | accepting keeps counters strictly increasing per origin |
| `Broker.Run` | crates/pubsub-postgres/src/lib.rs:168-363 | over any inputs in any order the node is where its transitions lead: own envelopes never, each accepted once and, the last counter aside, exactly if newest, each call resolved at most once and only by its addressed reply, every reply sealed answers a dispatched call, the calls running are those dispatched with a free place less those served, nothing dispatched between a lost connection and a reset, nothing pending when no call is in progress |
| `Broker.HeardIsActedOn` | crates/pubsub-postgres/src/lib.rs:247-289 | an envelope let in reaches the sink, a call also a free place and a reply the call waiting for it |
| `Broker.AllIsHeeded` | crates/pubsub-postgres/src/lib.rs:168-235 | lost and regained connections, ended calls, queued and batched messages all take effect |
| `Broker.AllIsSent` | crates/pubsub-postgres/src/lib.rs:226-233 | what can be sealed is sealed under the next counter, and a call waits iff it was sent |
| `Broker.PlacesBalance` | crates/pubsub-postgres/src/lib.rs:264-309 | the device calls running are those that found a place less those that gave it back |
| `Broker.FreshIffNewest` | crates/pubsub-postgres/src/lib.rs:236-245 | until the last counter is accepted, the guard lets an envelope in iff it is later than all accepted from its origin |
| `Broker.Node.Take` | crates/pubsub-postgres/src/lib.rs:168-363 | every input moves the node as the pure transition says |
| `Broker.DispatchedAtMostOnce` | crates/pubsub-postgres/src/lib.rs:247-258 | dispatched envelopes of one origin have strictly increasing counters |
| `Broker.AcceptedAsSent` | crates/pubsub-postgres/src/lib.rs:226-258 | what one node accepts from another is what that one sealed, in that order, each at most once, some left out |
| `Broker.ResolvedByItsAnswer` | crates/pubsub-postgres/src/lib.rs:262-309 | across two nodes a call is resolved only by an answer to that call: sealed here, dispatched there, and until ids wrap no other call had its id |
| `MigrationRunner.TransactKeeps` | crates/orm/src/db.rs:457-487 | a transaction leaves the state equal to the recorded versions applied once each in order |
| `MigrationRunner.RunsThrough` | crates/orm/src/db.rs:344-347 | a migration's statements run one after the other on what the one before left, up to the first that fails |
| `MigrationRunner.RaceConsistent` | crates/orm/src/db.rs:310-358 | so does any interleaving of failing, restarting, racing migrators with any lists |
| `MigrationRunner.RecordedInOrder` | crates/orm/src/db.rs:338-357 | racing on one list the record is what there was plus a front of what was pending, first mentions in list order, and all of it once a migrator succeeds |
| `MigrationRunner.SameEnd` | crates/orm/src/db.rs:310-358 | any two runs in which a migrator succeeds, however interrupted, leave the same database |
| `MigrationRunner.RerunEnds` | crates/orm/src/db.rs:319-342 | what is pending after an interruption is exactly what is missing |
| `MigrationRunner.RerunPasses` | crates/orm/src/db.rs:339-342 | after failing on a repeated version a rerun skips all up to it |
| `MigrationRunner.Database.Transaction` | crates/orm/src/db.rs:457-487 | the statements and the version row, or the database as it was |
| `MigrationRunner.Database.Migrate` | crates/orm/src/db.rs:310-358 | alone, records and counts exactly what is pending; an error leaves a front of it; without faults, where the statements can succeed, it fails only at a version the list repeats, and then having recorded all before it |
| `MigrationRunner.MigrateTwiceListed` | crates/orm/src/db.rs:338-356 | a migration listed twice: the first run records it and fails, the second has nothing to do |

## Left out

- Network, TLS, HTTP, S3, connection pools, drivers, logging and wall-clock time.
- AgentLoop.Agent.Run: does not model the outcome's final text and finish messages, which only carry host-facing wording.
- Agent: stream acquisition retries and timeouts (the provider's answer is an oracle), request fields other than model, system, messages and tools, and the pricing formula (an oracle).
- Agent: dropping a run in the middle of a yield, after which the taken middleware is not put back.
- Tool definitions are compared by name only, JSON values are opaque, and tools are dispatched one after another instead of up to eight at once.
- Migration: the SQL text of a change (quoting, column DDL), the index a column's own `index` attribute creates, cascades of a dropped column, and the truth of policy, default and index expressions.
- Migration: `create role` is a no-op on a role provisioned out of band; the model has only the roles of the schema.
- SQL: `Raw` fragments, full-text and spatial predicates, `DatabaseNow`, `RETURNING`, identifier quoting, and cast, geometry and vector binds inside predicates (their placeholders are covered by `SqlText.SqlWriter.PushBind`).
- SQL: how MySQL itself reads the string literal in `escape '\'`.
- UpsertSql.DialectsAgree: excludes expression updates and guards, because expressions may read columns assigned earlier and MySQL rejects guards.
- Composite: floats and UUIDs are any non-empty text without delimiters, and reading dates, JSON, floats and UUIDs back is left to their parsers.
- Broker: HMAC, timestamps and payload sizes (an envelope opens or not), topics and payloads, and the publisher's batches beyond their order. No claim is made that a message arrives.
- Migration runner: MySQL's implicit commit of DDL, which makes its transactions not atomic.
