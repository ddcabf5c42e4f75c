# Verified model of the agent runtime's core

This project models, in Dafny, the parts of the repository whose correctness rests on whole runs or
whole inputs rather than on single calls, and proves what their comments and documentation
promise. `dafny verify dfyconfig.toml` checks everything.

## What is modelled

**The conversation log** (`Transcript`, `History`, `Anchors`, `ExactlyOnce`, `Commit`, `FoldOutcomes`,
`CompactionPlan`, `ConversationLog`, `LiveRuns`). An append-only tree of entries with a movable leaf; folding the path to
the leaf gives the transcript a run starts from. `History.Step` is one round of the fold loop and
`History.FoldHistory` the loop itself. `ConversationLog.Store` is the stored log, and the step system in
that module interleaves plain entries, entries written against a leaf seen earlier, forks, runs that
finish against an old anchor, and compactions planned at one leaf and landing at another moment. The main
results: no reachable branch ever fails to fold (`EveryBranchFolds`), an accepted turn folds to exactly the
run's final messages followed by the inputs it did not consume (`CommitFoldRoundTrip`), the turns that are
accepted are characterised outright (`AcceptedExactlyWhen`), what one more entry of any kind makes of a
transcript is spelled out (`FoldOutcomes`), what a person typed stands word for word until it is taken
(`TypedTextStands`), no input is lost (`NoInputIsLost`) or doubled (`EveryInputOnce`), and the compaction planner and the folder agree and make progress.

**The base -2 calculator** (`Negabinary`, `Lexer`, `Grammar`, `Calculator`). Conversion both ways, the
tokenizer, the recursive-descent evaluator with its `pos` field, and the grammar it is sound and complete
for. A `Printing` is a parse tree with its parentheses; `Grammatical` says the parentheses suffice.

**Line diff** (`Lines`, `LineDiff`). The table, the walk and the text it writes; correct and minimal.

**Traces and their replay** (`TraceSink`, `TraceReplay`). The delta encoder with its LRU cache, all
interleavings of concurrent calls, failed inserts and evictions, and the decoder that rebuilds the requests.

**The CLI's management credential** (`Credentials`, `Cli`). The config file against the servers'
credential tables under lost answers, failed requests, deletes applied but reported as failed, unreadable
lists and failed saves. `ExecuteAll` runs any sequence of commands, with whatever other people do in
between, and keeps a tracked key tracked until it is dead; `LifeOfAConfig` says what holds of every config
written from the empty one.

**Fenced state machines** (`Ladder`, `NativeStream`). The native model ladder's durable selection with a
crash between the write and its publication, and the callback stream's settlement fence.

**Keywords and the advisor's window** (`Utf8`, `Fences`, `ProseMask`, `Keywords`, `AdvisorWindow`). Which
bytes of a chat message are prose, which keyword occurrences fire, what stripping leaves, and the bounded
head-and-tail view of a transcript. Texts are byte strings there, one character to a byte.

Code that changes things in place is a class or a method over arrays here too, proved against a function
or a predicate about which the properties are then proved as lemmas.

## Assumptions

- `nativehost.ValidateMessages` is not part of this model; it is defined as `Transcript.Valid`: every
  assistant message with tool calls is followed at once by exactly its results, and no result stands
  elsewhere. `SummaryView` is defined as the system messages of the prefix, the summary, then the tail.
  Message equality stands for `SameJSON`.
- The entries written to a conversation are those the repository's code writes: user messages, commands,
  display projections, clears, native deltas and compactions; a transcript message with an input id is a
  user message. The database draws ids that are fresh and not empty.
- The token estimate and the two token budgets of the compaction planner are parameters.
- `ai.ParseFallbackSelection` is not part of this model; it is read as strictly as the writer allows. A
  write that fails is not in the journal.
- Servers: a session token is refused by a server that did not issue it, an answered list is complete for
  its project, a delete answered as done was done, a credential's hint is the end of its secret, secrets and
  ids are never reused, rotating the capture key keeps the project's id, and project ids are not empty.
  Saving the config is atomic. Between any two requests others may mint and revoke. The commands of one
  config file run one at a time: two key commands that overlap would both mint, and the later save would
  untrack a live key.
- A ladder that is restored after a crash is built over the same rungs.
- Whether a message marshals to JSON is a property of the message; what marshals decodes to itself.
- Runs consume only inputs entered after their anchor, once each, where a result says so
  (`ConversationLog.OwnInputsOnly`).
- `unicode.IsLetter` and `unicode.IsNumber` are parameters about which only this is assumed: the lowercase
  ASCII letters are letters. White space and UTF-8 decoding are defined concretely (sections 3 and 4 of
  RFC 3629).

## Where code and documentation differ

- `bench/PROBLEM.md` allows spaces and tabs between tokens and no leading zeros; the tokenizer also takes
  `\r` and `\n`, and literals with leading zeros. The model follows the code; `WriteAfterRead` says what
  becomes of the zeros.
- The trace sink's comment says a context that does not marshal starts a fresh chain. The call is cached as
  the next base all the same. What is marshalled is the delta, so the next call of that session may marshal
  and be stored over the dropped row; it then replays without its shared prefix, although each of its own
  messages is fine: `TraceReplay.DroppedContextCorruptsTheNext` is such a run. Up to what `sameMessage`
  compares, `TraceRoundTripExactlyWhen` gives the two conditions: every call of a run replays exactly when no
  delta failed to marshal, and the calls that were not dropped do so exactly when none of them leans on a
  dropped one.
- The trace sink's comment promises exact reconstruction. `sameMessage` does not look at every field of a
  message (content parts, input ids and directives are not compared), and a delta keeps the older of two
  messages it cannot tell apart: in `TraceReplay.UncomparedFieldsAreLost` the second of two calls that differ
  in an image alone comes back with the first one's image. `ReconstructionIsExactWhen` gives the condition
  for every run of every behaviour: all calls come back as they were sent exactly when no delta was dropped
  and each delta's kept prefix is, message for message and field for field, the one it was sent with.
- `Steer` and `FollowUp` report a message as delivered when the queue is full and drops it;
  `LiveRuns.LiveRegistry.Send` shows both. Only `QueueInput` keeps the input, because it persists first.
- A `done` or `error` event that carries no message does not close the callback stream
  (`NativeStream.BareDoneDoesNotClose`). In every run the last event of a successful request is terminal and
  carries the result, and it is the only terminal one exactly when every terminal event on the stream
  carries its message (`SuccessHasOneEnding`); a callback that always sends the message is fenced
  (`CarryingCallbackIsFenced`).
- The advisor's comment promises the head and the tail of a transcript that does not fit, and its code
  speaks of one block larger than the whole budget where it clips. A first block over a third of the budget
  is left out altogether when the last block fits into the rest and all blocks together do not
  (`AdvisorWindow.AShortTailDisplacesTheTask`). When the last block does not fit there, the first is shown
  clipped to the budget, so in full if the budget holds it, with a note that it was truncated, and the
  others go without being counted. When the first fits its third and the last is over its share, the head and
  the marker are all there is and the latest step is left out (`AdvisorWindow.ALongStepIsLeftOut`).
  `TheTaskIsKeptExactlyWhen` and `TheLastStepIsShownExactlyWhen` give the exact conditions for each end, and
  `BothEndsAreShownExactlyWhen` the condition under which the promise is kept.
- The mask departs from sections 4.5 and 6.1 of CommonMark 0.31.2 wherever the code does.

## Model

| member | source | states |
|---|---|---|
| Negabinary.FromNegabinary | bench/judge/judge.go:28-47 | accepts exactly the nonempty strings of 0 and 1 and returns their value in base -2; the first other character is the error |
| Negabinary.StepExact | bench/judge/judge.go:50-71 | one division step is exact and strictly lowers a measure that proves the loop ends |
| Negabinary.AbsFallsExactlyWhen | bench/judge/judge.go:50-71 | the absolute value falls at every step except the one from -1 to 1 |
| Negabinary.ToNegabinary | bench/judge/judge.go:50-71 | writes the canonical string whose value is the integer, reversing the digits in place |
| Negabinary.Unique | bench/judge/judge.go:28-71 | no integer has two representations without leading zeros |
| Negabinary.ReadAfterWrite | bench/judge/judge.go:28-71 | reading what was written returns every integer |
| Negabinary.WriteAfterRead | bench/judge/judge.go:28-71 | writing what was read returns every literal without its leading zeros, 0 for zero |
| Negabinary.RenderedLength | bench/judge/judge.go:50-71 | at most k digits are written exactly for the integers of a stated interval |
| Grammar.FloorDiv | bench/judge/judge.go:74-82 | the quotient rounded toward minus infinity, for either sign of the divisor |
| Lexer.Tokenize | bench/judge/judge.go:100-129 | succeeds exactly on the lines that spell a token list, with that list; otherwise names the first illegal character |
| Lexer.ScanCharacterisesSpelling | bench/judge/judge.go:100-129 | the tokens are the only list the line spells, with white space anywhere between them and at least some between two literals |
| Calculator.Parser.ParseExpr | bench/judge/judge.go:144-165 | the additive loop over the `pos` field agrees with the evaluator function the two directions below are proved about |
| Calculator.Parser.ParseTerm | bench/judge/judge.go:168-192 | the multiplicative loop likewise, division by zero included |
| Calculator.Parser.ParseUnary | bench/judge/judge.go:195-205 | unary minus likewise |
| Calculator.Parser.ParsePrimary | bench/judge/judge.go:208-232 | literals and parentheses likewise |
| Calculator.ExprReads | bench/judge/judge.go:144-232 | completeness: any grammatical printing at any place is read as its tree's value (left-associative, unary tightest), failing exactly on division by zero |
| Calculator.ExprDerives | bench/judge/judge.go:144-232 | soundness: whatever is accepted is the yield of a grammatical printing with that value |
| Calculator.EvalExpr | bench/judge/judge.go:236-250 | every printing of an expression, with any spacing, evaluates to the canonical negabinary of its value or fails on division by zero; every answered line is such a printing; a line is refused for a character exactly when it holds one that is no blank, digit, operator or parenthesis; and the answers to every line of one operator, and of two in the mixtures that show precedence and grouping, are spelled out on the literals and the blanks |
| Calculator.LineHasOneAnswer | bench/judge/judge.go:236-250 | two readings of one line have the same value |
| Grammar.PrintIsGrammatical | bench/judge/judge.go:144-232 | every expression has a printing the evaluator reads |
| LineDiff.FillTable | internal/runtime/lab.go:498-540 | the table holds, for each pair of suffixes, the length the next row proves to be longest |
| LineDiff.BestIsBest | internal/runtime/lab.go:498-540 | no common subsequence of two suffixes is longer than their table entry |
| LineDiff.WalkTurns | internal/runtime/lab.go:498-540 | the walk is a script from one text to the other and keeps as many lines as the table says |
| LineDiff.WalkIsMinimal | internal/runtime/lab.go:498-540 | no script between the two line lists drops and adds fewer lines |
| LineDiff.WalkIsFirst | internal/runtime/lab.go:498-540 | of all cheapest scripts the walk is the one that at the first difference keeps rather than drops and drops rather than adds |
| LineDiff.Diff | internal/runtime/lab.go:498-540 | the written text parses back to a script that spells want and got, keeps a longest common subsequence, is a cheapest script and of those the one that keeps first, then drops, then adds; the lines not marked "+ " are want and those not marked "- " are got |
| LineDiff.DiffRecoversTexts | internal/runtime/lab.go:498-540 | both texts can be recovered from the diff alone |
| TraceSink.CommonPrefix | internal/runtime/trace_sink.go:183-191 | agreement up to the returned length and not beyond |
| TraceSink.ComputeCommonPrefix | internal/runtime/trace_sink.go:183-191 | the loop computes it |
| TraceSink.ContextCache.Lookup | internal/runtime/trace_sink.go:241-250 | finds a key's context and moves it to the front, everything else in its old order |
| TraceSink.ContextCache.Put | internal/runtime/trace_sink.go:252-266 | replaces a key's context and puts it in front, everything else in its old order; only a new key on a full cache evicts, and the last one |
| TraceSink.ContextCache.Forget | internal/runtime/trace_sink.go:268-275 | removes exactly the key |
| TraceSink.StoreTraceSink.Begin | internal/runtime/trace_sink.go:88-108 | what a call encodes before its insert: keyframe or delta over the cached context, and nothing at all when that delta does not marshal |
| TraceSink.RowExactlyWhen | internal/runtime/trace_sink.go:88-180 | a row is a delta behind the longest prefix shared with the previous call exactly when there is one, it shares a message and fewer than a hundred deltas stand behind its keyframe, and a whole request otherwise; empty when a stored message does not marshal; its session falls back to the trace id |
| TraceSink.RootRunIsTheHead | internal/runtime/session_store.go:68-73 | the run is the trace id up to its first slash |
| TraceSink.DroppedDoesNotMarshal | internal/runtime/trace_sink.go:101-108 | a delta that does not marshal is part of a request that does not |
| TraceSink.StoreTraceSink.Finish | internal/runtime/trace_sink.go:88-154 | a failed insert forgets the session, a landed one becomes its next base |
| TraceSink.NextSeqIsFresh | internal/dataplane/store/agent_trace.go:162-217 | the number given to a row is one above the greatest of its run, or one |
| TraceSink.BehaviourKeepsInv | internal/runtime/trace_sink.go:88-154 | under any interleaving of calls, failures and evictions every cached context and every delta base is a row that landed in the same run |
| TraceReplay.RecordsFromCalls | internal/runtime/lab.go:250-296 | the one-pass rebuild equals the replay function of the rows |
| TraceReplay.RebuiltFrom | internal/runtime/lab.go:250-296 | for any rows, also those no sink wrote: a row is rebuilt to its delta behind as much as is kept, and there is, of what the latest earlier row of its base number was rebuilt to; to the delta alone when there is no such row |
| TraceReplay.TraceRoundTrip | internal/runtime/lab.go:228-296 | when every message list marshals, each run of any behaviour replays in order to requests that sameMessage cannot tell from those sent |
| TraceReplay.ReconstructionIsExactWhen | internal/runtime/trace_sink.go:38-52 | for every run of every behaviour: all calls come back equal to what was sent exactly when no delta was dropped and each kept prefix is the one sent; the same for the calls not dropped, with no delta over a dropped row |
| TraceReplay.AllExactlyWhen | internal/runtime/lab.go:228-296 | the first of the two for linked rows |
| TraceReplay.OthersExactlyWhen | internal/runtime/lab.go:228-296 | the second for linked rows |
| TraceReplay.UncomparedFieldsAreLost | internal/runtime/trace_sink.go:197-220 | a behaviour in which nothing is dropped and a call comes back with another message than it was sent with |
| TraceReplay.AllReplayExactlyWhen | internal/runtime/lab.go:228-296 | every call of a linked run replays as sameMessage compares exactly when no row was dropped |
| TraceReplay.OthersReplayExactlyWhen | internal/runtime/lab.go:228-296 | the calls that were not dropped replay as sameMessage compares exactly when none leans on a dropped row |
| TraceReplay.TraceRoundTripExactlyWhen | internal/runtime/lab.go:228-296 | both equivalences, up to what sameMessage compares, for every run of every behaviour |
| TraceReplay.DroppedBaseLosesPrefix | internal/runtime/trace_sink.go:103-108 | a delta over a dropped context always replays as the delta alone, shorter than what was sent |
| TraceReplay.DroppedContextCorruptsTheNext | internal/runtime/trace_sink.go:101-153 | a concrete behaviour: a request with a message that does not marshal, then one that marshals throughout, which loses the message the two share |
| TraceReplay.ChainsAreBounded | internal/runtime/trace_sink.go:169-180 | rebuilding a row reads at most the forced keyframe interval plus one rows |
| Transcript.ValidConcat | internal/runtime/pi_conversation.go:166-175 | valid transcripts can be put one after the other |
| Transcript.ValidExactlyWhen | internal/runtime/pi_conversation.go:166-175 | a transcript is valid exactly when the calls of every assistant message are answered at once, each once, and every result answers one |
| Transcript.ValidFromUser | internal/runtime/pi_compaction.go:90-104 | a transcript cut at a user message stays valid |
| Transcript.SummaryViewIsValid | internal/runtime/pi_compaction.go:137-153 | so does its summary view |
| History.FoldHistory | internal/runtime/pi_conversation.go:78-175 | the fold loop, entry by entry, with its errors, equals the fold that the lemmas below are about |
| History.ApplyEntry | internal/runtime/pi_conversation.go:83-147 | one entry's effect on messages, markers, revision and leaf |
| Anchors.AnchorsArePrefixes | internal/runtime/pi_conversation.go:83-165 | at every step the live markers are exactly the anchors of the path, each with the prefix it counts and its revision |
| Anchors.CountsAreInRange | internal/runtime/pi_conversation.go:109-120 | so the count check of the fold never fires |
| Anchors.OneRevision | internal/runtime/pi_conversation.go:109-120 | all deltas since the last clear carry one revision |
| Anchors.DeltaReplacesSuffix | internal/runtime/pi_conversation.go:109-148 | a delta yields its anchor's transcript, the delta, then the later inputs it did not consume, in order |
| Anchors.InputsAreKept | internal/runtime/pi_conversation.go:121-145 | an input since the last clear is in the transcript under its id unless a summary took it |
| FoldOutcomes.EntryOutcome | internal/runtime/pi_conversation.go:102-163 | behind a path that folds, a typed turn appends one user message with its text and its id; commands, display projections, empty texts and foreign entries append nothing; legacy and unreadable entries are refused, each with its error |
| FoldOutcomes.ClearOutcome | internal/runtime/pi_conversation.go:84-101 | a clear leaves the empty transcript whatever came before |
| FoldOutcomes.CheckpointOutcome | internal/runtime/pi_compaction.go:137-153 | a checkpoint folds exactly when it names this leaf and revision, says something and cuts at a user message; then one user message with its id and its summary stands between the system messages before the cut, in order, and the tail |
| FoldOutcomes.DeltaOutcome | internal/runtime/pi_conversation.go:109-148 | a delta over a live anchor leaves that anchor's transcript, the delta, and in order, with their texts, exactly the turns typed since that no user message of the delta names; a transcript that is then not valid, or a mixed revision, is refused |
| FoldOutcomes.DeltaRefused | internal/runtime/pi_conversation.go:109-117 | no revision, no messages or no live anchor, each with its error |
| FoldOutcomes.CommittedTurn | internal/runtime/pi_conversation.go:189-289 | the fold behind an accepted turn is the run's final messages and those turns |
| FoldOutcomes.TurnRefused | internal/runtime/pi_conversation.go:189-289 | why a turn is refused, in order: its revision, its messages against the seed and the first that differs, a transcript that is not valid, an input of another branch, an anchor that is gone, does not fold or folds to another seed |
| FoldOutcomes.TypedTurnStands | internal/runtime/pi_conversation.go:121-163 | a typed turn stands in the transcript with its text and its id while no clear, no delta that names it and no checkpoint over it has come |
| ExactlyOnce.EachInputOnce | internal/runtime/pi_conversation.go:121-145 | when runs consume only inputs entered after their anchor, once each, no input id occurs twice |
| ExactlyOnce.PendingInputsExactlyOnce | internal/runtime/pi_conversation.go:121-145 | then each such input occurs exactly once |
| ConversationLog.EveryInputOnce | internal/runtime/pi_conversation.go:121-145 | on every branch of every reachable conversation whose planned turns take only their own inputs, no input stands twice and each unsummarised one since the last clear exactly once |
| Commit.ConversationSuffix | internal/runtime/pi_conversation.go:191-215 | the suffix of a run's messages past its seed; refused for missing messages, fewer than the seed, the first message that differs, or a transcript that is not valid |
| Commit.PrepareTurn | internal/runtime/pi_conversation.go:217-289 | every guard before the append, in the source's order |
| Commit.AcceptedExactlyWhen | internal/runtime/pi_conversation.go:217-289 | a turn is accepted exactly when the run extended a seed still anchored on the path, and what is then written; nothing is to be written exactly when there is no state |
| Commit.CommitFoldRoundTrip | internal/runtime/pi_conversation.go:189-289 | folding after an accepted turn yields the run's final messages, then in order the inputs since its anchor that it did not consume |
| Commit.ResumeHistory | internal/runtime/pi_conversation.go:62-76 | the history a resumed run starts from is the fold up to the last delta |
| Commit.ResumePointExactlyWhen | internal/runtime/pi_conversation.go:62-76 | the point is the last delta with no clear and no compaction behind it, and there is none exactly when there is no such delta |
| Commit.ResumePointIsAnchored | internal/runtime/pi_conversation.go:62-76 | on a path that folds, resuming there succeeds and what it resumes from is still anchored on the path |
| CompactionPlan.Survey | internal/runtime/pi_compaction.go:54-82 | the estimates, the real user turns, the total and the tool questions left open |
| CompactionPlan.LatestBoundary | internal/runtime/pi_compaction.go:90-104 | the cut is the latest user boundary that retains the keep budget and has an earlier real user turn; 0 exactly when there is none |
| CompactionPlan.PlanCompaction | internal/runtime/pi_compaction.go:37-105 | a plan cuts exactly when compaction is due or forced, no tool question is open and a boundary exists |
| CompactionPlan.CutExactlyWhen | internal/runtime/pi_compaction.go:37-105 | the cut is i exactly when compaction is forced or the weight is over the window less a quarter or the reserve, and i is the latest turn a person wrote, with another before it, whose tail weighs the share to keep; window, reserve and share in numbers |
| CompactionPlan.NothingPlannedWhen | internal/runtime/pi_compaction.go:37-88 | a broken transcript and an open question are refused, each exactly when, and without a revision nothing is planned |
| CompactionPlan.OpenExactlyWhen | internal/runtime/pi_compaction.go:54-82 | a question is open exactly when some result asks it and no later user message answers it |
| CompactionPlan.PlannedCutFolds | internal/runtime/pi_compaction.go:130-153 | every planned cut is accepted by the folder at the leaf it was planned for |
| CompactionPlan.CompactionMakesProgress | internal/runtime/pi_compaction.go:37-105 | it strictly lowers the number of real user turns and leaves one |
| CompactionPlan.ViewHasNoOpenQuestions | internal/runtime/pi_compaction.go:54-82 | a summary view opens no tool question |
| CompactionPlan.SecondForcedCompactionIsNoOp | internal/runtime/pi_compaction.go:37-105 | a forced compaction right after a forced one plans nothing, whatever the window and the estimate |
| ConversationLog.Store.PathToLeaf | internal/dataplane/store/agent_conversations.go:290-308 | walking the parents up from the leaf gives the path |
| ConversationLog.Store.Append | internal/dataplane/store/agent_conversations.go:229-283 | one node below the leaf, which moves to it |
| ConversationLog.Store.AppendAtLeaf | internal/dataplane/store/agent_conversations.go:225-283 | compare-and-append: only while the leaf is the expected one, else nothing changes |
| ConversationLog.Store.SetLeaf | internal/dataplane/store/agent_conversations.go:336-352 | moves the leaf to a known entry only |
| ConversationLog.Store.CommitTurn | internal/runtime/pi_conversation.go:217-289 | a rejected commit leaves the log unchanged, an accepted one appends its delta alone |
| ConversationLog.Store.Compact | internal/runtime/pi_compaction.go:109-135 | writes a checkpoint exactly when a cut is planned and the summary says something; the folded transcript then has one user message that carries its id and ends with the summary, between the system messages and the tail |
| ConversationLog.PathIsDistinct | internal/dataplane/store/agent_conversations.go:290-308 | no path of a well-formed log repeats an id |
| ConversationLog.PathFollowsParents | internal/dataplane/store/agent_conversations.go:290-308 | the path ends in its entry and each of its entries was stored below the one before, the first below the root |
| ConversationLog.StepKeepsInv | internal/runtime/pi_conversation.go:217-289 | every step, however old the leaf it was prepared for, keeps all branches foldable |
| ConversationLog.EveryBranchFolds | internal/runtime/pi_conversation.go:78-175 | in every reachable conversation every branch folds without error |
| ConversationLog.NoInputIsLost | internal/runtime/pi_conversation.go:121-145 | on every reachable branch every input since the last clear is in the transcript or in a summary |
| ConversationLog.TypedTextStands | internal/runtime/pi_conversation.go:121-163 | on every reachable branch what a person typed stands in the transcript word for word until a clear, a delta that names it or a checkpoint over it |
| ConversationLog.BranchesStay | internal/dataplane/store/agent_conversations.go:336-352 | no later step changes the path to an earlier entry |
| LiveRuns.LiveRegistry.Register | internal/runtime/live.go:84-99 | a session's new run, with empty queues, supersedes the old one; every other lookup answers as before |
| LiveRuns.LiveRegistry.Unregister | internal/runtime/live.go:102-109 | the session is no longer found and every other lookup answers as before |
| LiveRuns.OneAddressPerRun | internal/runtime/live.go:113-124 | a live run answers to one project and one session only |
| LiveRuns.LiveRegistry.Send | internal/runtime/live.go:130-163 | delivered, denied or not found, each with its condition; the thirty-third message in a queue is dropped and every other run is untouched |
| LiveRuns.LiveRegistry.QueueInput | internal/runtime/live.go:168-189 | persisted before it is queued: once delivered the folded transcript is the former one and a user message with this text and id, queued or not, and without the append nothing changed |
| LiveRuns.LiveRun.DrainSteer | internal/runtime/live.go:210-238 | takes everything queued, in order |
| LiveRuns.LiveRun.DrainFollowup | internal/runtime/live.go:219-238 | likewise for the follow-up queue |
| Credentials.Internet.Mint | cmd/cli/auth.go:480-505 | answers with the new key and its id exactly when the request is applied with an unused id and secret and answered with them, and the row is then in the table; otherwise unsupported, denied to the role or a fault by its answer; a lost answer may leave a row behind |
| Credentials.Internet.Delete | cmd/cli/auth.go:612-642 | once applied the credential of that server, project and id is dead and no other row has changed, whatever is reported |
| Credentials.ResolveCredentialId | cmd/cli/auth.go:583-606 | too short, unreadable or ambiguous, each exactly when; no id exactly when no live row of the CLI's name ends like the secret, and the id of the one that does; so no id means no live credential with this secret |
| Credentials.MatchesSettle | cmd/cli/auth.go:583-606 | a live credential with the secret is always among the matches by hint |
| Credentials.RevokeManagedCredential | cmd/cli/auth.go:612-642 | success only when the credential is gone; with an id, exactly when the delete is answered or the list that is read instead shows no live row of it; without one, whenever the list shows at most one row that can be meant and its delete goes through |
| Credentials.DeleteById | cmd/cli/auth.go:624-642 | the delete and the list behind it, likewise |
| Credentials.ConfirmGone | cmd/cli/auth.go:612-642 | after a failed delete the list decides: unconfirmed when it cannot be read, and otherwise gone exactly when it shows no live row of the id |
| Credentials.DeadIdSettles | cmd/cli/auth.go:612-642 | a dead id settles the secret it was resolved from |
| Cli.Cli.Abandon | cmd/cli/auth.go:649-670 | a key is forgotten only once it is dead, and is whenever the revoke goes through; otherwise the config is unchanged |
| Cli.Cli.Select | cmd/cli/auth.go:685-746 | without a key, a mint that goes through ends with its secret and id saved for the project and its row live, or, when the save fails, revoked if the revoke goes through; a role or a server that does not mint ends without a key; a fault stops the command exactly when it is not tolerant; a held key is kept and nothing is requested; the result in every case |
| Cli.Cli.PersistSession | cmd/cli/auth.go:674-746 | the tail of signup and login: every outcome and its file, another server exactly when a held key was issued elsewhere, the selection as above once a key bound to another project is dead, and otherwise the session alone; the step keeps the tracked key |
| Cli.Cli.KeyCommand | cmd/cli/auth.go:325-406 | the key command likewise, with each of its refusals and exactly when |
| Cli.Cli.Logout | cmd/cli/auth.go:286-306 | clears the file only after the held key is dead, and does once the revoke goes through; never against another server |
| Cli.ExecuteAll | cmd/cli/auth.go:286-746 | over every sequence of signup, login, key and logout, with others minting and revoking in between, a tracked credential stays tracked until it is not live |
| Cli.MovesCompose | cmd/cli/auth.go:286-746 | what one command keeps of a tracked key, two in a row keep |
| Cli.LifeOfAConfig | cmd/cli/auth.go:286-746 | from the empty config: what any commands leave tracked stays tracked over any more of them until dead, a held key comes with a session and the selected project, and an operation uses it |
| Cli.OperationsUseTheHeldKey | cmd/cli/main.go:126-141 | with a config that meets the invariant the held key wins over the environment and the capture key |
| Cli.OperationUses | cmd/cli/main.go:126-141 | with any config the held key is used unless it is bound to another project than the selected one, then the environment's, then the capture key |
| Cli.HostHasNoSlash | cmd/cli/auth.go:136-142 | a server is its base URL without the slashes at its end |
| Ladder.NativeModelLadder.Fork | internal/runtime/native_ladder_selection.go:38-46 | a new owner over the same rungs, at its primary |
| Ladder.NativeModelLadder.Restore | internal/runtime/native_ladder_selection.go:187-195 | adopts a selection exactly when it is of this version, in range and of the row it names, and otherwise nothing |
| Ladder.NativeModelLadder.RestoreJournal | internal/runtime/native_ladder_journal.go:15-36 | adopts the last selection of a journal whose every transition is valid, or nothing of it |
| Ladder.ReadsExactlyWhen | internal/runtime/native_ladder_journal.go:15-36 | a journal is read exactly when it holds no corrupt selection and its selections are numbered from one, each of a current row and of another rung than the one before; its last is then restored |
| Ladder.NativeModelLadder.SelectRung | internal/runtime/native_ladder_selection.go:199-228 | a cancelled, stale or out-of-range selection is refused and changes neither memory nor journal; the active rung needs nothing; otherwise the next generation's record is written and published, or nothing is published, by how the write fares; a scope admitted before keeps its rung exactly when nothing is published |
| Ladder.AdmitsExactlyWhatItBinds | internal/runtime/native_ladder_context.go:15-37 | a ladder admits exactly the scopes it then binds, each to its own rung |
| Ladder.NativeModelLadder.RequestBinding | internal/runtime/native_ladder_context.go:26-37 | a scope of another ladder or generation resolves to no binding |
| Ladder.MemoryIsDurable | internal/runtime/native_ladder_journal.go:15-68 | at every point of every run a restart succeeds and restores what memory holds |
| Ladder.OneSelectionPerGeneration | internal/runtime/native_ladder_selection.go:199-228 | the journal holds exactly one selection for each generation up to the last |
| Ladder.SelectorsSawTheLast | internal/runtime/native_ladder_selection.go:199-228 | over every run, what reaches the journal was selected by a caller who was not cancelled and expected exactly the number of selections already there |
| Ladder.ExpectedOnce | internal/runtime/native_ladder_selection.go:199-228 | so of two selections that expect one generation at most one lands, whatever lies in between |
| Ladder.GenerationsGrow | internal/runtime/native_ladder_selection.go:199-228 | the durable generation never falls, restarts included |
| Ladder.BoundExactlyUntilSuperseded | internal/runtime/native_ladder_context.go:15-37 | over every run with crashes and restarts, an admitted scope is bound at a later moment, to its own rung, exactly when no selection was published and no restart lies in between |
| Ladder.SupersededStaysSuperseded | internal/runtime/native_ladder_context.go:15-37 | a scope that once resolves to nothing never resolves again |
| NativeStream.CallbackStream.ForwardEvent | internal/runtime/native_stream.go:88-100 | the event is appended and its message becomes the terminal one, unless a terminal message is held |
| NativeStream.CallbackStream.EmitProgress | internal/runtime/native_stream.go:101-113 | accepted exactly when it decodes and the stream is neither settled nor cancelled nor returned from |
| NativeStream.CallbackStream.SettleRequest | internal/runtime/native_stream.go:117-159 | for every answer: the result, and a start when nothing was reported and an error event for a message that stopped on an error or was aborted, a done event otherwise, when no terminal message is held |
| NativeStream.NothingAfterTheEnd | internal/runtime/native_stream.go:83-161 | in every interleaving nothing follows a terminal event that carries its message, or settlement, and the result does not change |
| NativeStream.SuccessHasOneEnding | internal/runtime/native_stream.go:117-159 | a successful request ends with a terminal event carrying the result, its only one exactly when all terminal events on the stream carry their messages |
| NativeStream.OnlyBareEndingsAreFollowed | internal/runtime/native_stream.go:88-113 | at any moment of any run only a terminal event without its message is followed by another, and until then any event may follow it |
| NativeStream.CarryingCallbackIsFenced | internal/runtime/native_stream.go:88-113 | when the callback reports every ending with its message, no terminal event is ever followed by another event |
| NativeStream.SilentCallbackGetsStart | internal/runtime/native_stream.go:145-154 | a callback that reported nothing still gets a start before the ending |
| NativeStream.EndingTellsTheOutcome | internal/runtime/native_stream.go:145-154 | in every run a settlement that ends the stream ends it with an error event exactly when the result stopped on an error or was aborted, and with a done event otherwise |
| NativeStream.BareDoneDoesNotClose | internal/runtime/native_stream.go:88-100 | a run in which a terminal event without its message is followed by another |
| Fences.MaskFences | internal/runtime/chatkw.go:173-215 | the line loop fills the mask in place with the fence mask of the text |
| Fences.ReadFenceMarker | internal/runtime/chatkw.go:249-261 | the two loops count the indent and the run that the fence rules are stated over |
| Fences.OpensExactlyWhen | internal/runtime/chatkw.go:202-209 | a line opens a fence exactly when at most three spaces and then three or more backticks or tildes begin it, with no backtick behind backticks; and what the fence is |
| Fences.ClosesExactlyWhen | internal/runtime/chatkw.go:194-201 | and closes one exactly when at least as many of its character stand behind at most three spaces, with white space behind |
| Fences.FencedExactlyWhen | internal/runtime/chatkw.go:180-215 | a byte of a line is hidden by phase 1 exactly when its line opens a fence or an earlier line opened one that no line between has closed |
| Fences.NewlinesAreNotFenced | internal/runtime/chatkw.go:180-215 | and no newline is |
| Fences.FencedIsUniform | internal/runtime/chatkw.go:180-215 | a fence never hides part of a line |
| ProseMask.MaskNonProse | internal/runtime/chatkw.go:173-244 | the mask array, shortcut included, is the mask of the two lemmas below |
| ProseMask.NothingToHide | internal/runtime/chatkw.go:174-177 | the shortcut hides nothing that the two passes would have hidden |
| ProseMask.NonProseExactlyWhen | internal/runtime/chatkw.go:173-244 | a byte is hidden exactly when a fence hides it or a construct covers it, and every construct is a code span, comment, tag or balanced element that begins outside the fences |
| ProseMask.ProseIsLiteral | internal/runtime/chatkw.go:217-243 | what is left is literal: at no '<' in it stands a comment or a tag, and no run of backticks in it has an equal later one |
| ProseMask.CloseIsTheFirstEqualRun | internal/runtime/chatkw.go:274-291 | a code span ends with the first later unmasked run of equally many backticks, and is none exactly when there is no such run |
| ProseMask.TagEndIsTheFirstAngle | internal/runtime/chatkw.go:314-334 | a tag ends at its first unquoted angle bracket exactly when that is a '>' |
| ProseMask.TagAtExactlyWhen | internal/runtime/chatkw.go:382-410 | a tag stands at a '<' exactly when a name follows, after a slash if it closes, and the first unquoted angle bracket behind that is a '>'; its name, its end and whether it closes itself |
| ProseMask.QuoteOpenExactlyWhen | internal/runtime/chatkw.go:314-334 | a quote is open exactly when it was opened outside quotes and has not come up since |
| ProseMask.ChangeExactlyWhen | internal/runtime/chatkw.go:339-376 | a tag of the same name, whatever the case of its letters, goes one deeper, or one up when it closes |
| ProseMask.CloseIsTheFirstBalance | internal/runtime/chatkw.go:339-376 | an element ends with the tag that first balances it, and has no end exactly when nothing balances it |
| ProseMask.MaskTagAt | internal/runtime/chatkw.go:382-423 | masks exactly the construct at a position, in place, and returns its end |
| ProseMask.ScanForBacktickClose | internal/runtime/chatkw.go:274-291 | the loop over the partly filled mask finds the close that the fences alone determine |
| ProseMask.ScanForTagEnd | internal/runtime/chatkw.go:314-334 | the loop over a quote state finds the end of the tag |
| ProseMask.ScanForMatchingClose | internal/runtime/chatkw.go:339-376 | the depth-counting loop finds the matching close |
| Keywords.LetterBeside | internal/runtime/chatkw.go:100-124 | a letter on either side keeps an occurrence from standing alone |
| Keywords.FiresExactlyWhen | internal/runtime/chatkw.go:57-74 | an occurrence fires exactly when the word stands there, no byte of it is masked and both its sides are free |
| Keywords.LeftIsFreeExactlyWhen | internal/runtime/chatkw.go:100-124 | in front of a keyword exactly these may not stand: a letter, a number, an underscore, a dot, a slash, a backslash, a hyphen, a double colon |
| Keywords.RightIsFreeExactlyWhen | internal/runtime/chatkw.go:100-124 | and behind it exactly these: a letter, a number, an underscore, a slash, a backslash, a hyphen, an opening parenthesis, and a dot with a letter, a number, an underscore or a hyphen behind |
| Keywords.FiringsAreDisjoint | internal/runtime/chatkw.go:52-79 | two occurrences that fire never overlap, whatever their words |
| Keywords.SearchWord | internal/runtime/chatkw.go:57-74 | the search that jumps behind each occurrence finds every one that fires |
| Keywords.CollectedExactlyWhen | internal/runtime/chatkw.go:52-79 | the collected ranges are exactly the standalone occurrences of catalogue words that touch no masked byte |
| Keywords.FiredExactlyWhen | internal/runtime/chatkw.go:69-72 | a word is reported exactly when an occurrence of it fires |
| Keywords.FiredInOrder | internal/runtime/chatkw.go:69-72 | reported once each and in the catalogue's order |
| Keywords.SortByStart | internal/runtime/chatkw.go:140-146 | the insertion sort orders the array and permutes it |
| Keywords.EnumerationIsUnique | internal/runtime/chatkw.go:52-79 | the ranges that fire determine the list that is stripped |
| Keywords.ParseMagicKeywords | internal/runtime/chatkw.go:52-79 | the fired words, and the message without exactly the firing ranges and their slots; the message itself when none fires |
| Keywords.StripRanges | internal/runtime/chatkw.go:139-164 | the pass over the ordered ranges keeps the places the three lemmas below describe |
| Keywords.StrippingTakesOnlySlots | internal/runtime/chatkw.go:147-162 | no byte of a range is kept; every other byte taken out went with one range as a byte of its slot, at most two with each |
| Keywords.StrippingTakesTheSlots | internal/runtime/chatkw.go:147-162 | a mark behind a range goes, with it the space in front, and of two spaces around a range one goes |
| Keywords.StrippedIsAStretch | internal/runtime/chatkw.go:162-164 | the result is the kept bytes in their order less white space at the two ends, where none is left |
| Keywords.TheCatalogueIsValid | internal/runtime/chatkw.go:40-42 | the shipped catalogue, the one word ultrathink for high effort, meets what the results ask of one |
| Utf8.PrefixIsWellFormedExactlyWhen | internal/runtime/advisor.go:286-301 | a cut of well-formed text is well-formed exactly when the byte behind it is no tail byte |
| Utf8.EncodedIsDecoded | internal/runtime/chatkw.go:104-118 | every code point is decoded from its bytes, whatever follows them |
| Utf8.DecodedIsEncoded | internal/runtime/chatkw.go:104-118 | and bytes that decode are the encoding of a code point |
| Utf8.EncodedIsDecodedLast | internal/runtime/chatkw.go:104-108 | the same from the back |
| Utf8.TrimSpaceSplits | internal/runtime/chatkw.go:163-163 | trimming takes white space off both ends and nothing else, and leaves none at either end |
| AdvisorWindow.Clip | internal/runtime/advisor.go:292-301 | a prefix of at most max bytes, cut in front of the nearest byte that is no tail byte |
| AdvisorWindow.ClipIsTheLongest | internal/runtime/advisor.go:286-301 | of well-formed text it is the longest well-formed prefix within max |
| AdvisorWindow.FillHead | internal/runtime/advisor.go:260-264 | the longest prefix of the blocks that fits its share |
| AdvisorWindow.FillTail | internal/runtime/advisor.go:265-269 | the longest suffix past the head that fits the rest |
| AdvisorWindow.RenderAdvisorTranscript | internal/runtime/advisor.go:238-284 | everything when it fits, else the largest window with its marker, else the clipped first block |
| AdvisorWindow.WindowIsTheLargest | internal/runtime/advisor.go:257-269 | no longer head or tail would have fitted |
| AdvisorWindow.WindowIsUnique | internal/runtime/advisor.go:257-269 | the blocks and the budget determine the window |
| AdvisorWindow.WindowIsAPartition | internal/runtime/advisor.go:275-283 | head, omitted and tail are the blocks once each; head and tail stand verbatim at the ends and the marker only when something is omitted |
| AdvisorWindow.MarkerNamesTheNumber | internal/runtime/advisor.go:275-281 | the marker determines the number omitted |
| AdvisorWindow.MarkerSaysHowMany | internal/runtime/advisor.go:275-281 | the marker is the notice with the number omitted in decimal |
| AdvisorWindow.ALongBlockIsCut | internal/runtime/advisor.go:270-274 | a single block over the budget is cut to at most the budget and followed by the note |
| AdvisorWindow.RenderedIsTheView | internal/runtime/advisor.go:238-284 | the output is the pieces of one view with blank lines in between, and blocks and budget determine that view |
| AdvisorWindow.WindowIsBounded | internal/runtime/advisor.go:238-284 | at most the budget plus four plus the marker shown; plus two when nothing is elided; plus the note when clipped |
| AdvisorWindow.NothingElidedMayOverrun | internal/runtime/advisor.go:259-283 | a transcript shown in full by its two ends that is two bytes over the budget |
| AdvisorWindow.TheTaskIsKeptExactlyWhen | internal/runtime/advisor.go:229-284 | exactly when the view shows the first block whole, exactly when cut, and that otherwise the marker and a later tail are all there is |
| AdvisorWindow.TheLastStepIsShownExactlyWhen | internal/runtime/advisor.go:229-284 | exactly when the view of several blocks shows the last one whole, and what it shows otherwise |
| AdvisorWindow.BothEndsAreShownExactlyWhen | internal/runtime/advisor.go:229-284 | exactly when head and tail are both kept, the promise of the comment, for one block and for several |
| AdvisorWindow.ALongStepIsLeftOut | internal/runtime/advisor.go:229-237 | a transcript of which only the task and the marker are shown |
| AdvisorWindow.AShortTailDisplacesTheTask | internal/runtime/advisor.go:229-237 | a transcript of which only the last step is shown |

## Left out

- HTTP routes, SSE framing, cookies, CORS, CLI flags and prompts, JSON encoding and timestamps.
- The principal and operation tables, the OAuth flows and the account pool, delegation, children, request and
  binding code: they rest on code outside the repository or are finite case tables.
- Goals (`internal/runtime/pi_goal.go`), lab run execution and the LLM judge, the benchmark's case generator,
  compiler and judge loop, token pricing and telemetry spans: easy members or subprocess plumbing.
- How the advisor renders one message; its blocks are inputs of `AdvisorWindow.RenderAdvisorTranscript`.
- The native half of a stored trace row (`encodePiTrace`); only the message contexts are modelled.
- Cancelling a live run, and the session state and its latch around a ladder selection.
- Choosing a project by name, and an orphan credential on the server when a mint's answer is lost: the CLI
  never learns of it and does not track it.
- Configs written by hand or by older versions: `Cli.Inv` is what every config written from the empty one
  satisfies.
- Copying of values where the source deep-copies (forks and histories): values are immutable here.
- Ladder.NativeModelLadder.RestoreJournal: asks for fewer entries than the largest 64-bit generation.
- Idempotence of keyword stripping: taking a keyword out can join runs of backticks and so change the mask.
- Keywords.ParseMagicKeywords: asks for a catalogue of distinct lowercase words, as the shipped one is; with
  an empty word the search would not advance.
- AdvisorWindow.Clip: asks for a bound that is not negative; the source slices with it.
