# Decode protocol, trace rewrites and codecs: a verification model

The engine runs an autoregressive decoder whose KV cache lives in two places: the host's past buffers, and
an engine-resident copy that still owes one fold of the last run's present rows. A chat turn may advance the
conversation in five ways - a single step on the host, a single step linked to the engine, a device chain of
N steps, batched or chunked prefill, speculative rounds with a draft decoder - and all of them are promised
to print the same greedy stream. This project models those drivers and proves that promise, with the exact
corners where it fails, and then the trace rewrites and file codecs that stand beside them.

The model network is one uninterpreted function from (rows of the valid slots, position, token) to (row,
logits); logits are reals and the choice is the first maximum. `DecoderModel.Greedy` is the plain loop over
that function, `DecoderModel.Live` the rows the cache should hold. Everything else is proved against these
two. Links, runs and readbacks may be refused at any point: a session is a sequence of answers, and each request takes
the next one. Every driver contract says what holds for all answers and, where the answers it took were all granted
(`Engine.Granted`), that it succeeded.

| file | content |
|---|---|
| decoder_model.dfy | the reference decoder, batched causal forwards |
| io_link.dfy, host_fold.dfy | fold slots, flat copy ranges, the copy loops on flat buffers |
| graph_pass.dfy | bound tensors, what a window computes, what a fold leaves |
| spec_decode.dfy, draft_decoder.dfy | acceptance and emission rules, the draft decoder |
| engine.dfy | linked runs, the two copies of the cache |
| chat_rules.dfy, chat.dfy | the interactive driver, from one step to a whole conversation |
| reseeding.dfy | the re-seed protocol over whole runs: its exact corners and a conversation that goes wrong |
| app_decoder.dfy, app_vlm.dfy | the app's two decoders |
| ssa_rename.dfy, prune_dead.dfy | renaming and pruning of a recorded trace |
| trace_replay.dfy, repair_bindings.dfy, stale_values.dfy | the shape interpreter and what it carries over, rebinding, a trace on which it gives up too soon |
| basics.dfy, numerals.dfy | shared definitions, binary number formats |
| msgpack.dfy, crc32.dfy, png.dfy, npy.dfy, decimals.dfy, layouts.dfy | codecs and layouts |

## Where the promise fails

Each corner comes with its exact condition; for the first three it is over the contents the drivers' own runs can
reach from their empty start:

- An owed re-seed is dropped when a batched prompt phase consumes nothing (examples/llm/chat.cpp:1771, 1804),
  which happens when the first window crosses the context edge. `Reseeding.DroppedReseedExact`;
  `Reseeding.DroppedReseedChangesId` is a conversation, from the empty start, that ends wrongly.
- A link failure while a re-seed is owed copies the stale resident cache over the host
  (examples/llm/chat.cpp:823-833, 951-962; app-demo/native/vknn_jni.cpp:304-319). `Reseeding.ResyncExact`. The
  vision-language decoder guards this, and `AppVlm.Vlm.Step` has no such exception.
- A failed linked run of `Decoder::step` clears an owed rebind (app-demo/native/vknn_jni.cpp:300-303).
  `Reseeding.FailedRunExact`.
- A refused readback of `Decoder::step` leaves host buffers that were a true copy partly overwritten
  (app-demo/native/vknn_jni.cpp:310-314). `Reseeding.RefusedResyncExact`.
- `Decoder::prefill` fails after a window succeeded without owing a rebind (app-demo/native/vknn_jni.cpp:502-511).
  `AppDecoder.FailedPrefillExact`.
- After full acceptance the draft has not fed its last proposal, although the comment at
  examples/llm/chat.cpp:1621-1624 says it has. `Draft.DraftRowsExact`. The printed stream is unaffected.
- The host step of the vision-language decoder folds the present at a stride of one row
  (app-demo/native/vknn_jni.cpp:945). `HostFold.StrideOneExact`.
- Renaming a trace changes a read when a name that no node produces is spelled like a unique name an earlier
  node emitted. `SsaRename.RenamingExact`.
- The search for a rewiring judges a trial by values an undone trial left behind, because a replay overwrites
  shapes and leaves a folded value in place (tools/rebuild_onnx_from_dump.py:279-285, 1181-1187). It can give up
  although a rewiring it tried would do: `StaleValues.GivesUpTooSoon`. `RepairBindings.SearchRunExact` and
  `RepairBindings.TrialsInTurnExact` give the condition, which replays of a copy of the entry memory decide: no
  trial leaves, on an output the next one does not fold, a value other than the one that stood there.
- A MessagePack map whose key is an array or a map is refused, and equal keys collapse.
  `MsgPack.DecodeSucceeds`, `MsgPack.DecodeKeeps`.

The ghost field `hazard` of `Chat` and `Decoder` records that one of the first five happened; while it is false
the stream is exact. Every contract states when it is set. `ChatDriver.Chat.Converse` turns that into guards on the
input: `ChatGuard.WindowsFit` and `ChatGuard.KeepsReseeds`, which a caller computes from the prompts and the plain
replies. `draftExact` of `Chat` records that no round was accepted in full.

## Model

| member | source | states |
|---|---|---|
| DecoderModel.ScanArgMax | examples/llm/draft_decoder.h:430-440 | the scan returns the first index of the largest logit, for every logits row |
| DecoderModel.LivePrefix | examples/llm/chat.cpp:83-88 | inside the context a longer history only appends rows: the first rows of the reference cache never change |
| DecoderModel.ColumnsAreSteps | examples/llm/chat.cpp:1190-1194 | a batched causal forward on the history's rows computes, column by column, what feeding the tokens one at a time computes, whatever padding follows |
| DecoderModel.StepsAppendRows | examples/llm/chat.cpp:1190-1194 | the rows of such a forward are exactly the rows the longer history adds to the reference cache |
| IoLink.SlotsShared | include/vknn/io_link.h:49-61 | two tokens fold into one slot if and only if the earlier is already in the last slot of the context, and no slot lies outside |
| IoLink.KvFoldRowRanges | include/vknn/io_link.h:71-83 | one contiguous range per head, none for a negative slot or an empty block |
| IoLink.KvFoldRanges | include/vknn/io_link.h:95-97 | the single-row fold takes the last present row |
| IoLink.ApartExact | src/core/session.cpp:1384-1392 | two destination ranges pass the overlap check if and only if no element lies in both |
| IoLink.FoldRangesValid | src/core/session.cpp:1365-1394 | the session's range validation (bounds and pairwise disjoint destinations) accepts a fold on positive shapes if and only if its row block fits the present and the cache |
| IoLink.FoldRangesOverrun | include/vknn/io_link.h:66-70 | a fold whose rows overrun either tensor is rejected |
| IoLink.RangesFoldRows | src/core/session.cpp:1943-1949 | applying the flat per-head copies to the flat buffers moves whole logical rows: slots slot.. hold the present rows and every other slot keeps its own |
| HostFold.CopyWords | app-demo/native/vknn_jni.cpp:250-262 | one copy loop on the flat buffer is one range copy and touches nothing else |
| HostFold.FoldBlocks | examples/llm/chat.cpp:730-733 | head-by-head block copies on the flat array equal the armed ranges and the logical row fold |
| HostFold.FoldHeadRows | app-demo/native/vknn_jni.cpp:456-465 | row-by-row copies of one head are that head's block copy |
| HostFold.FoldRowByRow | app-demo/native/vknn_jni.cpp:707-734 | the head and row loops write exactly the slots of the logical fold: same flat bytes as the armed ranges, same rows |
| HostFold.StrideOneExact | app-demo/native/vknn_jni.cpp:707-734 | the host step's fold reads the present at a stride of one row per head: it finds every head's newest row, in every present, if and only if the decode present has one row |
| GraphPass.BuildWindow | examples/llm/chat.cpp:764-772 | id, position and mask tensors of a window: tokens then pads, consecutive positions, mask 1 on the slots below p and on the real columns only |
| GraphPass.WindowIsSteps | examples/llm/chat.cpp:988-992 | a padded window bound to a cache that holds the history computes the token-by-token outputs for every window size and padding |
| GraphPass.StepIsLast | examples/llm/chat.cpp:764-772 | a one-token step computes the reference output at every position, past the compiled context included |
| GraphPass.FoldHoldsWindow | examples/llm/chat.cpp:1055-1087 | folding a window's real rows at the position makes the cache hold the longer history |
| GraphPass.FoldHoldsStep | examples/llm/chat.cpp:861-882 | folding one step's row into its clamped slot does the same at every position |
| GraphPass.FoldHoldsAccepted | include/vknn/spec_decode.h:60-67 | folding only the accepted rows holds the history and the accepted tokens and changes no other slot: a rejected row is nowhere |
| GraphPass.FoldTwice | src/core/session.cpp:1943-1949 | applying the armed fold a second time, as a run after a failed one does, changes nothing |
| SpecDecode.Accepted | include/vknn/spec_decode.h:117-129 | the longest confirmed prefix: every draft before it matches, the one at it does not |
| SpecDecode.SpecAcceptedDrafts | include/vknn/spec_decode.h:122-129 | the loop computes that prefix for all draft and target lists |
| SpecDecode.SpecEmittedCount | include/vknn/spec_decode.h:137-147 | the count is the smaller of the committed tokens and the budget, cut before the first end-of-stream id |
| SpecDecode.RoundSize | include/vknn/spec_decode.h:117-147 | the drafts a round accepts and the tokens it commits, at least the pending one |
| SpecDecode.TruncatedRunIsGreedy | include/vknn/spec_decode.h:131-135 | a run of greedy choices cut by the two stopping rules, followed by the plain loop from there, is the plain loop's stream |
| SpecDecode.RoundCommitsGreedyRun | include/vknn/spec_decode.h:48-56 | whatever the draft proposed, the committed tokens are greedy choices and the id left pending is the target's next token |
| SpecDecode.RoundIsExact | include/vknn/spec_decode.h:18-23 | the ids a round emits, then the plain loop from where it stopped, are the plain loop's stream, for every draft, end-of-stream id and budget |
| Draft.FeedIsLive | examples/llm/draft_decoder.h:96-116 | feeding tokens onto the history's rows gives the longer history's rows |
| Draft.ColumnsFeed | examples/llm/draft_decoder.h:311-314 | a padded window feeds exactly its real tokens |
| Draft.DraftDecoder.WindowPass | examples/llm/draft_decoder.h:315-427 | one pass adds the fed rows behind the position, keeps the rows below, advances by the real tokens; refusal keeps the position |
| Draft.DraftDecoder.Rewind | examples/llm/draft_decoder.h:82-84 | the cursor moves and no cached row changes |
| Draft.DraftDecoder.Consume | examples/llm/draft_decoder.h:100-116 | windows of any size feed the tokens as one-token feeding would, up to the context edge; a refusal leaves some fed prefix; without a refusal it fails only at the context edge |
| Draft.DraftDecoder.Propose | examples/llm/draft_decoder.h:122-139 | proposals are the draft's greedy continuation of the rows below the anchor, whatever stale rows lie past it; a negative anchor or a crossing of the context edge is refused; without a refusal it fails for no other reason |
| Draft.DraftRowsHold | examples/llm/chat.cpp:1621-1624 | after a round that committed at most as many tokens as the draft fed, the draft's rows below the committed position are the conversation's |
| Draft.DraftRowsExact | examples/llm/draft_decoder.h:129-137 | up to and at the context edge: the rows are the conversation's for every cache content if and only if the round committed no more tokens than proposals (full acceptance outruns the draft by one row), or the proposals end at the edge and the clamped write of the last one would put back the row already there |
| Engine.Run | include/vknn/session_class.h:154-166 | a granted linked run applies the armed fold (on the bound rows when the past is bound) before computing; a refused one has at most applied the fold |
| Reseeding.WindowMove | examples/llm/chat.cpp:988-992 | the batched move of the protocol machine is what the padded window computes and folds |
| Reseeding.DecodeMove | examples/llm/chat.cpp:779-820 | the linked move of the machine is what the bound step computes |
| Reseeding.DecodeTidy | examples/llm/chat.cpp:779-820 | on the copies any run leaves, a linked step outputs the reference and keeps one logical cache |
| Reseeding.AfterTidy | examples/llm/chat.cpp:1774-1805 | over every sequence of windows, linked steps and resets from the empty start the two copies hold one logical cache |
| Reseeding.DroppedReseedExact | examples/llm/chat.cpp:1771-1771 | clearing the re-seed flag keeps the copies coherent, on every run of every model that stands at that history and flag, if and only if nothing was owed: the flag is down, nothing was fed, or the history is past the window edge |
| Reseeding.ResyncExact | examples/llm/chat.cpp:823-833 | copying the resident cache over the host and dropping the links keeps the conversation on every such run if and only if nothing was owed |
| Reseeding.FailedRunExact | app-demo/native/vknn_jni.cpp:300-303 | a failed linked run, which clears an owed rebind, keeps the conversation on every such run, whether or not its fold or binding was applied, if and only if nothing was owed |
| Reseeding.RefusedResyncExact | app-demo/native/vknn_jni.cpp:310-314 | a refused readback keeps the conversation, whatever it left in the host buffers, if and only if the resident copy alone was the true one or nothing was fed |
| Reseeding.DroppedReseedChangesId | examples/llm/chat.cpp:1804-1804 | a conversation from the empty start - a first prompt in one window, an immediate end of stream, a second prompt that crosses the context edge - in which the driver chooses end-of-stream where the plain loop prints 1 |
| ChatGuard.OwingLess | examples/llm/chat.cpp:1748-1805 | a conversation safe while a re-seed is owed is safe without it |
| ChatGuard.LineReseeds | examples/llm/chat.cpp:1735-1813 | one line carries both guards on the input over to the rest of it, and without speculation also their failure |
| ChatGuard.OneLineMore | examples/llm/chat.cpp:1701-2071 | the exits of the turns read so far decide the guard up to the rest of the input |
| ChatSteps.StepBaseHolds | examples/llm/chat.cpp:779-817 | whichever copy is the true one, the linked run computes on the history's rows |
| ChatSteps.LinkedStepHolds | examples/llm/chat.cpp:818-820 | a linked step outputs the reference and leaves its row pending so that resident plus pending is the longer history |
| ChatSteps.WindowLeaves | examples/llm/chat.cpp:1055-1095 | a batched pass outputs the reference for its last real token and its folded rows are the longer history's |
| ChatSteps.HostWindow | examples/llm/chat.cpp:995-1096 | a whole-window run on the host copy and the fold of its real rows leave the longer history and its last output |
| ChatSteps.LinkedWindow | examples/llm/chat.cpp:1153-1247 | a window run on a linked pair leaves resident plus pending rows equal to the longer history, and its last output |
| ChatChain.Feedback | examples/llm/chat.cpp:902-907 | the next iteration's id, position and mask are those a single step at the next position binds |
| ChatChain.NextIteration | examples/llm/chat.cpp:921-929 | one more chain iteration keeps ids, folded rows and the pending row on the reference at every position |
| ChatChain.ChainAdvance | examples/llm/chat.cpp:1986-1994 | a full chain leaves resident plus pending row equal to the history with every fed token |
| ChatChain.ChainTrim | examples/llm/chat.cpp:1970-1974 | an end-of-stream trim short of the chain needs no pending fold and its overshoot rows lie past the trimmed history |
| ChatChain.ChainCut | examples/llm/chat.cpp:1982-1983 | with pendingResidentFold = (f == steps-1) the trimmed state is coherent for every f, inside the context or for a one-step chain |
| ChatChain.ChainIsRun | examples/llm/chat.cpp:1975-1995 | the printed token and the chain's ids, cut anywhere, are greedy choices |
| ChatChain.ChainUnclamped | examples/llm/chat.cpp:1936-1940 | inside the context edge no iteration's fold slot is clamped |
| ChatStream.StreamPrintsRun | examples/llm/chat.cpp:1608-1628 | printing a greedy run cut by the stopping rules either completes the turn's reply or stays on it |
| ChatStream.StreamPrintsRound | examples/llm/chat.cpp:1596-1630 | one verified round prints its share of the reply for every draft and leaves the right pending id |
| ChatStream.StreamEnds | examples/llm/chat.cpp:1638-1641 | when the budget is spent or the next id ends the stream, what was printed is the whole reply |
| ChatDriver.Chat.constructor | examples/llm/chat.cpp:686-698 | start-up establishes the invariants of an empty conversation |
| ChatDriver.Chat.SyncResidentToHost | examples/llm/chat.cpp:703-738 | the host buffers become the resident past with the last present row in the pending slot |
| ChatDriver.Chat.RunLinked | examples/llm/chat.cpp:779-820 | the linked half of a step: output and logical cache of the history with the token |
| ChatDriver.Chat.RunUnlinked | examples/llm/chat.cpp:836-882 | the host half: output of the reference, row folded into the clamped slot, logical cache of the longer history |
| ChatDriver.Chat.FallBackToHost | examples/llm/chat.cpp:821-834 | a link failure hands the logical cache to the host loop and loses it exactly when a re-seed was owed; a refused readback is fatal and loses nothing printed; it succeeds unless the readback is refused |
| ChatDriver.Chat.StepForward | examples/llm/chat.cpp:773-882 | the forward of a step, linked, on the host, or falling back in between: output, logical cache and loss as for a step |
| ChatDriver.Chat.Step | examples/llm/chat.cpp:755-900 | linked, unlinked or falling back in between, a step outputs the reference and keeps one logical cache; the conversation is lost exactly when a re-seed was owed and the links dropped in this step; a step that keeps the links owes none; without a refusal it succeeds and keeps the links |
| ChatDriver.Chat.ChainArms | examples/llm/chat.cpp:924-929 | the precomputed arms: the single step's for the first iteration, the next slot for each later one |
| ChatDriver.Chat.RunChain | examples/llm/chat.cpp:964-985 | the iterations of one device chain leave greedy ids, every row folded but the last |
| ChatDriver.Chat.RunChainLinked | examples/llm/chat.cpp:964-985 | the linked run of a chain leaves the flags as they must be however it ends, and the history with every fed token when it ran |
| ChatDriver.Chat.ChainLinks | examples/llm/chat.cpp:928-962 | the links and the window of a chain: armed with nothing else changed, fallen back to the host loop, or fatal |
| ChatDriver.Chat.ChainStep | examples/llm/chat.cpp:908-986 | a chain of any length is N single steps; a link failure feeds nothing, falls back, and loses the conversation exactly when a re-seed was owed; without a refusal the chain runs |
| ChatDriver.Chat.Sample | examples/llm/chat.cpp:2012-2031 | the engine reduction and the host scan return the same greedy id |
| ChatDriver.Chat.PrintNext | examples/llm/chat.cpp:2036-2042 | printing a pending id keeps the turn on the reply and puts the id on the record of fed tokens |
| ChatDriver.Chat.PlainLoop | examples/llm/chat.cpp:2010-2048 | the single-step loop completes the reply from any mid-turn state; without a refusal it does not fail |
| ChatDriver.Chat.ReadChainIds | examples/llm/chat.cpp:1952-1966 | the read-back finds the first end-of-stream id of the chain |
| ChatDriver.Chat.TrimChain | examples/llm/chat.cpp:1968-1985 | the end-of-stream exit prints and feeds exactly the plain loop's ids and sets the pending-fold flag right |
| ChatDriver.Chat.AcceptChain | examples/llm/chat.cpp:1986-1994 | the full exit prints all but the last id and leaves that one pending |
| ChatDriver.Chat.ReadChain | examples/llm/chat.cpp:1952-1995 | a finished chain within the budget is printed up to its end of stream, or all but its last id |
| ChatDriver.Chat.ChainPass | examples/llm/chat.cpp:1918-1995 | one pass of the chain loop keeps the turn on the reply through every exit |
| ChatDriver.Chat.ChainTurn | examples/llm/chat.cpp:1893-2009 | the chained decode completes the reply, or hands the plain loop a state from which it does; without a refusal it completes the reply itself |
| ChatDriver.Chat.SyncIfDirty | examples/llm/chat.cpp:1780-1787 | after the boundary sync both copies agree; nothing happens when not dirty |
| ChatDriver.Chat.PrefillPass | examples/llm/chat.cpp:995-1096 | one whole-window forward: reference logits, host cache of the longer history; only a refused run fails |
| ChatDriver.Chat.PrefillWindows | examples/llm/chat.cpp:1788-1803 | windows are taken while they fit; none is taken exactly when the first does not fit |
| ChatDriver.Chat.SettleReseed | examples/llm/chat.cpp:1804-1804 | the flag after a batched phase; an owed re-seed is lost exactly when nothing was consumed |
| ChatDriver.Chat.WindowPhase | examples/llm/chat.cpp:1774-1805 | the whole-window phase keeps the logical cache; the hazard arises exactly when a re-seed is owed and the first window crosses the context |
| ChatDriver.Chat.RunChunk | examples/llm/chat.cpp:1153-1247 | one chunk pass arms the previous chunk's rows (or binds the host on the first), outputs the reference and leaves resident plus pending right |
| ChatDriver.Chat.SyncChunkResidentToHost | examples/llm/chat.cpp:1253-1287 | the host cache becomes resident past plus the last chunk's pending rows |
| ChatDriver.Chat.ChunkPasses | examples/llm/chat.cpp:1319-1340 | the chunk loop for every prompt length and chunk width |
| ChatDriver.Chat.ChunkedTurn | examples/llm/chat.cpp:1319-1345 | the passes of a turn whose first chunk fits, and their rows brought to the host |
| ChatDriver.Chat.ChunkedPrefillTurn | examples/llm/chat.cpp:1295-1352 | 1: same rows, position and logits as token-by-token feeding; 0 exactly when the first chunk does not fit; -1: position and history restored and the live host slots unchanged; -1 only after a refusal |
| ChatDriver.Chat.VerifyForward | examples/llm/chat.cpp:1466-1533 | the verification run on the turn-entry rows or on the resident past with the accepted rows armed: each row is the reference choice |
| ChatDriver.Chat.RunVerify | examples/llm/chat.cpp:1430-1533 | one verification forward: each row's argmax is the reference choice after that many window tokens; a refusal loses nothing |
| ChatDriver.Chat.CommitRound | examples/llm/chat.cpp:1596-1630 | the committed tokens are printed and fed, their rows pend, and no other slot of the turn-entry cache differs |
| ChatDriver.Chat.RecordRound | examples/llm/chat.cpp:1612-1624 | the record of fed tokens stays the history, and the draft's valid rows are exact unless a round was accepted in full |
| ChatDriver.Chat.AcceptRound | examples/llm/chat.cpp:1596-1630 | a verified round committed and put on record |
| ChatDriver.Chat.SpecRound | examples/llm/chat.cpp:1576-1631 | one round, whichever exit it takes, keeps the turn on the reply and the verification cache on the history; without a refusal it stands down only when its window crosses the context of the target or of the draft |
| ChatDriver.Chat.SyncSpecResidentToHost | examples/llm/chat.cpp:1387-1425 | the host cache becomes resident past plus the last round's accepted rows |
| ChatDriver.Chat.RestoreAfterSpec | examples/llm/chat.cpp:1554-1565 | the decode bucket is linked again and owes a re-seed, or the host loop takes over |
| ChatDriver.Chat.SpecRounds | examples/llm/chat.cpp:1571-1631 | any number of rounds |
| ChatDriver.Chat.CollectRounds | examples/llm/chat.cpp:1632-1637 | the end-of-turn sync makes the host cache the history's, changing only the committed slots |
| ChatDriver.Chat.SpecPasses | examples/llm/chat.cpp:1571-1637 | the rounds of a turn and their rows brought to the host |
| ChatDriver.Chat.SpecDecodeTurn | examples/llm/chat.cpp:1542-1643 | for every draft the speculative turn prints the plain loop's ids and ends in its state, or hands back with the token pending; the host cache changes only in committed slots |
| ChatDriver.Chat.FollowRecord | examples/llm/chat.cpp:1846-1862 | the draft catches up on the record of fed tokens |
| ChatDriver.Chat.SpecTurn | examples/llm/chat.cpp:1825-1892 | the speculative part of a turn, with every stand-down, stays on the reply; it loses nothing while the links stay up, and says by which exit it left and what re-seed that exit owes; without a refusal and with a history the draft can hold it enters the rounds |
| ChatDriver.Chat.ChunkPhase | examples/llm/chat.cpp:1748-1773 | the chunked phase keeps the logical cache; the hazard arises exactly as in the window phase |
| ChatDriver.Chat.Batches | examples/llm/chat.cpp:1739-1805 | the batched routes of a prompt: with the links up an owed re-seed is lost exactly when the first window of the route taken crosses the context, and one is owed with nothing left to feed exactly when batches took the whole prompt |
| ChatDriver.Chat.FeedRest | examples/llm/chat.cpp:1806-1813 | the rest of the prompt, token by token: without a refusal all of it is fed; lost only by a link failure while a re-seed is owed, and the first linked step pays what is owed |
| ChatDriver.Chat.PromptPhase | examples/llm/chat.cpp:1739-1813 | whatever routes the prompt takes, the history has it and the last logits are the reference's; with the links up the conversation is lost exactly when a re-seed was owed and the first batched window crosses the context, and a re-seed is owed afterwards exactly when batches took the whole prompt; without a refusal it does not fail and keeps the links |
| ChatDriver.Chat.DecodePhase | examples/llm/chat.cpp:1814-2048 | whatever routes decode the turn, the printed ids are the plain loop's reply and the history ends with it; the conversation is lost only by a link failure; a re-seed is owed afterwards exactly when nothing was fed one by one and rounds were entered or one was owed before; without a refusal it does not fail and keeps the links |
| ChatDriver.Chat.Turn | examples/llm/chat.cpp:1735-2048 | a turn prints the plain greedy reply; a turn cut short by a fatal error has printed a prefix of it; with the links up it goes wrong exactly when a re-seed was owed and the prompt's first batched window crosses the context, and leaves a re-seed owed exactly as its exit and its prompt say; without a refusal it does not fail and keeps the links |
| ChatDriver.Chat.PromptValid | examples/llm/chat.cpp:1717-1727 | a prompt is refused exactly when some id is outside the vocabulary |
| ChatDriver.Chat.ReadLine | examples/llm/chat.cpp:1704-1733 | a blank line is skipped, a refused prompt prints only the end mark, any other line is a turn; with the links up, what the line loses and leaves owed is exact; without a refusal it does not fail and keeps the links |
| ChatDriver.Chat.ReadLines | examples/llm/chat.cpp:1701-2071 | the lines of the input in order: the transcript so far, and what every guard on the input is worth after them |
| ChatDriver.Chat.Converse | examples/llm/chat.cpp:1701-2071 | over every multi-turn run the output is the plain greedy transcript (a prefix of it when the run dies): always without links or re-seeding routes; while the links stay up, if every turn's first batched window fits, or if no turn that owes a re-seed meets one that does not. With the links and the chunk bucket kept, a run to the end is exact if and only if its turns' exits meet no such window; without speculation, if and only if the input alone does. A run none of whose requests was refused ends, keeps links and buckets, and prints the whole transcript unless the guard on the input fails |
| AppDecoder.Decoder.constructor | app-demo/native/vknn_jni.cpp:117-125 | a fresh decoder holds the empty conversation |
| AppDecoder.Decoder.Reset | app-demo/native/vknn_jni.cpp:1215-1228 | from any state, a reset starts an exact empty conversation |
| AppDecoder.Decoder.ResyncHostCache | app-demo/native/vknn_jni.cpp:223-262 | the host buffers become the resident cache with the pending row |
| AppDecoder.Decoder.RunLinked | app-demo/native/vknn_jni.cpp:280-303 | the linked run outputs the reference; a failed one that owed nothing leaves the logical cache |
| AppDecoder.Decoder.StepLinked | app-demo/native/vknn_jni.cpp:280-334 | the linked step; a failed run loses the conversation exactly when a rebind was owed to one already begun |
| AppDecoder.Decoder.StepHost | app-demo/native/vknn_jni.cpp:335-379 | the host step outputs the reference and folds into the clamped slot |
| AppDecoder.Decoder.FallBackToHost | app-demo/native/vknn_jni.cpp:304-319 | a link failure loses the conversation exactly when a rebind was owed to one already begun; a refused resync, exactly when one was owed or the host copy was true as well |
| AppDecoder.Decoder.Step | app-demo/native/vknn_jni.cpp:267-379 | linked and host decoders return the same logits at every position, past the context included; on every return the conversation is lost exactly when the step began linked on a conversation already begun and the links dropped with a rebind owed, or stayed up and the step failed with a rebind owed or the host copy true; without a refusal it succeeds and keeps the links |
| AppDecoder.Decoder.PrefillPass | app-demo/native/vknn_jni.cpp:386-475 | one window: reference logits and rows; a failure touches no live slot |
| AppDecoder.Decoder.PrefillWindows | app-demo/native/vknn_jni.cpp:502-510 | every window size |
| AppDecoder.Decoder.Prefill | app-demo/native/vknn_jni.cpp:481-522 | 0: all fed, reference logits; -2 exactly when no slot would remain, nothing changed; -1: a prefix is fed. With a bucket the conversation is lost exactly by a failure after a window had succeeded with no rebind owed; without one, exactly as the first token's step loses it or, with a rebind owed, when the links drop before any linked run. -1 only after a refusal |
| AppDecoder.FailedPrefillExact | app-demo/native/vknn_jni.cpp:502-511 | after a failed prefill the two copies stay coherent, for all contents, if and only if a rebind was already owed or nothing was fed |
| AppVlm.BuildMatrix | app-demo/native/vknn_jni.cpp:812-826 | the additive matrix shows row q the slots below p and the columns up to q, and nothing else |
| AppVlm.BuildPrompt | app-demo/native/vknn_jni.cpp:790-793 | padded ids, and positions clamped to the last real one |
| AppVlm.PromptIsSteps | app-demo/native/vknn_jni.cpp:762-765 | under that matrix a padded prompt computes the token-by-token outputs, whatever the pads |
| AppVlm.Vlm.Reset | app-demo/native/vknn_jni.cpp:1419-1431 | a reset starts an exact empty conversation from every state |
| AppVlm.Vlm.MaterializeDeviceCache | app-demo/native/vknn_jni.cpp:664-704 | the host buffers become the device cache with the pending row |
| AppVlm.Vlm.FoldPresent | app-demo/native/vknn_jni.cpp:707-734 | rows 0..n-1 go to slots startSlot..; a refusal touches only those slots |
| AppVlm.Vlm.BringToHost | app-demo/native/vknn_jni.cpp:777-789 | the turn boundary brings the device cache home and owes a rebind |
| AppVlm.Vlm.Prefill | app-demo/native/vknn_jni.cpp:766-875 | every return keeps one logical cache: 0 feeds the prompt with the reference logits, every error leaves the history; without a refusal -1 exactly for an empty prompt or one longer than the window |
| AppVlm.Vlm.RunDevice | app-demo/native/vknn_jni.cpp:897-915 | the linked run: the device holds the longer history and the output is the reference; a refused run leaves one logical cache |
| AppVlm.Vlm.StepLinked | app-demo/native/vknn_jni.cpp:897-921 | the linked step, with every early return |
| AppVlm.Vlm.StepHost | app-demo/native/vknn_jni.cpp:939-949 | the host step, with every early return |
| AppVlm.Vlm.DropLinks | app-demo/native/vknn_jni.cpp:922-937 | a mid-stream link failure loses nothing, also while a rebind is owed |
| AppVlm.Vlm.Step | app-demo/native/vknn_jni.cpp:878-959 | every return keeps one logical cache, a pending rebind implies the host copy is true, and the position stays below the last slot, so the slot clamp is never taken; without a refusal a step that has room succeeds and keeps the links |
| SsaRename.FreshInjective | tools/rebuild_onnx_from_dump.py:1485-1485 | unique names are injective in the original name and the node |
| SsaRename.BindInputs | tools/rebuild_onnx_from_dump.py:1478-1484 | each input is bound to its nearest producer |
| SsaRename.RenameTrace | tools/rebuild_onnx_from_dump.py:1475-1488 | the forward pass with its producers table computes the renamed trace |
| SsaRename.RecordOuts | tools/rebuild_onnx_from_dump.py:1626-1628 | a node's outputs become their names' newest producers |
| SsaRename.RenamingPreservesReads | tools/rebuild_onnx_from_dump.py:1426-1452 | at every node the renamed single-assignment trace reads the values the overwriting trace reads, when no read is captured: no name that stays itself is the unique name an earlier node emitted |
| SsaRename.RenamingExact | tools/rebuild_onnx_from_dump.py:1475-1491 | renaming keeps every read of every node, for all operators and all values of the roots, if and only if no read is captured |
| SsaRename.CaptureShows | tools/rebuild_onnx_from_dump.py:1485-1485 | every captured name reads different values in the two traces under one choice of operators and root values |
| SsaRename.NodeMirrors | tools/rebuild_onnx_from_dump.py:1475-1491 | renaming one node whose reads are not captured keeps the two environments mirrored, with no condition on how roots are spelled |
| SsaRename.RenamingPreservesOutputs | tools/rebuild_onnx_from_dump.py:1745-1751 | every declared output that is not captured has the same value through its last producer |
| SsaRename.OutputExact | tools/rebuild_onnx_from_dump.py:1745-1751 | a declared output keeps its value, for all operators and root values, if and only if it is not captured |
| SsaRename.RenamedSingleAssignment | tools/rebuild_onnx_from_dump.py:1485-1491 | two outputs get one unique name if and only if they are one name of one node, and a root is written if and only if it is spelled like that very unique name |
| SsaRename.PlainNamesNeeded | tools/rebuild_onnx_from_dump.py:1485-1485 | a concrete captured read: a trace whose input is spelled like a unique name reads the wrong value |
| PruneDead.TabulateProducers | tools/rebuild_onnx_from_dump.py:2410-2414 | the table gives each name its last producer, and no entry for the empty name |
| PruneDead.MarkLive | tools/rebuild_onnx_from_dump.py:2415-2425 | the worklist terminates and marks exactly the nodes from which an output is reachable |
| PruneDead.Prune | tools/rebuild_onnx_from_dump.py:2408-2426 | the result is the list, in order, of exactly the live nodes |
| PruneDead.ClosedLiveIsAll | tools/rebuild_onnx_from_dump.py:2417-2425 | the live nodes are the smallest set closed under producers of outputs and of kept inputs |
| PruneDead.PruningPreserves | tools/rebuild_onnx_from_dump.py:2426-2426 | running the kept nodes gives every name a kept node produces the value of the full run |
| PruneDead.PrunedOutputs | tools/rebuild_onnx_from_dump.py:2409-2409 | every declared output keeps its value, given single producers in order |
| PruneDead.RenamedAndPrunedOutputs | tools/rebuild_onnx_from_dump.py:1745-1751 | renaming and then pruning keeps every declared output of the original overwriting trace, when no read and not the output is captured |
| TraceReplay.Interp.Run | tools/rebuild_onnx_from_dump.py:271-285 | a folded value goes into both dictionaries, a shape into its own alone: the value that stood there stays |
| TraceReplay.Interp.ReplayAll | tools/rebuild_onnx_from_dump.py:1181-1187 | a replay runs every record but the constants, in order, on what the dictionaries already hold |
| TraceReplay.ReplayAfterExact | tools/rebuild_onnx_from_dump.py:1181-1187 | a replay made after another ends as it would have without it if and only if what the first leaves as the value of every output the second does not fold is what stood there before |
| TraceReplay.ReplayTwice | tools/rebuild_onnx_from_dump.py:1181-1187 | a second replay of the same edges changes nothing |
| TraceReplay.CarriedRunExact | tools/rebuild_onnx_from_dump.py:1055-1065 | every replay of a run of bindings ends as it would have from the memory the run began with if and only if no replay carries a value into the next |
| TraceReplay.InTurnExact | tools/rebuild_onnx_from_dump.py:1053-1061 | trying different bindings in turn finds a passing one whenever there is one, whatever is tested, if and only if no replay carries a value into the next |
| RepairBindings.BcastOk | tools/rebuild_onnx_from_dump.py:987-994 | the check holds if and only if the shapes broadcast, dimension by dimension from the right |
| RepairBindings.Concrete | tools/rebuild_onnx_from_dump.py:70-71 | a shape counts as known if and only if it is there and none of its sizes is a symbol |
| RepairBindings.OperandShapes | tools/rebuild_onnx_from_dump.py:1017-1019 | the operands' shapes are known if and only if every present operand's is, and are then exactly those, in order |
| RepairBindings.PresentInOrder | tools/rebuild_onnx_from_dump.py:1017-1017 | the present operands are the nonempty ones, in order, each as often as listed |
| RepairBindings.OthersInOrder | tools/rebuild_onnx_from_dump.py:1052-1052 | the alternatives of an edge are exactly the legal ones, in emission order |
| RepairBindings.CandidatesAreLatest | tools/rebuild_onnx_from_dump.py:1052-1053 | of the alternatives the last four are tried, or all when there are fewer, the latest first |
| RepairBindings.Candidates | tools/rebuild_onnx_from_dump.py:1051-1053 | every candidate is another producer of the edge's original name that precedes the reader |
| RepairBindings.Repair.TryEdge | tools/rebuild_onnx_from_dump.py:1053-1061 | one edge: its candidates in order, each judged in the memory the earlier trials left; the first that settles the clash stays, a failed one is undone on the edges and not in the memory |
| RepairBindings.AllReached | tools/rebuild_onnx_from_dump.py:1042-1064 | breadth-first order with a seen set visits every record within the depth bound above the clash, at its least depth |
| RepairBindings.TrialsExact | tools/rebuild_onnx_from_dump.py:1041-1064 | the trials of a search are exactly the candidates of the edges of the records within the depth bound above the clash |
| RepairBindings.Repair.TryNode | tools/rebuild_onnx_from_dump.py:1048-1064 | one visited record: its operands in order, each tried and then climbed |
| RepairBindings.Repair.TryFix | tools/rebuild_onnx_from_dump.py:1041-1066 | the search terminates and makes exactly the trials of the breadth-first list up to the first that settles the clash in the memory its forerunners left; True: that rewiring stays and the clash broadcasts in the memory left; False: every edge is as it was; and if no trial carries a value into the next, False if and only if no single rewiring within reach, replayed from the entry memory, settles the clash |
| RepairBindings.SearchRunExact | tools/rebuild_onnx_from_dump.py:1055-1065 | every trial of a search, and its last replay, ends as it would have from the entry memory if and only if none carries a value into the next |
| RepairBindings.TrialsInTurnExact | tools/rebuild_onnx_from_dump.py:1053-1061 | the trials made in turn find a rewiring whenever one exists, whatever it is tested for, if and only if none carries a value into the next, when no name lists a producer twice |
| RepairBindings.UndisturbedStops | tools/rebuild_onnx_from_dump.py:1041-1066 | such a search gives up if and only if nothing within reach settles the clash, and leaves the memory that replaying its final edges from the entry memory leaves |
| RepairBindings.StopsWithin | tools/rebuild_onnx_from_dump.py:1051-1060 | disturbed or not, what a search leaves is one allowed rewiring within reach or nothing, in topological order |
| StaleValues.GivesUpTooSoon | tools/rebuild_onnx_from_dump.py:279-285 | a trace of six records on which the search gives up although one rewiring it tried settles the clash from the same memory; the same edges then report five elements where they reported seven |
| RepairBindings.Repair.FindClash | tools/rebuild_onnx_from_dump.py:1010-1022 | the first record, not given up on, whose operands are known and do not broadcast in the interpreter's present memory |
| RepairBindings.Repair.RepairMisbindings | tools/rebuild_onnx_from_dump.py:1068-1081 | a run of rounds, each replaying the edges and searching the first clash in the memory it inherits, given up exactly when no trial passes; the trace stays topologically ordered and every rewired edge on a producer of its original name; it stops when no clash is left in the present memory or after the bound |
| RepairBindings.UndisturbedRound | tools/rebuild_onnx_from_dump.py:1068-1081 | a round whose trials carry nothing over gives its clash up if and only if no single rewiring within reach settles it, and then leaves edges and memory as its first replay left them |
| RepairBindings.RewiringKeepsOrder | tools/rebuild_onnx_from_dump.py:1052-1055 | a candidate keeps the topological order |
| RepairBindings.StopKeepsLegal | tools/rebuild_onnx_from_dump.py:1052-1060 | a search keeps every changed edge on a producer of its original name |
| MsgPack.DecodeExact | tools/cache_to_json.py:54-107 | the decoder returns a value ending at a position if and only if a legal encoding stands there, minimal or not and whatever follows, none of its map keys is an array or a map, and the value is what dictionaries make of it |
| MsgPack.DecodeSucceeds | tools/cache_to_json.py:54-55 | at a legal encoding the decoder succeeds if and only if no map key, at any depth, is an array or a map; the unhashable-key error is the only other outcome |
| MsgPack.DecodeKeeps | tools/cache_to_json.py:54-55 | it returns what the encoding says, entry by entry, if and only if the keys of every map are also pairwise different as dictionary keys |
| MsgPack.ContainerKeyRefused | tools/cache_to_json.py:54-55 | the legal document 81 90 C0 is refused |
| MsgPack.EqualKeysCollapse | tools/cache_to_json.py:54-55 | the legal document 82 01 C0 C3 C2 comes back as one entry, 1 to false |
| MsgPack.SignedIs | tools/cache_to_json.py:45-46 | a signed field is the one number of its range that agrees with its bytes modulo the range |
| MsgPack.UnsignedRead | tools/cache_to_json.py:89-90 | every integer below 2^8, 2^16, 2^32, 2^64 is read back from its unsigned format |
| MsgPack.SignedRead | tools/cache_to_json.py:91-92 | every integer of the four signed ranges is read back from its signed format |
| MsgPack.SmallRead | tools/cache_to_json.py:60-63 | a byte up to 7F is itself, one from E0 on is itself less 256 |
| MsgPack.OneKey | tools/cache_to_json.py:54-55 | 1, true and 1.0 in both widths are one key |
| MsgPack.KeyEqEquivalence | tools/cache_to_json.py:54-55 | key equality is an equivalence but for not-a-number; text, bytes and None equal only their own kind |
| MsgPack.PrefixFree | tools/cache_to_json.py:57-107 | no encoding is a proper prefix of another |
| MsgPack.RoundTrip | tools/cache_to_json.py:57-107 | a value of the subset has an encoding, and the decoder reads it back, stopping at its last byte, if and only if the keys of its maps are hashable and pairwise different |
| MsgPack.Unpacker.TakeRaw | tools/cache_to_json.py:35-40 | raw bytes or an error with the cursor unmoved |
| MsgPack.Unpacker.Items | tools/cache_to_json.py:51-52 | an array's reads agree with the document's items |
| MsgPack.Unpacker.Entries | tools/cache_to_json.py:54-55 | a map's entries are inserted one by one as a dictionary does, key before value, an unhashable key failing before the next entry is read |
| MsgPack.Unpacker.ReadItem | tools/cache_to_json.py:57-70 | the cursor decoder returns the decoded value and ends where it ends, or fails with the same error |
| MsgPack.Unpacker.ReadExtItem | tools/cache_to_json.py:72-107 | the same for the formats above 0xC0 |
| Numerals.HalfBits | include/vknn/dtype.h:71-108 | sign, exponent and fraction of the 16-bit format give the number, subnormals, infinities and not-a-number included |
| Numerals.HalfToFloat | include/vknn/dtype.h:71-108 | the widened pattern stands for the number the half stands for, for every half: signs, subnormals, infinities and not-a-number included |
| Numerals.SingleBits | tools/cache_to_json.py:85-86 | the same for the 32-bit format |
| Numerals.DoubleBits | tools/cache_to_json.py:87-88 | the same for the 64-bit format |
| Crc32.PolynomialBits | benchmark/benchmark.cpp:372-372 | bit 31 - e of the constant is set if and only if e is an exponent of the polynomial of section 3.4 of RFC 2083 |
| Crc32.TableStep | benchmark/benchmark.cpp:378-381 | a table lookup and an eight-place shift do the work of eight bit steps, for every register and byte |
| Crc32.BuildTable | benchmark/benchmark.cpp:367-375 | entry i is the register after eight shifts of i |
| Crc32.Crc32Of | benchmark/benchmark.cpp:362-383 | the table loop equals the bit-by-bit reflected division for every byte string and start value |
| Crc32.DivideSplit | benchmark/benchmark.cpp:362-362 | feeding two pieces through the start value is one pass over their concatenation |
| Png.BEBack | benchmark/benchmark.cpp:384-389 | four big-endian bytes give back the low 32 bits |
| Png.PackRows | benchmark/benchmark.cpp:405-411 | each row behind filter byte 0 |
| Png.StoreBlocks | benchmark/benchmark.cpp:416-428 | the block loop computes the stored form |
| Png.InflateStored | benchmark/benchmark.cpp:416-428 | inflating the blocks of nonempty data gives it back and stops at the first final block, with nothing of what follows taken (section 3.2.4 of RFC 1951) |
| Png.RunAdler | benchmark/benchmark.cpp:429-435 | the running sums, reduced at every byte, equal the closed form (section 8.2 of RFC 1950) |
| Png.ModulusIsLargestPrime | benchmark/benchmark.cpp:429-434 | the modulus of both sums is the largest prime below 65536 (section 8.2 of RFC 1950) |
| Png.ZlibRoundTrip | benchmark/benchmark.cpp:412-435 | the zlib stream gives the data back if and only if it is nonempty |
| Png.ZlibLength | benchmark/benchmark.cpp:412-435 | the stream has the length of the data, five bytes more for every started 65535, and six |
| Png.WriteChunk | benchmark/benchmark.cpp:390-402 | length, type, data and the check value over type and data |
| Png.ChunkRoundTrip | benchmark/benchmark.cpp:390-402 | a reader of section 3.2 of RFC 2083 gets a chunk back if and only if its size is below 2^31 |
| Png.WritePng | benchmark/benchmark.cpp:403-449 | the writer's loops compute the file |
| Png.EndCheck | benchmark/benchmark.cpp:390-402 | the check value of the last chunk is AE426082 |
| Png.FileFrame | benchmark/benchmark.cpp:437-449 | the signature, the header chunk's length, name and last five bytes, the data chunk's name and the whole last chunk, byte by byte |
| Png.PngRoundTrip | benchmark/benchmark.cpp:403-449 | a reader of RFC 2083 sees the pixels if and only if both dimensions are between 1 and 2^31-1, the channel count is 1, 3 or 4, and the stream, of a size computed from width, height and channels, is below 2^31 bytes |
| Npy.WriteHeader | benchmark/benchmark.cpp:292-306 | the dictionary text, padded so that preamble and header are a multiple of 64; the padding loop terminates |
| Npy.TupleText | benchmark/benchmark.cpp:292-297 | the shape text: a comma after a single dimension, comma and space between more |
| Npy.HeaderRoundTrip | benchmark/benchmark.cpp:130-152 | the loader's searches find in a written header its descriptor and its dimensions |
| Npy.WrappedHeader | benchmark/benchmark.cpp:345-356 | of a header too long for the length field the loader sees a front without the closing parenthesis, on which its searches run past the end |
| Npy.ScanShape | benchmark/benchmark.cpp:140-151 | the digit scan reads every maximal run of digits and nothing else |
| Npy.CountElements | benchmark/benchmark.cpp:153-161 | the element count is the product of the dimensions, and 0 for an empty shape |
| Npy.ElementRead | benchmark/benchmark.cpp:170-198 | under the descriptor the writer gives a type, the loader takes every element for the number its bytes stand for in that type |
| Npy.DescriptorLetters | benchmark/benchmark.cpp:165-169 | a bare descriptor means fp32, a second letter the kind, a third the width |
| Npy.RefusedExact | benchmark/benchmark.cpp:194-198 | a type is refused if and only if it cannot be read and there is an element to read |
| Npy.Convert | benchmark/benchmark.cpp:172-204 | the conversion loop returns every element, or stops at a type it cannot read |
| Npy.SaveNpyNative | benchmark/benchmark.cpp:337-359 | the written bytes |
| Npy.DataRead | benchmark/benchmark.cpp:153-204 | behind its header the data gives the tensor's numbers if and only if the shape has a dimension |
| Npy.NpyRoundTrip | benchmark/benchmark.cpp:97-205 | a tensor is loaded with its shape and with the numbers its typed elements stand for if and only if its shape has a dimension and its header fits the 16-bit length field |
| Layouts.EncodeDecodes | examples/io/zerocopy_cache.cpp:117-128 | every position has an index in bounds from which it can be read off: injective in all three layouts |
| Layouts.DecodeEncodes | examples/io/zerocopy_cache.cpp:117-128 | every index is some position's, except NC4HW4 padding lanes, which are no position's: a bijection for NCHW and NHWC |
| Layouts.ExtentIsElems | include/vknn/nchw.h:71-73 | the bound is the element count of the format |
| Layouts.PackDecl | examples/io/zerocopy_cache.cpp:133-167 | the buffer holds each position's value at its index and zero in every padding lane; bytes past it are untouched |
| Layouts.UnpackDecl | examples/io/zerocopy_cache.cpp:169-186 | the tensor read back, element by element |
| Layouts.PackThenUnpack | examples/io/zerocopy_cache.cpp:133-186 | unpacking after packing is the identity |
| Layouts.UnpackThenPack | examples/io/zerocopy_cache.cpp:133-186 | packing after unpacking is the identity if and only if the padding lanes are zero |

## Left out

- Vulkan, JNI, memory mapping, file access, timing and command-line handling: foreign calls and I/O. A session is the abstract run of engine.dfy and its answers; what a refused readback or run leaves behind is nondeterministic.
- Floating-point numerics and fp16 conversion: rows are uninterpreted, logits are reals.
- Temperature, top-k and top-p sampling and the random generator: speculation and chains are greedy only, so the greedy path is modelled alone.
- The buckets' start-up validation: the driver takes its outcome as the configuration (`ChatConfig.Config.Valid`).
- Machine integer widths of positions, counts and dimensions: unbounded, except where a field is written to a file or a byte.
- Image splicing and vision encoding of the vision-language decoder: only ids, position and cache are kept.
- `DraftDecoder::reset`: it only empties the cache.
- The rank-aware override in `bind` (tools/rebuild_onnx_from_dump.py:1441-1451) and the value-guessing repairs: they change the meaning on purpose.
- The mirrored edge on the ONNX node in `rewire`, and log lines of the rebinding search.
- The NCHW view of a shape of another rank (include/vknn/nchw.h:18-60): layouts start from the four dimensions.
- Pixel normalisation before the PNG writer, and the file signature of other formats.
- ONNX import, graph passes, quantization, bucket planning, shaders and the rasterizer.
- UTF-8 decoding with replacement: a parameter of the MessagePack decoder, used only to compare text keys. The key of an entry is read before its value, as Python does from version 3.8. The conversion to JSON is not modelled.
- Layers and the key/value split: a row stands for all of them at one slot; `HostFold` proves the head and row loops of one layer on flat buffers. A readback or fold that stops half-way leaves arbitrary host rows where the code could have mixed old and new layers. The members this concerns follow.
- ChatDriver.Chat.SyncResidentToHost: one assignment of rows stands for the layer loop around `HostFold.FoldBlocks`.
- ChatDriver.Chat.SyncChunkResidentToHost: the same, around `HostFold.FoldBlocks` with the last chunk's rows.
- ChatDriver.Chat.SyncSpecResidentToHost: the same, with the last round's accepted rows.
- AppDecoder.Decoder.ResyncHostCache: the same, with the pending row.
- AppVlm.Vlm.MaterializeDeviceCache: the same, with the pending row.
- AppVlm.Vlm.FoldPresent: one assignment of rows stands for the layer loop around `HostFold.FoldRowByRow`.
- AppVlm.Vlm.StepHost: the fold reads the present at a stride of one row per head, so the decoder is modelled with a decode present of one row; `HostFold.StrideOneExact` shows that is exactly when the code folds the right row.
- ChatDriver.Chat.Converse: when a link fails in mid-run the loss is stated per step (`Step`, `ChainStep`), not on the input, since it depends on which call fails.
- ChatDriver.Chat.ChunkedPrefillTurn: the code restores position and host rows but a failed readback may have rewritten host slots past the position; the contract keeps the live slots only, as the code does.
- Npy.NpyRoundTrip: the loader's numbers are exact; their rounding to fp32 is not modelled.
- RepairBindings.Repair.TryFix: without the condition on carried values the False half is not promised, since the code does not keep it; what each operator folds or infers is an arbitrary function of its operands' values and shapes, and an operator that raises is not modelled.
- MsgPack.DecodeSucceeds: the interpreter's recursion limit, which a document of some thousand nested containers meets, is not modelled.
