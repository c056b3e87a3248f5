# Verification of the Harkonnen coordination and memory cores

This project models the stateful and algorithmic cores of Harkonnen Labs in Dafny and proves properties of the
models. `dafny verify dfyconfig.toml` checks everything. Nothing was executed: what is proved is proved of the model,
which keeps the branches, edge cases and constants of the cited lines.

The parts, with their files:

- **Keeper coordination** (`Keeper`, `KeeperSafety`, `KeeperProtocol`, `KeeperSerial`, `KeeperRace`, `KeeperLease`,
  `KeeperLife`).
  Agents claim files, heartbeat, go stale, are reaped and release, all on one unlocked file.
  `KeeperStore.Coordination` holds the file and the handlers as methods; `KeeperProtocol` splits each handler into its
  read, its two writes and its decision and lets any number of them interleave; `KeeperSerial` says when such a run is
  one of whole handlers, one after another; `KeeperRace` follows two conflicting claims through every schedule;
  `KeeperLife` says of each request, in the fields of the request and of the stored file, what it leaves and what a
  later lease check answers.
  Mason's workspace lease, which writes the same file from the orchestrator, is part of the model.
- **PackChat replica and memory candidates** (`PackChat`, `PackChatReplay`, `MemoryCandidates`, `CandidateBatch`).
  Replay of bus events into the three tables, the candidates' status machine interleaved with replays and operators,
  and the processing loop with its reconsolidation marks and its duplicate check.
- **PackChat prompt** (`Retrieval`, `Excerpt`, `History`, `HistoryRelevance`, `Prompt`, `Reply`). Tokens and terms,
  excerpts, greedy history selection and what a match with the query is worth in it, merging into turns, and the retry
  loop with shrinking budgets.
- **JSON extraction** (`JsonExtract`, `JsonGrammar`, `JsonExtractProofs`). The brace-matching scanner against derivation trees of the
  grammar of RFC 8259, sections 2, 4, 5, 6 and 7.
- **Marked blocks** (`MarkedBlock`, `MarkedBlockProofs`) and **project discovery** (`ManifestScan`, `ManifestAntichain`, `ProjectScan`) of the pack writer.
- **Calvin write queue** (`WriteQueue`, `WriteQueueRuns`). Rows, drains, backoff, and any number of workers.
- **Embeddings** (`Embeddings`) and **Coobie's patrol** (`Palace`, `PalaceLaws`).

`Basics`, `Text` and `Sorting` are shared vocabulary. Instants are integers, strings are sequences of characters.

## Where the code keeps less than it says

Each of these has a lemma saying exactly when the promise holds, or a concrete state in which it fails.

- Exclusive file ownership survives every interleaving of the HTTP handlers, but not Mason's workspace claim, which passes over stale and
  expired holders without removing them. The whole handler keeps it exactly unless a holder it passes over has that very path
  (`MasonHandledIsExclusiveExactly`); from a missing file, two handlers break it (`MasonOverridesExactly`, `MasonBreaksExclusivity`).
- The *answers* are not exclusive either. In every schedule of two conflicting claims both are granted if and only if
  some write finds a file its request has not seen (`BothGrantedExactlyWhenUpdateIsLost`); reading both before either
  writes is such a schedule (`RaceGrantsBoth`), and no serial order of the two explains it (`RaceIsNotSerial`). Runs
  that lose no update are serial runs of their own requests, answers included (`CleanRunIsSerial`).
- `normalize_assignment` reports a change whenever the heartbeat is blank, also when the claim stays as it was, so a claim with both times
  blank has the file rewritten on every load (`ChangeIsReportedExactly`).
- The ingest path is documented as idempotent under replay. That holds of threads, messages and candidates, and of `updated_at` exactly
  when each thread's last appended message in the replayed part has the time of its last appended message of all
  (`SegmentReplay`, `PrefixReplayTurnsBack`).
- `update_memory_candidate_processing` does not look at the current status, so a candidate discarded between listing and processing
  comes back (`DiscardedLeavesExactlyWhen`, `StaleListingRevives`).
- For the same reason two overlapping processing batches can take a captured candidate back, after which it can be
  discarded without reconsolidation (`KeptLeavesExactlyWhen`, `DiscardedUnmarkedExactly`,
  `OverlappingBatchesLoseACapture`). Where every processing step finds its row still listed, this cannot happen
  (`DiscardedOnlyAfterReconsolidation`), and an uninterrupted batch is such a run (`BatchIsGuarded`).
- The duplicate check before a capture is a separate query, so two overlapping batches can capture one dedupe key
  twice (`OverlappingChecksCaptureTwice`). Captured keys stay distinct exactly as long as no step stores a candidate
  beside a captured one with its key (`DistinctThroughoutExactly`), as when no other candidate is processed between a
  check and its update (`CapturesStayDistinct`).
- `mark_calvin_write_retry` does not look at the current status either: with two workers a confirmed write becomes pending
  again (`ConfirmedLeavesExactlyWhen`, `TwoWorkersUnconfirm`). One loop at a time is safe.
- The marked-block merge is idempotent exactly when the existing text has no marker or its first end marker follows its first start marker
  (`IdempotentExactlyInOrder`). With a lone start marker the second merge swallows text and is the last to change
  anything (`StartOnlyShrinks`, `StartOnlySettles`); with an end marker in front every merge adds one more section
  (`EveryMergeAddsASection`).
- `has_ancestor_manifest` accepts a *directory* of the manifest's name, which hides the projects below it that have
  no real manifest above them (`CoveredExactly`, `DecoyExample`).
- `check_lease` answers by the first covering claim in map order, so a directory shared by two agents is answered both ways
  (`RefusedInEveryOrderExactly`, `SharedDirectoryIsAnsweredBothWays`). A claimed path is answered one way exactly when no other agent holds a path
  above or below it (`ClaimedPathHasOneHolderExactly`).
- `patch_weight` is documented as 1.0 when every den is escalated; it is 1 exactly when every *active* den has a streak of five, or is escalated
  with a streak of four (`PatchWeightBounds`). One escalated cause with a streak of three gives 0.8 (`EscalatedPatchBelowOne`).
- `active_residents` is documented as counting distinct causes. It counts list entries, which is the same exactly when no cause of the den stands
  in the list twice (`ResidentsAreDistinctExactly`, `RepeatedCauseCountsTwice`). The one caller (src/orchestrator.rs:5565) builds its list without repetitions.

## Model

| member | source | states |
|---|---|---|
| KeeperStore.NormalizeAssignment | src/api.rs:6260-6283 | one claim gets its defaults and its stale mark; `changed` is set when the heartbeat was blank or the status is another one |
| KeeperStore.NormalizeEntries | src/api.rs:6310-6331 | the loop in any map order normalizes every claim and reports a change exactly when some claim needed one |
| KeeperStore.Coordination.NormalizeAssignments | src/api.rs:6285-6343 | the loaded state comes back normalized, and the file is rewritten only when something changed |
| KeeperStore.Coordination.EnsureAssignmentsState | src/api.rs:6345-6348 | a missing file starts as the default state; returns the normalized state and leaves the file as one whole inspection does |
| KeeperStore.ReapStale | src/api.rs:6505-6523 | the stale owners of requested files leave the map, and no one else |
| KeeperStore.FindBlocker | src/api.rs:6549-6588 | whatever the map order, an owner is found exactly when a live other owner holds a requested file |
| KeeperStore.Coordination.ClaimTask | src/api.rs:6493-6639 | a claim is granted exactly when no live other owner holds a requested file; a refusal names such an owner and precisely the shared files in request order; the file ends as in the interleaved model, which GrantMeans spells out |
| KeeperStore.Coordination.HeartbeatTask | src/api.rs:6750-6793 | a heartbeat is answered found exactly for agents with a claim, and refreshes that claim |
| KeeperStore.Coordination.ReleaseTask | src/api.rs:6795-6829 | a release removes the agent's claim from the normalized file |
| KeeperSafety.NormalizedIsSound | src/api.rs:6285-6343 | normalizing keeps file sets disjoint and keys equal to their agents |
| KeeperSafety.UnsavedIsUnchanged | src/api.rs:6333-6336 | the save is skipped only when normalizing changed nothing at all |
| KeeperSafety.NormalizingTwice | src/api.rs:6260-6343 | normalizing at one instant is idempotent |
| KeeperSafety.ChangeIsReportedExactly | src/api.rs:6260-6283 | a normalized claim differs from the stored one if and only if a change is reported and not just for two blank times |
| KeeperSafety.GrantOverlapsNothing | src/api.rs:6549-6617 | a granted claim overlaps no other entry left in the file, stale ones included |
| KeeperSafety.ClaimIsSound | src/api.rs:6493-6639 | a granted claim keeps exclusive ownership |
| KeeperSafety.DecisionIsSound | src/api.rs:6493-6829 | every request's write keeps exclusive ownership, Mason's unless it shadows a passed-over holder |
| KeeperSafety.MasonGrantIsExclusiveExactly | src/orchestrator.rs:15144-15287 | Mason's granted workspace keeps exclusive ownership if and only if no passed-over holder has that very path |
| KeeperSafety.MasonHandledIsExclusiveExactly | src/orchestrator.rs:15144-15287 | the same for the whole handler on the stored file, which normalizes before it decides |
| KeeperSafety.MasonOverridesExactly | src/orchestrator.rs:15144-15287 | over any sound file, the path another agent holds ends up held twice if and only if Mason is granted although that agent is silent for the limit or its lease has run out |
| KeeperSafety.MasonBreaksExclusivity | src/orchestrator.rs:15170-15187 | from a missing file, a claim and then Mason's claim leave one path held twice, with the holder silent for ten minutes and with its lease run out |
| KeeperSafety.BlockedClaimOnlyNormalizes | src/api.rs:6549-6588 | a blocked claim leaves the stored claims exactly as normalized |
| KeeperSafety.EntryLeavesExactlyWhen | src/api.rs:6507-6523 | a claim disappears exactly by its own release or by a takeover, and a takeover needs a heartbeat at least stale_after_seconds old |
| KeeperSafety.HeartbeatsKeepFiles | src/api.rs:6260-6283 | in every run of whole handlers, an agent that heartbeats more often than the limit never loses its files |
| KeeperSafety.StaleExactlyFromTheLimit | src/api.rs:6273-6279 | counting whole seconds makes a claim stale exactly from the limit on |
| KeeperProtocol.StepIsSound | src/api.rs:6285-6829 | every single read, decision or write step keeps the file and all private copies exclusive |
| KeeperProtocol.EveryInterleavingIsExclusive | src/api.rs:6285-6829 | over every interleaving of any number of requests the stored map has disjoint file sets and its own keys |
| KeeperProtocol.HttpRunsAreExclusive | src/api.rs:6493-6829 | with HTTP requests only, this needs no further condition |
| KeeperSerial.CleanWriteIsAtomic | src/api.rs:6285-6343 | a write whose file was not touched since its read does what its own request's whole handler, with its clock readings, would do at that point; no other step changes the file |
| KeeperSerial.CleanRunIsSerial | src/api.rs:6493-6829 | an interleaving without lost updates is a serial run of its own requests: same file, every finished request and every saved normalization exactly once with its own clock readings, each finding the copy it worked on and giving the answer it gave |
| KeeperSerial.AnswerAt | src/api.rs:6493-6829 | at its place in the serial order each request starts from the file the earlier ones leave |
| KeeperSerial.SerialOrderKeepsTime | src/api.rs:6493-6829 | a request answered before another arrives comes before it in the serial order |
| KeeperSerial.CleanRunsKeepFiles | src/api.rs:6260-6283 | in every interleaving that loses no update, an agent whose heartbeats take effect in time still has its files at the end |
| KeeperRace.BothGrantedExactlyWhenUpdateIsLost | src/api.rs:6493-6639 | in every schedule of two conflicting claims, both are granted if and only if some write finds a file its request has not seen |
| KeeperRace.RaceIsNotSerial | src/api.rs:6493-6639 | the overlapping race loses an update, and in either serial order the second claim would be refused though both were granted |
| KeeperProtocol.RaceGrantsBoth | src/api.rs:6493-6639 | two racing claims are both granted whatever they ask for, and the first one's entry is lost |
| KeeperProtocol.SerialGrantsExactlyDisjoint | src/api.rs:6493-6639 | one after the other, the second is granted exactly when it asks for none of the first one's files |
| KeeperLease.CheckLease | src/api.rs:6646-6748 | the answer is the verdict of some covering claim, or of none when there is none |
| KeeperLease.ViolationsMeans | src/api.rs:6711-6721 | the violations found are exactly the holder's guardrails the action breaks, for every way of folding letter case |
| KeeperLease.RefusedInEveryOrderExactly | src/api.rs:6659-6721 | a held resource is refused under every map order exactly when no covering claim would admit the request |
| KeeperLease.SharedDirectoryIsAnsweredBothWays | src/api.rs:6659-6664 | even over an exclusive file, map order alone can decide the answer |
| KeeperLease.ClaimedPathHasOneHolderExactly | src/api.rs:6659-6664 | over an exclusive file a claimed path is answered by its own holder in every map order if and only if no other agent holds a path above or below it |
| KeeperLease.UnnestedPathIsAnsweredOneWay | src/api.rs:6659-6721 | there the check allows exactly expired leases and the holder within its guardrails |
| KeeperLife.InspectionMeans | src/api.rs:6260-6348 | every inspection fills in blank heartbeats and header fields, sets each status by the time since the last readable sign of life, and changes nothing else |
| KeeperLife.InspectionSavesExactlyWhen | src/api.rs:6285-6343 | the file is rewritten, with a new date, if and only if something in it is missing or out of date |
| KeeperLife.GrantedExactlyWhenFree | src/api.rs:6505-6588 | a claim is refused if and only if another agent with a sign of life within the limit holds a requested file, and only such agents are named |
| KeeperLife.GrantMeans | src/api.rs:6505-6617 | after a grant the file holds the new claim in the request's own fields, with its end counted from the grant, and of the others exactly those that hold no requested file |
| KeeperLife.AnswerCheck | src/api.rs:6646-6748 | the check inspects the file and answers from the inspected claims |
| KeeperLife.CheckMeans | src/api.rs:6659-6721 | for a held path nobody else's path touches: others are refused while the lease runs and let through afterwards; the holder is let through exactly when its action mentions every required keyword, and the answer lists exactly the unmet requirements |
| KeeperLife.LeaseGuardsUntilItEnds | src/api.rs:6596-6721 | a claim and a later check together: another agent is refused if and only if the claim has no end or its seconds since the grant are not over, and until then the holder is bound by exactly the guardrails it asked for |
| KeeperLife.HeartbeatMeans | src/api.rs:6750-6793 | a heartbeat renews the agent's own claim and inspects the others; without a claim it is an inspection |
| KeeperLife.ReleaseMeans | src/api.rs:6795-6829 | a release takes exactly the agent's own claim out of the inspected file |
| KeeperLife.MasonReleaseMeans | src/orchestrator.rs:15289-15296 | Mason's release is a release of its claim, and an inspection when it has none |
| KeeperLife.MasonIsGrantedExactlyWhen | src/orchestrator.rs:15144-15287 | Mason is granted if and only if it holds no live claim with files and no live, running claim touches the prefix; the grant adds its lease and changes nothing else |
| KeeperStore.SharedConcat | src/api.rs:6553-6557 | the shared files of a refusal keep the order and the repetitions of the request |
| PackChat.PackChatStore.IngestWireEnvelope | src/chat.rs:730-744 | dispatch by event kind, with the three tables as the replay model has them |
| PackChat.PackChatStore.IngestRemoteMessage | src/chat.rs:790-829 | the first message row wins, the thread is touched, and a candidate is captured |
| PackChat.PackChatStore.CaptureMemoryCandidate | src/chat.rs:1239-1309 | a candidate row is added once per event and per source event |
| PackChat.PackChatStore.MarkNeedsReconsolidation | src/chat.rs:1098-1161 | only another, settled candidate is marked, and the answer says whether it was |
| PackChatReplay.IngestGrows | src/chat.rs:746-829 | ingesting keeps every row, leaves existing candidates alone and absorbs the event |
| PackChatReplay.ReplayAbsorbs | src/chat.rs:725-744 | after replaying a log every event in it is absorbed |
| PackChatReplay.ThreadsAfterReplay | src/chat.rs:746-829 | after any log a thread has the row it had, or the fields of the first event naming it with their defaults, and the time of its last message |
| PackChatReplay.MessagesAfterReplay | src/chat.rs:790-816 | after any log a message is as it was, or has the content, role and origin that the first event appending it gives, with their defaults |
| PackChatReplay.CandidatesAfterReplay | src/chat.rs:1239-1309 | after any log old candidates are unchanged, each new one was captured from an event of the log under its message's id, every non-blank message has a candidate of its own or under its id, and no two candidates come from one event |
| PackChatReplay.UpdatedAtLastTouch | src/chat.rs:818-826 | a thread's updated_at is the time of its last appended message in the log |
| PackChatReplay.SegmentReplay | src/chat.rs:725-829 | replaying any part of a log again keeps messages and candidates, and keeps everything exactly when the last touches agree |
| PackChatReplay.SuffixReplayIsIdempotent | src/chat.rs:725-829 | replaying a log and then any suffix of it is replaying it once, updated_at included |
| PackChatReplay.PrefixReplayTurnsBack | src/chat.rs:818-826 | redelivering only the earlier of two messages changes the replica |
| MemoryCandidates.ReplayDuringProcessing | src/chat.rs:1239-1309 | whatever processing did since, replaying an event changes no candidate and no message, and of its thread's row only updated_at |
| MemoryCandidates.NeverCleared | src/chat.rs:1061-1096 | no run of operations clears an openbrain_ref or a distilled_content |
| MemoryCandidates.ProcessingMeans | src/orchestrator.rs:17289-17454 | what one processing step leaves in each field of its row, from the row as listed and the answers alone |
| MemoryCandidates.OperationsMean | src/chat.rs:1098-1237 | marking, approving and discarding change one row each, from exactly the statuses their statements list |
| MemoryCandidates.DiscardedLeavesExactlyWhen | src/chat.rs:1061-1096 | a discarded row changes status in one way only, an unguarded processing step |
| MemoryCandidates.DiscardedIsFinal | src/chat.rs:1220-1237 | discarded is absorbing over every run that processes listed rows |
| MemoryCandidates.KeptLeavesExactlyWhen | src/chat.rs:1061-1096 | a captured or promoted row leaves for anything but needs_reconsolidation if and only if a processing step of that row neither stores nor promotes it |
| MemoryCandidates.DiscardedOnlyAfterLeaving | src/chat.rs:1098-1237 | in every run a captured or promoted candidate that ends up discarded was first marked for reconsolidation or overwritten by a processing step |
| MemoryCandidates.DiscardedUnmarkedExactly | src/chat.rs:1061-1237 | after any run that leaves a row captured or promoted, one more operation and a discard end in an unmarked discarded row if and only if the operation overwrites the row |
| MemoryCandidates.OverlappingBatchesLoseACapture | src/orchestrator.rs:17273-17458 | two batches that list one candidate, the first storing it and the second failing to, let it be discarded without reconsolidation |
| MemoryCandidates.ApprovalReleasesExactlyTheHeld | src/chat.rs:1197-1218 | approval puts exactly the run's held candidates on the list, and processing does not hold them again |
| MemoryCandidates.DiscardTakesExactlyTheOpen | src/chat.rs:1220-1237 | a discard takes exactly the run's candidates that are neither captured nor promoted, and takes them off the list |
| MemoryCandidates.BatchIsGuarded | src/orchestrator.rs:17273-17458 | a processing batch no operator interrupts finds every row still listed |
| MemoryCandidates.StaleListingRevives | src/orchestrator.rs:17283-17310 | a discard between listing and processing is undone whatever the outcome |
| CandidateBatch.Perform | src/chat.rs:1061-1237 | every operation of a run is a call on the store, whose tables then hold what the run says |
| CandidateBatch.ProcessCandidate | src/orchestrator.rs:17298-17454 | the branches on sensitivity, retention, duplicate and outside answers end in one update and one count each |
| CandidateBatch.ApplyTriggers | src/orchestrator.rs:17481-17512 | in any order of targets, exactly the settled rows a candidate names, by id or by source event, are marked |
| CandidateBatch.ProcessMemoryCandidates | src/orchestrator.rs:17273-17458 | a batch is a run of marks and of one processing step for each of its rows, with that row as listed, its own answers and a fresh duplicate check; each row is counted once; distinct captured keys stay distinct |
| CandidateBatch.EveryOutcomeIsCounted | src/orchestrator.rs:17283-17458 | the six outcome counts of the summary add up to the candidates processed |
| CandidateBatch.SummaryMeans | src/orchestrator.rs:17283-17454 | which outcomes each number of the summary counts; those waiting for Open Brain are among the held |
| CandidateBatch.ReconsolidationMeans | src/orchestrator.rs:17482-17512 | exactly the other settled rows named by id or source event become needs_reconsolidation |
| CandidateBatch.DistinctExactly | src/orchestrator.rs:17460-17480 | one step keeps captured dedupe keys distinct if and only if it does not store a candidate beside a captured one with its key |
| CandidateBatch.DistinctThroughoutExactly | src/orchestrator.rs:17460-17480 | the same at every point of any run of operations |
| CandidateBatch.CapturesStayDistinct | src/orchestrator.rs:17460-17480 | while no candidate is processed between another one and its duplicate check, no two captured rows share a dedupe key, whatever is replayed, marked, approved or discarded |
| CandidateBatch.OverlappingChecksCaptureTwice | src/orchestrator.rs:17315-17370 | two batches that both check before either stores capture one key twice |
| Retrieval.NormalizeRetrievalText | src/chat.rs:2089-2109 | the character loop computes splitting on non-alphanumerics, lower-casing and joining with single spaces |
| Retrieval.NormalizedSplits | src/chat.rs:2089-2109 | splitting the normalized text on blanks gives back its tokens |
| Retrieval.NormalizingIsIdempotent | src/chat.rs:2089-2109 | normalizing twice is normalizing once |
| Retrieval.TokensApart | src/chat.rs:2089-2109 | text on both sides of any character that is no ASCII letter or digit gives its tokens side by side |
| Retrieval.TokensOfWord | src/chat.rs:2089-2109 | letters and digits in a row are one token, in small letters |
| Retrieval.SameKeyExactly | src/chat.rs:2317-2323 | two contents share a dedupe key exactly when their first 80 tokens agree |
| Retrieval.DedupeKeyMeans | src/chat.rs:2317-2323 | the dedupe key is the text of the first 80 tokens |
| Retrieval.RetrievalTerms | src/chat.rs:2070-2087 | the loop over the tokens collects the term list |
| Retrieval.TermsMean | src/chat.rs:2070-2087 | the terms are the distinct tokens of at least three characters that are no stopword |
| Excerpt.CompactHistoryMessage | src/chat.rs:2111-2152 | the excerpt is the whole text, the window around the earliest match, or head and tail |
| Excerpt.EarliestMeans | src/chat.rs:2117-2126 | the chosen position is an occurrence of some term and no term occurs before it |
| Excerpt.CompactedLength | src/chat.rs:2111-2152 | an excerpt has at most max_chars + 6 characters, and at most max_chars without a match once max_chars is 5 or more |
| Excerpt.ShownByItsEnds | src/chat.rs:2145-2152 | a longer text without a match is its first half of the budget, an ellipsis and its end |
| Excerpt.ShownAroundFirst | src/chat.rs:2117-2143 | a longer text with a match is the window of the budget's length, a quarter of it before the first place of any term |
| Excerpt.ShowsMatch | src/chat.rs:2128-2143 | a matched term that fits three quarters of the window is inside the excerpt |
| History.TrimSelectedHistoryToBudget | src/chat.rs:1958-2007 | sort, greedy walk and re-sort return the kept messages in original order |
| History.SelectRelevantHistory | src/chat.rs:1909-1956 | short histories are kept whole; otherwise top scores with neighbours and recent messages are trimmed to the budget |
| History.TopScoredMeans | src/chat.rs:1927-1941 | at most ten messages with a positive score count as scored, and one left out ranks behind all ten |
| History.SelectionMeans | src/chat.rs:1919-1947 | a message becomes a candidate exactly when it is one of the last six or next to a scored one |
| History.GreedyIsMaximal | src/chat.rs:1984-1999 | the walk keeps its first candidate, exceeds the budget only with that one, and every rejected candidate would overflow the final total |
| History.TrimmingMeans | src/chat.rs:1958-2007 | the kept messages contain the top-priority candidate, cost at most the budget unless it is alone, and are maximal |
| HistoryRelevance.ScoreMeans | src/chat.rs:2009-2040 | a message with any word scores 18 for every term of the query it mentions, plus 80, 6, 14 and 4 for the whole query, the operator, a stated fact and "remember" |
| HistoryRelevance.MatchesDecide | src/chat.rs:2009-2040 | alike messages differ by 18 for each term matched, and six terms more outweigh everything else |
| HistoryRelevance.MatchIsCandidate | src/chat.rs:1919-1947 | a message that mentions a term is a candidate however old it is, unless ten others outrank it, each mentioning at most five terms fewer, or none fewer when alike |
| HistoryRelevance.RecentGoFirst | src/chat.rs:1966-1980 | one of the last six messages goes before any older one that mentions fewer than 49 terms |
| HistoryRelevance.LongHistoryIsCut | src/chat.rs:1909-2007 | more than eight messages are cut to candidates, never to nothing, within the budget unless just one is left, and no candidate left out would have fitted |
| HistoryRelevance.ShortHistoryIsWhole | src/chat.rs:1915-1917 | a history of at most eight messages is kept whole |
| History.SubHistoryMeans | src/chat.rs:2002-2006 | the kept messages are those at the kept positions, each once and in order |
| Prompt.AssemblePrompt | src/chat.rs:1778-1847 | the prompt built step by step is the one described by turns and parts |
| Prompt.MergeTurns | src/chat.rs:1790-1820 | the loop over the messages merges consecutive ones of a role and sets leading assistant messages aside |
| Prompt.PromptIsWellFormed | src/chat.rs:1790-1847 | one system message, then user and assistant strictly alternating, user first and last |
| Prompt.PromptShowsEverything | src/chat.rs:1760-1847 | the finished prompt from the history alone: from the first operator message on every kept message's excerpt and then the trimmed request, in order, each under its own role; before that one compacted piece of the system text, whose other parts are given |
| Prompt.LeadingContextFits | src/chat.rs:1823-1831 | that piece is whole when it fits the assistant budget and never more than six characters over it |
| Prompt.ContentIsJoin | src/chat.rs:1806-1814 | a merged message shows its parts joined by blank lines |
| Reply.RetryShrinks | src/chat.rs:1858-1890 | a retry stays above the three minima and takes strictly less in total, or nothing is left to take |
| Reply.FourAttempts | src/chat.rs:130-138 | the budgets reachable from the initial ones are these four, and no others |
| Reply.RetryWithSmallerBudgets | src/chat.rs:1773-1890 | at most four provider calls, each on the prompt assembled for its budgets and after an overflow of the one before; the answer is that of the first call that did not overflow |
| Reply.CompleteAgentReply | src/chat.rs:1746-1891 | the same from a thread's history: the prompts are those of the history without its last message, which is the one being answered |
| Reply.BudgetHoldsAtEveryAttempt | src/chat.rs:1909-2007 | at every attempt, short history or long, the excerpts with their overhead fit the history budget |
| JsonExtract.ExtractJsonObject | scripts/tau2_harkonnen_agent.py:335-366 | returns the shortest prefix from the first brace whose out-of-string braces balance, and nothing when there is none |
| JsonExtract.ScanObject | scripts/tau2_harkonnen_agent.py:345-366 | the depth, string and escape loop finds the shortest balanced prefix |
| JsonExtract.ShortestIsUnique | scripts/tau2_harkonnen_agent.py:362-365 | there is at most one such prefix |
| JsonExtractProofs.ValueIsNeutral | scripts/tau2_harkonnen_agent.py:348-365 | over any JSON value the scanner never drops below its depth and ends where it began |
| JsonExtractProofs.ObjectIsShortest | scripts/tau2_harkonnen_agent.py:348-365 | a JSON object's own text is the shortest balanced prefix, whatever follows |
| JsonExtractProofs.UnfencedKeepsObject | scripts/tau2_harkonnen_agent.py:336-339 | stripping and unfencing never touch a brace-to-brace text |
| JsonExtractProofs.ExtractsEveryObject | scripts/tau2_harkonnen_agent.py:335-366 | for every JSON object, every prefix without an opening brace and every suffix, exactly the object is returned |
| JsonExtractProofs.ExtractionMeans | scripts/tau2_harkonnen_agent.py:335-366 | said of the reply itself: r is returned if and only if it starts at the first brace and is the shortest balanced piece from there |
| MarkedBlock.UpsertMarkedBlock | src/claude_pack.rs:1700-1723 | the pushes into the merged string compute the merge described piecewise |
| MarkedBlock.LabPackIsMarkerPair | src/claude_pack.rs:14-15 | the two literal markers are distinct comment markers that cannot overlap each other |
| MarkedBlockProofs.SectionShape | src/claude_pack.rs:1013-1046 | a generated section is well shaped exactly when its body does not contain the end marker |
| MarkedBlockProofs.IdempotentExactlyInOrder | src/claude_pack.rs:1700-1723 | merging twice equals merging once if and only if there is no marker or the first end marker follows the first start marker |
| MarkedBlockProofs.FileSettlesExactlyInOrder | src/claude_pack.rs:1684-1698 | the same for the file, which may not exist yet |
| MarkedBlockProofs.StartOnlyShrinks | src/claude_pack.rs:1700-1723 | with only a start marker the second merge swallows text |
| MarkedBlockProofs.StartOnlySettles | src/claude_pack.rs:1700-1723 | with only a start marker the third merge changes nothing any more |
| MarkedBlockProofs.EveryMergeAddsASection | src/claude_pack.rs:1700-1723 | with an end marker and no start marker before it, n merges leave n copies of the section and each further merge is longer by the section at least |
| MarkedBlockProofs.ReplacementMeans | src/claude_pack.rs:1700-1716 | the replaced text exactly: what stands before the first start marker, the block, and what stands behind the first end marker without its leading line breaks, with the line breaks added at the seams |
| MarkedBlockProofs.ReplacementKeepsSurroundings | src/claude_pack.rs:1700-1716 | replacing keeps all text before and after the region, up to newlines at the seams |
| MarkedBlockProofs.AppendKeepsText | src/claude_pack.rs:1718-1722 | appending keeps all text up to trailing whitespace, then a blank line and the block |
| ManifestScan.ScanDir | src/claude_pack.rs:1543-1592 | the recursive scan reports exactly the manifest files at most three directories down outside excluded directories, each once |
| ManifestScan.HasAncestorManifest | src/claude_pack.rs:1619-1634 | the upward walk answers whether any proper ancestor holds anything of that name |
| ManifestScan.DetectSignals | src/claude_pack.rs:1393-1479 | the loop signals exactly the unshadowed manifest directories per kind; the roots are theirs and the project root, all without repetition |
| ProjectScan.ScanTargetProject | src/claude_pack.rs:1393-1523 | the report lists exactly the roots, signals, existing documents under roots and commands, each list in text order and without repetition |
| ManifestAntichain.SignalledMeans | src/claude_pack.rs:1393-1479 | signalled directories in terms of the tree: a file of the kind's names at most three directories down, none excluded, and nothing of such a name in any directory above |
| ManifestAntichain.FileAboveIsDiscovered | src/claude_pack.rs:1543-1634 | depth limit and exclusions cannot hide a manifest above a discovered one |
| ManifestAntichain.SignalledIsAntichain | src/claude_pack.rs:1415-1465 | no signalled directory lies above another of its kind |
| ManifestAntichain.SignalledExactlyMinimal | src/claude_pack.rs:1415-1465 | signalled means outermost, for every directory, if and only if no directory named like a manifest stands above a discovered manifest with no real one above it |
| ManifestAntichain.CoveredExactly | src/claude_pack.rs:1415-1465 | every discovered manifest lies at or below a signalled directory if and only if no directory named like a manifest stands above one with no real one above it |
| ManifestAntichain.DecoyExample | src/claude_pack.rs:1619-1634 | a directory named Cargo.toml hides the crate beside it |
| WriteQueue.DurableQueue.MarkRetry | src/calvin_client.rs:800-830 | the row takes the listed attempts plus one, saturating, and is due again after the delay for that number, whatever it was |
| WriteQueue.DurableQueue.DrainOnce | src/calvin_client.rs:691-758 | a drain settles its batch in order, stops at the first mark that cannot be saved, and otherwise reports how many writes it confirmed |
| WriteQueue.BatchIsDue | src/calvin_client.rs:696-712 | a batch holds distinct, current, unconfirmed, due rows, oldest first, at most 25 of them and all of them when there are no more |
| WriteQueue.BatchIsOldest | src/calvin_client.rs:703-707 | a due row is left out only when 25 rows at least as old are taken |
| WriteQueue.SettledMeans | src/calvin_client.rs:714-757 | one turn confirms its row exactly when the send was accepted, and otherwise records what went wrong |
| WriteQueueRuns.ReportedAreConfirmed | src/calvin_client.rs:714-758 | the reported count is the number of rows sent without an error, and by that many the confirmed rows of the table grow |
| WriteQueueRuns.NewWriteIsTaken | src/calvin_client.rs:661-712 | from its enqueueing on a write is in the next batch unless 25 due rows are at least as old |
| WriteQueueRuns.NoRowIsLost | src/calvin_client.rs:837-862 | over every run of any workers pending, retry_pending and confirmed add up to the writes enqueued, and no request changes |
| WriteQueueRuns.EveryConfirmationHadASend | src/calvin_client.rs:738-752 | over every run of any workers a confirmed row had an accepted send |
| WriteQueueRuns.ConfirmedLeavesExactlyWhen | src/calvin_client.rs:800-830 | a confirmed row loses that status if and only if a worker that had listed it records a failure |
| WriteQueueRuns.TwoWorkersUnconfirm | src/calvin_client.rs:356-370 | two workers that list one row make that happen |
| WriteQueueRuns.GuardedRunIsFaithful | src/calvin_client.rs:691-835 | while workers find their rows as listed, attempts count the recorded failures, a confirmed row has exactly one recorded delivery, and no send of any outcome follows it |
| WriteQueueRuns.ConfirmedIsFinal | src/calvin_client.rs:780-798 | in such runs confirmed is absorbing |
| WriteQueueRuns.NoSendAfterConfirmation | src/calvin_client.rs:714-757 | in such runs a confirmed row is never sent again, whatever the outcome would be |
| WriteQueueRuns.SequentialRunsAreFaithful | src/calvin_client.rs:356-370 | one drain at a time gives all of this from an empty table on |
| WriteQueueRuns.DrainIsARun | src/calvin_client.rs:714-757 | a drain is a run of one worker's steps |
| WriteQueueRuns.DelaysGrow | src/calvin_client.rs:832-835 | delays lie between 2 and 64 seconds, double up to the sixth attempt and never fall |
| WriteQueueRuns.DueAfterCappedDelay | src/calvin_client.rs:800-835 | 64 seconds after its last change every unconfirmed row is due |
| WriteQueueRuns.HealthyTurnsDrain | src/calvin_client.rs:691-758 | with every row due and every send and mark succeeding, each turn confirms 25 rows or all that are left |
| WriteQueueRuns.QueueRecovers | src/calvin_client.rs:356-370 | after any earlier history and the longest backoff, all n unconfirmed rows are confirmed after k healthy turns if and only if n <= 25 k, each by exactly one recorded delivery |
| WriteQueueRuns.NextAttemptIsWhenDrainsAct | src/calvin_client.rs:860-875 | the reported next attempt is exactly the time from which a drain finds work |
| Embeddings.VecRoundTrip | src/embeddings.rs:343-351 | a stored vector is read back bit for bit |
| Embeddings.BlobRoundTrip | src/embeddings.rs:343-351 | reading and storing a blob drops exactly its incomplete last chunk |
| Embeddings.WordsAreLittleEndian | src/embeddings.rs:343-345 | four bytes for every word, its lowest eight bits first |
| Embeddings.DotWithUnit | src/embeddings.rs:357 | the product with a unit vector is that coordinate |
| Embeddings.DotIsLinear | src/embeddings.rs:357 | the product is linear, so the unit vectors determine it |
| Embeddings.SimilarityMeans | src/embeddings.rs:353-364 | the similarity of non-zero vectors is their product over the root of the product of their squared lengths |
| Embeddings.NoSimilarity | src/embeddings.rs:353-364 | vectors of different lengths and zero vectors score 0 |
| Embeddings.CauchySchwarz | src/embeddings.rs:357-359 | dot(a,b) squared is at most dot(a,a) times dot(b,b), for vectors of any length |
| Embeddings.CosineInRange | src/embeddings.rs:353-364 | the similarity lies in [-1, 1] for any two vectors, unequal lengths and zero norms included |
| Embeddings.CosineIsSymmetric | src/embeddings.rs:353-364 | the similarity is symmetric |
| Embeddings.OneExactlyWhenSameDirection | src/embeddings.rs:353-364 | non-zero vectors score 1 if and only if one is a positive multiple of the other |
| Embeddings.QuerySemantic | src/embeddings.rs:185-196 | the query returns min(k, stored) scores in descending order, and nothing left out scores above anything returned |
| Embeddings.FullExactly | src/embeddings.rs:178-184 | a stored row scores 1 if and only if its vector points the query's way |
| Embeddings.ExactMatchIsFound | src/embeddings.rs:167-197 | a vector stored with the query's own bits is the hit right behind the earlier rows that point the same way, so it is returned when those are fewer than k |
| Palace.Patrol | src/coobie_palace.rs:179-262 | the loop over the dens collects exactly the dens with residents, with their totals, peaks, escalation and lessons |
| Palace.MatchedLessonsAreStrongest | src/coobie_palace.rs:271-296 | a den carries at most three of its matching lessons, strongest first, and none it leaves out is stronger, for every way of folding letter case |
| Palace.Briefing.ApplyPatrol | src/coobie_palace.rs:502-548 | the three lists gain the summary, the dens' texts and the lesson guardrails in order, each once |
| PalaceLaws.DensAreApart | src/coobie_palace.rs:49-88 | no cause belongs to two dens |
| PalaceLaws.ScentMeans | src/coobie_palace.rs:192-206 | a den's residents, greatest streak and escalation in terms of the listed causes that live there |
| PalaceLaws.OccurrencesAreConserved | src/coobie_palace.rs:192-232 | occurrences and residents over the active dens are those of the causes that have a den, each counted once |
| PalaceLaws.ResidentsAreDistinctExactly | src/coobie_palace.rs:192-202 | active residents count distinct causes if and only if no cause of the den stands in the list twice |
| PalaceLaws.RepeatedCauseCountsTwice | src/coobie_palace.rs:192-206 | one cause listed twice counts as two residents and escalates its den |
| PalaceLaws.PatchWeightBounds | src/coobie_palace.rs:236-251 | the weight lies in [0, 1], is 0 exactly when all active dens are silent and 1 exactly when all are saturated |
| PalaceLaws.WeightIsAverage | src/coobie_palace.rs:236-251 | the weight is the average over the active dens of min(5, streak + 1 if escalated) fifths |
| PalaceLaws.EscalatedPatchBelowOne | src/coobie_palace.rs:236-251 | a patch whose only active den is escalated with a streak of three weighs 0.8 |
| PalaceLaws.WeightNeverFalls | src/coobie_palace.rs:236-251 | the weight never decreases while streaks grow and the causes stay |
| PalaceLaws.PatrolTwice | src/coobie_palace.rs:502-548 | applying a patrol twice is applying it once |
| PalaceLaws.PatrolOnlyAppends | src/coobie_palace.rs:502-548 | a patrol only appends, and the lists hold exactly what they held, the summary, what the active dens say and their lessons' interventions |

## Left out

- HTTP routing, status codes, events on the board, SQLite and its errors, JSON encoding, async scheduling: handlers are their reads, decisions and writes; tables are maps or sequences.
- The policy event log of the Keeper: it is appended to before a blocked claim returns without saving, so it does not mirror the claims.
- Failing or half-finished writes of the assignments file, and files that do not parse: a read sees a whole earlier write.
- RFC 3339 text: instants are integers, a stored time may be unreadable and then falls back as in src/api.rs:6270-6272; the queue and the thread table compare such texts, modelled as comparing instants.
- The sentences put around broken guardrails and refusals by `check_lease`; letter folding there and in the den lessons is a parameter.
- UTF-8: texts are sequences of characters, so byte offsets of `find` are character positions.
- The classifiers of retention, sensitivity and importance are a parameter; so are, for each candidate processed, the answers of Open Brain and of the Calvin promotion, the texts and the recomputed dedupe key made of its content, the targets its text triggers and one clock reading.
- CandidateBatch.ProcessMemoryCandidates: the listing query's order and limit are not modelled, any distinct listed rows are a batch; a database error that ends the loop early does not occur.
- PackChat writes made locally rather than by ingest, and the identity-continuity candidates of Twilight (src/chat.rs:1311-1409).
- `_parse_reply` around the extractor: think-block removal and `json.loads`.
- Symbolic links and names with backslashes: the file system is a tree of distinct names.
- Rows of the queue with equal created_at: SQLite may order them either way, the model keeps table order. `last_error` and `oldest_pending_at` of the statistics.
- WriteQueueRuns.DueAfterCappedDelay: the clock may jump between workers; each mark uses its own reading.
- Floating point: vectors, strengths and weights are reals, the square root is a parameter with its defining property, NaN does not occur.
- The wording of den scents and patrol summaries: a parameter, so that the laws hold for every wording.
- Model providers, prompts' texts, agent personalities, the Pack Board, benchmarks.
