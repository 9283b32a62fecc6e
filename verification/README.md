# CinaVault: verified models of its stateful core

A Dafny model of the parts of CinaVault's desktop back end (Rust, under `src-tauri/src`) whose
correctness depends on many steps fitting together, with proofs of what they promise.
`dafny verify dfyconfig.toml` checks everything.

## What is modelled

| Part | Modules |
|---|---|
| The enrichment job registry: one slot, eight remembered jobs, stops and polls, all interleavings | `EnrichmentJobs`, `EnrichmentJobRuns` |
| The agent's conversation: optimistic commit, tool loop, trimming, image stripping, notes and buttons, all interleavings | `AgentHistory`, `AgentExchanges`, `AgentConversation`, `AgentRuns`, `AgentTurns`, `AgentCommits`, `AgentNotes`, `AgentProfiles`, `AgentModels` |
| Moving a duplicate into quarantine, with every operation allowed to fail | `Quarantine` |
| Percent encoding, query strings, the sign-in address and its callback | `QueryCodec`, `QueryFacts` |
| The NFO sidecar writer against the tag reader | `NfoSidecar`, `NfoFacts`, `NfoRatings` |
| One card per show, and the library's works on the trending list | `Discovery`, `DiscoveryRules` |
| Automatic collections: grouping and the tables they are stored in | `Collections`, `CollectionFacts`, `CollectionRules`, `CollectionOrders`, `CollectionStore`, `CollectionReorders` |
| Merging provider answers, the adult enrichment pipeline, the attempt record | `ProviderMatches`, `AdultItem`, `AdultAttempts`, `AdultRuns`, `AdultReports` |
| Shared: options, text, decimal numbers, stable sorting | `Wrappers`, `Texts`, `Decimal`, `Sorting` |

State that the source updates in place is a class (`Registry`, `Conversation`, `Library`,
`CollectionTables`, `AttemptLog`, `AdultLibrary`), and a loop of the source is a loop. Each method is
proved equal to a specification function on values, and the properties are proved about those
functions. The two protocols are transition systems over the same functions: a run is any sequence
of actions, an action that its thread is not ready for changes nothing, so a statement about all
sequences is a statement about all interleavings.

What the outside world answers (providers, the model, file operations, the database, time) is an
argument, and the results hold for all of them.

## Where the code and its description part

* A poll for an unknown job id is documented as returning the latest job
  (`src-tauri/src/enrichment_jobs.rs:440`); the code returns the idle status, and so does the model
  (`EnrichmentJobRuns.PollByIdKnowsTheLastEight`).
* A stop that lands after the task's start check and before its abort handle is registered only sets
  a flag that nobody reads again: `EnrichmentJobRuns.AStopCanBeLost`.
  `EnrichmentJobRuns.StopIsHonouredExactlyWhen` states exactly which stops of the running job are
  honoured.
* An approved action pushes its note without checking that the conversation is still the one it was
  approved in (`src-tauri/src/ai_agent.rs:1109-1111`): `AgentNotes.ANoteCanCrossOver`, and
  `AgentNotes.ANoteCanReachAnotherProfile`. A note stays in
  its own generation exactly when the conversation was not restarted since the action was taken
  (`AgentNotes.NoteStaysInItsGenerationExactlyWhen`, and `AgentNotes.NotesAreOwnExactlyWhenInTime` for
  whole runs).
* A conversation promises to hold nothing that another profile saw (`src-tauri/src/ai_agent.rs:148-149`),
  but tools read for whoever is watching when they run: `AgentProfiles.AResultCanCrossOver`, with the
  exact condition in `AgentProfiles.ResultsAreOwnExactlyWhen`.
* An answer that stops for another reason than tool use but holds tool calls is stored with these
  calls open: `AgentCommits.ACallCanStayOpen`. `AgentCommits.CommitAnswersEveryCallExactlyWhen` and
  `AgentCommits.StoredCallsAreAnsweredExactlyWhen` state when every stored call is answered.
* A reply that stops for tool use without calling a tool adds an empty user message, which then
  counts as the start of an exchange, so that a restart drops the question before it:
  `AgentCommits.ARestartCanLoseTheQuestion`. `AgentRuns.CommitIsExact` states exactly when a restart
  keeps the newest exchange whole.
* A switch of models resets the conversation before it saves the choice, while a chat reads the
  choice before it copies the conversation out: `AgentModels.ASwitchInBetweenReplays`, with the exact
  condition in `AgentModels.HistoryIsBySavedExactlyWhen`.
* The sidecar writes its two ids and the poster path without escaping them, so a path that spells an
  `<mpaa>` element is read as a rating: `NfoRatings.RawPosterPathIsReadAsMarkup`.
  `NfoRatings.SidecarHasNoCertificationExactlyWhen` states when that happens.
* A gather loads its items once and then updates rows without looking at them again, so an edit made
  meanwhile can be overwritten: `AdultRuns.AnEditIsOverwritten`. A pass only fills in exactly under the
  condition of `AdultRuns.PassOnlyFillsInExactlyWhen`.
* The rule that a stored poster is local holds for addresses with a lower-case scheme; one in upper
  case is taken for a path: `AdultRuns.AnOddAddressIsWritten`, with the exact condition in
  `AdultRuns.AddressIsWrittenExactlyWhen`, and for whole runs in `AdultRuns.AddressAfterRunExactlyWhen`.

## Model

| member | source | states |
|---|---|---|
| EnrichmentJobs.Registry.PruneRememberedJobs | src-tauri/src/enrichment_jobs.rs:186-198 | oldest jobs are forgotten while more than eight are remembered, never past the active one |
| EnrichmentJobs.Registry.ClaimJob | src-tauri/src/enrichment_jobs.rs:205-245 | new registry and answer of a claim: busy with the running job, or a fresh running job in the slot |
| EnrichmentJobs.Registry.RegisterAbortHandle | src-tauri/src/enrichment_jobs.rs:247-254 | the handle is kept if and only if the job runs |
| EnrichmentJobs.Registry.TakePendingStop | src-tauri/src/enrichment_jobs.rs:259-278 | whether a task must exit before its work, cancelling the job if a stop is pending |
| EnrichmentJobs.Registry.FinishJob | src-tauri/src/enrichment_jobs.rs:284-310 | an outcome is stored only for a running job, which then gives up the slot |
| EnrichmentJobs.Registry.RequestStopActiveJob | src-tauri/src/enrichment_jobs.rs:320-340 | with a handle the task is aborted and the job cancelled; without one a stop is noted |
| EnrichmentJobs.Registry.ActiveJobRunning | src-tauri/src/enrichment_jobs.rs:346-356 | whether the slot holds a running job |
| EnrichmentJobs.Registry.GetEnrichmentJobStatus | src-tauri/src/enrichment_jobs.rs:447-482 | which record a poll reads, and the live progress laid over it |
| EnrichmentJobRuns.StepKeepsInv | src-tauri/src/enrichment_jobs.rs:186-340 | every step of every thread keeps the invariant of registry, tasks and starters |
| EnrichmentJobRuns.RunKeepsInv | src-tauri/src/enrichment_jobs.rs:186-340 | so does every run |
| EnrichmentJobRuns.ClaimOnFreeSlot | src-tauri/src/enrichment_jobs.rs:186-245 | a claim on a free slot forgets exactly the job that falls out of the window of eight, if any |
| EnrichmentJobRuns.ClaimOnTakenSlot | src-tauri/src/enrichment_jobs.rs:205-222 | with the slot taken a claim changes nothing; the branch for a stale slot is never taken |
| EnrichmentJobRuns.SlotIsTheRunningJob | src-tauri/src/enrichment_jobs.rs:158-340 | in every reachable state the slot names exactly the running job, at most one runs, handles are only its own, `jobs` and `order` agree, numbers increase, at most eight are remembered, result and error fit the phase |
| EnrichmentJobRuns.ClaimIsRefusedExactlyWhileRunning | src-tauri/src/enrichment_jobs.rs:205-245 | at any moment of any run a claim is refused exactly when a job runs, and else takes a number larger than that of every job ever claimed |
| EnrichmentJobRuns.WorkIsExclusive | src-tauri/src/enrichment_jobs.rs:259-278 | a task at work that has not been aborted owns the running job, so two such tasks never work at once |
| EnrichmentJobRuns.PruningSparesTheActiveJob | src-tauri/src/enrichment_jobs.rs:186-198 | in any registry, reachable or not, pruning spares the active job and stops only at it or at eight jobs |
| EnrichmentJobRuns.ClaimedJobIsFresh | src-tauri/src/enrichment_jobs.rs:205-245 | in every run a claim on a free slot records a running job of the kind that was claimed, with the first message of that kind and without progress, outcome or stop |
| EnrichmentJobRuns.ActiveExactlyWhileRunning | src-tauri/src/enrichment_jobs.rs:346-356 | a job is reported as active if and only if some job runs |
| EnrichmentJobRuns.TerminalStatesAbsorb | src-tauri/src/enrichment_jobs.rs:259-340 | once a job has left the running phase, nothing changes what it shows until it is forgotten |
| EnrichmentJobRuns.FinishedWorkKeepsItsOutcome | src-tauri/src/enrichment_jobs.rs:284-310 | the outcome of work that ends in time frees the slot and is what every later poll can find |
| EnrichmentJobRuns.EarlyStopWins | src-tauri/src/enrichment_jobs.rs:259-340 | a stop before the task's start check: in every later order of steps the work never begins, and the job ends cancelled |
| EnrichmentJobRuns.RegisteredStopCancels | src-tauri/src/enrichment_jobs.rs:247-340 | in every run, once the starter of the running job has registered its handle, the handle is there, and a stop frees the slot, aborts the task and shows the job as cancelled by the user |
| EnrichmentJobRuns.EarlierStopIsNoted | src-tauri/src/enrichment_jobs.rs:320-340 | in every run, before that a stop of the running job changes nothing but the note of it |
| EnrichmentJobRuns.StartCheckDecides | src-tauri/src/enrichment_jobs.rs:259-278 | in every run the start check sends a task to work exactly when its job runs without a noted stop; a noted stop cancels the job and frees the slot |
| EnrichmentJobRuns.StopIsHonouredExactlyWhen | src-tauri/src/enrichment_jobs.rs:247-340 | a stop rules out every later completion or failure if and only if the starter has come back from registering the handle or the start check has not happened |
| EnrichmentJobRuns.AStopCanBeLost | src-tauri/src/enrichment_jobs.rs:247-340 | a concrete run in which a stop between start check and registration only sets the flag, and the work then completes |
| EnrichmentJobRuns.JobsEndInClaimOrder | src-tauri/src/enrichment_jobs.rs:205-340 | jobs leave the running phase in claim order, each once |
| EnrichmentJobRuns.PollWithoutIdIsTheLatestJob | src-tauri/src/enrichment_jobs.rs:447-482 | a poll without id gives the running job, else the job that ended last, and is idle only if nothing was ever claimed |
| EnrichmentJobRuns.PollByIdKnowsTheLastEight | src-tauri/src/enrichment_jobs.rs:447-482 | a poll by id is idle exactly outside the last eight, and shows live progress only over a running job's own task |
| EnrichmentJobRuns.SlotCanBeFreed | src-tauri/src/enrichment_jobs.rs:360-436 | from every reachable state with a running job some schedule frees the slot |
| AgentHistory.StripInPlace | src-tauri/src/ai_agent.rs:168-179 | the recursive replacement of uploaded images in a message's blocks |
| AgentHistory.DropPastImages | src-tauri/src/ai_agent.rs:163-184 | the replacement in every user message, in place |
| AgentHistory.StripBlockFixesExactlyTheImageFree | src-tauri/src/ai_agent.rs:168-179 | a block is left alone if and only if it carries no image at any depth; the result never carries one |
| AgentHistory.DropImagesFixesExactlyTheImageFree | src-tauri/src/ai_agent.rs:163-184 | the same for a whole history |
| AgentHistory.DropImagesTwice | src-tauri/src/ai_agent.rs:163-184 | dropping images twice is dropping them once |
| AgentHistory.DroppingReplacesOnlyImages | src-tauri/src/ai_agent.rs:163-184 | each uploaded image of a user message, at any depth, becomes the note, and nothing else of any message changes |
| AgentExchanges.CollectResults | src-tauri/src/ai_agent.rs:1015-1036 | one result block for each tool call of a reply, in order |
| AgentExchanges.RunToolLoop | src-tauri/src/ai_agent.rs:997-1038 | the messages and the end of the tool loop, for every sequence of answers |
| AgentExchanges.TrimHistory | src-tauri/src/ai_agent.rs:484-503 | a history over its limit restarts at the last message that starts an exchange |
| AgentExchanges.ToolResultsAnswer | src-tauri/src/ai_agent.rs:1015-1036 | the results answer the calls one for one and in order, each with its content or its error |
| AgentExchanges.ResultsLookLikeAStartExactlyWhenEmpty | src-tauri/src/ai_agent.rs:484-490 | a message of tool results counts as an exchange start if and only if no tool was called |
| AgentExchanges.UserMessageStartsExchange | src-tauri/src/ai_agent.rs:465-490 | the message built from text, image and notes starts an exchange |
| AgentExchanges.UserMessageTellsItsPartsApart | src-tauri/src/ai_agent.rs:465-481 | two user messages are equal exactly when their texts, images and joined notes are: what the user says is never confused with what the application says |
| AgentExchanges.JoinOfBoth | src-tauri/src/ai_agent.rs:473-478 | notes are joined with one space between any two, wherever the list is split |
| AgentExchanges.UserMessageTells | src-tauri/src/ai_agent.rs:465-482 | the message holds the image if there is one, then one block marked as not the user's in which every note stands in order, and last the text |
| AgentExchanges.ToolUseIdsOfBoth | src-tauri/src/ai_agent.rs:1015-1036 | the calls of a reply are those of its tool blocks, in order |
| AgentExchanges.RoundMeans | src-tauri/src/ai_agent.rs:998-1037 | a refusal adds nothing; any other reply is added as it came; the loop goes on if and only if the model stopped for tool use, and then the outcome of each call is reported back |
| AgentExchanges.FirstOtherAnswerEnds | src-tauri/src/ai_agent.rs:997-1038 | the first of the nine answers that does not ask for tools ends the loop with its error or stop reason; when all nine do, the loop gives up |
| AgentExchanges.RoundKeepsAnswers | src-tauri/src/ai_agent.rs:998-1037 | a round leaves at most its own calls open, and only if it ends the loop |
| AgentExchanges.RoundAddsAStartExactlyWhen | src-tauri/src/ai_agent.rs:484-490 | a round adds a message that looks like an exchange start if and only if it stopped for tool use without a call |
| AgentExchanges.CommitKeepsAnswersExactlyWhen | src-tauri/src/ai_agent.rs:1043-1059 | what an answered turn stores has every call answered if and only if its last reply calls no tool |
| AgentExchanges.RoundKeepsWellFormed | src-tauri/src/ai_agent.rs:998-1037 | one round only appends, and keeps the alternation and pairing of messages |
| AgentExchanges.RoundsKeepWellFormed | src-tauri/src/ai_agent.rs:997-1038 | a whole loop does, and appends at most 17 messages after the user's |
| AgentExchanges.RefusalChangesNothing | src-tauri/src/ai_agent.rs:1043-1059 | a refused turn stores the history exactly as the request found it |
| AgentExchanges.AnswerExtends | src-tauri/src/ai_agent.rs:1043-1059 | up to 60 messages the old history stays as an unchanged prefix |
| AgentExchanges.AnswerRestarts | src-tauri/src/ai_agent.rs:496-503 | past 60 messages the history restarts inside the new exchange, and fits |
| AgentExchanges.RestartKeepsWholeExchangeExactlyWhen | src-tauri/src/ai_agent.rs:484-503 | a restart keeps the new exchange whole if and only if no later message of it looks like a start |
| AgentConversation.Conversation.Reset | src-tauri/src/ai_agent.rs:141-146 | everything is cleared and the generation moves on |
| AgentConversation.Conversation.ClaimForProfile | src-tauri/src/ai_agent.rs:150-155 | a different profile resets the conversation |
| AgentConversation.Conversation.BeginChat | src-tauri/src/ai_agent.rs:980-991 | what a chat copies out under the lock; what that tells the model is stated by `AgentTurns.ChatOpens` |
| AgentConversation.Conversation.StoreHistory | src-tauri/src/ai_agent.rs:1057-1059 | the stored history is the local one, trimmed and without images |
| AgentConversation.Conversation.OfferButtons | src-tauri/src/ai_agent.rs:1060-1062 | the chat's actions become pending |
| AgentConversation.Conversation.CommitChat | src-tauri/src/ai_agent.rs:1043-1064 | the whole new state of a commit, and the buttons the reply offers |
| AgentConversation.Conversation.TakeAction | src-tauri/src/ai_agent.rs:1084-1097 | a pressed button takes its action if it is still pending |
| AgentConversation.Conversation.PushNote | src-tauri/src/ai_agent.rs:1099-1111 | the note of an executed action is queued |
| AgentRuns.StepKeepsInv | src-tauri/src/ai_agent.rs:954-1113 | every section of every chat, button, reset and profile switch keeps the invariant |
| AgentRuns.RunKeepsInv | src-tauri/src/ai_agent.rs:954-1113 | so does every run |
| AgentRuns.StoredHistoryIsSettled | src-tauri/src/ai_agent.rs:484-503 | in every stored history user and assistant alternate, every user message starts an exchange or answers exactly the calls before it, no image is left, and there are at most 60 messages |
| AgentRuns.CommitIsExact | src-tauri/src/ai_agent.rs:980-1064 | at a commit in the same generation the stored history is the chat's snapshot, and is left alone, extended, or restarted at the newest exchange start, which keeps the new exchange whole if and only if no round stopped for tool use without a call; in another generation nothing changes |
| AgentRuns.CommitOffersItsButtons | src-tauri/src/ai_agent.rs:1060-1062 | a commit in the same generation adds exactly its chat's buttons, as proposed and none of them executed before, and leaves the others as they are |
| AgentRuns.NotesAreDeliveredOnce | src-tauri/src/ai_agent.rs:1043-1111 | notes pushed = notes delivered by committed, not refused chats, then notes waiting, in order |
| AgentTurns.ChatOpens | src-tauri/src/ai_agent.rs:980-991 | in every run a chat of the conversation's profile continues it and any other finds it empty in a new generation; the model is asked with the whole history and one message that tells image, waiting notes and text |
| AgentTurns.DeliveredNotesWereTold | src-tauri/src/ai_agent.rs:980-1064 | in every run all notes that a commit counts as delivered stand, in order, inside the note block of that chat's opening message |
| AgentTurns.EndedActionIsNoted | src-tauri/src/ai_agent.rs:1099-1111 | in every run an executed action leaves one note behind all others: what it did, or why it failed, under its caption |
| AgentTurns.APressActsExactlyWhen | src-tauri/src/ai_agent.rs:1084-1097 | in every run a pressed button executes its action if and only if it is pending in a conversation of the same profile; else only the button is spent, and another profile's conversation starts afresh |
| AgentRuns.ActionsRunOnceWhereProposed | src-tauri/src/ai_agent.rs:1084-1097 | an action runs at most once, under the profile and generation of the chat that proposed it |
| AgentRuns.ExpiredActionsNeverRun | src-tauri/src/ai_agent.rs:140-156 | after a reset or profile switch an unused button never acts again |
| AgentRuns.OfferedActionsRun | src-tauri/src/ai_agent.rs:1084-1097 | a pending action pressed under its profile is taken |
| AgentCommits.AsksAreTheRounds | src-tauri/src/ai_agent.rs:997-1038 | the steps of a chat between other steps are the rounds of the tool loop |
| AgentCommits.CommitAnswersEveryCallExactlyWhen | src-tauri/src/ai_agent.rs:1043-1059 | in every run, from an answered history, a commit stores every call answered if and only if the chat's last reply calls no tool |
| AgentCommits.StoredCallsAreAnsweredExactlyWhen | src-tauri/src/ai_agent.rs:1006-1059 | over all runs every call in every history stored along the way is answered if and only if no answer is committed whose last reply calls a tool |
| AgentCommits.StoredCallsAreAnswered | src-tauri/src/ai_agent.rs:1006-1059 | so they are as long as no reply but a refusal calls tools under another stop reason than tool use |
| AgentCommits.ACallCanStayOpen | src-tauri/src/ai_agent.rs:1006-1013 | a concrete run in which an answer cut off behind a call is stored with the call open |
| AgentCommits.ARestartCanLoseTheQuestion | src-tauri/src/ai_agent.rs:484-503 | a concrete run of 30 chats in which an idle round makes the restart drop the question |
| AgentNotes.NoteStaysInItsGenerationExactlyWhen | src-tauri/src/ai_agent.rs:1099-1111 | in every reachable state an executed action's note is queued in the generation of its execution if and only if the conversation was not restarted since |
| AgentNotes.AResetStrandsTheNote | src-tauri/src/ai_agent.rs:1099-1111 | from any moment of an execution, a reset leaves exactly its note in the next conversation |
| AgentNotes.ANoteCanCrossOver | src-tauri/src/ai_agent.rs:1080-1111 | a concrete run in which that happens |
| AgentNotes.ANoteCanReachAnotherProfile | src-tauri/src/ai_agent.rs:148-155 | a concrete run in which the note of one profile's action waits in the conversation that another profile has begun |
| AgentNotes.NotesAreOwnExactlyWhenInTime | src-tauri/src/ai_agent.rs:1043-1111 | over all runs the notes of a generation all come from its own executions if and only if each was pushed in time |
| AgentProfiles.ResultsAreMarked | src-tauri/src/ai_agent.rs:997-1038 | in every run the marks of a history stand exactly at its messages of tool results |
| AgentProfiles.ResultsAreOwnExactlyWhen | src-tauri/src/ai_agent.rs:148-155 | at every moment of a run all stored tool results were read under the conversation's profile if and only if in each committed round the profile watching was that of the chat |
| AgentProfiles.AResultCanCrossOver | src-tauri/src/ai_agent.rs:799-844 | a concrete run in which a result read under one profile is stored in the conversation of another |
| AgentModels.StepKeepsMadeBySavedExactlyWhen | src-tauri/src/ai_agent.rs:930-945 | which steps keep the stored history with the saved model: commits under it, and saves that find no history or leave the choice as it is |
| AgentModels.HistoryIsBySavedExactlyWhen | src-tauri/src/ai_agent.rs:930-1064 | over all runs the stored history is by the model the next chat reads if and only if every commit happens under the saved model and every save finds no history or leaves the choice as it is |
| AgentModels.CopyOutReplaysExactlyWhen | src-tauri/src/ai_agent.rs:973-991 | a chat sends such a history to another model if and only if the choice changed since it read it |
| AgentModels.ASwitchInBetweenReplays | src-tauri/src/ai_agent.rs:930-991 | a concrete interleaving in which one model's history is stored for, and sent to, another |
| Quarantine.Library.MoveFile | src-tauri/src/duplicates.rs:274-287 | rename, else copy and delete, undoing the copy when the delete fails |
| Quarantine.Library.ReserveQuarantinePath | src-tauri/src/duplicates.rs:293-323 | the first free of 10,000 candidate names is created empty |
| Quarantine.Library.QuarantineIn | src-tauri/src/duplicates.rs:342-385 | files, rows and answer of one quarantine, under every combination of failures, refusals included |
| Quarantine.CandidatesAreDistinct | src-tauri/src/duplicates.rs:298-301 | the candidate names are pairwise distinct |
| Quarantine.SomeNameIsFree | src-tauri/src/duplicates.rs:293-323 | with fewer than 10,000 files a name is always found |
| Quarantine.FirstFreeIs | src-tauri/src/duplicates.rs:293-323 | the name chosen is the first candidate that no file has |
| Quarantine.MoveConserves | src-tauri/src/duplicates.rs:274-287 | a move takes the bytes to the destination or leaves them whole at the source, touches nothing else, and succeeds exactly when a rename or a copy and delete does |
| Quarantine.QuarantineSucceedsExactlyWhen | src-tauri/src/duplicates.rs:342-385 | the exact condition of success |
| Quarantine.RefusalNamesItsCause | src-tauri/src/duplicates.rs:342-385 | for every combination of failures, which error a refused call gives; one refused before its move leaves files and rows as they were, for an unknown item and a missing file, too |
| Quarantine.QuarantinedNameIs | src-tauri/src/duplicates.rs:298-301 | a quarantined file keeps its name if that is free, else the item's number is put in front, and if that is taken the first free count from 2 behind it |
| Quarantine.TransferConserves | src-tauri/src/duplicates.rs:364-385 | move, row update and rollback conserve the bytes |
| Quarantine.QuarantineConserves | src-tauri/src/duplicates.rs:342-385 | success: original bytes at a new, unused path that the row names; failure: rows as before and full bytes at the row's path or at the path in the error; no other file changes |
| Quarantine.NoRunLosesAFile | src-tauri/src/duplicates.rs:342-385 | over any run of quarantines with any failures, every file is still whole where the answers say |
| Quarantine.RowsKeepTheirFiles | src-tauri/src/duplicates.rs:342-385 | over any run a row still names its own bytes unless its file was reported stranded, and paths stay unique |
| Quarantine.NoRunChangesTheItems | src-tauri/src/duplicates.rs:342-385 | over any run, whatever fails, no library row is dropped or added |
| Decimal.OfNatSpells | src-tauri/src/duplicates.rs:298-301 | a number is written in digits that spell it, without leading zeros |
| Decimal.OfIntSpells | src-tauri/src/duplicates.rs:298-301 | only a negative number has a sign, and the rest spells its amount |
| QueryCodec.PercentEncode | src-tauri/src/cloud_oauth.rs:141-155 | the encoding loop |
| QueryCodec.PercentDecode | src-tauri/src/cloud_oauth.rs:157-184 | the decoding loop, malformed escapes included |
| QueryCodec.DecodeUndoesEncode | src-tauri/src/cloud_oauth.rs:141-184 | decoding undoes encoding for every byte string (section 2.1 of RFC 3986) |
| QueryCodec.EncodedIsPlain | src-tauri/src/cloud_oauth.rs:141-155 | encoded text is unreserved characters and percent signs only |
| QueryCodec.ParseUndoesFormat | src-tauri/src/cloud_oauth.rs:186-195 | parsing undoes formatting for every list of pairs, empty names and values and repeats included |
| QueryCodec.QueryValueIsTheFirst | src-tauri/src/cloud_oauth.rs:197-202 | a name is looked up to its first pair, and to nothing exactly when no pair has it |
| QueryCodec.AuthUrlCarriesItsParams | src-tauri/src/cloud_oauth.rs:220-238 | the sign-in address parses back to its nine parameters, whatever they contain |
| QueryCodec.CallbackReadsThePairsSent | src-tauri/src/cloud_oauth.rs:527-545 | a callback request is decided on exactly the pairs that were sent |
| QueryFacts.EncodesByteByByte | src-tauri/src/cloud_oauth.rs:141-155 | letters, digits and four marks stand for themselves; any other byte becomes a percent sign and two upper-case digits (section 2.3 of RFC 3986) |
| QueryFacts.DecodesEscapes | src-tauri/src/cloud_oauth.rs:157-184 | a percent sign and two hexadecimal digits, in either case, are read as that byte |
| QueryFacts.DecodesOtherBytes | src-tauri/src/cloud_oauth.rs:157-184 | a plus sign is read as a space, and everything else, cut-off and malformed escapes included, as itself |
| QueryFacts.DecodesSignedDigit | src-tauri/src/cloud_oauth.rs:163-169 | an escape of a plus sign and a digit is read as that digit's number |
| QueryFacts.PartsThatAreNoPairs | src-tauri/src/cloud_oauth.rs:186-195 | a part of a query without an equals sign is passed over |
| QueryFacts.FirstEqualsEndsTheName | src-tauri/src/cloud_oauth.rs:186-195 | the first equals sign of a part ends the name |
| QueryFacts.AuthParamsAre | src-tauri/src/cloud_oauth.rs:220-238 | the value found under the name of each of the nine parameters |
| QueryFacts.AuthUrlAsks | src-tauri/src/cloud_oauth.rs:220-240 | the address is the endpoint and a query in which client id, challenge and state are found under their names |
| QueryFacts.CallbackMeans | src-tauri/src/cloud_oauth.rs:535-544 | an error denies the sign-in whatever else there is; else the code is given on, with the state, an absent one being empty |
| QueryFacts.CallbackWithoutQuery | src-tauri/src/cloud_oauth.rs:527-534 | a target without a query, and a request line of one word, are refused |
| NfoSidecar.EscapeIsOnePass | src-tauri/src/enrichment.rs:1485-1491 | the five successive replacements equal one pass over the characters |
| NfoSidecar.UnescapeUndoesEscape | src-tauri/src/enrichment.rs:1485-1491 | escaping has a left inverse, so it is injective |
| NfoSidecar.EscapedIsPlain | src-tauri/src/enrichment.rs:1485-1491 | escaped text holds no markup character |
| NfoSidecar.TrimOfEscaped | src-tauri/src/content_rating.rs:32-45 | trimming and escaping commute |
| NfoSidecar.TagReads | src-tauri/src/content_rating.rs:32-45 | the reader finds the first element of a name, whatever surrounds it, and gives its trimmed text |
| NfoSidecar.TitleReadsBack | src-tauri/src/enrichment.rs:1437-1483 | the sidecar's title reads back as the trimmed title, for all fields |
| NfoSidecar.PlotReadsBack | src-tauri/src/enrichment.rs:1437-1483 | the same for the plot |
| NfoSidecar.GenreReadsBack | src-tauri/src/enrichment.rs:1437-1483 | the same for the genre |
| NfoFacts.YearReadsBack | src-tauri/src/enrichment.rs:1437-1483 | the sidecar's year reads back as it is, and as nothing if there is none |
| NfoFacts.RatingReadsBack | src-tauri/src/enrichment.rs:1437-1483 | the rating reads back with its one decimal |
| NfoFacts.RawLinesStand | src-tauri/src/enrichment.rs:1462-1478 | both ids and the poster path stand in the sidecar, each in its element, as they are |
| NfoFacts.WrappedTextReads | src-tauri/src/content_rating.rs:38-44 | an element in a CDATA wrapper reads as the text in it, trimmed, whatever other markup it holds |
| NfoFacts.FirstTagWins | src-tauri/src/content_rating.rs:25-30 | a certification is read if and only if one of the two tags names one, and the first tag wins |
| NfoRatings.SidecarHasNoCertification | src-tauri/src/content_rating.rs:25-45 | a sidecar whose raw fields hold no rating tag carries no certification |
| NfoRatings.CertificationComesFromRawFields | src-tauri/src/content_rating.rs:25-45 | the rating read from a sidecar depends on its raw fields only |
| NfoRatings.LinesSpellExactlyWhen | src-tauri/src/content_rating.rs:32-45 | lines read as a whole hold an element of a name if and only if their texts spell one, whatever stands around them |
| NfoRatings.SidecarHasNoCertificationExactlyWhen | src-tauri/src/content_rating.rs:25-45 | no certification is read, however texts are rated, if and only if for neither tag a raw field opens it and then closes it around something, or leaves it to a later raw field to close |
| NfoRatings.RawPosterPathIsReadAsMarkup | src-tauri/src/enrichment.rs:1462-1478 | a poster path that is a rating element is read as the rating |
| Discovery.CollapseEpisodes | src-tauri/src/discovery.rs:191-219 | the table-driven loop gives, slot by slot, each single work and each show's card |
| Discovery.BestIsFirstEarliest | src-tauri/src/discovery.rs:191-219 | a show's card is its earliest episode, the first on a tie |
| Discovery.FirstPlacesAre | src-tauri/src/discovery.rs:191-219 | the places that get a slot: works that are no episode, and first episodes of a show |
| Discovery.SlotsKeepFirstPlaces | src-tauri/src/discovery.rs:191-219 | slots stand in the order of those places |
| Discovery.CollapsedShowsOnce | src-tauri/src/discovery.rs:191-219 | afterwards no show has two cards |
| Discovery.CollapseFixesExactlyTheCollapsed | src-tauri/src/discovery.rs:191-219 | a list is left alone if and only if no show is in it twice |
| Discovery.CollapseTwiceIsCollapseOnce | src-tauri/src/discovery.rs:191-219 | collapsing is idempotent |
| DiscoveryRules.OtherWorksStay | src-tauri/src/discovery.rs:191-204 | a work that is no episode, by type and by number, or has no title, keeps its card |
| DiscoveryRules.ShowsKeepOneCard | src-tauri/src/discovery.rs:191-219 | a show has one card if and only if an episode of it is in the list, and never two |
| DiscoveryRules.CardIsTheEarliest | src-tauri/src/discovery.rs:205-215 | the card has the smallest season and episode of its show, read as one number; one without numbers comes last |
| Discovery.MatchTrending | src-tauri/src/discovery.rs:424-508 | the greedy loop's cards |
| Discovery.ChoiceIsFirstEarliestMatch | src-tauri/src/discovery.rs:436-508 | a title is skipped exactly when every eligible work is used; else it gets an unused eligible work, the earliest, and of equally early ones the first in the library |
| Discovery.ClaimedWorksAreNotUsedAgain | src-tauri/src/discovery.rs:436-508 | what a title claims, all matches for a show, no later title gets |
| Discovery.CardsFollowTheTrendingOrder | src-tauri/src/discovery.rs:436-508 | the cards are the titles' choices, in trending order |
| Discovery.PlacedAre | src-tauri/src/discovery.rs:436-508 | every title with a choice gets its card |
| Discovery.NoWorkTwice | src-tauri/src/discovery.rs:436-508 | no work is on the shelf twice |
| DiscoveryRules.EligibleExactlyWhen | src-tauri/src/discovery.rs:424-484 | what can stand for a trending title, said of type, episode number, id, cleaned title and years |
| DiscoveryRules.ChoiceIsTheEarliest | src-tauri/src/discovery.rs:485-490 | the choice has the smallest season and episode of the unused works that can stand for the title |
| DiscoveryRules.UsedExactlyWhen | src-tauri/src/discovery.rs:467-500 | a work is used when a title's turn comes if and only if an earlier title got it, or is a series that it can stand for |
| Collections.AddOffer | src-tauri/src/collections.rs:166-244 | adding one item under a key keeps the ordered table equal to what was offered |
| Collections.GatherSeries | src-tauri/src/collections.rs:164-174 | the table of shows, and the ids recognised as episodes |
| Collections.GatherFranchises | src-tauri/src/collections.rs:197-212 | the table of franchises |
| Collections.GatherItemGenres | src-tauri/src/collections.rs:232-244 | one item's genres, each key once |
| Collections.GatherGenres | src-tauri/src/collections.rs:230-245 | the table of genres |
| Collections.KeepLarge | src-tauri/src/collections.rs:175-250 | the keys with enough members |
| Collections.RankGenres | src-tauri/src/collections.rs:246-252 | the biggest genres, as many as the settings allow |
| Collections.Emit | src-tauri/src/collections.rs:175-268 | the groups of the chosen keys, sorted, with name and poster |
| Collections.BuildGroups | src-tauri/src/collections.rs:153-269 | all groups, of everything but adult titles and music, in order |
| CollectionFacts.GenreListReads | src-tauri/src/collections.rs:106-114 | a genre list reads as its names, trimmed, without blank ones, whatever separator it uses |
| CollectionFacts.EligibleExactlyWhen | src-tauri/src/collections.rs:154-160 | an item is grouped if and only if its media type spells neither "adult" nor "music", in whatever case |
| CollectionFacts.ShowIs | src-tauri/src/collections.rs:124-148 | the show of an episode: from its own data, else its path, else its title |
| CollectionFacts.FranchiseIs | src-tauri/src/collections.rs:198-205 | the franchise of an item is the collection it names, trimmed, if that is not blank |
| CollectionFacts.MembersAreBelonging | src-tauri/src/collections.rs:153-269 | what the tables collect under a key is exactly the items that belong there, in library order |
| CollectionFacts.SeriesAndFranchisesAreComplete | src-tauri/src/collections.rs:163-227 | a series or franchise has a group if and only if it is big enough |
| CollectionFacts.ChosenGenresAreTheLargest | src-tauri/src/collections.rs:229-267 | a big enough genre is passed over only for as many chosen ones as are allowed, none of them smaller |
| CollectionFacts.GenresAreFew | src-tauri/src/collections.rs:252-253 | no more genres are grouped than the settings allow |
| CollectionFacts.GroupHoldsItsMembersInOrder | src-tauri/src/collections.rs:153-269 | a group holds exactly its members, sorted by the order of its kind, and meets its minimum |
| CollectionFacts.GroupsLeaveOutAdultMusicAndEpisodes | src-tauri/src/collections.rs:153-269 | no item of media type adult or music, in whatever case, in any group, and nothing that names a show in a franchise or genre |
| CollectionFacts.NoGroupListsAnIdTwice | src-tauri/src/collections.rs:153-269 | no group repeats a member |
| CollectionFacts.StoredKeysAreDistinct | src-tauri/src/collections.rs:153-269 | no two groups are stored under one key |
| CollectionRules.ItemLeMeans | src-tauri/src/collections.rs:178-185 | the order of each kind, said of season and episode, year, or rating and year, each with its fallback, and then the titles |
| CollectionRules.GroupIsInOrder | src-tauri/src/collections.rs:178-267 | the members of a group stand in that order, and its poster is the first that one of them has |
| CollectionRules.GroupsComeInOrder | src-tauri/src/collections.rs:163-269 | series come first, then franchises, then genres; within those by key, but the biggest genres first |
| CollectionOrders.RegroupingKeepsGroups | src-tauri/src/collections.rs:153-307 | in whatever order the rows are loaded, the groups have the same keys, order and members; where no two items tie, also the same member order and poster |
| CollectionOrders.SortsAlikeExactlyWhen | src-tauri/src/collections.rs:178-267 | two loads sort alike if and only if what ties comes in the same order in both |
| CollectionOrders.NamedByTheFirst | src-tauri/src/collections.rs:164-245 | a group is named by the first item loaded for it |
| CollectionOrders.GroupStaysExactlyWhen | src-tauri/src/collections.rs:153-307 | exactly when a group keeps its name and the order of its members over two loads; with the order its poster stays |
| CollectionStore.CollectionTables.StoreGroup | src-tauri/src/collections.rs:333-356 | the upsert of one group and its item rows |
| CollectionStore.CollectionTables.DropStale | src-tauri/src/collections.rs:365-383 | rows of other keys are deleted |
| CollectionStore.CollectionTables.StoreGroups | src-tauri/src/collections.rs:333-383 | the statements of a rebuild, up to one that fails |
| CollectionStore.CollectionTables.Rebuild | src-tauri/src/collections.rs:321-386 | a library's groups replace the stored ones in one transaction, with the report; if any statement fails everything stays as it was |
| CollectionStore.RebuildMirrorsTheGroups | src-tauri/src/collections.rs:321-386 | afterwards the tables hold exactly the groups; surviving keys keep their ids, new ones get new ids |
| CollectionStore.ItemCountIsTheNumberOfRows | src-tauri/src/collections.rs:321-386 | the stored count is the number of item rows |
| CollectionStore.ReportCountsTheGroups | src-tauri/src/collections.rs:310-386 | the report counts the groups of each kind |
| CollectionStore.ReportCountsTheItemRows | src-tauri/src/collections.rs:346-359 | the number of grouped items in the report is the number of item rows after the rebuild |
| CollectionStore.RebuildAgainOnlyRestamps | src-tauri/src/collections.rs:321-386 | rebuilding with the same groups changes nothing but time stamps |
| CollectionReorders.ReorderedRebuildKeepsCollections | src-tauri/src/collections.rs:271-386 | rebuilding the same library from rows in another order keeps every key, id, kind, item count and item |
| CollectionReorders.ReorderedRebuildStaysExactlyWhen | src-tauri/src/collections.rs:271-386 | and exactly when it keeps a stored name and the positions, and with them the poster |
| CollectionStore.GroupsAreStorable | src-tauri/src/collections.rs:153-386 | what the grouping returns always meets what the store needs |
| ProviderMatches.MergeProviderMatches | src-tauri/src/enrichment.rs:1119-1175 | field by field, the second match fills the first one's blanks |
| ProviderMatches.MergeIsAssociative | src-tauri/src/enrichment.rs:1119-1175 | the order of merging does not matter, only the order of the matches |
| ProviderMatches.ReduceTakesFirstFields | src-tauri/src/enrichment.rs:1119-1175 | merging a list gives the first value of each field that says something |
| ProviderMatches.OneQueryMeans | src-tauri/src/enrichment.rs:765-851 | a stop before a query, or before a provider with a key, gives nothing; else the titled answers of the providers with a key count, in order |
| ProviderMatches.ResolveProviderMatch | src-tauri/src/enrichment.rs:754-851 | the adult search over the queries |
| ProviderMatches.ResolveMeans | src-tauri/src/enrichment.rs:765-851 | the first query with title and poster ends it, with blanks filled from earlier answers; a stop ends it with nothing; else all titled answers are merged |
| ProviderMatches.SearchFindsWhatThereIs | src-tauri/src/enrichment.rs:765-851 | without a stop it finds a match if and only if some query has a titled one, and a poster if and only if some query has both |
| ProviderMatches.AskFurtherProviders | src-tauri/src/enrichment.rs:2040-2096 | the further chain runs only if configured and while title or poster is missing |
| ProviderMatches.FurtherProvidersOnlyFillIn | src-tauri/src/enrichment.rs:2040-2096 | it replaces nothing that was found, and leaves a complete match alone |
| ProviderMatches.FurtherProvidersMean | src-tauri/src/enrichment.rs:2040-2096 | a configured chain asks until title and poster are there, a stop is seen, or no query is left; every field of the result is then the first one that says something among the known match and the found answers |
| ProviderMatches.ChainFindsWhatThereIs | src-tauri/src/enrichment.rs:2040-2096 | where nothing was known and no stop is seen, a configured chain finds a match if and only if some query does |
| AdultAttempts.AttemptLog.RecordAttempt | src-tauri/src/adult_attempts.rs:95-127 | the upsert of an attempt row and its counter |
| AdultAttempts.AttemptLog.PendingItemIds | src-tauri/src/adult_attempts.rs:132-148 | exactly the retryable rows, oldest first, then by number |
| AdultAttempts.OlderComesFirst | src-tauri/src/adult_attempts.rs:132-148 | in the order of that list, attempts of an earlier time come first, and of one time the smaller number |
| AdultAttempts.RowIsTheLastAttempt | src-tauri/src/adult_attempts.rs:95-127 | over any calls a row holds the last attempt and the number of all |
| AdultAttempts.PendingIsWhatFailedLast | src-tauri/src/adult_attempts.rs:64-148 | after any attempts, pending are exactly the items whose last one missed, failed, timed out or left the poster missing |
| AdultItem.BuildMetadataUpdate | src-tauri/src/enrichment.rs:1207-1269 | each field of the update, and that the running count is the number of populated fields |
| AdultItem.LocalIsNotRemote | src-tauri/src/enrichment.rs:1916-1923 | a local poster is no address, trimmed or not |
| AdultItem.AdultLibrary.GetPoster | src-tauri/src/enrichment.rs:2128-2198 | download, failure and frame fallback, with the field count kept right |
| AdultItem.AdultLibrary.Record | src-tauri/src/enrichment.rs:2282-2298 | one attempt under the outcome, unless recording fails |
| AdultItem.AdultLibrary.UpdateRow | src-tauri/src/db.rs:978-1017 | the row of the file, if it is still there, keeps each field that the update lacks |
| AdultItem.AdultLibrary.Conclude | src-tauri/src/enrichment.rs:2200-2276 | sidecar, row and outcome, whatever the row has become |
| AdultItem.AdultLibrary.EnrichResolved | src-tauri/src/enrichment.rs:2119-2276 | everything after the provider phase |
| AdultItem.AdultLibrary.EnrichAdultItem | src-tauri/src/enrichment.rs:1988-2276 | the whole pipeline: outcome, row, and exactly one attempt for every call |
| AdultItem.AdultLibrary.GatherAdultMetadata | src-tauri/src/enrichment.rs:2391-2449 | the loop over items loaded beforehand, up to a stop, and its report |
| AdultItem.AdultLibrary.ItemsToRetry | src-tauri/src/adult_attempts.rs:132-148 | the pending items, out of the record that the pipeline writes |
| AdultRuns.WrittenIs | src-tauri/src/enrichment.rs:2229-2276 | a pass writes its whole final update, or nothing |
| AdultRuns.PosterIsGottenExactlyWhen | src-tauri/src/enrichment.rs:2128-2198 | a pass gets a poster if and only if one is offered as a path, downloaded, or promoted from a frame |
| AdultRuns.WrittenPosterIsLocal | src-tauri/src/enrichment.rs:2128-2257 | after a pass the row's poster is what it was, or a local path and no address with a lower-case http or https scheme |
| AdultRuns.AddressIsWrittenExactlyWhen | src-tauri/src/enrichment.rs:2128-2257 | a pass writes an address in any case if and only if it writes the row, the item has no poster, and the providers give an address whose scheme is not in lower case |
| AdultRuns.AnOddAddressIsWritten | src-tauri/src/enrichment.rs:2128-2257 | a pass after which the row holds an address with the scheme in upper case |
| AdultRuns.RowsAfterPass | src-tauri/src/db.rs:978-1017 | all rows after a pass, field by field, whatever the item's row has become since it was loaded |
| AdultRuns.PassOnlyFillsInExactlyWhen | src-tauri/src/enrichment.rs:1207-1269 | a pass replaces nothing that the row says, title and media type included, if and only if it does not write the row or each gap that it fills is still open |
| AdultRuns.PassKeepsAnUnchangedRow | src-tauri/src/enrichment.rs:1207-1269 | in a row not changed since it was loaded, a pass replaces the title and the media type at most |
| AdultRuns.AnEditIsOverwritten | src-tauri/src/db.rs:978-1017 | a pass after which an edit made since loading is gone from the row |
| AdultRuns.PosterIsMissingExactlyWhen | src-tauri/src/enrichment.rs:2200-2201 | a poster is reported missing if and only if the row as loaded is left without a local one |
| AdultRuns.PosterReportFitsTheRowExactlyWhen | src-tauri/src/enrichment.rs:2200-2276 | exactly when that report fits the row that the pass leaves |
| AdultRuns.PosterAfterRun | src-tauri/src/enrichment.rs:2128-2257 | over any run a row's poster is the one that the last pass that got one wrote, or the one it had |
| AdultRuns.AddressAfterRunExactlyWhen | src-tauri/src/enrichment.rs:2128-2257 | over any run a row's poster is an address if and only if that pass took one in odd case, or no pass got a poster and it was one before |
| AdultRuns.NoRunWritesARemotePoster | src-tauri/src/enrichment.rs:2128-2257 | no run brings an address with a lower-case scheme into a row |
| AdultRuns.MissesWriteNothing | src-tauri/src/enrichment.rs:2229-2276 | misses, skips and failures write nothing; the number reported is the number of fields written |
| AdultRuns.RetriedExactlyWhen | src-tauri/src/enrichment.rs:2259-2276 | a retry is asked for exactly after a time-out, miss or failure, or when the row as loaded is left without a local poster |
| AdultRuns.PendingAfterRunExactlyWhen | src-tauri/src/adult_attempts.rs:64-148 | over any run of passes, from any record, an item is pending if and only if the last pass over it whose attempt could be recorded ended in a retryable outcome |
| AdultRuns.RunRecordsItsAttempts | src-tauri/src/enrichment.rs:2282-2298 | the record after a run is that of its attempts, one for each pass unless recording fails |
| AdultRuns.ReportCountsTheFieldsWritten | src-tauri/src/enrichment.rs:2391-2449 | a gather reports as many fields as its passes write |
| AdultReports.ProvidersFindWhatThereIs | src-tauri/src/enrichment.rs:2018-2096 | without a stop, and with further providers, a pass finds a match if and only if a keyed query has a titled answer or a further one any |
| AdultReports.CompleteExactlyWhen | src-tauri/src/enrichment.rs:76-99 | what is skipped as complete: an overview other than "n/a", a poster that is no web address, and a year or a genre |
| AdultReports.RecordedExactlyAs | src-tauri/src/enrichment.rs:1988-2298 | the attempt that a pass records, told by what was there and what was found |
| AdultReports.ReportCountsThePasses | src-tauri/src/enrichment.rs:2391-2449 | a gather reports how many of its passes skipped a complete item, filled in a field, got a poster from a frame or by download, and wrote a sidecar |

## Left out

- Job and action ids are their numbers; the `job-` and `act-` spelling and the wrap-around of the 64-bit counters are not modelled.
- The texts of start responses, and the JSON spelling of statuses and reports.
- Panics, mutex poisoning and the loss of tasks at shutdown. An abort may take effect at any later step or never.
- The agent's requests, key and model checks, activity events, displayed reply text and the effects of an executed action.
- The tool calls of one round run at one moment; a switch of profiles between two of them is not modelled.
- Message content is typed blocks, not JSON: malformed JSON values have no counterpart.
- Quarantine: folders, links, file names that are not valid Unicode, and case-insensitive file systems. A failing operation changes nothing, except that a broken copy may leave anything at its destination. Errors are constructors, not texts.
- Finding duplicates (`keyed_groups`, wasted bytes, content hashes) and removing one: sums over a map that would add only easy members.
- QueryCodec.PercentDecode: gives the bytes before the lossy conversion to text, which changes nothing on valid UTF-8; the request line is split at ASCII white space.
- Tokens, PKCE, sockets and HTTP.
- NfoRatings.SidecarHasNoCertification: the region picker of a rating text is any function; its own rules are not modelled.
- The NFO writer's choice of file and the write itself, and the XML reader of `nfo.rs`, which is not part of this model; the unescaping in the round trips is the inverse proved to exist.
- A rating printed in the sidecar is carried in tenths and not below zero, and ordering by rating uses the order of the floating-point values, not their arithmetic.
- Title normalising, media-type grouping, release-name parsing and collection key normalising are carried values or arbitrary functions; their files are not part of this model.
- CollectionStore.CollectionTables.Rebuild: gives out row ids without the gaps SQLite may leave after an update on conflict; the texts of SQL errors are not modelled.
- AgentModels abstracts a history to the models that made it, and leaves out the check of a model's name.
- Discovery's scores, similarity, recommendations, popularity, caching and fetching.
- The standard-video branch of `resolve_provider_match`, the building of queries, the embedded title, and the list of provider error texts.
- AdultItem.AdultLibrary.EnrichAdultItem: the cleaned title that replaces the item's is given, not computed, and the sidecar's content is the subject of `NfoSidecar`.
- Time stamps are numbers in time order.
- Chapter thumbnails (`chapters.rs`): file naming and sorting only.
