# Verified models of the shell IDE's protocols and algorithms

The IDE is a Tauri/Vue application around a terminal, a git panel, an editor and an AI assistant. This
project models the parts of it that are protocols or algorithms rather than user interface, and proves what
they promise. One module follows one component:

- `RunVisual`, `WritePipeline`, `WriteHolds`, `WriteWakeUps`, `TerminalTheme`, `ThemeCodes`, `RewrittenStream`,
  `RunSeparator`, `TerminalSession`, `TerminalStream`, `StreamTexts`: the terminal session. Frames of a script run are put back in order,
  written through a two-buffer pipeline, and recoloured for the light theme.
- `TerminalRun`, `TerminalEndings`: the life of a script run between its racing events.
- `GitBaseline`, `GitCaching`, `GitHistory`, `GitLoading`, `GitPages`, `GitWorld`, `GitStore`: the git store's
  caches, tokens and paging.
- `TextPreview`, `PreviewCharacters`, `PreviewCuts`, `FieldBudgets`, `FieldLines`: graphemes, clipped previews and the sharing of a line between fields.
- `TerminalOutput`, `OutputChunks`, `UntitledName`: the editor store's bounded output and fresh names.
- `EventAdapter`, `SidecarAgent`, `SidecarOutput`, `SidecarCalls`, `SidecarTexts`,
  `SidecarListener`: a run of the AI sidecar, from stream payloads to AG-UI events.
- `AiConversation`, `ConversationLaws`: the bounded list of conversations.
- `ShellCompletion`, `CommandReadings`, `PreviewMatches`: reading a command line, and finding text in a preview.
- `SaveConventions`, `SaveFlow`: normalising a document for saving, and saving it through the formatter.
- `Prelude`: the pieces of JavaScript's string vocabulary they share.

Asynchronous code is modelled as atomic steps: an event handler, a timer firing, an answer to a request or a
write callback is one step, and theorems speak about every sequence of steps. State that the code updates in
place is a class whose methods are proved against functions on values; the theorems are about those
functions. Loops of the code are loops here. Clocks, random identifiers, case folding, path normalisation, the
backend's log, the command catalogue and the formatter are parameters or fresh values.

## What the proofs found

Where the code does not do what one would expect, or what its comments say, the model follows the code:

- The write pipeline is not first-in first-out when text is queued while the panel is hidden and the visible
  buffer is not empty (`OrderIsKeptExactly`, `OvertakingHappens`).
- Text and callbacks can be left behind on a shown panel with nothing under way that would deliver them:
  `StepStrandsExactly` and `EndsStrandedExactly` say when. A completing write does not look at the backlog
  (`BacklogIsForgotten`), and becoming visible looks at nothing but the backlog, so text held back by a resize
  (`HeldTextIsForgotten`) or a callback (`CallbackIsForgotten`) is not seen. A panel that stays shown delivers
  everything (`StayingShownDelivers`).
- Removing a run separator that does not end in a carriage return and a line feed can take more than its line
  (`StripUndoesInsertionExactly`, `MoreThanTheLineIsCutHappens`). No separator of the backend is of that kind
  (`BackendSeparatorIsStripped`), and other output is not searched for separators: it takes a payload that is
  marked as a separator and holds other text with the marker in it.
- A colour sequence that is spread over two queued values is not rewritten for the light theme
  (`RewrittenStreamExactly`, `StraddlingSequenceStaysWhite`).
- The finalization log of a run is redundant: clearing the current run id already guarantees one outcome per
  run (`CurrentRunNotFinalized`).
- The history loading flag of the git store can stay up after a repository switch (`HistoryFlagCanStayUp`, with
  the exact condition in `HistoryFlagExactly`). A baseline that is handed out may be older than the last clear,
  though it is never cached (`SharedFetchMayBeOutdated`, `SharedFreshExactly`); and one that is up to date is
  thrown away when another file was invalidated meanwhile (`OtherFileDiscardsAnswer`, `AnswerCachedExactly`).
- The bounded output can begin with half a surrogate pair when an unpaired surrogate starts a chunk
  (`LoneSurrogateSurvives`, with the exact condition in `AppendKeepsLastExactly`).
- The comments of the sidecar agent say that a run always terminates its observable, also on abortion. The
  code does not complete an aborted run (`AbortedRunNeverCompletes`). A finished run never releases its stream
  listener (`FinishedRunKeepsListening`). An error that ends a run is reported twice exactly if it came in the
  stream, and an error in the body of the answer is reported without ending the run (`RunErrorsExactly`,
  `StreamErrorTwiceHappens`, `BodyErrorGoesOn`).
- Writing to a conversation that is not active can evict the active one (`ReplaceOtherEvictsActiveExactly`,
  `ActiveIsEvictedHappens`), and a saved state with repeated identifiers breaks the store's invariant
  (`ReplaceEstablishesInvariant`, `RepeatedIdBreaksInvariant`); the schema of saved states does not exclude them.
- What is typed while a save waits for the formatter is overwritten (`TypedWhileFormattingIsLost`,
  `LastEditKeptExactly`), unless a second save, begun before that, brings it back (`SecondSaveBringsItBack`).
- The last clipping of a line of fields never applies (`FormatPrioritizedFieldPreview`).

## Model

| member | source | states |
|---|---|---|
| RunVisual.AnyOrderIsWrittenInOrder | src/terminal/session.ts:1377-1424 | frames 1..n of a run in any order, with any duplicates, and no gap timer: exactly frames 1..n are written, in order, once each; the transaction is over iff frame n is the separator, else it waits for n + 1 with nothing pending |
| RunVisual.WrittenUpToFirstGap | src/terminal/session.ts:1377-1424 | after any arrivals of a run, exactly the frames up to the first missing one have been written, and exactly the later ones that arrived are pending |
| RunVisual.EachRunIsWrittenInOrder | src/terminal/session.ts:1403-1424 | the same for one run among any traffic and gap timers of other runs, provided nothing of it arrives after its separator has completed it |
| RunVisual.RunsAreIndependent | src/terminal/session.ts:1325-1349 | what a run writes and keeps depends on its own frames and its own gap timer only |
| RunVisual.UnnumberedIsWrittenAtOnce | src/terminal/session.ts:1403-1416 | a payload is put in order if and only if it names a run and has a positive safe integer; any other is written as it comes, and no run notices |
| RunVisual.PlayWritesAscending | src/terminal/session.ts:1351-1424 | under any loss, duplication, reordering and timer firing: written numbers strictly increase, only frames that arrived are written, pending numbers stay above the next expected one, and the timer is armed iff something is pending |
| RunVisual.FiringMakesProgress | src/terminal/session.ts:1361-1375 | each firing of the gap timer writes at least one frame and leaves strictly fewer waiting, and no waiting frame is lost unless a waiting separator ends the transaction |
| RunVisual.QuietTransactionDrains | src/terminal/session.ts:1361-1375 | with n frames waiting, n firings write exactly them, unless one is a separator |
| RunVisual.DrainSplits | src/terminal/session.ts:1377-1401 | draining splits the waiting frames into written ones and ones still waiting |
| RunVisual.PlayEndsAtSeparator | src/terminal/session.ts:1384-1389 | a transaction that is still open has not written a separator |
| WritePipeline.OneWriteAndEveryCallbackOnce | src/terminal/session.ts:1198-1280 | over every interleaving at most one write is outstanding, and after-write callbacks run once each, in the order of registration, or are still waiting |
| WritePipeline.CallbacksRunWhenIdle | src/terminal/session.ts:1198-1280 | callbacks run only when no write is in flight and, with a terminal attached, the visible buffer is empty |
| WritePipeline.TextIsConserved | src/terminal/session.ts:1207-1310 | over every interleaving, as a multiset, queued text is what the terminal received plus the hidden backlog plus the visible buffer; what the terminal received only grows |
| WritePipeline.OrderIsKept | src/terminal/session.ts:1207-1310 | if no text is queued while hidden over a non-empty visible buffer, received ++ backlog ++ buffer is the queued text, in order |
| WritePipeline.OrderIsKeptExactly | src/terminal/session.ts:1223-1228 | for distinguishable characters the order is kept if and only if that never happens |
| WritePipeline.OvertakingHappens | src/terminal/session.ts:1299-1310 | a run of five steps after which the terminal was given "ba" for "a", "b" |
| WritePipeline.FlushDeliversExactly | src/terminal/session.ts:1207-1280 | flushing a visible panel and completing its writes delivers everything in order, unless a write is in flight, the buffer is empty and there is a backlog: then, and only then, the backlog stays behind with no timer armed |
| WriteHolds.ResizeHoldsWrites | src/terminal/session.ts:1043-1068 | over every run: from the start of a resize until it settles the terminal receives nothing and no write is begun, whatever is queued and flushed, whatever writes complete, and whether the panel is hidden or shown |
| WriteHolds.HiddenReceivesNothing | src/terminal/session.ts:1225-1232 | over every run: neither does it while the panel is hidden |
| WriteHolds.HeldRunWritesNothing | src/terminal/session.ts:1207-1232 | the same for any run in which the panel is always hidden or being resized |
| WriteHolds.StepWritesExactly | src/terminal/session.ts:1207-1280 | for every state and step: the terminal receives everything that waits if and only if the step flushes, there is a terminal, the panel is shown and not being resized, no other write is under way and something waits; otherwise it receives nothing |
| WriteHolds.StepRunsCallbacksExactly | src/terminal/session.ts:1198-1280 | for every state and step: the waiting callbacks run, all of them, if and only if a flush finds no terminal or nothing to write, or a write completes over an empty buffer; otherwise they keep waiting |
| WriteHolds.StepMovesTextExactly | src/terminal/session.ts:1223-1310 | for every state and step, where the text waits: queued text on the side the panel is on, and what a flush of a hidden panel moves |
| WriteHolds.StepChangesPanelExactly | src/terminal/session.ts:495-511 | for every state and step, which timers are set and cancelled, and what becomes of visibility, resizing and the terminal |
| WriteWakeUps.StepStrandsExactly | src/terminal/session.ts:1207-1310 | for every state and step: a shown, attached panel is left with text or callbacks waiting and no write, timer or resize under way, if and only if a write completes over an empty buffer and a backlog, or the panel is shown, gets its terminal or stops being resized with something waiting that none of these schedules |
| WriteWakeUps.StepHelpsExactly | src/terminal/session.ts:495-511 | what gets such a panel going again, exactly: new text, a flush, becoming visible over a backlog, settling a resize over buffered text or callbacks; or the panel is hidden or resized |
| WriteWakeUps.EndsStrandedExactly | src/terminal/session.ts:1043-1310 | over every run of the pipeline, hiding and showing included: it ends with such a panel if and only if some step strands it and no later step helps |
| WriteWakeUps.ShowingStrandsExactly | src/terminal/session.ts:495-511 | showing a hidden panel forgets what waits if and only if nothing is under way and there is no backlog: the repair on becoming visible looks at the backlog only |
| WriteWakeUps.StayingShownNeverStrands | src/terminal/session.ts:1196-1310 | it takes hiding: over every run without a change of visibility, a shown panel without a backlog is never left so |
| WriteWakeUps.StayingShownDelivers | src/terminal/session.ts:1196-1310 | such a panel delivers: after any such run, once a resize under way has settled, the timers have fired and the writes have completed, the terminal has received everything that waited and everything queued, in order, and every callback has run, once each |
| WriteWakeUps.HeldTextIsForgotten | src/terminal/session.ts:1043-1068 | a run: text held back by a resize that settles while the panel is hidden stays in the buffer of the shown panel |
| WriteWakeUps.CallbackIsForgotten | src/terminal/session.ts:1198-1222 | a run: an after-write callback registered while the panel is hidden is not run when it is shown |
| WriteWakeUps.BacklogIsForgotten | src/terminal/session.ts:1256-1279 | a run from a fresh panel to the state in which the completion of a write leaves the backlog behind |
| TerminalSession.TerminalSession.FlushTerminalWriteBufferNow | src/terminal/session.ts:1207-1280 | the method on the session's fields is the pipeline's flush |
| TerminalSession.TerminalSession.OnTerminalWriteDone | src/terminal/session.ts:1256-1279 | the terminal's write callback is the pipeline's completion step |
| TerminalSession.TerminalSession.QueueTerminalWrite | src/terminal/session.ts:1299-1310 | queueing on the fields is the pipeline's queue step |
| TerminalSession.TerminalSession.HandleBecomeVisible | src/terminal/session.ts:495-511 | becoming visible flushes iff there is a backlog |
| TerminalSession.TerminalSession.HandleShellWindowResizeSettled | src/terminal/session.ts:1053-1068 | settling a resize reschedules what was held back |
| TerminalSession.TerminalSession.DrainRunVisualTransaction | src/terminal/session.ts:1377-1401 | the drain loop on the transaction object writes what the specification drains, in that order, and keeps or removes the transaction accordingly |
| TerminalSession.TerminalSession.HandleRunVisualDataPayload | src/terminal/session.ts:1403-1424 | handling a payload on the map of transaction objects is a step of the many-runs specification, payloads without a run number included |
| TerminalSession.TerminalSession.OnGapTimer | src/terminal/session.ts:1351-1375 | the gap timer on the objects is the specification's timer step for that run |
| TerminalStream.RunSplits | src/terminal/session.ts:1312-1424 | resequencing and pipeline run side by side: the pipeline does what it would do alone with one queued text for each written frame, and the transactions what they would do alone |
| TerminalStream.StreamIsConserved | src/terminal/session.ts:1207-1424 | over every interleaving of frames, gap timers, flushes, resizes and changes of visibility, the texts of the written frames and the session's own texts are neither lost nor duplicated |
| TerminalStream.StreamIsInOrderExactly | src/terminal/session.ts:1207-1424 | for distinguishable characters the terminal gets them in the order of writing if and only if no non-empty text is queued while the panel is hidden over a non-empty visible buffer |
| StreamTexts.RunOutputReachesTerminalInOrder | src/terminal/session.ts:1207-1424 | end to end, told from the data of the frames: frames of a run in any order and with duplicates, among the frames and gap timers of other runs and the session's own texts, while the panel is flushed, hidden, shown and resized, come out of the terminal in order and once each, if nothing overtakes; a frame as its data in the colours of the theme, and a separator that is not to be shown without its line |
| StreamTexts.LoneRunIsTheStream | src/terminal/session.ts:1207-1424 | with nothing else written and nothing overtaking, the terminal gets exactly these texts of the run's frames |
| StreamTexts.LoneRunIsItsData | src/terminal/session.ts:1312-1323 | in the dark theme, with separators shown or none among the frames, that is the concatenation of the frames' data |
| StreamTexts.HiddenSeparatorLeavesPrompt | src/terminal/session.ts:1312-1316 | with separators hidden, it is the data of all frames but the separator, and of that the line break in front of its line and the prompt behind it |
| StreamTexts.LoneRunIsShownLightened | src/terminal/session.ts:1299-1424 | and in the light theme the terminal shows these texts as the dark theme would, with the four forced colours as the default ones, if no sequence that needs rewriting is spread over frames |
| RunSeparator.StripUndoesInsertionExactly | src/terminal/session.ts:269-281 | removing the separator line undoes its insertion if and only if the line ends in a carriage return and a line feed, or no such pair is in the text behind it |
| RunSeparator.UnendedSeparatorIsStripped | src/terminal/session.ts:275-280 | a separator line without a line end is removed to the end of the text |
| RunSeparator.BackendSeparatorIsStripped | src-tauri/src/terminal/visual.rs:158-181 | of every separator the backend builds, for any exit code, duration, prompt and place, exactly the line is removed, and the line break in front of it and the prompt stay |
| RunSeparator.NoSeparatorNoChange | src/terminal/session.ts:269-274 | a text without a marker is left alone |
| RunSeparator.SeparatorLooksLikeThis | src-tauri/src/terminal/visual.rs:158-181 | the line the backend writes, in an example with number, exit code and duration |
| RunSeparator.MoreThanTheLineIsCutHappens | src/terminal/session.ts:275-280 | a separator line that ends in a line feed alone takes the first line behind it along |
| RunSeparator.IndexOf | src/terminal/session.ts:269-276 | the first occurrence from a place on, or none if there is none |
| TerminalTheme.NormalizeSgrParams | src/terminal/session.ts:190-243 | the loop that pushes parts computes the light form of the parameter list |
| TerminalTheme.RewrittenDenotesLightOperations | src/terminal/session.ts:190-243 | read as colour operations (ECMA-48 section 8.3.117), the rewritten list has the same length and the same operations, with only 37/97 turned into 39 and 40/100 into 49; extended colours and their arguments are untouched |
| TerminalTheme.OperationsLossless | src/terminal/session.ts:190-230 | the reading as operations loses nothing: the parts can be put together again |
| TerminalTheme.LightPartsIdempotent | src/terminal/session.ts:190-243 | rewriting a list twice is rewriting it once |
| TerminalTheme.ApplyLight | src/terminal/session.ts:64-86 | a lightened operation acts on a lightened rendition as the operation does on the rendition, lightened |
| TerminalTheme.NormalizeAnsiPreservesRendering | src/terminal/session.ts:245-252 | for every text, the rewritten text prints the same characters in the same renditions, except that the four forced colours show as the default ones |
| TerminalTheme.NormalizeAnsiIdempotent | src/terminal/session.ts:245-252 | rewriting a text twice is rewriting it once: no new sequence appears |
| ThemeCodes.ChannelsAreKept | src/terminal/session.ts:205-230 | behind 38 or 48 and the mode 2 three channels are kept as they are, whatever numbers they are, and rewriting goes on behind them |
| ThemeCodes.IndexIsKept | src/terminal/session.ts:205-230 | behind the mode 5 one index is |
| ThemeCodes.OtherModeIsKept | src/terminal/session.ts:205-230 | in any other mode only the mode is |
| ThemeCodes.BrokenColourIsKept | src/terminal/session.ts:205-230 | a colour that the list breaks off in is kept as far as it goes |
| ThemeCodes.PlainCode | src/terminal/session.ts:190-204 | any other parameter is a code of its own: 37 and 97 become 39, 40 and 100 become 49, and the rest stays |
| ThemeCodes.CodesAreNumbers | src/terminal/session.ts:195-200 | a parameter is read as the number it is written as, and an empty one as 0 |
| RewrittenStream.RewrittenStreamExactly | src/terminal/session.ts:1299-1310 | rewriting a stream value by value, as they are queued, gives the rewriting of the whole stream if and only if no sequence that needs rewriting is spread over values |
| RewrittenStream.RewrittenStreamRenders | src/terminal/session.ts:1299-1310 | then the stream shows as the whole would in the dark theme, lightened |
| RewrittenStream.StraddlingSequenceStaysWhite | src/terminal/session.ts:1299-1310 | two values after which a letter stays white in the light theme |
| TerminalRun.EveryRunEndsOnce | src/composables/useTerminalRun.ts:161-241 | over every interleaving of start, prime, dispatch, chunks, completion, exit, timeout and dispose: no run has two outcomes, and until disposal every primed run but the current one has had exactly one, in the order of priming |
| TerminalRun.EndedRunStaysEnded | src/composables/useTerminalRun.ts:292-388 | an event or dispatch result that names an ended run changes nothing, also when another run is under way |
| TerminalRun.OutcomeCarriesAllChunks | src/composables/useTerminalRun.ts:444-495 | whatever arrives of other runs, late dispatch results, timeouts and flushes included: the outcome of a run that ends with an exit code, by a completion with or without its id or by an exit of the terminal, carries all its chunks, in order, those still waiting for the batch timer included |
| TerminalRun.AnnouncedOutputIsComplete | src/composables/useTerminalRun.ts:292-495 | in every run of the composable from its initial state, a script that is primed, fed and ended is announced last, with success exactly for exit code 0 and with exactly the chunks that arrived for it |
| TerminalEndings.EveryEndingEnds | src/composables/useTerminalRun.ts:161-388 | in every run from the initial state: a script that is primed, fed and ended, by completion, exit, rejected dispatch or timeout, is announced last, once, as succeeded exactly for exit code 0 and as timed out exactly for the timeout, with all its output if it has an exit code; no run is current then, nothing is running or waiting, the store holds the output, or the message after a rejection, and the next start is accepted |
| TerminalEndings.FailedStartEnds | src/composables/useTerminalRun.ts:521-531 | an accepted start that fails is announced as failed for no run, with its message as the output, and the next start is accepted |
| TerminalEndings.StartIsAcceptedExactly | src/composables/useTerminalRun.ts:501-521 | a start is accepted if and only if it is allowed and nothing is running, and changes nothing else |
| TerminalEndings.OutputReachesStore | src/composables/useTerminalRun.ts:101-115 | a primed script is current with no output, and once the batch timer fires the store holds exactly its chunks |
| TerminalEndings.DisposedIsDeaf | src/composables/useTerminalRun.ts:566-574 | disposal ends the current run without announcing it, and no completion, exit, rejection, timeout, chunk or timer after it changes anything |
| TerminalEndings.WholeRunHappens | src/composables/useTerminalRun.ts:292-315 | a run from the initial state that goes from start to success with its output |
| TerminalRun.TerminalRun.CurrentRunNotFinalized | src/composables/useTerminalRun.ts:182-192 | the guard on the 500-entry log never stops an ending: the current run is never among the finalized ones |
| TerminalRun.TerminalRun.FinalizeTerminalRun | src/composables/useTerminalRun.ts:444-495 | completion on the three places that hold the run id is one step of the small machine |
| TerminalRun.TerminalRun.FailTerminalRun | src/composables/useTerminalRun.ts:194-223 | failing announces the current run and clears it |
| TerminalRun.TerminalRun.PrimeTerminalRun | src/composables/useTerminalRun.ts:292-315 | priming replaces the current run and arms its timeout |
| TerminalRun.TerminalRun.OnDispatchRejected | src/composables/useTerminalRun.ts:340-368 | a rejected dispatch fails the run only while it is the current one |
| TerminalRun.TerminalRun.OnCompletionTimeout | src/composables/useTerminalRun.ts:225-241 | the timeout of a run fails it only while it is the current one |
| TerminalRun.TerminalRun.HandleIntegratedTerminalExit | src/composables/useTerminalRun.ts:370-388 | an exit of the terminal ends the current run, if any |
| TerminalRun.TerminalRun.AppendTerminalOutput | src/composables/useTerminalRun.ts:533-551 | a chunk is buffered iff it concerns the current run |
| TerminalRun.TerminalRun.FlushBufferedTerminalOutput | src/composables/useTerminalRun.ts:101-115 | the batch timer moves the buffered output to the store, in order |
| GitBaseline.CachedIsFresh | src/store/git.ts:186-226 | for every interleaving of get, answer, settle, invalidate, clear: a cached entry was fetched by a request for that file issued after its last invalidation and the last clear |
| GitBaseline.OneRequestPerFile | src/store/git.ts:200-226 | at most one request per file is in flight |
| GitCaching.AskExactly | src/store/git.ts:200-226 | a cached file is answered from the cache, one on its way shares its request, and for any other a request is issued, with the epoch of the moment, and shared from then on |
| GitCaching.LandingExactly | src/store/git.ts:209-217 | an answer changes no entry but that of its file, and that only in the epoch of its request; a failure changes none |
| GitCaching.SettlingFreesFile | src/store/git.ts:218-222 | a settled request is not shared any more: unless the file is cached, whoever asks next gets a request of their own |
| GitCaching.InvalidationExactly | src/store/git.ts:160-198 | an invalidated file is not cached any more and every other one still is, no request is touched, and clearing leaves no entry |
| GitCaching.AnswerCachedExactly | src/store/git.ts:206-222 | an answer is cached if and only if since its request there was no clear and no invalidation of any file that was cached or being fetched at that moment |
| GitCaching.OtherFileDiscardsAnswer | src/store/git.ts:186-222 | a run in which an up-to-date answer is not cached because another file was invalidated |
| GitCaching.SharedFreshExactly | src/store/git.ts:200-210 | the answer of a shared request is up to date if and only if none of the events that moved the epoch since then was a clear or named this file |
| GitBaseline.SharedFetchMayBeOutdated | src/store/git.ts:200-210 | a run in which a caller shares a fetch issued before a clear; its answer is handed out but not cached |
| GitHistory.HistoryIsPrefixOfLog | src/store/git.ts:385-414 | for every interleaving of loads, appends, status changes, resets and repository switches, the history shown is exactly the first nextOffset commits of the current repository's log, all of them when there is no next offset |
| GitHistory.AppendContinues | src/store/git.ts:385-414 | a page that is still wanted continues the history without gap or repetition, brings a commit if more were promised, and says exactly whether more are left |
| GitHistory.PagePrefix | src-tauri/src/commands/git/history.rs:23-72 | a page of the backend and what came before it is the log up to the next offset, or all of it |
| GitPages.ReloadShowsFirstPage | src/store/git.ts:385-414 | in every run: the page of a first load or a reload that is still wanted is shown, the first n commits of the shown repository's log for the n asked for, with whether and where it goes on; the flag goes down |
| GitPages.AppendShowsNextPage | src/store/git.ts:385-414 | in every run: a wanted page of an append adds exactly as many commits as were asked for, or all that are left |
| GitPages.StalePageChangesNothing | src/store/git.ts:402-404 | a page or a failure that is not wanted any more changes nothing in the store |
| GitPages.FailureKeepsHistory | src/store/git.ts:409-413 | the failure of a wanted load takes the flag down and leaves the history alone |
| GitPages.LoadAsksExactly | src/store/git.ts:385-400 | what a load asks for and changes at once, for first loads, appends, the end of the log and a store without a repository |
| GitPages.PagingReadsLog | src-tauri/src/commands/git/history.rs:23-72 | a first load and k appends show exactly k + 1 pages of the log, or all of it |
| GitPages.StatusAppliesExactly | src/store/git.ts:254-304 | the answer to the latest status request is applied if it is accepted: the history of another repository is dropped, that of the same one kept; other answers change nothing |
| GitPages.SwitchesExactly | src/store/git.ts:253-262 | a status is one of another repository if and only if the normalised roots differ, where no root and an empty one are the same, or none is available |
| GitPages.MutationApplies | src/store/git.ts:254-263 | so is the status that comes with a change of the repository |
| GitPages.RefreshAsksExactly | src/store/git.ts:281-290 | a refresh asks under a new token, or empties the store where there is no workspace |
| GitPages.FailedStatusKeepsStatus | src/store/git.ts:281-306 | a status request that fails leaves the status shown |
| GitPages.ResetEmpties | src/store/git.ts:228-252 | a reset empties the store and makes everything on its way obsolete |
| GitHistory.LoadingFlagsExactly | src/store/git.ts:281-304 | the status flag is up iff the latest status request is unanswered; the history flag iff the latest load is, or a status dropped the history under one |
| GitLoading.HistoryFlagExactly | src/store/git.ts:149-154 | over the events alone: the history flag is up if and only if a load is unanswered, or one was when a status that switched the repository was applied and since then there has been no load, no status refresh without a workspace and no reset |
| GitHistory.HistoryFlagCanStayUp | src/store/git.ts:149-154 | a run after which the history flag is up with nothing on its way |
| GitHistory.LatestStatusWins | src/store/git.ts:281-304 | a status answer is applied iff no later status request or reset began; otherwise it changes nothing |
| GitStore.GitStore.GetFileBaseline | src/store/git.ts:200-226 | on the store's fields: a cached answer, a shared request or a new one, with the epoch of the moment |
| GitStore.GitStore.InvalidateFileBaseline | src/store/git.ts:186-198 | on the store's fields: drops one entry and moves the epoch on if it was cached or being fetched, or drops all |
| GitStore.GitStore.OnBaselineAnswered | src/store/git.ts:211-218 | on the store's fields: caches the answer only in the epoch of its request |
| GitStore.GitStore.ApplyStatus | src/store/git.ts:254-263 | on the store's fields: a switch of repository clears the caches and the history |
| GitStore.GitStore.OnStatusArrived | src/store/git.ts:281-304 | on the store's fields: an answer whose token is outdated is dropped |
| GitStore.GitStore.LoadCommitHistory | src/store/git.ts:385-400 | on the store's fields: the synchronous part of a load: token, flag and request |
| GitStore.GitStore.OnHistoryPage | src/store/git.ts:401-410 | on the store's fields: appends or replaces only for the current token |
| GitWorld.FilesRunAlone | src/store/git.ts:144-263 | cache and repository as one machine, in which a switch of repository and a reset clear the cache in the same step: the cache goes through a run of its own |
| GitWorld.RepositoryRunsAlone | src/store/git.ts:228-414 | and so do status and history |
| GitWorld.HistoryIsPrefixOfLog | src/store/git.ts:385-414 | so at any time of the whole machine the history is the prefix of the shown repository's log |
| GitWorld.CachedIsFresh | src/store/git.ts:186-263 | and a cached entry was fetched by a request since which its file was not invalidated, the cache not cleared and the repository not switched or reset |
| GitWorld.SwitchForgetsBoth | src/store/git.ts:254-263 | the shown repository changes only in a step that empties the cache, moves its epoch and drops the history |
| GitWorld.CachedIsOfShownRepository | src/store/git.ts:144-263 | over every run: what is cached was asked for while the store showed the repository it shows now |
| TextPreview.SplitGraphemesFallback | src/utils/text-preview.ts:154-185 | the loop splits as the recursive definition of clusters says |
| TextPreview.GraphemesLossless | src/utils/text-preview.ts:154-185 | the clusters concatenate back to the text |
| TextPreview.GraphemesOfPrefix | src/utils/text-preview.ts:154-185 | splitting is stable on prefixes that end at a cluster boundary |
| TextPreview.GraphemesConcat | src/utils/text-preview.ts:154-185 | the clusters of a concatenation are those of the parts, except that the two that meet become one exactly if they are glued |
| TextPreview.CountSubadditive | src/utils/text-preview.ts:225-229 | a concatenation has at most the graphemes of its parts |
| TextPreview.CountNormalize | src/utils/text-preview.ts:217-218 | collapsing white space never adds graphemes |
| TextPreview.NormalizedIsFixed | src/utils/text-preview.ts:217-218 | a text with single inner spaces and none around is left alone by normalisation |
| TextPreview.NormalizePreviewTextIsNormalized | src/utils/text-preview.ts:217-218 | a normalised text has single inner spaces and none around |
| TextPreview.IncludeTrailingClosers | src/utils/text-preview.ts:316-332 | the loop stops behind all closing quotes and brackets within the limit |
| TextPreview.FindSemanticBoundary | src/utils/text-preview.ts:371-405 | the two backward loops find the last late sentence end, else the last later soft break, else the limit |
| TextPreview.BoundaryMeaning | src/utils/text-preview.ts:371-405 | a text is cut behind its last late sentence end and the closers after it; without one, behind its last later soft break and closers; without either, at the limit |
| TextPreview.LastMatch | src/utils/text-preview.ts:386-397 | a backward search returns the last match at or after its lower bound, or none if there is none |
| TextPreview.SemanticBoundary | src/utils/text-preview.ts:371-405 | the boundary is within the limit and the text, and not zero where there is text |
| TextPreview.ClipNeverExceedsLimit | src/utils/text-preview.ts:407-443 | a preview never has more graphemes than allowed, ellipsis included, on any branch, for any ellipsis and any number as limit |
| TextPreview.ClipShowsPrefix | src/utils/text-preview.ts:407-443 | a preview is the normalised text if that fits, else a non-empty beginning of it, followed by the ellipsis iff that leaves room |
| PreviewCuts.LongTextIsCutAt | src/utils/text-preview.ts:407-443 | where a preview that does not fit is cut: behind the last sentence end in the last 55 percent of the room beside the ellipsis, else behind the last soft break in the last 32 percent, with the closers that follow, else where the room ends; then the ellipsis |
| PreviewCuts.CutIsNoShorter | src/utils/text-preview.ts:371-405 | the cut is behind every sentence end that counts, and without one behind every soft break that does |
| PreviewCharacters.OneGraphemeExactly | src/utils/text-preview.ts:128-185 | which two characters are one grapheme, by their code points |
| PreviewCharacters.SentenceEndsExactly | src/utils/text-preview.ts:382 | the seven characters that end a sentence, wherever they are in a grapheme |
| PreviewCharacters.SoftBreaksExactly | src/utils/text-preview.ts:383 | the five characters, and white space, at which a text may be cut |
| PreviewCharacters.ClosersExactly | src/utils/text-preview.ts:314 | the characters that close a quotation or a bracket |
| FieldBudgets.AllocateFieldBudgets | src/utils/text-preview.ts:553-617 | the two loops end with budgets between 0 and need that add up to min(available, sum of needs), shrunk from the last field or grown from the first, never both |
| FieldBudgets.AllocationUnique | src/utils/text-preview.ts:553-617 | from given initial budgets these conditions fix the allocation: there is exactly one |
| FieldBudgets.BudgetsUnique | src/utils/text-preview.ts:527-617 | so for all fields and any space, the conditions and the initial budgets of the code determine what every field gets |
| FieldBudgets.InitialBudget | src/utils/text-preview.ts:527-543 | an initial budget is within the need, at least the minimum budget, and positive for a field that needs anything |
| FieldLines.ShareBoundsBudget | src/utils/text-preview.ts:527-543 | an initial budget is the field's share, its priority to all priorities as the budget to the available graphemes, rounded down: less only if the field needs less, more only up to its minimum budget or one grapheme |
| FieldLines.PrecedenceExactly | src/utils/text-preview.ts:85-93 | which field is served first: the one of higher priority, and of equal ones the earlier |
| FieldLines.SpaceIsExact | src/utils/text-preview.ts:489-505 | the space for values is what separators and labels leave of the limit |
| FieldLines.NeedIsCapped | src/utils/text-preview.ts:506-512 | a field needs the graphemes of its normalised value, but no more than it allows |
| FieldLines.MinimumIsCapped | src/utils/text-preview.ts:514-525 | its minimum budget is 8 graphemes if it does not say, and no more than it needs |
| FieldBudgets.Shrink | src/utils/text-preview.ts:571-588 | the first loop takes from the field of lowest precedence only, until the sum fits |
| FieldBudgets.Expand | src/utils/text-preview.ts:590-614 | the second loop gives to the field of highest precedence only, until nothing is left or needed |
| FieldBudgets.FindRemovable | src/utils/text-preview.ts:572-583 | of the fields with a budget, the one every later field of which has none |
| FieldBudgets.FindExpandable | src/utils/text-preview.ts:591-604 | of the fields in want, the one before which every field has all it needs |
| FieldBudgets.LineCount | src/utils/text-preview.ts:722-729 | a line has at most the graphemes of its separators, its labels and its budgets |
| FieldBudgets.FormatPrioritizedFieldPreview | src/utils/text-preview.ts:665-734 | the line is the allocation applied to the fields that are kept and fits as it is: clipping the whole line is never needed, with or without labels |
| FieldBudgets.Kept | src/utils/text-preview.ts:682-698 | fields are dropped from the end only, at least one stays, and the minimum budgets of several kept fields fit |
| FieldBudgets.KeptIsLongest | src/utils/text-preview.ts:682-698 | and no more could be kept: the minimum budgets of any more fields do not fit beside their separators and labels |
| FieldLines.LineIsJoined | src/utils/text-preview.ts:722-729 | the line is its fields in order with a separator between each two, each with its label in front if labels are shown and it has one, and its value clipped to its budget |
| FieldLines.AmpleLineIsWhole | src/utils/text-preview.ts:553-617 | where all needs fit, a field that is not capped is shown whole |
| TerminalOutput.SnapshotIsKeepLast | src/store/editor.ts:446-501 | after any appends and resets of well-formed UTF-16, the snapshot is the last 120000 code units of everything appended since, without half a surrogate pair |
| TerminalOutput.AppendDropsOverflow | src/store/editor.ts:458-496 | for every store and value, one append drops exactly the overflow, and one leading low surrogate more iff the cut is inside a chunk |
| TerminalOutput.AppendKeepsLastExactly | src/store/editor.ts:458-496 | the append keeps the promise if and only if the cut is inside a chunk or no low surrogate follows it |
| TerminalOutput.LoneSurrogateSurvives | src/store/editor.ts:475-482 | three appends after which the snapshot begins with half a surrogate pair |
| TerminalOutput.BoundedAlways | src/store/editor.ts:446-501 | after any operations on any code units: within the cap, and no empty chunk |
| OutputChunks.ChunksAreFew | src/store/editor.ts:446-501 | after any appends and resets, however small, there are at most sixty chunks |
| OutputChunks.RunIsMerged | src/store/editor.ts:459-476 | of any two chunks in a row behind the first, the second could not have been merged into the first |
| OutputChunks.PairIsWellFormed | src/store/editor.ts:57-80 | a character outside the basic plane is well formed and its halves are not |
| TerminalOutput.KeepLastTwice | src/store/editor.ts:57-68 | forgetting early or late makes no difference |
| TerminalOutput.TrimOverflow | src/store/editor.ts:473-491 | the trimming loop computes the trimmed chunks and keeps the cached length exact |
| TerminalOutput.TerminalOutputStore.AppendTerminalOutputChunk | src/store/editor.ts:458-496 | on the store's fields: the new chunks, the cached length equal to the sum, and the version |
| TerminalOutput.TerminalOutputStore.SetTerminalOutput | src/store/editor.ts:498-501 | replaces the chunks by the clamped text, or by none |
| TerminalOutput.TerminalOutputStore.SetTerminalOutputChunks | src/store/editor.ts:448-456 | keeps the text, without empty chunks, and recounts its length |
| UntitledName.ResolveUntitledName | src/store/editor.ts:175-188 | ends for every list of documents with a name no unsaved document has, ignoring case: the plain one, else the one with the smallest free number, which is at most the number of documents |
| UntitledName.TakenNumbersAreFew | src/store/editor.ts:182-186 | n taken numbers and the plain name need n + 1 different names |
| UntitledName.NumberedInjective | src/store/editor.ts:182-187 | different numbers give different names |
| EventAdapter.ResultCarriesAnnouncedId | src/copilotkit/event-adapter.ts:252-271 | the result of a tool call carries the identifier its start announced, whatever comes between, and no other open call has it |
| EventAdapter.CompletedCallGetsNewId | src/copilotkit/event-adapter.ts:252-271 | after its result, starting a call again announces an identifier above every one used so far |
| EventAdapter.NewCallGetsUnusedId | src/copilotkit/event-adapter.ts:252-271 | over every sequence of events, the identifier a new call announces is different from every identifier emitted before |
| EventAdapter.ConvertAllKeepsSound | src/copilotkit/event-adapter.ts:249-371 | over any events, open calls have different identifiers, all from the past |
| EventAdapter.SidecarEventAdapter.ConvertEvent | src/copilotkit/event-adapter.ts:273-373 | conversion on the adapter's map is the specified one, for every kind of event |
| EventAdapter.SidecarEventAdapter.ConsumeToolCallId | src/copilotkit/event-adapter.ts:260-268 | forgets the key, or makes an identifier up for an unknown one |
| SidecarAgent.BufferingIsTransparent | src/copilotkit/sidecar-agent.ts:129-262 | whatever arrives before and after the answer, and from whatever session, a run emits exactly what its own payloads and the body of the answer become, in order, up to the first that ends it, and completes iff one does |
| SidecarAgent.AlwaysFramed | src/copilotkit/sidecar-agent.ts:264-294 | over every sequence of events: TEXT_MESSAGE_END is emitted and the observable completes exactly once for a finished run and never for another; a finished run ends in RUN_FINISHED or RUN_ERROR |
| SidecarAgent.NothingFollowsTheEnd | src/copilotkit/sidecar-agent.ts:225-262 | after the end or the abortion of a run nothing is emitted and nothing completes |
| SidecarAgent.AbortedRunNeverCompletes | src/copilotkit/sidecar-agent.ts:180-219 | abortion never completes a run: it has completed iff it was finished before |
| SidecarAgent.FinishedRunKeepsListening | src/copilotkit/sidecar-agent.ts:180-219 | a finished run never drops its stream listener |
| SidecarListener.ListenerIsReleasedExactly | src/copilotkit/sidecar-agent.ts:180-219 | for every run: an installed listener is held or has been released, never both and never twice; a run torn down before it finished has released it, also when it was installed after the tear-down |
| SidecarListener.RequestIsSentExactly | src/copilotkit/sidecar-agent.ts:99-137 | the request is sent after the attempt to subscribe, successful or not, unless the run has been torn down |
| SidecarOutput.EveryRunEmits | src/copilotkit/sidecar-agent.ts:129-294 | for every sequence of events, failed requests and abortions included: a run emits exactly what its items, the own payloads, the body of the answer and the result, become, up to the first that ends it, and completes, once, iff one ends it |
| SidecarOutput.RunErrorsExactly | src/copilotkit/sidecar-agent.ts:138-261 | for every run, the number of RUN_ERRORs: one for each error in the body of the answer before the end, two if an error in the stream ends the run, one if the request fails |
| SidecarOutput.StreamErrorTwiceHappens | src/copilotkit/sidecar-agent.ts:243-261 | a run from the start whose output is RUN_ERROR, TEXT_MESSAGE_END, RUN_ERROR |
| SidecarOutput.BodyErrorGoesOn | src/copilotkit/sidecar-agent.ts:155-171 | a run that reports an error from the body of its answer and then finishes |
| SidecarCalls.OutputSplits | src/copilotkit/sidecar-agent.ts:129-294 | for every run: the output is the header, what one adapter makes of the replayed payloads, the body of the answer and the later payloads in order, and the end |
| SidecarCalls.RunResultsAreLast | src/copilotkit/event-adapter.ts:252-271 | in the output of every run nothing follows for a tool call after its result; in particular no two results are for the same call |
| SidecarCalls.RunResultCarriesAnnouncedId | src/copilotkit/event-adapter.ts:252-271 | in the output of every run the end and the result of a call carry the identifier its start announced, whatever is emitted in between, and whether the two came in the stream or in the body |
| SidecarCalls.RunNewCallIsUnused | src/copilotkit/event-adapter.ts:252-260 | in the output of every run a call that starts while none of its key is open announces an identifier mentioned nowhere before |
| SidecarTexts.EveryEventBecomes | src/copilotkit/event-adapter.ts:273-371 | for every run: what each event becomes, in order: a text that is not empty; the name of a call, with approve. in front where approval is asked for, and its input or preview; its result, preview or error message; an error; and nothing for the rest |
| SidecarTexts.TextComesOutWhole | src/copilotkit/event-adapter.ts:277-281 | for every run: the text deltas emitted, put together, are the texts sent, and none is empty |
| SidecarAgent.SidecarRun.HandleStreamPayload | src/copilotkit/sidecar-agent.ts:225-262 | on the context's fields: buffer, drop, or emit and end |
| SidecarAgent.SidecarRun.OnChatResponse | src/copilotkit/sidecar-agent.ts:138-171 | on the context's fields: replay of the own buffered payloads, then the body, then the result |
| SidecarAgent.SidecarRun.OnChatFailed | src/copilotkit/sidecar-agent.ts:172-177 | a failed request ends an active run with an error, once |
| SidecarAgent.SidecarRun.OnAbort | src/copilotkit/sidecar-agent.ts:180-196 | tear-down drops the listener of an unfinished run and leaves a finished one alone |
| AiConversation.ReachableInvariant | src/store/aiConversation.ts:258-386 | after any actions from the initial state: different threads, an active one among them, at most 20 with messages, and only the last may be empty |
| AiConversation.ReplaceEstablishesInvariant | src/store/aiConversation.ts:160-174 | a write establishes the invariant if and only if no identifier occurs twice among what is kept |
| AiConversation.AppendNeverEvictsActive | src/store/aiConversation.ts:305-310 | the active thread stays active and has the message at its end; of the others only the oldest can go, when an empty thread becomes the 21st conversation |
| AiConversation.NewThreadKeepsHistory | src/store/aiConversation.ts:335-341 | a new thread is added after all threads with messages, none of which is dropped |
| AiConversation.ReplaceOtherEvictsActiveExactly | src/store/aiConversation.ts:319-326 | writing to another thread takes the active one away if and only if that thread was empty, 20 conversations exist and the active one is the oldest |
| AiConversation.ActiveIsEvictedHappens | src/store/aiConversation.ts:319-326 | a run from the initial state that loses the active conversation so |
| AiConversation.RepeatedIdBreaksInvariant | src/store/aiConversation.ts:459-480 | a saved state with a repeated identifier after which the invariant does not hold |
| AiConversation.StepKeepsInvariant | src/store/aiConversation.ts:258-386 | every action keeps the invariant |
| ConversationLaws.DeletionExactly | src/store/aiConversation.ts:371-386 | a deleted thread is gone and all other conversations are there in order; the active thread stays active, or the last one left becomes it, or a fresh one |
| ConversationLaws.ClearingExactly | src/store/aiConversation.ts:347-359 | clearing leaves all other conversations in order and a fresh empty active thread behind them |
| ConversationLaws.SwitchExactly | src/store/aiConversation.ts:330-334 | opening a thread changes nothing but which is active, and a missing one cannot be opened or deleted |
| ConversationLaws.ReplacementExactly | src/store/aiConversation.ts:312-317 | replacing the active thread's messages leaves it active with just those |
| ConversationLaws.TouchExactly | src/store/aiConversation.ts:294-303 | an action on a thread that does not concern its messages keeps every conversation, in order, and the active thread |
| ConversationLaws.MissingThreadIsLeftAlone | src/store/aiConversation.ts:294-303 | an action on a thread that is not there changes nothing |
| ConversationLaws.WritingStartsThread | src/store/aiConversation.ts:269-292 | where no thread is active one is started before it is written to |
| ConversationLaws.HydrationExactly | src/store/aiConversation.ts:459-476 | a saved state of different threads and at most 20 conversations is taken over whole and in order, message by message, a streaming message as cancelled, with its active thread |
| ConversationLaws.NothingStreamsAfterHydration | src/store/aiConversation.ts:455-476 | whatever was saved, no hydrated message is streaming |
| ConversationLaws.LegacyHydrationExactly | src/store/aiConversation.ts:477-491 | a saved state of the old form becomes one thread, and an unreadable one an empty thread |
| AiConversation.HydrateEstablishesInvariant | src/store/aiConversation.ts:459-476 | hydration establishes it from a saved state without repeated identifiers |
| AiConversation.AiConversationStore.PatchActive | src/store/aiConversation.ts:269-290 | on the store's fields: patches the active thread, which is started if missing |
| AiConversation.AiConversationStore.Delete | src/store/aiConversation.ts:371-386 | on the store's fields: removes the thread and chooses the next active one |
| AiConversation.AiConversationStore.ClearActive | src/store/aiConversation.ts:347-359 | on the store's fields: replaces the active thread by an empty one |
| ShellCompletion.StripWrapperTokens | src/utils/shell-completion.ts:641-677 | the nested loops strip as the recursive definition says |
| ShellCompletion.StripUndoesWrapping | src/utils/shell-completion.ts:641-677 | a command line under any well-formed wrappers and options is stripped back to that command line |
| ShellCompletion.StripRemovesOnlyWrapping | src/utils/shell-completion.ts:641-677 | conversely, a line that yields a command was that command under well-formed wrappers |
| ShellCompletion.AwaitingIsExhausted | src/utils/shell-completion.ts:666-677 | nothing is left exactly when a wrapper awaits its command or there was nothing; what is left does not begin with a wrapper |
| ShellCompletion.StripTwice | src/utils/shell-completion.ts:641-677 | stripping twice is stripping once |
| CommandReadings.OptionTakesValueExactly | src/utils/shell-completion.ts:99-108 | which options of which wrapper take the next token as their value, and that none does that has a value of its own behind an equals sign |
| CommandReadings.AssignmentExactly | src/utils/shell-completion.ts:107 | an assignment is a shell name, an equals sign and any value, and only env takes it |
| CommandReadings.StripSkipsOne | src/utils/shell-completion.ts:641-664 | stripping leaves out an assignment of env and an option |
| CommandReadings.StripSkipsValue | src/utils/shell-completion.ts:641-664 | and an option with its value |
| CommandReadings.StripDropsWrapper | src/utils/shell-completion.ts:666-677 | it leaves out each of the five wrappers in front of a command, and no other word |
| ShellCompletion.ResolveCommandCatalogContext | src/utils/shell-completion.ts:679-747 | the method computes the specified context |
| ShellCompletion.WalkTokens | src/utils/shell-completion.ts:704-739 | the loop with its skips computes the recursive walk |
| ShellCompletion.WalkIsRoles | src/utils/shell-completion.ts:704-739 | the walk agrees with a reference that decides the role of one token at a time: value owed to the last flag, flag, subcommand or positional |
| ShellCompletion.RolesFollowTree | src/utils/shell-completion.ts:732-737 | the visited commands are a path of the tree from its root |
| CommandReadings.RoleExactly | src/utils/shell-completion.ts:704-737 | a token is a flag if and only if a visited command declares one with its name, which is tried before subcommands; the first declared of a primary name counts; else a subcommand of the last command, the first with the name; else positional |
| CommandReadings.OwedValues | src/utils/shell-completion.ts:708-722 | a flag owes the values it takes, one less if the token has one behind an equals sign |
| ShellCompletion.OwingFlagIsLast | src/utils/shell-completion.ts:708-729 | a flag with missing values is the last flag on the line, and all tokens after it are its values |
| ShellCompletion.ContextIsSound | src/utils/shell-completion.ts:679-747 | the reported path starts at the command's root, and an awaited value is one the last flag declares, with exactly the earlier ones given |
| ShellCompletion.CollectAvailableFlags | src/utils/shell-completion.ts:606-617 | the nested loops collect the first flag of every name |
| ShellCompletion.FirstFlagWins | src/utils/shell-completion.ts:606-617 | a flag is offered iff no earlier flag has its name |
| ShellCompletion.NamesAreDistinct | src/utils/shell-completion.ts:606-617 | no name is offered twice |
| PreviewMatches.BuildSshPreviewMatchRanges | src/utils/ssh-file-preview.ts:149-198 | the nested loops list all matching places of a line |
| PreviewMatches.RangesAreMatches | src/utils/ssh-file-preview.ts:168-195 | a range is listed iff the folded graphemes agree there |
| PreviewMatches.BuildGraphemeCodeUnitOffsets | src/utils/ssh-file-preview.ts:200-211 | offset k is the number of UTF-16 code units of the first k graphemes |
| PreviewMatches.BuildSshPreviewMatchHits | src/utils/ssh-file-preview.ts:213-253 | the loop over lines with its running offset computes the specified hits |
| PreviewMatches.HitsAreMatches | src/utils/ssh-file-preview.ts:213-253 | sound and complete: a hit is reported iff it is a match on some line, with its offsets |
| PreviewMatches.HitThereExactly | src/utils/ssh-file-preview.ts:149-253 | there is a hit on a line at a place if and only if the trimmed query has text and agrees with the line there, grapheme by grapheme |
| PreviewMatches.HitsAscend | src/utils/ssh-file-preview.ts:213-253 | hits are strictly sorted by global position, so each match is reported once |
| PreviewMatches.HitCutsMatch | src/utils/ssh-file-preview.ts:228-244 | the global range of a hit cuts exactly the matched graphemes out of the code units of the unified document |
| SaveConventions.NormalizeIsConventional | src/composables/useDocumentPersistence.ts:65-79 | a saved text has no carriage return, no trailing blanks if they are trimmed, and is empty or ends in exactly one newline, or none, by setting |
| SaveConventions.FixedExactlyIfConventional | src/composables/useDocumentPersistence.ts:65-79 | saving changes a text if and only if it violates the conventions |
| SaveConventions.NormalizeTwice | src/composables/useDocumentPersistence.ts:65-79 | saving twice is saving once, under all settings |
| SaveConventions.NormalizeIsLineWise | src/composables/useDocumentPersistence.ts:40-44 | a saved text is the document's lines, trimmed or not, without the empty ones at the end: nothing else is lost, added or moved |
| SaveFlow.EverySavedTextIsConventional | src/composables/useDocumentPersistence.ts:195-213 | at every step of every run of edits, overlapping saves and answers of the formatter, whatever it returns: a text that is saved satisfies the conventions of its settings and is what the document holds then |
| SaveFlow.ResultExactly | src/composables/useDocumentPersistence.ts:165-213 | for every step of every run: a save hands what the document holds to the formatter or saves it at once; a successful answer saves what the document holds then; a failed one saves and changes nothing |
| SaveFlow.TypedWhileFormattingIsLost | src/composables/useDocumentPersistence.ts:174-213 | over every run: after a successful answer of the formatter the content comes from before the save began, so every edit made since is lost |
| SaveFlow.OriginExactly | src/composables/useDocumentPersistence.ts:105-213 | over every run: the edit the content comes from, told from the steps alone, with every successful answer going back to the moment its save began |
| SaveFlow.LastEditIsKept | src/composables/useDocumentPersistence.ts:195-213 | conversely, the content comes from the last edit if no successful answer to an earlier save has come since |
| SaveFlow.LastEditKeptExactly | src/composables/useDocumentPersistence.ts:195-213 | if and only if, where saves do not overlap |
| SaveFlow.SecondSaveBringsItBack | src/composables/useDocumentPersistence.ts:195-213 | a run of two overlapping saves in which the first answer drops an edit and the second brings it back |
| SaveFlow.UnansweredEdit | src/composables/useDocumentPersistence.ts:105-117 | while no answer comes, the content is the last edit with the conventions of the saves begun since |
| SaveFlow.ContentIsOfOrigin | src/composables/useDocumentPersistence.ts:105-213 | over every run with a deterministic formatter: the content is the text of the edit it comes from, formatted and normalised some number of times, and nothing else |
| SaveFlow.OpenDocument.PrepareForSave | src/composables/useDocumentPersistence.ts:195-202 | on the document: the conventions are applied, and the text is saved or handed to the formatter |
| SaveFlow.OpenDocument.OnFormatted | src/composables/useDocumentPersistence.ts:174-213 | on the document, when the formatter has answered: its text replaces the content and the conventions are applied again; a failed formatter saves nothing |
| SaveFlow.OpenDocument.ApplySaveConventions | src/composables/useDocumentPersistence.ts:105-117 | normalises a text document in place and leaves others alone |
| Prelude.SplitJoin | src/utils/ssh-file-preview.ts:223-224 | splitting a joined list of lines gives the list back |
| Prelude.JoinSplit | src/composables/useDocumentPersistence.ts:40-44 | joining the lines of a text gives the text back |

## Left out

- Rendering, layout, scrolling, tooltips, focus, themes other than the colour rewriting, and all components: user interface.
- Tauri commands, IPC contracts, dialogs, HTTP routes of the sidecar, the Rust entry point: input and output.
- Detaching, disposing and replaying a terminal session: they drop buffers on purpose.
- The regular expressions by which the session recognises erase, cursor and screen-switch sequences: display only.
- Reconnecting before a dispatch (`ensureIntegratedTerminalSessionBeforeDispatch`): it comes down to a dispatch that is resolved or rejected.
- The bound on the terminal output inside `TerminalRun`: it is the subject of `TerminalOutput`.
- Branches, stashes, pull-request support and mutations of the git store: single flags and plain assignments.
- `Intl.Segmenter` and the sentence and word branches of clipping that exist only with it: `TextPreview` uses the fallback segmenter that the code contains, and takes texts to be in normalisation form C. Lone surrogates occur in `TerminalOutput` only.
- MinPreferredIndex: computes 45% of the limit (and MinSoftIndex 68%) over the reals, where the code multiplies floating-point numbers.
- Selecting, deduplicating and sorting preview fields (`normalizePrioritizedFields`): a filter and a sort before the allocation.
- `nextSeq` and `reset` of the event adapter, and the run, thread and message identifiers that every event carries unchanged.
- A consumer that tears an agent run down from inside an emission, and listeners that throw.
- Titles, timestamps and scroll positions of conversations: they do not influence which threads are kept; the actions that set them appear as `TouchThread`.
- Parsing shell text with tree-sitter, completion entries, their deduplication (`dedupeEntries`) and their sorting: heuristics and display around the resolution of the command line.
- Dialogs, encodings and file writing around saving a document, and a document that is closed while its save waits for the formatter.
- HydrateEstablishesInvariant: requires a saved state without repeated identifiers among what is kept, because without that the invariant fails, as `ReplaceEstablishesInvariant` says exactly.
- EachRunIsWrittenInOrder: excludes frames that arrive after the separator has completed a run, because they start a new transaction at number 1.
