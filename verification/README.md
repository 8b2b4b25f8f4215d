# Verification of the stateful core of chatgpt-web-oauth-mcp

This project models, in Dafny, the parts of the server that keep state or do exact
arithmetic, and proves what they promise. It stands beside the Python sources and cites
them by path and line.

* **Codex runtime manager** (`RuntimeState`, `RuntimeCapacity`, `RuntimeRuns`,
  `RuntimeSafety`, `RuntimeOwnership`, `RuntimeManager`): the table of runtime bindings with its live and pending
  threads, active-request counts and slots. Every lock-held section is a function of the state
  and of what adapter, clock and store answer; saves and releases may fail at any call. A run
  interleaves the sections of all threads, and an allocation keeps the allocation lock from its
  first section to its last. The class `CodexRuntimeManager` is the imperative form of the sections.
* **App Server adapter** (`AppServerAdapter`): callers that may time out and a reader that
  resolves, in atomic steps over one connection, the event being set before the lock is retaken.
* **Streaming search** (`SearchNaive`, `SearchCollector`): the one-pass context collector with
  its bounded window and queue against the definition that indexes all lines first.
* **Durable job record** (`JobRecord`): supervisor, killers and reconcilers over one locked
  record, with process liveness in which dead stays dead.
* **Bytes and tokens** (`Utf8Units`, `Utf8Text`, `JobOutput`, `StreamCapture`, `TokenBudget`,
  `DiffPage`): incremental UTF-8 decoding, resumable log and diff pages, head and tail capture,
  water-filling. A token counter is an arbitrary function with count("") = 0; budgets are
  arbitrary predicates.
* **Batch replace** (`ReplaceRules`, `TextContent`, `ReplaceFiles`): planning, recheck, commit
  and rollback over a file system whose writes may fail before or after they take effect, or
  leave other bytes.
* **OAuth token store** (`OAuthStore`, `OAuthRuns`): single-use codes and refresh-token families
  as a state machine over time with fresh random values, and with a store file that may be lost.
* **Patch engine** (`PatchParser`, `PatchHunks`, `PatchText`, `PatchPlan`): the line grammar with
  a canonical rendering, unique-match hunks and their undoing, lines and texts, and patches of
  several operations.

`dafny verify dfyconfig.toml` checks everything.

## Where the code does less than it seems to

Each of these is proved with the exact condition under which the promise holds.

* A record that a reconciler interrupts before its supervisor has registered becomes running
  again when the late supervisor goes on (`JobRecord.InterruptionIsFinalIff`,
  `JobRecord.EarlyInterruptionIsUndone`). The theorems about the status therefore assume that
  no reconciler interrupts a record whose supervisor has not registered and may still write.
* `git_diff` can return an empty page with an unchanged `next_offset` that is not marked
  `continuation_blocked`: exactly when the next character needs more bytes than `max_bytes`,
  which is then 1 to 3, and the response without it fits (`DiffPage.StallsUnmarkedIff`,
  `DiffPage.OneByteStalls`). This takes any one character to cost at most half of a budget that
  some response fits; the general condition is `DiffPage.StallsUnmarked`.
* A content search returns an empty page with an unchanged `next_offset` when its first item is
  crowded out: a thousand more matches of the same file start before its context ends, as on a
  line with more than a thousand hits (`SearchCollector.PageIsEmptyIff`,
  `SearchCollector.OneLineCrowds`).
* A text with any separator other than the line feed does not survive an update unchanged,
  even in lines no hunk touches (`PatchText.TextSurvivesIff`), and an empty last line is lost
  when no final line feed is written (`PatchText.LinesSurviveIff`).
* The operations of a patch are all planned on the files before it, so of two operations on one
  path the first can be lost; operations on different paths behave as if applied one after the
  other (`PatchPlan.SeparateIsOneByOne`, `PatchPlan.LastOperationDecides`,
  `PatchPlan.SecondUpdateWins`, `PatchPlan.DoubleAddLosesTheFirst`).
* A patch that can be planned still raises half way when an operation removes a path that an
  earlier one removed and none in between wrote, as two deletions of one path do; the changes
  before it stay and the ones after it are not made (`PatchPlan.PatchStopsAt`,
  `PatchPlan.DoubleDeleteStops`).
* A code is not used up by an attempt of its own client whose verifier is not ASCII, nor by any
  such attempt if the code was given out for a challenge that is not ASCII: the comparison raises
  before the store is written (`OAuthStore.CodeSurvivesIff`,
  `OAuthStore.UnhashableVerifierKeepsCode`, `OAuthStore.UncomparableChallengeKeepsCode`). With a
  login token that is not ASCII no code is ever given out (`OAuthStore.AuthorizationGrantedIff`).
* A file without a byte order mark that a replacement makes start with U+FEFF, or gives an early
  NUL, is read differently afterwards (`TextContent.TextReadsBack`).

## Model

| member | source | states |
|---|---|---|
| RuntimeState.ReleaseOnlyReleases | src/chatgpt_web_oauth_mcp/codex_runtime/manager.py:730-757 | Releasing one thread changes nothing but statuses, and neither touches nor hands over a runtime with requests in flight |
| RuntimeState.ReleaseEachOwned | src/chatgpt_web_oauth_mcp/codex_runtime/manager.py:808-814 | In the collector loop every runtime reported as released has a thread that is owned no more, whatever the other releases did |
| RuntimeState.ReleaseAllOwned | src/chatgpt_web_oauth_mcp/codex_runtime/manager.py:780-784 | A loop that stops at the first failure leaves none of its threads owned when it completes, and never owns a thread it was not given |
| RuntimeCapacity.CollectExpiredShrinks | src/chatgpt_web_oauth_mcp/codex_runtime/manager.py:794-837 | An idle collection, whatever release or save fails, only detaches bindings and drops released ones without requests; threads stay distinct and disk keeps agreeing with memory |
| RuntimeCapacity.CollectionIsExact | src/chatgpt_web_oauth_mcp/codex_runtime/manager.py:794-837 | The collected runtimes are exactly those that leave the table; each had been idle for the whole time to live and was not in use; if every release and the save succeed, all expired runtimes go |
| RuntimeCapacity.EvictionIsExact | src/chatgpt_web_oauth_mcp/codex_runtime/manager.py:851-885 | A successful LRU eviction takes exactly the overflow; every victim was detached and idle, and is no newer in (last used, created, id) than any candidate that stays |
| RuntimeCapacity.EvictOverflowShrinks | src/chatgpt_web_oauth_mcp/codex_runtime/manager.py:851-885 | An eviction, complete or stopped by a failed release or save, only detaches bindings and drops released ones without requests |
| RuntimeCapacity.RoomIsEnough | src/chatgpt_web_oauth_mcp/codex_runtime/manager.py:844-885 | Once capacity is ensured, bindings, unbound owned threads and what is required fit max_runtimes |
| RuntimeCapacity.InsertionFits | src/chatgpt_web_oauth_mcp/codex_runtime/manager.py:189-198 | After an insertion bindings plus unbound owned threads are within max_runtimes, the new binding is in the table and on disk, and its thread is live |
| RuntimeCapacity.InsertKeeps | src/chatgpt_web_oauth_mcp/codex_runtime/manager.py:189-203 | Any attempt to insert, failed or not, keeps threads distinct and disk in agreement, drops only released bindings and spares busy ones |
| RuntimeRuns.SweepOnlyReleases | src/chatgpt_web_oauth_mcp/codex_runtime/manager.py:779-789 | Retrying unbound threads changes no binding beyond its status and owns nothing new |
| RuntimeRuns.CollectShrinks | src/chatgpt_web_oauth_mcp/codex_runtime/manager.py:772-837 | A full collection, with errors suppressed or not, only detaches bindings and drops released, idle ones |
| RuntimeRuns.CloseKeepsTable | src/chatgpt_web_oauth_mcp/codex_runtime/manager.py:507-520 | Closing keeps the table within its limits, distinct, and in agreement with disk, whatever fails |
| RuntimeRuns.StoringKeepsTable | src/chatgpt_web_oauth_mcp/codex_runtime/manager.py:429-454 | Storing a resumed thread, as a new binding or as a rebinding, keeps the table within its limits, distinct, and in agreement with disk, whatever fails |
| RuntimeRuns.RegistrationKeepsSlots | src/chatgpt_web_oauth_mcp/codex_runtime/manager.py:908-916 | Registering a request keeps every active count equal to the number of slots registered for the runtime |
| RuntimeRuns.FinishKeepsSlots | src/chatgpt_web_oauth_mcp/codex_runtime/manager.py:917-926 | Finishing a request keeps every active count equal to the number of slots registered for the runtime |
| RuntimeSafety.StepKeepsInv | src/chatgpt_web_oauth_mcp/codex_runtime/manager.py:32-978 | Every lock-held section, at any point of any allocation and with any answer of adapter, clock and store, keeps the whole invariant of table, allocation and slots |
| RuntimeSafety.EveryReachableState | src/chatgpt_web_oauth_mcp/codex_runtime/manager.py:32-978 | In every reachable state at most max_runtimes bindings, each thread bound once, the durable map and the table agree on thread, cwd, sandbox, name and creation, active counts equal the registered slots, none is zero, and their total is at most max_concurrency |
| RuntimeSafety.RuntimesLeaveReleased | src/chatgpt_web_oauth_mcp/codex_runtime/manager.py:736-885 | At every step of every run a runtime id leaves the table only when its thread is neither live nor pending release |
| RuntimeSafety.BusyRuntimesAreSpared | src/chatgpt_web_oauth_mcp/codex_runtime/manager.py:507-520 | While a runtime has requests in flight no collection, eviction, close or compensation removes or detaches it or hands its thread to release_thread |
| RuntimeSafety.ClosingDetaches | src/chatgpt_web_oauth_mcp/codex_runtime/manager.py:507-520 | A closed runtime is detached, used now, saved, and not busy; with release_resources its thread is owned no more; no other binding differs |
| RuntimeSafety.ResumingRebinds | src/chatgpt_web_oauth_mcp/codex_runtime/manager.py:419-448 | A resumed runtime keeps its id, place, name and creation time and is ready on the resumed or recreated thread, which is live; no other binding differs |
| RuntimeSafety.RunKeepsNames | src/chatgpt_web_oauth_mcp/codex_runtime/manager.py:261-308 | In runs where named runtimes come only from acquire there is at most one binding per name, directory and sandbox |
| RuntimeSafety.RepeatedAcquire | src/chatgpt_web_oauth_mcp/codex_runtime/manager.py:261-308 | After any run that a named runtime survives, acquiring its name, directory and sandbox again resumes that same runtime id |
| RuntimeOwnership.ReleaseEachRetains | src/chatgpt_web_oauth_mcp/codex_runtime/manager.py:808-814 | On one connection each target of the collector loop that was not released is still in the table, detached, with its thread in pending, or as it was if the adapter had work on it |
| RuntimeOwnership.ReleaseAllStops | src/chatgpt_web_oauth_mcp/codex_runtime/manager.py:872-873 | The eviction loop that fails has released the victims before one, keeps that one detached and pending unless the adapter had work on it, and leaves those after it alone |
| RuntimeOwnership.CollectionRetains | src/chatgpt_web_oauth_mcp/codex_runtime/manager.py:794-837 | After a collection every binding that was tried and not collected is in the table, detached and pending retry, or untouched because the adapter had work on it, or released with the failed save |
| RuntimeOwnership.EvictionRetains | src/chatgpt_web_oauth_mcp/codex_runtime/manager.py:872-885 | After an eviction stopped by a release all bindings are in the table, the one it stopped at retained, those after it untouched |
| RuntimeOwnership.OwnedUntilConfirmed | src/chatgpt_web_oauth_mcp/codex_runtime/manager.py:736-757 | At every step on one connection other than the shutdown an owned thread stays owned and a pending one pending unless its release was confirmed in that step |
| RuntimeOwnership.PendingUntilConfirmed | src/chatgpt_web_oauth_mcp/codex_runtime/manager.py:736-895 | Over every run on one connection a pending thread waits until a release of it is confirmed, and no owned thread is forgotten before |
| RuntimeOwnership.UseProtects | src/chatgpt_web_oauth_mcp/codex_runtime/manager.py:951-970 | A runtime that was just used is neither collected within the time to live nor evicted, whatever fails and whether or not the use was saved |
| RuntimeManager.CodexRuntimeManager.ThreadInUse | src/chatgpt_web_oauth_mcp/codex_runtime/manager.py:730-734 | A thread is in use if the adapter has unfinished operations on it or a binding of it has requests in flight |
| RuntimeManager.CodexRuntimeManager.ReleaseThreadLocked | src/chatgpt_web_oauth_mcp/codex_runtime/manager.py:736-757 | The release section, with its detaching loop, leaves the state and outcome of the specification that the outcome and sparing lemmas are about |
| RuntimeManager.CodexRuntimeManager.ExpiredTargets | src/chatgpt_web_oauth_mcp/codex_runtime/manager.py:801-806 | Walking the table in any order lists every expired, unused binding once |
| RuntimeManager.CodexRuntimeManager.CollectExpiredLocked | src/chatgpt_web_oauth_mcp/codex_runtime/manager.py:794-837 | The collection loop, with failed releases skipped and a stop when shutdown is noticed, refines the collection specification |
| RuntimeManager.CodexRuntimeManager.EvictionCandidates | src/chatgpt_web_oauth_mcp/codex_runtime/manager.py:856-863 | The candidates are all detached, unused bindings, each once, in order of last use, creation and id |
| RuntimeManager.CodexRuntimeManager.EnsureCapacityLocked | src/chatgpt_web_oauth_mcp/codex_runtime/manager.py:844-885 | Collection followed by eviction of exactly the overflow, or the failure that stopped it, as specified |
| RuntimeManager.CodexRuntimeManager.InsertBinding | src/chatgpt_web_oauth_mcp/codex_runtime/manager.py:189-198 | The storing section of open, with capacity, ownership and save, refines the insertion specification |
| RuntimeManager.CodexRuntimeManager.CollectExpiredIdle | src/chatgpt_web_oauth_mcp/codex_runtime/manager.py:772-792 | The full collection retries all unbound owned threads first and refines its specification, errors suppressed or not |
| RuntimeManager.CodexRuntimeManager.CloseRuntime | src/chatgpt_web_oauth_mcp/codex_runtime/manager.py:507-520 | Unknown, busy, failed release, failed save and success leave exactly the specified state |
| RuntimeManager.CodexRuntimeManager.StartRequest | src/chatgpt_web_oauth_mcp/codex_runtime/manager.py:908-916 | A request is counted only if the runtime is active and still on the same thread |
| RuntimeManager.CodexRuntimeManager.EndRequest | src/chatgpt_web_oauth_mcp/codex_runtime/manager.py:917-926 | The runtime is touched and its count goes down, and leaves the map at zero |
| RuntimeManager.CodexRuntimeManager.ShutDown | src/chatgpt_web_oauth_mcp/codex_runtime/manager.py:717-728 | Every binding becomes detached and no thread is owned |
| AppServerAdapter.ThreadsAreOwned | src/chatgpt_web_oauth_mcp/codex_runtime/app_server.py:599-655 | In every interleaving claimed and abandoned stay disjoint, and a thread whose response was settled is, unless given back since, claimed if its caller did not give up, claimed or abandoned if it did; what a caller was handed is claimed |
| AppServerAdapter.SettlingDecides | src/chatgpt_web_oauth_mcp/codex_runtime/app_server.py:643-655 | The reader locked step claims the thread for a caller that did not time out, abandons it exactly when it is not claimed otherwise, moves no other thread, and drops an abandoned request from the table |
| AppServerAdapter.ReplyBeatsTimeout | src/chatgpt_web_oauth_mcp/codex_runtime/app_server.py:492-512 | Once the event is set, a caller that has not given up never times out |
| AppServerAdapter.OwnedUntilGivenBack | src/chatgpt_web_oauth_mcp/codex_runtime/app_server.py:205-208 | An owned thread is forgotten, and a claimed one loses its claim, only when it is given back |
| AppServerAdapter.UnansweredBlocksRelease | src/chatgpt_web_oauth_mcp/codex_runtime/app_server.py:210-217 | While a resume or tool call on a thread has no answer the thread has pending operations, whether or not its caller still waits |
| AppServerAdapter.StepKeepsInv | src/chatgpt_web_oauth_mcp/codex_runtime/app_server.py:454-512 | Every step of callers, reader and releases keeps the table at most 128 requests, and every request consistent with its event, response, caller and owned threads |
| AppServerAdapter.AppServerConnection.SubmitRequest | src/chatgpt_web_oauth_mcp/codex_runtime/app_server.py:454-490 | A request gets the next id unless 128 are pending, and then nothing changes |
| AppServerAdapter.AppServerConnection.TakeLockAfterWait | src/chatgpt_web_oauth_mcp/codex_runtime/app_server.py:500-509 | The locked section after an expired wait: woken if the event is set, otherwise timed out, with kept methods left in the table as abandoned |
| AppServerAdapter.AppServerConnection.FindPending | src/chatgpt_web_oauth_mcp/codex_runtime/app_server.py:599-610 | A response is looked up by id; an unknown id is ignored |
| AppServerAdapter.AppServerConnection.Deliver | src/chatgpt_web_oauth_mcp/codex_runtime/app_server.py:611-642 | The response is stored before the event is set, both outside the lock |
| AppServerAdapter.AppServerConnection.SettleOwnership | src/chatgpt_web_oauth_mcp/codex_runtime/app_server.py:643-655 | The reader locked section gives the thread to the caller or abandons it |
| AppServerAdapter.AppServerConnection.HasPending | src/chatgpt_web_oauth_mcp/codex_runtime/app_server.py:210-217 | Whether some request in the table is about the thread and has no event yet |
| SearchNaive.FileItemsAppend | src/chatgpt_web_oauth_mcp/search.py:474-526 | One more line lets earlier matches grow by it exactly when it is in their window, and adds the matches of the line with their preceding context |
| SearchNaive.KnownIsFinal | src/chatgpt_web_oauth_mcp/search.py:415-426 | A match is final once its file is complete or no line still to come lies in its window |
| SearchNaive.WindowGivesContext | src/chatgpt_web_oauth_mcp/search.py:439-444 | Looking a range up in the recent window gives the same lines as slicing the whole file |
| SearchCollector.PageCollector.Add | src/chatgpt_web_oauth_mcp/search.py:329-357 | Counting, skipping, limit and budget keep the page a stretch of the naive result from offset on, with the reason why it stopped |
| SearchCollector.ContentCollector.FlushPending | src/chatgpt_web_oauth_mcp/search.py:415-426 | Flushing releases oldest matches first and only final ones that are not crowded out, stops when the page does, and leaves only matches that still reach the line |
| SearchCollector.ContentCollector.AddContext | src/chatgpt_web_oauth_mcp/search.py:476-489 | A later line is added to the context of exactly the waiting matches whose window reaches it |
| SearchCollector.ContentCollector.Queue | src/chatgpt_web_oauth_mcp/search.py:401-413 | A new match is queued, counted at once when the offset skips it, or stops the search when a thousand matches wait, which happens only when the oldest of them is crowded out |
| SearchCollector.ContentCollector.RecentContext | src/chatgpt_web_oauth_mcp/search.py:439-444 | The recent window gives a match its naive preceding context |
| SearchCollector.ContentCollector.Remember | src/chatgpt_web_oauth_mcp/search.py:428-437 | The recent window holds exactly the lines later matches can still reach back to |
| SearchCollector.ContentCollector.FeedLine | src/chatgpt_web_oauth_mcp/search.py:474-531 | One line event keeps page and queue in step with what is known of the naive result |
| SearchCollector.ContentCollector.Feed | src/chatgpt_web_oauth_mcp/search.py:446-531 | An event of another path first finishes the file before it |
| SearchCollector.ContentCollector.FinishFile | src/chatgpt_web_oauth_mcp/search.py:533-537 | Finishing a file releases its matches and empties the window |
| SearchCollector.CollectContent | src/chatgpt_web_oauth_mcp/search.py:306-540 | For any stream, context widths, offset, limit and budget the answer is the page of the naive result: it ends before the first item that exceeds the limit, does not fit, or is crowded out by a thousand more matches of its file that start before its context ends, and says which, with next_offset = offset + items |
| SearchCollector.PagesJoin | src/chatgpt_web_oauth_mcp/search.py:359-371 | Two consecutive pages join without loss or repetition |
| SearchCollector.PageIsUnique | src/chatgpt_web_oauth_mcp/search.py:329-376 | The contract of a page leaves no choice: items, reason and next_offset are a function of the naive result, offset, limit and budget |
| SearchCollector.PageIsEmptyIff | src/chatgpt_web_oauth_mcp/search.py:329-376 | A page before the end of the results is empty exactly when its first item is crowded out or does not fit even alone |
| SearchCollector.CrowdedMeans | src/chatgpt_web_oauth_mcp/search.py:409-412 | A match that is crowded out is followed a thousand places on by a match of the same path that starts within its context |
| SearchCollector.OneLineCrowds | src/chatgpt_web_oauth_mcp/search.py:409-412 | A line with more than a thousand hits crowds out its first hit |
| SearchCollector.SearchAll | src/chatgpt_web_oauth_mcp/search.py:306-540 | Following next_offset from 0 terminates and gives the whole naive result, unless it gets stuck at an item that is crowded out or does not fit alone; no item before it is crowded out |
| JobRecord.FinishIsFinal | src/chatgpt_web_oauth_mcp/job_supervisor.py:412-432 | What the supervisor records at its end is terminal and never changes again, in any run |
| JobRecord.RecordFile.InterruptIfStale | src/chatgpt_web_oauth_mcp/shell.py:1068-1095 | Only a record that is not terminal and whose command and supervisor are both gone is interrupted |
| JobRecord.RecordFile.SignalAndMark | src/chatgpt_web_oauth_mcp/shell.py:927-955 | A signal is reported only when it was delivered to the verified command and its mark was written |
| JobRecord.AnswersAreSound | src/chatgpt_web_oauth_mcp/job_supervisor.py:226-236 | With honest observations the three-valued identity answer is never wrong about a recorded process |
| JobRecord.EveryStatusIsExplained | src/chatgpt_web_oauth_mcp/job_supervisor.py:412-428 | In every run a terminal status has its reason in the record: exit code 0 and no kill request, another code and none, or a kill request |
| JobRecord.StatusOnlyAdvances | src/chatgpt_web_oauth_mcp/job_supervisor.py:151-165 | Between any two moments of a run without early interruption the status only moves from starting to running to one terminal value, and the record then never changes |
| JobRecord.TerminalStatusIsFinal | src/chatgpt_web_oauth_mcp/shell.py:1045-1095 | From the initial record, a terminal record never changes again and no supervisor that could change it is left |
| JobRecord.ReportedKillWins | src/chatgpt_web_oauth_mcp/shell.py:923-957 | After a kill reported its signal no later record says succeeded or failed; what the supervisor records is killed |
| JobRecord.SignalReachesLiveCommand | src/chatgpt_web_oauth_mcp/shell.py:927-953 | A reported signal reached a live command of a running record |
| JobRecord.FinalIffNoWriter | src/chatgpt_web_oauth_mcp/job_supervisor.py:430-432 | A terminal status is permanent exactly when no supervisor that may still write is left |
| JobRecord.InterruptionIsFinalIff | src/chatgpt_web_oauth_mcp/shell.py:1068-1095 | An interruption is permanent exactly when the supervisor had registered or could no longer write |
| JobRecord.EarlyInterruptionIsUndone | src/chatgpt_web_oauth_mcp/job_supervisor.py:375-384 | The run in which an interrupted record becomes running again |
| Utf8Units.DecodeUtf8Units | src/chatgpt_web_oauth_mcp/shell.py:1331-1358 | The loop cuts the input into the specified units and trailing bytes |
| Utf8Units.DecodingIsSplitInvariant | src/chatgpt_web_oauth_mcp/shell.py:1331-1358 | Decoding any prefix without finality and going on from the first undecoded byte gives the units of one pass |
| Utf8Units.UnitsPartitionInput | src/chatgpt_web_oauth_mcp/shell.py:1331-1358 | The raw bytes of the units and the trailing bytes are the input, in order |
| Utf8Units.TrailingIsShort | src/chatgpt_web_oauth_mcp/shell.py:1331-1358 | At most three bytes are left over, none in a final decoding |
| Utf8Units.UnitsAreScalarsOrStrayBytes | src/chatgpt_web_oauth_mcp/shell.py:1300-1358 | Every unit is one scalar value with exactly its encoding by section 4 of RFC 3629, or one byte at which no scalar value is encoded |
| Utf8Units.GrammarIsEncoding | src/chatgpt_web_oauth_mcp/shell.py:1312-1328 | The byte grammar that the prefix check accepts describes exactly the encodings of scalar values |
| Utf8Units.ReplacementMeansNoScalar | src/chatgpt_web_oauth_mcp/shell.py:1331-1358 | Where a scalar value is encoded the decoder takes exactly its bytes and no replacement |
| Utf8Units.DecodeEncodedText | src/chatgpt_web_oauth_mcp/shell.py:1331-1358 | Encoded text is read back without replacement or remainder |
| Utf8Text.StrictDecodeIsInverse | src/chatgpt_web_oauth_mcp/gitops.py:133-134 | Strict decoding succeeds exactly on encoded texts and gives the text |
| JobOutput.RenderJobOutput | src/chatgpt_web_oauth_mcp/shell.py:1361-1408 | The page shows the longest run of units whose every prefix fits, at least one unit, and reports its bytes, replacements, incomplete trailing bytes and whether the one unit is oversized |
| JobOutput.PageIsUnique | src/chatgpt_web_oauth_mcp/shell.py:1361-1408 | The facts reported leave no choice: a page is a function of the bytes, finality and budget |
| JobOutput.OutputJob | src/chatgpt_web_oauth_mcp/shell.py:710-725 | Arguments and cursor are checked, and next_cursor, has_more, caught_up, eof and the minimum for progress are right for the page |
| JobOutput.PageContinuesOnePass | src/chatgpt_web_oauth_mcp/shell.py:710-717 | A page read at any cursor of any snapshot shows the next units of the one-pass decoding of the final log, and decoding goes on at the next cursor |
| JobOutput.FourBytesAlwaysProgress | src/chatgpt_web_oauth_mcp/shell.py:710-717 | With max_bytes of at least 4 a request on an ended job moves on |
| JobOutput.ReportedMinimumProgresses | src/chatgpt_web_oauth_mcp/shell.py:767-772 | The reported minimum exceeds what was asked for, and asking for it at the same cursor moves on |
| JobOutput.ReadWholeLog | src/chatgpt_web_oauth_mcp/shell.py:710-717 | Following next_cursor from 0 terminates and concatenates to the one-pass decoding of the whole log, for any budget |
| StreamCapture.BoundedStreamCapture.Add | src/chatgpt_web_oauth_mcp/shell.py:81-100 | Each chunk keeps the head and tail windows, the counters and the line breaks those of the whole stream so far |
| StreamCapture.BoundedStreamCapture.Keep | src/chatgpt_web_oauth_mcp/shell.py:92-100 | The head is filled first and the tail slides over the rest |
| StreamCapture.CountCrLfAppend | src/chatgpt_web_oauth_mcp/shell.py:86-88 | Joining two chunks adds one CRLF exactly when the pair is split between them |
| StreamCapture.CountLinesCountsLines | src/chatgpt_web_oauth_mcp/shell.py:134-141 | The break arithmetic counts the lines |
| StreamCapture.Drain | src/chatgpt_web_oauth_mcp/shell.py:68-122 | For every chunking the capture holds the first and last bytes of the stream, knows how many it dropped, and counts the lines of the whole stream |
| StreamCapture.NothingDropped | src/chatgpt_web_oauth_mcp/shell.py:115-116 | A stream within the limit is kept whole |
| TokenBudget.AllocateStreamTokenBudgets | src/chatgpt_web_oauth_mcp/shell.py:1791-1807 | The allocation sums to the smaller of budget and needs, never exceeds a need, and is max-min fair to within one token, the odd tokens going first |
| TokenBudget.TruncateTextToTokens | src/chatgpt_web_oauth_mcp/shell.py:1759-1788 | The result fits whatever the counter does; with a counter for which keeping less never costs more, it keeps as much as can fit |
| TokenBudget.RenderCapturedOutput | src/chatgpt_web_oauth_mcp/shell.py:1825-1872 | The displayed streams together fit the budget for any counter unless a single line is flagged oversized and shown whole; each is the cut of its text at its share, which starts as a fair share and only shrinks |
| DiffPage.Utf8BytePage | src/chatgpt_web_oauth_mcp/gitops.py:125-137 | The page is the longest run of whole characters within the asked bytes |
| DiffPage.PageIsEmptyIff | src/chatgpt_web_oauth_mcp/gitops.py:125-137 | A page asked for at a character is empty exactly when the character needs more bytes than were asked for |
| DiffPage.TruncateToTokens | src/chatgpt_web_oauth_mcp/gitops.py:140-153 | The binary search returns a prefix that fits, or nothing, or the whole text |
| DiffPage.ShrinkBodies | src/chatgpt_web_oauth_mcp/gitops.py:207-251 | The diff is halved no more often than needed and goes to nothing before file entries and body are dropped |
| DiffPage.FitGitPayload | src/chatgpt_web_oauth_mcp/gitops.py:156-268 | After every stage the diff is a prefix of the page and next_offset its first byte not shown, None exactly at the end; continuation_blocked is set exactly when bytes are left and neither draft nor any halving of the diff that shows something fits; an empty answer is unmarked exactly when StallsUnmarked |
| DiffPage.GitDiff | src/chatgpt_web_oauth_mcp/gitops.py:376-396 | The returned diff is exactly the stretch of the text from its offset, on character boundaries, at most to the end of the page asked for, with the flags that page calls for |
| DiffPage.ReadWholeDiff | src/chatgpt_web_oauth_mcp/gitops.py:376-396 | For every max_bytes above 0 the pages from offset 0 concatenate to the diff without gap or overlap, and to all of it unless one comes back empty, which is then blocked or an unmarked stall of exactly that page; with max_bytes of at least 4 and characters that cost at most half the budget it is always marked as blocked |
| DiffPage.StallsUnmarkedIff | src/chatgpt_web_oauth_mcp/gitops.py:156-206 | When a character costs at most half of any budget that a response fits, an empty page comes back unmarked exactly when its first character needs more bytes than were asked for and a draft without it fits |
| DiffPage.OneByteStalls | src/chatgpt_web_oauth_mcp/gitops.py:171-177 | One byte asked for at a character of two bytes: an empty page, next_offset unchanged, no flag |
| ReplaceRules.ReplaceIsJoin | src/chatgpt_web_oauth_mcp/replacing.py:142-150 | Replacing the first n occurrences joins the same pieces by the replacement instead of the pattern; the cuts are the leftmost ones and, when all are taken, none is left |
| ReplaceRules.NormalizingKeepsLines | src/chatgpt_web_oauth_mcp/content_io.py:118-122 | Normalizing a replacement keeps its lines and leaves no line end of another style |
| ReplaceRules.ApplyRule | src/chatgpt_web_oauth_mcp/replacing.py:117-175 | On every budget literal and regular-expression rules replace exactly the wanted matches, or are refused exactly when those exceed the budget, or when the rule is bad |
| TextContent.NewlineStyleIsRight | src/chatgpt_web_oauth_mcp/content_io.py:33-47 | The style is one kind exactly when all line ends are of that kind |
| TextContent.UnchangedTextKeepsItsBytes | src/chatgpt_web_oauth_mcp/content_io.py:57-115 | Text that no rule changed is written back as the very bytes it was read from |
| TextContent.TextReadsBack | src/chatgpt_web_oauth_mcp/content_io.py:57-115 | Written text is read back as itself exactly when it carries the mark, or starts with no U+FEFF and has no NUL among its first 1024 characters |
| ReplaceFiles.Group | src/chatgpt_web_oauth_mcp/replacing.py:193-213 | Operations on one path are merged in order, and refused exactly when one has no rules or two disagree on revision or encoding |
| ReplaceFiles.OrderedPaths | src/chatgpt_web_oauth_mcp/replacing.py:215 | The grouped paths in order, each once |
| ReplaceFiles.AppliedIsTransformed | src/chatgpt_web_oauth_mcp/replacing.py:247-265 | The budget decides whether rules are applied, never what they give |
| ReplaceFiles.StoppedMeans | src/chatgpt_web_oauth_mcp/replacing.py:247-261 | Rules stop only for a bad rule, a pattern that does not compile, or more replacements in all than the budget |
| ReplaceFiles.PlanFiles | src/chatgpt_web_oauth_mcp/replacing.py:220-282 | The planning loop gives one plan per path, or the first refusal |
| ReplaceFiles.PlanRequest | src/chatgpt_web_oauth_mcp/replacing.py:193-282 | Plans cover exactly the paths of the request, each says what the rules make of the file, and their total is what the paths need and within the limit; a refusal names what is wrong with one file, given the limit less what the paths before it need |
| ReplaceFiles.TooManyMeansTooMany | src/chatgpt_web_oauth_mcp/replacing.py:215-282 | A request is refused as too many only when the replacements its paths need exceed the limit in all |
| ReplaceFiles.Recheck | src/chatgpt_web_oauth_mcp/replacing.py:284-296 | The recheck passes exactly when every planned file still holds the bytes it was planned from |
| ReplaceFiles.Commit | src/chatgpt_web_oauth_mcp/replacing.py:298-311 | Changed files are written in order until a write fails or reads back wrong; nothing outside the attempted files differs |
| ReplaceFiles.Rollback | src/chatgpt_web_oauth_mcp/replacing.py:312-322 | Every attempted file is put back, and success is reported exactly when every undo was verified |
| ReplaceFiles.CommitOrRollBack | src/chatgpt_web_oauth_mcp/replacing.py:297-333 | Either every planned file holds its planned bytes, or a verified rollback left every file as it was |
| ReplaceFiles.ReplaceFiles | src/chatgpt_web_oauth_mcp/replacing.py:178-356 | All or nothing: success means every file of the request holds what its rules make of its bytes and no other file differs; refusals, dry runs and rolled-back failures change nothing; a failed rollback touches only files of the request; the replacements are what the request needs, never exceed the limit, and a refusal as too many means that they would |
| OAuthStore.CodeSurvivesIff | src/chatgpt_web_oauth_mcp/oauth.py:185-205 | Any attempt uses the code up, except exactly one for another resource, or one by the right client and redirect in time whose verifier or challenge is not ASCII |
| OAuthStore.UnhashableVerifierKeepsCode | src/chatgpt_web_oauth_mcp/oauth.py:201-204 | An attempt with a verifier that is not ASCII leaves the store as it was |
| OAuthStore.UncomparableChallengeKeepsCode | src/chatgpt_web_oauth_mcp/oauth.py:141-144 | A code given out for a challenge that is not ASCII survives every attempt of its own client, and none succeeds |
| OAuthStore.RenewalRotates | src/chatgpt_web_oauth_mcp/oauth.py:264-322 | The used token stays at most seven days to detect reuse, its successor has a new life in the same family, other tokens are untouched |
| OAuthStore.OAuthManager.PruneRefreshTokens | src/chatgpt_web_oauth_mcp/oauth.py:473-483 | One pass drops exactly the expired refresh tokens and says whether it dropped any |
| OAuthStore.OAuthManager.RevokeFamily | src/chatgpt_web_oauth_mcp/oauth.py:256-262 | One pass drops exactly the tokens of the family |
| OAuthStore.OAuthManager.AuthorizeClient | src/chatgpt_web_oauth_mcp/oauth.py:133-164 | The authorization request leaves the specified store and answer |
| OAuthStore.OAuthManager.RedeemCode | src/chatgpt_web_oauth_mcp/oauth.py:177-229 | The exchange leaves the specified store and answer, written or not as each branch does |
| OAuthStore.OAuthManager.RenewAccess | src/chatgpt_web_oauth_mcp/oauth.py:231-299 | The renewal leaves the specified store and answer; pruning is not written on some refusals |
| OAuthRuns.CodesAreSingleUse | src/chatgpt_web_oauth_mcp/oauth.py:177-229 | Each code yields at most one token pair, section 4.1.2 of RFC 6749 |
| OAuthRuns.GrantedCodeGivesTokens | src/chatgpt_web_oauth_mcp/oauth.py:133-229 | A code given out can be exchanged within five minutes by its client with a verifier of its challenge, whatever others did in between; the access token is then accepted as long as it lasts exactly if it covers the configured scopes, and the refresh token renews as long as it lasts |
| OAuthRuns.RefreshLeavesOnly | src/chatgpt_web_oauth_mcp/oauth.py:231-322 | A refresh token leaves the store only by expiry, by revocation of its family or with the store, and changes only by its use |
| OAuthRuns.UnusedTokenRenews | src/chatgpt_web_oauth_mcp/oauth.py:231-322 | After any run a refresh token that was not used, not found expired and whose family was not revoked renews for its client |
| OAuthRuns.FamiliesKeepTheirGrant | src/chatgpt_web_oauth_mcp/oauth.py:264-322 | All answers of a family share client and resource and stay within its scope, section 6 of RFC 6749 |
| OAuthRuns.ReuseStaysWithinGrace | src/chatgpt_web_oauth_mcp/oauth.py:253-275 | All accepted uses of one refresh token lie within 60 seconds of its first |
| OAuthRuns.RevokedFamiliesStayRevoked | src/chatgpt_web_oauth_mcp/oauth.py:253-262 | Once late reuse is detected the family never again has a refresh record |
| OAuthRuns.AcceptedTokensAreBacked | src/chatgpt_web_oauth_mcp/oauth.py:324-337 | A token that is accepted was answered in the run, for this resource, by a grant that covers the configured scopes |
| OAuthRuns.AnswersStayConfigured | src/chatgpt_web_oauth_mcp/oauth.py:154-164 | No access token covers a scope that is not configured |
| PatchParser.ParseAddLines | src/chatgpt_web_oauth_mcp/patching.py:100-110 | The loop reads the added lines up to the next header as specified |
| PatchParser.ParseHunk | src/chatgpt_web_oauth_mcp/patching.py:113-159 | The loop reads one hunk, and refuses empty, context-only and unanchored ones as specified |
| PatchParser.ParseHunks | src/chatgpt_web_oauth_mcp/patching.py:170-173 | The loop reads the hunks of an update; each moves it forward |
| PatchParser.ParseUpdateFile | src/chatgpt_web_oauth_mcp/patching.py:162-177 | An update with neither hunks nor move is refused |
| PatchParser.Parse | src/chatgpt_web_oauth_mcp/patching.py:180-205 | The parser ends on every input with the specified operations or refusal |
| PatchParser.RenderedPatchIsReadBack | src/chatgpt_web_oauth_mcp/patching.py:180-205 | Parsing the canonical rendering of any well-formed operation list gives that list, up to hunk line numbers |
| PatchParser.AcceptedPatchHasCanonicalForm | src/chatgpt_web_oauth_mcp/patching.py:180-205 | Every accepted patch is well formed, and its canonical rendering is accepted and means the same |
| PatchHunks.FindSequenceMatches | src/chatgpt_web_oauth_mcp/patching.py:218-228 | All and only the places where the needle stands, in order |
| PatchHunks.ApplyHunk | src/chatgpt_web_oauth_mcp/patching.py:275-320 | The one place where the old lines stand is replaced by the new lines; no place and several places are told apart |
| PatchHunks.ApplyHunks | src/chatgpt_web_oauth_mcp/patching.py:332-334 | Each hunk is applied to what the one before it left; a refusal names the first hunk that does not match exactly once |
| PatchHunks.ReachesIsUnique | src/chatgpt_web_oauth_mcp/patching.py:332-334 | The hunks lead from given lines to one result only |
| PatchHunks.StuckReachesNothing | src/chatgpt_web_oauth_mcp/patching.py:286-318 | Where a hunk sticks, the hunks as a whole have no result |
| PatchHunks.SwappedHunkRestores | src/chatgpt_web_oauth_mcp/patching.py:319-320 | A hunk followed by its swapped form gives back the lines |
| PatchHunks.SwappedHunkAppliesIff | src/chatgpt_web_oauth_mcp/patching.py:286-318 | The swapped hunk applies exactly when the hunk left lines that stand nowhere else |
| PatchHunks.SwappedHunksRestore | src/chatgpt_web_oauth_mcp/patching.py:332-334 | If all hunks apply and the swapped ones then apply in reverse order, the original lines are restored |
| PatchText.TextSurvivesIff | src/chatgpt_web_oauth_mcp/patching.py:73-81 | Split and join give the text back exactly when the line feed is its only separator |
| PatchText.LinesSurviveIff | src/chatgpt_web_oauth_mcp/patching.py:77-81 | Written lines are read back exactly when a final line feed is written, or there are none, or the last is not empty |
| PatchText.UpdateIsUndone | src/chatgpt_web_oauth_mcp/patching.py:329-345 | On a text whose only separator is the line feed, an update and its undoing restore the text to the byte |
| PatchText.PatchOperationsAreClean | src/chatgpt_web_oauth_mcp/patching.py:180-205 | No path or line of a parsed patch text carries a line separator |
| PatchText.RenderedTextIsReadBack | src/chatgpt_web_oauth_mcp/patching.py:180-205 | Parsing the text of the canonical rendering of any well-formed operations without line separators gives those operations, with or without a final line feed |
| PatchText.AcceptedTextHasCanonicalForm | src/chatgpt_web_oauth_mcp/patching.py:180-205 | Every accepted patch text means the same as its canonical text |
| PatchText.ParsedHunkIsAnchored | src/chatgpt_web_oauth_mcp/patching.py:139-157 | Every accepted hunk has lines to find its place by |
| PatchPlan.PlanUpdate | src/chatgpt_web_oauth_mcp/patching.py:323-346 | The update is planned as specified: hunks first, then the target of a move, then the text with the final line feed the file had |
| PatchPlan.PlanOperations | src/chatgpt_web_oauth_mcp/patching.py:461-476 | The planning loop gives one change per operation, all planned on the files before the patch, or nothing |
| PatchPlan.Workspace.Apply | src/chatgpt_web_oauth_mcp/patching.py:456-494 | Unless every operation can be planned nothing changes; then the changes are made in order, a move writing before it removes, until one raises because the file it removes is gone, and the changes before it stay |
| PatchPlan.SeparateIsOneByOne | src/chatgpt_web_oauth_mcp/patching.py:465-494 | A patch whose operations touch different paths never raises, succeeds exactly when applying them one after the other would, each seeing what the ones before did, and leaves the same files |
| PatchPlan.RaisesIff | src/chatgpt_web_oauth_mcp/patching.py:399-407 | A planned operation raises when its turn comes exactly when it removes a path that an earlier one removed and none in between wrote |
| PatchPlan.PatchStopsAt | src/chatgpt_web_oauth_mcp/patching.py:491-494 | A planned patch makes all its changes exactly when no operation removes such a path again; otherwise it raises at the first one that does, after it made the changes before |
| PatchPlan.DoubleDeleteStops | src/chatgpt_web_oauth_mcp/patching.py:399-403 | Deleting one path twice and then adding another: the path is gone, the patch raises, and the addition is never made |
| PatchPlan.LastOperationDecides | src/chatgpt_web_oauth_mcp/patching.py:465-494 | In any patch that can be planned a path holds what the last operation that touches it, among those reached before one raises, makes of the files before the patch; a path that none of them touches stays as it was |
| PatchPlan.SecondUpdateWins | src/chatgpt_web_oauth_mcp/patching.py:465-494 | Of two planned updates of one path only the second has effect, so the patch acts as one after the other exactly when the second gives the same change with and without the first |
| PatchPlan.DoubleAddLosesTheFirst | src/chatgpt_web_oauth_mcp/patching.py:465-494 | Two additions of one path complete and the first is lost, because both are planned on the files before the patch |
| PatchPlan.RefusedPatchChangesNothing | src/chatgpt_web_oauth_mcp/patching.py:456-508 | A patch is refused exactly when an operation cannot be planned, and completes exactly when all can and, unless it is only validated, none removes again; a refused or only validated patch changes nothing |

## Left out

- RuntimeSafety.EveryReachableState: assumes that a failed save leaves the file as it was (it is replaced atomically), that thread/start returns thread ids that are not bound, and that the bindings were first loaded without error, with distinct threads and within the limit.
- RuntimeSafety.RunKeepsNames: assumes that open is not called with a name, because open does not look for one.
- RuntimeManager.CodexRuntimeManager.EnsureCapacityLocked: the counters of collected and evicted runtimes, last_gc_at, cleanup_error and persistence_warning are reporting fields and not part of the state.
- RuntimeRuns.StoringKeepsTable: a returned thread whose metadata is rejected ends the allocation without any effect on the table; which metadata are rejected is not modelled.
- Ids are numbers ordered as the manager orders them; times are integers; directories are compared as canonical strings.
- No claim that a ready binding has a live thread: the last touch of a request runs outside its slot and sets ready. No strict bound on leftover threads between insertions: a failed compensation may leave one pending.
- AppServerAdapter.ThreadsAreOwned: one connection that is not closed; closing drops its requests and threads. Requests are values in a table, so aliasing of pending objects is modelled by never deleting a request from the history, only from the table of pending ids.
- AppServerAdapter.AppServerConnection.Deliver: which error a failed response becomes, and elicitation requests of the server, are not modelled; such a response makes no thread.
- SearchCollector.CollectContent: multiline events and lines with exotic separators, where the collector is not meant to equal the naive form; ripgrep, JSON decoding and path resolution. A file whose end event is missing is followed by files with other paths.
- JobRecord.AnswersAreSound: observations of processes are taken to be honest, so an identity read in another format for the same process is outside the model.
- JobRecord.RecordFile.SignalAndMark: checks of process groups and the escalation to KILL are one answer; start_job failures, which overwrite the record deliberately, are excluded.
- JobOutput.OutputJob: waiting for more output and reading errors; the page is that of the snapshot finally read.
- StreamCapture.BoundedStreamCapture.Add: retained_lines, a display figure, is not modelled.
- TokenBudget.RenderCapturedOutput: the metadata dictionary beyond the texts, allocations and the oversized flag.
- DiffPage.FitGitPayload: budget metadata is one fits predicate on payloads; splitting a diff by file and running git are not modelled.
- DiffPage.ReadWholeDiff: that one character costs at most half of any budget that a response fits is a hypothesis about the tokenizer in its last clause; raw bytes are taken to be the encoding of a text, as the diff is encoded just before.
- ReplaceFiles.ReplaceFiles: a revision is identified with the bytes it hashes; files are changed by others only between planning and the recheck; permissions are restored as planned. Distinct paths stand for distinct files. Read errors and lock files are not modelled.
- ReplaceRules.ApplyRule: regular expressions are an engine whose number of matches and substitution are given.
- TextContent.TextReadsBack: UTF-16, UTF-32 and explicit encodings are other codecs; ReplaceFiles takes any codec.
- OAuthRuns.CodesAreSingleUse: requests are atomic. The store is read and written without a lock, so two requests that overlap are outside the model. Hashes are injective, so a refresh token stands for its hash.
- OAuthStore.OAuthManager.RedeemCode: scopes are sets of words, so the order of words in a scope string is not modelled.
- PatchHunks.ApplyHunk: fuzzy candidates and other advisory output.
- PatchText.UpdateIsUndone: reading replaces undecodable bytes; the theorem is about the decoded text.
- PatchPlan.RefusedPatchChangesNothing: a write or removal that an I/O fault makes fail while the planned changes are being made is not modelled; paths are resolved, stand for different files, and none lies below another path of the patch or below a file.
- Process management, HTTP and OAuth discovery routing, HTML pages, tool registration, tmux, PDF and code-map tools, file paging and configuration validation would only add easy members.
