# Sadana in Dafny

A model of the parts of Sadana that carry its guarantees, with proofs of those guarantees.

Sadana keeps conversations as histories that only a few operations may change, runs turns against a
model, a set of tools and a store that may each fail, walks declared plugin graphs that may be parked
for a person's decision and finished by another process, and announces what it writes in a ledger
that mirrors follow. The project is one file per module:

- **Conversation kernel** (`conversation.py`). `Transcript` holds the history, `append` and the
  independent statement `Paired` of what a history has to look like by position; `HistoryRepair` and
  `Compaction` the two other operations on it; `ToolCalls` the clean-up of a reply's calls. `TurnModel`
  describes everything outside the turn loop (model, store, tools, spill checkpoint, observer) as a
  `World` whose answers depend arbitrarily on all that happened before, and a turn as a log of those
  answers; `TurnLoop` is the loop itself, as methods that produce a log; `TurnSafety` says what every
  log of a turn keeps at every moment; `EscapedTurns` is a turn that leaves by an error.
  `Conversations` follows a conversation through any number of
  turns. `Retry` is the retry loop under the model call.
- **Durable store** (`conversation_store.py`). `MessageStore` is the message table of one conversation
  and the incremental flush, `SavedRuns` sequences of saves, `CrashRecovery` a turn killed between any
  two of its events. `WatchedTurn` and `WatchedRun` add the rows a watched turn writes around the loop
  (`door/nouns/messages.py`), closings and crashes included. `Pauses` is the pair of tables behind parked runs.
- **Change feed** (`ledger.py`). `Ledger` is a timeline of stores and the mirror that follows it;
  `StoreTables` what each write transaction leaves, announces and lists, over whole runs of the store
  (`conversation_store.py`, `memory_store.py`, `stores.py`, `door/nouns/conversations.py`,
  `door/nouns/messages.py`); `LedgerStore` the store object that does it row by row; `WatchedFeed` a
  watched turn as such transactions among everybody else's.
- **Plugin graphs** (`plugins.py`, `plugin_manifest.py`, `plugin_dispatch.py`, `editor_layout.py`).
  `Manifests` and `GraphChecks` are the declared graph and its validation, `Walker` the walk,
  `ParkedRuns` parking against running live, `ResumableGraphs` the graphs for which the two are the
  same, `WalkTraces` chains of pauses and resumptions,
  `GraphEdits` the editor's edits, `EditorLayout` its layout, and `TomlStrings`, `TomlReader` and
  `ManifestToml` the manifest file written and read back.
- **Order and time** (`ids.py`, `cron.py`). `Ids` mints and reads identities; `Calendar`, `CronFields`,
  `CronTimes` and `CronWindow` are civil dates, cron expressions, the search for the next time, and how
  far that search reaches.
- `Options`, `Text`, `Decimal`, `Sets` and `Arithmetic` are shared helpers.

Loops and objects that the program updates in place are methods and classes here, each tied to a
specification function or to the property it is there for; the lemmas are about those specifications.

## Where the code does less than it says

Each of these is a lemma with the exact condition or a concrete input.

- `uniquify_tool_call_ids` says the first call to share an id keeps it. It may lose it to an earlier
  call that was given it as a suffixed id (`ToolCalls.FirstCarrierMayLoseItsId`); replies over a set of
  ids are safe from that if and only if no id of the set is another one with a suffix
  (`ToolCalls.FirstCarriersKeepExact`).
- `repair` keeps a history well formed exactly when no pending id was declared twice in one message
  (`HistoryRepair.RepairExact`); clean-up of replies rules that out inside a turn.
- A turn says no exception but cancellation leaves it. Errors of settings that are read inside it do, and
  the outcome `Escaped` is exactly that (`TurnLoop.RunTurn`, `Conversations.TakeTurn`): a malformed or
  negative SADANA_CONVERSATION_TOOL_RESULT_CHARS or SADANA_CONVERSATION_TOOL_TURN_BUDGET_CHARS before the
  loop, and in it a malformed SADANA_CONTEXT_CACHE_TRAILING_MARKS or SADANA_MODEL_ACCESS_MAX_RETRIES when
  the model is asked, SADANA_CONTEXT_COMPACTION_TAIL_MESSAGES on an overflow, and
  SADANA_CONTEXT_RESULT_SPILL_CHARS when a tool result is kept. With the last, a turn that runs a tool
  escapes after its request was saved (`EscapedTurns.EscapesAfterSave`). The clock is read once per turn,
  so the wall-clock budget can only end a turn before its first model call (`TurnLoop.RunTurn`).
- A run finished by `resume_paused_run` need not end as it would have live: there is no model behind its
  `ask` steps (`ResumableGraphs.CallThenAskDiffers`). All runs of an entry whose parked values come back as
  they were do, whatever bodies, model and decisions are, if and only if no way its nodes can take leads
  through a `call` to an `ask` (`ResumableGraphs.ResumableExact`); one run does if and only if, live,
  nothing came back from a model, answer or error, after a call (`ParkedRuns.ResumedRunExact`,
  `ResumableGraphs.CallThenErrorDiffers`). A parked object comes back unchanged if and only if its one
  reserved key was the session's (`ParkedRuns.ReinjectExact`).
- A watched turn that starts on a history with something to repair leaves a gap in the stored rows
  until its first save (`WatchedTurn.CrashAfterOpening`, `WatchedRun.WatchedCrashExact`,
  `WatchedRun.ClosedCrashExact`), and after a crash the next turn cannot be saved over the gap
  (`WatchedTurn.NextSaveExact`); one that appends nothing leaves an empty reply behind, and one that
  escapes is neither closed nor saved (`WatchedRun.WatchedTurnExact`). A watched turn announces as deleted
  a row that is still there if and only if it ended without escaping and one of its own saves landed
  (`WatchedRun.FalseTombstoneExact`).
- Mirrors agree with a run of the store if and only if every transaction of it told the truth
  (`StoreTables.MirrorsAgreeExact`). Two kinds can fail to: the closing of a watched turn
  (`LedgerStore.Store.Close`), so that mirrors agree after a watched turn if and only if it escaped or no
  save of it landed (`WatchedFeed.WatchedTurnMirrorExact`); and `purge_account`, which deletes memory
  entries and writes no change row: it is true only of an account that has none
  (`LedgerStore.Store.PurgeAccount`).
- A rename or archiving writes the version after the one its caller had read before the transaction. If
  somebody wrote in between, it announces a version the conversation already had
  (`StoreTables.RaisesVersionsExact`).
- `adopt_scheduled_memories` says it loses nothing. An entry of the owner is overwritten when both names
  the adopted one could take are taken (`StoreTables.AdoptKeepsExact`).
- `delete_pause` leaves the approval waiting (`Pauses.DeletePauseExact`).
- `next_after` says four years cover every leap-year phase. They do not reach across a century year
  that is not a leap year (`CronWindow.GivesUpWronglyExact`, `CronWindow.LeapDay2104Missed`).
- Renaming a node back restores the manifest exactly when its old name was not empty and the new one, if
  another, was written nowhere in it (`GraphEdits.RenameBackExact`).
- An id reads back exactly while its millisecond fits 48 bits (`Ids.MadeIdParses`).

## Model

| member | source | states |
|---|---|---|
| Transcript.AppendExact | src/sadana/conversation.py:94-117 | `append` succeeds on exactly the messages that leave a paired history paired by position, and then adds just that message |
| Transcript.ReachableExact | src/sadana/conversation.py:70-117 | the histories appends can build are the paired ones and no others |
| Transcript.PendingSnoc | src/sadana/conversation.py:70-91 | how each kind of message changes the set of pending ids |
| Transcript.OpenRoundIsTools | src/sadana/conversation.py:101-110 | while a call is unanswered only tool rows follow the message that made it |
| Transcript.AnsweredExactlyOnce | src/sadana/conversation.py:70-117 | in a paired history an id of a round is answered at most once, and exactly once unless it is still pending |
| HistoryRepair.Repair | src/sadana/conversation.py:120-144 | the two loops of `repair` compute `Repaired`: one marker row per pending id, in declared order |
| HistoryRepair.RepairExact | src/sadana/conversation.py:120-144 | repairing keeps a paired history paired if and only if no pending id was declared twice |
| HistoryRepair.RepairCloses | src/sadana/conversation.py:120-144 | a repair closes everything pending, only adds rows, adds one per pending id, and repairing twice is repairing once |
| Compaction.FindCompactionBoundary | src/sadana/conversation.py:151-162 | the loop returns the largest cut at or below the bound that is 0, the end, or not a tool row |
| Compaction.CompactExact | src/sadana/conversation.py:165-174 | compacting keeps a paired history paired if and only if the cut is safe |
| Compaction.CompactAtBoundary | src/sadana/conversation.py:151-174 | at the boundary the result is well formed, keeps at least the tail asked for, loses nothing else, and has the same pending ids |
| ToolCalls.FreeSuffix | src/sadana/conversation.py:511-515 | the suffix search ends, by counting the taken ids, at the lowest free suffix |
| ToolCalls.Uniquify | src/sadana/conversation.py:498-518 | each call keeps name, arguments and place and gets the id the rule prescribes |
| ToolCalls.UniquifiedDistinct | src/sadana/conversation.py:498-518 | the resulting ids are pairwise distinct |
| ToolCalls.UniquifiedDeterministic | src/sadana/conversation.py:498-501 | the rule leaves no choice |
| ToolCalls.UniquifiedIdentity | src/sadana/conversation.py:498-518 | a reply is left as it is if and only if its ids were distinct, hence idempotence |
| ToolCalls.FirstCarriersKeepExact | src/sadana/conversation.py:499-518 | in every reply with ids from a set each id stays with its first carrier, if and only if no id of the set is another one with a suffix |
| ToolCalls.UnclashedKeeps | src/sadana/conversation.py:499-518 | a first carrier keeps its id unless an earlier call's id with a suffix reads the same |
| ToolCalls.UniquifiedExists | src/sadana/conversation.py:498-518 | the rule gives a result for every reply |
| ToolCalls.FirstCarrierMayLoseItsId | src/sadana/conversation.py:499-518 | a reply whose first carrier of an id does not keep it |
| ToolCalls.Deduplicate | src/sadana/conversation.py:646-662 | the loop keeps the first of each name and arguments, in order |
| ToolCalls.FirstOfEachFacts | src/sadana/conversation.py:646-662 | what is kept is part of the reply, covers every name and arguments once, and keeps ids distinct |
| TurnLoop.AppendInvalidResults | src/sadana/conversation.py:752-778 | every unknown call is answered with an error, no append fails, and only its own ids stop pending |
| TurnLoop.DispatchValid | src/sadana/conversation.py:972-990 | every known call is run and answered, in declared order and no other call is, up to where the round was cut short; no append fails |
| TurnLoop.ToolRound | src/sadana/conversation.py:937-996 | a tool round leaves nothing pending unless it was cut short, and says why it ended the turn |
| TurnLoop.Shorten | src/sadana/conversation.py:901-920 | an overflow asks for a compression once and records it with the largest safe cut; the history becomes the compacted one, or stays with a new prompt, or the turn ends |
| TurnLoop.Summarise | src/sadana/conversation.py:1003-1030 | the closing question and its answer are added together or not at all |
| TurnLoop.RunTurn | src/sadana/conversation.py:788-1043 | a turn ends whatever the world answers; no append fails; the history is the log's; it escapes if and only if the caps are unreadable or the last event is an error nothing catches, and otherwise the exit reason is what the last event says; ids dangle only after a cut round; the budget and the model calls are bounded |
| EscapedTurns.EscapesAfterSave | src/sadana/context.py:127-152 | with a malformed spill setting a turn of any conversation, with any input, saves its request, runs the tool, and leaves by the error |
| TurnSafety.SoundAtEveryMoment | src/sadana/conversation.py:871-999 | every prefix of a turn's log is sound and its history well formed |
| TurnSafety.WriteAhead | src/sadana/conversation.py:956-975 | a tool runs only after a save of the message that asked for it succeeded, with nothing but the round's work in between |
| TurnSafety.ResultFollowsRun | src/sadana/conversation.py:972-990 | nothing happens between a dispatch and the recording of its own result |
| TurnSafety.RunOnce | src/sadana/conversation.py:968-990 | no call of a round is run twice |
| TurnSafety.HistoryGrows | src/sadana/conversation.py:871-996 | without compaction each moment's history extends every earlier one |
| Conversations.TakeTurn | src/sadana/conversation.py:1238-1291 | a turn of a consistent conversation never drifts, fails if and only if it escapes or the stable prefix is lost, and otherwise leaves a consistent conversation with the same voice |
| Conversations.LifeIsConsistent | src/sadana/conversation.py:1113-1291 | over any number of turns none drifts, each opens with nothing pending, the voice stays, turn numbers are consecutive, and the epoch has grown by the number of turns that changed the prompt |
| Conversations.LifeGrows | src/sadana/conversation.py:1238-1291 | over turns without compaction no message is ever lost |
| Retry.Resolve | src/sadana/model_access.py:354-367 | at most max(0, cap - attempt) + 1 requests go out, all but the last failed transiently, and the outcome is never a retry |
| Retry.SendsDetermined | src/sadana/model_access.py:148-180 | the number of requests is determined by the answers and the cap |
| MessageStore.Store.InsertMessages | src/sadana/conversation_store.py:561-645 | the table after a save is the specification's, with the surviving ids reported in order |
| MessageStore.FlushRows | src/sadana/conversation_store.py:595-629 | a save writes one row per message from its start, touches no settled row, and finalises a placeholder in place |
| MessageStore.FlushKeepsIds | src/sadana/conversation_store.py:590-594 | ids stay unique, and a promoted row keeps the id it was first written with |
| MessageStore.SaveThenLoadExact | src/sadana/conversation_store.py:811-864 | loading after a save returns the saved history if and only if the rows already there agree with it and it holds no summary |
| MessageStore.Persister.Persist | src/sadana/conversation_store.py:901-924 | flushing only what was not flushed yet gives the same rows as saving everything |
| SavedRuns.TailsRefineWhole | src/sadana/conversation_store.py:901-924 | over any sequence of saves, sending tails and sending whole histories give the same rows, ids and announcements |
| SavedRuns.GrowingSavesMirror | src/sadana/conversation_store.py:759-864 | after saves of growing histories rows run from 0 without a gap and loading returns the last one |
| SavedRuns.SettledIsFinal | src/sadana/conversation_store.py:602-629 | a settled row never changes again, and a placeholder is finalised once and keeps its id and creation time |
| CrashRecovery.CrashRecovers | src/sadana/conversation.py:956-990 | killed between any two events, what loads is well formed, repairing it leaves nothing pending and only adds rows, and every tool that ran was asked for in it |
| WatchedTurn.CrashAfterOpening | src/sadana/door/nouns/messages.py:127-170 | a crash right after the opening rows loads as a well-formed history if and only if nothing was pending |
| WatchedTurn.WatchedTurnReadsBack | src/sadana/door/nouns/messages.py:187-241 | after the closing branch and the last save the store reads back the turn's history if and only if the turn added something |
| WatchedRun.TurnHasShape | src/sadana/conversation.py:847-999 | every turn without compaction gives the store saves of the shape it relies on |
| WatchedRun.WatchedTurnExact | src/sadana/door/nouns/messages.py:127-241 | end to end, a watched turn that ends reads back if and only if it appended anything; one that escapes leaves its last save, or its opening rows |
| WatchedRun.SavedTurnDrops | src/sadana/door/nouns/messages.py:213-238 | a watched turn that ends and whose save landed always ends in the branch that drops the placeholder |
| WatchedRun.FalseTombstoneExact | src/sadana/door/nouns/messages.py:187-241 | a watched turn announces as deleted a placeholder that stays if and only if it did not escape and a save of it landed |
| WatchedRun.WatchedCrashExact | src/sadana/door/nouns/messages.py:127-170 | killed after any event of a watched turn, what loads is well formed if and only if a save had landed or nothing was to repair, and holds the request of every tool that ran |
| WatchedRun.ClosedCrashExact | src/sadana/door/nouns/messages.py:187-241 | the same condition decides it between the closing and the save after the turn |
| WatchedTurn.NextSaveExact | src/sadana/conversation_store.py:561-645 | after a crash behind the opening rows, what is loaded and every history that grows from it can be saved over the rows if and only if they have no gap |
| Pauses.PauseStore.WritePauseRow | src/sadana/conversation_store.py:1361-1453 | the pause is replaced, and the one waiting approval updated in place or a new one opened |
| Pauses.PauseStore.MarkApprovalDecided | src/sadana/conversation_store.py:1697-1729 | only a waiting approval is settled, once |
| Pauses.PauseStore.SavePause | src/sadana/conversation_store.py:1456-1494 | parking a run keeps pauses and approvals in step |
| Pauses.PauseStore.ResolvePause | src/sadana/conversation_store.py:1575-1626 | deciding and parking again, or ending, in one transaction keeps them in step |
| Pauses.EmptyCoupled | src/sadana/conversation_store.py:1361-1453 | empty tables are in step |
| Pauses.RunsCouple | src/sadana/conversation_store.py:1361-1626 | in every reachable state a conversation has a pause if and only if it has exactly one waiting approval, for the same step |
| Pauses.RunsEvolve | src/sadana/conversation_store.py:1361-1626 | over any run a decided approval never changes, ids stay with their conversation, and versions only grow |
| Pauses.ResolveDecides | src/sadana/conversation_store.py:1575-1626 | resolving settles exactly the approval that was waiting |
| Pauses.DeletePauseExact | src/sadana/conversation_store.py:1562-1572 | `delete_pause` keeps the tables in step if and only if there was nothing to delete |
| Ledger.LastWriteWins | src/sadana/ledger.py:200-240 | what a stretch of changes does to an id depends only on its last mention |
| Ledger.FollowApplies | src/sadana/ledger.py:243-270 | however the feed is cut into pages and grows between polls, a mirror has applied exactly the changes up to its cursor |
| Ledger.ReadLaterIsFine | src/sadana/ledger.py:273-278 | an entry read later than the cursor and brought forward with changes it already contained is right |
| Ledger.MirrorConverges | src/sadana/ledger.py:243-298 | head, then inventory noun by noun at later moments, then the feed: at the end of the ledger the mirror equals the store, deletions included |
| Ledger.CatchUp | src/sadana/ledger.py:243-270 | paging with any limit of at least one reaches the end of the ledger |
| Ledger.StepsMakeTimeline | src/sadana/ledger.py:210-217 | transactions that each announce what they do make a timeline a mirror can follow |
| StoreTables.AppliedListedExact | src/sadana/ledger.py:210-217 | the change rows of a transaction bring a listing of the store before it to one of the store after it if and only if it told the truth, and ids stay apart |
| StoreTables.ListingExact | src/sadana/ledger.py:281-298 | there is exactly one listing that shows the tables, the inventory's |
| StoreTables.RunTimelineExact | src/sadana/ledger.py:210-217 | the moments of a run of the store are a timeline a mirror can follow if and only if every transaction told the truth |
| StoreTables.MirrorsAgreeExact | src/sadana/ledger.py:243-298 | every mirror of a run, however started and fed, holds at the end of the ledger what the store lists, if and only if every transaction told the truth |
| StoreTables.MirrorMisled | src/sadana/ledger.py:243-298 | a mirror started just before an untrue transaction is wrong right after it |
| StoreTables.ClosingShowsExact | src/sadana/door/nouns/messages.py:209-238 | the change row of a closing is right if and only if what it calls changed is there, or what it calls deleted is what the conditional delete took |
| StoreTables.FlushShows | src/sadana/conversation_store.py:561-725 | the message rows a save leaves and those it announces are the same |
| StoreTables.DroppedPlaceholderExact | src/sadana/door/nouns/messages.py:231-238 | the tombstone for a dropped placeholder is true if and only if the row was still streaming |
| LedgerStore.Store.Create | src/sadana/conversation_store.py:648-701 | a taken key is refused with nothing written; otherwise the row starts at version 1 with its messages, and all of it is announced |
| LedgerStore.Store.Open | src/sadana/door/nouns/messages.py:127-170 | both opening rows are written and announced, or neither when a place is taken |
| LedgerStore.Store.Close | src/sadana/door/nouns/messages.py:187-241 | one of the three conditional statements runs, the change row is written whatever it did, and the two agree exactly when the closing was true |
| WatchedFeed.WatchedTurnTruthfulExact | src/sadana/client_surface.py:560-574 | with any other transactions in between that leave the conversation's messages alone, and given that all but the closing told the truth, all of them did if and only if the turn escaped or no save of it landed |
| WatchedFeed.WatchedTurnMirrorExact | src/sadana/door/nouns/messages.py:187-241 | every mirror of such a store agrees with it after a watched turn if and only if the turn escaped or no save of it landed |
| WatchedFeed.AloneTruthful | src/sadana/door/nouns/messages.py:127-241 | when nobody else writes, only the closing of a watched turn is in question |
| LedgerStore.Store.Save | src/sadana/conversation_store.py:759-798 | saving keeps or creates the row's identity, bumps its version, writes its messages, and announces all of it |
| LedgerStore.Store.InsertMessages | src/sadana/conversation_store.py:704-725 | each landed message row is announced once, at version 1 |
| LedgerStore.Store.TouchConversation | src/sadana/conversation_store.py:728-748 | the bump is announced at the version that committed; an unknown key announces nothing |
| LedgerStore.Store.WriteEntry | src/sadana/memory_store.py:110-151 | rewriting keeps the id, bumps the version, brings a forgotten entry back, and is announced |
| LedgerStore.Store.ForgetEntry | src/sadana/memory_store.py:172-191 | forgetting is a state with a new version, announced; nothing else changes |
| LedgerStore.Store.DeleteEntry | src/sadana/memory_store.py:194-210 | a purge leaves the row out of the inventory and a tombstone in the ledger |
| LedgerStore.Store.UpdateConversation | src/sadana/door/nouns/conversations.py:108-125 | the version after the one read before is written and announced |
| LedgerStore.Store.Adopt | src/sadana/memory_store.py:424-463 | an adopted entry appears with its owner, goes where it was, and both are announced |
| LedgerStore.Store.PurgeAccount | src/sadana/stores.py:187-196 | an account's entries go and nothing is announced, which is true if and only if it had none |
| StoreTables.RaisesVersionsExact | src/sadana/door/nouns/conversations.py:108-125 | a write raises the version it writes unless it is an update by a caller who had read an older one |
| StoreTables.VersionsGrow | src/sadana/conversation_store.py:728-748 | over a run without such updates no conversation goes away, changes its id or goes back a version, and the same version means the same row |
| StoreTables.AdoptKeepsExact | src/sadana/memory_store.py:398-463 | adopting keeps every text unless both names are taken by another one |
| GraphChecks.FirstUnreachable | src/sadana/plugins.py:940-959 | the queue walk ends, and names the first declared node no entry reaches, if there is one |
| GraphChecks.CycleWalk.Visit | src/sadana/plugins.py:974-986 | one visit leaves everything below it behind in an order without cycles, or names a node on a cycle the path leads to |
| GraphChecks.FirstCycle | src/sadana/plugins.py:962-992 | nothing is found if and only if no cycle is reachable, and what is found lies on a reachable cycle |
| GraphChecks.ReachedAcyclicIsAcyclic | src/sadana/plugin_manifest.py:224-230 | both checks together make the whole declared graph acyclic |
| GraphChecks.ValidateGraph | src/sadana/plugin_manifest.py:199-232 | validation accepts exactly the sane graphs, and each refusal names something really wrong |
| Manifests.StepShrinksReach | src/sadana/plugin_manifest.py:425-428 | in an acyclic graph each step leaves strictly less to reach |
| Manifests.OrderedReach | src/sadana/plugins.py:974-986 | what a chain of names pointing only backwards leads to stays in it and lies on no cycle |
| Walker.RunGraph | src/sadana/plugin_manifest.py:568-689 | the loop ends on every validated graph and computes the walk |
| ParkedRuns.ParkingIsLive | src/sadana/plugin_manifest.py:577-689 | parking at every call and resuming each with its decision ends as asking on the spot: text, artifacts, trace, failed or waiting node |
| ParkedRuns.StripExact | src/sadana/plugin_manifest.py:310-328 | a parked value is kept as it is if and only if it has no reserved key |
| ParkedRuns.ReinjectExact | src/sadana/plugin_dispatch.py:474-489 | a stripped and re-injected value is the original if and only if it carried only the session's key, or was no object |
| ParkedRuns.NoAskExact | src/sadana/plugin_dispatch.py:381-390 | a walk without a model is the same if and only if nothing, answer or error, ever came back from one in it |
| ParkedRuns.ResumedRunExact | src/sadana/plugin_dispatch.py:472-517 | a dispatched and resumed run equals the live one if and only if nothing came back from a model after a call |
| ResumableGraphs.ResumableExact | src/sadana/plugin_dispatch.py:381-390 | every run of an entry, parked at its calls and finished later with the values it was parked with, ends as it would have live - for all bodies, models, decisions and arguments - if and only if no passable way leads from the entry through a call to an ask |
| ResumableGraphs.ResumedRunSafe | src/sadana/plugin_dispatch.py:472-517 | without such a way parking and resuming is running live |
| ResumableGraphs.ResumedRunDiffers | src/sadana/plugin_dispatch.py:381-390 | for each such way there are bodies and a model with which the two end differently |
| ResumableGraphs.NoAskBelowCall | src/sadana/plugin_dispatch.py:472-517 | a graph where no ask can be reached from a call is safe to resume |
| ResumableGraphs.CallThenAskDiffers | src/sadana/plugin_dispatch.py:381-390 | a call followed by an ask finishes live and fails when resumed |
| ResumableGraphs.CallThenErrorDiffers | src/sadana/conversation.py:1409-1411 | the same graph with a child that cannot be started fails both ways, with two different traces |
| WalkTraces.TraceOfResume | src/sadana/plugin_manifest.py:573-611 | a resumption continues a path of declared arrows |
| WalkTraces.ChainsAreBounded | src/sadana/plugin_manifest.py:421-432 | over any chain of pauses and resumptions the trace is a path of declared arrows without repetition, no longer than the number of nodes |
| WalkTraces.ValidatedRunsAreBounded | src/sadana/plugin_manifest.py:421-432 | validation alone is enough for that bound |
| GraphEdits.RenameBackExact | src/sadana/plugins.py:861-897 | renaming back restores the manifest if and only if the old name was not empty and the new one, if another, was written nowhere in it |
| GraphEdits.RenameKeepsEdges | src/sadana/plugins.py:861-897 | a rename to an unused name moves every arrow along and adds none |
| GraphEdits.RenameKeepsReach | src/sadana/plugins.py:861-897 | it keeps who reaches whom and who lies on a cycle |
| GraphEdits.RenameKeepsSane | src/sadana/plugins.py:861-897 | the renamed manifest is valid if and only if the original was |
| GraphEdits.RemoveKeepsEdges | src/sadana/plugins.py:900-922 | removing a node takes away exactly the arrows that touched it |
| GraphEdits.RemoveKeepsShape | src/sadana/plugins.py:900-922 | a removal keeps closedness, acyclicity, and entries at declared nodes unless none is left |
| GraphEdits.AddNode | src/sadana/plugins.py:925-937 | the search ends at the lowest unused name, and no arrow changes |
| TomlStrings.StringBack | src/sadana/plugins.py:460-493 | every string of Unicode scalar values is read back from its printed form |
| TomlStrings.JsonAloneExact | src/sadana/plugins.py:469-478 | without the extra escape a string would be readable if and only if it held no U+007F |
| TomlReader.StrsPairBack | src/sadana/plugins.py:530 | a printed array of strings is read back as those strings |
| ManifestToml.PrintManifest | src/sadana/plugins.py:496-539 | the line-by-line printer produces the specified text |
| ManifestToml.RoundTrip | src/sadana/plugins.py:496-841 | printing and parsing any manifest gives it back, absent fields absent and empty ports empty |
| ManifestToml.PrintInjective | src/sadana/plugins.py:496-507 | two manifests are never printed the same way |
| EditorLayout.FindDepths | src/sadana/editor_layout.py:35-52 | each reached node gets its shortest distance from an entry, and exactly the unreached ones are absent, cycles and dangling arrows included |
| EditorLayout.Positions | src/sadana/editor_layout.py:55-73 | every node gets a position of its own, at its distance, with unreached ones beyond all reached ones |
| Ids.AdvanceExact | src/sadana/ids.py:80-106 | an advance takes the next tick, or the first of the clock's millisecond if that is later |
| Ids.RunExact | src/sadana/ids.py:80-106 | the last tick of a run in closed form, for any readings |
| Ids.AheadBound | src/sadana/ids.py:94-100 | after n mints the stored millisecond is at most (n - 1) / 4096 ahead of the largest reading |
| Ids.Layout | src/sadana/ids.py:112-132 | the fields put together with shifts, or and and do not overlap |
| Ids.VersionAndVariant | src/sadana/ids.py:112-133 | the dashed form has 36 characters, its dashes in place, version 7 and variant 10 |
| Ids.IdsSortByMint | src/sadana/ids.py:141-147 | whatever the clock did, later ids are larger numbers and sort later as text |
| Ids.ParseExact | src/sadana/ids.py:157-177 | reading accepts exactly prefix, underscore and 32 lower-case hexadecimal digits |
| Ids.OneKindPerId | src/sadana/ids.py:30-35 | no string is an id of two kinds |
| Ids.MadeIdParses | src/sadana/ids.py:141-177 | what was made reads back if and only if its millisecond fits 48 bits |
| Ids.Minter.Mint | src/sadana/ids.py:109-133 | the module's state follows the readings, and the text is the dashed number |
| Ids.Minter.MakeId | src/sadana/ids.py:136-154 | an unregistered prefix is refused before anything is minted |
| Calendar.FromOrdinalExact | src/sadana/cron.py:144-146 | a day number names a real date with that number |
| Calendar.OrdinalRoundTrip | src/sadana/cron.py:144-146 | every real date is found again by its number |
| CronFields.ParseField | src/sadana/cron.py:57-88 | a field is refused if and only if a part of it is malformed or out of range, and otherwise holds exactly the selected numbers, never none |
| CronFields.Parse | src/sadana/cron.py:91-107 | an expression is read if and only if it has five readable fields, each within its range |
| CronTimes.FirstOfDay | src/sadana/cron.py:149-157 | the smallest candidate of a day, with the starting day's past left out |
| CronTimes.NextAfter | src/sadana/cron.py:121-159 | the least matching instant strictly after the given one, refused if and only if none lies in the window |
| CronWindow.YearlyIsFound | src/sadana/cron.py:30-34 | an expression some ordinary year meets is always found |
| CronWindow.EverFiresExact | src/sadana/cron.py:110-118 | a next time exists for exactly the expressions some real date meets |
| CronWindow.GivesUpWronglyExact | src/sadana/cron.py:30-34 | the search gives up although a time exists if and only if only 29 February is allowed and the search falls in a century gap |
| CronWindow.LeapDay2104Missed | src/sadana/cron.py:30-34 | from noon on 1 March 2096 the search misses 29 February 2104 |

## Left out

- HTTP, sockets, webhooks, subprocesses, signals, git, the command line and the editor's browser surface: input and output without a provable core.
- SQLite and SQL text: tables are maps, a write transaction is one atomic step, one that fails for a reason of SQLite's own leaves everything as it was and is no step of a run, the partial unique index on waiting approvals is an invariant. An id minted at random is the next unused number.
- asyncio and threads: cancellation is an answer of the world at each await, and writers interleave transaction by transaction.
- Hashes, JSON text and random bits: prompt drift is one flag, argument values are their canonical text, random bits are arbitrary numbers. Repair of malformed argument JSON and the call ids derived from hashes are not modelled.
- The texts of capped or spilled tool results: the spill checkpoint may return any text, fail, or be cancelled. Token usage, context state and the wire format of requests are not modelled.
- The wall clock inside a turn is the one reading the caller passes in, reduced to whether the budget was already spent.
- Tool surfaces, child conversations and their sequence numbers, and the rendering of the catalog: little beyond record updates. `Conversations` takes a conversation's tools, key and template name as given.
- A history that was compacted is never compared with the store: compaction shrinks it and the summary flag is not stored (conversation_store.py:820-831), so the store, crash and watched-turn results are for runs without compaction.
- Finalising a placeholder leaves its `role` column alone (conversation_store.py:624-627): the save-then-load condition asks the placeholder to have the final role, which watched turns satisfy.
- The run id a finished turn writes into its message rows, and the failed state a resumed reply is given (door/nouns/messages.py:334-360): no inventory lists either. Accounts of conversations, schedules and the other tables `purge_account` empties are not modelled either.
- Rows written before identities existed, and their filling in, are not modelled: every row has an id.
- Schedules and approvals are announced in the ledger but listed by no inventory (ledger.py:135-136), so the mirror result is for conversations, messages and memory entries.
- `delete_pause` is not one of the steps of the pause machine; what it does to it is `Pauses.DeletePauseExact`.
- The plugin's manifest is taken to be the same when a run is parked and when it is resumed, its settings to be present, and a stored value to come back from JSON as it went in; bodies, `ask` and file-artifact checks are arbitrary functions that answer the same when asked the same.
- Node sinks, previews and trace recording around the walk.
- The parts of validation before and between the graph checks: plugin, setting and skill names, schemas, and importing bodies.
- TOML beyond what the printer writes: the reader refuses dotted or quoted keys, other value types, literal and multi-line strings and arrays over several lines. A field of the wrong type is an error in the model where `_parse_manifest` lets some through.
- Lone surrogates, which `toml_string` refuses: a Dafny `char` is a Unicode scalar value.
- `manifest_to_dict` and `manifest_from_dict`.
- Clock readings before 1970: `Ids.Minter` takes readings of at least 0.
- Daylight saving: a zone is a fixed distance from UTC. Instants are exact; the rounding of `datetime.fromtimestamp` to microseconds is not modelled, nor the end of Python's calendar in the year 9999.
- Splitting a cron expression at white space, and digits outside ASCII, which `isdigit` lets through: `CronFields.Parse` takes the pieces, and digits are 0 to 9.
- `send`'s credential check and the provider registry: an attempt may come back without having been made. The retry cap is taken to be the same for all attempts of one `resolve`.
- Personas, the plugin index and the marketplace: simpler map synchronisation.
