# Amrita: a verified model of its protocol and state cores

Dafny models of the parts of the repository where state, order and arithmetic interact, with proofs of what those
parts promise. Every loop and every object whose methods change it in place is an imperative Dafny method or class,
proved equal to a specification function; the theorems are about the specifications, over all inputs and all runs.

`dafny verify dfyconfig.toml` checks everything.

## What is modelled

* **Live delivery.** `Events` (the log and the frames), `EventServer` (the replay-then-live socket handler),
  `StreamClient` (the reconnecting client), `Transcript` (the reducer and the plain reading it refines),
  `StreamRetries` (its retry budget and what its state handler is told), `LiveDelivery`, which puts log, any number
  of sockets, client, transcript and HTTP fallback into one step system, `StreamDelivery`, what a connection owes
  besides the conversation's stored events, and `ReplayGap`, what is lost beyond the replay bound.
* **The board.** `Order` (string order), `FractionalIndex` (keys between keys), `Board` (comparator, drops, runs of
  drags), `BoardColumns` (the partition into columns and what a drop writes).
* **Lanes side by side.** `LaneScope`, `LaneApproval` (the gate and the lanes it lets run), `Watcher` and
  `WatcherSafety` (the event-folding watcher with its ledger), `WatcherGrounds` (what it proposes, told from the steps
  alone), `LanesPanel`, `LaneConvergence` and `LaneHistory` (the store's lane rows, the panel that folds events and
  merges rows, the agreement of the two, and what each of them shows).
* **A lane under a budget.** `LineFraming` and `EventLines` (output in chunks, lines, events), `Budget`, and the two
  runners: `CodexRunner` with `CodexVerdict`, and `ClaudeRunner` with `ClaudeVerdict`.
* **Smaller cores.** `SessionPanes`, `ArtifactStore`, `RateLimiter`, `Scheduler`, `IsoWeek`, and the charter's plain
  lines: `Text`, `PlainLines`, `Charter`, `DecisionRights`.

## What is assumed

* The store numbers the events of a conversation 1, 2, 3, … and `listEvents` gives the ascending rest beyond a
  number; fan-out follows the order of appending; event ids are fresh and not empty.
* Stream-only events are sealed with number 0 (packages/daemon/src/kernel.ts:1377-1383) and have ids no stored event has.
* A socket delivers its frames in order; it may lose all of the rest at any moment. The replay of one connection may
  be interleaved with anything in `LiveDelivery`; its flush runs without interruption, as the handler is synchronous.
* Clocks, generated ids, parse results and congestion are parameters. Timestamps are integers, or texts together
  with the moment they parse to, if they do. Money and minutes are real numbers.
* Ids and timestamps are plain enough that JavaScript's order on strings is the order of their characters. Objects
  used as maps keep the order of insertion, and no id is a name every object has.
* Lane events carry their lane in the envelope, as the kernel writes them (packages/daemon/src/kernel.ts:4037-4054), and
  a lane is spawned once, before anything else about it. The panel is sent the events of the conversations it has
  opened, whole and each in order; the rows it merges are those of the whole project, each as the store had it at some
  moment, and lanes of other conversations may have any row.
* The timestamps of frames and snapshots parse, as the schema demands (packages/protocol/src/ids.ts:20), where
  `PanesSettle` and `PanesConverge` are concerned; `PaneIsLatestExactly` does without.

## What the code does not promise

Each of these is a theorem here, with the exact condition or a concrete input.

* The wire accepts any order key of 1 to 64 characters (packages/daemon/src/rpc.ts:201), but only legal keys, as the
  board itself gives them, always have room below: `KeyBetweenLegal`, `KeyBetweenExact`. The depth cap is out of
  reach of legal keys, but not of longer ones: `LegalNeverBlocked`, `DepthCapBreaksUpperBound`.
* A drop into the part of a column nobody has dragged yet, or between two cards that share a key, does not land:
  `DropLegalExact`. Keys that are not legal add further cases: `DropExact`, `DropAnyExact`.
* A board with two live phases of one id, or with an empty one, shows tasks twice: `ConservationExact`.
* A finished card dropped on Waiting stays in Done, and a phased card dropped on Unphased stays in its phase:
  `DropShownExact`.
* More than 1000 missing events are not all replayed, and the live stream then jumps over the rest for good:
  `ServedUpToDateExactly`, `BehindLosesEvents`, `LostForGood`.
* A fixed window admits almost twice its bound within one window length: `AdmissionsAreBounded`, `BoundIsReached`.
* "Done" does not mean that no turn failed: `DoneExactly`, `SilentFailureIsDone`.
* The Claude runner's live bounds on tokens and dollars never bite: its parser reports usage with the final result
  only. The comment at packages/lanes/src/claude-code.ts:172-175 says usage is recorded for each turn "when the stream
  reports it"; it never does: `LiveBoundsExactly`.
* A restart that finds the settings behind makes a job run early, a single lost write being enough:
  `RestartIsSafeExactly`, `LostWriteRunsAgain`.
* The week key takes dates of the years 0 to 99 for others: `UtcIsItselfExactly`, `EarlyDatesCollide`.

## Model

| member | source | states |
|---|---|---|
| LiveDelivery.HandledNumbersIncrease | packages/daemon/src/http.ts:854-924 | End to end, over every interleaving of appends, stream-only events, accepted and lost sockets, backlog reads, replay, flush, congestion, client input and HTTP answers: the durable events the client handles have strictly increasing numbers for its whole life, all of its own conversation, none beyond its cursor, and the cursor never passes the log. No bound on the backlog. |
| LiveDelivery.NothingIsMissing | apps/web/src/stream.ts:186-201 | In the same runs, as long as no connection the client used found more than 1000 events waiting: the events handled are exactly the log up to the cursor, each once and in order, and the transcript shows exactly the messages of the log up to the number it has reached. |
| LiveDelivery.QuietIsUpToDate | packages/daemon/src/http.ts:886-924 | In the same runs, a live connection that was not cut off and has nothing in flight has brought the client the whole log: subscribing before the replay loses nothing. |
| LiveDelivery.ActKeeps | packages/daemon/src/http.ts:886-924 | Each single action, from any world in which the delivery invariant holds, keeps it: in-flight events lie between the two cursors, ascending, and while caught up nothing is missing between client, socket, buffer and log. |
| LiveDelivery.AppendedMineGapless | packages/daemon/src/http.ts:889-892 | Fan-out of the next event keeps a connection gapless whatever stage it is in: buffered during the replay, forwarded when live. |
| LiveDelivery.FinishGapless | packages/daemon/src/http.ts:921-924 | Flushing the buffers after the replay, with duplicates dropped by number, leaves the connection gapless and level with the log. |
| LiveDelivery.ReplayOneGapless | packages/daemon/src/http.ts:911-919 | One step of the replay loop, sent or cut off by congestion, leaves no gap between what was sent and the server cursor. |
| EventServer.ServedUpToDateExactly | packages/daemon/src/http.ts:910-924 | An uncongested connection is sent a stretch of the log from its cursor on with no gap, and is up to date exactly when at most 1000 events were missing. |
| ReplayGap.BehindLosesEvents | packages/daemon/src/http.ts:859-864 | From any world that keeps the delivery invariant and whose current connection is live but behind the log: one more event of the conversation and the arrival of all in flight leave the client with something other than the log from its beginning. |
| ReplayGap.LostForGood | packages/daemon/src/http.ts:910-924 | What has been lost so stays lost to the handlers: no later run of appends, reconnects, replays and HTTP answers makes what was handled the log from its beginning again. |
| EventServer.EventSocket.Replay | packages/daemon/src/http.ts:910-924 | The replay loop with its bound and its abort on a congested send, followed by the flush, is exactly the step-wise specification run to its end. |
| StreamDelivery.ConnectionSendsExactly | packages/daemon/src/http.ts:855-924 | Over every run from the moment a client dials, a connection that was not cut off has sent, or still buffers, exactly the stream-only events of its conversation and the panes of its project elsewhere emitted since it was accepted, and exactly the domain changes stored in the other conversations of the project since then, each once and in order; and exactly one end of replay once it is live. |
| StreamDelivery.FeedIsConserved | packages/daemon/src/http.ts:855-924 | From any world that keeps the delivery invariant, for each of these feeds: what was held of it before and what became due is exactly what arrived and what is still held. |
| StreamDelivery.HandlersAreToldExactly | apps/web/src/stream.ts:186-201 | While a socket stays current, the handlers are told exactly the frames it brings, in order, apart from changes of state. |
| StreamDelivery.QuietHasToldAll | apps/web/src/stream.ts:186-201 | A current live connection with nothing in flight, not cut off, has had all that was due of each feed told to the handlers. |
| StreamDelivery.FlushInOrder | packages/daemon/src/http.ts:921-924 | The flush sends what was stored before what was only streamed, and last of all the end of the replay with the final cursor. |
| StreamClient.RunsHaveOneDriver | apps/web/src/stream.ts:146-233 | In every reachable state: one current socket and no armed timer while connecting or open, one armed timer and no socket while reconnecting, neither once given up or closed; retries never exceed the maximum. |
| StreamClient.ClosedIsFinal | apps/web/src/stream.ts:237-249 | After close no socket event, timer or revival changes anything or calls a handler. |
| StreamClient.CursorMovesByEvents | apps/web/src/stream.ts:186-201 | Only an event frame of the current socket moves the cursor, and only forward; project frames, stale sockets and timers never do. |
| StreamClient.GivesUpExactly | apps/web/src/stream.ts:146-156 | After any number of failures in a row within the budget the next failure waits by the schedule while budget is left, and gives up exactly when none is. |
| StreamRetries.BudgetIsSpentExactly | apps/web/src/stream.ts:146-209 | From any state that is still trying, whatever it has spent, over every run without an open, a revival or a close: each failure spends one retry, and the stream has given up exactly when there was one failure more than the budget held. |
| StreamRetries.OpenRestoresBudget | apps/web/src/stream.ts:170-174 | An open of the current socket restores the whole budget, whatever had been spent: from then on it takes one failure more than the maximum to give up, and every one before is a retry. |
| StreamRetries.DropAfterOpenWaits | apps/web/src/stream.ts:146-174 | With any budget at all the drop right after an open waits, with the first delay. |
| StreamRetries.RevivalRestoresBudget | apps/web/src/stream.ts:215-225 | Coming back online restores it too, for a stream that waits or has given up; a socket that cannot be made then is the first failure. Any other stream ignores it. |
| StreamRetries.EveryWaitIsScheduled | apps/web/src/stream.ts:146-162 | In every reachable state a waiting stream has exactly one armed timer, with the delay of the retry it is at: by the schedule, its last entry repeating, a second without one. |
| StreamRetries.StateIsToldExactly | apps/web/src/stream.ts:130-135 | The state handler is told every change of state and nothing else, over every run. |
| StreamClient.EventStream.OnClose | apps/web/src/stream.ts:205-209 | Only the current socket schedules a reconnect when it closes: then there is no socket, and exactly one timer or none and the stream has given up. One driver is kept. |
| StreamClient.EventStream.OnTimer | apps/web/src/stream.ts:146-168 | An armed timer that fires leaves a new current socket and no timer, or spends another retry when the socket cannot be made. One driver is kept. |
| StreamClient.EventStream.OnRevive | apps/web/src/stream.ts:215-225 | Coming back online after giving up or while waiting restores the whole budget and leaves a new current socket and no armed timer. One driver is kept. |
| StreamClient.EventStream.DoClose | apps/web/src/stream.ts:238-249 | Close leaves the stream closed, with no socket and no armed timer. |
| StreamClient.EventStream.OnOpen | apps/web/src/stream.ts:170-174 | An open of the current socket, unless closed, leaves the stream open with no retry spent; any other open is ignored. One driver is kept. |
| Transcript.FoldIsFirstSeen | apps/web/src/live-transcript.ts:48-86 | For every sequence of deliveries with any duplicates: messages and draft are those of the deliveries seen for the first time, the draft being the deltas since the agent last spoke. |
| Transcript.ReflectsBatch | apps/web/src/live-transcript.ts:79-86 | A stretch of the log that starts within the prefix already shown extends the transcript to the messages of the longer prefix, or changes nothing. |
| Transcript.ReflectsStream | apps/web/src/live-transcript.ts:51-62 | A stream-only delta never touches the committed messages, nor what later events can still add. |
| Transcript.RedeliveryIsNoOp | apps/web/src/live-transcript.ts:49 | Folding again events already seen changes nothing at all. |
| Transcript.FoldEvents | apps/web/src/live-transcript.ts:79-86 | The loop computes the fold. |
| Transcript.RenderedExactly | apps/web/src/live-transcript.ts:94-97 | After any deliveries the list rendered is the committed messages and, exactly while the open deltas make a text, one pending bubble of the agent behind them with that text; nothing else is pending. |
| Transcript.MessagesAreSpoken | apps/web/src/lib.ts:41-50 | There is one message for each event in which user, agent or system spoke, in their order and no other: with the id and text of the event, and the role of who spoke. |
| Transcript.CursorIsHighest | apps/web/src/live-transcript.ts:51-55 | After any deliveries the cursor is the highest number among those seen for the first time. |
| Transcript.MessagesFromEvents | apps/web/src/lib.ts:41-50 | The plain reading of a log, which the transcript is proved against. |
| FractionalIndex.KeyBetweenShape | apps/web/src/board.ts:178-238 | For every pair of bounds: the key has legal digits only, never ends in the zero digit, is at most one digit longer than the longer bound, and lies above the lower bound. |
| FractionalIndex.KeyBetweenExact | apps/web/src/board.ts:178-238 | For every pair of bounds with an upper one: the key is below it exactly when the bounds are in order and not blocked (nothing but zero digits left above the lower bound, or so many that the depth cap fires first). |
| FractionalIndex.KeyBetweenLegal | apps/web/src/board.ts:174-191 | The promise of the index: below a legal key (digits only, not ending in the zero digit, at most 64 of them) or below none, and above any lower bound or none, there is always a key strictly between, not ending in the zero digit and at most one digit longer. |
| FractionalIndex.LegalNeverBlocked | apps/web/src/board.ts:161 | No upper bound of at most 65 digits that does not end in the zero digit is ever blocked: the depth cap is out of reach of the 64-character wire limit. |
| FractionalIndex.FallbackNeverTaken | apps/web/src/board.ts:187-190 | The fallback after the midpoint decides nothing for any input. |
| FractionalIndex.DepthCapBreaksUpperBound | apps/web/src/board.ts:197-198 | Beyond the wire limit the promise fails: below 65 zero digits and a "b" the depth cap yields a key that is not smaller. |
| FractionalIndex.MidpointAbove | apps/web/src/board.ts:197-238 | At every depth the midpoint is above its lower bound. |
| FractionalIndex.PrependExact | apps/web/src/board.ts:207-212 | Prepending below zero digits, at every depth: the midpoint is below the bound exactly when there is room before the cap. |
| FractionalIndex.NormalizeKey | apps/web/src/board.ts:167-172 | The loop keeps exactly the legal digits, in order. |
| FractionalIndex.ComputeMidpoint | apps/web/src/board.ts:197-238 | The recursion with its prefix loop computes the specified midpoint. |
| FractionalIndex.ComputeKeyBetween | apps/web/src/board.ts:178-191 | Degenerate ranges and the fallback included, the specified key is computed. |
| Board.BeforeIsStrictOrder | apps/web/src/board.ts:63-70 | The comparator is transitive and asymmetric, and any two cards with different ids are comparable. |
| Board.BeforeMeans | apps/web/src/board.ts:63-70 | Cards with a key come before those without; then the smaller key, or the earlier creation, decides, and between equals the smaller id. |
| Board.SortedUnique | apps/web/src/board.ts:63-70 | A column has exactly one sorted order, so any correct sort gives the same board. |
| Board.DropAnyExact | apps/web/src/board.ts:63-70 | For rows with any keys whatever: a card given the key for a place, re-sorted with the others, stands exactly at that place, everything else in order, if and only if the key is strictly between the raw keys around it, or ties with the card underneath and wins by its id. |
| Board.DropExact | apps/web/src/board.ts:250-260 | For neighbours with keys of digits, of any length and with any last digit: it stands there if and only if the card above has a key and the bounds are not blocked, or by such a tie. |
| Board.DropLegalExact | apps/web/src/board.ts:250-260 | For rows with keys as the board gives them: if and only if the card above has a key and the card underneath does not share it. |
| Board.KeyFitsExact | apps/web/src/board.ts:250-260 | The key computed for a place between keys of digits is strictly between its neighbours exactly when the card above has a key and the bounds are not blocked. |
| Board.DragStep | apps/web/src/board.ts:250-260 | One drag in a tidy column lands where it was aimed exactly when it stays within or just behind the keyed part, and leaves the column tidy with keys at most one digit longer. |
| Board.DragRunsLand | apps/web/src/board.ts:250-260 | Every run of at most 64 drags from a never-dragged column: all of them land exactly when none leaves the keyed part, and then all keys stay within the wire limit. |
| BoardColumns.ConservationExact | apps/web/src/board.ts:85-137 | Every task is shown exactly as often as it is a row, dropped ones not at all, for all tasks, if and only if the live phases have distinct nonempty ids. |
| BoardColumns.ShownExact | apps/web/src/board.ts:85-137 | How often a task is shown, for every board in both modes, duplicate phases included. |
| BoardColumns.StatusBoardShowsExact | apps/web/src/board.ts:55-60 | Without phases: Done shows exactly the finished tasks, Waiting the unfinished ones with a reason, Now and Later the others by their status; a dropped task is nowhere. |
| BoardColumns.PhaseBoardShowsExact | apps/web/src/board.ts:100-134 | With phases: a phase column shows exactly its open tasks, Unphased exactly the open tasks no live phase claims, Done exactly the done ones. |
| BoardColumns.ColumnsExactly | apps/web/src/board.ts:85-137 | The board has the four status columns in their order, or else one for each live phase in the order of the phases, then Unphased exactly when some open task is in no live phase, then Done. |
| BoardColumns.LivePhasesAppend | apps/web/src/board.ts:89 | The live phases are the phases not dropped, in their order. |
| BoardColumns.ColumnsSorted | apps/web/src/board.ts:62-137 | Every column of every board over rows with distinct ids is sorted by the comparator. |
| BoardColumns.DropShownExact | apps/web/src/board.ts:285-308 | After a drop is written the rebuilt board shows the card in the column it was dropped on, if and only if that is not Waiting for a finished card and not Unphased for a card a live phase still claims. |
| BoardColumns.DropWritesExactly | apps/web/src/board.ts:285-308 | The row after a drop: the key asked for in every case; on a phase, that phase, status now and no blocked reason; on Now, Later or Done, that status and no blocked reason; on Waiting, the old status and a blocked reason, asked for only where there was none; everything else as it was. |
| WatcherSafety.OneProposalPerFact | packages/daemon/src/watch-decide.ts:66-217 | Over every run of events and sweeps from any state: no ledger key is proposed twice or was proposed before, and there are exactly as many proposals as the ledger gained entries. |
| WatcherSafety.KeysIdentifyFacts | packages/daemon/src/watch-decide.ts:97-206 | Over ids without a colon no two facts share a ledger key, so one per key means one per fact. |
| WatcherSafety.OverlapsAlwaysOnRecord | packages/daemon/src/watch-decide.ts:77-111 | Over every run: any two active lanes of one project whose scopes overlap have their pair in the ledger. |
| WatcherSafety.RepeatedEventIsSilent | packages/daemon/src/watch-decide.ts:73-183 | A second delivery of the same event changes nothing and proposes nothing, in every state. |
| WatcherSafety.RepeatedSweepIsSilent | packages/daemon/src/watch-decide.ts:186-217 | A second sweep at the same moment or an earlier one changes nothing and proposes nothing. |
| WatcherSafety.EndedLaneStaysUnwatched | packages/daemon/src/watch-decide.ts:139-147 | Completion or abort removes the lane from the watch. |
| WatcherSafety.EndedLaneNeverStalls | packages/daemon/src/watch-decide.ts:186-202 | From then on no run without a new mandate for the lane proposes a stall of it. |
| WatcherGrounds.WatchIsExact | packages/daemon/src/watch-decide.ts:73-176 | Over every run from the start, told from the steps alone: the lanes watched are exactly those not ended since their last mandate, with its project, conversation and scope, last active at their last mandate, progress or report; the approvals pending are those requested and not resolved since. |
| WatcherGrounds.LedgerIsExact | packages/daemon/src/watch-decide.ts:66-217 | Over every run: a key is on the ledger if and only if some step gave grounds for it (a report, an abort, a mandate that met a lane, a sweep that found a lane idle or an approval waiting). |
| WatcherGrounds.ProposedExactly | packages/daemon/src/watch-decide.ts:66-217 | And there is a proposal with that key if and only if so. |
| WatcherGrounds.ProposalsAreGrounded | packages/daemon/src/watch-decide.ts:66-217 | Every proposal of a run is one that some step gave grounds for: its fact, project and conversation are those of the grounds. |
| WatcherGrounds.EarlyEndsExactly | packages/daemon/src/watch-decide.ts:120-137 | An early end of a lane is on the ledger if and only if some merge report of it said budget or partial. |
| WatcherGrounds.FailuresExactly | packages/daemon/src/watch-decide.ts:144-160 | An abort is on the ledger if and only if some abort of the lane was not the choice of the operator. |
| WatcherGrounds.WaitsExactly | packages/daemon/src/watch-decide.ts:204-214 | An approval is on the ledger if and only if some sweep came at least 180000 ms after a request of it, not renewed or resolved in between. |
| WatcherGrounds.StallsExactly | packages/daemon/src/watch-decide.ts:191-202 | A stall of a lane since a moment is on the ledger if and only if some sweep came at least 600000 ms after that moment, it being that of the last mandate, progress or report of the lane, and the lane not ended. For lane ids without a colon. |
| WatcherGrounds.OverlapsExactly | packages/daemon/src/watch-decide.ts:77-111 | A pair is on the ledger if and only if one of the two was mandated while the other was active in the same project with a scope that shares a path. For lane ids without a colon. |
| Watcher.WatchStore.DecideWatch | packages/daemon/src/watch-decide.ts:73-183 | The in-place fold of one event, ledger included, is the specified decision: new state and proposals in full. |
| Watcher.WatchStore.DecideSweep | packages/daemon/src/watch-decide.ts:186-217 | The two loops of the sweep are the specified decision; an unparseable time does nothing. |
| LaneScope.OverlapIsSharing | packages/daemon/src/lane-scope.ts:14-23 | Two paths overlap exactly when some path lies within both. |
| LaneScope.WithinIsPreorder | packages/daemon/src/lane-scope.ts:11-18 | Containment is reflexive and transitive, trailing slashes ignored. |
| LaneScope.OverlapSymmetric | packages/daemon/src/lane-scope.ts:21-23 | Overlap of scopes is symmetric. |
| LaneScope.NoConflictsExactly | packages/daemon/src/lane-scope.ts:26-32 | A candidate has no conflicts exactly when it overlaps no active scope. |
| LaneScope.ConflictsExactly | packages/daemon/src/lane-scope.ts:26-32 | The ids listed as conflicts are exactly those of the active scopes that share a path with the candidate. |
| LaneScope.WithinIsBySegments | packages/daemon/src/lane-scope.ts:11-18 | A path lies within a root if and only if the segments between the slashes of the root, its trailing slashes left out, begin those of the path. |
| LaneScope.BelowIsWithin | packages/daemon/src/lane-scope.ts:14-23 | Every path below a root lies within it, however the root is written, and overlaps it both ways round. |
| LaneScope.JailedScopesNeverOverlap | packages/daemon/src/kernel.ts:4445-4454 | Lanes confined to the jails of two different lane ids under one root never overlap, whatever they name inside. |
| LaneApproval.UngatedExactly | packages/daemon/src/lane-approval.ts:59-104 | Under real execution the gate stays open exactly for a lane that is not interactive, has no network, nothing outward, no explicit over-cap budget, is research or wholly inside the jail, is not forwarded, and overlaps no active lane. |
| LaneApproval.PolicyExactly | packages/daemon/src/lane-approval.ts:33-104 | For every mandate and posture: the class is the first that applies, in the order dry run, interactive, overlap, network, outward, spend, research, jailed, shared root; and the gate stays open exactly for a dry run, or for research or a jailed edit that is not forwarded. |
| LaneApproval.RunsAreGoverned | packages/daemon/src/kernel.ts:4524-4545 | Over every run of starts and ends: each lane that runs without the operator is contained and shares no path with any lane that was active when it started and still is. |
| LineFraming.ChunkingIsInvisible | packages/lanes/src/codex.ts:197-205 | However the output is cut into chunks, the handled lines and the unfinished line are those of the whole output. |
| LineFraming.PiecesAreTheSplit | packages/lanes/src/codex.ts:197-205 | Complete lines and rest are the one way to cut a text at its newlines: any pieces without newlines that make up the text are these, and these do. |
| EventLines.AtExitIsWhole | packages/lanes/src/codex.ts:197-226 | At exit the state of a runner is the fold of the events of the newline-split whole output, unterminated last line included, for every split into chunks. |
| CodexVerdict.AbortedExactly | packages/lanes/src/codex.ts:153-188 | The abort is armed exactly when at some point of the output the started turns or the accumulated spend crossed a bound, and it stays armed. |
| CodexVerdict.DoneExactly | packages/lanes/src/codex.ts:208-266 | The lane ends done exactly when it was allowed, not cancelled, ended in time with code 0, stayed within every bound at every point and at the end, and its last reported failure, if any, came without a message. |
| CodexVerdict.ExitsExactly | packages/lanes/src/codex.ts:100-266 | Every other exit, for every output however chunked: aborted exactly when refused, or when the runner threw and nobody cancelled; cancelled exactly when allowed and cancelled; budget exactly when it ran to its end and timed out, or a bound was crossed at some prefix of the output or by what it came to; partial exactly when all that is ruled out and a failure with a message or a code other than 0 is left. |
| CodexVerdict.AbortedFor | packages/lanes/src/codex.ts:153-188 | The reason kept is that of the first bound crossed, by order of events and then turns, tokens, dollars, minutes. |
| CodexVerdict.AfterSays | packages/lanes/src/codex.ts:159-174 | After any events the summary is the last nonempty text of the agent, and the progress is told item by item, each cut to its length. |
| CodexVerdict.InBoundsAtEveryPrefix | packages/lanes/src/codex.ts:153-188 | What was within bounds as a whole was within bounds at every prefix. |
| CodexVerdict.LastCheckDecides | packages/lanes/src/budget.ts:31-61 | With a nondecreasing clock and nonnegative usage the last check decides for all checks: the guard is monotone. |
| CodexVerdict.SilentFailureIsDone | packages/lanes/src/codex.ts:189-192 | A counterexample to "no turn failed": a failure with an empty message overwrites an earlier one and the lane ends done. |
| CodexRunner.CodexRun.OnStdout | packages/lanes/src/codex.ts:197-205 | The buffer loop handles exactly the complete lines of buffer and chunk, and keeps the rest. |
| CodexRunner.CodexRun.HandleLine | packages/lanes/src/codex.ts:145-196 | One line, blank and malformed ones ignored: counters, usage, failure, sticky budget verdict and progress, in full. |
| CodexRunner.CodexRun.Finish | packages/lanes/src/codex.ts:221-266 | The priority of the exit classification, last line included. |
| ClaudeVerdict.AbortedExactly | packages/lanes/src/claude-code.ts:181-197 | The abort is armed exactly when at some turn the turn bound, or any bound on what had been reported and on the elapsed time, was crossed, and it stays armed. |
| ClaudeVerdict.DoneExactly | packages/lanes/src/claude-code.ts:222-275 | The lane ends done exactly when it was allowed, not cancelled, ended in time with code 0, was within bounds at every turn, and the usage of its last result was within every bound at the end. |
| ClaudeVerdict.ExitsExactly | packages/lanes/src/claude-code.ts:139-275 | Every other exit, for every output however chunked, in the same way; partial exactly when nothing was exceeded and the code is not 0. |
| ClaudeVerdict.AbortedFor | packages/lanes/src/claude-code.ts:185-197 | The reason kept is that of the first turn at which a bound was crossed: the turn bound, or else tokens, dollars, minutes in this order. |
| ClaudeVerdict.AfterSays | packages/lanes/src/claude-code.ts:181-202 | The summary is the last nonempty one of a result, and each nonempty note is told as it came. |
| ClaudeVerdict.LiveBoundsExactly | packages/lanes/src/claude-code.ts:172-197 | With the events the parser can give, which report no usage with a turn, the bounds enforced while the child runs are exactly turns and minutes: token and dollar bounds are looked at when the child has ended. |
| ClaudeRunner.ClaudeRun.DoTurn | packages/lanes/src/claude-code.ts:185-197 | One turn: usage if reported, turn bound first, then every other bound, the first verdict sticks. |
| ClaudeRunner.ClaudeRun.HandleLine | packages/lanes/src/claude-code.ts:181-202 | One line: note, turn and result, unreadable lines ignored, in full. |
| ClaudeRunner.ClaudeRun.OnStdout | packages/lanes/src/claude-code.ts:203-213 | The buffer loop handles exactly the complete lines of buffer and chunk, and keeps the rest. |
| ClaudeRunner.ClaudeRun.Finish | packages/lanes/src/claude-code.ts:235-275 | The priority of the exit classification, last line included. |
| Budget.EvaluateExact | packages/lanes/src/budget.ts:20-28 | A verdict names a bound really exceeded, and there is none exactly when no bound is. |
| Budget.EvaluateNames | packages/lanes/src/budget.ts:20-28 | Of several bounds exceeded, the first is named: turns, tokens, dollars, minutes. |
| Budget.EvaluateMonotone | packages/lanes/src/budget.ts:20-28 | Spending more never brings a lane back within budget. |
| Budget.BudgetGuard.RecordTurn | packages/lanes/src/budget.ts:46-50 | A turn adds its tokens and cost, missing parts counting as zero. |
| Budget.BudgetGuard.Exceeded | packages/lanes/src/budget.ts:53-60 | The guard answers none exactly when the accumulated spend and the elapsed time are within every bound. |
| SessionPanes.PanesSettle | apps/web/src/session-state.ts:29-91 | For every sequence of live frames and snapshots with parseable times: a lane has a pane exactly when something was delivered for it, the pane has text, state and capture time of one of the latest captured, and it is live exactly when one of the latest was. |
| SessionPanes.PanesConverge | apps/web/src/session-state.ts:44-91 | With distinct capture times the panes are the same for every order and repetition of the deliveries. |
| SessionPanes.OfflineNeverBlanks | apps/web/src/session-state.ts:77-81 | An offline snapshot leaves a live pane alone exactly when it was captured at the same time or earlier. |
| SessionPanes.PaneIsLatestExactly | apps/web/src/session-state.ts:29-91 | For every sequence of deliveries, whatever their timestamps: the pane is one of the latest captured exactly when one of the latest arrives behind every timestamp that does not parse. |
| ArtifactStore.ReadExactly | packages/daemon/src/artifact-preview.ts:72-108 | Over every run of puts, reads and sizes with fresh ids and a nondecreasing clock: a read returns the html of a put if and only if that put is among the last maxEntries, unexpired, and the ticket is its own; the store never exceeds its bound. |
| ArtifactStore.ArtifactPreviewStore.DoPut | packages/daemon/src/artifact-preview.ts:72-89 | Oversize input is refused; otherwise expired entries go, then the oldest until there is room, then the new one is stored. |
| ArtifactStore.ArtifactPreviewStore.DoRead | packages/daemon/src/artifact-preview.ts:92-99 | A read answers for the entry with that id only if it is unexpired and the ticket matches. |
| ArtifactStore.ArtifactPreviewStore.Size | packages/daemon/src/artifact-preview.ts:101-104 | The size counts unexpired entries and drops the others. |
| ArtifactStore.ArtifactPreviewStore.DoPrune | packages/daemon/src/artifact-preview.ts:106-108 | Exactly the expired entries go, the rest keep their order. |
| RateLimiter.AdmissionsAreBounded | packages/daemon/src/http.ts:151-169 | Over every run with a nondecreasing clock, in every closed interval of one window length at most twice the bound less one is admitted for a key. |
| RateLimiter.BoundIsReached | packages/daemon/src/http.ts:151-169 | That bound is exact: for every limit there is a run that reaches it. |
| RateLimiter.HubAndPairing | packages/daemon/src/http.ts:118-193 | So in any minute fewer than 120 hits of the hub and fewer than 10 attempts at pairing are admitted from one source. |
| RateLimiter.MapIsBounded | packages/daemon/src/http.ts:156-162 | The map never outgrows its cap, over every run. |
| RateLimiter.LiveWindowsSurvive | packages/daemon/src/http.ts:157 | No request evicts or changes the live window of another key. |
| RateLimiter.RefusedExactly | packages/daemon/src/http.ts:180-193 | A request is refused exactly when its running window is used up, or it needs a new window and all places are live. |
| RateLimiter.FixedWindowLimiter.Allow | packages/daemon/src/http.ts:151-169 | The verdict and the whole new map, eviction loop included. |
| RateLimiter.FixedWindowLimiter.Evict | packages/daemon/src/http.ts:157 | The loop deletes exactly the expired windows. |
| Charter.RoundTripExactly | apps/web/src/charter.ts:25-58 | Print then read gives back a list of constraints if and only if each text is nonempty, trimmed, one line, at most 300 characters, and a soft one does not end in a hard marker. |
| Charter.ReadingIsStable | apps/web/src/charter.ts:31-58 | Read, print, read again changes nothing for every input whose lines are at most 300 characters. |
| Charter.LineRoundTripExactly | apps/web/src/charter.ts:25-57 | The same for one constraint. |
| Charter.KindExactly | apps/web/src/charter.ts:37-47 | A kind is read off a line exactly when what stands before its first colon is the name of the kind, in any case and with any blanks around; every other line is a policy, all of it. |
| Charter.HardExactly | apps/web/src/charter.ts:24-29 | A text is hard exactly when it ends in "(hard)", "(fixed)" or "(non-negotiable)", in any case and with blanks behind; what is left is what comes before, trimmed. |
| Charter.AnyCaseReads | apps/web/src/charter.ts:34-51 | So a line with kind and marker in any case reads as that hard constraint, cut at 300 characters. |
| Charter.ParseConstraints | apps/web/src/charter.ts:31-54 | The loop reads every line, dropping those without content. |
| Charter.ParseOne | apps/web/src/charter.ts:34-51 | One line: kind prefix in any case, text, marker, cut to 300 characters. |
| DecisionRights.RoundTripExactly | apps/web/src/charter.ts:60-79 | Print then read gives back a list of rights if and only if each side is nonempty, trimmed, one line, at most 200 characters, and the area contains no "->". |
| DecisionRights.LineRoundTripExactly | apps/web/src/charter.ts:60-78 | The same for one right. |
| DecisionRights.FirstArrowParts | apps/web/src/charter.ts:66-72 | A line is parted at its first "->", whatever arrow signs and colons it has; both sides are trimmed and cut at 200 characters, and a line with an empty side says nothing. |
| DecisionRights.FirstSignParts | apps/web/src/charter.ts:66-72 | Without "->", at its first arrow sign, whatever colons it has. |
| DecisionRights.FirstColonParts | apps/web/src/charter.ts:66-72 | Without either, at its first colon. |
| DecisionRights.NoSeparatorIsNothing | apps/web/src/charter.ts:66-68 | Without any of them it says nothing. |
| DecisionRights.ReadingIsStable | apps/web/src/charter.ts:60-79 | Read, print, read again changes nothing for every input whose sides are at most 200 characters. |
| DecisionRights.ParseDecisionRights | apps/web/src/charter.ts:60-75 | The loop reads every line at its first arrow of either kind, or else its first colon, dropping those without two sides. |
| IsoWeek.KeysAreWeeks | packages/daemon/src/review.ts:62-70 | For dates of any years: the keys are the same exactly when the dates, as `Date.UTC` reads them, fall in the same Monday-to-Sunday week. |
| IsoWeek.UtcIsItselfExactly | packages/daemon/src/review.ts:64 | A date is read as itself exactly when its year is not one of 0 to 99. |
| IsoWeek.EarlyDatesCollide | packages/daemon/src/review.ts:64 | A date of those years has the key of the date 1900 years later, in quite another week. |
| IsoWeek.FirstThursdayRule | packages/daemon/src/review.ts:65-68 | Agreement with clause 2.2.10 of ISO 8601:2004, unless the Thursday of the week falls in the years 0 to 99: the year has a first Thursday, and weeks are counted from the one holding it. |
| IsoWeek.WeekBounds | packages/daemon/src/review.ts:67-68 | With the same exception the week number is between 1 and 53. |
| IsoWeek.KeySaysYearAndWeek | packages/daemon/src/review.ts:68-69 | With the same exception, from the year 0 on, the key spells out the year in decimal without leading zeros, "-W", and the number of the week in two digits. |
| IsoWeek.ReviewKeyIsWeekly | packages/daemon/src/review.ts:158 | The review key of a project is the same exactly within one week, for all dates outside the years 0 to 99, and for those as they are read. |
| IsoWeek.ComputeIsoWeek | packages/daemon/src/review.ts:63-70 | The date arithmetic computes the specified key. |
| Scheduler.RunsAreSpaced | packages/daemon/src/scheduler.ts:180-214 | Over every mix of ticks, interruptions, lost writes and restarts: as long as no restart finds the settings behind, a job passes its due check only an interval or more after its last recorded run, in whichever process that was. |
| Scheduler.RestartIsSafeExactly | packages/daemon/src/scheduler.ts:134-150 | A restart is safe, no continuation of it running any job early, if and only if the settings know the last recorded run of each job or a later one. |
| Scheduler.JobsRunExactly | packages/daemon/src/scheduler.ts:180-214 | Over every run whose restarts found the settings level with the last runs: a tick takes up the whole list unless one is under way; and when its turn comes a job runs, recorded under the moment of the tick with the outcome it had, if and only if it is enabled and never ran or last ran at least its interval ago. |
| Scheduler.MemoryIsLastRecord | packages/daemon/src/scheduler.ts:142-144 | Over every run of events memory keeps, of each job run since the last restart, the moment and the outcome of its last recorded run. |
| Scheduler.SettingsAreLastRecord | packages/daemon/src/scheduler.ts:142-150 | When every write succeeds so do the settings, restarts or not. |
| Scheduler.WritesAreRemembered | packages/daemon/src/scheduler.ts:142-150 | When every write succeeds the settings always know exactly the last recorded runs, so every restart is safe. |
| Scheduler.WritesKeepLevel | packages/daemon/src/scheduler.ts:142-150 | And so every restart finds them level. |
| Scheduler.RecordedRunsAreSpaced | packages/daemon/src/scheduler.ts:187-209 | Consecutive recorded runs are an interval apart, less the time the clock moved between the start of the tick and the due check. |
| Scheduler.LostWriteRunsAgain | packages/daemon/src/scheduler.ts:142-150 | A single lost write is enough to make a restart unsafe. |
| Scheduler.SuccessFollowsTicks | packages/daemon/src/scheduler.ts:185-210 | With a nondecreasing clock the success signal never runs ahead of the tick signal. |
| Scheduler.SuccessMeansClean | packages/daemon/src/scheduler.ts:189-210 | A whole pass moves the success signal exactly when no run it recorded threw; otherwise it stays. |
| Scheduler.SchedulerStore.DoTick | packages/daemon/src/scheduler.ts:180-214 | A tick during a tick does nothing; otherwise the loop over the jobs is exactly the step-wise pass. |
| LaneConvergence.PanelCatchesUpExactly | apps/web/src/lanes-state.ts:117-141 | Whatever rows of the project are merged, from whenever and in whatever order with the events, and however often events are sent: at every moment a panel that has the events so far shows the status the store has, in every run, if and only if no merge report follows the end of the lane. The kernel writes its report before the one end (packages/daemon/src/kernel.ts:4651-4673). |
| LaneConvergence.ProjectRowsAreRowsOf | apps/web/src/App.tsx:502-510 | Rows read of a whole project at any moment of its log are rows as the panel may get them, though the panel is sent only the conversations it has opened, in the order it opened them. |
| LaneConvergence.PanelListsExactly | apps/web/src/lanes-state.ts:138-140 | It lists exactly the stored lanes it was sent and the lanes whose rows were merged, each once. |
| LaneConvergence.MergesLeaveTheTrace | apps/web/src/lanes-state.ts:128-136 | Merges and redeliveries never change progress, revision, reason or the set of seen events: those are exactly what folding the log alone gives. |
| LaneConvergence.StoreStep | packages/store/src/project.ts:664-720 | What one event does to the stored row of a lane: when the row appears, and its status afterwards. |
| LaneHistory.PanelShowsWhatWasSaid | apps/web/src/lanes-state.ts:63-271 | Over every run of events, redeliveries and rows in any order: the panel has a lane exactly if an event or a row was about it; kind, goal, workspace, summary, usage and reason are the last given, by event or row; so is the exit, or aborted where an abort came and none was ever given; the progress is every note in order and the revision counts the events. |
| LaneHistory.StoreHoldsWhatWasTold | packages/store/src/project.ts:664-720 | Over every log: a lane has a row once it was spawned, with the kind of its spawn; goal and workspace are those of its last mandate, exit, summary and usage those of its last report, absent ones included; its status is that of its last report or end, else running from its first progress on, else spawned. |
| LaneHistory.CreatedAtSpawn | packages/store/src/project.ts:664-685 | The row says it was created when its spawn was written. |
| LaneHistory.ByCreationIsStableSort | apps/web/src/lanes-state.ts:65 | Hydrated lanes stand in ascending order of creation, those of one moment in the order of the rows; none is dropped or added. |
| LaneHistory.MergeOrders | apps/web/src/lanes-state.ts:137-140 | A merge lists the lanes of the rows first, by creation, and behind them every other known lane, in the order they had. |
| LaneHistory.FoldListsAsSpawned | apps/web/src/lanes-state.ts:171-174 | Folding a log lists its lanes in the order in which they were spawned. |
| LanesPanel.MergeCoherent | apps/web/src/lanes-state.ts:117-141 | A merge of rows with distinct ids keeps the order free of duplicates and equal, as a set, to the known lanes. |
| LanesPanel.ReduceCoherent | apps/web/src/lanes-state.ts:177-271 | So does every event. |
| LanesPanel.MergeIdempotent | apps/web/src/lanes-state.ts:117-141 | Merging the same rows again changes nothing. |
| LanesPanel.MergeKeeps | apps/web/src/lanes-state.ts:119-136 | A merge drops no lane and no progress, revision, reason or seen id; a lane touched by events ends at the higher of the two ranks, the live status winning ties; one known from rows only takes the row status. |
| LanesPanel.MergeLanesFromRows | apps/web/src/lanes-state.ts:117-141 | The loop computes the specified merge. |
| LanesPanel.LanesFromRows | apps/web/src/lanes-state.ts:63-101 | The loop computes the specified hydration, in order of creation. |
| LanesPanel.FromRowsCoherent | apps/web/src/lanes-state.ts:63-101 | Hydrating distinct rows gives each its own view and nothing else. |
| LanesPanel.FoldLaneEvents | apps/web/src/lanes-state.ts:273-277 | The loop computes the fold. |

## Left out

- The kernel, the store (but for the lane rows), the protocol schemas and JSON parsing: taken as the assumptions above.
- React components and the wiring in `App.tsx`; its manual refresh replaces the transcript behind the stream's back, so `LiveDelivery` covers the socket and the incremental HTTP fallback only.
- The Claude runner's text mode (`--print` without stream-json): no turn is counted and one blob is read at the end. Its stream-json parser is an arbitrary function in the model; `ClaudeVerdict.LiveBoundsExactly` assumes of it only what packages/lanes/src/stream-json.ts:83-102 shows, usage with results and never with turns.
- Other lane kinds, process spawning, signals and timeouts: the child's end is a parameter of the runners' `Finish`.
- A line of Codex output that is the JSON literal `null` throws in the source; the parser here is a total function into known events or nothing.
- Report texts, proposal wording and goals: proposals carry the fact they are about. The two wordings the code tests by pattern (an operator's refusal, an outward goal) are boolean inputs.
- Text is a sequence of Unicode characters: cutting to 300, 200 or 180 counts characters, not UTF-16 units, and case folding of markers and kinds is ASCII.
- Handlers that call back into the stream client (closing it while it reports a state): every handler call returns before the next input.
- Wall-clock waits: a timer has its delay recorded and may fire at any later moment.
- Which address counts as the source of a request (`publicRateKey`), token comparison and path checks: not a matter of this model.
- Scheduler: job bodies, the job list's defaults and stored run times that do not parse. `Scheduler.SchedulerStore.DoTick` runs a whole tick in one go; interruptions and restarts between jobs are covered by the step-wise specification it equals.
- Lane panel: the agreement with the store is proved for membership and status. The other fields are those given last, by event or row, so a stale row merged late may overwrite goal, exit, summary, usage and workspace (`LaneHistory.PanelShowsWhatWasSaid`); lanes known from rows alone show the row merged last, which may not be the newest.
- The display helpers over these states (`lanesList`, `isActive`, labels, overdue dates): single-branch facts.
- Refusals of the live socket before it is accepted (no such conversation, another project's): single-branch checks.
