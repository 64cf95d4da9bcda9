# agent-viewer, modelled

agent-viewer lists the sessions of several coding agents, serves their terminals to a phone and keeps
small caches that many viewer processes share. Underneath are a few protocols and algorithms, and this
project models them and proves what they are for.

**Listing cache** (`ListingCache`). Viewer processes share one row per scope: a generation, an owner, a
deadline, a refresh stamp, and a payload beside it. The class is the table as one process drives it. A
transition system then puts any number of viewers in one run, each operation an atomic step except the display
read, which is two, under a clock that may jump in either direction. The main results say that a lease keeps
others out until its deadline, that a publish lands exactly when nothing else landed since its claim, that a
claim is answered from the cache exactly when the scope was just published, and that `Unchanged` never hides a
change.

**Terminals** (`TerminalHubs`, `TerminalStreams`, `TerminalSinks`). The hub hands out leases and decides, under
its lock, whether a grace period has expired; owner threads and sockets run against it in every interleaving,
and an owner that ends is out of the hub for good. The stream model interleaves the PTY reader, the owner's
drain passes, snapshots, takeovers and resizes, shows that redraw plus live output is exactly-once, and says
when that puts the client where the server's emulator is. The sink model follows the byte counter that owner and
socket share without a lock. The owner's methods are proved against the hub's and the stream's specifications.

**Branch-PR refresh** (`RefreshTables`, `RefreshSchedulers`, `RefreshFairness`, `RefreshHistories`). Rows
claimed under tokens by one refresher at a time, a scheduler that runs at most one command per pass, the
argument that a key that stays due is served within a bounded number of passes, and what the tables show after
any passes: the last answer that each command gave.

**Timestamps** (`Calendar`, `Timestamps`). The printer's civil-from-days and the parser's days-from-civil were
written apart. They undo each other for unbounded day counts and follow an independent next-day rule of the
Gregorian calendar. The text form is the one in section 5.6 of RFC 3339.

**Fast and streaming forms of simple specifications.** The color query detector (`PaletteQueries`), the capped
line reader (`CappedLines`), the eight-bytes-at-a-time text sanitizer (`DisplayText`), the filter's substring
search (`IgnoreCase`) and the walk over spawned subagents (`SubagentWalk`).

**The session list** (`RowModel`, `RowPartition`, `RowCursor`, `ListApp`, `RowWidth`). Rows as a function of
sessions and settings, read back and partitioned; the cursor's movement; the list's state, whose cached rows
every public operation keeps equal to a rebuild; and the division of a row's width.

**Leader rosters** (`RosterMerge`). What several Grok leaders say about a session, merged into the rows from
disk.

`Basics`, `Ordering` and `Sessions` hold what the others share: 64-bit saturating clock arithmetic, filtering,
stable sorting and the session states.

State that the source updates in place is a class here, and its methods are proved against specification
functions; the run theorems are about these functions.

## Where the code and its documentation differ

The model follows the code.

- A coalesced output frame is documented as at most 64 KiB (`crates/agent-viewer-server/src/lib.rs:64`). The
  code flushes after the frame has reached that size. `OversizedFrameOccurs` shows reads that give a frame of
  65,537 bytes, `OversizedIffJumps` says by the chunk sizes when a frame is larger, and `CoalescedSizes` bounds
  the excess below one chunk.
- The timestamp parser is documented as skipping other shapes (`crates/agent-viewer-core/src/lib.rs:217`). Each
  field goes through an integer parser that takes a sign, so `-5` passes for an hour and counts back
  (`SignedHourIsAccepted`). `ParsesExactly` says what is accepted among all texts, and `ForeignIffSigned` that a
  sign in front of a field is the only departure.
- The due test and the claim condition are written apart, in Rust and in SQL. They disagree on idle rows with a
  negative success stamp less than a minute old, and on no other (`DueIsClaimable`, `DueButNotClaimable`). The
  program's clock reads no time before the epoch (`crates/agent-viewer-core/src/spawn.rs:4-9`), so it stores no
  such row (`StampsInRuns`), and in every reachable state the two agree (`DueIsClaimableInRuns`).
- Keys that are due and ahead at the start do not bound the wait of a due key: one with an older attempt may
  come due later, and does in a run from empty tables (`LateComerOvertakes`). `ServedWithin` and
  `EveryDueKeyIsServed` give bounds that hold.
- A hub entry whose newest connection is gone can be left without a running deadline (`GraceTimerCanBeLost`).
  `StrandedIffYielded` says exactly when, by the events the thread has handled.
- The redraw is documented as sufficient to reproduce the terminal's state (`vendor/vt100/src/screen.rs:219-223`),
  and reconnecting into one as losing nothing (`crates/agent-viewer-server/src/lib.rs:67-70`). It writes visible
  cells, cursor, attributes and five input modes (`vendor/vt100/src/screen.rs:224-259`, `385-406`). A half-read
  escape sequence (`vendor/vt100/src/parser.rs:3-6`), the scroll region, origin mode, the saved cursor
  (`vendor/vt100/src/grid.rs:3-12`), saved attributes and the grid not shown (`vendor/vt100/src/screen.rs:55-66`)
  are lost. `ClientShows` says where the client gets to in any case, `ClientCatchesUp` that it follows the parser
  if and only if the lost part was what the client has, and `RedrawCanLoseState` gives a reachable run in which
  it was not.
- A row whose badge takes all the room overruns by one cell when its summary starts with a grapheme of no
  width (`OverrunOccurs`). `RowLayout` states the overrun exactly; positive widths exclude it.

## Model

| member | source | states |
|---|---|---|
| ListingCache.ViewerDb.ReadListingSnapshot | crates/agent-viewer-core/src/state.rs:771-787 | The display read: fresh, stale or a miss, from metadata read before the payload; the table is unchanged. |
| ListingCache.ViewerDb.ClaimListingRefresh | crates/agent-viewer-core/src/state.rs:790-862 | Bypass without a scope; Fresh or Unchanged for a fresh readable payload; LeaseHeld; else the lease goes into the row under the stored generation. |
| ListingCache.ViewerDb.Renew | crates/agent-viewer-core/src/state.rs:865-909 | One turn of the guard thread: the deadline moves exactly if the row still carries this lease, and the thread learns whether it did. |
| ListingCache.ViewerDb.PublishListing | crates/agent-viewer-core/src/state.rs:912-978 | Fenced on owner and generation; bumps the generation and frees the row even when the payload bytes are the same and are not rewritten. |
| ListingCache.ViewerDb.FailListingRefresh | crates/agent-viewer-core/src/state.rs:981-993 | Gives the lease back without touching payload or generation, only while the row carries it. |
| ListingCache.ViewerDb.InvalidateListingScope | crates/agent-viewer-core/src/state.rs:996-1008 | Clears stamp and lease and bumps the generation, so that no running refresh can publish. |
| ListingCache.ClockStepCannotPinScope | crates/agent-viewer-core/src/state.rs:284-303 | However wrong the clock that stored them, a deadline cannot hold and a stamp cannot freshen a scope at two readings a full horizon apart. |
| ListingCache.AbandonedScopeIsClaimable | crates/agent-viewer-core/src/state.rs:298-303 | A row seen held is claimable one horizon of clock progress later if its stamp is not fresh by then; and of any two readings a horizon apart at which it is not fresh, one lets a claim through, whatever the deadline. |
| ListingCache.StepAdvances | crates/agent-viewer-core/src/state.rs:927-977 | Every step of any viewer keeps generations growing and changes a payload only together with a larger generation. |
| ListingCache.RunKeepsInv | crates/agent-viewer-core/src/state.rs:771-1008 | In every run no cursor is ahead of its row, and a cursor that agrees with the row holds the stored payload. |
| ListingCache.RunAdvances | crates/agent-viewer-core/src/state.rs:927-977 | Over any stretch of a run generations do not fall, and an unchanged generation means an unchanged payload. |
| ListingCache.FenceIsFinal | crates/agent-viewer-core/src/state.rs:912-925 | A lease once out of the row never comes back; only the claim that minted it puts it there. |
| ListingCache.PublishesIffUndisturbed | crates/agent-viewer-core/src/state.rs:790-1008 | A publish lands if and only if nothing landed on its scope since its claim: no claim, publish, failure or invalidation. |
| ListingCache.PublishedLeaseWasUnbroken | crates/agent-viewer-core/src/state.rs:790-978 | Every publish that lands used a lease that was claimed in the run and sat in the row without a break. |
| ListingCache.GenerationPublishedOnce | crates/agent-viewer-core/src/state.rs:927-977 | No generation, and so no lease, of a scope is published twice. |
| ListingCache.DeadlineIsLastSet | crates/agent-viewer-core/src/state.rs:829-897 | A lease in the row carries the deadline that its claim or its last renewal wrote. |
| ListingCache.RefusedUntilDeadline | crates/agent-viewer-core/src/state.rs:298-303 | What a claim gets while a lease is in the row of a scope that is not fresh: Unchanged or LeaseHeld as long as it sees that deadline ahead and no further than a lease may be, and else the lease. |
| ListingCache.LeaseExcludes | crates/agent-viewer-core/src/state.rs:790-862 | One refresher at a time: in any run nobody takes the scope, at a clock that sees the deadline of the claim or of its last renewal ahead, before the lease ends. |
| ListingCache.FreedIsClaimable | crates/agent-viewer-core/src/state.rs:790-1008 | A publish or failure that lands and an invalidation free the scope at once. |
| ListingCache.RestampedLast | crates/agent-viewer-core/src/state.rs:927-1008 | Stamp, generation and payload of a row are those of the last publish that landed or invalidation. |
| ListingCache.FreshIffJustPublished | crates/agent-viewer-core/src/state.rs:806-815 | A claim is answered from the cache exactly if the scope was last published less than the freshness before, the claimer has another generation and the text decodes for the backend; with that generation it is told Unchanged. |
| ListingCache.GenerationsCount | crates/agent-viewer-core/src/state.rs:927-1008 | A generation counts the publishes that landed and the invalidations, and nothing else. |
| ListingCache.AnswersGiveCursors | crates/agent-viewer-core/src/state.rs:806-815 | A Fresh answer and a publish that lands leave the reader with a cursor for just that text. |
| ListingCache.TwoStepReadGivesCursor | crates/agent-viewer-core/src/state.rs:771-787 | So does a display read, torn or not: the generation of its first step and the text of its second. |
| ListingCache.UnchangedHidesNothing | crates/agent-viewer-core/src/state.rs:771-824 | A reader told Unchanged would decode exactly what it shows, whether its cursor came from a claim, its own publish or a torn two-step read. |
| ListingCache.PayloadFirstWouldLie | crates/agent-viewer-core/src/state.rs:771-787 | Reading payload before metadata would break that: one publish in between yields a cursor that agrees with the row and not with the payload. |
| TerminalHubs.TerminalHub.Acquire | crates/agent-viewer-server/src/lib.rs:345-382 | Takeover under the next connection id, refusal of a key being set up, capacity, or a reservation under the next generation. |
| TerminalHubs.TerminalHub.FinishReservation | crates/agent-viewer-server/src/lib.rs:384-413 | A reservation becomes an owner entry with connection 1 only if it is still this generation's. |
| TerminalHubs.TerminalHub.CancelReservation | crates/agent-viewer-server/src/lib.rs:415-421 | Drops the reservation of this generation only. |
| TerminalHubs.TerminalHub.RemoveTerminalOwner | crates/agent-viewer-server/src/lib.rs:428-440 | Drops the owner entry of this generation only. |
| TerminalHubs.TerminalHub.MarkTerminalDetached | crates/agent-viewer-server/src/lib.rs:460-476 | Lowers the flag only for the generation and connection that the entry names. |
| TerminalHubs.TerminalHub.TerminalGraceExpired | crates/agent-viewer-server/src/lib.rs:497-519 | Answers and removes the entry in one step under the lock; a reconnected entry stays. |
| TerminalHubs.StepKeepsInv | crates/agent-viewer-server/src/lib.rs:345-519 | Every step of sockets, hub and owner threads keeps: at most four keys, owners and reservations disjoint, each entry naming the newest connection of a known thread with an exact flag. |
| TerminalHubs.RunKeepsInv | crates/agent-viewer-server/src/lib.rs:345-519 | So does every run, in every interleaving. |
| TerminalHubs.GraceKillNeedsDetach | crates/agent-viewer-server/src/lib.rs:497-519 | A child is killed by grace expiry only if the newest connection of its generation was itself detached or released after it was handed out. |
| TerminalHubs.NoLeaseAfterEnd | crates/agent-viewer-server/src/lib.rs:1168-1291 | An owner that ends, by its child's exit, a Close of the connection it serves, grace expiry or a socket that finds it dead, is out of the hub for good, and no lease for it is handed out after that. |
| TerminalHubs.NoLeaseAfterGraceKill | crates/agent-viewer-server/src/lib.rs:497-519 | In particular, after the expiry check no lease for the killed owner is ever handed out again. |
| TerminalHubs.LeavingFreesTheKey | crates/agent-viewer-server/src/lib.rs:345-440 | Once its owner has ended or its reservation is cancelled, a key is reserved again at once under a new generation, however full the hub was. |
| TerminalHubs.ConnectAnswers | crates/agent-viewer-server/src/lib.rs:345-382 | A connect is told that the key is being set up, is given the next lease on it, or, for a new key, is refused exactly if four keys are taken. |
| TerminalHubs.OthersKeepTheirs | crates/agent-viewer-server/src/lib.rs:345-519 | No step about one key changes the entry, the reservation or a thread of another. |
| TerminalHubs.EntriesLive | crates/agent-viewer-server/src/lib.rs:428-440 | The thread behind a hub entry is alive unless it panicked or had stopped before it was entered. |
| TerminalHubs.StaleDetachIsPowerless | crates/agent-viewer-server/src/lib.rs:460-476 | A late detach of a superseded connection changes nothing in the hub. |
| TerminalHubs.ServedIsLastAttached | crates/agent-viewer-server/src/lib.rs:1178-1193 | In any run the connection a thread serves is the one whose Attach it handled last. |
| TerminalHubs.HandledInOrder | crates/agent-viewer-server/src/lib.rs:1167-1178 | An owner handles all that sockets send in the order in which it was sent. |
| TerminalHubs.SinkIffClient | crates/agent-viewer-server/src/lib.rs:1178-1235 | A thread has a socket to send to exactly since an Attach that it handled, until it released the socket or handled the Detach of the connection attached last. |
| TerminalHubs.OnlyTheAttachedActs | crates/agent-viewer-server/src/lib.rs:1229-1275 | What is typed into the child, resized or killed on request grows in any run by exactly what the event at hand asks if it comes from the connection attached last, and in no other way. |
| TerminalHubs.EveryActWasByTheAttached | crates/agent-viewer-server/src/lib.rs:1236-1275 | Every byte ever typed, every resize and every requested kill goes back to an event of the connection attached last at that moment. |
| TerminalHubs.StaleConnectionIsPowerless | crates/agent-viewer-server/src/lib.rs:1229-1275 | Whatever a replaced socket still sends changes nothing in hub or threads but the queue it is taken off. |
| TerminalHubs.StrandedIffYielded | crates/agent-viewer-server/src/lib.rs:1126-1240 | A running thread has neither client nor deadline exactly if one of its expiry checks yielded to a reconnect and it has since handled no Attach and no Detach of the connection attached last. |
| TerminalHubs.GraceTimerCanBeLost | crates/agent-viewer-server/src/lib.rs:1150-1240 | That does happen: a reachable run ends with every connection gone, an empty queue and no deadline. |
| TerminalStreams.RunKeepsInv | crates/agent-viewer-server/src/lib.rs:1126-1291 | In every interleaving of reader, owner and takeovers the queued stream and the bytes in flight account for the parser's input since the snapshot. |
| TerminalStreams.StreamIsExactlyOnce | crates/agent-viewer-server/src/lib.rs:1178-1227 | Redraw plus live stream is exactly-once: no byte is in both and none in neither, resizes included. |
| TerminalStreams.ClientShows | crates/agent-viewer-server/src/lib.rs:1178-1227 | Without condition: queued frames and what is in flight put the client at the redraw of the snapshot followed by exactly the bytes the parser took since, resizes included. |
| TerminalStreams.FollowsIffIdle | vendor/vt100/src/screen.rs:219-229 | A redraw writes the shown part of the emulator's state alone. Redrawn and then fed, a client is where the parser is at every byte if and only if what the redraw leaves out was at the snapshot what the client has. |
| TerminalStreams.ClientCatchesUp | crates/agent-viewer-core/src/pty.rs:215-247 | In any run without a resize since the snapshot an attached client follows the parser from the redraw on if and only if what the redraw leaves out was the client's; then, having applied everything queued and in flight, it is where the parser is. |
| TerminalStreams.RedrawCanLoseState | crates/agent-viewer-server/src/lib.rs:1216-1220 | In a reachable run it was not: an attach between two reads that halve an escape sequence leaves the client showing what the parser does not. |
| TerminalStreams.ExitComesLast | crates/agent-viewer-server/src/lib.rs:1281-1291 | The exit frame is the last one and comes after all output. |
| TerminalStreams.ClientIsToldOfTheExit | crates/agent-viewer-server/src/lib.rs:1281-1291 | A client that is there when its child ends, and takes the frame, gets the exit frame, behind all the output. |
| TerminalStreams.FramesOnlyGrow | crates/agent-viewer-server/src/lib.rs:1054-1079 | What is queued for a client is never taken back while it stays. |
| TerminalStreams.NobodyUntilAttach | crates/agent-viewer-server/src/lib.rs:1083-1092 | After a socket has detached, been released or been closed nothing is queued until the next attach. |
| TerminalStreams.FailuresAreReported | crates/agent-viewer-server/src/lib.rs:1236-1262 | A client gets one error frame for each failed write or resize since it attached, and no other. |
| TerminalStreams.ParserTakesAll | crates/agent-viewer-core/src/pty.rs:215-247 | The parser goes through every chunk read and every change of size, in order. |
| TerminalSinks.CoalescingKeepsBytes | crates/agent-viewer-server/src/lib.rs:1098-1120 | Coalescing moves frame boundaries and nothing else. |
| TerminalSinks.CoalescedSizes | crates/agent-viewer-server/src/lib.rs:1098-1120 | All frames of a pass but the last reach 64 KiB, and none exceeds it by a whole chunk. |
| TerminalSinks.OversizedIffJumps | crates/agent-viewer-server/src/lib.rs:64-66 | A pass has a frame above the documented 64 KiB exactly if the running total of its chunk sizes, started afresh at each full frame, jumps over that size. |
| TerminalSinks.OversizedFrameOccurs | crates/agent-viewer-core/src/pty.rs:215-224 | It does with reads the PTY reader makes: one byte and then eight full buffers. |
| TerminalSinks.PassQueuesCoalesced | crates/agent-viewer-server/src/lib.rs:1098-1120 | The owner's forwarding steps in the interleaved protocol come to the frames that the drain loop queues. |
| TerminalSinks.TerminalOwnerState.Release | crates/agent-viewer-server/src/lib.rs:1083-1092 | Drops the sink, marks exactly the served connection detached and opens the grace window. |
| TerminalSinks.TerminalOwnerState.Attach | crates/agent-viewer-server/src/lib.rs:1178-1193 | A takeover tells the socket that was there that it was replaced, serves the new one and stops the clock. |
| TerminalSinks.TerminalOwnerState.Queue | crates/agent-viewer-server/src/lib.rs:1054-1079 | A frame is taken within both caps; otherwise the socket is released, as a slow consumer unless it was gone already. |
| TerminalSinks.TerminalOwnerState.ForwardOutput | crates/agent-viewer-server/src/lib.rs:1098-1120 | The tap is drained whatever happens. The socket stays exactly if there is nothing to forward or somebody receives and the pass fits in both caps; then it has all bytes in order and the counter is raised by just these. |
| TerminalSinks.QueueAllFits | crates/agent-viewer-server/src/lib.rs:1054-1079 | Pieces queued one by one are all taken exactly if together they stay within both caps. |
| TerminalSinks.QueueAllStops | crates/agent-viewer-server/src/lib.rs:1054-1079 | Otherwise just the pieces before the first that does not fit are queued, and the socket is told that it was too slow unless it was gone and the bytes would have fitted. |
| TerminalSinks.QueueIsEnqueue | crates/agent-viewer-server/src/lib.rs:1054-1079 | Queueing a frame is the owner's three steps of the counter protocol: the counters agree and the sink lives on exactly if the frame is taken. |
| TerminalSinks.StepKeepsBudget | crates/agent-viewer-server/src/lib.rs:1036-1079 | Each step of owner or socket keeps the shared byte counter exact. |
| TerminalSinks.CounterIsExact | crates/agent-viewer-server/src/lib.rs:1348-1365 | In every interleaving the counter of a live sink is the weight queued, being written and being enqueued, and at most 1 MiB. |
| TerminalSinks.CounterNeverUnderflows | crates/agent-viewer-server/src/lib.rs:1348-1365 | The subtraction after a write never goes below zero. |
| TerminalSinks.WrittenInOrder | crates/agent-viewer-server/src/lib.rs:1348-1365 | Frames are written in the order in which they were queued, none passed over. |
| RefreshTables.PrCache.ClaimWorktreeIdentity | crates/agent-viewer-core/src/state.rs:577-599 | Stamps and holds the row exactly when the claim's condition allows, and returns the token. |
| RefreshTables.PrCache.ClaimRepositoryPrs | crates/agent-viewer-core/src/state.rs:602-624 | The same for a repository row. |
| RefreshTables.PrCache.CompleteWorktreeIdentity | crates/agent-viewer-core/src/state.rs:627-649 | Stores the identity and the success stamp only under the token of the row's last attempt. |
| RefreshTables.PrCache.CompleteRepositoryPrs | crates/agent-viewer-core/src/state.rs:652-665 | The same for a repository row. |
| RefreshTables.PrCache.FailWorktreeIdentity | crates/agent-viewer-core/src/state.rs:668-680 | Holds the row for the retry delay only under the token of its last attempt. |
| RefreshTables.PrCache.FailRepositoryPrs | crates/agent-viewer-core/src/state.rs:683-695 | The same for a repository row. |
| RefreshTables.PrCache.CommitPrune | crates/agent-viewer-core/src/state.rs:726-768 | The prune transaction rechecks everything on the tables as they are by then. |
| RefreshTables.PrCache.PruneGrokPrFallback | crates/agent-viewer-core/src/state.rs:698-768 | The whole prune: the plan from the first pass and then the transaction, each with its own look at which directories are missing. |
| RefreshTables.DueIsClaimable | crates/agent-viewer-core/src/grok_pr_fallback.rs:312-372 | The due test written in Rust and the claim condition written in SQL agree on a row and clock reading if and only if the row is busy or its success stamp is not both negative and less than a minute old; what may be claimed is always due. |
| RefreshTables.DueButNotClaimable | crates/agent-viewer-core/src/state.rs:577-599 | A row value on which they disagree. |
| RefreshTables.StampsInRuns | crates/agent-viewer-core/src/state.rs:577-695 | From an empty table, under any clock that reads no time before the epoch, no negative stamp is ever stored. |
| RefreshTables.DueIsClaimableInRuns | crates/agent-viewer-core/src/grok_pr_fallback.rs:312-372 | So in every reachable state the two tests agree on every row. |
| RefreshTables.PruneIsSafe | crates/agent-viewer-core/src/state.rs:726-768 | Whatever happened between the two passes, no busy row, no row of an existing directory and no repository named by a surviving identity is removed. |
| RefreshTables.PruneIsExact | crates/agent-viewer-core/src/state.rs:698-768 | Undisturbed it removes exactly the idle identities whose directory was missing both times and then exactly the idle unnamed repositories. |
| RefreshTables.TokenIsTheLastStamp | crates/agent-viewer-core/src/state.rs:577-768 | Under any clock a token is good exactly while the latest won claim of its key, with no deletion since, carries its stamp. |
| RefreshTables.TokenGoodUntilSuperseded | crates/agent-viewer-core/src/state.rs:577-768 | With an advancing clock a token is good exactly until the next won claim of its key or the deletion of its row. |
| RefreshTables.SupersededTokenIsInert | crates/agent-viewer-core/src/state.rs:627-695 | A superseded token never changes a row again, across completion, failure, prune and re-insertion. |
| RefreshTables.EqualStampsShareAToken | crates/agent-viewer-core/src/state.rs:577-599 | Without an advancing clock two claims can share a token. |
| RefreshTables.SettledLast | crates/agent-viewer-core/src/state.rs:577-695 | How long a row is held is what the last claim, completion or failure on it wrote, and nothing else. |
| RefreshTables.SucceededLast | crates/agent-viewer-core/src/state.rs:627-665 | A row shows the data and the stamp of the last success since its deletion. |
| RefreshTables.WinsWhenLapsed | crates/agent-viewer-core/src/state.rs:577-624 | A claim wins a settled row exactly when the hold is over and the last success is not less than a minute old, and a deleted key at once. |
| RefreshTables.HoldExcludes | crates/agent-viewer-core/src/state.rs:577-695 | One refresher at a time: during the hold of a claim, the retry delay of a failure and the minute after a success nobody else wins the key, in any run in which its row is not deleted and nobody else's command ends. |
| RefreshSchedulers.ParsedIdentityIsValid | crates/agent-viewer-core/src/grok_pr_fallback.rs:240-264 | An identity the command parser lets through is accepted again when it comes back from the table. |
| RefreshSchedulers.ParsedIdentityReadsBack | crates/agent-viewer-core/src/grok_pr_fallback.rs:378-400 | What git printed can be read back from the parsed identity, but for how a missing branch is named. |
| RefreshSchedulers.ValidIffParsable | crates/agent-viewer-core/src/grok_pr_fallback.rs:240-264 | A stored row is believed exactly if it has succeeded and holds what some output of git parses to. |
| RefreshSchedulers.FirstCandidate | crates/agent-viewer-core/src/grok_pr_fallback.rs:312-367 | The first candidate is a due key attempted longest ago, by name among equals, and there is one whenever a key is due. |
| RefreshSchedulers.RootsAreLeast | crates/agent-viewer-core/src/grok_pr_fallback.rs:329-346 | A repository is listed exactly if a checkout with a branch names it, under its least root, in whatever order they come. |
| RefreshSchedulers.RepositoryRoots | crates/agent-viewer-core/src/grok_pr_fallback.rs:329-346 | The loop builds that map. |
| RefreshSchedulers.GrokPrFallback.AttachBranchPrRefs | crates/agent-viewer-core/src/grok_pr_fallback.rs:64-171 | A pass runs at most one command, for the key and kind that the alternation and the queues select, and leaves the tables as claim, completion or failure and prune do. |
| RefreshFairness.SelectedIsServed | crates/agent-viewer-core/src/grok_pr_fallback.rs:84-171 | On tables without negative success stamps, under any clock, what the scheduler selects the claim grants: a selected kind runs its command, for its oldest due key. |
| RefreshFairness.SelectedIsServedInRuns | crates/agent-viewer-core/src/grok_pr_fallback.rs:84-171 | Passes from empty tables always run a command for what they select. |
| RefreshFairness.ServesOrYields | crates/agent-viewer-core/src/grok_pr_fallback.rs:84-171 | A pass serves a kind with a due key or leaves it next in line. |
| RefreshFairness.OthersKeepStamps | crates/agent-viewer-core/src/grok_pr_fallback.rs:84-171 | A pass stamps no attempt but that of the key it serves. |
| RefreshFairness.StaysBehind | crates/agent-viewer-core/src/grok_pr_fallback.rs:312-327 | Nobody moves ahead of a key that is not being served. |
| RefreshFairness.ServedWithin | crates/agent-viewer-core/src/grok_pr_fallback.rs:64-171 | A key that stays due is served within twice the number of keys due and ahead of it at some pass, plus two. |
| RefreshFairness.EveryDueKeyIsServed | crates/agent-viewer-core/src/grok_pr_fallback.rs:64-171 | With no assumption on the other keys: within twice the number of listed keys ahead of it, plus two. |
| RefreshFairness.BoundByDueKeys | crates/agent-viewer-core/src/grok_pr_fallback.rs:64-171 | If no further key ahead of it comes due meanwhile, counting the keys due at the start is enough. |
| RefreshFairness.LateComerOvertakes | crates/agent-viewer-core/src/grok_pr_fallback.rs:312-372 | Without that proviso it is not: a run from empty tables in which a key with an older stamp comes due and overtakes. |
| RefreshHistories.IdentityAfterPass | crates/agent-viewer-core/src/grok_pr_fallback.rs:84-171 | A pass stamps and updates the identity row it serves, with the parsed answer or a retry delay, and leaves every other as it was. |
| RefreshHistories.RepositoryAfterPass | crates/agent-viewer-core/src/grok_pr_fallback.rs:84-171 | The same for repository rows. |
| RefreshHistories.ServedKeyRests | crates/agent-viewer-core/src/grok_pr_fallback.rs:312-372 | A served key comes due again exactly a minute after a success, or five seconds after a failure unless an earlier success is still fresh. |
| RefreshHistories.IdentitiesAreLastReported | crates/agent-viewer-core/src/grok_pr_fallback.rs:97-131 | After any passes from empty tables each identity row holds the last identity that git reported, and when. |
| RefreshHistories.InventoriesAreLastPrinted | crates/agent-viewer-core/src/grok_pr_fallback.rs:132-171 | And each repository row the last inventory that was printed for it, and when. |
| RefreshHistories.InventoryWasPrinted | crates/agent-viewer-core/src/grok_pr_fallback.rs:150-163 | Every stored inventory was printed by a pass that served its repository. |
| RefreshHistories.BelievedIffReported | crates/agent-viewer-core/src/grok_pr_fallback.rs:240-264 | A stored identity is believed exactly if git has reported it. |
| RefreshHistories.MissingAreForgotten | crates/agent-viewer-core/src/grok_pr_fallback.rs:177-180 | Once a minute, or when the clock went back, a pass forgets every idle missing directory and then every idle unnamed repository; otherwise nothing. |
| Calendar.DaysRoundTrip | crates/agent-viewer-core/src/claude.rs:941-963 | Every day count, without bound, becomes a valid Gregorian date whose day count it is. |
| Calendar.DateRoundTrip | crates/agent-viewer-core/src/lib.rs:261-277 | Every valid date in any year comes back from its day count. |
| Calendar.NextDayCountsOne | crates/agent-viewer-core/src/lib.rs:261-277 | One day later by the calendar rule is one more in the count. |
| Calendar.PrintsTheCalendar | crates/agent-viewer-core/src/claude.rs:941-963 | Successive day counts print as successive calendar days. |
| Timestamps.ParsesFields | crates/agent-viewer-core/src/lib.rs:218-286 | Every text of valid fields in the four-digit form parses to the instant they name. |
| Timestamps.ParsesExactly | crates/agent-viewer-core/src/lib.rs:218-286 | On every text: accepted are exactly the shape, six fields of digits or a sign and digits, an optional fraction of any length and a real date and time; the instant is the one named, cut to milliseconds. |
| Timestamps.ForeignIffSigned | crates/agent-viewer-core/src/lib.rs:216-236 | An accepted text has another shape than the documented one exactly if one of its fields starts with a sign. |
| Timestamps.PrintThenParse | crates/agent-viewer-core/src/claude.rs:941-963 | Printing any instant and parsing it back is the identity from the epoch to the end of year 9999, gives the epoch before it and a rejection after it. |
| Timestamps.ParseThenPrint | crates/agent-viewer-core/src/lib.rs:218-286 | Text in the printer's form, from the epoch on, parses to the instant that prints as it. |
| Timestamps.SignedHourIsAccepted | crates/agent-viewer-core/src/lib.rs:231-236 | The parser also takes a minus sign for the first digit of the hour, and counts back. |
| PaletteQueries.PaletteQueryDetector.Feed | crates/agent-viewer-core/src/pty.rs:87-109 | A slot is reported at exactly the positions where the whole stream so far ends with one of the four queries; what is pending is the longest suffix that may still become one. |
| PaletteQueries.StepCorrect | crates/agent-viewer-core/src/pty.rs:87-109 | The same for one byte, matching or not: clearing on a match loses nothing. |
| PaletteQueries.LongestIsLongest | crates/agent-viewer-core/src/pty.rs:98-106 | Dropping leading bytes one by one finds the longest such suffix. |
| PaletteQueries.ChunkingDoesNotMatter | crates/agent-viewer-core/src/pty.rs:87-109 | What is reported does not depend on how the output was cut into reads. |
| PaletteQueries.TheFourQueries | crates/agent-viewer-core/src/pty.rs:75-80 | The four texts that are reported. |
| CappedLines.BufReader.FillBuf | crates/agent-viewer-core/src/lib.rs:141-185 | A refill shows a prefix of what remains, empty only at the end. |
| CappedLines.BufReader.Consume | crates/agent-viewer-core/src/lib.rs:141-185 | Consuming drops just that many bytes of what remains. |
| CappedLines.SkipUntilNewline | crates/agent-viewer-core/src/lib.rs:187-204 | The rest of the current line is dropped and nothing of the next. |
| CappedLines.ReadCappedLine | crates/agent-viewer-core/src/lib.rs:141-185 | Outcome, buffer and the place where reading goes on are functions of the bytes that remain and the cap, not of the chunks; the buffer stays within the cap. |
| CappedLines.ReadAll | crates/agent-viewer-core/src/lib.rs:141-185 | So are all outcomes of a whole file. |
| CappedLines.LinesAreTheFile | crates/agent-viewer-core/src/lib.rs:141-185 | The lines concatenate to the file, and each is closed by its only newline except perhaps the last. |
| CappedLines.OneOutcomePerLine | crates/agent-viewer-core/src/lib.rs:124-133 | One outcome per line: the exact line if it fits with its newline, a skip if not, and then end of file. |
| DisplayText.SwarIsExact | crates/agent-viewer-core/src/backend.rs:413-418 | The word test is true exactly when some byte is below 0x20 or is 0x7f, despite borrows across bytes. |
| DisplayText.EveryWordIsBytes | crates/agent-viewer-core/src/backend.rs:413-418 | And that covers every 64-bit word. |
| DisplayText.ChunkIsExact | crates/agent-viewer-core/src/backend.rs:398-418 | For a chunk of eight bytes on a machine of either byte order. |
| DisplayText.ContainsAsciiControl | crates/agent-viewer-core/src/backend.rs:398-406 | Chunks and remainder together find a control byte exactly if there is one. |
| DisplayText.SafeOnAscii | crates/agent-viewer-core/src/backend.rs:345-347 | Below U+0080 the byte test and the character test agree. |
| DisplayText.AsciiFilter | crates/agent-viewer-core/src/backend.rs:374-396 | Filtering the bytes of ASCII text is filtering its characters. |
| DisplayText.CopySafeRuns | crates/agent-viewer-core/src/backend.rs:374-396 | Copying runs is the byte filter. |
| DisplayText.SanitizeDisplayText | crates/agent-viewer-core/src/backend.rs:348-354 | On every string the result is the plain character filter's. |
| DisplayText.DisplayString.Sanitize | crates/agent-viewer-core/src/backend.rs:359-372 | The in-place form leaves the same. |
| DisplayText.KeptIsSafe | crates/agent-viewer-core/src/backend.rs:420-457 | Only safe characters remain. |
| DisplayText.KeptAppend | crates/agent-viewer-core/src/backend.rs:420-424 | Text can be cleaned piece by piece. |
| DisplayText.KeptIsIdempotent | crates/agent-viewer-core/src/backend.rs:420-424 | Cleaning twice is cleaning once. |
| SubagentWalk.BuildChildren | crates/agent-viewer-core/src/claude.rs:1236-1251 | The table of children by parent, with files without id or metadata or of depth below two left out. |
| SubagentWalk.WalkDescendants | crates/agent-viewer-core/src/claude.rs:1253-1273 | Every transcript that parent links lead to from the start adds its turns exactly once, no other does, the start itself never does, and the walk ends even on cycles. |
| SubagentWalk.ExtendDescendantActivity | crates/agent-viewer-core/src/claude.rs:1195-1274 | For a main session every transcript beside it counts, for a subagent just its descendants. |
| SubagentWalk.ClosedHoldsChain | crates/agent-viewer-core/src/claude.rs:1253-1273 | A visited set that has the start and is closed under children has every descendant. |
| SubagentWalk.ActivityAdds | crates/agent-viewer-core/src/claude.rs:1231-1238 | The turns of a list of files are those of each file, one after another. |
| RosterMerge.Rosters.Merge | crates/agent-viewer-core/src/grok.rs:1471-1550 | The loop over one leader's entries changes rows and joint statuses as the entry-by-entry specification says. |
| RosterMerge.StatusIsTheVerdict | crates/agent-viewer-core/src/grok.rs:1497-1513 | After any number of leaders: agreed reports decide, agreed idleness keeps a durable Done or Error, disagreement is Unknown, no report changes nothing. |
| RosterMerge.OrderDoesNotMatter | crates/agent-viewer-core/src/grok.rs:1489-1513 | The status of every row depends only on which entries there were, not on their order or repetition. |
| RosterMerge.LeadersAppend | crates/agent-viewer-core/src/grok.rs:117-124 | Merging leaders one after another is merging one long list. |
| RosterMerge.LastEntryWins | crates/agent-viewer-core/src/grok.rs:1503-1549 | Everything else comes from the last admitted entry, cleaned; a blank title or summary keeps the one before, and a new row without a title is named by its id. |
| RosterMerge.RowsArePreserved | crates/agent-viewer-core/src/grok.rs:1502-1549 | No row is lost or moved; a row is added only for an admitted id that had none, and once. |
| RosterMerge.RowsThatExist | crates/agent-viewer-core/src/grok.rs:1480-1488 | A row exists in the end exactly if it came from disk or an entry with an id and a directory that are neither blank nor unsafe reports it. |
| RosterMerge.KeptIsTerminalSafe | crates/agent-viewer-core/src/backend.rs:340-344 | Text cleaned for display passes the separately written check for the terminal. |
| RowModel.RowsReadBack | crates/agent-viewer-tui/src/app.rs:756-879 | The rows read back as the groups: each header once, in order, with the full count, over all its members or none if collapsed, and spacers only between groups. |
| RowPartition.ListIsRight | crates/agent-viewer-tui/src/app.rs:697-879 | In either grouping the list is blocks in key order, each with the count and the sorted members that belong under its header. |
| RowPartition.GroupsAreRight | crates/agent-viewer-tui/src/app.rs:756-879 | A group holds exactly the included sessions of its key that are not on hold, in the specified order. |
| RowPartition.GroupsAreOrdered | crates/agent-viewer-tui/src/app.rs:756-842 | Sections stand in their fixed order and projects by path whatever the case, each once. |
| RowPartition.MembersGoByAge | crates/agent-viewer-tui/src/app.rs:770-785 | The oldest session first; created together, by backend and id in a section and the last updated first under a project. |
| RowPartition.TiesKeepTheirOrder | crates/agent-viewer-tui/src/app.rs:697-785 | Sessions that tie stand in the order in which they were listed. |
| RowPartition.TiesGoByUpdate | crates/agent-viewer-tui/src/app.rs:715-715 | Entries for one session in a section go by their last update. |
| RowPartition.ListedExactly | crates/agent-viewer-tui/src/app.rs:697-716 | Listed are, unless on hold, exactly the sessions with the filter in title or directory, hidden and companion ones on request. |
| RowPartition.MembersBelongThere | crates/agent-viewer-tui/src/app.rs:756-816 | Each stands under its project's header, or that of the section for its state. |
| RowPartition.HeadersThatExist | crates/agent-viewer-tui/src/app.rs:756-879 | A section has a header if it has something to show, a project if it has anything included. |
| RowPartition.RowsPartitionSessions | crates/agent-viewer-tui/src/app.rs:697-879 | Each session appears exactly as often as it is listed, if it is included, not on hold and its group is open, and else not at all. |
| RowPartition.CollapseIsLocal | crates/agent-viewer-tui/src/app.rs:787-806 | Collapsing a group hides its rows and changes nothing else. |
| RowPartition.StateOrderIsTotal | crates/agent-viewer-tui/src/app.rs:770-785 | The order within a section is a total preorder, as sorting demands. |
| RowPartition.RootOrderIsTotal | crates/agent-viewer-tui/src/app.rs:834-839 | So is the order of projects. |
| RowCursor.DownGoesToNext | crates/agent-viewer-tui/src/app.rs:503-530 | Down goes to the next selectable row and from the last to the first. |
| RowCursor.UpGoesToPrevious | crates/agent-viewer-tui/src/app.rs:503-530 | Up goes to the previous one and from the first to the last. |
| RowCursor.UpUndoesDown | crates/agent-viewer-tui/src/app.rs:503-530 | On the selectable rows they undo each other. |
| RowCursor.DownVisitsAll | crates/agent-viewer-tui/src/app.rs:503-530 | As many presses as there are selectable rows come back to the start, and reach every row on the way. |
| RowCursor.MovedIsWellPlaced | crates/agent-viewer-tui/src/app.rs:503-530 | Any movement leaves the cursor on a selectable row. |
| RowCursor.ClampedIsWellPlaced | crates/agent-viewer-tui/src/app.rs:882-905 | Clamping puts it on a selectable row if there is one, on a session row if there is one, and leaves it on a session row it is on. |
| RowCursor.ClampedIsNearest | crates/agent-viewer-tui/src/app.rs:882-905 | It goes to the nearest session row ahead, else behind, else to the nearest header ahead, else behind. |
| RowCursor.MovedIsNearest | crates/agent-viewer-tui/src/app.rs:503-530 | A longer move goes to the nearest selectable row from its target on, else to the nearest on the way. |
| ListApp.App.constructor | crates/agent-viewer-tui/src/app.rs:161-180 | A new list shows its rows with the cursor clamped. |
| ListApp.App.RebuildRows | crates/agent-viewer-tui/src/app.rs:697-752 | The cached rows and hidden count are those of the sessions, the view, the ribbons and the collapsed groups. |
| ListApp.App.IncludedSessions | crates/agent-viewer-tui/src/app.rs:697-716 | The filter pass keeps exactly the sessions that exclusion and needle leave, in order. |
| ListApp.App.BuildStateRows | crates/agent-viewer-tui/src/app.rs:756-811 | The section loop renders the state groups. |
| ListApp.App.GroupByRoot | crates/agent-viewer-tui/src/app.rs:818-829 | The first loop collects roots in order of appearance with their sessions, through the memo. |
| ListApp.App.BuildProjectRows | crates/agent-viewer-tui/src/app.rs:818-879 | The project loop renders the project groups. |
| ListApp.App.RootOf | crates/agent-viewer-tui/src/app.rs:668-675 | The memo answers what an uncached lookup would. |
| ListApp.App.ScanFrom | crates/agent-viewer-tui/src/app.rs:546-556 | The scan finds the first matching row in its direction. |
| ListApp.App.ClampSelection | crates/agent-viewer-tui/src/app.rs:882-905 | The cursor goes where the clamping rule says. |
| ListApp.App.MoveSelection | crates/agent-viewer-tui/src/app.rs:503-530 | The cursor goes where the movement rule says. |
| ListApp.App.SelectVisibleIndex | crates/agent-viewer-tui/src/app.rs:535-543 | A click selects exactly a row that can be selected. |
| ListApp.App.SelectHeader | crates/agent-viewer-tui/src/app.rs:416-428 | The cursor goes to the header of a group that is shown, a row it may stand on. |
| ListApp.App.SelectByKey | crates/agent-viewer-tui/src/app.rs:597-606 | The cursor goes to the row of a session that is shown, a row it may stand on. |
| ListApp.App.ToggleShowAll | crates/agent-viewer-tui/src/app.rs:313-317 | The cached rows are again what a rebuild would show, the cursor is clamped onto a selectable row, and nothing else changes. |
| ListApp.App.ToggleGroupMode | crates/agent-viewer-tui/src/app.rs:359-366 | The cached rows are again what a rebuild would show, the cursor is clamped onto a selectable row, and nothing else changes. |
| ListApp.App.SetCollapsed | crates/agent-viewer-tui/src/app.rs:373-377 | The cached rows are again what a rebuild would show, the cursor is clamped onto a selectable row, and nothing else changes. |
| ListApp.App.SetFilter | crates/agent-viewer-tui/src/app.rs:492-496 | The cached rows are again what a rebuild would show, the cursor is clamped onto a selectable row, and nothing else changes. |
| ListApp.App.ToggleSelectedGroup | crates/agent-viewer-tui/src/app.rs:392-403 | On a header the group folds or unfolds and the cursor stays on that header; elsewhere nothing happens. |
| ListApp.App.SetSessions | crates/agent-viewer-tui/src/app.rs:187-243 | The cursor stays on its session or header if shown, else goes to the nearest surviving row above if its session is still known, else is clamped. |
| ListApp.App.Restore | crates/agent-viewer-tui/src/app.rs:218-242 | Of the anchors taken before a rebuild the first that is still shown gets the cursor: session, then header, then the nearest row above. |
| ListApp.App.SetActivityRibbon | crates/agent-viewer-tui/src/app.rs:266-302 | Ribbons patched in place leave the rows a rebuild would give. |
| ListApp.TogglingTwiceRestores | crates/agent-viewer-tui/src/app.rs:392-403 | Collapsing and expanding again restores rows and cursor exactly. |
| ListApp.RowsShowSessions | crates/agent-viewer-tui/src/app.rs:569-592 | Every session row stands for a session that the lookup finds. |
| ListApp.HeaderIffGroup | crates/agent-viewer-tui/src/app.rs:392-403 | A group keeps its header whatever is collapsed. |
| ListApp.NearestSurvives | crates/agent-viewer-tui/src/app.rs:195-208 | The anchor that gets the cursor is that of the nearest row above whose session or header is still shown. |
| ListApp.PlacesAreFirst | crates/agent-viewer-tui/src/app.rs:597-606 | Headers and sessions are found wherever they are shown, at their first place. |
| ListApp.RowsAreDrawnRight | crates/agent-viewer-tui/src/app.rs:677-694 | A session row carries its own ribbon, and its project's label exactly when grouped by state. |
| ListApp.HiddenOrIncluded | crates/agent-viewer-tui/src/app.rs:718-730 | Without a filter every session is either included or counted as hidden. |
| ListApp.RowsShowCleanTitles | crates/agent-viewer-tui/src/app.rs:209-211 | No title is shown as it was read. |
| RowWidth.TruncateTo | crates/agent-viewer-tui/src/app.rs:933-948 | The longest prefix of whole graphemes that fits, the text itself exactly if it fits. |
| RowWidth.CutIsLongest | crates/agent-viewer-tui/src/app.rs:933-948 | No longer prefix fits. |
| RowWidth.TitleCapacity | crates/agent-viewer-tui/src/app.rs:956-1003 | The desired width, unless a complete badge and the start of the summary, as far as they can be shown at all, need the cells. |
| RowWidth.RowLayout | crates/agent-viewer-tui/src/app.rs:1012-1072 | The parts and the padding sum to the viewport's width, or to what is required if that is more, and to one cell too many exactly when a summary of no width follows a badge that takes all the room; the badge is whole precisely when it fits beside an empty title; the summary starts to show precisely when a grapheme fits after that. |
| RowWidth.OverrunOccurs | crates/agent-viewer-tui/src/app.rs:1041-1055 | A row that overruns by one cell. |
| RowWidth.PositiveWidthsFit | crates/agent-viewer-tui/src/app.rs:1012-1072 | With graphemes of positive width no row overruns. |
| IgnoreCase.AsciiContainsIgnoreCase | crates/agent-viewer-tui/src/app.rs:1130-1156 | The byte search that skips to first-letter candidates finds a match exactly if the lower-cased texts have one. |
| IgnoreCase.ContainsIgnoreCase | crates/agent-viewer-tui/src/app.rs:1119-1128 | With a lower-cased needle both paths answer what searching the lower-cased haystack would. |
| IgnoreCase.MatchesNeedle | crates/agent-viewer-tui/src/app.rs:659-665 | The filter's test of a session, title first, is the plain one. |
| IgnoreCase.HoldIgnoresCase | crates/agent-viewer-tui/src/app.rs:81-83 | A title puts a session on hold in any case. |
| IgnoreCase.CapitalNeedlesDisagree | crates/agent-viewer-tui/src/app.rs:655-665 | The needle must be lower-cased: the two paths differ on one with a capital. |

## Left out

- SQLite, files, sockets, processes, signals and `openat2`: rows, channels, locks and atomic steps stand for
  them. Recovery from a corrupt database is not modelled.
- JSON text is opaque: the listing payload goes through an abstract parser, metadata files and roster entries
  arrive decoded, and the PR inventory is a string.
- Counters stay below their limits: generations and connection ids do not wrap, and the saturation of a
  published generation at the largest 64-bit value is not modelled.
- Lease owner names are fresh in every claim, as process id, clock and a sequence number make them.
- ListingCache.ViewerDb.Renew: models one turn of the guard thread, because the thread's timing and its channel
  with the guard are scheduling; runs may contain any number of turns anywhere.
- TerminalHubs.GraceKillNeedsDetach: is the safety direction only. That an abandoned child is eventually killed
  is not true of the code in general (see `GraceTimerCanBeLost`).
- TerminalStreams.ClientCatchesUp: assumes no resize since the snapshot, because the client's own resizes are not
  in the model; `ClientShows` and `StreamIsExactlyOnce` have no such assumption.
- The vt100 emulator and ANSI repainting: an emulator is any fold over bytes and sizes, with its state in two
  parts. A redraw is taken to reproduce the part it writes, and to leave the other as the client has it.
- TerminalSinks.TerminalOwnerState.ForwardOutput: models a pass during which the socket task takes nothing, because
  what it takes meanwhile is the interleaving that `CounterIsExact` is about.
- Whether a write to the child or a resize succeeds: `OnlyTheAttachedActs` is about what is asked of it, and
  `FailuresAreReported` about the error frames of those that fail.
- HTTP routing, authentication, liveness timers and close codes of the socket.
- RefreshFairness.SelectedIsServed: is for tables without negative success stamps, because on these the due test
  and the claim condition disagree; the program stores none.
- RefreshFairness.ServedWithin: and the other bounds are about one viewer, a fixed set of listed directories that
  exist when a prune commits, and a clock that advances from every stored attempt and reading to the next.
- RefreshHistories.InventoriesAreLastPrinted: and its companions are about the passes of one viewer. With several
  at one table `RefreshTables.SucceededLast` says the same of whatever they complete.
- RefreshTables.TokenGoodUntilSuperseded: needs a clock that advances between won claims of one key, because
  without it tokens repeat (`EqualStampsShareAToken`); `TokenIsTheLastStamp` is exact under any clock.
- Attaching the cached PR references to session rows, parsing the PR inventory and the commands' time limits.
- DisplayText.SanitizeDisplayText: is about sequences of Unicode scalar values; UTF-8 is modelled for ASCII text,
  where bytes and characters coincide. `Vec::retain` and `String::retain` are the filter they are documented as.
- SubagentWalk.WalkDescendants: takes a directory as files with distinct names, already listed and read; trimming
  and the rejection of an empty parent belong to reading the metadata.
- Case mapping is a function that agrees with ASCII lower-casing on ASCII text and yields no ASCII capital. Project
  roots, project labels and title cleaning are functions given to the list; that a project root may change on
  disk while the memo keeps the old one is not modelled. Paths are compared as text.
- ListApp.App.MoveSelection: computes the target without the 32-bit bound of the source, because no list is
  that long and callers move by one.
- RowWidth.RowLayout: takes the width of a text to be the sum of its graphemes' widths; segmentation and width
  tables are given.
- The persisted form of collapsed groups, the two-press kill, spawn targets, drawing, key handling, the composer,
  CLI parsing, PR colors and the model and status caches: one-branch or library-bound.
- The durable status cache of Grok sessions: a parse cut short by its budget may be cached, so a hit need not
  equal a fresh parse.
- RosterMerge.Rosters.Merge: writes the fields that a roster can change; the constant ones of a new row are
  omitted.
