# Tsunami UDP: a verified model

Tsunami moves a file as numbered UDP datagrams and repairs the loss over a TCP connection. This
project models both ends of a lossless transfer, the ring buffer and disk thread behind the client,
and the condition variable and barrier of the bundled pthreads-win32, and proves what they are for.

`dafny verify dfyconfig.toml` checks everything.

## How the model is built

The code works in place, so each stateful part is a class with the program's fields and methods that
are proved equal to a function of the old state. The functions make up the steps of state machines, and
the results are lemmas about all runs of those machines.

| file | what it models |
|---|---|
| `Tsunami.dfy` | constants, datagrams, requests |
| `BlockMap.dfy` | the bitmap of received blocks as an array of bytes |
| `Retransmit.dfy` | the retransmission table: growth, both ways of insertion, in-place compaction |
| `Client.dfy`, `Receiver.dfy` | the receive loop: its state and invariant; the same in place |
| `Passes.dfy` | what each pass of the receive loop sends and leaves behind; feedback and restarts |
| `Pace.dfy`, `Server.dfy` | the inter-packet delay over exact reals; the transfer loop |
| `Session.dfy` | server, client, a UDP channel that loses, duplicates and reorders, a FIFO control channel |
| `Completion.dfy`, `Rounds.dfy`, `InOrder.dfy`, `FourRounds.dfy` | from any reachable state the transfer ends within three or four rounds |
| `Ring.dfy` | the ring buffer: all interleavings of producer and consumer; the object in place |
| `Delivery.dfy` | everything from the server's file to the client's file |
| `Framing.dfy` | requests put together from pieces of the byte stream |
| `CondVar.dfy`, `Destruction.dfy`, `Condition.dfy` | condition variables ("Algorithm 9"): a machine of any number of threads, when destruction is safe, the object in place |
| `Barrier.dfy` | the two-semaphore barrier |
| `CondList.dfy` | the doubly linked registry of condition variables and its critical section |
| `Runs.dfy`, `Threads.dfy` | runs of a machine; sums over threads |

Fields named `refused`, `met`, `confirmed`, `popped`, `records`, `stream`, `harmed`, `results`, `resets`,
`serial` and `owed` are histories: they record what happened so that a property can be stated, and no step reads
them. Whether the ring is full, the periodic feedback is due, or the client seems dead are arbitrary
inputs of a step, so every result holds for all timings.

## What was found about the code

- A restart at block r < N makes the server resume at r + 1; at r = N it sends block N again
  (`Server.RestartSkipsItsBlock`). The client recovers: the sweep at the end of the next round requests
  the block (`Rounds.RestartThenAsked`). That it also sets its head back to r keeps the block from being
  forgotten until then (`Client.RepeatInv`), and makes it request r in mid-round when blocks come in
  order (`InOrder.ResumedTrack`).
- With 2^32 - 1 blocks the server's walk wraps around to block 0 (`Server.WalkStaysAtEnd`); the results
  on whole transfers are about smaller files.
- The table refuses requests silently at its cap. No block is forgotten for good: the sweep at the end
  of the transmission finds it again, and with the ordered table four rounds that arrive in
  order suffice (`FourRounds.FourRoundsEnd`). Files with fewer blocks than the cap never meet a refusal.
- The report that the server makes up for a client that seems dead is written over the buffer in which
  the next request is being put together. This is harmless whatever was read exactly between records
  (`Framing.HarmlessBetweenRecords`); in the middle of one it can change the request
  (`Framing.StopMistaken`). The records handled are those of the stream if and only if no pass wrote
  it over a piece of the stream that it changes (`Framing.FramingExact`).
- A report of loss can speed the server up: the starting delay is three times the target, and the first
  report of any kind brings it down to max(10000, target) if it is above that
  (`Pace.BadReportLowersStart`, `Pace.BadReportLowersExactly`).
- A condition variable can be destroyed under a signaller that has given the mutex back and has yet to
  post its token: a waiter that times out in between opens the gate (`Destruction.DestroyedTooEarly`).
  It can also be destroyed under a caller that stands before its first operation on the gate or the
  mutex, without anybody giving up (`Destruction.DestroyedUnderCaller`). There is no third case
  (`CondVar.DestroyedUnused`), and nobody is inside if and only if neither has happened, which is said
  in terms of the moves of the run (`Destruction.RunDestroyedExact`).
- A destruction that finds the mutex taken returns without leaving the critical section of the registry
  (pthread_cond_destroy.c:147-151, entered at 129 and left at 209 only). From then on no initialization
  or destruction by another thread returns (`CondList.LeakIsForGood`); the case is reachable
  (`Destruction.MutexTaken`).

## Model

| member | source | states |
|---|---|---|
| `BlockMap.BitIndependence` | client/command.c:480 | Setting one bit of a byte changes that bit only. |
| `BlockMap.BitIsShift` | client/command.c:988-993 | The masks are the shifts `1 << (b % 8)`. |
| `BlockMap.RecordedBit` | client/command.c:988-993 | The bytes stand for a set: a block is in it if and only if its bit is set. |
| `BlockMap.MarkAddsOne` | client/command.c:480 | Recording block b adds b to the set and removes or adds nothing else. |
| `BlockMap.NothingRecorded` | client/command.c:399 | A zeroed bitmap records no block. |
| `BlockMap.CountOutsideIsSize` | client/command.c:644-647 | The recount loop counts exactly the blocks of the file that are not recorded. |
| `BlockMap.BlockMap.constructor` | client/command.c:399 | The allocation of N/8 + 2 bytes is a valid empty bitmap of N blocks. |
| `BlockMap.BlockMap.GotBlock` | client/command.c:988-993 | A block counts as got if it is recorded or past the file; every access is in bounds, N + 1 included. |
| `BlockMap.BlockMap.Mark` | client/command.c:480 | Recording in place adds one block to the contents. |
| `BlockMap.BlockMap.CountLost` | client/command.c:644-647 | The loop returns the number of blocks outside the contents. |
| `Retransmit.InsertSortedElements` | client/protocol.c:475-494 | Ordered insertion adds exactly the requested block, once. |
| `Retransmit.InsertSortedAscends` | client/protocol.c:475-494 | Ordered insertion keeps the table strictly ascending, hence without duplicates. |
| `Retransmit.InsertSortedAt` | client/protocol.c:475-494 | At the place where the seek loop stops, inserting is splitting the table there, or nothing for a duplicate. |
| `Retransmit.InsertElements` | client/protocol.c:458-495 | Both builds of the table yield the same set of requests; the table grows by one entry at most. |
| `Retransmit.WantedElements` | client/protocol.c:334-345 | Compaction keeps exactly the entries that are still missing. |
| `Retransmit.WantedAscends` | client/protocol.c:334-345 | Compaction keeps an ascending table ascending. |
| `Retransmit.WantedPrefix` | client/protocol.c:334 | The entries kept from a part of the table come first among those kept from all of it. |
| `Retransmit.WantedPicks` | client/protocol.c:334-345 | Compaction keeps the entries at exactly the places whose block is missing, in order, an entry that is listed twice included. |
| `Retransmit.TakeWanted` | client/protocol.c:334-350 | A scan that stops at the end, or with MAX entries found, has found the first MAX wanted entries. |
| `Retransmit.ScannedNext` | client/protocol.c:334-350 | One more entry: what was kept leads the table, what is not yet scanned is untouched, and so is the last entry. |
| `Retransmit.ScanEnds` | client/protocol.c:334-368 | What the scan leaves: the first MAX wanted entries in front, and the last entry as it was. |
| `Retransmit.AscendingSize` | client/protocol.c:353 | Without duplicates, no more entries than missing blocks can make the count reach MAX. |
| `Retransmit.RetransmitTable.constructor` | client/command.c:417-418 | The table starts empty with its initial size. |
| `Retransmit.RetransmitTable.Grow` | client/protocol.c:443-451 | Growth doubles the allocation and keeps the entries. |
| `Retransmit.RetransmitTable.Request` | client/protocol.c:421-499 | The request is refused exactly at the cap; else the appending build puts it behind all other entries, a duplicate included, and the sorting build keeps the table ascending with exactly one entry for it; all writes are in bounds. |
| `Retransmit.RetransmitTable.InsertInOrder` | client/protocol.c:475-494 | Seek and shift in place are the ordered insertion. |
| `Retransmit.RetransmitTable.ShiftIn` | client/protocol.c:486-493 | The do-while shift moves the rest of the table up by one entry. |
| `Retransmit.RetransmitTable.Consider` | client/protocol.c:336-350 | One pass of the loop keeps and lists an entry if and only if its block is missing. |
| `Retransmit.RetransmitTable.Compact` | client/protocol.c:334-350 | In-place compaction: the messages are the first MAX missing entries in order, the table starts with them, and its last entry is what it was on entry despite the overwriting. |
| `Client.StartInv` | client/command.c:416-422 | At the start every block is missing, the table is empty, block 1 is expected next, no restart is pending, and the invariant holds. |
| `Client.RequestBlockAsks` | client/protocol.c:421-499 | A request is entered, or refused at the cap and then owed until a later one is entered; nothing else changes; the table fits its allocation, which stays within 64 * MAX. |
| `Client.RequestBlockExact` | client/protocol.c:431-462 | A request for a received block, or for one past the file, does nothing; else it is refused exactly by a full table at the cap, or enters the block and nothing else, in the appending build behind all other entries; a full table doubles. |
| `Client.RequestRangeAsks` | client/command.c:526-531 | The request loop asks for every missing block of the range and for no other. |
| `Client.RequestRangeAppends` | client/command.c:526-531 | In the appending build the request loop puts the missing blocks of the range behind the other entries, in order and once each, if it is refused nothing. |
| `Client.RecordInv` | client/command.c:469-486 | Recording a block keeps the counter equal to the number of missing blocks, and the "Oops" branch is unreachable. |
| `Client.ReceivedFits` | client/command.c:481-485 | There are never more recorded blocks than the file has; if as many, all are recorded. |
| `Client.AdvanceStops` | client/command.c:536-538 | The mark advances over received blocks only, never decreases, and stops right before a missing block. |
| `Client.AdvanceTo` | client/command.c:536-538 | The mark stops at the last block before the first gap. |
| `Client.AskInv` | client/command.c:526-531 | Requesting gaps keeps the invariant. |
| `Client.AdvanceInv` | client/command.c:536-538 | Advancing the mark keeps the invariant. |
| `Client.MarksInv` | client/command.c:536-549 | Once all gaps before a block are requested, its successor may be expected next without forgetting a block. |
| `Client.TrackInv` | client/command.c:496-549 | Moving the marks, backwards too, forgets no missing block. |
| `Client.SweepInv` | client/command.c:568-574 | The sweep at the end of the transmission keeps the invariant. |
| `Client.RepeatInv` | client/protocol.c:310-412 | Compaction and restart keep the invariant: since the head is set back to the first missing block, what a restart drops from the table lies past the head. |
| `Client.FeedbackInv` | client/command.c:582-602 | Periodic repetition keeps the invariant. |
| `Client.TrackedInv` | client/command.c:552-602 | The end-of-transmission part of a pass keeps the invariant. |
| `Client.ReceiveInv` | client/command.c:464-602 | Main safety result: whatever arrives, ring full or not, every unreceived block between the mark and the head is in the table, or the cap refused the latest request for it; and counter, bitmap, mark and table bounds agree. |
| `Client.TrackGrows` | client/command.c:496-549 | Moving the marks loses no received block and never lowers the mark. |
| `Client.SweepGrows` | client/command.c:568-574 | The sweep changes the table only. |
| `Client.FinishGrows` | client/command.c:552-602 | The end of a pass changes no received block. |
| `Client.ReceiveGrows` | client/command.c:464-602 | A pass records exactly the block it stores in the ring; the mark and the received blocks only grow. |
| `Client.WireDrains` | client/command.c:488-493 | After a restart request, any number of blocks still on the wire are recorded and trigger nothing else. |
| `Client.RestartOpensWindow` | client/protocol.c:353-378 | With the ordered table a restart puts the head before the last requested entry, past which no entry lies. |
| `Client.WindowCloses` | client/command.c:488-549 | As the server sends on from the restart point, the client has left restart mode once its head has reached the last requested entry. |
| `Client.TrackMoves` | client/command.c:540-549 | Restart mode ends when the head reaches the last requested entry, and the marks never start it. |
| `Client.NoReopening` | client/command.c:464-549 | Only a repetition of requests starts restart mode. |
| `Passes.RepeatExact` | client/protocol.c:329-396 | A repetition asks, in order, for the block of every table entry that is still missing and keeps those entries, or, for MAX or more of them, restarts at the mark + 1 and stores the last entry and the end of the window as 32-bit numbers inside the file. |
| `Passes.FeedbackSends` | client/command.c:582-602 | Main result on feedback: a pass in which it is due, ring full and end of the transmission included, does what it does otherwise, then requests again exactly what is still missing of the table or restarts, and last reports the error rate. |
| `Passes.RingFullDrops` | client/command.c:464 | While the ring is full a pass without feedback does nothing. |
| `Passes.DuplicateDropped` | client/command.c:465 | Nor does a received block, unless it ends the transmission or a restart is pending. |
| `Passes.WindowRecords` | client/command.c:488-493 | A block inside the window of a restart is recorded and nothing else. |
| `Passes.TrackExact` | client/command.c:496-549 | After any other block the mark is right before the first missing block, the head is one past an original, restart mode ends when the head reaches the stored last index, and the table has gained the gaps before the block and nothing else. |
| `Passes.PassExact` | client/command.c:464-549 | The same for a whole pass, which sends nothing, stores the block if and only if it is new, and counts what is left. |
| `Passes.TerminateSends` | client/command.c:552-577 | A pass over the terminate block that is refused nothing ends the loop if and only if every block was received, and else sends exactly the requests for the missing blocks, or one restart at the smallest; what it requested is what its table holds. |
| `Passes.RestartWindow` | client/protocol.c:353-380 | Main result on restarts, in terms of the table a restart was sent for: a block past its last entry and at most the estimate further (as a 32-bit sum, inside the file) is recorded and nothing else; any other moves the head, an original to its successor; restart mode ends exactly when the head reaches that last entry. |
| `Receiver.Transfer.constructor` | client/command.c:394-422 | A new transfer is the initial state. |
| `Receiver.Transfer.RequestRetransmit` | client/protocol.c:421-499 | The in-place request is the specified one. |
| `Receiver.Transfer.RequestRange` | client/command.c:526-531 | The loop is the specified range of requests. |
| `Receiver.Transfer.RepeatRetransmit` | client/protocol.c:310-412 | In-place repetition is the specified one, whose messages and state are those of Passes.RepeatExact; the restart's last index is the last entry as it was on entry. |
| `Receiver.Transfer.Record` | client/command.c:480-485 | Recording in place is the specified recording. |
| `Receiver.Transfer.AdvanceGapless` | client/command.c:536-538 | The loop advances the mark as specified. |
| `Receiver.Transfer.Track` | client/command.c:496-549 | The marks move as specified. |
| `Receiver.Transfer.Feedback` | client/command.c:582-602 | The periodic feedback in place is the specified one, of which Passes.FeedbackSends says what it sends. |
| `Receiver.Transfer.Finish` | client/command.c:552-602 | The end of a pass in place is the specified one, of which Passes.TerminateSends says what it sends. |
| `Receiver.Transfer.Receive` | client/command.c:437-607 | One pass of the loop over the mutable state is the specified pass. |
| `Receiver.Transfer.CommandGet` | client/command.c:437-608 | The receive loop is the specified run over all arrivals until it breaks out. |
| `Receiver.Transfer.Recount` | client/command.c:643-647 | The recount yields the number of missing blocks. |
| `Receiver.ReceiveAllInv` | client/command.c:437-608 | Over any arrivals the invariant holds, and the loop breaks out only with every block of the file. |
| `Receiver.NothingLost` | client/command.c:668-672 | When the loop has ended no block is lost: the "please file a bug report" branch is unreachable. |
| `Receiver.DoneStays` | client/command.c:558-562 | After the break no datagram is received any more. |
| `Pace.AdjustInRange` | server/protocol.c:117-129 | After every error report the delay is between its target and max(10000, target). |
| `Pace.GoodReportNeverRaises` | server/protocol.c:124-129 | A report below the threshold never raises a delay, the one every transfer starts with included, if the speedup factor is at most one. |
| `Pace.BadReportLowersExactly` | server/protocol.c:117-129 | With a slowdown factor of at least one, a report above the threshold keeps or raises the delay if and only if the delay was not above max(10000, target); a worse report never asks for a shorter delay. |
| `Pace.GoodReportExact` | server/protocol.c:124-129 | A report up to the threshold multiplies the delay by the speedup factor, or takes it to the nearest end of its range. |
| `Pace.WorstReportExact` | server/protocol.c:117-129 | A report of 99999 multiplies the delay by exactly the slowdown factor, or takes it to the nearest end of its range. |
| `Pace.RaiseIsProportional` | server/protocol.c:121-123 | Within the range, what two bad reports add to the delay is as 1 + report - threshold of the one to that of the other. |
| `Pace.BadReportRaises` | server/protocol.c:121-129 | A bad report raises a delay below 10000 strictly, by a stated step at least or to the upper end of the range, if the slowdown factor is above one. |
| `Pace.BadReportsRaise` | server/protocol.c:117-129 | A run of n bad reports adds n steps or has reached the upper end. |
| `Pace.BadReportsReachTop` | server/protocol.c:117-129 | So many bad reports that their steps cover the distance reach max(10000, target) exactly. |
| `Pace.StartInRange` | server/protocol.c:678-679 | The starting delay is in that range if and only if three times the target is at most 10000, or the target is zero. |
| `Pace.BadReportLowersStart` | server/protocol.c:117-129 | Counterexample otherwise: with a target of 5000 a first report of complete loss lowers the delay from 15000 to 10000. |
| `Pace.SpeedupStep` | server/protocol.c:125 | A strict speedup takes at least target/den off the delay. |
| `Pace.GoodReport` | server/protocol.c:124-129 | One good report takes that step or reaches the target exactly. |
| `Pace.GoodReportsLower` | server/protocol.c:117-129 | A run of n good reports takes n steps or has reached the target. |
| `Pace.GoodReportsReachTarget` | server/protocol.c:117-129 | den * (start - target) / target good reports reach the target delay exactly. |
| `Server.BlockStaysInRange` | server/main.c:269-354 | The block number stays in 0..N, so the while test never ends the loop. |
| `Server.LoopEnds` | server/main.c:268-423 | The loop ends if and only if a stop request arrives or the heartbeat ends it; by the heartbeat only after more than 2048 passes in a row without a request. |
| `Server.LoopServes` | server/main.c:268-423 | Whatever the clock says, blocks and answers depend on the requests only, until the heartbeat ends the loop. |
| `Server.IdleIsSilent` | server/main.c:299-365 | The dead-connection counter exceeds the number of passes without a request just before by one at most. |
| `Server.DeadClientIsDropped` | server/main.c:365-402 | A client that stays silent is dropped: 2050 silent passes with an expired clock end the loop. |
| `Server.LoopStarts` | server/protocol.c:678-679 | The loop starts with three times the target delay, and sends block 1 first. |
| `Server.PassPaces` | server/main.c:299-379 | A pass changes the delay exactly at an error report, and, with 100000 as its rate, when more than 2048 passes without a request meet a clock that says a report is due. |
| `Server.DeadClientSlowsDown` | server/main.c:376-379 | The made-up report raises a delay below 10000 strictly, if the slowdown factor is above one. |
| `Server.IdleIsBounded` | server/main.c:365-372 | The dead-connection counter never exceeds 2049: it starts again whenever the clock was looked at. |
| `Server.LoopPaces` | server/main.c:365-379 | With made-up reports included, the delay is the initial one or in its range. |
| `Server.WalkStaysAtEnd` | server/main.c:340-341 | At block N the walk stays there if and only if N < 2^32 - 1; with N = 2^32 - 1 the block number wraps around to 0, sent as an original. |
| `Server.WalkIsConsecutive` | server/main.c:337-354 | Between accepted restarts originals are consecutive up to block N, which alone carries the terminate type and is repeated. |
| `Server.PassWalks` | server/main.c:297-354 | A pass sends the next block of the walk if and only if no request is complete. |
| `Server.RestartSkipsItsBlock` | server/protocol.c:146-153 | After an accepted restart at r the walk resumes at min(r + 1, N), and sends block r if and only if r is N. |
| `Server.RefusedChangesNothing` | server/protocol.c:146-175 | A restart outside 1..N and a request of an unknown type change nothing and send nothing. |
| `Server.PassAnswers` | server/protocol.c:156-170 | A pass retransmits the block asked for, if one is, and sends one datagram at most. |
| `Server.AnswersExactly` | server/protocol.c:156-170 | Until a stop request the retransmissions sent are exactly the blocks asked for, in that order, each once. |
| `Server.Transfer.constructor` | server/protocol.c:678-679 | The transfer starts before block 1 with three times the target delay. |
| `Server.Transfer.AcceptRetransmit` | server/protocol.c:102-180 | Requests act as specified; refused are exactly restarts outside 1..N and unknown types; only error reports change the delay. |
| `Server.Transfer.Next` | server/main.c:270-402 | One pass in place, the watch over the heartbeat included, is the specified one. |
| `Server.Transfer.ClientHandler` | server/main.c:268-423 | The loop is the specified run, and ends if and only if a stop request or the heartbeat ends it. |
| `Server.OverStays` | server/main.c:305-397 | Nothing is sent after the loop has ended. |
| `Session.InitialInv` | client/protocol.c:218 | The joint initial state satisfies the joint invariant, for files of fewer than 2^32 - 1 blocks. |
| `Session.ReceiveOrderly` | client/command.c:542-602 | The client expects a block in 1..N next, asks only for blocks of the file, and breaks out only with all of them. |
| `Session.NextInv` | server/main.c:268-423 | Every step of server, client or channel keeps the joint invariant, under loss, duplication and reordering. |
| `Session.RunInv` | client/command.c:437-608 | The joint invariant holds in every state of every run. |
| `Session.ReachesInv` | client/command.c:437-608 | And in every reachable state. |
| `Completion.SweepFinds` | client/command.c:568-574 | Sweeping only below N suffices, as N was just recorded: the table then holds every missing block. |
| `Completion.TerminateRequestsComplete` | client/command.c:552-577 | One processed terminate block requests exactly the missing blocks, or restarts at the smallest of them; with the ordered table only if MAX or more are missing. |
| `Completion.SomeMissing` | client/command.c:560-562 | The counter is zero if and only if no block is missing. |
| `Completion.FirstMissing` | client/protocol.c:356 | The restart block is the smallest missing block. |
| `Completion.RepeatTwice` | client/protocol.c:353-380 | Repeating at once after a restart request never sends another restart. |
| `Completion.TerminateEnds` | client/command.c:552-562 | At a terminate block the client breaks out if and only if it has every block. |
| `Completion.RepeatComplete` | client/protocol.c:329-396 | With every missing block in the table, a repetition requests exactly those or restarts at the first. |
| `Completion.TerminateCovers` | client/command.c:464-602 | In any client state, with any feedback, a terminate block ends the loop or, if nothing is refused, is answered by requests that cover all that is missing. |
| `Completion.TrackStops` | client/command.c:536-549 | The mark is left right before the first missing block. |
| `Completion.FinishCovers` | client/command.c:568-602 | Feedback after the terminate block does not undo the coverage. |
| `Rounds.DrainEffect` | server/main.c:297-334 | Reading all requests retransmits exactly the requested blocks and leaves the server at the last restart point. |
| `Rounds.BlastEffect` | server/main.c:337-354 | From block p the server sends p + 1 .. N, and N at least. |
| `Rounds.ReceiveAllKeeps` | client/command.c:437-608 | Over a round, everything that arrives is received, and requests stay legal. |
| `Rounds.RoundDelivers` | client/command.c:464-486 | In a round without loss everything asked for, and everything past the restart point, is received. |
| `Rounds.RoundCovers` | client/command.c:552-577 | A round that does not end the transfer leaves, if nothing is refused, requests for all that is still missing. |
| `Rounds.RoundUnfinished` | client/command.c:558-562 | A round ends the transfer unless a block is missing. |
| `Rounds.RoundReaches` | server/main.c:268-423 | A round is a run of the joint system. |
| `Rounds.AskedForAllEnds` | client/command.c:552-562 | If every missing block was requested, the next round ends the transfer. |
| `Rounds.RestartLeavesOne` | server/protocol.c:146-153 | A restart at the first missing block leaves at most that block missing. |
| `Rounds.RestartThenAsked` | client/command.c:568-577 | And that block is requested at the end of the round, by the sweep from the mark, if that round refuses nothing. |
| `Rounds.ThreeRoundsEnd` | client/command.c:437-608 | Main liveness result, ordered table: from any state satisfying the invariant, three rounds without loss end the transfer, in any order of arrival, with duplicates, stale datagrams and periodic repetition, if the table refuses nothing in the first two. |
| `Rounds.TransferEnds` | client/command.c:437-608 | The same for whole transfers: from any state reached since the start, from the third round without loss on the client is out of its loop and has every block. |
| `InOrder.TerminateRestarts` | client/command.c:552-577 | For either table: a terminate block requests all that is missing, or restarts with an empty table. |
| `InOrder.FirstRound` | client/command.c:437-608 | So does a round that arrives in order. |
| `InOrder.RequestOnly` | client/command.c:526-531 | Requesting a range with one gap requests that gap. |
| `InOrder.ResumedTrack` | client/command.c:488-549 | After a restart at r, since the head was set back to r, blocks in order make the client request r once in mid-round and nothing else. |
| `InOrder.ResumedTerminate` | client/command.c:552-577 | The terminate block then requests r. |
| `InOrder.RestartSent` | server/main.c:337-354 | After a restart at r the server sends r + 1 .. N. |
| `InOrder.RestartRound` | client/command.c:437-608 | A round after a restart asks for all that is missing. |
| `InOrder.InOrderRoundsEnd` | client/command.c:437-608 | Main liveness result for either build of the table: three rounds that arrive in order end the transfer, if the first refuses nothing. |
| `FourRounds.RefusedWhenFull` | client/protocol.c:436-441 | Requests are refused by a table at its cap only. |
| `FourRounds.StaleEntries` | client/protocol.c:334-345 | Compaction drops no more entries of an ordered table than there are stale blocks. |
| `FourRounds.RoundLists` | client/command.c:437-608 | Even with refusals, a round ends with a listing of wanted blocks that fits one message batch, or with a restart. |
| `FourRounds.TrackTable` | client/command.c:496-549 | Moving the marks enters only missing blocks into the table. |
| `FourRounds.QuietTable` | client/command.c:464-549 | So does a pass over a retransmission. |
| `FourRounds.FullSweepWantsMany` | client/command.c:568-574 | A sweep that meets the cap wants enough blocks to trigger a restart. |
| `FourRounds.TerminateFew` | client/command.c:552-577 | With few stale entries a terminate block covers all that is missing, whatever is refused. |
| `FourRounds.FourRoundsEnd` | client/command.c:437-608 | Main liveness result without any assumption on refusals: ordered table, four rounds in order end the transfer, for files of any size that the walk can reach the end of (fewer than 2^32 - 1 blocks). |
| `FourRounds.SmallFileThreeRoundsEnd` | client/command.c:437-608 | For files below the cap nothing is ever refused: three rounds without loss suffice, in any order of arrival. |
| `Ring.StartInv` | client/ring.c:184-224 | A new ring satisfies the invariant. |
| `Ring.StepInv` | client/ring.c:84-438 | Every step of either thread keeps it: data_ready iff data, space_ready iff space, slots and histories agree. |
| `Ring.RunInv` | client/ring.c:84-438 | So it holds in every state of every interleaving. |
| `Ring.RunIsFifo` | client/ring.c:110-438 | The ring refines a FIFO queue: what is popped is what was confirmed, in order, unaltered and without gaps. |
| `Ring.StepRefinesQueue` | client/ring.c:146-438 | Each step adds the confirmed item at the end, takes the oldest, or leaves the queue alone. |
| `Ring.WriteKeepsContents` | client/ring.c:399-438 | Writing the reserved slot outside the lock alters no queued item. |
| `Ring.PopDropsFirst` | client/ring.c:352-388 | Moving the base drops exactly the oldest item. |
| `Ring.WritesApartFromReads` | client/ring.c:309-438 | The slot being written is never the slot being read. |
| `Ring.NextStaysRight` | client/ring.c:410-429 | The slot computed before a wait is still the right one after any number of pops. |
| `Ring.NeverBothAsleep` | client/ring.c:321-429 | No wake-up is lost: never do both threads sleep, and each sleeps only while the ring is full, or empty. |
| `Ring.NoFatalError` | client/ring.c:110-173 | Reserving twice and confirming or cancelling nothing are unreachable; a pop after a peek never waits. |
| `Ring.NotFullNeverWaits` | client/command.c:464-472 | Once ring_full returned false, the reservation does not wait, whatever the consumer does in between. |
| `Ring.RingBuffer.constructor` | client/ring.c:184-224 | The object starts as the empty ring. |
| `Ring.RingBuffer.Full` | client/ring.c:84-102 | Full exactly when space_ready is not set. |
| `Ring.RingBuffer.Locate` | client/ring.c:410-412 | The slot is the one the specification names. |
| `Ring.RingBuffer.Reserve` | client/ring.c:416-438 | The locked section is the specified reservation. |
| `Ring.RingBuffer.Write` | client/command.c:473 | Copying into the reserved slot changes that slot only. |
| `Ring.RingBuffer.Confirm` | client/ring.c:146-173 | The locked section is the specified confirmation. |
| `Ring.RingBuffer.Cancel` | client/ring.c:110-136 | The locked section is the specified cancellation. |
| `Ring.RingBuffer.Peek` | client/ring.c:309-342 | The oldest item is returned and stays. |
| `Ring.RingBuffer.Pop` | client/ring.c:352-388 | The locked section is the specified removal. |
| `Delivery.InitialInv` | client/command.c:416-422 | The end-to-end initial state satisfies the invariant. |
| `Delivery.ConfirmsNew` | client/command.c:469-486 | The confirmed message is a block of the file with its payload that neither client nor ring had. |
| `Delivery.ConfirmsLog` | client/command.c:469-486 | What entered the ring are the blocks the client has recorded, each once, each with its payload. |
| `Delivery.DiskAcceptsFile` | client/command.c:931-953 | The file is what results from writing the accepted messages in order. |
| `Delivery.NextThreads` | client/command.c:437-627 | Every step keeps what network and disk thread rely on: the reservation for a new block never waits, and the stop marker is the last to enter. |
| `Delivery.NextLog` | client/command.c:469-486 | Every step keeps that what entered the ring is what the client recorded. |
| `Delivery.NextFile` | client/command.c:931-953 | Every step keeps that the file is what the disk thread has accepted. |
| `Delivery.NextInv` | client/command.c:437-627 | Every step of server, network thread, ring and disk thread keeps the invariant. |
| `Delivery.RunInv` | client/command.c:437-627 | So it holds in every state of every interleaving. |
| `Delivery.WrittenFaithful` | client/command.c:941-949 | Writing each block once, with its payload, yields a file that has exactly those blocks, each with its payload. |
| `Delivery.AcceptsArePrefix` | client/command.c:922-954 | The disk thread accepts what entered the ring, in that order. |
| `Delivery.FirstArrivalsAre` | client/command.c:464-469 | Over all datagrams met, duplicates and those met with a full ring included: the first arrivals are the blocks that arrived at some time while the ring had space. |
| `Delivery.FirstArrivalsOrdered` | client/command.c:464-469 | They come without repetition, in the order in which they first arrived. |
| `Delivery.ArrivesOrder` | client/command.c:464-472 | A datagram is a first arrival exactly if it goes on its way into the ring. |
| `Delivery.NextOrder` | client/command.c:437-608 | Every step keeps the order of the ring that of first arrival. |
| `Delivery.RunOrder` | client/command.c:437-608 | So it is in every state of every run. |
| `Delivery.WrittenInOrder` | client/command.c:922-954 | In every state of every run the disk thread has written blocks in the order of their first arrival. |
| `Delivery.LoopEndsComplete` | client/command.c:437-608 | Once the client is out of its loop, every block 1..N has entered the ring exactly once, in the order of first arrival, and none is lost. |
| `Delivery.DeadLeavesFile` | client/command.c:931-953 | When the disk thread has ended, the file is what results from writing all that entered, each block right. |
| `Delivery.FileNeverWrong` | client/command.c:922-954 | In every state, all that was written to the file so far is right. |
| `Delivery.DeadHasAll` | client/command.c:935-939 | The disk thread meets the 0 marker only after it has popped every block that entered. |
| `Delivery.TransferIsExact` | client/command.c:437-672 | Main result, end to end: when the disk thread has ended, every block 1..N entered the ring exactly once, exactly those were written in the order of first arrival, none is lost, and the client's file equals the server's. |
| `Delivery.DeadIsExact` | client/command.c:922-954 | When the disk thread has ended, the file has exactly the blocks 1..N, each with the server's payload. |
| `Framing.RoundTrip` | client/protocol.c:348-349 | A request written by the client is decoded to itself by the server, whatever the padding. |
| `Framing.Bytes32RoundTrip` | server/protocol.c:113-115 | Network byte order of 32 bits round-trips. |
| `Framing.DecodeBytes` | server/protocol.c:112-175 | Byte for byte: types 0 and 1 carry the block in bytes 4 to 7 and type 3 the rate in bytes 8 to 11, the most significant byte first; type 2 is a stop request, and every other type is unknown. |
| `Framing.EncodeBytes` | client/protocol.c:348-349 | The client writes the type, the block and the rate into those bytes, and zeros where the request has none. |
| `Framing.ToHostBytes` | server/protocol.c:112-115 | The conversion in place reverses the two numbers on a little-endian host and does nothing on a big-endian one. |
| `Framing.MakeUpBytes` | server/main.c:376-379 | The twelve bytes that a made-up report leaves in the buffer, on hosts of either byte order. |
| `Framing.StopIsLast` | server/main.c:305-330 | No record is handled after a stop request. |
| `Framing.LookExact` | server/main.c:284-379 | A pass, byte for byte: what was read follows what was held, twelve bytes are handled as a record and their numbers left in host order, and else a client that seems dead leaves the made-up report in the buffer. |
| `Framing.LookInv` | server/main.c:284-376 | A pass keeps the relation between buffer, records and stream. |
| `Framing.LookHarms` | server/main.c:376-379 | A made-up report harms the buffer if and only if it changes the piece of the stream in it. |
| `Framing.HarmedIsSpoilt` | server/main.c:284-379 | Whether the buffer was ever harmed can be told from what was read and in which passes the client was taken for dead. |
| `Framing.FramingExact` | server/main.c:284-362 | The over-long branch is unreachable, and the records handled are the byte stream cut into records, with the rest in the buffer, if and only if no pass wrote a made-up report over a piece of the stream that it changes. |
| `Framing.HarmlessBetweenRecords` | server/main.c:376-379 | The made-up report leaves whatever was read alone if and only if nothing of the next record was read. |
| `Framing.QuietIsUnharmed` | server/main.c:284-379 | If the dead-connection branch runs between records only, any fragmentation yields the stream cut into records. |
| `Framing.RequestsHeard` | server/main.c:297-334 | The server understands the requests the client wrote, in order, and all that have arrived. |
| `Framing.StopMistaken` | server/main.c:376-379 | Counterexample otherwise: a stop request interrupted after two bytes is handled as an error report. |
| `Framing.HarmHandled` | server/main.c:297-334 | A broken byte is handled as part of its record. |
| `Framing.HarmCarried` | server/main.c:337-379 | A broken byte stays broken until its record is complete, whatever else is made up. |
| `Framing.Look` | server/main.c:284-379 | One pass over the in-place buffer is the specified one. |
| `Framing.MakeUpReport` | server/main.c:376-379 | The in-place report is the specified one, its conversion to host order included. |
| `Framing.Convert` | server/protocol.c:113-115 | The fields are converted to host order in place. |
| `Framing.Listen` | server/main.c:268-379 | The loop over the in-place buffer is the specified reader, up to a stop request. |
| `CondVar.StartInv` | win32compat/pthreads-w32-2-7-0-release/pthread_cond_init.c:98-117 | The initial counters and semaphores satisfy the invariant. |
| `CondVar.GateKept` | win32compat/pthreads-w32-2-7-0-release/pthread_cond_wait.c:297-341 | The gate has exactly one owner at any time: free, one thread, or a closed generation; so it never exceeds 1. The mutex likewise. |
| `CondVar.ConservedKept` | win32compat/pthreads-w32-2-7-0-release/pthread_cond_wait.c:297-327 | Registered waiters are always blocked + to-unblock - gone. |
| `CondVar.CountersKept` | win32compat/pthreads-w32-2-7-0-release/pthread_cond_signal.c:92-133 | The counters stay non-negative, and to-unblock > 0 implies gone == 0. |
| `CondVar.TokensKept` | win32compat/pthreads-w32-2-7-0-release/pthread_cond_signal.c:135-142 | Tokens posted or bound to be posted suffice for all that are to be unblocked. |
| `CondVar.LocalKept` | win32compat/pthreads-w32-2-7-0-release/pthread_cond_signal.c:107-128 | What a section relies on is not broken by other threads while it waits for the gate. |
| `CondVar.StepInv` | win32compat/pthreads-w32-2-7-0-release/pthread_cond_wait.c:275-450 | Every atomic step of every thread keeps the invariant. |
| `CondVar.RunInv` | win32compat/pthreads-w32-2-7-0-release/pthread_cond_wait.c:275-450 | So it holds in every state of every run until the variable is destroyed, for any number of threads. |
| `CondVar.WaitersConserved` | win32compat/pthreads-w32-2-7-0-release/pthread_cond_wait.c:297-341 | Conservation of waiters between critical sections, no negative counter, a binary gate, and no overflow of 32 bits. |
| `CondVar.OneWriter` | win32compat/pthreads-w32-2-7-0-release/pthread_cond_wait.c:297-395 | nWaitersBlocked never has two writers, neither entering waiters, nor signallers, nor the clean-up that writes off gone waiters, although entering waiters do not take the mutex. |
| `CondVar.OneGateHolder` | win32compat/pthreads-w32-2-7-0-release/pthread_cond_wait.c:385-395 | Two threads never hold the gate. |
| `CondVar.NeverStuck` | win32compat/pthreads-w32-2-7-0-release/pthread_cond_wait.c:297-385 | Gate and mutex never deadlock: if any thread is neither outside nor waiting for a signal, some thread inside can go on without giving up; a caller waits at a closed gate only while a member of the generation can go on. |
| `CondVar.SignalExact` | win32compat/pthreads-w32-2-7-0-release/pthread_cond_signal.c:86-137 | In any state of the machine, a signal is spent on exactly one waiter and a broadcast on all, of those that no signal was spent on, and as many tokens are to be posted; without any of those nothing happens. |
| `CondVar.BroadcastOpensGeneration` | win32compat/pthreads-w32-2-7-0-release/pthread_cond_signal.c:92-133 | A broadcast opens a generation of all registered waiters. |
| `CondVar.GenerationServed` | win32compat/pthreads-w32-2-7-0-release/pthread_cond_signal.c:135-142 | While it is open the gate is shut, nobody enters, and the tokens suffice for all its members that are still blocked, with no further signal. |
| `CondVar.GenerationStep` | win32compat/pthreads-w32-2-7-0-release/pthread_cond_wait.c:297-341 | A step keeps the generation open or is the last exit bookkeeping. |
| `CondVar.GenerationDrains` | win32compat/pthreads-w32-2-7-0-release/pthread_cond_signal.c:92-146 | In every run the generation stays open until every thread registered at the broadcast has done its exit bookkeeping, whatever other signals, time-outs and waits interleave. |
| `CondVar.BusyTestExact` | win32compat/pthreads-w32-2-7-0-release/pthread_cond_destroy.c:154-174 | The busy test is exact: the destruction goes on if and only if no waiter is registered, and else opens the gate and gives the mutex back. |
| `CondVar.DestroyedUnused` | win32compat/pthreads-w32-2-7-0-release/pthread_cond_destroy.c:166-204 | When it is destroyed every other thread is outside, a caller before its first operation on gate or mutex, or a signaller that has yet to post. |
| `Destruction.SurplusStep` | win32compat/pthreads-w32-2-7-0-release/pthread_cond_wait.c:297-327 | Tokens beyond those needed arise by giving up while waiting only, one each, and are used up one by one by retractions nobody signalled for. |
| `Destruction.SurplusCounts` | win32compat/pthreads-w32-2-7-0-release/pthread_cond_wait.c:297-327 | Over any run, the surplus of tokens is the number of give-ups minus the number of retractions that nobody signalled for. |
| `Destruction.CallingCounts` | win32compat/pthreads-w32-2-7-0-release/pthread_cond_wait.c:382-385 | Over any run, the callers before their first operation are the calls begun minus those that got past it or were cancelled there. |
| `Destruction.DestroyedExact` | win32compat/pthreads-w32-2-7-0-release/pthread_cond_destroy.c:133-204 | A destruction finds every other thread outside if and only if no post is outstanding, the surplus being all in the queue, and no caller stands before its first operation. |
| `Destruction.RunDestroyedExact` | win32compat/pthreads-w32-2-7-0-release/pthread_cond_destroy.c:133-204 | Main result on destruction, over every run of any number of threads, in terms of its moves: nobody is inside a destroyed variable if and only if the give-ups not used up by retractions are all in the queue as tokens and every call begun got past its first operation. |
| `Destruction.PatientKept` | win32compat/pthreads-w32-2-7-0-release/pthread_cond_wait.c:297-341 | Every step that is no time-out or cancellation keeps the tokens exact. |
| `Destruction.NobodyLeftInside` | win32compat/pthreads-w32-2-7-0-release/pthread_cond_destroy.c:133-204 | In a run without time-outs and cancellations only callers before their first operation can be inside a destroyed variable; until then tokens are exact, those past the queue are at most as many as are to be unblocked, and no wait is written off. |
| `Destruction.DestroyedUnderCaller` | win32compat/pthreads-w32-2-7-0-release/pthread_cond_wait.c:382-385 | It happens: a run without any time-out or cancellation in which the variable is destroyed while a caller of pthread_cond_wait stands at its gate. |
| `Destruction.DestroyedTooEarly` | win32compat/pthreads-w32-2-7-0-release/pthread_cond_signal.c:135-142 | With a time-out it happens: a run of three threads in which the variable is destroyed while a signaller has yet to post to its semaphore. |
| `Destruction.MutexTaken` | win32compat/pthreads-w32-2-7-0-release/pthread_cond_destroy.c:147-151 | A run in which a destroyer finds the mutex taken. |
| `Condition.RetractRuns` | win32compat/pthreads-w32-2-7-0-release/pthread_cond_wait.c:275-351 | The clean-up method is a run of its thread in the machine, wherever the others stand. |
| `Condition.UnblockRuns` | win32compat/pthreads-w32-2-7-0-release/pthread_cond_signal.c:45-150 | So is the signal or broadcast method. |
| `Condition.UnblockExact` | win32compat/pthreads-w32-2-7-0-release/pthread_cond_signal.c:86-137 | The method posts one token, or one for each waiter that no signal was spent on, forgets no waiter, and leaves the gate closed exactly while any is to be unblocked. |
| `Condition.RetractExact` | win32compat/pthreads-w32-2-7-0-release/pthread_cond_wait.c:301-341 | A clean-up takes exactly one waiter off those to be unblocked, or, if there is none, off those that no signal was spent on, and takes no token. |
| `Condition.BroadcastIsSignals` | win32compat/pthreads-w32-2-7-0-release/pthread_cond_signal.c:92-133 | A broadcast is as many single signals as there are waiters nobody has signalled, and leaves none. |
| `Condition.GenerationEnds` | win32compat/pthreads-w32-2-7-0-release/pthread_cond_wait.c:297-341 | After a broadcast and the clean-ups of all its waiters, the gate is open and no counter remembers them. |
| `Condition.Condition.constructor` | win32compat/pthreads-w32-2-7-0-release/pthread_cond_init.c:98-163 | A new object is in the initial state and the last in the registry, whose critical section it has left. |
| `Condition.Condition.Register` | win32compat/pthreads-w32-2-7-0-release/pthread_cond_wait.c:384-395 | Entering counts one more blocked waiter and leaves the gate open. |
| `Condition.Condition.Retract` | win32compat/pthreads-w32-2-7-0-release/pthread_cond_wait.c:275-351 | The in-place clean-up is the specified one. |
| `Condition.Condition.Unblock` | win32compat/pthreads-w32-2-7-0-release/pthread_cond_signal.c:45-150 | The in-place signal or broadcast is the specified one. |
| `Condition.Condition.Destroy` | win32compat/pthreads-w32-2-7-0-release/pthread_cond_destroy.c:127-209 | Destruction succeeds, and unlinks exactly this variable, if and only if no waiter is registered and the mutex is free; otherwise neither counters nor registry change, and the critical section of the registry stays entered if and only if the mutex was taken. |
| `Barrier.StartInv` | win32compat/pthreads-w32-2-7-0-release/pthread_barrier_init.c:57-76 | The initial height, step and semaphores satisfy the invariant. |
| `Barrier.AllArrived` | win32compat/pthreads-w32-2-7-0-release/pthread_barrier_wait.c:53-56 | When a thread brings the height to zero, all others wait in the same round. |
| `Barrier.HeightKept` | win32compat/pthreads-w32-2-7-0-release/pthread_barrier_wait.c:53-56 | The height counts who has not arrived, never drops below zero, and reaches zero for one thread per round. |
| `Barrier.TokensKept` | win32compat/pthreads-w32-2-7-0-release/pthread_barrier_wait.c:68-79 | The tokens of a closed round are as many as still wait in it; the other stone is empty. |
| `Barrier.ResultsKept` | win32compat/pthreads-w32-2-7-0-release/pthread_barrier_wait.c:86-95 | What each call returned is determined by which thread's compare-exchange succeeded in that round. |
| `Barrier.StepInv` | win32compat/pthreads-w32-2-7-0-release/pthread_barrier_wait.c:53-98 | Every atomic step of every thread keeps the invariant. |
| `Barrier.RunInv` | win32compat/pthreads-w32-2-7-0-release/pthread_barrier_wait.c:53-98 | So it holds in every state of every interleaving of n threads. |
| `Barrier.NobodyReturnsEarly` | win32compat/pthreads-w32-2-7-0-release/pthread_barrier_wait.c:53-98 | No thread returns from its k-th call before all n have entered theirs. |
| `Barrier.RunHoldsBack` | win32compat/pthreads-w32-2-7-0-release/pthread_barrier_wait.c:53-98 | The same, for every state of every run of a new barrier. |
| `Barrier.OneSerialThread` | win32compat/pthreads-w32-2-7-0-release/pthread_barrier_wait.c:86-95 | Exactly one thread per round is told that it is the serial thread. |
| `Barrier.SerialThreadIsFirst` | win32compat/pthreads-w32-2-7-0-release/pthread_barrier_wait.c:82-95 | It is the first one to return. |
| `Barrier.OwnRound` | win32compat/pthreads-w32-2-7-0-release/pthread_barrier_wait.c:53-79 | A thread reads the step of its own round, and the token it takes was posted in its own round. |
| `Barrier.NeverStuck` | win32compat/pthreads-w32-2-7-0-release/pthread_barrier_wait.c:58-79 | The threads are never all blocked. |
| `Barrier.ArrivalRuns` | win32compat/pthreads-w32-2-7-0-release/pthread_barrier_wait.c:51-79 | The arrival method is a run of its thread in the machine. |
| `Barrier.PthreadBarrier.constructor` | win32compat/pthreads-w32-2-7-0-release/pthread_barrier_init.c:57-76 | A new barrier is in the initial state. |
| `Barrier.PthreadBarrier.Init` | win32compat/pthreads-w32-2-7-0-release/pthread_barrier_init.c:47-81 | Refused exactly for a count of zero. |
| `Barrier.PthreadBarrier.Arrive` | win32compat/pthreads-w32-2-7-0-release/pthread_barrier_wait.c:51-72 | The in-place arrival is the specified one. |
| `Barrier.PthreadBarrier.Take` | win32compat/pthreads-w32-2-7-0-release/pthread_barrier_wait.c:74-79 | The in-place wait takes one token of its own stone. |
| `Barrier.PthreadBarrier.Cross` | win32compat/pthreads-w32-2-7-0-release/pthread_barrier_wait.c:86-95 | The in-place compare-exchange returns what the specification does. |
| `CondList.LeakIsForGood` | win32compat/pthreads-w32-2-7-0-release/pthread_cond_destroy.c:147-151 | Over any sequence of calls, the critical section of the registry is free at the end if and only if none found its mutex taken; after one that did, calls by other threads never return. |
| `CondList.Registry.Append` | win32compat/pthreads-w32-2-7-0-release/pthread_cond_init.c:141-158 | Initialization appends the node; the list stays a well-formed doubly linked list, and the critical section is left as it was entered. |
| `CondList.Registry.Unlink` | win32compat/pthreads-w32-2-7-0-release/pthread_cond_destroy.c:186-204 | Destruction removes exactly that node, keeps the order of the others and all four kinds of links. |
| `CondList.Registry.constructor` | win32compat/pthreads-w32-2-7-0-release/global.c:47-48 | The registry starts empty. |
| `CondList.Registry.Walk` | win32compat/pthreads-w32-2-7-0-release/pthread_timechange_handler_np.c:96-102 | Walking from the head meets every condition variable once, in order of initialization. |

## Left out

- Lossy and semi-lossy modes: the mark then deliberately stops meaning "received", and the window is a floating-point rate estimate.
- The failure path of recvfrom, which repeats the requests and then handles the previous datagram again: a datagram is taken to arrive in every pass.
- Failed writes, allocations and semaphore or mutex calls, and the exits through error().
- Sockets, files, names, statistics, transcripts, hooks and the user interface.
- Authentication, negotiation of parameters and the directory listing.
- Sleeping between packets; and in the joint system of `Session.dfy` and `Delivery.dfy` the heartbeat timeout, which is part of `Server.dfy` only: there the server is taken to stay until it is stopped.
- The real-time variants of client and server, VSIB and StreamStor devices.
- The truncation of the last block's payload to the file size: payloads are whole values that are carried and written unaltered.
- Datagrams with numbers outside 1..N or from elsewhere: the channel carries what the server has sent.
- Pace.AdjustInRange: over exact reals and with the divisions defined; a zero denominator, or a threshold of exactly 100000, yields infinities in floating point that are not modelled.
- Rounds.ThreeRoundsEnd: assumes that the table refuses nothing in the first two rounds, as the claim for three rounds does; FourRounds.FourRoundsEnd needs no such assumption.
- InOrder.InOrderRoundsEnd: for the appending table rounds arrive in order and without duplicates, because duplicates of requests fill that table.
- Ring.RingBuffer.Reserve: the wait loops of the ring are steps of the machine in `Ring.dfy`; the methods of the object are the sections after the wait.
- Condition.Condition.Unblock: the methods run without another thread in between; interleavings, time-outs and cancellation are the subject of `CondVar.dfy`.
- Destruction.DestroyedTooEarly: what a late post does to a destroyed semaphore is not modelled; a destroyed variable takes no further step.
- The external mutex of a condition variable, static initializers and error codes other than busy.
- A second destroyer of a condition variable, which waits for the critical section of the registry before it touches the variable, and a destroyer that is cancelled at the gate.
- Receiver.Transfer.Recount: counts over unbounded numbers; with 2^32 - 1 blocks the loop of the program (client/command.c:645) does not end, as its counter wraps around.
- Barrier attributes and destruction.
- Fairness: that a thread which can go on eventually does is not assumed; progress is stated as absence of deadlock and as numbers of rounds.
- Thread attributes, cancellation points, keys, read-write locks and the other files of pthreads-win32.
