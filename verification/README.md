# A verified model of the SMB1 connection engine

This project models, in Dafny 4.11, the parts of an asynchronous SMB1 client that
carry its hardest promises, and proves those promises for every input and every
run:

- the **request table** and the **connection actor** that drives it: 16-bit
  multiplex ids that are allocated, put on the wire, lapsed, retired and used again
  while replies arrive in any order and timers fire at any time;
- the **reassembly** of transaction replies (section 2.2.4.46.2 of [MS-CIFS]) over
  an interval set that is inserted into, merged and cut in place;
- the **pipelined read and write** of a file, whose chunks are answered out of
  order, short, empty or refused, and the **progress handle** that says how much of
  a dropped write reached the server;
- the **DCE/RPC PDU collector** (section 12.6 of C706) and the **SPNEGO token
  codec** (section 4.2 of RFC 4178, sections 8.1.3 and 10.1 of ITU-T X.690).

## How it is laid out

Code that changes things step by step is modelled twice. A class or a method with
loops does what the source does, field by field, and is proved to agree with a step
function on values; the properties are lemmas about the step functions and about
whole runs of them. The server is an arbitrary sequence of messages, an arbitrary
function from the number of answers given so far to the next answer, or an arbitrary
byte stream; where a result needs it to keep its side of the protocol, the result says
so. Time is a number passed in.

| file | what it holds |
|---|---|
| `Wrappers.dfy` | `Option`, `Result`, `byte` |
| `Coverage.dfy` | the interval set, in place, and the set of positions it refines |
| `Reassembly.dfy`, `ReassemblyProofs.dfy`, `ReassemblyRuns.dfy`, `Assembly.dfy` | reassembly as steps, what runs of them keep, which runs there are, and the classes |
| `Table.dfy`, `TableIndex.dfy`, `TableExpiry.dfy`, `RequestTable.dfy` | the request table as steps, its index and counters, the expiry loop, and the class |
| `TableRuns.dfy`, `TableOutcomes.dfy`, `RequestLife.dfy` | whole runs of the table: routing, how requests end, and the life of one request told from the events alone |
| `Actor.dfy`, `ActorRuns.dfy`, `ActorLaws.dfy`, `ConnectionActor.dfy` | the actor as steps, whole runs of it, what those promise of its offers, writes and wake-ups, and the class with its loop |
| `Progress.dfy`, `WriteProgress.dfy` | the progress protocol under any interleaving, and the shared object |
| `WriteEnds.dfy` | the connection, the table and the handle together: what becomes of each queued request, and of a write whose chunks they are |
| `Chunks.dfy`, `Transfer.dfy`, `ReadLoop.dfy`, `WriteLoop.dfy`, `File.dfy` | how a span is divided, what the two loops share, the loops, and the calls on them |
| `Pdu.dfy`, `PduProofs.dfy`, `PduOutcomes.dfy`, `PduCollector.dfy` | PDU splitting and collection, its proofs, what becomes of any stream, and the classes |
| `PipeProofs.dfy`, `PipeReader.dfy` | what the pipe's read loop makes of its reads, and the loop |
| `Spnego.dfy`, `SpnegoProofs.dfy`, `SpnegoExact.dfy`, `SpnegoCodec.dfy` | the token codec as functions, its proofs in both directions, and the cursor loops |

`dafny verify dfyconfig.toml` checks the whole project.

## Main results

- **No crosstalk** (`TableRuns.NoCrosstalk`): in every run in which the server sends
  nothing on an id after making the reply on that id whole, each message reaches the
  very request it answers, whatever timed out, was corrupted or was used again. The
  actor inherits it (`ActorRuns.ActorHasNoCrosstalk`).
- **The table is nothing but its requests' lives** (`RequestLife.LifeIsKept`): over every
  run, against any server, the row of a request, or its absence, and the one end the log
  has of it are those its own life comes to, told from its dispatch, the messages on its
  id and the ticks. So its deadlines are the times they should be
  (`RequestLife.DeadlinesAreTimely`), and no interim message ends it
  (`RequestLife.EndsAreAnswers`).
- **Every request ends once, against any server**: those that entered the table
  (`TableOutcomes.EveryRequestEndsOnce`), those refused before that
  (`ActorRuns.TakenAreAccounted`, `ActorRuns.RefusedWereTold`), and so each that a
  caller queued (`WriteEnds.QueuedRequestEndsOnce`).
- **A write is never left waiting, and its prefix is the server's word**: once the
  connection that carried its chunks is over, the signal of its handle goes out
  (`WriteEnds.WriteSettles`), and each byte of the prefix was acknowledged by the reply
  with which the table ended the request that offered it (`WriteEnds.PrefixIsOfReplies`).
- **Nothing is handed over in part, against any server**
  (`TableOutcomes.DeliveredBytesReachedTheRow`), and no server postpones a deadline
  (`TableOutcomes.DeadlinesStand`).
- **Silence and admission are exact** (`ActorRuns.SilentExactly`,
  `ActorRuns.AdmissionHolds`), over every run of the actor.
- **Whatever can be taken is offered, and whatever is begun is written to its end**
  (`ActorLaws.SomethingCanBeTaken`, `ActorLaws.OffersExactly`, `ActorLaws.WritesGoOn`),
  and the loop is woken exactly when something is due (`ActorLaws.WakeIsExact`).
- **Exactly these messages make a reply**: `ReassemblyRuns.TakesExactly` and
  `ReassemblyRuns.WholeExactly` say which sequences of messages a reassembly takes, and
  when it is whole, of the messages alone.
- **The two transfer loops end against every server and lose nothing**, they fail with
  what fails them and with nothing else, and a chunk refused for its size is asked for
  again (`ReadLoop.ReadSpan`, `WriteLoop.WriteSpan`).
- **The progress handle never over-claims and never goes back**, whatever falls
  between any two of its critical sections (`Progress.ProgressOnlyMovesOn`,
  `Progress.WrittenIsAcknowledged`), and its signal cannot be withheld
  (`Progress.FinishingSignals`).
- **The collector collects exactly replies**, however what it is fed is cut
  (`PduProofs.CollectsExactly`), **and the pipe's read loop fetches exactly the reply
  its reads bring** (`PipeProofs.FetchesExactly`), without reading for ever
  (`PipeProofs.ReadingIsBounded`). What becomes of any other stream, failure by failure,
  is `PduOutcomes.CollectsAsExplained` and `PipeProofs.FetchesAsExplained`.
- **Tokens read back** however each of their levels is encoded
  (`SpnegoProofs.ReadsTree`, `SpnegoProofs.RewrittenReads`), and nothing else is read
  (`SpnegoExact.ReadsExactly`, `SpnegoExact.FoundExactly`).

Three things that one might take for granted are false of the code, and the model
follows the code.

- `src/rpc/pdu.rs:54-58` documents that the cap on fragments never turns away a reply
  within the cap on bytes. It can: `PduProofs.FittingReplyRefused` gives one.
  `PduProofs.FragmentedStubIsReassembled` shows exactly when: a stub within the byte cap
  is collected if it comes in at most 1,972 fragments, and refused if it comes in
  more. `PduProofs.FullFragmentsAreFew` shows that fragments of the negotiated size stay
  within it.
- What the pipe answers can depend on how the server cuts its stream into reads:
  `PipeProofs.TrailingZeros` gives a stream that is answered or refused accordingly.
  `PipeProofs.ReadsAlikeExactly` shows exactly when it does not: if, and only if, the
  stream is not a reply with something behind it that declares a length below the
  header's. The comment at `src/rpc/pdu.rs:475-477` says that what follows the last
  fragment is left in the stream; the collector goes on splitting what was read with it.
- A write that has stopped issuing and whose chunks have all left may not have a final
  prefix yet: `Progress.NotSettledYet` gives the interleaving. `Progress.SettledExactly`
  shows that both come to the same once nobody has still to settle, and
  `Progress.FinishingSignals` that this only takes those at work finishing.

## Model

| member | source | states |
|---|---|---|
| Coverage.Coverage.Cover | src/connection/reassembly.rs:123-145 | Covering answers false exactly where some position is already covered, and then changes nothing; otherwise the set of positions grows by the span and the list stays sorted, disjoint and maximally merged |
| Coverage.Coverage.Truncate | src/connection/reassembly.rs:149-154 | Truncation is intersection with `0 .. total`, on a list that stays canonical |
| Coverage.Coverage.Gap | src/connection/reassembly.rs:160-173 | The gap is the first maximal uncovered stretch, and there is none exactly when all is covered; what it gives for a total of zero is stated too |
| Coverage.Coverage.Prefix | src/connection/reassembly.rs:176-181 | The prefix is the longest covered run from zero |
| Coverage.Coverage.Covers | src/connection/reassembly.rs:184-190 | Answers true exactly when the covered set is `0 .. total` |
| Coverage.CanonicalIsUnique | src/connection/reassembly.rs:114-145 | Two canonical lists of one set of positions are equal, whatever built them |
| InPlaceAssembly.Track.Declare | src/connection/reassembly.rs:223-250 | Declaring a total in place is the step, refusals included, and a refusal leaves the track as it was |
| InPlaceAssembly.Track.Place | src/connection/reassembly.rs:252-275 | Placing a payload in place is the step, refusals included |
| InPlaceAssembly.Assembly.Accept | src/connection/reassembly.rs:338-374 | Accepting a fragment in place leaves the state, and gives the answer, of the step over both blocks |
| InPlaceAssembly.Assembly.Finish | src/connection/reassembly.rs:377-384 | What is handed over is the setup words and the two buffers as they stood |
| Reassembly.AcceptDecides | src/connection/reassembly.rs:338-374 | A fragment is accepted exactly when fewer than 64 were before it, both blocks take it, and it carries bytes or none before it carried nothing; the setup words are its own where it has any |
| ReassemblyRuns.TakesExactly | src/connection/reassembly.rs:222-374 | A sequence of messages is taken if and only if there are at most 64, at most one carries no byte, the totals of each block never grow and begin within what was asked for, each payload lies within its total, and no two carry the same byte |
| ReassemblyRuns.WholeExactly | src/connection/reassembly.rs:277-384 | Messages that were taken are whole if and only if each byte below the last totals was carried by one; the setup words are those of the last message that had any |
| ReassemblyRuns.RefusedForCause | src/connection/reassembly.rs:222-374 | Each refusal is true of the message, block, numbers and all |
| ReassemblyProofs.DeliversOnlySupplied | src/connection/reassembly.rs:222-288 | A reply that completes while buffered delivers blocks of the last declared length, within what was asked for, in which every byte was supplied by exactly one accepted fragment at its own displacement, however the totals shrank |
| ReassemblyProofs.TilingCompletesAtLast | src/connection/reassembly.rs:338-374 | Fragments that tile both blocks complete at the last of them and not before |
| ReassemblyProofs.ArrivalOrderDoesNotMatter | src/connection/reassembly.rs:338-374 | Every permutation of at most 64 such fragments completes exactly at its last, with the same bytes in both blocks |
| ReassemblyProofs.AcceptWithoutBuffer | src/connection/reassembly.rs:330-374 | A released reassembly gives the same answer as the one it follows; it accepts what that one refuses only for a cap that belongs to the buffer |
| ReassemblyProofs.ReleaseAnywhere | src/connection/reassembly.rs:330-374 | Releasing the buffer at any point of an accepted run changes neither what later fragments are answered nor what is covered |
| InPlaceTable.RequestTable.Allocate | src/connection/table.rs:342-358 | From any cursor, gives the next unheld id, at most 0xFFFE, and goes on after it; gives none exactly when all 65,535 are held |
| InPlaceTable.RequestTable.Dispatch | src/connection/table.rs:364-390 | Dispatching in place is the step, and keeps the index and the counters |
| InPlaceTable.RequestTable.Accept | src/connection/table.rs:396-445 | Routing a message in place is the step, its failure included, and keeps the index and the counters |
| InPlaceTable.RequestTable.Expire | src/connection/table.rs:449-509 | The expiry loop in place is the expiry of the specification, and ends |
| InPlaceTable.RequestTable.FailAll | src/connection/table.rs:528-538 | Every held request is ended, each once, and the table is left empty |
| TableIndex.AcceptKeepsIndex | src/connection/table.rs:396-445 | A message keeps `charging` the number of rows on the wire, `retired` the number retired, and one deadline per live row equal to its own |
| TableIndex.ExpireOneKeepsIndex | src/connection/table.rs:449-525 | A deadline in the index belongs to a live row, so the look-up and the decrements of the loop cannot fail, and firing it keeps the index |
| TableIndex.DispatchKeepsIndex | src/connection/table.rs:364-390 | Dispatching on an unheld id keeps the index |
| TableExpiry.ExpireOneShrinks | src/connection/table.rs:449-509 | Firing one deadline takes one from twice the rows on the wire plus the lapsed, so the loop ends even with timeouts of zero |
| TableExpiry.ExpireIsPointwise | src/connection/table.rs:449-509 | An expiry that does not fail has done to each row, in whatever order, what its own deadlines call for, and leaves no row overdue |
| TableExpiry.ExpireFailsAtBudget | src/connection/table.rs:449-525 | It fails exactly when the rows it retires bring the retired to 1,024 |
| TableRuns.RowFollowsArrival | src/connection/table.rs:192-247 | Buffered, lapsed or released, a row takes a reply for whole only when the messages sent for its request have made it whole |
| TableRuns.UnroutableExactly | src/connection/table.rs:396-445 | A message is unroutable exactly when its id is not held, or held by a live row of another command |
| TableRuns.RunIsAccounted | src/connection/table.rs:342-525 | In every run against any server, every row is of a request that was dispatched on its id, and each request has ended exactly once, or is still waiting and has not |
| TableRuns.RunIsRouted | src/connection/table.rs:342-525 | In every run in which the server keeps its side, the table holds a request until its reply is whole, and its row stands where the messages sent for it have brought it |
| TableRuns.LegalExactly | src/connection/table.rs:342-525 | A run is one in which the server keeps its side exactly when each message of it answers a request on its own id whose reply was not whole before |
| TableRuns.NoCrosstalk | src/connection/table.rs:342-525 | In every run in which nothing is sent on an id after the message that completes the reply there, each message finds the row of the request it answers and is refused only for carrying another command |
| TableOutcomes.EveryRequestEndsOnce | src/connection/table.rs:192-291 | After any run, against any server, and the failure that ends it, each request that entered the table has ended exactly once, to the hook and the waiter arranged for it |
| TableOutcomes.EndsAtMostOnce | src/connection/table.rs:396-538 | While the connection lives, against any server, a request has ended exactly when it is no longer waiting on the wire, and then once: late messages on lapsed or retired ids end nothing |
| TableOutcomes.DeliveredBytesReachedTheRow | src/connection/table.rs:192-247 | In any run, against any server, a successful transaction reply carries, in each block, only bytes that exactly one of the messages that reached its row supplied, and no more than was asked for |
| TableOutcomes.WhatReachedWasSent | src/connection/table.rs:192-247 | Where the server keeps its side, the messages that reached the row of a request are the first of those sent for it, and all of them while the row is live |
| TableOutcomes.DeadlinesStand | src/connection/table.rs:183-190 | Over any run, against any server, no message moves a request's overall deadline or a lapsed request's give-up time |
| TableOutcomes.TickReleasesOverdue | src/connection/table.rs:449-509 | Once the timers have run, no id is held by a request past its deadlines |
| RequestLife.LifeIsKept | src/connection/table.rs:183-525 | Over every run, against any server, the row of a request, or its absence, and the end the log has of it are those of its own life, which is told from the time of its dispatch, the messages on its id and the ticks: an interim message restarts its silence, any other ends it or adds to its reply, a tick past a deadline times it out, and one past eight overall deadlines more spends its id |
| RequestLife.DeadlinesAreTimely | src/connection/table.rs:364-509 | In every run a row on the wire falls silent `perRequest` after the last message for it, or its dispatch, and is overdue `overall` after its dispatch; one that lapsed did so at a tick at which one of the two had come, and is given up eight times `overall` after that |
| RequestLife.EndsAreAnswers | src/connection/table.rs:137-247 | In every run an end that carries a reply carries a message that came for that request and is not an interim one, with no transaction where none was asked for, and with exactly its setup, parameters and data where it says the transaction failed; an end that carries a failure is a timeout, or of a transaction that does not decode or reassemble |
| RequestLife.EndsAsItLived | src/connection/table.rs:449-538 | Once the connection is over, the end of each request is what its life came to, or that it was lost |
| RequestLife.InterimEndsNothing | src/connection/table.rs:141-147 | An interim message ends nothing and changes nothing but the silence deadline of a row on the wire |
| RequestLife.PlainReplyIsWhole | src/connection/table.rs:137-165 | Any other message is the whole reply to a request that asked for no transaction, and frees its id |
| RequestLife.FailedTransactionIsWhole | src/connection/table.rs:148-163 | A failed transaction is answered with what its message carries, setup, parameters and data, or with none where it does not decode |
| RequestLife.UndecodableSpends | src/connection/table.rs:183-247 | A message of a transaction that does not decode ends its request with that failure and spends the id |
| RequestLife.ArrivalFailsExactly | src/connection/table.rs:396-525 | A message fails the connection exactly where it has no row to go to, or spends the 1,024th id |
| InPlaceActor.ConnectionActor.Begin | src/connection/actor.rs:351-418 | Taking a dispatch to be written is the step: the end of an abandoned or unframable request is told and nothing is sent, an exhausted pool ends the connection, and otherwise it is written under an id nothing holds |
| InPlaceActor.ConnectionActor.Wrote | src/connection/actor.rs:421-455 | The first byte written puts the request in the table; the rest of the write is what is left |
| InPlaceActor.ConnectionActor.Route | src/connection/actor.rs:458-495 | Routing a frame resets the silence clock and is the table's step; a chained answer and a deleted session end the connection |
| InPlaceActor.ConnectionActor.Tick | src/connection/actor.rs:498-511 | A tick raises silence or runs the expiry |
| InPlaceActor.ConnectionActor.NoteWaiting | src/connection/actor.rs:514-523 | Noting the time is the step of the silence clock |
| InPlaceActor.ConnectionActor.SilentFor | src/connection/actor.rs:526-531 | Reads the silence clock |
| InPlaceActor.ConnectionActor.NextWake | src/connection/actor.rs:533-545 | The earlier of the first deadline and the moment silence would be complete |
| InPlaceActor.ConnectionActor.Pump | src/connection/actor.rs:286-345 | Over any sequence of what the sources yield, each pass arms the loop and takes from its source, with the values it gave, what the offer allows, or nothing; the loop stops exactly where it fails, the sources end, or both queues are closed with nothing being written or charging; and for every labelling of the messages its state is that of the possible run of the actor's steps that those passes make |
| ActorRuns.AdmissionHolds | src/connection/mod.rs:149-154 | In every reachable state what charges capacity, with what is taken and not dispatched, is at most min(MaxMpxCount, 50), or 1 for 0 and 1; and the id of an undispatched write is not in the table |
| ActorRuns.SilenceIsExact | src/connection/actor.rs:514-531 | The silence clock reads the total time since the last answered message during which some request charged capacity |
| ActorRuns.SilentExactly | src/connection/actor.rs:498-511 | A tick raises silence exactly when a request charges and that time has reached the overall deadline |
| ActorRuns.WakeMakesProgress | src/connection/actor.rs:498-541 | A tick at or after the wake-up fails the connection or expires at least one row |
| ActorRuns.CloseRunIsBounded | src/connection/actor.rs:286-345 | While both queues stay non-empty at most 8 closes are begun before a request |
| ActorRuns.ActorRunsAreTableRuns | src/connection/actor.rs:351-495 | Whatever the server sends, the table events of any actor run are a run of the table that ends in the actor's table, so all that is proved of those runs holds of the actor |
| ActorRuns.ActorHasNoCrosstalk | src/connection/actor.rs:458-495 | In an actor run in which the server keeps its side, the message routed next finds the row of the request it answers |
| ActorRuns.TakenAreAccounted | src/connection/actor.rs:351-418 | In every actor run the requests taken are those given an identity, those refused before the wire, and the one at which the pool ran out |
| ActorRuns.RefusedWereTold | src/connection/actor.rs:357-395 | In every actor run each refused request was told: its hook always, its waiter unless it had gone |
| ActorLaws.OffersExactly | src/connection/actor.rs:286-310 | In every reachable state a pass that finds room offers a close exactly when its source is open and fewer than 8 closes were begun since the last reset, and a request exactly when its source is open and no close is queued or 8 were; without room it offers neither |
| ActorLaws.SomethingCanBeTaken | src/connection/actor.rs:286-310 | In every reachable state in which a pass finds room and something queued, something queued can be taken |
| ActorLaws.WritesGoOn | src/connection/actor.rs:351-455 | Over every run, from the action that begins a frame a write is in progress, with the bytes the socket took since then behind it, exactly until those are the whole of its length |
| ActorLaws.FramesAreWhole | src/connection/actor.rs:286-455 | No frame is begun before the socket has taken all of the one begun before |
| ActorLaws.WakeIsExact | src/connection/actor.rs:533-541 | In every reachable state the time asked for has come exactly when the deadline of a row has, or silence is complete |
| ActorLaws.HistoryIsRead | src/connection/actor.rs:421-523 | The readings the silence clock is judged by are those of the run: one at each message, write and tick that went well |
| ActorLaws.MessageOutcome | src/connection/actor.rs:458-495 | A chained message ends the connection unrouted; any other is routed, and ends it with the table's failure or else where it says that the session is deleted |
| ActorLaws.TimerOutcome | src/connection/actor.rs:498-511 | In every reachable state a tick after too long a silence ends the connection with that; any other expires the rows |
| ActorLaws.TakeOutcome | src/connection/actor.rs:351-418 | A dispatch whose caller has gone is refused as lost, one without an id ends the connection, one that cannot be framed is refused as such, and any other is written from its first byte |
| ActorLaws.SocketOutcome | src/connection/actor.rs:310-455 | A write of no bytes and a failed socket end the connection |
| Progress.ProgressOnlyMovesOn | src/resource/progress.rs:103-288 | Over any interleaving of the critical sections each ticket leaves the group once and for all, `written` never decreases, and once final no ticket is live or on its way out and it never changes |
| Progress.SettledExactly | src/resource/progress.rs:170-244 | After any interleaving a final prefix is one of a write that has stopped issuing and whose tickets have all left; once nobody has still to settle or to signal, the prefix is final, and signalled, exactly then |
| Progress.NotSettledYet | src/resource/progress.rs:233-244 | There is an interleaving in which the group is empty, issuing has stopped and the prefix is not final yet |
| Progress.FinishingSignals | src/resource/progress.rs:119-190 | From any reachable state in which issuing has stopped and every ticket is marked, those at work need only finish for the signal to go out |
| Progress.WrittenIsAcknowledged | src/resource/progress.rs:258-288 | Over any interleaving each byte of the prefix was acknowledged by the reply to a chunk that offered it |
| WriteEnds.RunFollows | src/connection/actor.rs:286-418 | In every actor run each request queued, close or not, is in its queue still, or stands where taking it brought it, under an identity or a refusal of its own |
| WriteEnds.QueuedRequestEndsOnce | src/connection/actor.rs:276-418 | Once the connection is over, against any server, each request queued, close or not, has one fate of its own: never sent and dropped, refused and told, or ended in the table once, to the hook and the waiter arranged for it |
| WriteEnds.WriteSettles | src/resource/progress.rs:110-126 | Once the connection that carried the chunks of a write is over and its guard is dropped, against any server and over any interleaving, every ticket has left, and those at work need only finish for the prefix to be final and the signal to go out |
| WriteEnds.PrefixIsOfReplies | src/resource/progress.rs:94-109 | Over any interleaving each byte of the prefix was acknowledged by a successful reply with which the table ended the request of a chunk that offered it there |
| InPlaceProgress.WriteProgress.Register | src/resource/progress.rs:133-145 | The first registration takes; a second is refused and changes nothing |
| InPlaceProgress.WriteProgress.Record | src/resource/progress.rs:259-288 | What a reply acknowledged is recorded, clamped to what was offered, unless it meets what was recorded before |
| InPlaceProgress.WriteProgress.Mark | src/resource/progress.rs:233-236 | Marking a ticket says whether it was the first to |
| InPlaceProgress.WriteProgress.CountOut | src/resource/progress.rs:237-242 | A marked chunk is counted out, and the group has still to be settled |
| InPlaceProgress.WriteProgress.Settle | src/resource/progress.rs:170-185 | Freezes the prefix, once, where the write has stopped issuing and the count is zero |
| InPlaceProgress.WriteProgress.Ended | src/resource/progress.rs:231-290 | The end of a chunk records, then marks, counts out, settles and signals: what one holder does when nothing falls between |
| InPlaceProgress.WriteProgress.DropChunk | src/resource/progress.rs:246-256 | A dropped ticket leaves the group if it was not marked before |
| InPlaceProgress.WriteProgress.DropIssuing | src/resource/progress.rs:196-205 | Dropping the guard clears the flag, then settles and signals |
| Chunks.FilledIsPartition | src/resource/file.rs:191-206 | A short answer leaves every byte in exactly one of the five places, and less owed |
| Chunks.RequeuedIsPartition | src/resource/file.rs:171-182 | A chunk sent back leaves every byte in exactly one of the five places, and as much owed |
| Chunks.InFlightIsUncovered | src/resource/file.rs:198-203 | What a chunk in flight asks for is not covered, so the overlap error is unreachable |
| Transfer.TopUp | src/resource/file.rs:136-163 | Topping up settles nothing, keeps the accounts that bound how often the loop asks, leaves fewer than `depth` in flight only with nothing to ask for, and issues no chunk longer than the connection allows, whatever other traffic does to the connection between the reading of a chunk's size and of its flag |
| ReadLoop.AnswersMean | src/resource/file.rs:171-206 | What each answer to a read does, status by status: the three size refusals send a large chunk back whole and fail the read otherwise; an end of file drops the rest of the chunk; any other status fails the read |
| WriteLoop.AnswersMean | src/resource/file.rs:285-316 | The same of a write: what was acknowledged is covered, the rest is sent again, and nothing acknowledged is a failure |
| ReadLoop.ReadSpan | src/resource/file.rs:117-210 | Ends against every server within length + depth answers; each covered byte of the buffer is the byte the one answer covering it gave for that place of the file, and the rest is untouched; without an end of file all is covered; it fails exactly when an answer does, with what that answer says, status by status; a large chunk refused for its size is asked for again, all of it; and the connection is small-buffer afterwards exactly if it was, other traffic made it so, or an answer bore one of the three statuses |
| WriteLoop.Acknowledge | src/resource/file.rs:285-316 | What one reply to a write leaves to send again, and what it fails with |
| WriteLoop.WriteSpan | src/resource/file.rs:214-282 | Ends against every server within length + depth answers; succeeds exactly when no answer fails, and then every byte was acknowledged, once, and what was refused for its size was sent again; otherwise carries the first failure, status by status, and the handle's prefix, having sent nothing after it; wherever the handle was registered, it covers what the answers, in turn, claimed of it, and nothing else; the connection is small-buffer afterwards exactly as for a read |
| WriteLoop.HeardIsClaimed | src/resource/progress.rs:270-276 | Wherever a handle was registered, each byte it newly covers is claimed by some answer |
| WriteLoop.HeardIsAcked | src/resource/progress.rs:270-276 | Of a handle registered at or before the place written, what is newly covered is bytes acknowledged, each at its place, and all of those if none of the place was covered |
| Files.File.ReadExactAt | src/resource/file.rs:533-548 | Succeeds only with every byte of the buffer given by one answer for its place; else names the first stretch no answer gave, which takes an end of file |
| Files.File.ReadToEnd | src/resource/file.rs:630-652 | What is returned is all that was given, each byte in its place, and is short only at an end of file; a hole is an error |
| Files.File.WriteAllAt | src/resource/file.rs:560-579 | Refuses a handle already used; otherwise, with a handle or without, success means every byte was acknowledged and failure carries a number of first bytes that were; a handle given is left with that number as its final prefix |
| PduProofs.FeedTwice | src/rpc/pdu.rs:465-471 | Feeding a collector twice is feeding it once with both joined: the same first failure, or the same collector |
| PduProofs.BoundariesDoNotMatter | src/rpc/pdu.rs:244-265 | However what a collector is fed is cut, the outcome is that of feeding it all at once |
| PduProofs.CollectsExactly | src/rpc/pdu.rs:463-553 | An answer is collected of all that is fed exactly when it is the PDUs of a reply to the call, first and last flags in place, within both caps, and then what splits; it is their payloads joined |
| PduProofs.FragmentedStubIsReassembled | src/rpc/pdu.rs:473-532 | A stub within the byte cap, cut into any shares with any prologues and further flags, and fed in any pieces, is collected exactly when its fragments are within the fragment cap, and refused for their number otherwise |
| PduProofs.FittingReplyRefused | src/rpc/pdu.rs:52-59 | One fragment more than the cap, all of them empty: a reply that fits in the byte cap is refused |
| PduProofs.FullFragmentsAreFew | src/rpc/pdu.rs:49-59 | Fragments of the negotiated size carry any stub that fits within the fragment cap |
| PduProofs.PastLast | src/rpc/pdu.rs:474-479 | What follows the last fragment changes nothing collected, and fails only by a length below the header's |
| PduOutcomes.CollectsAsExplained | src/rpc/pdu.rs:244-553 | What becomes of any stream, however it is cut: the PDUs of the reply that it begins with, and the first thing after them, told from the bytes, give the one answer or failure there is, its numbers and the status of a fault included |
| PipeProofs.FetchesExactly | src/rpc/pipe.rs:330-357 | The read loop answers exactly when some first reads, none empty, are the PDUs of a reply and what splits, the last PDU ending within the last of them |
| PipeProofs.FetchesAsExplained | src/rpc/pipe.rs:330-357 | What becomes of any reads: that of the bytes read up to the first point at which they are no unfinished reply, or there is nothing more |
| PipeProofs.ReadsAlikeExactly | src/rpc/pipe.rs:330-357 | Every way of reading a stream answers alike exactly when the stream is not a reply with something behind it that does not split |
| PipeProofs.TrailingZeros | src/rpc/pipe.rs:330-357 | A reply and sixteen zero bytes behind it: answered when read apart, refused when read together |
| PipeProofs.FragmentedStubIsFetched | src/rpc/pipe.rs:330-357 | A stub within the byte cap, cut and read in any way, is fetched exactly when its fragments are within the fragment cap |
| PipeProofs.ReadingIsBounded | src/rpc/pdu.rs:52-59 | While the loop reads on it has been given fewer bytes than the fragment cap and one fragment more can hold, whatever the server sends |
| InPlacePipe.Fill | src/rpc/pipe.rs:330-357 | The loop in place ends against every pipe, having read until the reply was complete, a read gave nothing or a PDU failed, and not on |
| InPlacePipe.Exchange | src/rpc/pipe.rs:250-282 | What a transaction answered counts as a first read; the answer is that of the read loop, however much more the pipe would give |
| InPlacePdu.PduStream.Next | src/rpc/pdu.rs:252-264 | Takes the next whole PDU off the pending bytes, and leaves them alone where there is none |
| InPlacePdu.Collector.Feed | src/rpc/pdu.rs:465-471 | The loop in place is the drain of the specification, its partial state on failure included |
| InPlacePdu.Collector.Accept | src/rpc/pdu.rs:473-532 | Taking a PDU in place is the step, in the order of its refusals |
| SpnegoProofs.PutLengthIsMinimal | src/auth/spnego.rs:179-194 | Of all definite lengths that declare the same, the written one is the shortest and the only one as short |
| SpnegoProofs.FirstByteWeighs | src/auth/spnego.rs:141-165 | Lengths are big-endian |
| SpnegoProofs.ReadUndoesPut | src/auth/spnego.rs:112-194 | Reading undoes writing, whatever follows, at every depth allowed, for lengths that fit a 64-bit word |
| SpnegoProofs.ReadMore | src/auth/spnego.rs:112-165 | What is read does not depend on what follows it |
| SpnegoProofs.ReadsTree | src/auth/spnego.rs:119-139 | A value nested in any way, each level definite, padded or indefinite, reads back to its content and length exactly when its indefinite levels are within the depth limit, and is too deep otherwise |
| SpnegoExact.ReadsExactly | src/auth/spnego.rs:112-165 | A value is read exactly when the bytes begin with a tree whose indefinite levels are within the depth limit, and is then that tree's tag, content and length |
| SpnegoProofs.ResponseReads | src/auth/spnego.rs:262-294 | The token of a response of any shape the grammar passes over is found, exactly when no level read is too deep |
| SpnegoProofs.WrappedResponseReads | src/auth/spnego.rs:263-270 | And inside a GSS-API wrapper |
| SpnegoExact.FoundExactly | src/auth/spnego.rs:262-294 | A token is found exactly when it is an octet string in the first field of its kind of a response, after fields of the other three kinds, in a wrapper or without |
| SpnegoExact.RefusedForCause | src/auth/spnego.rs:112-165 | A value is refused for its depth, for want of a length, for a length of too many bytes or of too few |
| SpnegoExact.RefusedCutShort | src/auth/spnego.rs:112-165 | A value with fewer bytes than its length is refused for that, where its header ends |
| SpnegoExact.RefusedUnended | src/auth/spnego.rs:119-139 | A level of indefinite length in which nothing but whole values stands is refused for want of an end |
| SpnegoExact.RefusedByTag | src/auth/spnego.rs:168-294 | A value under another tag than belongs there is refused by both tags, and fields without the token for want of it |
| SpnegoProofs.RewrittenReads | src/auth/spnego.rs:235-294 | With any constructed level of what the client writes re-encoded, the token read is the token written |
| SpnegoProofs.RewrittenReadsWrapped | src/auth/spnego.rs:235-294 | The same, wrapped |
| SpnegoProofs.ResponseTokenOfNegTokenResp | src/auth/spnego.rs:235-294 | The token of a response is the one it was written with |
| InPlaceSpnego.ReadTlv | src/auth/spnego.rs:112-165 | The cursor loops read what the specification reads, errors and their order included |
| InPlaceSpnego.PutTlv | src/auth/spnego.rs:181-194 | The word's bytes less its leading zeros are the shortest form of the length |
| InPlaceSpnego.ResponseToken | src/auth/spnego.rs:262-294 | The loop over the fields finds what the specification finds |

## Left out

- Sockets, tasks, wakers, channels, tracing and poisoned locks: steps are atomic, queues are sequences, and the time is passed in. A frame that has only partly arrived is the actor step in which nothing comes in.
- Field-level decoding of the wire (`src/wire/`): a message carries its decoded fragment, its data or its acknowledged count, or the fact that it does not decode.
- NTLM, the session handshake, error and status tables, UNC parsing, tree verbs and examples: straight-line code or foreign primitives.
- The connection cache and its sweeper (`src/client.rs`) and the reader, writer and listing adapters (`src/resource/adapter.rs`, `src/resource/listing.rs`): they poll the loops that are modelled.
- Rows of the table hold their reassembly as a value; the classes of `Assembly.dfy` show the same steps in place, and aliasing between the two is not modelled.
- The `Drop` of what a request still holds when it is never sent: `WriteEnds.dfy` says which requests those are, and takes it that their tickets are then marked.
- Fairness between closes and requests without condition: the run of closes is counted afresh whenever the close queue is empty, so only the bound while both queues stay non-empty holds of the code.
- The order independence of the setup words of a reply: the last non-empty ones win, so they depend on the order.
- WriteLoop.WriteSpan: the handle hears of a chunk in the same step in which the loop acts on its answer; in the source the handle hears first, and the interleavings in between are those of `Progress.dfy`.
- The lives of requests at a tick that fails halfway: `RequestLife.dfy` speaks of runs in which each tick ran to its end. One that reaches the budget of spent ids ends the connection, and with it every request that is left.
- The bind, its acknowledgement and the request PDU (`src/rpc/pdu.rs:303-412`), and the `NegTokenInit` (`src/auth/spnego.rs:209-228`): fixed layouts with no decoder on this side.
- Reads of the pipe that fail or are refused, which end the call with that failure, and the second attempt of a call whose transaction failed (`src/rpc/pipe.rs:204-235`), which begins again with a collector of its own.
- SpnegoProofs.ReadUndoesPut: lengths are below 2^64, the word of the platforms the source is built for.
