# Femtiki kernel and vasm 68k backend: model and proofs

Two independent parts of the rf68000 software are modelled here in Dafny; they share `division.dfy` only.

**The Femtiki kernel core** (files `femtiki_*.dfy`). Threads are kept on 32 circular ready rings
and one delta-encoded timeout list; mailboxes hold a queue of messages, with repeats counted in the
last block, and a queue of waiting threads to whom messages are handed directly. The words of the
tables (`ThreadTables.ThreadTable`, `Mail.MessageStore`, `Kern.Kernel`) are changed step by step by
methods that follow the routines of `tcb.c`, `msg.c` and `Femtiki_kern.c`; each method is proved to
do to the words what a function on sequences, queues and histories says. On these functions
`KernelRuns` builds a state machine whose steps are the kernel's calls and interrupts, and the
theorems are about all its runs: where each thread is, what a mailbox holds, who is woken by which
message, which steps switch threads and to whom, on which tick a sleeper or a timed wait ends, and how
long a ready thread waits for its turn. Every `panic` of the list routines is an `assert false` in its branch, so none is reached.

**The vasm 68k backend** (files `vasm_*.dfy`). The peephole rewritings of constants, of
multiplications and divisions by powers of two, and of MOVEM with one or two registers are proved
to leave the same registers and memory as the instruction they replace, for every machine state;
`write_val` is proved bit by bit; the code that `eval_instruction` writes is proved to the bit, to be
as long as `iplist_size` computed, and to give the operands back when it is read the way a processor
reads it. Instruction meanings are those of section 4, and extension word formats those of section 2,
of the M68000 Family Programmer's Reference Manual.

Some laws hold only under a condition; where a law is stated with "if and only if", the condition is
proved to be exact:

- With an empty message pool the expiry loop ends if and only if no expired waiter's turn comes
  (`TickLoop.ExpireKeeps` and `TickLoop.ExpireSpins`).
- The expiry loop takes an expired sleeper off together with what it has run below zero, and puts all
  others off by as much: the lag (`TickLag.ExpireShifts`). What a sleeper has left goes down by exactly
  what is charged if and only if no tick finds a plain sleeper below zero (`KernelWaking.ExactClock`).
  In a run without missed ticks the steps tell it: each tick takes exactly one off if and only if no
  thread asks for a negative time before the last tick (`KernelWaking.ExactTicks`).
- Ticks that were missed before a thread went to sleep are charged to it too, so it wakes up as many
  ticks earlier (`KernelWaking.ClockLaw`); counted in charged ticks nobody wakes too early in any run
  (`KernelWaking.NeverEarly`).
- The timer message of a thread whose wait has timed out goes to the first thread in line at its
  mailbox, which is the one that timed out only if it is the first
  (`KernelTiming.TimerWakesTheFirstInLine`).
- A message adds exactly itself to what a queue stands for if and only if it leaves the repeat field
  alone or is coalesced (`Boxes.EnqueueExpands`).
- Queueing leaves a queue and the pool in order if and only if the policy drops nothing from the queue
  (`Overflows.QueueWords.MBXQueueMsg`): dropping the oldest message frees the head's successor, and
  trimming the newest leaves the link of the new last block as it was. So sending is a step of the
  model only where nothing is dropped.
- Checking for a message without removing it does not notice an empty mailbox
  (`Mail.MessageStore.FMTK_CheckMsg`).
- In the earlier revision dropping the oldest messages down to a limit of one loses the queue, and a
  limit of zero runs off its end (`BoundedQueues.LimitOneLosesTheQueue`,
  `BoundedQueues.LimitZeroRunsOff`).
- A MOVEM that loads words into data registers, or whose first load overwrites the index register of
  its address, is not what the MOVEs do; nor is a predecrement MOVEM whose register list is an immediate
  number, unless the mask is its own mirror image, which a mask of one register never is
  (`Movem.OptimizeMovem`, `Movem.OneMirrored`, `Movem.TwoMirrored`).
- The operand of `cmp VX,<ea>` in its banked form goes to a place that writes a register number only,
  so its extension words are counted but not written (`CodeSize.OperandAgrees`, for
  software/vasm/cpus/rf68000/opcodes.h:291).
- A displacement reads back from the code if and only if it fits the bytes that hold it, and that is
  when the range check does not report it (`Decoder.EaRoundTrip`, `Decoder.ChecksAreExact`).
- A written field is all that changes if and only if no bit of the value spills to its left
  (`Fields.OutsideKept`).

## Model

| member | source | states |
|---|---|---|
| Timeouts.InsertDeadlines | software/Femtiki/source/kernel/tcb.c:268-314 | inserting gives the thread the deadline it asked for, of either sign, and moves no other deadline |
| Timeouts.RemoveDeadlines | software/Femtiki/source/kernel/tcb.c:319-344 | removing takes out that thread alone and moves no other deadline |
| Timeouts.PopDeadlines | software/Femtiki/source/kernel/tcb.c:350-367 | taking the head off brings every other deadline forward by the head's delta |
| Timeouts.ChargeDeadlines | software/Femtiki/source/kernel/Femtiki_kern.c:431-432 | charging the head brings every deadline forward by the charge |
| Timeouts.InsertKeepsShape | software/Femtiki/source/kernel/tcb.c:268-314 | handles stay distinct and no delta but the head's is negative |
| Timeouts.RemoveKeepsShape | software/Femtiki/source/kernel/tcb.c:319-344 | the same after a removal |
| ThreadLists.InsertReadyWellFormed | software/Femtiki/source/kernel/tcb.c:184-218 | appending to a ring keeps every thread on one list only |
| ThreadLists.RemoveReadyWellFormed | software/Femtiki/source/kernel/tcb.c:224-262 | so does deleting from a ring |
| ThreadLists.InsertTimeoutWellFormed | software/Femtiki/source/kernel/tcb.c:268-314 | so does inserting into the timeout list |
| ThreadLists.RemoveTimeoutWellFormed | software/Femtiki/source/kernel/tcb.c:319-344 | so does removing from it |
| ThreadLists.PopTimeoutWellFormed | software/Femtiki/source/kernel/tcb.c:350-367 | so does popping it |
| ThreadLists.RotateWellFormed | software/Femtiki/source/kernel/Femtiki_kern.c:285-286 | so does moving the head of a ring |
| ThreadTables.FindTimeoutPlace | software/Femtiki/source/kernel/tcb.c:286-294 | the walk finds the place and the remaining delta at which the list with the thread inserted differs from the list |
| ThreadTables.ThreadTable.constructor | software/Femtiki/source/kernel/Femtiki_kern.c:947-997 | the blocks hold the first thread, running and on no ring, and all others free in order |
| ThreadTables.ThreadTable.TCBInsertIntoReadyQueue | software/Femtiki/source/kernel/tcb.c:184-218 | the words hold the ring of the thread's priority with the thread at its tail; a bad priority changes nothing; no panic is reached |
| ThreadTables.ThreadTable.TCBRemoveFromReadyQueue | software/Femtiki/source/kernel/tcb.c:224-262 | the words hold the ring without the thread, the rest in cyclic order, its successor being the head if it was the head |
| ThreadTables.ThreadTable.TCBInsertIntoTimeoutList | software/Femtiki/source/kernel/tcb.c:268-314 | the words hold the list with the thread inserted at its deadline; no panic is reached |
| ThreadTables.ThreadTable.TCBRemoveFromTimeoutList | software/Femtiki/source/kernel/tcb.c:319-344 | the words hold the list without the thread, whose delta goes to its successor |
| ThreadTables.ThreadTable.TCBPopTimeoutList | software/Femtiki/source/kernel/tcb.c:350-367 | the head is returned and off the list, or 0 if the list is empty |
| ThreadWords.InsertionHolds | software/Femtiki/source/kernel/tcb.c:184-218 | the link writes of an insertion make the ring one thread longer at its tail and leave every other list alone |
| ThreadWords.RemovalHolds | software/Femtiki/source/kernel/tcb.c:224-262 | the link writes of a removal delete the thread from its ring, if it is on it, and leave every other list alone |
| ThreadWords.InsertTimeoutHolds | software/Femtiki/source/kernel/tcb.c:296-312 | linking a block in at the place found holds the inserted list |
| ThreadWords.CutHolds | software/Femtiki/source/kernel/tcb.c:319-367 | linking a block out holds the list without it, the carried ticks added to its successor |
| Boxes.EnqueueExpands | software/Femtiki/source/kernel/msg.c:336-353 | queueing adds exactly the message to what the blocks stand for, if and only if it leaves the repeat field alone or is coalesced; the counter does not overflow |
| Boxes.CountDrifts | software/Femtiki/source/kernel/msg.c:274-346 | mq_count and the number of blocks drift apart exactly when a message is coalesced |
| Boxes.MessageAccounted | software/Femtiki/source/kernel/msg.c:274-314 | every message is accepted or counted as missed, saturating; missed if and only if the policy keeps the oldest and the mailbox is full |
| Boxes.RepeatsShareABlock | software/Femtiki/source/kernel/msg.c:336-346 | the first 65536 repeats of a message share one block that counts them, and the next takes a block of its own |
| Boxes.OthersQueueUp | software/Femtiki/source/kernel/msg.c:347-353 | a different message always takes a block of its own |
| Boxes.DequeueCounts | software/Femtiki/source/kernel/msg.c:404-421 | a dequeue lowers the count also when it finds nothing, and takes out the first block |
| Boxes.EmptyCounts | software/Femtiki/source/kernel/msg.c:613-629 | emptying gives out all that was queued and takes one more off the count than there were blocks |
| Boxes.QueueMsgKeeps | software/Femtiki/source/kernel/msg.c:267-356 | queueing keeps the FIFO law, mq_count at or above the number of blocks, and the limits |
| Boxes.DequeueMsgKeeps | software/Femtiki/source/kernel/msg.c:404-421 | so does dequeueing |
| Boxes.HandOverKeeps | software/Femtiki/source/kernel/msg.c:708-726 | so does handing a message straight to a waiting thread |
| Boxes.EmptyBoxKeeps | software/Femtiki/source/kernel/msg.c:613-629 | so does emptying, which leaves no block queued |
| Blocks.TakePartitioned | software/Femtiki/source/kernel/msg.c:199-219 | allocating keeps every block in one place only |
| Blocks.GivePartitioned | software/Femtiki/source/kernel/msg.c:229-252 | so does freeing |
| Blocks.AppendPartitioned | software/Femtiki/source/kernel/msg.c:336-353 | so does queueing |
| Blocks.TakeHeadPartitioned | software/Femtiki/source/kernel/msg.c:404-421 | so does dequeueing |
| Blocks.BlocksConserved | software/Femtiki/source/kernel/msg.c:199-421 | between calls the pool and the queues together hold all NR_MSG blocks |
| StoreWords.MessagesConserved | software/Femtiki/source/kernel/msg.c:199-421 | the free blocks and the queued messages add up to NR_MSG, and nMsgBlk is the number of queued ones, counted downwards |
| StoreWords.AppendHolds | software/Femtiki/source/kernel/msg.c:336-353 | the words hold the longer queue after a block is hung on, and every other queue and the pool |
| StoreWords.CoalesceHolds | software/Femtiki/source/kernel/msg.c:339-346 | and after a repeat is counted |
| StoreWords.DequeueHolds | software/Femtiki/source/kernel/msg.c:404-421 | and after the head is taken |
| StoreWords.JoinHolds | software/Femtiki/source/kernel/msg.c:432-462 | the words hold the waiting threads of every mailbox after one joins |
| StoreWords.LeaveHolds | software/Femtiki/source/kernel/msg.c:475-505 | and after the first leaves |
| Mail.MessageStore.constructor | software/Femtiki/source/kernel/Femtiki_kern.c:1056-1068 | the message and mailbox lists as initialisation leaves them, the mailboxes cut off after the 128th |
| Mail.MessageStore.AllocMsg | software/Femtiki/source/kernel/msg.c:199-219 | the pool's first block with the message in it, or 0 if and only if the pool is empty |
| Mail.MessageStore.FreeMsg | software/Femtiki/source/kernel/msg.c:229-252 | the block is in front of the pool |
| Mail.MessageStore.CountRepeat | software/Femtiki/source/kernel/msg.c:339-346 | a repeat is counted in the last block and its own block freed, if and only if it coalesces |
| Mail.MessageStore.LinkAtTail | software/Femtiki/source/kernel/msg.c:349-353 | the block is the last of the queue |
| Mail.MessageStore.Refuse | software/Femtiki/source/kernel/msg.c:306-314 | the block is back in the pool and counted as missed |
| Mail.MessageStore.MBXQueueMsg | software/Femtiki/source/kernel/msg.c:267-356 | the message is queued, coalesced or refused as the policy says, with the matching result |
| Mail.MessageStore.MBXDequeueMsg | software/Femtiki/source/kernel/msg.c:404-421 | the oldest block, or 0 if and only if no block is queued |
| Mail.MessageStore.MBXQueueThread | software/Femtiki/source/kernel/msg.c:432-462 | the thread is the last in line at the mailbox; no panic is reached |
| Mail.MessageStore.MBXDequeueThread | software/Femtiki/source/kernel/msg.c:475-505 | the first in line is off the mailbox and off the timeout list |
| Mail.MessageStore.FMTK_PostMsg | software/Femtiki/source/kernel/msg.c:747-837 | a waiting thread gets the message and is ready, or the message is queued; every error result |
| Mail.MessageStore.DepositMsg | software/Femtiki/source/kernel/msg.c:790-806 | the message is in the queue, or its block back in the pool |
| Mail.MessageStore.MakeReceiverReady | software/Femtiki/source/kernel/msg.c:807-833 | the dequeued thread is on its ring and holds the message |
| Mail.MessageStore.FetchMsg | software/Femtiki/source/kernel/msg.c:880-902 | the oldest message is returned and its block freed |
| Mail.MessageStore.FMTK_CheckMsg | software/Femtiki/source/kernel/msg.c:970-1015 | the oldest message is returned, and taken out if asked for, or the error says why not; without removal an empty mailbox returns the words before the table |
| Mail.MessageStore.FMTK_EmptyMbx | software/Femtiki/source/kernel/msg.c:613-629 | the loop ends with no block queued |
| Mail.MessageStore.FMTK_AllocMbx | software/Femtiki/source/kernel/msg.c:517-552 | the next mailbox with the default policy, or an error if there is none |
| Mail.MessageStore.SetMbxMsgQueStrategy | software/Femtiki/source/kernel/msg.c:635-654 | policy and size are set, for the owner or the system only, and a policy number above 2 is refused |
| KernelInvariant.PickKeeps | software/Femtiki/source/kernel/Femtiki_kern.c:304-325 | the choice always falls on a ready thread that may run here; the fallback is never taken |
| KernelInvariant.ReschedKeeps | software/Femtiki/source/kernel/Femtiki_kern.c:331-369 | switching keeps the invariant, also away from a thread that has just blocked |
| KernelInvariant.DequeueKeeps | software/Femtiki/source/kernel/msg.c:475-505 | the dequeued thread is on no list and waits nowhere |
| KernelInvariant.DeliverKeeps | software/Femtiki/source/kernel/msg.c:807-833 | after a hand-over the invariant holds and the receiver is on its ring with the message |
| KernelInvariant.DepositKeeps | software/Femtiki/source/kernel/msg.c:790-806 | queueing a message keeps the invariant |
| KernelInvariant.FetchKeeps | software/Femtiki/source/kernel/msg.c:880-902 | taking a message keeps the invariant |
| KernelInvariant.QueueThreadKeeps | software/Femtiki/source/kernel/msg.c:904-921 | blocking keeps the invariant |
| KernelRuns.SetPriorityKeeps | software/Femtiki/source/kernel/Femtiki_kern.c:916-934 | setting a priority keeps the invariant and every other thread where it is |
| KernelRuns.StepKeeps | software/Femtiki/source/kernel/Femtiki_kern.c:272-934 | every step of the kernel keeps the invariant |
| KernelRuns.RunKeeps | software/Femtiki/source/kernel/Femtiki_kern.c:272-934 | so does every run |
| KernelRuns.InitialInv | software/Femtiki/source/kernel/Femtiki_kern.c:1056-1109 | start-up establishes it |
| KernelTheorems.ThreadsArePlaced | software/Femtiki/source/kernel/tcb.c:184-367 | in every reachable state a thread is on at most one of the rings and the timeout list, and its flags, priority and hWaitMbx say where; only the first thread may be flagged ready off every ring |
| KernelTheorems.MailboxesAreChannels | software/Femtiki/source/kernel/msg.c:336-421 | in every reachable state what came out of a mailbox, followed by the expansion of its blocks, is what was accepted, in order; it never holds a message and a waiter; mq_count covers its blocks; dequeueing fails only when empty |
| KernelTheorems.SetPriorityMoves | software/Femtiki/source/kernel/Femtiki_kern.c:916-934 | a ready thread moves to the tail of its new level and every other ring stays as it is |
| KernelTheorems.ReceptiveIsSteady | software/Femtiki/source/kernel/msg.c:284-298 | all that sending demands of a kernel in order is that drop-oldest does not overflow |
| KernelTheorems.SendWakes | software/Femtiki/source/kernel/msg.c:694-732 | a message for a mailbox with waiters wakes the first of them with that message, and nobody else |
| KernelTheorems.PhaseStays | software/Femtiki/source/kernel/msg.c:663-947 | no step makes a thread that does not wait start or end a wait but its own |
| KernelTheorems.WokenStays | software/Femtiki/source/kernel/msg.c:929-946 | no step takes the message away from a woken receiver |
| KernelTheorems.ReceiverGetsItsMessage | software/Femtiki/source/kernel/msg.c:856-947 | a blocked receiver returns exactly the message whose send woke it, whatever happens before it runs |
| TickLoop.ExpireOneKeeps | software/Femtiki/source/kernel/Femtiki_kern.c:403-429 | one turn of the expiry loop keeps the invariant and moves threads from the timeout list to their rings only |
| TickLoop.ExpireOneProgress | software/Femtiki/source/kernel/Femtiki_kern.c:403-429 | one turn shortens the timeout list, or the line of waiters at the head's mailbox |
| TickLoop.ExpireKeeps | software/Femtiki/source/kernel/Femtiki_kern.c:403-438 | the loop ends with the list empty or its head not expired, and every thread it took off is on its ring |
| TickLoop.ExpireSpins | software/Femtiki/source/kernel/Femtiki_kern.c:410-418 | with an empty pool and an expired waiter at its turn, the loop comes to a state that no turn changes |
| TickLag.TurnShifts | software/Femtiki/source/kernel/Femtiki_kern.c:403-429 | one turn of the loop keeps the sum of deadline and lag for all who stay, and takes off plain sleepers that have nothing left of it |
| TickLag.ExpireShifts | software/Femtiki/source/kernel/Femtiki_kern.c:403-438 | the whole loop puts everybody off by exactly the lag, takes off exactly the plain sleepers without time left even then, and ends without lag |
| TickLag.ExpireInTime | software/Femtiki/source/kernel/Femtiki_kern.c:403-438 | it leaves the deadline of a thread that stays alone if and only if no plain sleeper has run below zero, and never brings it forward |
| TickLag.PlainHeadLag | software/Femtiki/source/kernel/Femtiki_kern.c:426-429 | with a plain sleeper in front the lag is what the head has run below zero |
| TickLag.ExpireAlone | software/Femtiki/source/kernel/Femtiki_kern.c:410-418 | a thread alone in line at its mailbox stays there if and only if it has time left, the lag added; else it has the timer message and is on its ring |
| KernelTiming.StepSleepers | software/Femtiki/source/kernel/Femtiki_kern.c:898-911 | no step but the tick charges anybody; the list only gains the running thread or loses a waiter |
| KernelTiming.OtherStepTiming | software/Femtiki/source/kernel/Femtiki_kern.c:898-911 | no step but the tick changes what a sleeper has left |
| KernelTiming.TickTiming | software/Femtiki/source/kernel/Femtiki_kern.c:380-452 | a tick that counts leaves a sleeper asleep if and only if what it has left plus the lag is positive, takes off the charge less the lag, and so exactly the charge if and only if no plain sleeper has run below zero; a missed tick changes nothing |
| KernelTiming.LagMeans | software/Femtiki/source/kernel/Femtiki_kern.c:403-438 | the lag is how far the sleeper that is furthest behind has run below zero |
| KernelTiming.LagAfterTick | software/Femtiki/source/kernel/Femtiki_kern.c:431-434 | a tick after which nobody is below zero is one whose missed ticks are less than what every remaining sleeper had left; without missed ticks no lag is left |
| KernelTiming.LagAfterOther | software/Femtiki/source/kernel/Femtiki_kern.c:898-911 | no other step changes the lag but a sleep for a negative time that is longer |
| KernelTiming.SleepStarts | software/Femtiki/source/kernel/Femtiki_kern.c:898-911 | a thread that sleeps has exactly the time it asked for left |
| KernelTiming.TimerWakesTheFirstInLine | software/Femtiki/source/kernel/Femtiki_kern.c:410-418 | a timer message wakes the first in line at the mailbox, who is the thread that timed out if and only if that one is first |
| KernelWaking.ClockLaw | software/Femtiki/source/kernel/Femtiki_kern.c:403-438 | over any run in which a thread sleeps on, it has left what it had, less what was charged, plus the lags that the ticks met; charged are the ticks, missed ones with the next that counts |
| KernelWaking.ExactClock | software/Femtiki/source/kernel/Femtiki_kern.c:403-438 | the clock is exact if and only if no tick of the run meets a plain sleeper below zero |
| KernelWaking.NextTickWakes | software/Femtiki/source/kernel/Femtiki_kern.c:403-438 | the next tick that counts leaves the thread asleep if and only if less was charged than it had left, all lags added; else it is on its ring |
| KernelWaking.NeverEarly | software/Femtiki/source/kernel/Femtiki_kern.c:403-438 | over any run a thread sleeps on as long as less has been charged than it had left |
| KernelWaking.CountsDown | software/Femtiki/source/kernel/Femtiki_kern.c:403-438 | while no tick meets a plain sleeper below zero, a thread sleeps through as many ticks as it has left, missed ones included |
| KernelWaking.SleepsThrough | software/Femtiki/source/kernel/Femtiki_kern.c:403-438 | in a run without missed ticks a thread sleeps on if and only if it outlasts the steps, which put it off by the delay that is computed from them alone |
| KernelWaking.DelayPrompt | software/Femtiki/source/kernel/Femtiki_kern.c:426-429 | that delay is zero if and only if no thread asks for a negative time before the last tick |
| KernelWaking.ExactTicks | software/Femtiki/source/kernel/Femtiki_kern.c:403-438 | in such a run every tick takes exactly one off if and only if no thread asks for a negative time before the last tick |
| KernelWaking.SleepsExactly | software/Femtiki/source/kernel/Femtiki_kern.c:403-438 | a thread that sleeps for any time is woken when the steps say; without negative sleeps it is asleep after its number of ticks and on its ring after the next one |
| KernelTimedWait.OtherStepAlone | software/Femtiki/source/kernel/msg.c:904-928 | no step that spares the mailbox, but the tick, does anything to a thread alone in line there |
| KernelTimedWait.TickAlone | software/Femtiki/source/kernel/Femtiki_kern.c:403-438 | a tick that counts leaves it in line if and only if it has time left, the lag added; else it has the timer message |
| KernelTimedWait.WaitsThrough | software/Femtiki/source/kernel/Femtiki_kern.c:403-438 | in a run without missed ticks it waits on if and only if its time limit outlasts the steps, as a sleeper would |
| KernelTimedWait.TimesOutExactly | software/Femtiki/source/kernel/msg.c:904-928 | a thread that waits for at most its limit, alone and sent nothing, is woken by the timer message on exactly the tick after its limit |
| KernelFairness.PickAtTurns | software/Femtiki/source/kernel/Femtiki_kern.c:272-294 | a choice at a level takes the first thread that may run and puts it behind the others; -1 if and only if there is none |
| KernelFairness.RoundRobin | software/Femtiki/source/kernel/Femtiki_kern.c:272-294 | the choices at a level go round its eligible threads in ring order, for ever |
| KernelFairness.OneRound | software/Femtiki/source/kernel/Femtiki_kern.c:272-294 | m choices in a row take each of the m eligible threads exactly once |
| KernelFairness.ReschedIsChoice | software/Femtiki/source/kernel/Femtiki_kern.c:331-369 | every reschedule is such a choice |
| KernelTurns.TickIsChoice | software/Femtiki/source/kernel/Femtiki_kern.c:439-447 | a tick that finds no expired head is one too, or leaves the rings alone |
| KernelTurns.StepIsChoiceOrCalm | software/Femtiki/source/kernel/Femtiki_kern.c:272-934 | every step that makes no thread ready and blocks none is a choice, or leaves rings and count alone |
| KernelFairness.TurnComes | software/Femtiki/source/kernel/Femtiki_kern.c:304-325 | a thread with j others before it is chosen once more than j choices have been made at its level |
| KernelTurns.HighestWaitsBounded | software/Femtiki/source/kernel/Femtiki_kern.c:304-325 | in every run that leaves the ready set alone each of the m threads of the highest level is chosen within 2m choices |
| KernelTurns.LowestWaitsBounded | software/Femtiki/source/kernel/Femtiki_kern.c:308-316 | and each of the m threads of the lowest level within 32m choices |
| KernelTurns.QueueIsAble | software/Femtiki/source/kernel/Femtiki_kern.c:284 | who takes turns at a level are exactly its ready threads of affinity 2 or 63 |
| KernelSwitches.TickSwitches | software/Femtiki/source/kernel/Femtiki_kern.c:396-452 | a tick of a thread of priority 31 is only counted as missed; any other chooses the next thread from the rings after expiry if and only if the priority is below 28 and the thread has run for more than three ticks, else the thread runs on |
| KernelSwitches.ExpireAppends | software/Femtiki/source/kernel/Femtiki_kern.c:403-429 | the expiry loop puts threads behind the ready ones and changes no priority or affinity |
| KernelSwitches.TicksGiveTurns | software/Femtiki/source/kernel/Femtiki_kern.c:439-447 | while the ready set stays, 2m ticks at the end of a time slice give each of the m threads of the highest level its turn |
| KernelSwitches.SendSwitches | software/Femtiki/source/kernel/msg.c:724-732 | sending is posting and then, if and only if a receiver was woken, a choice of the next thread; posting never switches |
| KernelSwitches.WokenIsReady | software/Femtiki/source/kernel/msg.c:807-833 | a woken receiver is behind the ready threads of its level, and nobody else is touched |
| KernelSwitches.ReceiverRunsNext | software/Femtiki/source/kernel/msg.c:724-732 | a receiver of a higher level than all who may run here runs next, unless the choice starts from the lowest level |
| KernelSwitches.ChoiceFallsOn | software/Femtiki/source/kernel/Femtiki_kern.c:304-325 | a choice falls on the first thread that may run here of the highest such level, every 32nd time of the lowest |
| KernelSwitches.SleepGivesWay | software/Femtiki/source/kernel/Femtiki_kern.c:898-911 | a thread that sleeps gives way to one chosen among the others |
| KernelSwitches.WaitGivesWay | software/Femtiki/source/kernel/msg.c:904-928 | so does a thread that blocks at a mailbox |
| KernelSwitches.WhoSwitches | software/Femtiki/source/kernel/Femtiki_kern.c:272-934 | a choice is made in exactly these steps, and in all others the running thread runs on |
| KernelPriorities.StartThreadGets | software/Femtiki/source/kernel/Femtiki_kern.c:828-892 | a started thread has the priority and affinity asked for and is the last of that ring; nobody else is touched; without a free block nothing happens |
| KernelPriorities.IdleAtStart | software/Femtiki/source/kernel/Femtiki_kern.c:1056-1109 | at start-up the idle thread is alone on ring 15 and the first thread is running |
| KernelPriorities.SetPriorityGets | software/Femtiki/source/kernel/Femtiki_kern.c:916-934 | the thread has the priority asked for, is ready if it was, and nobody else is touched |
| KernelPriorities.SetPriorityElsewhere | software/Femtiki/source/kernel/Femtiki_kern.c:916-934 | for a thread that is not ready only its record changes, and a priority out of range changes nothing |
| KernelPriorities.ReschedFlags | software/Femtiki/source/kernel/Femtiki_kern.c:346-353 | after a reschedule the chosen thread is flagged as running and the other as preempted |
| KernelPriorities.TickFlags | software/Femtiki/source/kernel/Femtiki_kern.c:446-447 | so is the running thread after a tick |
| KernelResults.PostTells | software/Femtiki/source/kernel/msg.c:747-837 | E_Ok says that the message was accepted, E_QueFull that it was counted as missed, each other error if and only if its cause holds, and then nothing changed |
| KernelResults.CheckTells | software/Femtiki/source/kernel/msg.c:970-1015 | E_Ok if and only if a message comes out, E_NoMsg if and only if none does |
| KernelResults.WaitTells | software/Femtiki/source/kernel/msg.c:856-928 | waiting takes the oldest message and changes nothing else, or the thread is last in line, not ready, and on the timeout list if and only if its limit is positive |
| KernelResults.AllocGets | software/Femtiki/source/kernel/msg.c:517-552 | a new mailbox is its application's, empty, and keeps the eight newest messages; after the 128th there is none |
| KernelResults.StrategyTells | software/Femtiki/source/kernel/msg.c:635-654 | who may set which policy, and that 1 keeps the oldest, 2 the newest and any other number all messages |
| KernelResults.EmptiedGives | software/Femtiki/source/kernel/msg.c:613-629 | emptying gives every block back to the pool and touches no other mailbox |
| KernelResults.StepLine | software/Femtiki/source/kernel/msg.c:432-505 | in every step a line of waiting threads loses from its front only and gains at its end only |
| KernelResults.LineIsFifo | software/Femtiki/source/kernel/msg.c:432-505 | over any run threads at a mailbox are served in the order in which they came |
| KernelWords.DistinctBound | software/Femtiki/source/kernel/Femtiki_kern.c:291 | the cut-off after NR_TCB blocks never cuts a ring short |
| KernelWords.RotateHolds | software/Femtiki/source/kernel/Femtiki_kern.c:285-286 | writing the head of a ring rotates it |
| KernelWords.ChargeHolds | software/Femtiki/source/kernel/Femtiki_kern.c:431-432 | the words hold the charged list |
| KernelWords.TakeTcbHolds | software/Femtiki/source/kernel/Femtiki_kern.c:828-846 | the words hold the lists after a free block is taken |
| Kern.Kernel.constructor | software/Femtiki/source/kernel/Femtiki_kern.c:1003-1109 | the kernel starts in the initial state of every run, with the idle thread ready |
| Kern.Kernel.SelectThreadToRunHelper | software/Femtiki/source/kernel/Femtiki_kern.c:272-294 | the search with its cut-off makes the level's choice |
| Kern.Kernel.SelectThreadToRun | software/Femtiki/source/kernel/Femtiki_kern.c:304-325 | the levels are searched from the highest down, every 32nd time from the lowest up |
| Kern.Kernel.SwitchThread | software/Femtiki/source/kernel/Femtiki_kern.c:350-367 | the chosen thread is the running one and flagged so |
| Kern.Kernel.FMTK_RescheduleISR | software/Femtiki/source/kernel/Femtiki_kern.c:331-369 | the reschedule step |
| Kern.Kernel.StartThread | software/Femtiki/source/kernel/Femtiki_kern.c:802-892 | the next free block is a thread on its ring, or an error if there is none |
| Kern.Kernel.FMTK_Sleep | software/Femtiki/source/kernel/Femtiki_kern.c:898-911 | the sleep step |
| Kern.Kernel.FMTK_SetThreadPriority | software/Femtiki/source/kernel/Femtiki_kern.c:916-934 | the set-priority step, and its error |
| Kern.Kernel.FMTK_SendMsg | software/Femtiki/source/kernel/msg.c:663-732 | the send step, with every result |
| Kern.Kernel.FMTK_PostMsg | software/Femtiki/source/kernel/msg.c:747-837 | the post step, with every result |
| Kern.Kernel.FMTK_WaitMsg | software/Femtiki/source/kernel/msg.c:856-928 | the wait step: the oldest message at once, or the thread blocks and another one runs |
| Kern.Kernel.Block | software/Femtiki/source/kernel/msg.c:914-928 | the blocked thread is in line, on the timeout list if it asked for a limit, and another one runs |
| Kern.Kernel.FinishWaitMsg | software/Femtiki/source/kernel/msg.c:929-946 | the receiver returns with the message that woke it; the branch without a message is never taken |
| Kern.Kernel.ExpireFirst | software/Femtiki/source/kernel/Femtiki_kern.c:406-429 | one turn of the expiry loop; the branch for an invalid mailbox is never taken |
| Kern.Kernel.ExpireTimeouts | software/Femtiki/source/kernel/Femtiki_kern.c:403-438 | the loop ends, and does what its specification says |
| Kern.Kernel.FMTK_TimerTickISR | software/Femtiki/source/kernel/Femtiki_kern.c:380-463 | the tick step |
| Kern.RingsAreCircular | software/Femtiki/source/kernel/tcb.c:184-262 | in the words of a kernel between two calls the neighbours of a ready thread are ready threads of its priority that point back at it |
| Kern.TimeoutListIsDouble | software/Femtiki/source/kernel/tcb.c:268-367 | the neighbours of a sleeping thread are on the timeout list and point back at it, and who has no predecessor is the head |
| Kern.NoMessageAndWaiter | software/Femtiki/source/kernel/msg.c:404-505 | no mailbox has both a message and a waiting thread |
| TimerLoop.WakesTheDue | software/Femtiki/source/kernel/Femtiki.c:340-349 | in the other revision exactly the threads without time left go to their rings, and nobody's time is shortened |
| TimerLoop.HeadLeft | software/Femtiki/source/kernel/Femtiki.c:340-349 | the loop leaves a head with time left, or no list |
| TimerLoop.Timer.ExpireTimeouts | software/Femtiki/source/kernel/Femtiki.c:340-349 | the loop does that, and charges the head with one tick and the missed ones |
| BoundedQueues.MessageQueue.QueueMsg | software/Femtiki/source/Femtiki.c:1695-1781 | drop-oldest leaves the last mq_size messages, drop-newest the first; dropped blocks are back in the pool; mq_missed grows by their number and saturates |
| BoundedQueues.MessageQueue.DropOldest | software/Femtiki/source/Femtiki.c:1716-1728 | the loop drops as many of the oldest as there are too many |
| BoundedQueues.MessageQueue.Return | software/Femtiki/source/Femtiki.c:1736-1744 | the new block is back in the pool and counted |
| BoundedQueues.MessageQueue.LinkAtTail | software/Femtiki/source/Femtiki.c:1772-1778 | the new block is the last of the queue |
| BoundedQueues.SentKeeps | software/Femtiki/source/Femtiki.c:1695-1781 | however many messages are sent, the queue holds the last, or the first, mq_size of them |
| BoundedQueues.LimitOneLosesTheQueue | software/Femtiki/source/Femtiki.c:1716-1728 | with a limit of one an overflow leaves the head nil and ties the message to a block of the pool |
| BoundedQueues.LimitZeroRunsOff | software/Femtiki/source/Femtiki.c:1716-1728 | with a limit of zero the loop goes on when the queue is empty |
| Overflows.QueueWords.DropOldest | software/Femtiki/source/kernel/msg.c:287-298 | the loop frees the head's successor and ends with a head that is the first block of the pool, or with none before a tail; it reads outside the table once the head is nil |
| Overflows.QueueWords.TrimNewest | software/Femtiki/source/kernel/msg.c:317-330 | the loop leaves a head in the pool or a last block that leads on |
| Overflows.IntactNotTorn | software/Femtiki/source/kernel/msg.c:267-356 | such words are no queue and pool, whatever blocks they are taken to hold |
| Overflows.QueueWords.MBXQueueMsg | software/Femtiki/source/kernel/msg.c:267-356 | queueing leaves the queue and the pool in order if and only if the policy drops nothing from the queue |
| Bits.ReverseBits | software/vasm/cpus/rf68000/cpu.c:684-696 | the loop reverses the lowest bits |
| Bits.ReverseMirrors | software/vasm/cpus/rf68000/cpu.c:684-696 | bit j from the one end is bit j from the other, and no further bit is set |
| Bits.ReverseTwice | software/vasm/cpus/rf68000/cpu.c:684-696 | reversing is an involution on the lowest bits |
| Bits.CountOnes | software/vasm/cpus/rf68000/cpu.c:699-709 | the loop counts the set bits |
| Bits.LeastBit | software/vasm/cpus/rf68000/cpu.c:712-722 | the first set bit upwards, or the end |
| Bits.MostBit | software/vasm/cpus/rf68000/cpu.c:725-735 | the first set bit downwards, or the end |
| Fields.WriteVal | software/vasm/cpus/rf68000/cpu.c:4507-4549 | for any position and width, every bit of the buffer after the write |
| Fields.ReadsBack | software/vasm/cpus/rf68000/cpu.c:4507-4549 | a field that was zero reads back as the value modulo its width |
| Fields.OutsideKept | software/vasm/cpus/rf68000/cpu.c:4532-4548 | no other bit changes if and only if nothing spills |
| Fields.FitsOrAligned | software/vasm/cpus/rf68000/cpu.c:4507-4549 | nothing spills from a byte-aligned field, nor of a value that fits |
| Fields.InsertRegisterMask | software/vasm/cpus/rf68000/cpu.c:5377-5400 | bit r of a register list goes to bit r of the mask, or to its mirror image for predecrement |
| Fields.PredecrementMask | software/vasm/cpus/rf68000/operands.h:609-610 | the predecrement mask reads back as the mirrored list |
| Constants.OptimizeMove | software/vasm/cpus/rf68000/cpu.c:3186-3308 | for every constant and every setting of the options the register gets exactly the constant, in one, two or three words as the class of the constant says |
| Constants.SevenBits | software/vasm/cpus/rf68000/cpu.c:3272-3273 | the test on the highest and lowest set bit finds exactly the seven-bit numbers moved left |
| Strength.OptimizeShift | software/vasm/cpus/rf68000/cpu.c:3711-3734 | one or two ADDs leave what the shift would, for every register content |
| Strength.OptimizeMul | software/vasm/cpus/rf68000/cpu.c:2992-3176 | the replacement leaves what the multiplication would, with the shifts rewritten in turn, and is made in exactly the listed cases |
| Strength.OptimizeDiv | software/vasm/cpus/rf68000/cpu.c:3927-3978 | the replacement leaves what the division would, also when that overflows |
| Movem.OptimizeMovem | software/vasm/cpus/rf68000/cpu.c:3381-3446 | for a list by names or by number, the moves have the effect of the MOVEM on every machine if and only if they take the registers meant and are faithful, and replace it exactly under the source's guards |
| Movem.SplitTwo | software/vasm/cpus/rf68000/cpu.c:3409-3446 | the two moves, in the order that the addresses take |
| Movem.OneMoved | software/vasm/cpus/rf68000/cpu.c:3397-3408 | one MOVE for a MOVEM of one register |
| Movem.TwoMoved | software/vasm/cpus/rf68000/cpu.c:3420-3440 | two MOVEs for a MOVEM of two registers, in memory, registers and address register |
| Movem.BaseNotMoved | software/vasm/cpus/rf68000/cpu.c:2836-2842 | the guard keeps the address register out of the list |
| Movem.OneMirrored | software/vasm/cpus/rf68000/cpu.c:3397-3408 | for a mask of one register given as a number and a predecrement address the move is always wrong |
| Movem.TwoMirrored | software/vasm/cpus/rf68000/opcodes.h:1606 | for one of two registers the moves are right if and only if the registers mirror each other |
| Movem.OwnMirror | software/vasm/cpus/rf68000/cpu.c:5377-5400 | the registers meant are those of the plain list if and only if the mask is its own mirror image |
| CodeSize.SizeOfList | software/vasm/cpus/rf68000/cpu.c:4296-4320 | the accumulating loops add up the sizes of all opcode words and operands |
| CodeSize.EaAgrees | software/vasm/cpus/rf68000/cpu.c:4665-5007 | for every addressing mode the extension words are as long as computed |
| CodeSize.BranchAgrees | software/vasm/cpus/rf68000/cpu.c:4552-4652 | for every branch the displacement is as long as computed |
| CodeSize.OperandAgrees | software/vasm/cpus/rf68000/cpu.c:4231-4293 | for every operand type at every place of the mnemonic table what is written without an error is never longer than computed, and as long if and only if no extension words are dropped |
| Extensions.WriteEaExt | software/vasm/cpus/rf68000/cpu.c:4665-5007 | the extension words, byte by byte, and nothing else is written; an operand without any, or omitted, writes none |
| Extensions.WriteFormat | software/vasm/cpus/rf68000/cpu.c:4713-4784 | a format word with its base and outer displacements |
| Extensions.WriteImmediate | software/vasm/cpus/rf68000/cpu.c:4907-4990 | an immediate operand of every size |
| Extensions.WriteBranch | software/vasm/cpus/rf68000/cpu.c:4552-4652 | the displacement behind the opcode, or in its last byte, without an error if and only if it is in reach, on Apollo processors of up to twice as far |
| Opcodes.Insert | software/vasm/cpus/rf68000/cpu.c:5307-5410 | each bit of the opcode words is set if and only if it was or one of the marks sets it |
| Encoder.WriteOpcode | software/vasm/cpus/rf68000/cpu.c:5139-5278 | the bank prefix and the opcode words, with the size extension in its field |
| Encoder.WriteOperand | software/vasm/cpus/rf68000/cpu.c:5307-5423 | an operand writes its marks and its extension words, without an error if and only if it can be encoded, and takes no more than its computed size |
| Encoder.EvalInstruction | software/vasm/cpus/rf68000/cpu.c:5123-5424 | without an error, which is if and only if all operands can be encoded, each bit of the opcode words is the mnemonic's, the size's or an operand's, the extension words follow, and the computed size is taken if and only if none are dropped |
| Encoder.EvalInstructions | software/vasm/cpus/rf68000/cpu.c:5096-5426 | the code of a list never runs over the buffer of the computed size; without an error it is each instruction's code, one behind the other, and fills the buffer if and only if no extension words are dropped |
| Decoder.EaRoundTrip | software/vasm/cpus/rf68000/cpu.c:4665-5007 | field and extension words of an effective address read back as its mode, register and format, its numbers if and only if they fit, and reading takes exactly what was written |
| Decoder.ChecksAreExact | software/vasm/cpus/rf68000/cpu.c:4700-4888 | the range checks report exactly the displacements and addresses that do not read back |
| Decoder.MarkReadsBack | software/vasm/cpus/rf68000/cpu.c:5307-5410 | a field that nobody else writes into reads back as its value, modulo its width |
| Disassembler.OperandReadsBack | software/vasm/cpus/rf68000/cpu.c:5307-5423 | so the effective address of an operand is read back from the instruction's code, for a source, for the destination of MOVE and for every other place that has one |
| Disassembler.NoFieldReadsBack | software/vasm/cpus/rf68000/cpu.c:5342-5344 | so is an address or a number without a field |
| Disassembler.BitfieldReadsBack | software/vasm/cpus/rf68000/cpu.c:5314-5331 | offset and width of a bitfield read back, or that a register holds them |
| Disassembler.FactorReadsBack | software/vasm/cpus/rf68000/cpu.c:5349-5354 | so does the k-factor of a packed decimal |
| Disassembler.MaskReadsBack | software/vasm/cpus/rf68000/cpu.c:5334-5335 | and the mask flag of a MAC operand |
| Disassembler.RegisterReadsBack | software/vasm/cpus/rf68000/cpu.c:5405-5415 | a register reads back from its field, in four bits with its kind; a vector register as its number modulo 8 |
| Disassembler.BaseReadsBack | software/vasm/cpus/rf68000/cpu.c:5336-5337 | so does a register without its mode |
| Disassembler.NumberReadsBack | software/vasm/cpus/rf68000/cpu.c:5377-5403 | a number reads back from its field if and only if the field can hold it, for plain, quick and reversed numbers |
| Disassembler.FuncReadsBack | software/vasm/cpus/rf68000/operands.h:365-454 | the registers and numbers of the special insertion functions read back |
| Disassembler.SizeReadsBack | software/vasm/cpus/rf68000/cpu.c:5183-5278 | the size extension reads back, for every kind of size field |
| Disassembler.SetsItsFieldOnly | software/vasm/cpus/rf68000/operands.h:464-662 | an operand that its place can hold sets no bit outside its fields |
| Disassembler.SizeSetsItsFieldOnly | software/vasm/cpus/rf68000/cpu.c:5183-5278 | neither does the size, and an instruction without sizes sets none |
| Disassembler.OpcodeReadsBack | software/vasm/cpus/rf68000/cpu.c:5139-5165 | every other bit is the one of the mnemonic's opcode, word by word, behind the bank prefix |
| Disassembler.PrefixWordBack | software/vasm/cpus/rf68000/cpu.c:5139-5145 | the bank prefix stands in front |
| Banks.PrefixReadsBack | software/vasm/cpus/rf68000/cpu.c:5010-5093 | from a prefix the banks of the operands are read back, and the third operand with its register; one left out reads as the second |
| BranchDecoder.BranchReadsBack | software/vasm/cpus/rf68000/cpu.c:4552-4652 | a branch to a known label reads back as its displacement; a long one if and only if it fits; one that only Apollo processors reach if and only if it is even |
| BranchDecoder.LoopBranchReadsBack | software/vasm/cpus/rf68000/cpu.c:4620-4644 | so do DBcc and the coprocessor branches, but a long DBcc is made odd |
| EncodingErrors.EaWritten | software/vasm/cpus/rf68000/cpu.c:4665-5007 | which effective addresses are written without an error |
| EncodingErrors.BranchWritten | software/vasm/cpus/rf68000/cpu.c:4605-4650 | which branches are: those with a displacement of the size asked for in reach |
| EncodingErrors.OperandWritten | software/vasm/cpus/rf68000/cpu.c:5362-5415 | and which other operands |

## Left out

The kernel:

- Concurrency inside a call: locks, interrupt levels and the gap between unlocking the mailbox and inserting into the timeout list (software/Femtiki/source/kernel/msg.c:917-923). Each call and each interrupt is one step on one core.
- Tables as arrays: the tables of blocks are fields of sequence type that the methods reassign, so aliasing between table entries is by handle only, as in the source.
- The tick loop stands behind an unconditional return (software/Femtiki/source/kernel/Femtiki_kern.c:393); it is modelled as the text reads after it. How long the running thread has run is a parameter of the tick.
- FMTK_TimerTickISR: demands `CanExpire`, because with an empty pool and an expired waiter the loop does not end; `TickLoop.ExpireSpins` shows it.
- ExpireTimeouts: demands it for the same reason.
- MBXQueueMsg: in `Mail.MessageStore` it demands a steady queue, since otherwise no queue and pool are left to speak of: `Overflows.QueueWords.MBXQueueMsg` has the routine for every queue, and the exact condition. The overflow policies work in the revision at software/Femtiki/source/Femtiki.c:1695-1781.
- QueueMsgKeeps: demands a steady queue for that reason.
- DepositKeeps: so does this.
- DepositMsg: so does this.
- FMTK_PostMsg: demands it of a mailbox where nobody waits.
- FMTK_SendMsg: so does this.
- SetMbxMsgQueStrategy: a step of a run only if a new limit covers mq_count, for the same reason; a negative limit is not part of the model.
- QueueMsg: demands that drop-newest starts at or below its limit; the loop that trims it is the one of `Overflows.QueueWords.TrimNewest`, which leaves no queue. A limit below two is the subject of `BoundedQueues.LimitOneLosesTheQueue` and `BoundedQueues.LimitZeroRunsOff`.
- FMTK_WaitMsg: a negative mailbox handle is not caught by the source, which then reads outside the table of mailboxes, and not part of this model.
- The idle thread (handle 2) never sleeps or waits, as its code never does; with it the choice of a thread always succeeds.
- The first thread's block is set up (SetupFirstThread) by the time the kernel is initialised, and the words of all tables start at zero; initialisation clears 8 of the 32 ready queue heads only.
- FMTK_FreeMbx and FMTK_KillThread mix handles and indices and do not keep the list invariant as written.
- StartThread: the list part only; stacks, registers and the list of an application's threads are not modelled. The priority is taken modulo 256, as its byte stores it.
- Application control blocks, request blocks, alarms, memory management, exceptions, tick counts, message time stamps, nMailbox and console I/O.
- mq_count, the count of choices and timeouts are unbounded integers.

The backend:

- Condition codes: several rewritings change them.
- Operand parsing, option parsing, relocations and the optimization of single operands; a pc-relative displacement is a number of the operand.
- ColdFire's MOV3Q is not reached for a data register, since MOVEQ comes first; floating point and Apollo constant paths are not modelled.
- OptimizeMul: multiplications with a 64-bit result are not rewritten by the source and not part of the model.
- MOVEM of its own address register with predecrement stores the register's value from before the instruction in the model; later processors store it decremented.
- OptimizeMovem: the address of a memory operand is an address register mode or a plain address; the range of an absolute short address after raising it is not checked by the source and not modelled.
- WriteEaExt: range checks that report an error but write the same bytes are not errors of the model, nor are the checks of the processor for addressing modes; what the checks of displacements mean is `Decoder.ChecksAreExact`.
- WriteImmediate: the same, for the range of an immediate number.
- WriteOpcode: the number of the coprocessor in an opcode is part of the opcode.
- The type _CANARY has no entry in the table of operand types (software/vasm/cpus/rf68000/operands.h:76-360) and is not part of this model.
- The mnemonic table is modelled by what it keeps to: which operand types go to which places, how many opcode words there are, that all fields lie inside them, and that a branch is the only operand of its instruction.
