# Verified models of the seL4 MCS kernel core and of nanopb

This project models the hard parts of two code bases that are built together here:
the mixed-criticality (MCS) configuration of the seL4 microkernel, and the nanopb
protocol-buffer library with its generators. It proves what they are for. Code that
updates state in place is a class whose methods are proved against functions on
values; the theorems are about those functions and hold for every input, every run
or every reachable state.

`dafny verify dfyconfig.toml` checks everything.

**Sporadic-server refills** (`RefillQueue`, `TickLaws`, `Bandwidth`, `BandwidthRuns`,
`SchedContexts`). A
scheduling context holds a circular buffer of (time, amount) refills that is
charged, split, merged and delayed. `RefillQueue` has the operations on sequences
and their invariant, `SchedContexts` the circular buffer with 64-bit arithmetic that
refines them, and `BandwidthRuns` the theorem the queue exists for: no window of one
period holds more charged ticks than the budget, through updates too; where updates
change the parameters, of the shortest period and the largest budget. A charged tick
is counted at its place in the refill schedule. `TickLaws` says tick by tick what a
charge, an unblock and an update do: a charged tick returns one period later or right
behind the last one, and which others move, and when. Round-robin contexts, which have period 0, are part of
`SchedContexts`.

**IPC fastpaths** (`Fastpath`, `FastpathProofs`, `FastpathRuns`, `FastpathLaws`, `FastpathKernel`,
`LinkedEndpoints`, `EndpointQueues`, `ReadyQueues`, `BitScan`). A step system over threads, replies,
scheduling contexts, endpoints and notifications, with the invariant that every run
keeps. The kernel's own program works on the two-level priority bitmaps, one for
each domain, and keeps them equal to its ready threads; the linked endpoint queue is
proved to follow the sequences that the step system uses, and a signal reads and
unblocks the refills of `SchedContexts`. `FastpathLaws` gives the state after each
fastpath, and exactly when it is taken, in terms of the state before, and shows that
no run drops a runnable thread from the scheduler.

**CLH big kernel lock** (`ClhLock`). Any number of cores, each acquire and release
taken one shared access at a time, all interleavings.

**Capability lookup** (`CSpace`). `resolveAddressBits` and `lookup_fp` over arbitrary
CNode graphs.

**nanopb** (`Varints`, `Proto`, `ProtoRoundTrip`, `ProtoSafety`, `ProtoMeaning`,
`WireForm`, `ProtoEncoder`, `ProtoStream`, `ProtoDecoder`, `Codec`, `OneOfOrder`,
`FieldIter`, `Utf8`, `SizeBound`, `SizePeak`). `Proto` gives the wire format as functions on byte sequences, over
recursive descriptors with default values and fixed-count arrays. The encoder and
the decoder are stream programs proved to compute them. The round trip, the bytes of
each value as any reader finds them (`WireForm`), which bytes the decoder accepts and
what they mean (`ProtoMeaning`), the agreement of the two encoder passes, the
generator's size bound and how far it is from the largest encoding (`SizePeak`) are
theorems about all descriptors and messages. Array
memory that a decode does not write is the value `VUnset`.

**Generators and arithmetic** (`TagClasses`, `Reciprocal`). The bitfield generator's
tag classes, whose checks accept a tag value exactly when the reader finds it, and division by a multiplication.

`Words` and `Bits` hold arithmetic on machine words, `Options` the option type.

## Where the code falls short of a plain statement

- Fast and slow capability lookup differ on a guard of no bits that is not zero: the
  fast one skips the guard. On any capabilities they agree exactly when the walk
  meets no such guard, or leads nowhere even with those guards zero
  (`CSpace.LookupsAgreeIff`, `CSpace.LookupsCanDiffer`). The kernel masks every guard
  that it stores, so on the capabilities it makes they always agree
  (`CSpace.KernelCapsAgree`).
- `magicgu` returns a multiplier for every divisor, and it is right exactly when
  the divisor is at most nmax + 1 or nmax is 0 (`Reciprocal.Magicgu`).
- The static assertions on packed field descriptors let a size offset of 256 or more
  through when its low byte is below 128, and such a field is not read back
  (`FieldIter.PackRoundTrip`, `FieldIter.SizeOffsetLost`). This is a fact about the
  packing macros alone: whether a generated structure has such an offset is not
  part of it.
- `pb_field_iter_find` finds every field from every position exactly when the tags
  increase (`FieldIter.CompleteIffIncreasing`). The generator keeps the alternatives
  of a oneof together, so a field's tag may lie between theirs
  (`FieldIter.InterleavedOneOf`). For tags in any order, also in submessages,
  `ProtoRoundTrip.MsgReadsBack` says what comes back: a written field is lost exactly
  when its tag is larger than the last field's, or smaller than the first field's or
  than that of an earlier field that was found (`OneOfOrder.LostIff`). A message is
  read back exactly when all fields that are lost have their initial values and need
  not be seen (`ProtoRoundTrip.RoundTripIff`). What is lost depends on the fields
  after the oneof: the alternative with the largest tag
  (`OneOfOrder.LargestTagIsLost`), or the field in between when a field with a larger
  tag follows (`OneOfOrder.InnerFieldIsLost`). The comment in `nanopb/pb_common.c`
  says that fields are in tag order.
- The decoder rejects a fixed-count array with too few elements, but accepts a
  message in which the array is missing altogether, and leaves its memory as it was
  (`ProtoSafety.MissingArrayAccepted`). Whatever the bytes that it accepts, an array
  is complete exactly when a record was assigned to it, which with tags in order
  means a record with its tag (`ProtoSafety.ArrayWrittenIff`,
  `ProtoSafety.ArrayWrittenIffTag`).

## Model

| member | source | states |
|---|---|---|
| `BandwidthRuns.SlidingWindow` | kernel/src/kernel/sporadic.c:173-379 | over every run of charges, unblocks and updates from any context that meets the invariant, in which no budget is above `most` and no period below `width`, the ticks charged inside any window of that width, counted at their refill times, total at most `most`, also across updates |
| `BandwidthRuns.OneBudgetAPeriod` | kernel/include/kernel/sporadic.h:13-23 | while updates change at most the number of refills, the ticks charged inside any window of one period total at most the budget |
| `BandwidthRuns.RunSpaced` | kernel/src/kernel/sporadic.c:173-379 | after every run, the log of charged ticks followed by the pending ticks stays spaced: any two entries `most` apart in the sequence are at least `width` apart in time |
| `BandwidthRuns.StepSpaced` | kernel/src/kernel/sporadic.c:173-379 | one charge, unblock or update keeps that spacing, with the ticks it charged added to the log |
| `Bandwidth.BudgetCheckSpaced` | kernel/src/kernel/sporadic.c:307-348 | a charge keeps the spacing of log and queue |
| `Bandwidth.BudgetCheckCharges` | kernel/src/kernel/sporadic.c:307-348 | a charge logs at most `usage` ticks, and exactly `usage` unless the head has passed the last release time |
| `Bandwidth.UpdateSpaced` | kernel/src/kernel/sporadic.c:173-211 | an update, to any budget and period within the bounds, keeps the spacing although it rebuilds the queue |
| `Bandwidth.HandleOverrunSpaced` | kernel/src/kernel/sporadic.c:272-291 | the overrun loop keeps the spacing |
| `Bandwidth.OverrunCharges` | kernel/src/kernel/sporadic.c:272-291 | the overrun loop logs exactly the usage that it consumed |
| `Bandwidth.SpacedRecycle` | kernel/src/kernel/sporadic.c:257-270 | taking ticks off the front and returning each at least one period later keeps the spacing |
| `Bandwidth.SpacedDelay` | kernel/src/kernel/sporadic.c:350-379 | delaying pending ticks keeps the spacing |
| `Bandwidth.ScheduleUsedDelays` | kernel/src/kernel/sporadic.c:213-238 | merging or appending the used refill only delays ticks, and loses none |
| `Bandwidth.ChargeEntireHeadRecycles` | kernel/src/kernel/sporadic.c:257-270 | charging the whole head takes exactly its ticks and returns them no earlier than one period later |
| `Bandwidth.ChargePartOfHeadRecycles` | kernel/src/kernel/sporadic.c:320-340 | charging part of the head takes exactly the first `usage` ticks and returns them no earlier than one period later |
| `Bandwidth.FillHeadDelays` | kernel/src/kernel/sporadic.c:293-305 | merging a head that is too small into its successor only delays ticks |
| `Bandwidth.MergeOverlapsDelays` | kernel/src/kernel/sporadic.c:350-355 | merging overlapping heads only delays ticks |
| `Bandwidth.UnblockCheckDelays` | kernel/src/kernel/sporadic.c:357-379 | an unblock only delays ticks |
| `Bandwidth.SpacedWindow` | kernel/include/kernel/sporadic.h:13-23 | a spaced log has at most `most` ticks in any window of that width |
| `BandwidthRuns.StepInv` | kernel/src/kernel/sporadic.c:173-379 | one charge, unblock or update keeps the refill invariant and never moves the head time back |
| `BandwidthRuns.Run` | kernel/src/kernel/sporadic.c:173-379 | whole runs, updates included, keep the refill invariant and never move the head time back |
| `TickLaws.ScheduleUsedExactly` | kernel/src/kernel/sporadic.c:213-238 | exactly which ticks move: the used ones start at their time or where the tail ends, whichever is later; the tail is put off only in a full buffer with a gap, to end at the used refill; every other tick stays; a refill is added exactly when there is a gap and room |
| `TickLaws.ScheduleUsedAppends` | kernel/src/kernel/sporadic.c:213-238 | with room in the buffer, or without a gap, no tick of the queue moves |
| `TickLaws.ChargeEntireHeadTurns` | kernel/src/kernel/sporadic.c:257-270 | charging the whole head is charging its ticks one by one: each leaves the front and returns one period later, or right behind the last tick if that is later, and no other moves |
| `TickLaws.HandleOverrunTurns` | kernel/src/kernel/sporadic.c:272-291 | the overrun loop charges exactly the consumed ticks in this way, one by one, and never lengthens the queue |
| `TickLaws.ChargePartTurns` | kernel/src/kernel/sporadic.c:320-340 | so does charging part of the head, with room in the buffer or without a gap |
| `TickLaws.ChargePartPutsOff` | kernel/src/kernel/sporadic.c:320-340 | in a full buffer with a gap, the used ticks return exactly one period later and the tail is put off to end there; the ticks between stay |
| `TickLaws.FillHeadExactly` | kernel/src/kernel/sporadic.c:293-305 | the head takes in as few refills as reach the minimum budget, ends where the last of them ends, and the refills behind stay |
| `TickLaws.BudgetCheckTurns` | kernel/src/kernel/sporadic.c:307-348 | a charge with room in the buffer charges the logged ticks one by one, and then fills the head |
| `TickLaws.SufficientChargeExactly` | kernel/src/kernel/sporadic.c:307-348 | the charge of a running thread, with room in the buffer: the used ticks return exactly one period later, or right behind the tail if that ends later, and no other tick moves |
| `TickLaws.UnblockCheckExactly` | kernel/src/kernel/sporadic.c:357-379 | after an unblock, tick i is at its own time or at the present plus i, whichever is later |
| `TickLaws.UnblockCheckRest` | kernel/src/kernel/sporadic.c:357-379 | the head then starts now, and the refills behind it are the old ones that it does not touch |
| `TickLaws.UpdateExactly` | kernel/src/kernel/sporadic.c:173-211 | an update keeps the head's ticks, from the present on and up to the new budget, and puts the rest of the budget one period after the first; there are two refills exactly when there is a rest or the new period is 0 |
| `RefillQueue.ScheduleUsedShape` | kernel/src/kernel/sporadic.c:213-238 | the queue stays positive, ordered and within capacity, its sum grows by the used amount, and its head time stays |
| `RefillQueue.ChargeEntireHeadShape` | kernel/src/kernel/sporadic.c:257-270 | the sum stays the budget; the head time does not go back and all times stay within one period of the old head |
| `RefillQueue.ChargePartOfHeadShape` | kernel/src/kernel/sporadic.c:320-340 | the sum stays the budget and the head starts `usage` later |
| `RefillQueue.HandleOverrunShape` | kernel/src/kernel/sporadic.c:272-291 | the loop ends with no overrun left, keeps the queue shape and the sum, and keeps every time below MAX_RELEASE_TIME plus one period |
| `RefillQueue.AbsorbHeadShape` | kernel/src/kernel/sporadic.c:298-305 | the merged head keeps the shape, and the subtraction from the next time cannot underflow |
| `RefillQueue.SmallHeadHasSuccessor` | kernel/src/kernel/sporadic.c:293-296 | a head below the minimum budget is never the last refill |
| `RefillQueue.FillHeadShape` | kernel/src/kernel/sporadic.c:342-345 | the loop reaches a head of at least the minimum budget without popping the last refill |
| `RefillQueue.BudgetCheckInv` | kernel/src/kernel/sporadic.c:307-348 | a charge keeps the whole invariant: positive ordered refills, sum equal to the budget, span at most one period, head at least the minimum |
| `RefillQueue.MergeOverlapsInv` | kernel/src/kernel/sporadic.c:350-355 | merging overlapping heads restores the invariant and keeps the head time |
| `RefillQueue.UnblockCheckInv` | kernel/src/kernel/sporadic.c:357-379 | an unblock keeps the invariant and moves a past head to the current time |
| `RefillQueue.UpdateInv` | kernel/src/kernel/sporadic.c:173-211 | an update establishes the invariant for the new budget and period |
| `RefillQueue.UpdateSum` | kernel/src/kernel/sporadic.c:173-211 | an update leaves exactly the new budget, round robin or not, and never moves the head time back |
| `SchedContexts.SchedContext.Capacity` | kernel/include/kernel/sporadic.h:102-110 | usage and capacity together cover the head amount, exactly when capacity is left |
| `SchedContexts.SchedContext.Queue` | kernel/include/kernel/sporadic.h:52-85 | the circular buffer refines a sequence whose length is refill_size and whose ends are refill_head and refill_tail |
| `SchedContexts.SchedContext.PopHead` | kernel/src/kernel/sporadic.c:119-132 | removes the first refill of the sequence |
| `SchedContexts.SchedContext.AddTail` | kernel/src/kernel/sporadic.c:135-146 | appends to the sequence |
| `SchedContexts.SchedContext.RefillNew` | kernel/src/kernel/sporadic.c:148-171 | the queue is one refill with the whole budget, and is valid; with period 0 it has an empty second refill and is a valid round-robin context |
| `SchedContexts.SchedContext.RefillUpdate` | kernel/src/kernel/sporadic.c:173-211 | from any configured context the circular buffer follows Update, holds exactly the new budget and is valid for the new parameters, round robin included |
| `SchedContexts.SchedContext.ScheduleUsedRefill` | kernel/src/kernel/sporadic.c:213-238 | the circular buffer follows ScheduleUsed, whose ticks TickLaws.ScheduleUsedExactly gives, with no 64-bit wrap |
| `SchedContexts.SchedContext.ChargeEntireHeadRefill` | kernel/src/kernel/sporadic.c:257-270 | the circular buffer follows ChargeEntireHead; the rest of the usage is returned |
| `SchedContexts.SchedContext.HandleOverrunOf` | kernel/src/kernel/sporadic.c:272-291 | the loop terminates and follows HandleOverrun, with no 64-bit wrap |
| `SchedContexts.SchedContext.MergeNonoverlappingHead` | kernel/src/kernel/sporadic.c:298-305 | the circular buffer follows AbsorbHead |
| `SchedContexts.SchedContext.RefillBudgetCheck` | kernel/src/kernel/sporadic.c:307-348 | the circular buffer follows BudgetCheck, stays valid and keeps the budget; the head time does not go back |
| `SchedContexts.SchedContext.MergeOverlappingHead` | kernel/src/kernel/sporadic.c:350-355 | the circular buffer follows ExtendHead |
| `SchedContexts.SchedContext.RefillUnblockCheck` | kernel/src/kernel/sporadic.c:357-379 | the circular buffer follows UnblockCheck, stays valid and keeps the budget; a round-robin context is left alone; the head is sufficient, as the source asserts |
| `SchedContexts.SchedContext.UseSlice` | kernel/include/kernel/thread.h:124-145 | moves the consumed time of a round-robin context to its second refill; the budget is conserved and the head stays sufficient |
| `SchedContexts.SchedContext.RenewSlice` | kernel/src/kernel/thread.c:634-644 | gives a round-robin context its whole budget back, all of it in the head |
| `ClhLock.MutualExclusion` | kernel/include/smp/lock.h:59-100 | in every interleaving of any number of cores at most one core holds the lock |
| `ClhLock.GrantedInExchangeOrder` | kernel/include/smp/lock.h:59-100 | grants happen in the order of the tail exchanges, releases in the order of the grants, and at most one grant is outstanding |
| `ClhLock.CellsKeepDistinctOwners` | kernel/include/smp/lock.h:40-48 | in every reachable state the N cores own distinct cells of the N + 1, and the cell that is left is granted |
| `ClhLock.SelfInQueueIffHolding` | kernel/include/smp/lock.h:102-105 | outside acquire and release the test is true exactly for a core that holds the lock |
| `ClhLock.WaiterIsServed` | kernel/include/smp/lock.h:59-100 | there is a schedule of at most 2i + 1 steps, of the cores up to place i of the queue alone, after which the core at place i holds the lock |
| `ClhLock.FairlyServed` | kernel/include/smp/lock.h:59-100 | in every schedule of 2i + 1 rounds, in each of which the first i + 1 queued cores step, in any order and whatever other cores do, the core at place i is granted the lock |
| `ClhLock.RoundProgress` | kernel/include/smp/lock.h:59-100 | every schedule with a step of the first queued core makes a grant or a release |
| `ClhLock.StepProgress` | kernel/include/smp/lock.h:59-100 | a step of the first queued core is a grant or a release, and no step undoes one |
| `ClhLock.RunInv` | kernel/include/smp/lock.h:59-100 | every run keeps the chain of watched cells and the FIFO histories |
| `ClhLock.StepInv` | kernel/include/smp/lock.h:59-100 | every single shared write or poll keeps the invariant |
| `ClhLock.OnlyHeadIsGranted` | kernel/include/smp/lock.h:69-83 | a waiting core sees a granted cell exactly when it is first in the queue |
| `ClhLock.ExchangeArranged` | kernel/include/smp/lock.h:66-67 | the exchange puts the core at the end of the queue |
| `ClhLock.PassArranged` | kernel/include/smp/lock.h:96-97 | passing the lock removes the first core from the queue |
| `ClhLock.AdoptArranged` | kernel/include/smp/lock.h:98-99 | adopting the watched cell keeps every owner distinct |
| `ClhLock.BigKernelLock.TellSuccessorToWait` | kernel/include/smp/lock.h:64-65 | the in-place write is that step of the protocol |
| `ClhLock.BigKernelLock.Enqueue` | kernel/include/smp/lock.h:66-67 | the in-place exchange is that step of the protocol |
| `ClhLock.BigKernelLock.Poll` | kernel/include/smp/lock.h:69-83 | one iteration of the spin loop; it reports whether the lock was acquired |
| `ClhLock.BigKernelLock.PassToSuccessor` | kernel/include/smp/lock.h:96-97 | the in-place write is that step of the protocol |
| `ClhLock.BigKernelLock.AdoptWatched` | kernel/include/smp/lock.h:98-99 | the in-place write is that step of the protocol |
| `ClhLock.BigKernelLock.IsSelfInQueue` | kernel/include/smp/lock.h:102-105 | reads the state of the core's own request |
| `ClhLock.BigKernelLock.constructor` | kernel/src/smp/lock.c:16-27 | all requests granted, one owned by each core, one at the tail |
| `FastpathRuns.RunInv` | kernel/src/fastpath/fastpath.c:19-898 | every run of calls, faults, reply-receives and signals keeps the invariant: SC and thread links mutual inverses, well-formed reply stacks of distinct replies of blocked callers, ordered endpoint queues, current thread running and highest |
| `FastpathRuns.StepInv` | kernel/src/fastpath/fastpath.c:19-898 | one fastpath, committed or not, keeps the invariant |
| `FastpathRuns.CallThenReply` | kernel/src/fastpath/fastpath.c:187-206 | whatever endpoint the server listens on next, its reply is never declined for the call stack, priorities or domains, and restores every reply, scheduling context, stack and the running thread; every other thread waits where it did |
| `FastpathRuns.SessionRestores` | kernel/src/fastpath/fastpath.c:19-898 | after any well-bracketed run of calls, faults, signals and replies, however deep the nesting, the first thread runs again on its own scheduling context, and all call stacks, the callers on them and the owners of scheduling contexts are as before |
| `FastpathRuns.RoundRestores` | kernel/src/fastpath/fastpath.c:441-498 | the reply to a call restores what the call changed, after anything in between that restores its own start |
| `FastpathRuns.SignalInv` | kernel/src/fastpath/fastpath.c:558-714 | a signal keeps the invariant, including priority safety |
| `FastpathRuns.ServerIsCalled` | kernel/src/fastpath/fastpath.c:19-160 | a client that may only send, with a waiting server, meets the invariant, and its call is on the fastpath, so the results above apply |
| `FastpathProofs.TransferInv` | kernel/src/fastpath/fastpath.c:177-206 | a committed send keeps the invariant and pushes the reply on the stack of the donated scheduling context |
| `FastpathProofs.ReplyInv` | kernel/src/fastpath/fastpath.c:441-498 | a committed reply-receive keeps the invariant and pops that stack |
| `FastpathProofs.TransferCurrent` | kernel/src/fastpath/fastpath.c:123-129 | after a committed send the new current thread runs and no ready thread of its domain has a higher priority |
| `FastpathProofs.ReplyCurrent` | kernel/src/fastpath/fastpath.c:400-404 | the same after a committed reply |
| `FastpathProofs.WakeCurrent` | kernel/src/fastpath/fastpath.c:650-711 | a signal that makes a thread ready leaves the current thread highest |
| `FastpathProofs.CancelInv` | kernel/include/fastpath/fastpath.h:35-55 | cancelling a blocked receive keeps the invariant |
| `FastpathProofs.LeaveInv` | kernel/include/fastpath/fastpath.h:58-72 | taking the first waiter off a notification keeps the invariant |
| `FastpathProofs.WakeInv` | kernel/include/fastpath/fastpath.h:16-33 | donating the notification's scheduling context keeps the invariant |
| `FastpathProofs.ActivateInv` | kernel/src/fastpath/fastpath.c:602-620 | marking the notification active keeps the invariant |
| `FastpathKernel.Kernel.FastpathCall` | kernel/src/fastpath/fastpath.c:19-233 | commits exactly when every check passes, and then makes the Call step in place; the bitmaps stay the encoding of the ready threads |
| `FastpathKernel.Kernel.FastpathVmFault` | kernel/src/fastpath/fastpath.c:720-898 | commits exactly when every check passes, and then makes the VmFault step in place; the bitmaps stay the encoding of the ready threads |
| `FastpathKernel.Kernel.FastpathReplyRecv` | kernel/src/fastpath/fastpath.c:240-551 | commits exactly when every check passes, and then makes the ReplyRecv step in place; the bitmaps stay the encoding of the ready threads |
| `FastpathKernel.Kernel.FastpathSignal` | kernel/src/fastpath/fastpath.c:558-714 | makes the Signal step in place, with the tests on the refills of the target context; the bitmaps then encode the ready threads with the woken one, the refills of the woken sporadic context are unblocked and no others change, and an active one is released |
| `FastpathLaws.SignalToThread` | kernel/src/fastpath/fastpath.c:558-714 | a signal that could wake a thread: it is declined exactly when the thread has no context to run on, outranks the running one, or its active context is not released; otherwise the thread is Running on that context, has left its queue, waits nowhere, and joins the ready threads exactly when the context is active; all else is unchanged |
| `FastpathLaws.SignalToNobody` | kernel/src/fastpath/fastpath.c:558-714 | without the right nothing changes; with nobody to wake the notification becomes active and nothing else changes |
| `FastpathLaws.StepScheduled` | kernel/src/fastpath/fastpath.c:19-898 | every fastpath keeps: a runnable thread on an active context runs, is ready, or is held until its release |
| `FastpathLaws.RunScheduled` | kernel/src/fastpath/fastpath.c:19-898 | over every run of fastpaths no runnable thread on an active context drops out of the scheduler |
| `FastpathLaws.SendLaw` | kernel/src/fastpath/fastpath.c:19-233 | the state after a committed call or fault: the first receiver runs on the sender's context, the sender waits for the reply, which is on top of the call stack above the old top; all else is unchanged |
| `FastpathLaws.SendCommitsIff` | kernel/src/fastpath/fastpath.c:19-233 | a call or fault is taken exactly when message, rights, address spaces and the first receiver allow it |
| `FastpathLaws.ReplyLaw` | kernel/src/fastpath/fastpath.c:240-551 | the state after a committed reply: the caller runs on the context, its fault is cleared, the reply is off the call stack and waits with the server, which stands behind all receivers of no lower priority; all else is unchanged |
| `FastpathLaws.ReplyCommitsIff` | kernel/src/fastpath/fastpath.c:240-551 | a reply is taken exactly when message, rights, address spaces, the endpoint, the bound notification and the caller allow it |
| `FastpathKernel.WokenIsNotCurrent` | kernel/src/fastpath/fastpath.c:695-699 | the assertion before the unblock holds: a signal never wakes a thread on the running thread's scheduling context |
| `FastpathKernel.TestRefills` | kernel/src/fastpath/fastpath.c:661-666 | the tests that the signal makes on a configured context |
| `FastpathKernel.UnblockContext` | kernel/src/fastpath/fastpath.c:694-699 | unblocks a sporadic context, which stays valid and released |
| `FastpathKernel.Kernel.HighestPrio` | kernel/include/kernel/thread.h:61-81 | the bitmap of the current domain answers whether a priority is at least that of every ready thread of the domain |
| `FastpathKernel.Kernel.SchedEnqueue` | kernel/src/object/tcb.c:115-138 | the thread is ready, and the bitmaps of all domains encode the ready threads again |
| `FastpathKernel.BitmapDecides` | kernel/include/kernel/thread.h:77-81 | the ready priorities of the domain are all at most p exactly when no ready thread of the domain has a higher priority |
| `FastpathKernel.Kernel.SwitchTo` | kernel/src/fastpath/fastpath.c:177-206 | the in-place updates amount to Transfer |
| `FastpathKernel.Kernel.SwitchBack` | kernel/src/fastpath/fastpath.c:441-498 | the in-place updates amount to ReplyTo |
| `FastpathKernel.Kernel.PushReply` | kernel/src/fastpath/fastpath.c:200-206 | pushes the reply on the scheduling context's doubly linked stack |
| `FastpathKernel.Kernel.PopReply` | kernel/src/fastpath/fastpath.c:483-498 | pops the reply from that stack |
| `FastpathKernel.Kernel.CancelIpcOf` | kernel/include/fastpath/fastpath.h:35-55 | the in-place updates amount to CancelIpc |
| `LinkedEndpoints.DequeueReceiver` | kernel/src/fastpath/fastpath.c:177-183 | the linked queue that represents the endpoint before a call or fault represents it after |
| `LinkedEndpoints.EnqueueServer` | kernel/src/fastpath/fastpath.c:455-481 | the linked queue that represents the endpoint before a reply represents it after |
| `LinkedEndpoints.CancelWaiter` | kernel/include/fastpath/fastpath.h:35-55 | the linked queue that represents the endpoint before a cancelled receive represents it after |
| `CSpace.FastLookupIsLookupCap` | kernel/include/fastpath/fastpath.h:89-132 | for every CNode graph with fitting guards, cyclic or not, and every pointer, the fast lookup returns exactly the cap of the slow one, and the null cap on every fault |
| `CSpace.LookupsAgreeIff` | kernel/include/fastpath/fastpath.h:89-132 | for every CNode graph and pointer, whatever the guards, the two lookups agree exactly when the walk meets no guard without bits that is not zero, or ends at the null cap with those guards zero |
| `CSpace.LookupsCanDiffer` | kernel/include/fastpath/fastpath.h:108-114 | a memory and a pointer on which the fast lookup finds a cap and the slow one faults |
| `CSpace.KernelCapsAgree` | kernel/src/object/objecttype.c:420-440 | after every run of creating CNodes, setting guards, copying and deleting caps, the two lookups agree on every cap and pointer |
| `CSpace.ApplyKeeps` | kernel/src/object/objecttype.c:398-566 | creating, copying, deleting and re-guarding caps keeps every guard within its size |
| `CSpace.FastFollowsSlow` | kernel/src/kernel/cspace.c:126-193 | from any bit position and whatever the guards, the slow lookup with the remaining bits gives the null cap if the walk meets a guard that does not fit, and otherwise exactly what the fast one gives |
| `CSpace.FastOffsetInRange` | kernel/include/fastpath/fastpath.h:116-117 | the fast slot index stays inside the CNode |
| `CSpace.ResolveAddress` | kernel/src/kernel/cspace.c:126-193 | resolving the address of any walk through the graph ends at that walk's slot with exactly the unused bits left |
| `CSpace.Resolve` | kernel/src/kernel/cspace.c:126-193 | a resolved slot lies inside its CNode and consumes at least one bit |
| `CSpace.OneLevel` | kernel/src/kernel/cspace.c:126-193 | one level in arithmetic: the first guardSize of the remaining bits must be the guard, the next radix bits are the slot, and the rest goes on from there or is left over; the fault and its fields otherwise |
| `CSpace.ResolveAddressBits` | kernel/src/kernel/cspace.c:126-193 | the loop terminates on the remaining bits and returns Resolve |
| `CSpace.LookupSlotForCNodeOp` | kernel/src/kernel/cspace.c:65-109 | finds a slot exactly when the depth is in range and resolution ends with no bits left; otherwise the error is the source's |
| `CSpace.LookupFp` | kernel/include/fastpath/fastpath.h:89-132 | the loop terminates and returns LookupFast |
| `CSpace.SameGuard` | kernel/include/fastpath/fastpath.h:108-114 | the fast guard test fails exactly when the slow one does |
| `CSpace.SameOffset` | kernel/include/fastpath/fastpath.h:116-117 | both compute the same slot index |
| `EndpointQueues.RunInOrder` | kernel/include/object/tcb.h:132-162 | after every run of appends and head dequeues the queue is sorted by priority, first come first served among equals |
| `EndpointQueues.HeadIsServedFirst` | kernel/include/object/tcb.h:132-162 | after every run the head precedes every other waiter in that order |
| `EndpointQueues.Place` | kernel/include/object/tcb.h:138-142 | the place found: everything after it is strictly lower, the one before it is not |
| `EndpointQueues.InsertInOrder` | kernel/include/object/tcb.h:132-162 | one append keeps the order |
| `EndpointQueues.InsertDecreasing` | kernel/include/object/tcb.h:132-162 | inserting at the place keeps priorities non-increasing |
| `EndpointQueues.Endpoint.FindPlace` | kernel/include/object/tcb.h:134-142 | the scan from the tail returns the neighbours of Place |
| `EndpointQueues.Endpoint.EPAppend` | kernel/include/object/tcb.h:132-162 | the doubly linked list represents the old one with the thread inserted at its place |
| `EndpointQueues.Endpoint.Receive` | kernel/src/fastpath/fastpath.c:455-481 | the same from an idle endpoint, which becomes Recv |
| `EndpointQueues.Endpoint.DequeueHead` | kernel/src/fastpath/fastpath.c:177-183 | removes the head, which has the highest priority; the endpoint is Idle exactly when the list is empty |
| `EndpointQueues.Endpoint.EPDequeue` | kernel/src/object/tcb.c:255-270 | removes any member; the list stays well linked and ordered |
| `ReadyQueues.ReadyBitmap.GetHighestPrio` | kernel/include/kernel/thread.h:61-75 | returns the greatest ready priority |
| `ReadyQueues.ReadyBitmap.IsHighestPrio` | kernel/include/kernel/thread.h:77-81 | true exactly when no ready priority is greater |
| `ReadyQueues.ReadyBitmap.AddToBitmap` | kernel/src/object/tcb.c:52-66 | both bitmap levels then encode the ready set with the priority |
| `ReadyQueues.ReadyBitmap.RemoveFromBitmap` | kernel/src/object/tcb.c:68-79 | both bitmap levels then encode the ready set without the priority |
| `BitScan.Clz64` | kernel/src/util.c:251-304 | counts leading zeros: the value lies between the two powers of two |
| `BitScan.Clz32` | kernel/src/util.c:186-249 | counts leading zeros of a 32-bit value |
| `BitScan.Ctz64` | kernel/src/util.c:370-419 | counts trailing zeros: zeros below, a one at the result |
| `BitScan.Ctz32` | kernel/src/util.c:308-368 | counts trailing zeros of a 32-bit value |
| `BitScan.ClzIteration` | kernel/src/util.c:251-304 | one halving step keeps the leading part and its count |
| `BitScan.CtzIteration` | kernel/src/util.c:370-419 | one halving step skips zeros and counts them |
| `Reciprocal.Magicgu` | kernel/tools/reciprocal.py:24-33 | always finds a shift of at most twice the bit length, the least that passes the test; the result divides all n up to nmax exactly when d is at most nmax + 1 or nmax is 0 |
| `Reciprocal.MagicDivides` | kernel/tools/reciprocal.py:24-37 | whenever the search test passes, (n * m) >> p equals n / d for every n up to nmax |
| `Reciprocal.LastShiftIsEnough` | kernel/tools/reciprocal.py:26-28 | the last shift of the search always passes the test |
| `Reciprocal.DivisorsServed` | kernel/tools/reciprocal.py:24-33 | for larger divisors the multiplier is 1 with shift 0, which divides only when nmax is 0 |
| `Reciprocal.ErrorIsSmall` | kernel/tools/reciprocal.py:25-28 | the search test bounds the rounding error for every n |
| `Reciprocal.QuotientBounds` | kernel/tools/reciprocal.py:36-37 | n * m lies between the quotient and its successor times 2^p |
| `Varints.EncodeVarint32` | nanopb/pb_encode.c:570-602 | the two-halves loop emits the canonical base-128 form in at most ten bytes |
| `Varints.EncodeVarint` | nanopb/pb_encode.c:604-620 | the same for every 64-bit value, including the one-byte shortcut |
| `Varints.VarintShape` | nanopb/pb_encode.c:570-602 | the form is canonical: continuation bits on all bytes but the last, and no zero group at the end |
| `Varints.VarintRoundTrip` | nanopb/pb_decode.c:239-259 | decoding inverts encoding for every 64-bit value, leaving the rest |
| `Varints.Varint32RefinesVarint` | nanopb/pb_decode.c:169-231 | whatever the 32-bit decoder accepts the 64-bit decoder accepts, with the same bytes consumed and equal values modulo 2^32 |
| `Varints.Varint32RoundTrip` | nanopb/pb_decode.c:169-236 | the 32-bit decoder inverts encoding for every 32-bit value |
| `Varints.ZigZagRoundTrip` | nanopb/pb_encode.c:622-631 | zig-zag maps signed values onto the expected words and back |
| `Varints.UnZigZagRoundTrip` | nanopb/pb_decode.c:1314-1326 | zig-zag is onto: every word comes back |
| `Varints.VarintLengths` | nanopb/pb_encode.c:570-602 | at most ten bytes for 64 bits and five for 32 |
| `ProtoRoundTrip.MsgRoundTrip` | nanopb/pb_decode.c:963-1125 | for every descriptor whose tags increase, default values and fixed-count arrays included, and every message the encoder accepts, at any nesting depth, decoding the encoding returns the message: every present field unchanged, absent ones absent |
| `ProtoRoundTrip.MsgReadsBack` | nanopb/pb_decode.c:963-1125 | for every descriptor with distinct tags in any order, also in submessages, and every message the encoder accepts: what decoding the encoding returns, field by field, and when it fails for a lost required field |
| `ProtoRoundTrip.RoundTripIff` | nanopb/pb_decode.c:963-1125 | decoding the encoding returns the message exactly when every field that is found has contents that come back and every other field is as initialised and untracked |
| `ProtoRoundTrip.SentReadsBack` | nanopb/pb_decode.c:963-1125 | the same as MsgReadsBack for messages from which fixed-count arrays are left out |
| `ProtoRoundTrip.LocateLater` | nanopb/pb_common.c:195-244 | from a field, a later one is found exactly when its tag is larger and not above the last field's |
| `ProtoRoundTrip.FieldsReadBack` | nanopb/pb_decode.c:963-1125 | the same from any field on, into a partly decoded message |
| `ProtoRoundTrip.SlotStep` | nanopb/pb_encode.c:415-466 | the bytes of a field that is found make the decoder set exactly that field, or fail |
| `ProtoRoundTrip.PackedStep` | nanopb/pb_encode.c:125-237 | a packed array is read back as that array |
| `ProtoRoundTrip.EachStep` | nanopb/pb_encode.c:125-237 | an unpacked array is read element by element, each as it comes back |
| `ProtoRoundTrip.LostSlot` | nanopb/pb_decode.c:1015-1049 | all records of a field that the search does not find are passed over, arrays included |
| `ProtoRoundTrip.ValueReadsBack` | nanopb/pb_decode.c:392-461 | a value of every type is read as it comes back, submessages through their own descriptors |
| `ProtoRoundTrip.IntRoundTrip` | nanopb/pb_decode.c:1378-1453 | integers of every size and signedness survive, through the casts |
| `ProtoRoundTrip.BytesRoundTrip` | nanopb/pb_decode.c:1455-1543 | bytes, strings and fixed-length bytes survive |
| `ProtoRoundTrip.FixedRoundTrip` | nanopb/pb_decode.c:1328-1375 | fixed-width values survive |
| `ProtoRoundTrip.PrefixedRoundTrip` | nanopb/pb_decode.c:358-371 | a length prefix delimits exactly its bytes |
| `ProtoRoundTrip.DefaultMsgIsInit` | nanopb/pb_encode.c:241-355 | a message that the default check omits is the one the decoder starts from |
| `ProtoRoundTrip.LocateIsFirstTag` | nanopb/pb_common.c:195-244 | with increasing tags, what the search finds does not depend on where it starts |
| `ProtoSafety.DecodedIsHeld` | nanopb/pb_decode.c:963-1167 | whatever the bytes, an accepted message has only values of the types and within the capacities of its fields, at most one alternative of each oneof, and every fixed-count array complete or untouched |
| `ProtoSafety.DecodedRoundTrip` | nanopb/pb_decode.c:1155-1167 | a message decoded from any bytes, without fixed-count arrays, passes the encoder's checks, and reads back the same exactly when it is kept, which it is with tags in order |
| `ProtoSafety.MissingArrayAccepted` | nanopb/pb_decode.c:1051-1091 | leave any fixed-count arrays out of an encoded message with tags in order: it decodes to the same message with those arrays untouched |
| `ProtoSafety.ArrayWrittenIff` | nanopb/pb_decode.c:1051-1091 | whatever the bytes that are accepted and the order of the tags, a fixed-count array is complete exactly when the search assigns it a record, and untouched exactly when it does not |
| `ProtoSafety.ArrayWrittenIffTag` | nanopb/pb_decode.c:1051-1091 | with tags in order: exactly when the bytes hold a top-level record with its tag |
| `ProtoMeaning.DecodeMeans` | nanopb/pb_decode.c:963-1167 | what any accepted bytes mean, over the records that skipping reads: a repeated field holds the values of its records in order, packed or not; a fixed-count array those of its last run; of a oneof the alternative of the last record is set, the others absent; any other field what its records are read into, one after the other |
| `ProtoMeaning.DecodeAccepts` | nanopb/pb_decode.c:963-1167 | bytes are accepted exactly when they are made of records that every field can take, with complete runs of fixed-count arrays and a record for each tracked required field |
| `ProtoMeaning.OwnByTag` | nanopb/pb_decode.c:963-1167 | with tags in order, the records of a field are those with its tag |
| `ProtoMeaning.LastWins` | nanopb/pb_decode.c:463-505 | of a single field that is no submessage, the last record counts |
| `ProtoSafety.SlotAsSkip` | nanopb/pb_decode.c:304-314 | reading a field takes as many bytes as skipping it, so the records do not depend on the descriptor |
| `ProtoSafety.FieldsHeld` | nanopb/pb_decode.c:963-1125 | the field loop keeps that, from any partly decoded message |
| `OneOfOrder.LargestTagIsLost` | nanopb/generator/nanopb_generator.py:1174-1176 | a oneof of two alternatives around the tag of the one other field: the message comes back without the alternative of the largest tag, and unchanged exactly when that is not set |
| `OneOfOrder.InnerFieldIsLost` | nanopb/generator/nanopb_generator.py:1174-1176 | with a further field of a larger tag: the field in between comes back as initialised if the larger alternative is set, and the message unchanged exactly when that is not set or the field was as initialised |
| `OneOfOrder.LostIff` | nanopb/pb_common.c:195-244 | on any descriptor, a written field is lost exactly when its tag is above the last field's, or below the first field's or that of an earlier field that is found |
| `OneOfOrder.LocateIsSearch` | nanopb/pb_common.c:195-244 | the decoder's search is the iterator's |
| `ProtoRoundTrip.SkipsValue` | nanopb/pb_decode.c:304-314 | a value of any type, submessages included, is skipped exactly |
| `ProtoEncoder.EncodeSubmessage` | nanopb/pb_encode.c:710-758 | the sizing pass and the writing pass agree: the prefix is exact and "submsg size changed" cannot happen |
| `ProtoEncoder.GetEncodedSize` | nanopb/pb_encode.c:554-563 | reports exactly the number of bytes that encoding produces, and fails exactly when a count or length is over capacity |
| `ProtoEncoder.EncodeMsg` | nanopb/pb_encode.c:509-531 | succeeds exactly when every capacity check passes and the bytes fit, and then has written exactly EncMsg |
| `ProtoEncoder.EncodeField` | nanopb/pb_encode.c:415-466 | the same for one field, with required, optional, singular, repeated and oneof rules |
| `ProtoEncoder.EncodeArray` | nanopb/pb_encode.c:125-237 | the same for arrays, packed and unpacked |
| `ProtoEncoder.EncodePacked` | nanopb/pb_encode.c:136-190 | the packed length, computed by multiplication or by a sizing pass, is exact |
| `ProtoEncoder.PackedSize` | nanopb/pb_encode.c:136-172 | the size of the packed elements |
| `ProtoEncoder.EncodeBasicField` | nanopb/pb_encode.c:359-400 | tag and value for one element |
| `ProtoEncoder.EncodeValue` | nanopb/pb_encode.c:762-938 | the value of every type |
| `ProtoEncoder.EncodeBytes` | nanopb/pb_encode.c:842-938 | checks the capacity and writes prefix and bytes |
| `ProtoEncoder.OStream.Write` | nanopb/pb_encode.c:81-102 | writes all bytes or fails when they do not fit; a sizing stream only counts |
| `ProtoEncoder.OStream.WriteVarint` | nanopb/pb_encode.c:604-620 | writes the canonical form |
| `ProtoEncoder.OStream.WriteTag` | nanopb/pb_encode.c:661-665 | writes the tag varint |
| `ProtoEncoder.OStream.WriteString` | nanopb/pb_encode.c:702-708 | writes length and bytes |
| `ProtoEncoder.OStream.WriteFixed` | nanopb/pb_encode.c:633-658 | writes little-endian bytes |
| `ProtoEncoder.OStream.WriteInt` | nanopb/pb_encode.c:762-815 | writes the bytes of EncValue, which SignedWire, UnsignedWire and ZigZagWire describe; the error is that of the stream |
| `WireForm.SignedWire` | nanopb/pb_encode.c:769-815 | a signed number of any size is written as the 64-bit two's complement, so that negative ones take ten bytes |
| `WireForm.UnsignedWire` | nanopb/pb_encode.c:762-815 | booleans and unsigned numbers are written as they are |
| `WireForm.ZigZagWire` | nanopb/pb_encode.c:622-630 | 0, -1, 1, -2 and so on are written as 0, 1, 2, 3 |
| `WireForm.FixedWire` | nanopb/pb_encode.c:633-658 | four or eight bytes, of which byte j is the j-th digit to base 256 |
| `WireForm.LengthWire` | nanopb/pb_encode.c:702-758 | bytes, strings and submessages are their length and then themselves |
| `WireForm.KeyWire` | nanopb/pb_encode.c:661-700 | the key is 8 * tag + wire type, with the wire types 0, 1, 2 and 5; one byte for tags below 16 |
| `WireForm.PackedWire` | nanopb/pb_encode.c:125-237 | a packed array is a key with wire type 2, the length of the values, and the values |
| `WireForm.EncodedKeys` | nanopb/pb_encode.c:509-531 | skipping finds in an encoding exactly one record for each value that is not omitted, one for each packed array, in field order |
| `WireForm.OmittedIff` | nanopb/pb_encode.c:359-400 | nothing is written for a field exactly when it is absent, an empty array, or a singular field without default that holds its initial value |
| `WireForm.DefaultIff` | nanopb/pb_encode.c:241-355 | the default test accepts exactly the initial values, and none of a submessage that always writes something |
| `WireForm.VarintMeans` | nanopb/pb_decode.c:239-259 | any varint of up to ten bytes, shortest or not, is read as the number of its groups of seven bits, less the bits from 64 on |
| `WireForm.VarintTooLong` | nanopb/pb_decode.c:239-259 | a varint that does not end within ten bytes, or at all, is refused |
| `WireForm.Varint32Accepts` | nanopb/pb_decode.c:169-236 | exactly which varints the 32-bit reader takes: up to four bytes, five that fit, and longer ones whose further bytes only extend the sign or are zero |
| `WireForm.SignedMeans` | nanopb/pb_decode.c:1383-1453 | a signed field takes exactly the varints whose low 32 or 64 bits are the two's complement of a number in its range |
| `WireForm.UnsignedMeans` | nanopb/pb_decode.c:1383-1453 | unsigned and zig-zag fields take exactly the varints in their range |
| `WireForm.BoolMeans` | nanopb/pb_decode.c:1304-1312 | any number but zero is true |
| `WireForm.StringMeans` | nanopb/pb_decode.c:1495-1543 | a string is taken exactly when it fits with its terminator, and ends at the first zero byte |
| `WireForm.BytesMeans` | nanopb/pb_decode.c:1455-1493 | bytes are taken exactly when they fit, and in a field of fixed length exactly when they have that length or are empty |
| `ProtoStream.IStream.ReadByte` | nanopb/pb_decode.c:123-139 | takes the first byte, or fails at the end |
| `ProtoStream.IStream.Read` | nanopb/pb_decode.c:84-119 | takes exactly n bytes, or fails |
| `ProtoStream.IStream.ReadVarint` | nanopb/pb_decode.c:239-259 | the loop with 64-bit shifts reads DecodeVarint |
| `ProtoStream.IStream.ReadVarint32` | nanopb/pb_decode.c:169-236 | the loop with the sign-extension checks reads DecodeVarint32 |
| `ProtoStream.IStream.MakeSubstream` | nanopb/pb_decode.c:358-386 | splits off exactly the prefixed bytes |
| `ProtoStream.IStream.SkipVarintBytes` | nanopb/pb_decode.c:262-271 | skips through the first byte without a top bit |
| `ProtoStream.IStream.SkipField` | nanopb/pb_decode.c:304-314 | skips a field of any wire type, and fails on unknown ones |
| `ProtoStream.IStream.ReadFixed` | nanopb/pb_decode.c:1328-1375 | assembles four or eight little-endian bytes |
| `ProtoStream.IStream.ReadInt` | nanopb/pb_decode.c:1378-1453 | accepts an integer exactly when the cast to the field size keeps it |
| `ProtoStream.IStream.ReadBytes` | nanopb/pb_decode.c:1455-1619 | checks the length against the capacity and takes the bytes |
| `ProtoStream.CastSignedKeeps` | nanopb/pb_decode.c:1426-1446 | a signed cast keeps the value exactly when it is in range |
| `ProtoDecoder.DecodeMessage` | nanopb/pb_decode.c:1155-1167 | decodes the whole stream as Decode says and leaves it empty |
| `ProtoDecoder.DecodeInner` | nanopb/pb_decode.c:963-1125 | the field loop, with the search from the current field, unknown fields skipped, fixed counts checked and required fields tracked in bits, returns DecFields |
| `ProtoDecoder.DecodeStaticField` | nanopb/pb_decode.c:463-537 | merges one field as DecSlot says, whose values over all records ProtoMeaning.DecodeMeans gives |
| `ProtoDecoder.DecodePacked` | nanopb/pb_decode.c:474-504 | the packed loop stores exactly the packed values, within capacity |
| `ProtoDecoder.DecodeBasicField` | nanopb/pb_decode.c:392-461 | reads one value of any type |
| `ProtoDecoder.DecodeSubmessage` | nanopb/pb_decode.c:1545-1596 | decodes the delimited bytes into the submessage |
| `ProtoDecoder.SetToDefaults` | nanopb/pb_decode.c:924-951 | one pass over the fields and the stream of defaults gives the initial message: every default in its field, everything else zero or absent |
| `ProtoDecoder.SetFieldToDefault` | nanopb/pb_decode.c:842-922 | clears one field, submessages through their own defaults |
| `ProtoDecoder.EnterField` | nanopb/pb_decode.c:1051-1074 | refuses to leave a fixed-count array that is not complete |
| `ProtoDecoder.FieldsSeen.Mark` | nanopb/pb_decode.c:1076-1081 | the two 32-bit words then record that field as well |
| `ProtoDecoder.FieldsSeen.AllSeen` | nanopb/pb_decode.c:1093-1121 | the word comparisons succeed exactly when all tracked required fields were recorded |
| `ProtoDecoder.TracksAll` | nanopb/pb_decode.c:1093-1121 | all bits up to the count are set exactly when every tracked required field of the descriptor was seen |
| `Codec.EncodeThenDecode` | nanopb/pb_decode.c:1155-1167 | the two stream programs together, exactly when the bytes fit the buffer, return what comes back for tags in any order, and the message itself when the tags increase |
| `Codec.EncodeIntoGeneratedSize` | nanopb/generator/nanopb_generator.py:1253-1264 | a buffer of the generated size never overflows |
| `SizeBound.MessageBound` | nanopb/generator/nanopb_generator.py:1253-1264 | every message that the encoder accepts, with declared enum values, takes at most the generated number of bytes |
| `SizeBound.ItemBound` | nanopb/generator/nanopb_generator.py:733-796 | the same for one field or oneof |
| `SizeBound.UnionBound` | nanopb/generator/nanopb_generator.py:965-980 | only one alternative is written, so the largest bounds a oneof |
| `SizeBound.ArrayBound` | nanopb/generator/nanopb_generator.py:784-794 | an array, packed or not, of counted or fixed length, stays within the size of the unpacked one with its allowance |
| `SizeBound.PackedFits` | nanopb/generator/nanopb_generator.py:784-794 | the packed length prefix always fits in the tags saved, or in the extra byte |
| `SizeBound.ValueBound` | nanopb/generator/nanopb_generator.py:733-782 | a value of every type is within its size, nested length prefixes included |
| `SizeBound.ScalarBound` | nanopb/generator/nanopb_generator.py:104-144 | every value of every integer size is within the table's size |
| `SizeBound.EnumBound` | nanopb/generator/nanopb_generator.py:299-300 | every declared value is within the enum's size |
| `SizeBound.ComputeVarintMaxSize` | nanopb/generator/nanopb_generator.py:198-205 | the number of base-128 groups, or the error past ten |
| `SizeBound.ComputeEnumSize` | nanopb/generator/nanopb_generator.py:299-300 | the largest size of a declared value |
| `SizeBound.ComputeFieldSize` | nanopb/generator/nanopb_generator.py:733-796 | FieldSize, or the error of a size past ten varint bytes |
| `SizeBound.ComputeUnionSize` | nanopb/generator/nanopb_generator.py:965-980 | UnionSize, which SizePeak.UnionSizeIsMax shows to be the largest alternative, by a running maximum |
| `SizePeak.LargestEncoding` | nanopb/generator/nanopb_generator.py:1253-1264 | no message that the encoder accepts takes more than the generated size less the slack, and some message takes exactly that |
| `SizePeak.MsgPeak` | nanopb/generator/nanopb_generator.py:1253-1264 | no accepted message is larger than the peak, the size that the largest values of all fields add up to |
| `SizePeak.MsgAttains` | nanopb/generator/nanopb_generator.py:1253-1264 | the message of largest values is accepted and takes exactly the peak |
| `SizePeak.MsgSlack` | nanopb/generator/nanopb_generator.py:1253-1264 | the generated size is the peak and exactly this slack, from the types alone: a key for each further element of a packed array less its length prefix, a byte for an unpacked array of one element, the prefix of a string that is one byte too long, a submessage's own slack with what it adds to the prefix, all of a field that is never written, and in a oneof the alternative that is largest with its slack |
| `SizePeak.UnionSizeIsMax` | nanopb/generator/nanopb_generator.py:965-980 | the size of a oneof is at least that of every alternative, and that of one of them |
| `SizePeak.EnumSizeIsMax` | nanopb/generator/nanopb_generator.py:299-300 | the size of an enum is that of one of its values, and not of a zero if it has another value |
| `SizeBound.ComputeMessageSize` | nanopb/generator/nanopb_generator.py:1253-1264 | MessageSize, by a running sum |
| `FieldIter.PackRoundTrip` | nanopb/pb.h:716-764 | among fields that pass the static assertions, exactly those with one array element (one word) or a size offset below 128 (four and eight words) are read back as packed |
| `FieldIter.SizeOffsetLost` | nanopb/pb.h:716-764 | an entry with size offset 256 passes the static assertions and is read back as the one with size offset 0 |
| `FieldIter.CompleteIffIncreasing` | nanopb/pb_common.c:195-244 | without extension ranges the search finds every field from every position exactly when the tags increase strictly |
| `FieldIter.SearchFinds` | nanopb/pb_common.c:195-244 | with increasing tags the search finds the unique field, or misses an extension range elsewhere |
| `FieldIter.SearchMisses` | nanopb/pb_common.c:238-242 | a tag that no field has is never found |
| `FieldIter.InterleavedOneOf` | nanopb/generator/nanopb_generator.py:1174-1176 | with tags 1 and 5 of a oneof around a field 3: exactly which searches succeed; from the first field, tag 5 is not found |
| `FieldIter.LoadAt` | nanopb/pb_common.c:8-113 | the words at a field's start give back its values |
| `FieldIter.Iterator.Find` | nanopb/pb_common.c:195-244 | terminates, stands on the field Search names with all four indices its prefix counts, or is back at its start |
| `FieldIter.Iterator.Advance` | nanopb/pb_common.c:115-143 | moves to the next field, or restarts; all four indices are prefix counts |
| `FieldIter.Iterator.Next` | nanopb/pb_common.c:188-193 | loads the next field and tells whether it wrapped |
| `FieldIter.Iterator.LoadValues` | nanopb/pb_common.c:8-113 | loads the values of the field at the index |
| `Utf8.ValidateUtf8` | nanopb/pb_common.c:334-385 | accepts exactly the strings that are encodings of scalar values other than U+FFFE and U+FFFF, and reads no byte past the terminator |
| `Utf8.SequenceSpells` | nanopb/pb_common.c:345-382 | every byte sequence of section 4 of RFC 3629 is the encoding of a scalar value |
| `Utf8.EncodeIsSequence` | nanopb/pb_common.c:345-382 | every scalar value is encoded as such a sequence |
| `Utf8.TextStep` | nanopb/pb_common.c:337-382 | one iteration rejects only non-text and otherwise leaves text exactly when it started with text |
| `TagClasses.TagDecodable` | kernel/tools/bitfield_gen.py:456-471 | in every accepted union, the emitted reader applied to any value with an element's tag, other bits arbitrary, stops at its width and returns its tag |
| `TagClasses.NeverConfused` | kernel/tools/bitfield_gen.py:1338-1401 | no value holds the tags of two elements |
| `TagClasses.TwoWidthsAccepted` | kernel/tools/bitfield_gen.py:2231-2253 | a union with four-bit and eight-bit tags is accepted, so the results above apply |
| `TagClasses.PassesSmaller` | kernel/tools/bitfield_gen.py:2178-2188 | the reader does not stop at a smaller width |
| `TagClasses.StopsAtOwn` | kernel/tools/bitfield_gen.py:2190-2200 | the reader stops at the element's own width |
| `TagClasses.TaggedUnion.MakeClasses` | kernel/tools/bitfield_gen.py:2228-2341 | accepts exactly the masks that pass the checks, and records offsets, relative masks and sorted widths |
| `TagClasses.TaggedUnion.CheckMasks` | kernel/tools/bitfield_gen.py:2306-2332 | the four loops accept exactly the masks that lie in their fields, are nested, have a first that is not zero and no duplicate before the last |
| `TagClasses.MasksMean` | kernel/tools/bitfield_gen.py:2306-2332 | bit by bit: masks are accepted exactly when each lies in its field and within the next one, the first of several has a bit, and only the last may repeat |
| `TagClasses.ValueMeans` | kernel/tools/bitfield_gen.py:2163-2200 | bit by bit: a value is accepted for its width exactly when it lies in the field, has all bits of the smaller widths' masks, and lacks one of its own mask's unless its width is the largest |
| `TagClasses.ChecksNeeded` | kernel/tools/bitfield_gen.py:2163-2200 | the check on values is exact: it accepts those, and only those, that some union can hold and that the reader finds in every union that holds them |
| `TagClasses.TaggedUnion.AssertValueInClass` | kernel/tools/bitfield_gen.py:2163-2200 | accepts exactly the values that fit the field, match the smaller masks and miss their own |
| `TagClasses.TaggedUnion.Resolve` | kernel/tools/bitfield_gen.py:1322-1377 | accepts exactly when masks, names, values, offsets, alignment, and the blocks' sizes and bases pass |
| `TagClasses.TaggedUnion.SetBase` | kernel/tools/bitfield_gen.py:1379-1398 | accepts exactly when all tag fields lie in one word |
| `TagClasses.TaggedUnion.Accept` | kernel/tools/bitfield_gen.py:1322-1398 | what both passes accept satisfies the assumption of the decodability results |

## Left out

- BandwidthRuns.SlidingWindow: updates to period 0, which make a context round robin, end a run, and a call of refill_new starts a new one.
- RefillQueue.BudgetCheckInv: contexts with a period, as the kernel asserts; the charges of round-robin contexts are UseSlice and RenewSlice.
- ClhLock.RunInv: shared accesses are sequentially consistent; fences, `arch_pause` and the inter-processor interrupts handled while spinning are not modelled.
- FastpathRuns.RunInv: VSpace, ASID, HWASID, FPU and affinity checks are one boolean that can send any fastpath to the slow path; message registers, badges and context restore are not modelled, nor are the slow path, the non-MCS branches and priorities that change.
- FastpathRuns.SignalInv: in the step system, whether the woken context is active and released is part of the event; FastpathKernel.Kernel.FastpathSignal computes it from the refills. Cross-core wake-ups are not modelled.
- FastpathLaws.RunScheduled: the threads held until their release are a fixed set, and so are the active contexts; the ready threads are a set, so the place of a woken thread within its ready queue is not stated.
- FastpathRuns.CallThenReply: assumes that the server replies from an endpoint where nobody waits to send, with no pending fault and no active bound notification; otherwise the reply takes the slow path.
- EndpointQueues.RunInOrder: a thread's priority does not change while it waits.
- Scheduling queues (`tcb_queue_prepend`, `tcb_queue_append`, `tcb_queue_insert`): simpler than the endpoint queue.
- CSpace.ResolveAddressBits: radix and guard size of a CNode are not both 0, as the kernel asserts; capability rights play no part.
- CSpace.LookupFp: the CNode radix is at least 1; the code shifts by the word size otherwise.
- ProtoRoundTrip.MsgRoundTrip: no callback, extension or pointer fields; submessages and strings are shorter than 2^32 bytes, as their prefix requires.
- ProtoSafety.MissingArrayAccepted: what the memory of an untouched array holds is not stated, also where an enclosing submessage was cleared before.
- ProtoMeaning.DecodeMeans: descriptors as for ProtoRoundTrip.MsgRoundTrip; of a record inside a submessage it says only that the submessage is read again into what it holds.
- SizePeak.LargestEncoding: every enum declares a value, and those that it declares fit its C type.
- ProtoEncoder.EncodeMsg: encodings are shorter than 2^64 bytes, so that `size_t` does not wrap; output callbacks do not fail.
- ProtoDecoder.DecodeMessage: what a message holds after a failed decode is not stated; null-terminated and delimited variants, and conversion between double and float, are not modelled.
- ProtoDecoder.DecodeInner: calls the search as a function; OneOfOrder.LocateIsSearch and FieldIter.Iterator.Find connect it with the iterator.
- ProtoDecoder.SetFieldToDefault: a fixed-count array inside a submessage that the code clears with memset counts as unwritten, so that its elements are zero there is not stated.
- ProtoDecoder.SetToDefaults: the stream of defaults has the fields with defaults in the order of the field list.
- Varints.EncodeVarint32: `|=` on disjoint bits is addition.
- SizeBound.MessageBound: sizes that are symbols of other files are not modelled; items are in the order of the generated field list.
- SizeBound.ComputeFieldSize: a size that is a symbol of another file is not computed.
- FieldIter.Iterator.Find: pb_size_t counters do not overflow.
- FieldIter.Iterator.LoadValues: the pointers pField, pData and pSize and the submessage descriptor are not modelled; SubmsgCount is the index of that descriptor.
- TagClasses.TaggedUnion.Resolve: sliced tags and the `_equals` reader are not modelled.
- Fault handling, system-call dispatch, drivers, boot, benchmarking, header generators and proof templates: input and output, or dispatch to code of other files.
