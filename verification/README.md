# RedHAT: a verified model of the receive-window controller and its surroundings

RedHAT shapes the TCP receive window around predictable satellite handovers.  A kernel
patch samples rate and round-trip time on outgoing ACKs, freezes a parameter snapshot ahead
of each predicted handover and walks a schedule of phases; a user-space monitor detects the
handover period from gaps in ping replies, locks it and programs the kernel.  This project
models both, and the parts of the TCP send side and of the socket iterator that the patched
kernel files carry, and proves what they keep over every run.

Run `dafny verify dfyconfig.toml` to check everything.

| Modules | What they model |
|---|---|
| `MachineInts`, `Containers`, `Statistics` | integer widths and division; shared types; medians, percentiles and rounding over reals |
| `LeoParameters`, `LeoController`, `LeoRuns`, `LeoTargets`, `LeoEstimates`, `LeoSocket`, `LeoScenario` | the dynamic receive-window controller: its arithmetic, one ACK as a transition, order of phases, window targets, averages and clocks, the per-socket state updated in place, and a run through a whole handover |
| `ReceiveWindow` | the window selection of an ACK with the fixed and the dynamic controller |
| `Tsq` | the TCP Small Queues throttle/wakeup protocol as interleaved atomic steps |
| `RtxQueue`, `RtxSocket` | surgery on the retransmit queue and its four packet counters |
| `MtuProbe` | building a path-MTU probe out of the write queue (RFC 4821, section 7) |
| `SocketIterator` | the resumable walk over the socket hash tables |
| `Clustering`, `PeriodFit`, `PhaseLock` | the monitor's detection: common events, period fits, anchors and phase errors |
| `Monitor`, `MonitorLoop`, `MonitorScenario` | the monitor's four-mode controller as transitions over runs, as variables updated in place, and a run of it |

Every routine that changes state in place is a method tied to a function of the old state;
the lemmas speak about runs of those functions.

## What the proofs say about the code

- `tcp_leo_rwnd_clamp` promises in its comment not to shrink the window faster than bytes
  arrive.  The current window it compares with is already net of those bytes and they are
  subtracted again, so an ACK can pull the right edge back by as many bytes as it
  acknowledges.  `ReceiveWindow.FixedClampKeepsEdgeExactly` says exactly when it does not.
- The recovery ramp starts at the frozen minimum whatever has arrived since the capture, so after
  a blackout the first ACK can pull the right edge left of where it was
  (`LeoTargets.FirstRampAckKeepsEdgeExactly`).
- The minimum window is a 32-bit product and is rounded up in 32 bits; both can wrap to zero
  for absurd segment counts (`LeoTargets.MinimumIsOneUnitExactly`).
- Bytes received since the capture are counted in 32 bits, so the drain target jumps back up
  after 2^32 bytes (`LeoTargets.DrainMonotoneExactly`).
- A head trim before a retransmission re-segments without correcting the counters; they are
  off afterwards unless the rest needs as many segments (`RtxQueue.RetransmitExactly`).
- Throttling loses no wakeup if and only if a limit exceeded by memory in use implies an skb
  in flight (`Tsq.NeverLostExactly`).
- The monitor clears its signed phase errors when it resynchronises, but not the absolute
  errors behind the prediction guard (`Monitor.AbsErrorsCurrentOverRuns`).
- The skip penalty is not normalised, and a negative one lets a score exceed the fit ratio or
  divides by zero (`PeriodFit.ScoreBoundedExactly`).

## Model

| member | source | states |
|---|---|---|
| `LeoParameters.Ewma` | redhat_kernel/tcp_redhat.c:23-39 | the average lies between the old value and the sample and never falls back to zero |
| `LeoParameters.CalcOutage` | redhat_kernel/tcp_redhat.c:329-386 | the frozen outage never exceeds half a round trip, whatever the bounds and guards |
| `LeoParameters.Ramp` | redhat_kernel/tcp_redhat.c:669-682 | the reduction due after part of the PRE length never exceeds the whole and is the whole at its end |
| `LeoParameters.RampMonotone` | redhat_kernel/tcp_redhat.c:669-682 | the reduction due never shrinks as time passes |
| `LeoRuns.StepInv` | redhat_kernel/tcp_redhat.c:747-840 | one ACK keeps the controller invariant; under a kept snapshot the stage never goes back and a recorded baseline is never replaced |
| `LeoRuns.RunInv` | redhat_kernel/tcp_redhat.c:747-840 | the controller invariant holds after any sequence of ACKs with clocks that do not go back |
| `LeoRuns.PhasesInOrder` | redhat_kernel/tcp_redhat.c:542-644 | between any two ACKs of one snapshot the stages waiting, PRE, DRAIN, OUTAGE, past the outage, RECOVERY only advance, and the phase reported at both ends is that of the stage |
| `LeoRuns.StagesAdvance` | redhat_kernel/tcp_redhat.c:576-637 | over any run under one snapshot the stage does not go back and the snapshot and the baseline stand |
| `LeoRuns.FirstAckAfterBoundaryStartsRamp` | redhat_kernel/tcp_redhat.c:618-642 | however long the blackout, the first ACK past the boundary is RECOVERY at elapsed zero at the frozen minimum, if the ramp length is not zero |
| `LeoRuns.RampRunsItsLength` | redhat_kernel/tcp_redhat.c:516-527 | the snapshot of a running ramp is kept if and only if the ramp has not run its length; inside it the phase is RECOVERY at the true elapsed time |
| `LeoRuns.ExpiredRampUnreachable` | redhat_kernel/tcp_redhat.c:521-527 | the phase search never sees a frozen state whose ramp has expired |
| `LeoRuns.OutageEndsByBoundary` | redhat_kernel/tcp_redhat.c:576-616 | OUTAGE lies in the frozen period and ends by its boundary, uncut when the period exceeds half a round trip |
| `LeoRuns.FreezeAheadCoversSchedule` | redhat_kernel/tcp_redhat.c:388-433 | the freeze-ahead time is exactly the schedule that would be frozen plus the freeze guard |
| `LeoRuns.FreezeIsEarlyEnough` | redhat_kernel/tcp_redhat.c:496-540 | an unfrozen ACK at or past the PRE start implied by the measurements takes the snapshot itself and runs its phase, also when it is the first of the socket and when the schedule saturates at zero |
| `LeoRuns.ControlledTarget` | redhat_kernel/tcp_redhat.c:811-839 | in PRE, DRAIN and OUTAGE the uncapped target is the captured window minus the reduction due so far |
| `LeoRuns.BaselineRecordedOnce` | redhat_kernel/tcp_redhat.c:786-810 | the baseline is recorded exactly when a controlling phase is first seen under a snapshot |
| `LeoScenario.WholeHandover` | redhat_kernel/tcp_redhat.c:542-644 | with the default settings (and a zero offset) a run of six ACKs goes through NORMAL, PRE, DRAIN, OUTAGE, RECOVERY and back under one snapshot: the premises of the order results are met |
| `LeoTargets.TargetNeverIncreases` | redhat_kernel/tcp_redhat.c:646-737 | across PRE, DRAIN and OUTAGE of one snapshot the uncapped target never increases, up to 2^32 bytes after the capture |
| `LeoTargets.RightEdgeNeverMovesLeft` | redhat_kernel/tcp_redhat.c:716-737 | target plus bytes received since the capture never drops below the captured window: the right edge stays at or right of where it was |
| `LeoTargets.FirstRampAckKeepsEdgeExactly` | redhat_kernel/tcp_redhat.c:618-642 | the first ACK past the boundary keeps the captured edge, or the ordinary one, if and only if the bytes the whole reduction stands for have arrived or ordinary TCP announces no more than the minimum |
| `LeoTargets.DrainMonotoneExactly` | redhat_kernel/tcp_redhat.c:646-737 | over every run of a new socket, inside the announced windows or not, the target never rises within a handover for at most `bytes` bytes after the capture if and only if `bytes` is below 2^32, where the 32-bit counter wraps |
| `LeoTargets.DrainRisesAtWrap` | redhat_kernel/tcp_redhat.c:725-736 | a run with the default settings (and a zero offset) whose bytes all arrive inside the announced windows, in which the drain target stands at the minimum and jumps back to the captured window at the wrap |
| `LeoTargets.DrainStartsNearMinimum` | redhat_kernel/tcp_redhat.c:231-254 | if PRE was not cut short and data arrived at the frozen rate, DRAIN stands less than rate/10^6 + 1 bytes above the minimum |
| `LeoTargets.RecoveryRises` | redhat_kernel/tcp_redhat.c:685-714 | the ramp rises from the frozen minimum without ever falling and reaches its end value when it has run its length |
| `LeoTargets.MinimumIsOneUnitExactly` | redhat_kernel/tcp_redhat.c:111-132 | the minimum window is at least one scaling unit if and only if the 32-bit product is not zero and rounding it up does not wrap |
| `LeoTargets.MinimumNeverWrapsForFewSegments` | redhat_kernel/tcp_redhat.c:111-132 | up to 65535 segments the product cannot wrap |
| `LeoTargets.MinimumCanWrapToZero` | redhat_kernel/tcp_redhat.c:111-132 | 2^22 segments of 1024 bytes give a zero minimum |
| `LeoTargets.TargetAboveMinimum` | redhat_kernel/tcp_redhat.c:815-834 | outside NORMAL the uncapped target is never below the frozen minimum |
| `LeoTargets.NeverCreatesZeroWindow` | redhat_kernel/tcp_redhat.c:836-839 | in every run whose minimum does not wrap, an ordinary window that is open after scaling gives a controlled window that is open after scaling |
| `LeoTargets.WrappedMinimumClosesWindow` | redhat_kernel/tcp_redhat.c:111-132 | a run of a new socket inside the announced windows in which a wrapped minimum makes the controller announce zero where ordinary TCP would announce a megabyte |
| `LeoTargets.DrainKeepsWindowOpenExactly` | redhat_kernel/tcp_redhat.c:716-737 | DRAIN keeps every open window open if and only if the frozen minimum is at least one scaling unit |
| `LeoEstimates.EwmaRunBetween` | redhat_kernel/tcp_redhat.c:23-39 | over any run an average stays inside every interval that holds its inputs, and never returns to zero |
| `LeoEstimates.EwmaConverges` | redhat_kernel/tcp_redhat.c:23-39 | fed a constant, an average comes within 2^shift of it in finitely many steps and stays there |
| `LeoEstimates.RateSampleIsFloor` | redhat_kernel/tcp_redhat.c:196-205 | a rate sample is the whole number of bytes per second since the last sample, while the product stays inside 64 bits |
| `LeoEstimates.AveragesStep` | redhat_kernel/tcp_redhat.c:196-228 | rate, baseline and window averages move by one step at a due NORMAL sample and are held at every other ACK |
| `LeoEstimates.AveragesAreFolds` | redhat_kernel/tcp_redhat.c:165-229 | over any run each average is exactly the fold of what was fed to it |
| `LeoEstimates.AveragesWithinInputs` | redhat_kernel/tcp_redhat.c:165-229 | over any controller run each average stays inside every interval that holds its first value and all it was fed, and none returns to zero |
| `LeoEstimates.PhaseMsIsRemainder` | redhat_kernel/tcp_output.c:276-296 | the millisecond position is the shifted time modulo the period |
| `LeoEstimates.MicrosecondClockRefines` | redhat_kernel/tcp_redhat.c:74-109 | period id and position are quotient and remainder of one shifted time, and the position divided by 1000 is the millisecond position |
| `LeoEstimates.BoundaryIsAnchorLattice` | bin/redhat_monitor/redhat_auto_monitor.py:532-554 | with the offset the monitor programs, the position is zero exactly at the anchor plus every multiple of the period |
| `LeoSocket.DynamicState.constructor` | redhat_kernel/tcp_redhat.c:739-745 | the state before the first ACK |
| `LeoSocket.DynamicState.UpdateMeasurements` | redhat_kernel/tcp_redhat.c:165-229 | the in-place update performs the measurement transition |
| `LeoSocket.DynamicState.FreezeParameters` | redhat_kernel/tcp_redhat.c:435-494 | the in-place freeze performs the snapshot transition and forgets the old baseline and ramp |
| `LeoSocket.DynamicState.MaybeFreeze` | redhat_kernel/tcp_redhat.c:496-540 | release and freeze in place perform their transition |
| `LeoSocket.DynamicState.FindPhase` | redhat_kernel/tcp_redhat.c:542-644 | the phase search returns the phase of the schedule and starts the ramp |
| `LeoSocket.DynamicState.RecordBaseline` | redhat_kernel/tcp_redhat.c:787-797 | the baseline is the ordinary window between the frozen minimum and start, at the current stream position |
| `LeoSocket.DynamicState.Settle` | redhat_kernel/tcp_redhat.c:785-811 | sampling and recording the baseline in place perform their transition |
| `LeoSocket.DynamicState.DynamicTarget` | redhat_kernel/tcp_redhat.c:747-840 | one call performs exactly the step all runs are made of and never returns more than the ordinary window |
| `ReceiveWindow.FixedSchedule` | redhat_kernel/tcp_output.c:319-347 | in every stretch of the period the window lies between the minimum and the normal window |
| `ReceiveWindow.FixedTarget` | redhat_kernel/tcp_output.c:298-348 | the fixed target lies between the smaller of minimum and normal window and the normal window, on or off |
| `ReceiveWindow.FixedClampExactly` | redhat_kernel/tcp_output.c:350-395 | the clamp is min(new, max(target, current minus drained)) |
| `ReceiveWindow.FixedClampKeepsEdgeExactly` | redhat_kernel/tcp_output.c:366-384 | the clamp keeps the current edge if and only if the target is high enough or no more bytes arrived than the ordinary choice gives up |
| `ReceiveWindow.FixedClampRetreatBounded` | redhat_kernel/tcp_output.c:402-449 | one ACK pulls the edge back by no more than the bytes received since the last update, unless ordinary TCP does |
| `ReceiveWindow.FixedClampPullsEdgeBack` | redhat_kernel/tcp_output.c:366-384 | a concrete ACK that pulls the edge back by the 10000 bytes it acknowledges |
| `ReceiveWindow.EdgeStaysRight` | redhat_kernel/tcp_output.c:432-449 | without permission to shrink no ACK moves the right edge left |
| `ReceiveWindow.EdgeStaysRightOverRuns` | redhat_kernel/tcp_output.c:402-449 | without permission to shrink the right edge never moves left over any run outside the out-of-memory path (RFC 9293, section 3.8.6) |
| `ReceiveWindow.Wire` | redhat_kernel/tcp_output.c:451-461 | the window field fits 16 bits and is zero exactly below one scaling unit (RFC 7323, section 2.3) |
| `ReceiveWindow.WireNeverZeroUnlessOrdinary` | redhat_kernel/tcp_output.c:424-461 | with dynamic control the window field is zero only if ordinary TCP's would be, in every run whose minimum does not wrap |
| `ReceiveWindow.ControllerStateOverRuns` | redhat_kernel/tcp_output.c:424-431 | over a run of window selections the controller sees exactly the run of its ACKs |
| `ReceiveWindow.CaptureMovesEdgeExactly` | redhat_kernel/tcp_redhat.c:786-810 | an ACK that records a baseline announces the smaller of captured and ordinary window, and pulls the edge left if and only if that is below the current window |
| `ReceiveWindow.EdgeUntilNextSnapshot` | redhat_kernel/tcp_redhat.c:716-737 | from the capturing ACK on, while its snapshot is kept, the announced edge stays at or right of the smaller of the captured and the ordinary edge, in the ramp once the bytes of the whole reduction have arrived |
| `ReceiveWindow.RampPullsEdgeBack` | redhat_kernel/tcp_redhat.c:685-714 | a run in which no byte arrives after the capture and the first ACK after the blackout pulls the edge from 1000000 back to 4096 |
| `ReceiveWindow.TcpReceiver.constructor` | redhat_kernel/tcp_output.c:402-407 | the receiver before the first ACK |
| `ReceiveWindow.TcpReceiver.SelectWindow` | redhat_kernel/tcp_output.c:402-473 | the in-place selection announces the specified window and stores it with the position it was measured from |
| `Tsq.CountsStep` | redhat_kernel/tcp_output.c:1346-1391 | every step keeps sk_wmem_alloc equal to base plus data in flight plus one unit per destructor, list entry and tasklet run, and gives the QUEUED token to one holder |
| `Tsq.ExclusiveStep` | redhat_kernel/tcp_output.c:1242-1321 | every step, also of a packet received in softirq, keeps one sender under the lock and leaves no DEFERRED behind a release |
| `Tsq.PendingStep` | redhat_kernel/tcp_output.c:1242-1293 | a handler in sight stays in sight until it has run the sender or deferred to the owner |
| `Tsq.WatchedStep` | redhat_kernel/tcp_output.c:1346-1384 | a THROTTLED that a destructor will see is kept until a destructor turns it into QUEUED |
| `Tsq.InvStep` | redhat_kernel/tcp_output.c:1242-1391 | every atomic step keeps the whole invariant |
| `Tsq.RunInv` | redhat_kernel/tcp_output.c:1242-1391 | the invariant holds at the end of every interleaving |
| `Tsq.NoWakeupIsLost` | redhat_kernel/tcp_output.c:2768-2813 | in every state of every interleaving a sender that returned "throttled" on an open connection has a handler coming, the socket is on at most one tasklet list and the memory account is exact |
| `Tsq.TinyLimitLosesWakeup` | redhat_kernel/tcp_output.c:2791-2810 | with a smaller limit a run in which at least two skbs have been sent, their destructors are gone, and a sender throttles itself with nobody left to see it |
| `Tsq.NeverLostExactly` | redhat_kernel/tcp_output.c:2791-2810 | no run loses a wakeup if and only if the smallest limit is at least one less than the truesize of the smallest skb |
| `Tsq.StalledCanComplete` | redhat_kernel/tcp_output.c:1242-1321 | while a sender of an open connection is stalled some destructor, tasklet, softirq or release step is enabled |
| `Tsq.WorkShrinks` | redhat_kernel/tcp_output.c:1257-1391 | every completion step, including a failed compare-and-exchange, shrinks a bound on the work left |
| `Tsq.WakeupComes` | redhat_kernel/tcp_output.c:1242-1391 | from any reachable state what was started completes in a bounded number of steps, and then no sender of an open connection is stalled |
| `RtxQueue.SetTsoSegs` | redhat_kernel/tcp_output.c:1664-1676 | only the packet count and the segment size change, and several packets have a segment size |
| `RtxQueue.SegmentsCoverPayload` | redhat_kernel/tcp_output.c:1664-1676 | the packet count is the number of MSS-sized packets the payload needs |
| `RtxQueue.FragmentInv` | redhat_kernel/tcp_output.c:1752-1842 | a split keeps the contiguous partition, the bytes, FIN on the last skb and all four counters exact |
| `RtxQueue.ResegmentInv` | redhat_kernel/tcp_output.c:3510-3518 | re-segmentation keeps the queue and the counters exact |
| `RtxQueue.CollapseInv` | redhat_kernel/tcp_output.c:3354-3392 | merging two one-packet skbs keeps the queue and the counters exact |
| `RtxQueue.CollapseRunInv` | redhat_kernel/tcp_output.c:3411-3446 | the whole walk over the successors keeps the queue and the counters exact |
| `RtxQueue.RetransmitInv` | redhat_kernel/tcp_output.c:3452-3601 | a retransmission that does not trim, or whose trim leaves the packet count, keeps the queue and the counters exact, on success and on every error |
| `RtxQueue.RetransmitExactly` | redhat_kernel/tcp_output.c:3452-3601 | any retransmission of an skb not marked retransmitted, trimmed or not and whatever the outcome, leaves a contiguous queue of the unacknowledged rest of the stream; the counters are exact if and only if no trim changes how many segments the payload needs |
| `RtxQueue.RetransCountExactly` | redhat_kernel/tcp_output.c:3583-3591 | marking the skb and adding its packets to retrans_out keeps the counters exact if and only if it was not marked already |
| `RtxQueue.TrimHeadCountsExactly` | redhat_kernel/tcp_output.c:1880-1901 | a head trim leaves the counters exact if and only if what is left of the payload still needs as many segments, a condition on the skb and the length |
| `RtxQueue.TrimmedRetransmitMiscounts` | redhat_kernel/tcp_output.c:3468-3484 | a lost skb of three 48-byte segments, two of them acknowledged, is retransmitted as one packet while packets_out and lost_out still count three |
| `RtxQueue.SendLengthIsWholeSegments` | redhat_kernel/tcp_output.c:3499-3504 | the retransmitted length is whole segments, at most the number asked for, unless the window has less than one |
| `RtxQueue.RetransmitWithinWindow` | redhat_kernel/tcp_output.c:3468-3504 | what is about to be retransmitted begins at or above snd_una and ends inside the send window, or is one segment at snd_una |
| `RtxQueue.SurgeryKeepsQueue` | redhat_kernel/tcp_output.c:3354-3601 | over any sequence of splits, re-segmentations, collapses and retransmissions the queue stays a contiguous partition of the same bytes, less acknowledged ones trimmed off its head, with FIN last, and the counters stay the sums of pcount |
| `RtxQueue.LeftOutBounded` | redhat_kernel/tcp_output.c:1681-1704 | sacked_out plus lost_out never exceeds packets_out, so the consistency warning at the end of the counter correction never fires |
| `RtxSocket.Sender.constructor` | redhat_kernel/tcp_output.c:1681-1704 | an empty queue has exact counters |
| `RtxSocket.Sender.AdjustPcount` | redhat_kernel/tcp_output.c:1681-1704 | the four counters lose the packets of an skb according to its marks |
| `RtxSocket.Sender.Fragment` | redhat_kernel/tcp_output.c:1752-1842 | the in-place split performs the split transition, with its error cases |
| `RtxSocket.Sender.CollapseRetrans` | redhat_kernel/tcp_output.c:3354-3392 | the in-place merge performs the merge transition |
| `RtxSocket.Sender.TryCollapse` | redhat_kernel/tcp_output.c:3411-3446 | the in-place walk performs the walk of merges |
| `RtxSocket.Sender.Resegment` | redhat_kernel/tcp_output.c:3510-3518 | the in-place re-segmentation performs its transition |
| `RtxSocket.Sender.Prepare` | redhat_kernel/tcp_output.c:3452-3521 | everything up to the transmission performs its transition, with the trim and every early return |
| `RtxSocket.Sender.TrimHead` | redhat_kernel/tcp_output.c:1880-1901 | the in-place trim drops the bytes and re-segments without touching the counters |
| `RtxSocket.Sender.Finish` | redhat_kernel/tcp_output.c:3561-3591 | the marks and retrans_out after the transmission |
| `RtxSocket.Sender.Retransmit` | redhat_kernel/tcp_output.c:3452-3601 | one call performs the retransmission transition and keeps a sound queue sound unless a trim changes the packet count |
| `MtuProbe.TrimmedPayload` | redhat_kernel/tcp_output.c:1847-1877 | what is left after a head trim is the payload without exactly its first bytes |
| `MtuProbe.TrimHead` | redhat_kernel/tcp_output.c:1847-1877 | the in-place compaction of the fragment array leaves exactly the trimmed fragments |
| `MtuProbe.MergeAdjacent` | redhat_kernel/tcp_output.c:2548-2554 | growing the last fragment by one that continues it on the same page appends that one's bytes |
| `MtuProbe.AddFragment` | redhat_kernel/tcp_output.c:2545-2562 | taking part of a fragment appends exactly its bytes, or fails on a full array without a change |
| `MtuProbe.ClonePayload` | redhat_kernel/tcp_output.c:2526-2575 | a clone references exactly the first bytes of the queue in at most 17 fragments; it fails only on linear data or on a queue of more than 17 fragments |
| `MtuProbe.EatKeepsStream` | redhat_kernel/tcp_output.c:2677-2704 | after the head is eaten the queue is the old stream without exactly those bytes, contiguous, with FIN still on its last skb |
| `MtuProbe.EatKeepsMarks` | redhat_kernel/tcp_output.c:2508-2524 | a probe that may be coalesced keeps every end-of-record mark at its sequence number |
| `MtuProbe.ProbeKeepsStream` | redhat_kernel/tcp_output.c:2657-2704 | probe payload followed by the remaining queue is the old queue byte for byte, contiguous, with the same FIN and record marks, whatever the pages hold |
| `MtuProbe.EnoughData` | redhat_kernel/tcp_output.c:2617-2634 | room for the probe and one more segment leaves a byte unprobed, so a FIN is never eaten |
| `MtuProbe.SendQueue.EatHead` | redhat_kernel/tcp_output.c:2677-2704 | the in-place loop eats exactly the head and gathers the flags |
| `MtuProbe.SendQueue.BuildProbe` | redhat_kernel/tcp_output.c:2657-2704 | a failed clone leaves the queue unchanged; otherwise probe and rest are the old stream |
| `MtuProbe.SendQueue.Probe` | redhat_kernel/tcp_output.c:2586-2724 | 0 is answered exactly when waiting helps and changes nothing, an early -1 changes nothing, a failed transmission keeps the stream in the write queue, 1 moves exactly the first bytes to the retransmit queue, only inside the window with cwnd for two more, and whenever nothing stands in the way |
| `SocketIterator.WalkIsTheMatchingSockets` | redhat_kernel/tcp_ipv4.c:2567-2686 | the walk of a table visits exactly its matching sockets, each once, in table order |
| `SocketIterator.ResumePoint` | redhat_kernel/tcp_ipv4.c:2741-2773 | bucket and offset of a socket lead back to it: skipping the offset inside its bucket gives the rest of the walk from it |
| `SocketIterator.Iterator.constructor` | redhat_kernel/tcp_ipv4.c:2775-2795 | no position is saved and no lock is held at the start |
| `SocketIterator.Iterator.FindInChain` | redhat_kernel/tcp_ipv4.c:2594-2598 | the first matching socket of a chain from a position on, if there is one |
| `SocketIterator.Iterator.GetFirst` | redhat_kernel/tcp_ipv4.c:2579-2603 | the first matching socket at or after the bucket, with its bucket locked, or the end with no lock |
| `SocketIterator.Iterator.GetNext` | redhat_kernel/tcp_ipv4.c:2610-2632 | the walk advances by exactly one socket, across buckets, and the lock moves with it |
| `SocketIterator.Iterator.GetIdx` | redhat_kernel/tcp_ipv4.c:2634-2648 | the walk from the start is advanced by min(pos, number of sockets) and counts exactly that many |
| `SocketIterator.Iterator.TcpGetIdx` | redhat_kernel/tcp_ipv4.c:2725-2739 | a full rescan yields the item of the listing at that index, listening sockets first, with its running number |
| `SocketIterator.Iterator.SeekInTable` | redhat_kernel/tcp_ipv4.c:2754-2767 | a saved cursor leads back to the socket it was saved at; from any cursor the walk stays sound |
| `SocketIterator.Iterator.SeekLastPos` | redhat_kernel/tcp_ipv4.c:2741-2773 | from any saved cursor a socket is returned exactly with its bucket locked; a cursor saved at a position shows that position again with its running number |
| `SocketIterator.Iterator.SeqStart` | redhat_kernel/tcp_ipv4.c:2775-2795 | resuming and rescanning both show the item of the listing at the position, with its number and its one lock |
| `SocketIterator.Iterator.NextListening` | redhat_kernel/tcp_ipv4.c:2809-2817 | after the last listening socket come the established ones |
| `SocketIterator.Iterator.SeqNext` | redhat_kernel/tcp_ipv4.c:2798-2826 | the next item of the listing is shown, and the cursor is saved at it |
| `SocketIterator.Iterator.SeqStop` | redhat_kernel/tcp_ipv4.c:2829-2844 | the lock dropped is the one that is held, and none is held afterwards |
| `SocketIterator.Iterator.Session` | redhat_kernel/tcp_ipv4.c:2775-2844 | start, any number of nexts and stop, from any position, list exactly the items from there on and leave no lock behind |
| `Statistics.MedianGrows` | bin/redhat_monitor/redhat_auto_monitor.py:61-62 | adding a value not below any other does not lower the median |
| `Statistics.MedianWithin` | bin/redhat_monitor/redhat_auto_monitor.py:61-62 | a median lies between any bounds of its values |
| `Statistics.PercentileWithin` | bin/redhat_monitor/redhat_auto_monitor.py:164-176 | an interpolated percentile lies between any bounds of its values |
| `Statistics.SortPermutes` | bin/redhat_monitor/redhat_auto_monitor.py:167 | sorting keeps every value as often as it occurred |
| `PeriodFit.Lattice` | bin/redhat_monitor/redhat_auto_monitor.py:73-77 | an interval is explained by at least one period and has a residual that is not negative |
| `PeriodFit.FitIsBounded` | bin/redhat_monitor/redhat_auto_monitor.py:179-239 | with a penalty that is not negative every fit, refined or not, has 0 < score <= fit ratio <= 1, a positive period, and median and 95th percentile residual within the tolerance |
| `PeriodFit.FitIsSound` | bin/redhat_monitor/redhat_auto_monitor.py:179-239 | whatever the penalty a fit has a positive period, ratios within one and residuals within the tolerance |
| `PeriodFit.ScoreBoundedExactly` | bin/redhat_monitor/redhat_auto_monitor.py:179-239 | where an interval is explained, 0 < score <= fit ratio if and only if the first pass does not divide by zero and the penalty is not negative or all intervals used in the end span one period |
| `PeriodFit.NegativePenaltyBreaksBound` | bin/redhat_monitor/redhat_auto_monitor.py:206-208 | scoring two intervals of two periods each with penalty -0.5 gives twice the fit ratio |
| `PeriodFit.ExactScore` | bin/redhat_monitor/redhat_auto_monitor.py:190-228 | exact multiples of a period are all explained, are not refined, and score by their mean multiple alone |
| `PeriodFit.DivisorScoresLower` | bin/redhat_monitor/redhat_auto_monitor.py:204-210 | for exact multiples and a positive penalty a divisor of the period explains the same intervals and scores strictly lower |
| `PeriodFit.CollectHits` | bin/redhat_monitor/redhat_auto_monitor.py:190-195 | the loop collects exactly the explained intervals |
| `PeriodFit.FilterRemovesNothing` | bin/redhat_monitor/redhat_auto_monitor.py:254 | on strictly increasing events the filter for positive intervals removes nothing |
| `PeriodFit.FilterRemovesNothingExactly` | bin/redhat_monitor/redhat_auto_monitor.py:254 | the filter removes nothing if and only if every event is later than the one before |
| `PeriodFit.Candidates` | bin/redhat_monitor/redhat_auto_monitor.py:258-265 | the candidates are exactly the rounded k-th parts of intervals inside the period range |
| `PeriodFit.WinnerIsNearBest` | bin/redhat_monitor/redhat_auto_monitor.py:267-279 | in any order the search fails exactly when a candidate divides by zero; otherwise the winner is one of the fits and none beats it by more than one tie margin per candidate, and there is none only if nothing fits |
| `PeriodFit.SelectBest` | bin/redhat_monitor/redhat_auto_monitor.py:267-279 | the selection loop performs the selection |
| `PeriodFit.EstimatePeriod` | bin/redhat_monitor/redhat_auto_monitor.py:242-279 | for any order of the candidate set and any penalty the result is a fit of a candidate within one tie margin per candidate of the best, none, or the failure of a candidate; with a penalty that is not negative it is bounded and never fails |
| `PeriodFit.AnswerIsSound` | bin/redhat_monitor/redhat_auto_monitor.py:242-279 | whatever the order of the candidates, a fit that is answered has a positive period |
| `Clustering.ArrangeOrders` | bin/redhat_monitor/redhat_auto_monitor.py:302 | the sort orders points by time and target and keeps each as often as it occurred |
| `Clustering.ClustersPartition` | bin/redhat_monitor/redhat_auto_monitor.py:307-319 | every point is in exactly one cluster, in order, and no cluster is empty |
| `Clustering.OpensLater` | bin/redhat_monitor/redhat_auto_monitor.py:310-317 | a point that opens a cluster is later than the last point of the one before by more than the negative part of the tolerance, so strictly later when the tolerance is not negative |
| `Clustering.NeverSplitsExactly` | bin/redhat_monitor/redhat_auto_monitor.py:307-319 | clusters are strictly ordered in time, so equal timestamps are never split, if and only if the tolerance is not negative or all timestamps differ |
| `Clustering.EntryWithin` | bin/redhat_monitor/redhat_auto_monitor.py:333-348 | a reported centre lies within its cluster and its support is the number of distinct supporters |
| `Clustering.FirstsAreEarliest` | bin/redhat_monitor/redhat_auto_monitor.py:333-336 | the time a target contributes to the centre is its earliest in the cluster |
| `Clustering.CentresIncrease` | bin/redhat_monitor/redhat_auto_monitor.py:282-350 | each reported event has at least the required number of distinct supporters, and centres are strictly increasing if and only if the tolerance is not negative, one target is too few, or no two events have the same time |
| `Clustering.NoIntervalIsLost` | bin/redhat_monitor/redhat_auto_monitor.py:254 | on reported centres the filter for positive intervals removes nothing, under exactly the same condition |
| `Clustering.EveryEventInOneCluster` | bin/redhat_monitor/redhat_auto_monitor.py:292-319 | the clusters hold exactly the in-window events of the listed targets, each as often as it occurred |
| `Clustering.GroupPoints` | bin/redhat_monitor/redhat_auto_monitor.py:307-319 | the loop builds exactly the clusters |
| `Clustering.ClusterCommonEvents` | bin/redhat_monitor/redhat_auto_monitor.py:282-350 | the loops return exactly the common events of the collected points |
| `PhaseLock.ErrorWithinHalfPeriod` | bin/redhat_monitor/redhat_auto_monitor.py:353-366 | the phase error is at most half a period, and zero at the anchor |
| `PhaseLock.InliersExactly` | bin/redhat_monitor/redhat_auto_monitor.py:375 | the inliers are exactly the events on the lattice |
| `PhaseLock.BestInliersAreMost` | bin/redhat_monitor/redhat_auto_monitor.py:369-379 | no event explains more of the others than the chosen one |
| `PhaseLock.AnchorFoundExactly` | bin/redhat_monitor/redhat_auto_monitor.py:369-397 | there is an anchor if and only if there is an event and period and tolerance make sense; the newest event on its lattice then exists and is never older |
| `PhaseLock.FindAnchor` | bin/redhat_monitor/redhat_auto_monitor.py:369-382 | the loop returns exactly the chosen anchor |
| `Monitor.NeverMixedParameters` | bin/redhat_monitor/redhat_auto_monitor.py:532-541 | written one sysctl at a time from a disabled kernel, no intermediate state exposes a mixture of old and new parameters |
| `Monitor.ProgramTurnIsTimely` | bin/redhat_monitor/redhat_auto_monitor.py:1162-1212 | a round whose fit is the period search's answer for its events is one of those all runs range over |
| `Monitor.IterateInv` | bin/redhat_monitor/redhat_auto_monitor.py:1063-1481 | one round of the main loop keeps the controller invariant |
| `Monitor.RunInv` | bin/redhat_monitor/redhat_auto_monitor.py:1063-1481 | the controller invariant holds after every run with a wall clock that does not go back |
| `Monitor.EveryRun` | bin/redhat_monitor/redhat_auto_monitor.py:927-1481 | at every step boundary of every run: active, not learning, locked and enabled are the same; the kernel runs on the rounded locked period and anchor; sleep has no probes; sessions are backed; stored phase errors are current; phase writes keep their distance |
| `Monitor.ActivatesExactly` | bin/redhat_monitor/redhat_auto_monitor.py:1229-1274 | an analysis while learning activates if and only if the fit is good, learning time and cooldown have passed, enough good fits are on record and there is an event to anchor on |
| `Monitor.ActivationIsEarned` | bin/redhat_monitor/redhat_auto_monitor.py:1240-1310 | an activation locks the median of good fits all made since learning began, anchors on a common event and starts an empty confirmation |
| `Monitor.SleepIsBacked` | bin/redhat_monitor/redhat_auto_monitor.py:1347-1473 | sleep is entered only at the end of a session, on at least the required number of strictly increasing events within tolerance of the lattice they were counted on |
| `Monitor.SessionsEnd` | bin/redhat_monitor/redhat_auto_monitor.py:1450-1473 | a round at or after the deadline ends the session |
| `Monitor.ResyncMovesLittle` | bin/redhat_monitor/redhat_auto_monitor.py:1375-1403 | a resynchronisation moves the anchor by at most the tolerance, and exactly when a consensus that is not zero is strong, due and applied |
| `Monitor.AnchorMovesLittle` | bin/redhat_monitor/redhat_auto_monitor.py:1328-1403 | while it stays active an analysis keeps the period and moves the anchor by at most the tolerance |
| `Monitor.AbsErrorsCurrentExactly` | bin/redhat_monitor/redhat_auto_monitor.py:1354-1403 | counting an event leaves a current history behind the prediction guard current if and only if no resynchronisation moves the anchor |
| `Monitor.AbsErrorsCurrentOverRuns` | bin/redhat_monitor/redhat_auto_monitor.py:1354-1403 | over every run that history is measured against the anchor in force if and only if it holds no more errors than events have been counted since a resynchronisation last moved the anchor |
| `MonitorScenario.ResyncLeavesStaleError` | bin/redhat_monitor/redhat_auto_monitor.py:1063-1481 | two rounds of the loop from the start, with the fits the period search answers for their events, into a stored error measured against an anchor no longer in force |
| `MonitorScenario.RoundsAreAnswered` | bin/redhat_monitor/redhat_auto_monitor.py:1200-1212 | the two fits of that run are what the period search answers for the events of the round |
| `MonitorLoop.Controller.constructor` | bin/redhat_monitor/redhat_auto_monitor.py:927-957 | the initial variables satisfy the invariant |
| `MonitorLoop.Controller.ProgramRedhat` | bin/redhat_monitor/redhat_auto_monitor.py:532-541 | four single writes perform the programming and return what was programmed |
| `MonitorLoop.Controller.EnterLearning` | bin/redhat_monitor/redhat_auto_monitor.py:964-1014 | the in-place reset performs the transition to learning |
| `MonitorLoop.Controller.EnterSleep` | bin/redhat_monitor/redhat_auto_monitor.py:1016-1030 | the in-place update performs the transition to sleep |
| `MonitorLoop.Controller.StartValidation` | bin/redhat_monitor/redhat_auto_monitor.py:1032-1062 | the in-place update starts a validation or falls back to learning |
| `MonitorLoop.Controller.Finish` | bin/redhat_monitor/redhat_auto_monitor.py:1450-1473 | the end of a session performs its transition |
| `MonitorLoop.Controller.TryActivate` | bin/redhat_monitor/redhat_auto_monitor.py:1262-1310 | the activation attempt performs its transition, including when there is no anchor |
| `MonitorLoop.Controller.ValidEvents` | bin/redhat_monitor/redhat_auto_monitor.py:1347-1352 | exactly the newer events on the lattice are kept |
| `MonitorLoop.Controller.CountEvent` | bin/redhat_monitor/redhat_auto_monitor.py:1354-1363 | counting an event performs its transition |
| `MonitorLoop.Controller.ConsensusOver` | bin/redhat_monitor/redhat_auto_monitor.py:1370-1388 | median, sign ratio and thresholds decide exactly as specified |
| `MonitorLoop.Controller.ResyncIfDue` | bin/redhat_monitor/redhat_auto_monitor.py:1365-1403 | the in-place resynchronisation performs its transition |
| `MonitorLoop.Controller.Maintain` | bin/redhat_monitor/redhat_auto_monitor.py:1328-1481 | the active part of an analysis performs its transition |
| `MonitorLoop.Controller.Analyse` | bin/redhat_monitor/redhat_auto_monitor.py:1161-1481 | one analysis performs its transition |
| `MonitorLoop.Controller.Iterate` | bin/redhat_monitor/redhat_auto_monitor.py:1063-1481 | one round of the loop performs exactly the step all runs are made of and keeps the invariant |

## Left out

- Tsq.NoWakeupIsLost: takes memory as sequentially consistent, and takes the units that destructors and tasklets keep, with the socket's own share, to be less than one skb; the bound on the limit is exact (`NeverLostExactly`) where the socket's own share leaves room for one destructor.
- Tsq.WakeupComes: schedules only the steps that finish what was started; that a scheduler runs them is outside the model.
- LeoTargets.TargetNeverIncreases: holds up to 2^32 bytes after the capture, where the kernel's 32-bit difference wraps; `DrainMonotoneExactly` shows by a run of a new socket that the bound is exact.
- LeoTargets.DrainStartsNearMinimum: speaks of data that has arrived since the capture, whenever within PRE it was recorded.
- ReceiveWindow.EdgeStaysRight: takes windows that can be announced and a stream that does not run 2^31 bytes past the edge, where signed sequence comparison stops being exact; the out-of-memory path closes the window on purpose.
- RtxQueue.SurgeryKeepsQueue: sequence numbers are stream positions without 32-bit wrap-around, the connection uses SACK (no Reno correction of sacked_out), and retransmitted skbs are not marked sacked or retransmitted, as the retransmit walk selects them; only the head of the queue may begin below snd_una, and a trim that changes its packet count is excluded because it makes the counters wrong.
- RtxQueue.RetransmitExactly: takes the bytes a trim drops to be payload, so a fully acknowledged skb with FIN, which the queue no longer holds, is left out.
- RtxQueue.RetransmitInv: leaves out SYN handling, ECN fallback, copying of unaligned skbs and lost_cnt_hint, which touch neither the bytes nor the four counters.
- MtuProbe.SendQueue.Probe: sequence numbers do not wrap; memory scheduling, skb allocation and transmission succeed or fail as inputs, and the eligibility test before the sizes is one input.
- MtuProbe.ClonePayload: page reference counts and truesize are not modelled.
- SocketIterator.Iterator.SeqStart: the tables do not change between reads; only lock discipline and soundness of a returned socket are stated for arbitrary saved cursors.
- PeriodFit.EstimatePeriod: floats are reals, and the exception of a division by zero is a third outcome.
- Monitor.EveryRun: kernel management is on, every sysctl write succeeds, the wall clock does not go back during a run, and fits have a positive period, as the fitting guarantees.
- Monitor.AnchorMovesLittle: floats are reals, as in all of the monitor.
- MonitorLoop.Controller.Iterate: the nonlocal variables are fields of one record that the methods reassign; process handling, ping parsing, logging and the choice of active targets are inputs of a round.
- The choice of the prediction guard and its sysctl are not modelled; only the history it is computed from is.
- Gap detection per target (adaptive thresholds, merging) is not modelled: events are inputs of the clustering.
- Port matching, rate-limited logging, statistics counters and pacing timers are not modelled.
- Sysctl changes during a run, backward clock steps of the kernel clocks and the per-socket destructor are not modelled.
- The socket reference counts around the tasklet and the other deferred events of the release callback are not modelled.
- The BPF socket iterator is not modelled.
- Authentication options, fast open, multipath, connection setup, the plotting and evaluation scripts and the ping receivers are not modelled.
