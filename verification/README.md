# Verified model of the LTE real-time executive

The executive passes subframes from the radio units (RUs) to the base-station L1 threads and back to the
radio, with matching threads on the UE side. This project models the parts whose correctness is not visible
in any single function and proves them for every interleaving, every input stream and every run:

* the thread hand-offs built from integer instance counters, a mutex and one condition variable shared by
  both directions (`TxRendezvous`, `RxHandoff`, `UePipeline`, `UeSync`, `Startup`) and their composition
  (`EnbChain`, `EnbJoint`);
* time keeping: sample timestamps, frame and subframe counters, the transmit-ahead mapping, SFN unwrapping
  (`LteTime`, `RxClock`, `SfnUnwrap`);
* collectors and barriers on bit masks (`Bitmask`, `Collector`, `RuBarrier`, `WaitCount`);
* the radio write discipline: burst flags, write windows, the recovery after a late command, and the UE's
  block accounting under timing correction (`TxBurst`, `UeBlocks`);
* the walk over the downlink PDU list of the UE stub (`PduWalk`).

A thread protocol is a partial step function with one program counter per thread; `Transition.Exec` runs it
over an arbitrary sequence of events, so a fact about all runs is a fact about all interleavings, including
spurious wake-ups. Throughput and termination are stated as bounds on the length of a run and need no fairness
assumption. Objects the source updates in place are classes whose methods are tied to specification functions.

Some properties one would expect turn out to be false of the code. Each has a counterexample and an exact
condition:

* the arguments of `wakeup_tx` are read after the slot was given back, so they can mix two subframes
  (`EnbChain.InconsistentCallReachable`, `EnbChain.HandedConsistentIff`);
* a frame resynch ends the program for most drifts, for times before zero and on a rollover without drift
  (`RxClock.BeforeZeroExits`, `RxClock.ResynchRunIff`, `RxClock.ResynchWithoutDrift`);
* dumping an even frame reads the receive buffer while the main thread already writes it
  (`UeSync.BufferRaceReachable`, `UeSync.BufferRaceIff`);
* a timing error of exactly half a frame is never corrected (`UeBlocks.NeverConverges`, `UeBlocks.Converges`);
* a recovery whose restart falls on a special subframe breaks the burst structure
  (`TxBurst.RecoveryBreaksBursts`, `TxBurst.RecoveryBracketedIff`);
* with two radio units one can use up the recovery of the other, since they share `late_control`
  (`TxBurst.RecoveryStolen`, `TxBurst.EmergencyEndAnsweredIff`, `TxBurst.RecoveryAnsweredIff`);
* the barrier can fire without waking the L1 when a radio unit loses synchronisation within a round
  (`RuBarrier.FiringWithoutWakeup`, `RuBarrier.WakesIff`);
* the waiting count of a radio unit can go negative, and then the barrier stops
  (`WaitCount.NegativeIff`, `WaitCount.NegativeStays`, `RuBarrier.NegativeStops`).

## Model

| member | source | states |
|---|---|---|
| `TxRendezvous.InvAlways` | executables/lte-enb.c:540-573 | mutual exclusion, counter in {-1, 0}, slot contents and histories hold in every reachable state of `wakeup_tx` and `L1_thread_tx` |
| `TxRendezvous.JobsDeliveredInOrder` | executables/lte-enb.c:311-359 | the jobs copied out and forwarded are a prefix of the non-uplink calls, in order, none lost or duplicated, with at most one outstanding per stage |
| `TxRendezvous.SlotStableWhileWorking` | executables/lte-enb.c:325-352 | no step of either thread changes the descriptor while the transmit thread works on it |
| `TxRendezvous.NoLostWakeup` | executables/lte-enb.c:550-570 | a sleeping producer means counter 0, a sleeping consumer means counter -1 or a signal on its way, and some thread can always step |
| `TxRendezvous.NothingLeftBehind` | executables/lte-enb.c:325-356 | when no call is under way and the transmit thread cannot go on, every non-uplink job was forwarded |
| `TxRendezvous.ThroughputBound` | executables/lte-enb.c:341-352 | any schedule finishes one job per 24 events, apart from skipped uplink calls and spurious wake-ups |
| `RxHandoff.InvAlways` | executables/lte-enb.c:576-625 | the hand-off invariant for any number of radio units calling `wakeup_rxtx` |
| `RxHandoff.CallsAccounted` | executables/lte-enb.c:586-621 | counter in {-1, 0}; every call is accepted or dropped; processed jobs are a prefix of the accepted ones, at most one behind |
| `RxHandoff.AcceptedIff` | executables/lte-enb.c:588-598 | in every reachable state, when any radio unit makes its check, its job is accepted if no accepted job is in flight and dropped if one is |
| `RxHandoff.AnyUnitServed` | executables/lte-enb.c:576-625 | a job of any radio unit is accepted and processed on some run |
| `RxHandoff.SlotStableWhileBusy` | executables/lte-enb.c:404-427 | the descriptor is not modified between the end of the wait and the release |
| `RxHandoff.NoLostWakeup` | openair1/PHY/defs_common.h:1137-1152 | the L1 thread sleeps on an accepted job only while the accepting radio unit is about to signal |
| `RxHandoff.NoDeadlock` | executables/lte-enb.c:576-625 | with at least one radio unit some thread can always step |
| `RxHandoff.NothingLeftBehind` | executables/lte-enb.c:404-435 | when all radio units are idle and the L1 thread cannot go on, every accepted job was processed and passed on and every call is accounted for |
| `RxHandoff.ThroughputBound` | executables/lte-enb.c:404-435 | any schedule is accounted for by twelve events per finished call and thirteen per hand-off, plus three per spurious wake-up |
| `RxHandoff.HandedFields` | executables/lte-enb.c:427-433 | each of the five fields passed to `wakeup_tx` is that of the job just processed, or of the next accepted one exactly when its store overtook the read |
| `RxHandoff.HandedFieldIff` | executables/lte-enb.c:427-433 | a field that differs between the two jobs is passed on as processed if and only if it was not overtaken |
| `RxHandoff.TornJobReachable` | executables/lte-enb.c:427-433 | for any two jobs, of one radio unit or of two, there is a run in which `wakeup_tx` receives the frame of the first with all else of the second |
| `EnbChain.ClockOffers` | executables/lte-enb.c:607-611 | a radio unit in sync, at any phase, computes a job from a decoded receive time |
| `EnbChain.ProcessedConsistent` | executables/lte-enb.c:607-611 | every job accepted, and so every job the L1 thread processes, has the frame and subframe of its timestamp |
| `EnbChain.MixConsistentIff` | executables/lte-enb.c:427-433 | a job mixed from any two consistent ones is consistent if and only if frame and subframe stem from the job of the timestamp or agree in both |
| `EnbChain.CoherentIff` | executables/lte-enb.c:427-433 | that condition for the jobs of any two absolute subframes, consecutive or not, in terms of those |
| `EnbChain.ConsecutiveCoherentIff` | executables/lte-enb.c:427-433 | for consecutive subframes a torn frame is harmless except at the end of a frame |
| `EnbChain.HandedConsistentIff` | executables/lte-enb.c:404-433 | in every interleaving, with or without dropped calls, a transmit call is consistent exactly under that condition on its overtaken fields |
| `EnbChain.InconsistentCallReachable` | executables/lte-enb.c:427-433 | with any number of radio units in sync there is a run in which `wakeup_tx` is called with a frame that is not that of its timestamp |
| `EnbChain.TransmittedConsistentIff` | executables/lte-enb.c:540-573 | both protocols in a row: each forwarded job is that of its own non-uplink call and is consistent if and only if that one hand-off meets the condition |
| `EnbJoint.Projects` | executables/lte-enb.c:404-435 | every run of radio units, L1 thread and transmit thread together is a run of both hand-offs, with the calls of one being the hand-offs of the other |
| `EnbJoint.ForwardedConsistentIff` | executables/lte-enb.c:404-435 | in every joint run a forwarded job is consistent with its timestamp if and only if its own hand-off was not torn |
| `EnbJoint.BlockedCallProgress` | executables/lte-enb.c:554-556 | while the L1 thread is blocked in `wakeup_tx` the transmit thread can go on |
| `EnbJoint.ChainDrains` | executables/lte-enb.c:404-435 | when radio units are idle and neither thread can go on, every accepted job was processed, handed on and, unless uplink, forwarded |
| `EnbJoint.ChainThroughput` | executables/lte-enb.c:404-435 | any schedule of the whole chain is accounted for by finished calls, hand-offs and transmitted jobs |
| `UePipeline.LoopFrames` | executables/lte-ue.c:1991-1997 | between adjustments the frame numbers count whole frames |
| `UePipeline.LoopFramesClosed` | executables/lte-ue.c:1991-1997 | the frame numbers of the loop in closed form, from the start or from the last adjustment by the receiver |
| `UePipeline.LoopJobClosed` | executables/lte-ue.c:1999-2001 | worker and subframe number of the k-th job of the sequential loop in closed form |
| `UePipeline.PostedFourLater` | executables/lte-ue.c:1999-2001 | in every interleaving every posted job is for the subframe exactly four later, frame and subframe together |
| `UePipeline.RefinesSequentialLoop` | executables/lte-ue.c:740-817 | in every interleaving, and however the receiver adjusts `frame_rx`, the processed subframes are those of the sequential loop with the same adjustments, each once and in order, at most one outstanding; scheduler and transmit half see the adjusted frame in both numbers |
| `UePipeline.BarrierBeforePost` | executables/lte-ue.c:1867-1877 | counters stay in {-1, 0}; a subframe is posted only when all earlier ones are processed and no worker runs |
| `UePipeline.NoDeadlock` | executables/lte-ue.c:1999-2009 | some thread can always step although both sides share a condition variable |
| `UePipeline.ThroughputBound` | executables/lte-ue.c:1958-2009 | any schedule processes one subframe per 26 events |
| `UeSync.InvAlways` | executables/lte-ue.c:1748-1819 | the invariant of the synchronisation hand-off in every reachable state |
| `UeSync.SyncHandoffSafe` | executables/lte-ue.c:1792-1802 | counter in {-1, 0}, the busy exit is unreachable, the buffer is filled only while the synchronisation thread is idle, no wake-up is lost |
| `UeSync.SyncedIff` | executables/lte-ue.c:610-639 | whenever no attempt is under way the UE counts as synchronised if and only if an attempt has synchronised, which then was the last one |
| `UeSync.StreamIff` | executables/lte-ue.c:610-683 | over all runs with given outcomes, the UE ever streams if and only if one of them is neither a failure nor a mere scan |
| `UeSync.BufferRaceOnlyWhileDumping` | executables/lte-ue.c:617-632 | the buffer is written and read at once only while streaming meets the dump of an even frame, never during `initial_sync` |
| `UeSync.BufferRaceFree` | executables/lte-ue.c:617-638 | there is no such race on any run whose attempts do not dump an even frame; giving up an odd frame is harmless |
| `UeSync.BufferRaceReachable` | executables/lte-ue.c:617-632 | when an even frame is dumped twenty events reach the race |
| `UeSync.BufferRaceIff` | executables/lte-ue.c:617-638 | over all runs with given outcomes, a race is reachable if and only if dumping an even frame is among them |
| `Startup.ConfigureMask` | executables/lte-ru.c:3062 | the configuration loop sets exactly the bits below the number of radio units |
| `Startup.RuKeepsMask` | executables/lte-ru.c:1663-1666 | clearing one bit of `ru_mask` changes no other, and the mask always names the radio units not yet configured |
| `Startup.NobodyStartsEarly` | executables/lte-softmodem.c:361-373 | the main thread passes `wait_RUs`, and any radio unit starts, only after every radio unit cleared its own bit |
| `Startup.RunsUntilStarted` | executables/lte-softmodem.c:565-606 | threads can step exactly as long as not everybody is started |
| `Startup.StartupTerminates` | openair1/PHY/defs_common.h:1053-1069 | no run is longer than 13 events per radio unit plus 10, plus 3 per spurious wake-up |
| `Bitmask.HasOr` | executables/lte-ru.c:223 | or-ing masks is union of their bits |
| `Bitmask.HasAndNot` | executables/lte-ru.c:1663-1666 | clearing bits is set difference |
| `Bitmask.SameBits` | executables/lte-ru.c:1188 | masks with the same bits are the same number, so the test for equality is a test for completeness |
| `Bitmask.AtLeastFull` | executables/lte-ru.c:236 | a mask is numerically at least the full one if and only if all its low bits are set or a higher bit is |
| `Collector.AbsorbDescribes` | executables/lte-ru.c:223-233 | one packet changes the description of a subframe's mask by its own symbol or tick only |
| `Collector.CompleteMeans` | executables/lte-ru.c:236 | the numeric exit test holds if and only if a tick came, all expected symbols came, or a symbol beyond them came |
| `Collector.CompleteInRange` | executables/lte-ru.c:208-211 | with symbols in range the exit test is completeness |
| `Collector.OutOfRangeSymbolCompletes` | executables/lte-ru.c:223 | otherwise a single symbol passes the test although none of the expected ones came |
| `Collector.ExpectedArrived` | executables/lte-ru.c:208-211 | the expected number of symbols is the uplink ones for a special subframe in TDD and all of them otherwise |
| `Collector.RuProc.Receive` | executables/lte-ru.c:223-233 | a packet is or-ed into the mask of its own subframe; every mask keeps describing the packets since it was cleared |
| `Collector.RuProc.Await` | executables/lte-ru.c:216-236 | the do-while loop absorbs packets in order until the awaited mask is complete, a stop is seen, the stream ends or a packet names a mask that does not exist; the last packet of a normal exit is for the awaited subframe |
| `Collector.RuProc.SetTime` | executables/lte-ru.c:243-274 | receive time, transmit time of single-thread mode and the caller's counters after the call, including the WAIT_RESYNCH case |
| `Collector.TimeDecodes` | executables/lte-ru.c:243-245 | the timestamp set for a received frame and subframe number decodes to them |
| `Collector.SingleThreadTime` | executables/lte-ru.c:248-251 | the transmit frame and subframe of single-thread mode are those of the timestamp `sf_ahead` subframes later |
| `Collector.RuProc.SouthIn` | executables/lte-ru.c:198-290 | the whole call, for every four-bit subframe and symbol number: a normal exit with numbers in range means a tick or every symbol (every uplink symbol in a TDD special subframe), and a call that still waits lacks one; the delivered mask is cleared and the other nine gained exactly the packets received for them; out-of-bounds subframes are an outcome |
| `RuBarrier.EnbProc.constructor` | executables/lte-enb.c:870 | all masks start empty |
| `RuBarrier.EnbProc.Visit` | executables/lte-ru.c:1158-1169 | one round of the loop over radio units adds exactly the bit its three conditions select |
| `RuBarrier.EnbProc.WakeupL1s` | executables/lte-ru.c:1131-1236 | a call fires if and only if the reported set is complete; it then empties the slot and wakes the L1 when the caller is not waiting; other slots are untouched |
| `RuBarrier.ExcusedUntil` | executables/lte-ru.c:1159 | a waiting slave is excused by others up to the first call outside subframe 9 that finds its count at one, and has to report from then on |
| `RuBarrier.EnbProc.RunSlot` | executables/lte-ru.c:1188-1218 | over any sequence of calls, with radio units changed in any way between them, mask, firings and wake-ups are the specified ones |
| `RuBarrier.MaskIsRound` | executables/lte-ru.c:1158-1193 | after any run the mask holds exactly the radio units that reported or were excused in the open round, and a call fires if and only if its round then covers all of them |
| `RuBarrier.FiringsAreMost` | executables/lte-ru.c:1188-1193 | however a run is cut into consecutive segments that each cover all radio units, there are no more segments than firings |
| `RuBarrier.RoundsCut` | executables/lte-ru.c:1188-1193 | and the rounds are such a cut with exactly as many segments as firings |
| `RuBarrier.WaiterClosesIff` | executables/lte-ru.c:1164-1169 | a radio unit that waits closes a round exactly when its call excuses all that neither reported nor were excused before in it |
| `RuBarrier.EveryFiringWakes` | executables/lte-ru.c:1206-1218 | which holds whenever roles are fixed within each round, however they change between rounds |
| `RuBarrier.WakesIff` | executables/lte-ru.c:1206-1218 | the L1 is woken at every firing if and only if no round of the run is closed in that way |
| `RuBarrier.FiringWithoutWakeup` | executables/lte-ru.c:1164-1169 | roles that change within a round break that: a slave goes back to synchronising, and two calls fire and wake nobody |
| `RuBarrier.ReportsBound` | executables/lte-ru.c:1188-1218 | a radio unit that no other call excuses reported in every round that fired, and once more if its bit is set, whatever the others do |
| `RuBarrier.ReportsExact` | executables/lte-ru.c:1188-1218 | the count is exact when it does not report twice in a round |
| `RuBarrier.BarrierBounds` | executables/lte-ru.c:1188-1218 | stored mask never full, and no more firings than reports of any radio unit that was never excused |
| `RuBarrier.RoundsCompose` | executables/lte-ru.c:1188-1193 | after a firing the barrier behaves as if fresh |
| `RuBarrier.ReportsBetweenFirings` | executables/lte-ru.c:1188-1218 | such a radio unit reports at least once between two firings |
| `RuBarrier.FiringsAreMinimum` | executables/lte-ru.c:1188-1218 | for every run, whatever the radio units do, the firings are exactly the smallest number of rounds in which a radio unit reported or was excused |
| `RuBarrier.ServedByReports` | executables/lte-ru.c:1188-1218 | for a radio unit that is never excused and reports once a round that number is its number of reports |
| `RuBarrier.NegativeStops` | executables/lte-ru.c:1164-1169 | once the count of a radio unit is negative outside RU_SYNC the barrier fires at most once more |
| `WaitCount.InvAlways` | executables/lte-ru.c:1784-1785 | the invariant of the unprotected decrement against the store of zero under `mutex_RU` |
| `WaitCount.NeverBelow` | executables/lte-ru.c:1784-1785 | the count never falls below -1 |
| `WaitCount.NegativeStays` | executables/lte-ru.c:1784-1785 | and once there it stays for the rest of the run |
| `WaitCount.OneTurn` | executables/lte-ru.c:1784-1785 | an undisturbed turn of the own thread counts down by one, and outside subframe 9 from two to zero |
| `WaitCount.NineIsSafe` | executables/lte-ru.c:1159 | while the others call in subframe 9 only, the count never goes negative |
| `WaitCount.NegativeIff` | executables/lte-ru.c:1159 | the count can go negative if and only if it starts above zero and there is another radio unit |
| `LteTime.DecodeAt` | executables/lte-ru.c:641-642 | the timestamp of absolute subframe m decodes to m/10 mod 1024 and m mod 10, at any phase |
| `LteTime.OfferedAt` | executables/lte-enb.c:607-611 | the job computed at any phase of absolute subframe m, in closed form |
| `LteTime.AheadConsistent` | executables/lte-enb.c:607-611 | for every receive timestamp and up to ten subframes ahead, the branch on the subframe number equals decoding the transmit timestamp, across the wrap |
| `LteTime.AheadRightIff` | executables/lte-ru.c:651-653 | the branch is right for every receive time if and only if ahead <= 10 or ahead mod 10240 = 10 |
| `LteTime.StubInvertsAhead` | executables/lte-ue.c:1070-1071 | the stub's four-subframe step back is a two-sided inverse of the step ahead |
| `RxClock.FirstCall` | executables/lte-ru.c:632-642 | the first read sets time to frame 0, subframe 0 whatever the device says |
| `RxClock.NormalCall` | executables/lte-ru.c:600-642 | without a command any drifted timestamp is the next subframe, and neither exit is taken |
| `RxClock.OffsetIsDeviceTime` | executables/lte-ru.c:632-639 | after every call receive time and offset add up to the device time of the read (on the first one, less the initial offset), whatever the drift and the command |
| `RxClock.WriteLandsAhead` | executables/lte-ru.c:804 | so a write for `sf_ahead` subframes later is requested exactly that much after the read, in device time |
| `RxClock.RunStaysInSync` | executables/lte-ru.c:1730-1743 | for every sequence of device timestamps the loop counters agree with the receive time, the offset follows the device, and the exits are unreachable |
| `RxClock.NegativeDecodes` | executables/lte-ru.c:641-642 | what C's division makes of a negative timestamp |
| `RxClock.ResynchCall` | executables/lte-ru.c:608-642 | for every command value, drift and device time, exactly when the resynch call does not exit |
| `RxClock.ResynchRunIff` | executables/lte-ru.c:608-695 | a resynch followed by any run: the program goes on if and only if the command is a frame number, the uncorrected drift is whole frame cycles (one frame less on a rollover) and the new time is not before zero; it is then in sync on the commanded frame |
| `RxClock.BeforeZeroExits` | executables/lte-ru.c:608-642 | whole cycles of drift are not enough: a concrete call that lands before time zero exits |
| `RxClock.ResynchWithoutDrift` | executables/lte-ru.c:681-695 | without drift it survives if and only if the previous subframe was not 9 and the command is a frame number; the timestamp is non-negative and the rest of the run in sync |
| `RxClock.RadioUnit.Receive` | executables/lte-ru.c:575-708 | the in-place computation equals the specification `RxRf` |
| `RxClock.RadioUnit.SteadyState` | executables/lte-ru.c:1730-1743 | the n-th call yields timestamp n times the subframe length, frame n/10 mod 1024, subframe n mod 10 and the offset to the device time |
| `SfnUnwrap.TimestampDecodes` | executables/lte-ru.c:467-472 | whatever was lost before, the unwrapped timestamp decodes to the received frame and subframe |
| `SfnUnwrap.NoSkipMeans` | executables/lte-ru.c:470 | what it means for a gap in the stream not to pass over frame 0, subframe 0 |
| `SfnUnwrap.AdvancesIff` | executables/lte-ru.c:470-472 | a received subframe advances the timestamp by the time elapsed if and only if no start of a frame cycle was skipped |
| `SfnUnwrap.MachineMeasures` | executables/lte-ru.c:470-472 | with 32- and 64-bit integers: over any in-order stream that skips no start of a frame cycle, and has fewer than 2097152 of them, the timestamp measures exactly the subframes elapsed |
| `SfnUnwrap.TimestampIncreases` | executables/lte-ru.c:470-472 | and strictly increases |
| `SfnUnwrap.UnwrapFitsIff` | openair1/PHY/defs_RU.h:226 | the 32-bit counter holds if and only if fewer than 2097152 starts of a frame cycle were received |
| `SfnUnwrap.TimestampFits` | executables/lte-ru.c:472 | and as long as it does the 64-bit timestamp does not overflow |
| `SfnUnwrap.MachineAgrees` | executables/lte-ru.c:470-472 | up to that life the machine computes the timestamps of unbounded integers |
| `SfnUnwrap.CounterOverflows` | executables/lte-ru.c:470 | and the next start sets the counter to its most negative value |
| `SfnUnwrap.NorthFronthaul.ReceiveStream` | executables/lte-ru.c:467-472 | the machine timestamps of a whole stream are the specified ones |
| `TxBurst.LoneUnitAnswers` | executables/lte-ru.c:765-794 | with one radio unit, under any interleaving of short reads and short writes, what follows an emergency end is another one or a START |
| `TxBurst.RecoveryStolen` | executables/lte-ru.c:533 | `late_control` is shared: a run in which a second radio unit uses up the recovery of the first, whose radio gets a plain write after its emergency end |
| `TxBurst.EmergencyEndAnsweredIff` | executables/lte-ru.c:765-794 | on every run every emergency end is answered if and only if there is at most one radio unit |
| `TxBurst.TransmissionRuns` | executables/lte-ru.c:765-827 | an uninterrupted transmission of the threads has exactly the effect of the switch on `late_control`, and a short write starts a recovery unless one is under way |
| `TxBurst.RecoveryTakesFour` | executables/lte-ru.c:765-794 | without new faults recovery takes four transmissions in all, whichever units make them: ended, two suppressed, restarted; everything after is sent as it is |
| `TxBurst.RecoveryAnsweredIff` | executables/lte-ru.c:765-794 | with any number of units a recovery answers its emergency end if and only if the same unit makes the fourth transmission, does not transmit again, or then starts a burst |
| `TxBurst.RecoveryBracketedIff` | executables/lte-ru.c:783-788 | for a lone unit the flags after a recovery form proper bursts if and only if the fourth transmission was not a special subframe |
| `TxBurst.SupportedPatterns` | openair1/SCHED/phy_procedures_lte_common.c:753-826 | every pattern that `subframe_select` supports obeys the local rules of section 4.2 of 3GPP TS 36.211 |
| `TxBurst.PatternTable` | openair1/SCHED/phy_procedures_lte_common.c:753-826 | the five patterns of `subframe_select`, subframe by subframe |
| `TxBurst.PatternBracketed` | executables/lte-ru.c:722-753 | on every pattern with the local rules, from any subframe on, the flags are START MIDDLE* END repeated |
| `TxBurst.PatternRecovery` | executables/lte-ru.c:722-794 | both results on a pattern: a recovery is clean exactly when the restart does not fall on a special subframe |
| `TxBurst.RecoveryBreaksBursts` | executables/lte-ru.c:722-794 | it does fall there: TDD configuration 1, a fault noticed in subframe 1 |
| `TxBurst.WindowsJoin` | executables/lte-ru.c:803-804 | inside a burst, and always in FDD, write windows join without gap |
| `TxBurst.SpecialLengthIs` | executables/lte-ru.c:733-745 | the window of a special subframe ends with its last transmitted symbol, summed symbol by symbol, plus the delay |
| `TxBurst.ExtensionIs` | executables/lte-ru.c:755-759 | the early start is the largest multiple of the granule not above `sf_extension` |
| `TxBurst.WindowsInOrderIff` | executables/lte-ru.c:732-759 | on every pattern with the local rules no two write windows ever overlap if and only if special length plus extension fits every gap |
| `TxBurst.TwoSubframesSuffice` | executables/lte-ru.c:732-759 | special length plus extension of at most two subframes is always enough |
| `TxBurst.ConfigInOrderIff` | executables/lte-ru.c:732-759 | the same condition as one inequality per supported TDD configuration |
| `TxBurst.Transmitter.TxRf` | executables/lte-ru.c:711-827 | window, flag, counter and next recovery state of a call, including suppressed, uplink, aborting and short writes |
| `UeBlocks.FrameLength` | executables/lte-ue.c:1896-1924 | ten consecutive subframes last ten nominal ones less the one correction among them |
| `UeBlocks.DriftBound` | executables/lte-ue.c:1901-1924 | over any run the clock moves at most one sample per frame, and not at all without correction |
| `UeBlocks.CorrectionFollows` | executables/lte-ue.c:1908-1914 | a corrected frame brings the UE's frame boundary exactly one sample nearer to the measured one, unless it is right or exactly half a frame off |
| `UeBlocks.Converges` | executables/lte-ue.c:1901-1924 | against a cell whose frames keep their place, an error of less than half a frame goes down by one sample a frame to zero and stays there |
| `UeBlocks.NeverConverges` | executables/lte-ue.c:1908-1914 | half a frame off, or without correction, it never changes |
| `UeBlocks.WritesTile` | executables/lte-ue.c:1932-1941 | the written blocks are one gapless stream for every sequence of measured offsets |
| `UeBlocks.WrittenOnBoundaryIff` | executables/lte-ue.c:1932-1941 | a block is written on the boundary of its subframe if and only if no correction falls in between |
| `UeBlocks.StampExactIff` | executables/lte-ue.c:2002-2004 | a worker is told the sample at which its subframe is then written under exactly that condition |
| `UeBlocks.SkippedTiles` | executables/lte-ue.c:1828-1840 | the alignment reads cover exactly the initial offset |
| `UeBlocks.SkippedSizes` | executables/lte-ue.c:1829 | no alignment read is empty or longer than a subframe, and only the last is shorter |
| `UeBlocks.UeStream.Start` | executables/lte-ue.c:1825-1859 | alignment and first symbol: blocks read and stream position |
| `UeBlocks.UeStream.Subframe` | executables/lte-ue.c:1896-1956 | one subframe: samples read equal samples written, window and stamp, with the correction in subframe 9; the branch that cannot compensate is never taken |
| `UeBlocks.UeStream.Receive` | executables/lte-ue.c:1860-2004 | a whole run produces the specified position, blocks and stamps |
| `PduWalk.ParseKeepsAll` | executables/lte-ue.c:1018-1051 | every PDU is taken exactly once and in order, except a DCI left over at the end |
| `PduWalk.ParseFlatten` | executables/lte-ue.c:1018-1051 | walking a flattened list of groups finds exactly those groups |
| `PduWalk.AbortsIffOddTail` | executables/lte-ue.c:1021-1025 | the missing-PDU assertion fails if and only if the list ends in an odd number of DCI PDUs |
| `PduWalk.CallsByPlace` | executables/lte-ue.c:1018-1051 | the handler calls read off the places in the list: a PDU after an odd number of DCI PDUs is taken by the last of them, any other BCH or MCH goes to its own handler, nothing else is handled |
| `PduWalk.Walk` | executables/lte-ue.c:1018-1051 | the index-changing loop terminates and makes exactly the handler calls of the groups, which are those read off the places |

## Left out

- Signal processing and device bodies (`phy_procedures_*`, `initial_sync`, FFT front ends, `trx_*`): parameters or single steps of the protocols.
- Thread creation, shutdown, `oai_exit`, priorities, tracing, statistics, configuration parsing and the CI scripts.
- `instance_cnt_eNBs` and `RU_mask_tx`: changed from several threads and reset on timeouts, so they keep no invariant.
- Wall-clock timeouts: `UePipeline` is the RF-simulator mode, which has none; outside it a missed deadline skips the frame increment.
- `emulate_rf`, the RF-simulator dummy writes in uplink subframes, and code disabled by the preprocessor.
- The symbol loop of `fh_if4p5_north_asynch_in` before line 467; only the time keeping after it is modelled.
- RuBarrier.EveryFiringWakes: assumes roles that are fixed within a round, which `FiringWithoutWakeup` shows to be needed; `WakesIff` is exact without it.
- RxClock.ResynchCall: takes the resynch command and its value as one; the control thread stores `cmd` before `cmdval` (executables/ru_control.c:731-732), and `rx_rf` reads `cmdval` more than once.
- SfnUnwrap.CounterOverflows: models signed overflow as wrap-around, which C leaves undefined.
- Startup.NobodyStartsEarly: does not model the 31-bit limit of the mask; it holds for any number of radio units.
- TxBurst.Transmitter.TxRf: sample values and buffer addresses are left out; `sf_extension` is taken as non-negative.
- UeBlocks.UeStream.Receive: assumes that the radio delivers one contiguous stream and accepts whole blocks, as the assertions around the calls demand.
