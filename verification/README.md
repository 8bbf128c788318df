# A verified model of vitohome

vitohome drives one half-duplex optical bus to a Viessmann heating controller on behalf of
many competing sources: polls, user writes, a raw console, device identification and a
clock that keeps itself set. This project models the parts of it whose correctness is not
visible in any one function, and proves what the design promises about them.

| file | what it models |
|---|---|
| `HubModel.dfy` | the hub as step functions: three lanes, identification, one in-flight slot, the read-modify-write (RMW) stage, the watchdog, the read-back check, the clock riding the lanes |
| `Hub.dfy` | the hub as the object it is: class `VitoHome` over three ring buffers; every method's result is the step function's result |
| `HubInvariants.dfy` | lanes, flags and slot agree after every step |
| `HubWorld.dfy` | hub, telegrams accepted by the engine, device memory; events, runs |
| `HubBus.dfy`, `HubSerial.dfy` | every merged write directly follows its own answered read; memory is the fold of field updates; sibling bits survive |
| `HubMerge.dfy` | which answers arm a merge, and that it is the next telegram |
| `HubVerify.dfy`, `HubConfirm.dfy` | the read-back check compares the right read with the right write, and what its report points at |
| `HubAwait.dfy` | the read an armed check waits for stays queued or in flight until it is compared, and exactly when it does not |
| `HubFresh.dfy` | the newest staged value is never lost, and an acknowledgement is reported for the value it acknowledges |
| `HubClock.dfy`, `HubStuck.dfy`, `HubChain.dfy` | the clock chain step by step; once lost, lost for ever; over whole runs, exactly when it stays alive |
| `DeviceClock.dfy` | BCD and weekday conventions |
| `HubDrain.dfy` | the hub reaches idle |
| `HubTelegrams.dfy` | where every telegram goes, what it carries, and how long a lost one is waited for |
| `HubQueues.dfy` | writes and raw operations are first in, first out |
| `HubIdent.dfy` | which registers a unit is identified by, over a whole run |
| `HubTicks.dfy` | when a clock sync starts, and what its opening read leads to |
| `HubOrder.dfy`, `HubUnread.dfy` | who goes next: lane priority, read-backs, what a poll pass queues, and what is never read |
| `HubAffinity.dfy`, `AddressSpaces.dfy` | one protocol detour per drain |
| `HubFairness.dfy` | how long the affinity move can hold another read back |
| `RingBuffer.dfy` | the lanes' ring refines a sequence |
| `PollSchedule.dfy` | exact cadence in wrapping 32-bit time |
| `CivilDate.dfy` | day counts against the calendar itself |
| `BitFields.dfy`, `Scaled.dfy`, `Numbers.dfy` | field merging, scaled integers, range checks, the number entity |
| `Schaltzeiten.dfy`, `SwitchingDay.dfy`, `SwitchingCodec.dfy` | the switching-time text and its eight bytes |
| `Utf16.dfy` | labels as UTF-8, judged by a decoder for section 4 of RFC 3629 |
| `Identify.dfy`, `ResolveIndex.dfy`, `Finder.dfy` | the identification resolver, its run-length table, and the finder that reads the table |
| `TagIndex.dfy` | memoised tags over a menu graph that may have cycles |

## How the hub is modelled

A `World` is the hub, the telegrams the engine accepted with their outcomes, and the memory
of the device as a total map from (address space, address) to byte. An event is a request
from outside, an offer of the bus to the engine, a watchdog pass, an answer, an error, or
silence (a callback that never comes). `Enabled` is the environment: the engine takes a
telegram only while idle, calls back at most once for it and about the latest one, refuses
otherwise as busy or for good; a read before a write is answered with what memory holds; an
acknowledged write has been taken, and any other write may have been taken or not. Procedure
calls and generic raw telegrams may change memory in any way. Automations run by a publish
may make any list of requests, re-entrantly, at the point of the callback.

The main theorems quantify over every configuration, every boot memory and every list of
enabled events. The class in `Hub.dfy` and the theorems meet in the step functions: every
method ensures `State() ==` the step function of `old(State())`, and `HubWorld.Step` is built
from those same functions.

Ring operations are atomic steps. Times and poll deadlines are 32-bit numbers with explicit
wrap-around and signed differences. C++ division truncates, so `CivilDate` defines truncating
division itself; unsigned `month + -3` wraps there explicitly. Scaling is over the reals. The
UTF-16 decoder ends a label at 0xFFFF (components/vitohome/decode.h:731-739), which the text
above it at 712 calls skipping; the model follows the code.

## What does not hold, and when

- The weekday rule writes for a Sunday = 0 or Monday = 1 clock until a read says otherwise,
  so a Monday = 0 clock that was never read, learned or configured is miswritten.
  `InferenceSound` gives the exact condition under which every target day is written right or
  flagged; `UnreadMonday0IsMiswritten` is an input where it is not.
- A permanent refusal of one of the clock's own telegrams leaves its chain waiting for ever:
  the lane drops the telegram without telling the clock. `ClockNeverWedges` holds at the end
  of a run if and only if no such refusal happened on the way; `RefusedClockIsStuck` is the
  step that loses the chain, `StuckForEver` that nothing later frees it.
- A poll deadline that lands on 0, the "never polled" sentinel, is moved to 1. `ExactCadence`
  gives the exact condition for the arithmetic progression, `ExactPattern` the weaker exact
  condition for polling on every m-th tick alone; `SentinelCostsATick` and
  `SentinelMayCostNothing` are runs on either side of it.
- A read-back that is lost or crossed disarms the check, so that a later poll is never
  verified (components/vitohome/vitohome.cpp:410-411). A read-back the engine refuses for good
  (723-733 there) leaves it armed, and the entity's next poll is compared.
  `WaitsUnlessRefused` and `ComparedReadIsTheReadBack` give the exact condition: from the
  acknowledgement to the comparison the read-back is queued or in flight if and only if no
  offer on the way refused it for good; `EveryCheckAwaitsItsRead` says so of every check of a
  run, `LaterPollIsCompared` is a run on the other side. In either case the read compared is the
  entity's first since that acknowledgement (`ComparisonIsAboutTheLastMerge`).
- Moving reads of the last space to the front is said not to starve the others for longer than
  one run of them (components/vitohome/vitohome.cpp:700-703), because an entity has one place
  in the lane. It can take that place again while the run lasts: `AffinityStarves` sends any
  number of GFA reads ahead of a waiting one. `OvertakingIsBounded` counts them exactly: those
  waiting at first and those that joined since, less those refused or still waiting, so they
  exceed one run only by what joined.

## Model

| member | source | states |
|---|---|---|
| `RingBuffers.RingBuffer.constructor` | components/vitohome/ring_buffer.h:101-107 | a ring before sizing is empty, valid and holds nothing |
| `RingBuffers.RingBuffer.Reserve` | components/vitohome/ring_buffer.h:158-205 | sizing happens once: a second request, or one the allocator cannot serve, leaves the ring as it was; a served one gives an empty ring of that capacity |
| `RingBuffers.RingBuffer.Slot` | components/vitohome/ring_buffer.h:340-347 | the slot index stays inside the array and equals head plus offset with at most one wrap, without division |
| `RingBuffers.RingBuffer.PushBack` | components/vitohome/ring_buffer.h:216-225 | appends to the sequence unless full; a refused push changes nothing |
| `RingBuffers.RingBuffer.PushFront` | components/vitohome/ring_buffer.h:227-237 | prepends to the sequence unless full, wrapping the head backwards |
| `RingBuffers.RingBuffer.ShiftToFront` | components/vitohome/ring_buffer.h:253-255 | the shifting loop moves one element to the head and every element ahead of it back by one |
| `RingBuffers.RingBuffer.MoveToFront` | components/vitohome/ring_buffer.h:246-258 | the first equal element moves to the head; absent, nothing changes and false is returned |
| `RingBuffers.RingBuffer.MoveFirstToFrontIf` | components/vitohome/ring_buffer.h:262-276 | the first accepted element moves to the head; with none accepted nothing changes and false is returned |
| `RingBuffers.RingBuffer.TryFront` | components/vitohome/ring_buffer.h:281-289 | a copy of the head, or nothing, and the ring unchanged |
| `RingBuffers.RingBuffer.TryPopFront` | components/vitohome/ring_buffer.h:294-304 | returns the head and leaves the rest in order; an empty ring stays empty |
| `RingBuffers.RingBuffer.ConsumeFrontIf` | components/vitohome/ring_buffer.h:315-328 | the head leaves exactly when the consumer takes it, and the three results tell empty, kept and removed apart |
| `RingBuffers.MoveFirstIfKeepsOrder` | components/vitohome/ring_buffer.h:239-242 | moving the first match keeps the multiset, and the order among the matches and among the rest |
| `RingBuffers.MoveFirstIfKeepsMembers` | components/vitohome/ring_buffer.h:239-242 | a lane keeps its length and members and stays free of duplicates |
| `RingBuffers.MoveFirstIfIdempotent` | components/vitohome/ring_buffer.h:260-276 | moving twice is moving once, so a retained head is not disturbed by the next attempt |
| `HubInvariants.LanesHaveRoom` | components/vitohome/vitohome.cpp:746-774 | pigeonhole: an entity whose flag is down always finds room in its lane, so no entity-lane push is ever rejected |
| `HubInvariants.RequestWriteInv` | components/vitohome/vitohome.cpp:931-963 | a write request keeps flags, lanes and slot in agreement |
| `HubInvariants.RequestPriorityReadInv` | components/vitohome/vitohome.cpp:746-774 | a priority read keeps them, whether it promotes a queued read or adds one |
| `HubInvariants.ScheduleBelowInv` | components/vitohome/vitohome.cpp:776-855 | a whole scheduling pass keeps them |
| `HubInvariants.TickInv` | components/vitohome/vito_clock.cpp:35-84 | a clock tick keeps them |
| `HubInvariants.ExternalInv` | components/vitohome/vitohome.cpp:857-871 | every request from outside keeps them |
| `HubInvariants.HandlersInv` | components/vitohome/vitohome.cpp:1332-1471 | any list of re-entrant requests made by automations keeps them |
| `HubInvariants.ClockReadInv` | components/vitohome/vito_clock.cpp:120-234 | the clock's own re-queueing of its write keeps them |
| `HubInvariants.IdentAdvanceInv` | components/vitohome/vitohome.cpp:1870-2012 | an identification step keeps them, and only a running identification can have a read in flight |
| `HubInvariants.DispatchInv` | components/vitohome/vitohome.cpp:544-744 | an offer of the bus keeps them under every verdict of the engine |
| `HubInvariants.RmwHandleReadInv` | components/vitohome/vitohome.cpp:1483-1522 | arming or aborting a merge keeps them |
| `HubInvariants.AcknowledgeInv` | components/vitohome/vitohome.cpp:1420-1460 | an acknowledged write with its read-backs and sibling reads keeps them |
| `HubInvariants.RespondInv` | components/vitohome/vitohome.cpp:1332-1471 | every answer keeps them: matched, crossed, short, or about nothing in flight |
| `HubInvariants.FailInv` | components/vitohome/vitohome.cpp:1740-1820 | every error keeps them |
| `HubInvariants.WatchdogInv` | components/vitohome/vitohome.cpp:379-456 | an expired watchdog keeps them and is exactly an error: its branch for an operation without a type is dead |
| `HubBus.DispatchSlot` | components/vitohome/vitohome.cpp:544-744 | what an offer sends: an armed merge goes first and unchanged, nothing is sent while the slot is taken, and the telegram is the one the slot records |
| `HubBus.RespondSlot` | components/vitohome/vitohome.cpp:1332-1471 | after an answer a merge is armed only from that entity's own complete answer to its own read |
| `HubBus.FailSlot` | components/vitohome/vitohome.cpp:1740-1820 | an error or an expired watchdog frees the slot and arms nothing |
| `HubBus.ExternalSlot` | components/vitohome/vitohome.cpp:857-963 | no request touches what is in flight or armed |
| `HubSerial.MergedWriteIsFieldUpdate` | components/vitohome/decode.h:102-131 | writing back a block merged from present memory changes memory exactly as the pure update of the field does |
| `HubSerial.AnsweredArmed` | components/vitohome/vitohome.cpp:1483-1522 | an answer that arms a merge arms it from memory as it is at that moment |
| `HubMerge.AnswerArms` | components/vitohome/vitohome.cpp:1483-1513 | the answer to a read before a write arms its merge if and only if it is about the register, whole and served, the block has 1 to 16 bytes, and the field lies in it and fits its mask; what is armed is that answer with only the field replaced |
| `HubMerge.MergeGoesNext` | components/vitohome/vitohome.cpp:1524-1547 | over every run from an armed merge: while the engine is busy it stays armed and nothing is sent; once an offer is decided, the next telegram is the merged write with the armed bytes if and only if that offer was not refused for good |
| `HubSerial.StepSerial` | components/vitohome/vitohome.cpp:544-555 | every event keeps: an armed merge is the last answered read on the bus, and memory is the fold of the trace |
| `HubSerial.Serializable` | components/vitohome/vitohome.h:561-572 | over every run from boot: each merged write comes directly after its own entity's answered read, and device memory is the fold, in acceptance order, of pure field updates and whole-register writes |
| `HubSerial.FailedReadWritesNothing` | components/vitohome/vitohome.cpp:1477-1481 | a failed, lost, short or mis-addressed read before a write is never followed by a merged write |
| `HubSerial.UntouchedBitsSurvive` | components/vitohome/vitohome.h:561-572 | in any trace, bits no accepted telegram was meant to change keep their value |
| `HubSerial.SiblingsSurvive` | components/vitohome/vitohome.h:561-572 | over every run from boot, whatever fails or interleaves, such bits hold what the device held at boot |
| `HubVerify.ComparisonIsAboutTheLastMerge` | components/vitohome/vitohome.cpp:1549-1586 | over every run: an answer that is compared belongs to the first read of the same entity sent after the acknowledgement of the most recent merged write of all, and is compared with that write's bytes |
| `HubAwait.StepAwaits` | components/vitohome/vitohome.cpp:723-733 | every event leaves the read an armed check waits for queued or in flight, or its write waiting for the acknowledgement, except exactly an offer that refuses that read for good |
| `HubAwait.WaitsUnlessRefused` | components/vitohome/vitohome.h:587-595 | while one check stays armed, its write waits for the acknowledgement and from then on its read-back is queued or in flight, in every world on the way, if and only if no offer refused that read for good |
| `HubAwait.ComparedReadIsTheReadBack` | components/vitohome/vitohome.cpp:410-411 | over every run from boot: a compared answer is that of the read-back itself, pending ever since the acknowledgement, if and only if no offer since its merged write was sent refused it for good: only then is a later poll verified |
| `HubAwait.EveryCheckAwaitsItsRead` | components/vitohome/vitohome.cpp:410-411 | over every run from boot: every check armed on the way has its read in place in every world, if and only if no offer of the run refused one for good |
| `HubAwait.LaterPollIsCompared` | components/vitohome/vitohome.cpp:723-733 | a concrete run, whatever the device holds: the read-back is refused for good, the next update queues a poll, and its answer is compared |
| `HubVerify.CompareReadBack` | components/vitohome/vitohome.cpp:1549-1586 | the report: outside changed if and only if some bit outside the field differs, field changed if and only if only field bits differ, confirmed if and only if all bytes agree, nothing on a short answer |
| `HubConfirm.ReportPointsAtATelegram` | components/vitohome/vitohome.h:587-595 | over every run: where a compared answer shows a byte of the block other than it was merged, the answer is not what memory holds or the device took another telegram on that byte since the merged write; so an undisturbed block truly answered is confirmed, and outside changed is reported only for such an answer or such a telegram on a byte with bits outside the field |
| `HubConfirm.StandsSince` | components/vitohome/vitohome.h:587-595 | a byte holds what a telegram made of it as long as no later one the device took touches it |
| `HubFresh.NewestIsQueued` | components/vitohome/vitohome.cpp:931-963 | over every run: a value staged since its entity's last transmission or merge, and not dropped by an error or refusal, waits in the write lane or for its read before the write |
| `HubFresh.HandlerSeesAcknowledgedValue` | components/vitohome/vitohome.cpp:1420-1460 | over every run: when an acknowledgement reaches the entity's handler, the staged payload is what the acknowledged telegram carried -- its bytes, or the field it merged |
| `HubFresh.DispatchFresh` | components/vitohome/vitohome.cpp:544-744 | an offer releases a staged value only by sending it or by dropping the head the engine refuses |
| `HubFresh.RespondFresh` | components/vitohome/vitohome.cpp:1332-1471 | an answer releases a staged value only by merging it, or by aborting with nothing newer queued |
| `HubFresh.ExternalFresh` | components/vitohome/vitohome.cpp:931-963 | a newly staged value is queued at once or already queued |
| `HubClock.DispatchClock` | components/vitohome/vitohome.cpp:660-733 | the clock's phase matches where its operation is after an offer if and only if the engine did not refuse the clock's own telegram for good |
| `HubClock.RespondClock` | components/vitohome/vito_clock.cpp:91-118 | every answer, matched or not, leaves the phase matching the clock's place; the clock steps one phase on, gives up, or does not move except to start a chain |
| `HubClock.FailClock` | components/vitohome/vito_clock.cpp:258-277 | every error and expiry leaves the phase matching the clock's place; it ends the clock's own operation or does not move the clock, except to start a chain |
| `HubClock.UpdateClock` | components/vitohome/vito_clock.cpp:35-84 | a whole update leaves the phase matching the clock's place, and moves the clock at most from idle to reading |
| `HubChain.ClockNeverWedges` | components/vitohome/vito_clock.cpp:35-277 | over every run, if and only if no such refusal happened on the way: reading exactly while the opening read is pending, verifying exactly while the read-back of the chain's one write is, which was sent, or will be, after that write's acknowledgement, writing exactly while its write is, idle exactly when nothing is; at most one write a chain |
| `HubStuck.RefusedClockIsStuck` | components/vitohome/vitohome.cpp:660-733 | an offer leaves the chain waiting for an operation that is nowhere if and only if the engine refused the clock's own telegram for good |
| `HubStuck.StuckForEver` | components/vitohome/vito_clock.cpp:35-84 | over every run from there, through requests, offers, answers, errors, lost callbacks and watchdog passes, it stays so |
| `HubChain.StepTraces` | components/vitohome/vito_clock.cpp:236-256 | while the clock verifies, its last write stands acknowledged in the trace and its only read since, if any, is the one in flight |
| `HubDrain.MoveLightens` | components/vitohome/vitohome.cpp:1420-1460 | every productive move makes the load lighter in a lexicographic measure, although acknowledgements add read-backs and sibling reads |
| `HubDrain.DrainIsBounded` | components/vitohome/vitohome.cpp:1420-1460 | a sequence of productive moves is no longer than the weight of the hub it starts from |
| `HubDrain.DrainTerminates` | components/vitohome/vitohome.cpp:1420-1460 | with quiet automations and completing telegrams the hub gets to idle: a productive move exists exactly while it is not drained, and at most weight-many of them do |
| `HubDrain.DrainedClockIsIdle` | components/vitohome/vito_clock.cpp:35-84 | a drained hub has an idle clock |
| `HubAffinity.DispatchFollowsOrder` | components/vitohome/vitohome.cpp:700-743 | with only reads waiting, a dispatch sends the head of the drain order and leaves its tail; a transient refusal changes nothing |
| `HubAffinity.MovesOnlyGfa` | components/vitohome/address_space.h:80-97 | a read is moved up only over P300 after a GFA telegram, and then a waiting GFA read is next; otherwise the lane is as it was |
| `HubAffinity.DrainIsOrder` | components/vitohome/vitohome.cpp:700-743 | however often each read is refused as busy and however it ends, what is sent is the drain order as far as it goes, one contiguous GFA run; it goes all the way unless the clock's own read is answered and leads to a write, which then goes first |
| `HubFairness.LeavesLane` | components/vitohome/vitohome.cpp:723-743 | a waiting read leaves its lane in one step exactly when it is sent or refused for good: no request, answer, error, lost callback or watchdog pass removes it |
| `HubFairness.OvertakingIsBounded` | components/vitohome/vitohome.cpp:700-703 | over every run: GFA reads sent, refused for good and still waiting are together those waiting at first and those that joined since; they are no more than one run of them if and only if no more joined than are still waiting or were refused |
| `HubFairness.AffinityStarves` | components/vitohome/vitohome.cpp:700-703 | without such a condition there is no bound: for every n, some run sends n GFA reads while another read waits all along, from where no GFA read was waiting |
| `PollSchedule.DueDeadlineIsAhead` | components/vitohome/poll_schedule.h:31-56 | after any due step the deadline is not the sentinel and lies strictly ahead of now, by at most interval + slack + 1, across wrap-around |
| `PollSchedule.DueExactly` | components/vitohome/poll_schedule.h:31-42 | an entity is due always with interval 0, never with the interval never, at once when it was never polled, and else from the slack before its deadline on; not due, its deadline stays |
| `PollSchedule.ExactCadence` | components/vitohome/poll_schedule.h:31-56 | ticks at t0 + k*H + j_k with jitter up to (H-1)/2, slack H/2 and interval m*H: due on exactly every m-th tick with deadlines in arithmetic progression modulo 2^32, if and only if no deadline the run reaches is the sentinel |
| `PollSchedule.ExactPattern` | components/vitohome/poll_schedule.h:31-56 | in the same setting the due pattern alone holds if and only if, in every round reached, the milliseconds lost to sentinel hits so far fit the slack: j_0 plus the hits before the round is at most that round's jitter plus the slack |
| `PollSchedule.SentinelCostsATick` | components/vitohome/poll_schedule.h:53-55 | a concrete run in which a sentinel deadline loses a tick |
| `PollSchedule.SentinelMayCostNothing` | components/vitohome/poll_schedule.h:53-55 | a concrete run in which one does not |
| `CivilDate.NextDayCountsOne` | components/vitohome/decode.h:331-338 | the day count of the next valid Gregorian day is one more, across months, leap years and centuries |
| `CivilDate.DaysAreExact` | components/vitohome/decode.h:331-338 | n days after any valid date the count is n more |
| `CivilDate.StrictlyMonotone` | components/vitohome/decode.h:331-338 | a later date has a larger count |
| `CivilDate.CountsDetermineDates` | components/vitohome/decode.h:331-338 | counts compare exactly as dates do, so two dates with one count are the same date |
| `CivilDate.WeekdayIsTrue` | components/vitohome/decode.h:396-405 | (days + 4) mod 7 is the true weekday: Thursday on 1970-01-01, and from any valid date to its next day one weekday on |
| `CivilDate.NextSecondCountsOne` | components/vitohome/decode.h:342-345 | the second count of the next second is one more, across midnight, so differences are exact |
| `DeviceClock.DateTimeRoundTrip` | components/vitohome/decode.h:290-463 | an encoded date and time decodes to itself from 1990 on and is refused before, and its weekday byte reads back |
| `DeviceClock.ReadShowsConvention` | components/vitohome/decode.h:386-407 | a readable block of a clock that keeps a convention shows that convention on a Sunday, and always for monday=0, and otherwise leaves the two that agree open |
| `DeviceClock.ShownExactly` | components/vitohome/decode.h:386-407 | a weekday byte shows a convention if and only if it fits that one and no other on its day, and nothing if and only if it fits none |
| `DeviceClock.DecodesExactly` | components/vitohome/decode.h:290-330 | a block is read as a time if and only if it is whole, from 1990 on and in range, and its bytes are that time's decimal digits |
| `DeviceClock.LearnedIsTrue` | components/vitohome/decode.h:361-421 | a base learned from any sequence of reads of one clock is that clock's |
| `DeviceClock.InferenceSound` | components/vitohome/decode.h:361-421 | for any history the resolved base writes the true convention's byte for every target day, or is flagged undecided on a Sunday -- if and only if the clock is not an unread, unlearned, unconfigured Monday = 0 clock |
| `DeviceClock.UnreadMonday0IsMiswritten` | components/vitohome/decode.h:412-421 | a concrete day such a clock gets wrong |
| `DeviceClock.DecideWritesTheTime` | components/vitohome/vito_clock.cpp:120-234 | a write is staged if and only if the source's time can be encoded and the device is unreadable, or the source's second count exceeds the device's by more than the threshold, or the device's the source's; what is staged decodes to that time |
| `DeviceClock.OffBySeconds` | components/vitohome/vito_clock.cpp:145-160 | a device clock that is n seconds behind or ahead, counted second by second over the calendar, is set if and only if n is over the threshold |
| `DeviceClock.ConfiguredWins` | components/vitohome/decode.h:412-421 | a configured convention is the one written, whatever the clock shows or has shown |
| `DeviceClock.SyncWritesTrueWeekday` | components/vitohome/vito_clock.cpp:120-234 | for a clock that keeps a convention, after any history of its reads, what is remembered is that convention and the staged weekday byte is the convention's for that day, unless the convention is still open: then only on a Sunday, or for an unread Monday = 0 clock |
| `HubObject.VitoHome.constructor` | components/vitohome/vitohome.h:595-600 | the object starts at rest, its lanes without storage |
| `HubObject.VitoHome.SizeLanes` | components/vitohome/vitohome.cpp:137-184 | lanes are sized once, to the registered entities, and start empty; sizing succeeds exactly when every allocation it needs is served |
| `HubObject.VitoHome.Setup` | components/vitohome/vitohome.cpp:136-341 | boot succeeds exactly when every lane can be allocated, and then the object is the model's start state; otherwise it stays at rest and identification does not begin |
| `HubObject.VitoHome.RequestWrite` | components/vitohome/vitohome.cpp:931-963 | the object's write request is the model's step and result: one lane slot an entity, the flag lowered again on a refused push |
| `HubObject.VitoHome.RequestPriorityRead` | components/vitohome/vitohome.cpp:746-774 | a queued read moves to the head, an unqueued one is pushed there, as in the model |
| `HubObject.VitoHome.PromoteRead` | components/vitohome/vitohome.cpp:746-774 | promotion is exactly moving the entity to the head of the read lane |
| `HubObject.VitoHome.Control` | components/vitohome/vito_number.cpp:32-81 | a stageable payload replaces the staged one and asks for a write; any other changes nothing |
| `HubObject.VitoHome.QueueRaw` | components/vitohome/vitohome.cpp:1181-1252 | an acceptable raw operation joins its lane unless full; any other is dropped |
| `HubObject.VitoHome.RefreshAll` | components/vitohome/vitohome.cpp:1613-1646 | outside the guard interval every entity of the poll rotation becomes due at once and no other does; inside it nothing changes |
| `HubObject.VitoHome.ScheduleDueEntities` | components/vitohome/vitohome.cpp:776-855 | the loop over entities is the model's pass: each due, unqueued entity of the poll rotation once, deadlines advanced only when queued |
| `HubObject.VitoHome.StartSync` | components/vitohome/vito_clock.cpp:70-84 | the sync opens by a priority read of the clock and enters reading only when that read is queued |
| `HubObject.VitoHome.Tick` | components/vitohome/vito_clock.cpp:35-84 | the object's tick is the model's: boot sync once synced, then one per interval by signed difference |
| `HubObject.VitoHome.Update` | components/vitohome/vitohome.cpp:857-871 | tick first, then the scheduling pass |
| `HubObject.VitoHome.RunHandlers` | components/vitohome/vitohome.cpp:1332-1471 | re-entrant requests are served in order on the state the callback left |
| `HubObject.VitoHome.ClockRead` | components/vitohome/vito_clock.cpp:120-234 | every path of the opening read ends idle except the one whose write was queued |
| `HubObject.VitoHome.HandleResponse` | components/vitohome/vito_clock.cpp:91-118 | reads reach the clock by phase and every other entity by its automations |
| `HubObject.VitoHome.HandleFailure` | components/vitohome/vito_clock.cpp:258-277 | a failure gives the clock's chain up |
| `HubObject.VitoHome.HandleWriteResponse` | components/vitohome/vito_clock.cpp:236-243 | an acknowledged clock write moves to verifying |
| `HubObject.VitoHome.IdentAdvance` | components/vitohome/vitohome.cpp:1870-2012 | one identification step, with the 4-byte read falling back to single bytes when short or failed |
| `HubObject.VitoHome.DispatchMerged` | components/vitohome/vitohome.cpp:1524-1547 | an armed merge is sent and its check armed, kept on busy, aborted on a refusal for good |
| `HubObject.VitoHome.DispatchIdent` | components/vitohome/vitohome.cpp:559-592 | identification sends its present read, or advances past one refused for good |
| `HubObject.VitoHome.DispatchRaw` | components/vitohome/vitohome.cpp:463-542 | the raw head is sent and leaves, stays on busy, and leaves with an error on a refusal for good |
| `HubObject.VitoHome.DispatchWrite` | components/vitohome/vitohome.cpp:606-693 | the write head is sent, or becomes a read before the write, or is kept or dropped as the engine says |
| `HubObject.VitoHome.FavourLastSpace` | components/vitohome/vitohome.cpp:695-710 | where a space costs a switch, its first queued read moves to the head, and nowhere else |
| `HubObject.VitoHome.DispatchRead` | components/vitohome/vitohome.cpp:710-743 | the read head is sent with its flag still up, kept on busy, dropped with its flag down on a refusal for good |
| `HubObject.VitoHome.DispatchNext` | components/vitohome/vitohome.cpp:544-744 | one offer of the bus is the step the run theorems are about, and lanes keep their storage |
| `HubObject.VitoHome.RmwHandleRead` | components/vitohome/vitohome.cpp:1483-1522 | the answered read is merged and armed, or the write is aborted, never a partial block |
| `HubObject.VitoHome.RefreshSiblings` | components/vitohome/vitohome.cpp:1588-1611 | the loop asks for a read of every other entity on the written register in that space, in order |
| `HubObject.VitoHome.Acknowledge` | components/vitohome/vitohome.cpp:1420-1460 | an acknowledged write with a newer value queued is not reported; otherwise the handler runs, then siblings, then the writer's own read-back in front |
| `HubObject.VitoHome.ReadDone` | components/vitohome/vitohome.cpp:1462-1471 | an answered read lowers its flag and disarms the check before its handler runs |
| `HubObject.VitoHome.EntityAnswered` | components/vitohome/vitohome.cpp:1375-1471 | an answer for another address than the operation's is a failure of that operation |
| `HubObject.VitoHome.OnResponse` | components/vitohome/vitohome.cpp:1332-1471 | an answer is the model's step for identification, raw, entity and nothing in flight alike |
| `HubObject.VitoHome.OnError` | components/vitohome/vitohome.cpp:1740-1820 | an error is the model's step |
| `HubObject.VitoHome.CheckWatchdog` | components/vitohome/vitohome.cpp:379-456 | the guard fires by wrapping age only with something in flight, and is then the model's step |
| `HubObject.VitoHome.Loop` | components/vitohome/vitohome.cpp:379-456 | a pass is the guard and then one offer |
| `HubOrder.PriorityReadIsNext` | components/vitohome/vitohome.cpp:746-774 | a priority read is the next read, and every waiting read still waits |
| `HubOrder.AcknowledgedWriteReadsBack` | components/vitohome/vitohome.cpp:1588-1610 | after an acknowledgement that is not superseded the reads that wait are exactly those that waited after its handler, the writer's read-back, in front of all, and those of every other polled entity but the clock that is read at the register written, in that space, RPC excepted |
| `HubOrder.SupersededReadsNothing` | components/vitohome/vitohome.cpp:1420-1440 | an acknowledgement that a newer value supersedes queues no read and leaves no check armed for it |
| `HubOrder.PassPollsExactly` | components/vitohome/vitohome.cpp:776-855 | a poll pass queues exactly the entities of the poll rotation that are due and not already waiting, and moves exactly their deadlines: lane capacity never makes it skip one |
| `HubOrder.UpdatePollsExactly` | components/vitohome/vitohome.cpp:857-871 | an update polls every entity but the clock so, whatever the clock's own tick does |
| `HubOrder.RefreshOnce` | components/vitohome/vitohome.cpp:1613-1646 | a refresh makes exactly the entities of the poll rotation due and queues nothing itself; another within five seconds changes nothing, unless the first came at 0 ms |
| `HubQueues.RequestJoins` | components/vitohome/vitohome.cpp:931-963 | what a request adds to the write and raw lanes: the entity of a value of 1 to 8 bytes, or of a press with something to send, unless it waits already, at the end; an acceptable raw operation while there is room; nothing else |
| `HubQueues.LanesAreFifo` | components/vitohome/vitohome.cpp:544-691 | over every run the write lane and the raw lane are first in, first out: what a lane held and what joined it is what left it, in that order, and what it holds |
| `HubIdent.IdentificationFollowsPlan` | components/vitohome/vitohome.cpp:1831-2012 | over every run from boot the identification reads made are four registers at once, each singly only when that read did not land whole, then burner control and F0 except on GWG, in that order, each at most once, skipping only what was refused for good; it is done exactly when the plan is |
| `HubIdent.UnidentifiedReadsNothing` | components/vitohome/vitohome.cpp:337-339 | over every run from a boot without identification no such read is made |
| `HubTelegrams.TakenIsSent` | components/vitohome/vitohome.cpp:544-744 | an engine that takes telegrams gets, from a free slot, the first of armed merge, identification, raw lane, write lane and read lane that has something, as configured, staged or asked for, and gets nothing just when the protocol has no telegram for that |
| `HubTelegrams.EveryTelegramIsAddressed` | components/vitohome/vitohome.cpp:965-1014 | over every run every telegram went to the register, space and length its entity is configured with, reads at the one address and writes at the other, and the space last used is that of the last telegram that leaves the link in one |
| `HubTelegrams.LostIsGivenUp` | components/vitohome/vitohome.cpp:375-384 | a telegram sent at a time and in flight ever since is given up by a watchdog pass if and only if more than ten seconds a telegram have gone by, in wrapping time; only a GWG EEPROM read of several bytes is several |
| `HubTelegrams.RawAcceptance` | components/vitohome/vitohome.cpp:1183-1222 | which raw operations are accepted: at most 32 bytes, a write with its bytes, a call with its parameter, a read with a length only, and plain ones only where the protocol has a telegram for them |
| `HubTicks.SyncsAsDue` | components/vitohome/vito_clock.cpp:35-84 | over any sequence of ticks: the first one that finds no chain starts a sync exactly when one is wanted at boot, and a later one exactly when it comes a whole interval or more after the one that booted or last started one, across wrap-around |
| `HubTicks.OpeningReadDecides` | components/vitohome/vito_clock.cpp:120-234 | the answer to the opening read queues a write if and only if it is about the clock's register, the source has an encodable time and the device's is unreadable or off by more than the threshold; what is staged decodes to that time, and a deciding weekday is remembered; else the chain ends |
| `HubOrder.RefreshAllReachesEveryone` | components/vitohome/vitohome.cpp:1613-1646 | after a refresh outside the guard interval the next pass leaves waiting exactly the entities that waited before and those of the poll rotation whose interval is not never |
| `HubUnread.ActionIsNeverRead` | components/vitohome/vito_button.h:30-45 | over every run no read of an action button -- outside the rotation, without read-back -- is queued or was ever sent, whatever is refreshed and written around it, so no poll and no read-back runs its procedure again |
| `BitFields.MergeBitsRoundTrip` | components/vitohome/decode.h:93-99 | a merge is refused exactly for a bad mask or an over-wide value; otherwise the field reads back and every other bit is kept |
| `BitFields.MaskIsARun` | components/vitohome/decode.h:53-61 | a mask is usable if and only if it is a run of ones, wherever it stands in the byte |
| `BitFields.ExtractedFieldFits` | components/vitohome/decode.h:80-99 | merging a byte's own field into it gives the byte |
| `BitFields.BitMaskShift` | components/vitohome/decode.h:66-71 | the loop finds the index of the lowest set bit |
| `BitFields.MergeBlockExact` | components/vitohome/decode.h:113-131 | the merged block is the one block in which the field, and nothing but the field, was replaced; refusal is exactly the bad shapes |
| `BitFields.MergeBlockField` | components/vitohome/decode.h:113-131 | in place or into another buffer, the buffers end as that block, bytes beyond it and refused buffers untouched |
| `Scaled.LlroundExact` | components/vitohome/__init__.py:440-449 | the rounded integer is the nearest, and of two equally near the one farther from zero |
| `Scaled.GuardMovesNoBoundary` | components/vitohome/decode.h:208-222 | beyond 2^32 in magnitude no width up to four bytes would have accepted |
| `Scaled.EncodesExactly` | components/vitohome/decode.h:202-238 | a value is sent if and only if its rounded step fits the width and sign |
| `Scaled.BytesReadBack` | components/vitohome/decode.h:139-170 | little-endian two's-complement bytes of a fitting integer read back as it |
| `Scaled.DecodesNearest` | components/vitohome/decode.h:175-238 | what was sent decodes to the nearest step, within half a step of the value |
| `Scaled.ReadLittleEndian` | components/vitohome/decode.h:139-145 | the loop assembles at most eight bytes, least significant first |
| `Scaled.WriteScaled` | components/vitohome/decode.h:202-238 | a refused value leaves the buffer; an accepted one fills exactly its width |
| `Numbers.StagedIsField` | components/vitohome/vito_entity.h:172-181 | the range check and the encoder use the same width in every configuration shape |
| `Numbers.AcceptsAsBound` | components/vitohome/vito_number.cpp:32-81 | at run time a value is accepted exactly when the configuration would accept it as a bound |
| `Numbers.ConfigMeansRuntime` | components/vitohome/number.py:70-107 | the configuration is accepted if and only if min is at most max and every real value between them is accepted at run time |
| `Numbers.ConverterShows` | components/vitohome/__init__.py:401-415 | whatever its shape, an entity with a converter shows, for the same data, what the converter makes of the integer an entity without one shows: an N-th of it for divN, N times it for multN |
| `Numbers.WriteReadsBack` | components/vitohome/vito_number.cpp:32-130 | wherever the state is read at the register written, an accepted value merges into any block the device may hold, and reading the field back shows the nearest step, within half a step |
| `Numbers.VitoNumber.constructor` | components/vitohome/vito_number.h:36-48 | a new entity has nothing staged and no failed reads |
| `Numbers.VitoNumber.Control` | components/vitohome/vito_number.cpp:32-81 | staged bytes and pending value change together, or not at all |
| `Numbers.VitoNumber.HandleResponse` | components/vitohome/vito_number.cpp:83-130 | a good read is shown and ends the streak; one too short counts as a failed read; one without a payload changes nothing |
| `Numbers.VitoNumber.HandleWriteResponse` | components/vitohome/vito_number.cpp:132-139 | without read-back the value shown is the one whose payload is staged |
| `Numbers.VitoNumber.HandleError` | components/vitohome/vito_number.cpp:141-150 | unavailable from the third failed read in a row on, and not before |
| `Schaltzeiten.TimeByteFloors` | components/vitohome/decode.h:522-532 | minutes are floored to ten, 24:00 is the only time of hour 24, and a time is refused exactly past 24:00 or past minute 59 |
| `Schaltzeiten.BytesOrderTimes` | components/vitohome/decode.h:650-654 | comparing switch-point bytes compares times |
| `Schaltzeiten.ParsesExactlyMeaning` | components/vitohome/decode.h:582-605 | a word is accepted as a pair if and only if it means that pair: dashes, or two times of one or two digits around a dash, in order once floored, not starting at 24:00 |
| `Schaltzeiten.PairTextRead` | components/vitohome/decode.h:560-566 | a pair's own text reads back as the pair |
| `SwitchingDay.EncodesExactlyMeaning` | components/vitohome/decode.h:607-675 | a text stands for a program if and only if it has at most four words, each means its pair, and the other slots are empty |
| `SwitchingDay.AcceptedIsWellFormed` | components/vitohome/decode.h:607-675 | an accepted program has forward intervals on the grid, 24:00 only as OFF |
| `SwitchingDay.DayTextFits` | components/vitohome/decode.h:534-537 | whatever the device sends, its text is at most 47 characters |
| `SwitchingDay.CanonicalRoundTrip` | components/vitohome/decode.h:538-675 | every accepted text encodes to a program whose own text is accepted and encodes to the same bytes |
| `SwitchingDay.RoundTripsExactly` | components/vitohome/decode.h:538-675 | the programs that survive being shown and typed back are exactly the well-formed ones |
| `SwitchingCodec.ParseDigits` | components/vitohome/decode.h:588-593 | takes as many digits as there are, two at most, and their value |
| `SwitchingCodec.ParseHhmm` | components/vitohome/decode.h:582-605 | reads one time and stops behind it, or fails, as the grammar says |
| `SwitchingCodec.ParseToken` | components/vitohome/decode.h:632-669 | reads one word as the pair the grammar gives it |
| `SwitchingCodec.EncodeSchaltzeitenDay` | components/vitohome/decode.h:614-675 | the buffer takes the whole program, or, on any rejection, keeps every byte |
| `SwitchingCodec.LastActive` | components/vitohome/decode.h:544-549 | finds how many pairs are shown |
| `SwitchingCodec.AppendText` | components/vitohome/decode.h:559-567 | bounded formatting writes what fits, then a NUL, and reports the whole length |
| `SwitchingCodec.DecodeSchaltzeitenDay` | components/vitohome/decode.h:538-577 | the text, cut to the buffer and ended by NUL; -1 exactly on a short payload or no room |
| `Utf16.UnitIsOneChar` | components/vitohome/decode.h:739-755 | each unit is sent as one well-formed character of section 4 of RFC 3629, '?' for a surrogate |
| `Utf16.KeptExactly` | components/vitohome/decode.h:722-755 | the units taken are exactly those before the first 0x0000 or 0xFFFF, or before the first that would not fit with the NUL |
| `Utf16.TrimsWholeChars` | components/vitohome/decode.h:756-757 | trimming octets trims whole space characters and splits no other |
| `Utf16.LabelDecodes` | components/vitohome/decode.h:716-759 | the output is well-formed UTF-8 without NUL, shorter than the buffer, and decodes to the units shown |
| `Utf16.TakeUnits` | components/vitohome/decode.h:722-755 | the loop writes exactly the units taken and never past the buffer |
| `Utf16.DecodeUtf16` | components/vitohome/decode.h:716-759 | the buffer ends as that output and a NUL; -1 exactly on the refused arguments, with the buffer untouched |
| `Identify.FirstMinIsFirst` | scripts/vitocatalog/identify.py:129-141 | of the rows with the least key, the first is taken |
| `Identify.LastMaxIsLast` | scripts/vitocatalog/identify.py:126-128 | of the rows with the greatest key, the last is taken, as a stable sort leaves it |
| `Identify.PoolSelects` | scripts/vitocatalog/identify.py:90-130 | over the catalogue's rows: a known hardware byte must be the row's own, rows spanning hardware bytes count only where nothing else does, and of what is left every row holding the software index is taken, else the last of those that start latest below it, else the first of those that start earliest; a device without index pairs is returned whole |
| `Identify.F0Reads` | scripts/vitocatalog/identify.py:16-47 | an input stands for exactly one signed 16-bit number, raw bytes low one first, decimal text below 1000, or for none |
| `Identify.F0Picks` | scripts/vitocatalog/identify.py:166-183 | of a pool the first row whose F0 range holds the number is picked, and failing that the first of the least F0, none counting as -1 |
| `Identify.ResolvesExactly` | scripts/vitocatalog/identify.py:144-183 | over the catalogue's rows: unknown exactly without a row of the device, a device without index pairs by its single row or not at all, any other by the row F0 picks of those its indices select |
| `Identify.PoolOfFamily` | scripts/vitocatalog/identify.py:61-115 | a pool exists exactly for known ids, holds only rows of that family, and is a family answer exactly when no row has a hardware and software range |
| `Identify.UncataloguedIsIgnored` | scripts/vitocatalog/identify.py:104-110 | a hardware byte the family does not have changes nothing |
| `Identify.GenericOfIsGeneric` | scripts/vitocatalog/identify.py:133-141 | the fallback is the first row of the lowest F0, no F0 counting as -1: the first row without F0, or, when every row has one, the first with the lowest, F0 ranges starting at zero or above |
| `ResolveIndex.RunsTile` | scripts/vitocatalog/identify.py:191-213 | the runs tile the indices in order, each constant in answer, neighbours different |
| `ResolveIndex.ExactlyOneRun` | scripts/vitocatalog/identify.py:191-213 | every index has exactly one run |
| `ResolveIndex.RunPicksLikePool` | scripts/vitocatalog/identify.py:163-184 | a run picks, for every F0, the token the resolver picks from the pool it was made of |
| `ResolveIndex.FirstHitIsFirstMatch` | web/lookup.js:114-118 | the first candidate whose range holds F0 is the resolver's first match |
| `ResolveIndex.StateOfF0` | web/lookup.js:100-125 | what the finder says of F0: not asked where no row has a range, missing where none usable was given, matched where some row's range holds it, and no match otherwise |
| `ResolveIndex.SameTokensSameRows` | scripts/vitocatalog/identify.py:187-203 | with unique tokens, equal run keys mean equal pools |
| `Finder.ResolveRuns` | scripts/vitocatalog/identify.py:191-213 | the loop over 0..255 gives the runs of the resolver's pools |
| `Finder.BuildEntry` | scripts/vitocatalog/identify.py:241-254 | a family without ranges is listed; any other has runs for each hardware byte it knows and for the rest |
| `Finder.BuildIndex` | scripts/vitocatalog/identify.py:216-266 | the table has exactly the catalogue's ids, each with its entry |
| `Finder.RunsOfHardware` | web/lookup.js:92-94 | the runs the finder reads for a hardware byte are those of the resolver's pools for it |
| `Finder.MatchAgrees` | web/lookup.js:84-133 | for a ranged family the finder reports the resolver's way of matching, token and verdict on the hardware byte |
| `Finder.MatchLists` | web/lookup.js:84-133 | beside its match the finder lists the tokens of the resolver's pool where there are several, and those of the family's rows without an index pair |
| `Finder.TableAgrees` | scripts/vitocatalog/identify.py:144-266 | with unique tokens, for every id, hardware byte or none, software index and F0, the finder over the built table answers as the resolver does |
| `Finder.TokensSeen` | web/lookup.js:96-100 | the loop collects the tokens of all runs |
| `Finder.NeedSoftwareIsExact` | web/lookup.js:96-100 | without a software index the finder lists exactly the types some index could select |
| `TagIndex.OneTag` | scripts/vitocatalog/loader.py:538-548 | every menu inherits exactly one tag, so answers cannot depend on what was asked before |
| `TagIndex.AnswersAsSaid` | scripts/vitocatalog/loader.py:523-536 | a menu answers for itself exactly when its path names a system menu, or it sets a circuit, with that one's tag or none; otherwise it inherits |
| `TagIndex.CycleHasNone` | scripts/vitocatalog/loader.py:542-543 | on a cycle of menus without answers the inherited tag is the empty one |
| `TagIndex.InheritsFromParent` | scripts/vitocatalog/loader.py:544-546 | a menu without an answer inherits what its parent does |
| `TagIndex.TagResolver.constructor` | scripts/vitocatalog/loader.py:550-551 | a resolver starts with an empty memo |
| `TagIndex.TagResolver.Resolve` | scripts/vitocatalog/loader.py:538-548 | over any graph, cycles and missing parents included, it terminates with the first own answer along the parent chain or none, whatever the memo holds, and the memo only grows by such answers |
| `TagIndex.BuildTagIndex` | scripts/vitocatalog/loader.py:513-562 | the index has exactly the owned (type, event) pairs, each with exactly the tags its menus inherit |

## Left out

- The protocol engine below the hub (`optolink/`): it is the environment described above. The serial adapter and frame logging are not modelled.
- Threads and the ring's mutex: each ring operation is one atomic step, and predicates passed to a ring do not touch it.
- Log lines, published texts, finder URLs, register values kept by identification, and the raw console's result text: only their effect on the lanes is modelled.
- Connectivity, identification and raw-console sensors are not entities here; automations they run are request lists at the same point of the callback, and a connectivity publish before a callback is a request event just before it.
- A null payload pointer is an empty payload in the hub and the clock, which treat the two alike; the number entity tells them apart, and so does its model.
- Null entities in the lanes and an entity registered twice: the lanes hold registered entities.
- `HubObject.VitoHome.constructor`: entity bookkeeping and staging buffers are one sequence owned by the hub, and the RMW and check buffers are sequences, so aliasing of entity objects and bytes beyond the staged length are not captured.
- `HubObject.VitoHome.Loop`: the start-up protocol verification, which stops the hub when no link appears in time, is not part of the pass; to a run it is the end of all offers. The engine's own polling before the pass is an event of the run.
- `HubObject.VitoHome.Setup`: a boot that fails after the lanes are sized, for want of an engine, is not modelled.
- Classification of raw specifications (`raw_op.h`): a raw operation arrives classified; its space, layer, code and bytes are its parts.
- Entity classes other than number and clock (switch, select, climate, event, text, sensors): they ride the same lanes with the same staging and add no new interleaving.
- `Numbers.VitoNumber.HandleResponse`: values are reals, so the non-finite branch and rounding to 32-bit floats do not arise.
- `Scaled.WriteScaled`: for the same reason there is no non-finite value; exactness of decimal scales in binary floating point is not modelled.
- `Numbers.ConfigMeansRuntime`: schema steps that only check types, names and the converter's width table are not repeated; the shape rules it needs are `ShapeValid`.
- `SwitchingCodec.EncodeSchaltzeitenDay`: a null text is not distinguished from an empty one, and a text holds no NUL.
- `Utf16.DecodeUtf16`: the buffers are present; the null-pointer refusals are not modelled.
- Big-endian and ASCII decoding, one-byte flags and the debug dump in `decode.h`: single-loop formatters without a partner property.
- Identification texts: hex keys, `parseHex`, `parseIdentification` and the forms F0 is written in are parsed before the model starts; keys are numbers and F0 is one of four input kinds. The reason strings, the catalogue table `tokens` and its chips are not modelled.
- `TagIndex.BuildTagIndex`: the nested link table is one list of (event, menu) links in walking order; the separators of a menu path are already split.
- `emitter.py`, `special.py`, `exporter.py`, XML loading, fault-code and unit tables, and the web editor: text and table output.
