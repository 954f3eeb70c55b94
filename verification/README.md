# Deterministic logical clocks: a verified model

The kernel module keeps one logical clock per thread, counted in retired instructions. A thread may
go on past its wait only when its pair (clock, tid) is the smallest among the active threads, so
that the order in which threads take their turns does not depend on how they are scheduled. This
project models the protocol that hands out the turns, the list and the searches it uses, and the
instruction counting underneath, and proves what they promise.

## Layout

Five files (`ListArray`, `Group` and the three `...Device` files) hold the code as the source has it,
changed in place, and each method is proved to take its object where a function says; the other
files prove things about those functions.

| file | what it holds |
|---|---|
| `ListArray.dfy` | the doubly linked list over an array, and the sequence it represents |
| `Clocks.dfy` | entries, the (clock, tid) order, the searches and the two traversals |
| `Periods.dfy`, `Overshoot.dfy` | the adaptive overflow period, and how far a running thread overshoots a waiting one |
| `Protocol.dfy` | every operation as a function on the group state |
| `Group.dfy` | the same operations in place: loops over the list, a scratch array that is never cleared, one lock-held section a method |
| `Grants.dfy`, `Sleep.dfy` | what one lock-held section grants, records, flags; exactly when the sleep loop leaves |
| `Paths.dfy`, `Runs.dfy`, `Turns.dfy` | runs of all operations: recorded lowest, no lost wake-up, grant safety, monotone turns |
| `Merge.dfy`, `Schedule.dfy`, `Completion.dfy` | the client cycle: one canonical schedule for all interleavings, exactly when it can finish, complete runs |
| `Effects.dfy` | who changes what: every field of every record and page under every operation, and what follows from it |
| `Stall.dfy` | exactly the starts from which a late notification can stall the client cycle |
| `Hazards.dfy`, `LostWakeUp.dfy` | places where the code falls short, with the steps that show it |
| `Counters.dfy`, `CounterDevice.dfy` | wrap-around deltas, what becomes of counted events, the compare-and-swap loop |
| `Fence.dfy`, `FenceDevice.dfy` | the bounded fence with its single-stepping countdown |
| `Coarsened.dfy`, `CoarsenedDevice.dfy` | coarsened transactions of the user-space library |

A lock-held section together with its wake-up is one step. Hardware readings, the number of events
between two points, interrupts and the contents of the uninitialised scratch array are inputs, and
all statements hold for all of them. The protocol is the default build: adaptive periods on,
bounded fence off; the fence is modelled on its own.

## Main results

- **Schedule independence** (`Schedule.ScheduleIndependence`, `Completion.FinishedRunsGrantTheWholeSchedule`).
  From any start in which everybody listed runs, and for fixed chunk lengths, the turns of every
  interleaving are a prefix of one sequence, the k-way merge of all requests by (clock, tid), and the
  rest of that sequence is the merge of what is still open. A finished run has granted all of it.
- **When the group can stall** (`Stalls.StartCanStallExactlyWhen`). A start in which everybody
  listed runs has chunks with an interleaving that stalls -- nobody spins, but everybody waits for
  ever -- if and only if a stale notification is scheduled at the start: one that finds nothing owed
  or flagged any more, with several threads listed.
- **When the group can finish** (`Completion.CanFinishExactlyWhen`, `Schedule.SleepHangsExactlyWhen`,
  `Completion.RunBurden`). From a state that an interleaving reaches from any other start, however
  late the deferred notifications, the group can run to its end exactly when no thread spins in its
  sleep call; a thread comes to spin exactly when it goes to sleep last and is not the minimum. And no
  run, from whatever start, has more cycle steps than a bound fixed there.
- **Grant safety** (`Turns.GrantSafety`, `Grants.DetermineExact`). Whoever is granted a turn is the
  unique minimum of the active threads; the caller is granted the turn if and only if it is.
- **No lost wake-up** (`Runs.RunKeepsInv`) while notifications are prompt, with the exact condition
  under which a late deferred notification keeps it (`Runs.NotifyKeepsExactlyWhen`).
- **Turns never go back** (`Turns.TurnsNeverGoBack`), for runs in which threads come and go, and
  with no assumption on when notifications run, as long as a returning thread comes back at or after
  the turns granted so far; one that does not can be granted the next turn, which then goes back
  (`Turns.ComesBackInOrderExactlyWhen`).
- **Who changes what** (`Effects.CallerRecord`, `Effects.CallerPage`, `Effects.OthersStay`, `Effects.WokenIsTold`):
  every field under every operation. So in the client cycle only running threads count and all others
  show their clock (`Effects.OnlyRunnersCount`), an overflow flags again after a delivered notification
  (`Effects.FlagsAgainAfterDelivery`), and the counter is armed anew exactly after a hand-over
  (`Effects.NextEnableArmsExactlyWhen`).
- **The sleep loop** leaves on its first pass if and only if the group is not stranded, and
  otherwise never (`SleepLoop.TriesAgainExactlyWhenStranded`, `SleepLoop.StrandedForever`).
- **Counting**: a stop credits every event once if and only if no overflow interrupt falls between
  the raw read and the swap of its successful attempt, or something that takes a fresh record makes
  up for it before the event's count is read (`Counters.EachEventIsCreditedOnceExactlyWhen`); the fence signal
  arrives at exactly the chunk size (`Fences.ExactFence`); a coarsened block moves the kernel clock
  by its events less what overflow interrupts inside its transactions took back, so it conserves
  exactly when there is none (`CoarsenedClock.BlockWithOverflows`).

## Where the code falls short of its aim

- *Events credited twice.* The read loop reads the counter before it reads the record
  (`src/module/logical_clock_instruction_counting.h:56-65`), so its swap cannot notice an overflow
  interrupt in between, nor one that arms the counter at the recorded value again. The events up to
  the read are then credited twice or the new period is credited before it has passed
  (`Counters.InterruptBeforeRecordCreditsTwice`, `Counters.InterruptAtTheSameValueCreditsTwice`), and
  nothing takes the surplus back (`Counters.SurplusStays`).
- *Sleeping last.* When everybody else sleeps, a caller that is not the minimum never leaves its
  sleep call: the minimum has been woken, but its report needs the group lock, which the loop holds
  (`Schedule.SleepHangsExactlyWhen`; the steps are in `Hazards.SleepBeforeAcknowledgementHangs`).
- *A notification that runs late.* The overflow handler schedules a deferred notification and flags
  it; the enable operation clears the flag, but not the schedule. If the notification then finds
  nothing owed, it records the waiting minimum without waking it, and the wake-up is lost. The client
  cycle can stall on that exactly when it starts with such a notification scheduled
  (`Stalls.StartCanStallExactlyWhen`), and there is a run from a new group to such a start
  (`LostWakeUps.LateNotificationLosesWakeUp`).
- *A raised flag with nothing scheduled.* A deferred notification that runs while the minimum does
  not wait leaves the overflow handler's flag raised, and as long as it is, the handler schedules
  nothing (`Effects.FlagStaysScheduledExactlyWhen`).
- *A newcomer compares with the record only.* A thread that activates itself takes the lead when it
  precedes the recorded lowest thread, even if somebody else precedes the newcomer
  (`Grants.NewcomerSeesExactlyWhen`, `Grants.ActivateMisleadsExactlyWhen`, `Hazards.NewcomerIsMisled`);
  user space takes that for a turn.
- *Overflows inside a coarsened transaction* take the counter back, and the clock with it
  (`CoarsenedClock.BlockWithOverflows`); and the add-ticks call takes 32 bits, so that a block of
  2^31 or more turns the clock back (`CoarsenedClock.HugeBlockGoesBackwards`). A block that ends
  before the counter overflows is conserved (`CoarsenedClock.ArmedBlockConserves`).

## Model

| member | source | states |
|---|---|---|
| `ListArrays.ListArray.constructor` | src/module/listarray.h:45-54 | all links dead, both ends null: the empty sequence |
| `ListArrays.ListArray.Count` | src/module/listarray.h:56-58 | the stored count is the length of the represented sequence |
| `ListArrays.ListArray.InList` | src/module/listarray.h:133-136 | the test on the two links is membership, both ways |
| `ListArrays.ListArray.Insert` | src/module/listarray.h:60-85 | appends an unlisted index in place and raises the maximum index if needed; a listed one is the BUG_ON case and changes nothing |
| `ListArrays.ListArray.Unlink` | src/module/listarray.h:103-126 | the four cases join the neighbours, kill the entry and move the ends, nothing else |
| `ListArrays.ListArray.Remove` | src/module/listarray.h:87-130 | deletes a member and keeps the order of all others; the empty list is the BUG_ON case |
| `ListArrays.ListArray.ForEach` | src/module/listarray.h:34-36 | the traversal ends and has visited exactly the represented sequence |
| `ListArrays.ListArray.ForEachAllElements` | src/module/listarray.h:37-38 | the interrupt-side traversal visits every index up to the maximum, so every member |
| `ListArrays.AppendThreads` | src/module/listarray.h:66-77 | linking a dead entry behind the last one represents the sequence with it appended |
| `ListArrays.RemoveThreads` | src/module/listarray.h:103-126 | joining the neighbours of a member represents the sequence without it, ends included |
| `ListArrays.WithoutElements` | src/module/listarray.h:87-130 | removal takes out that element only, keeps the list duplicate-free and one shorter |
| `ListArrays.InsertThenRemove` | src/module/listarray.h:60-130 | removing what was just inserted gives back the same list |
| `Clocks.ScanIsMinimum` | src/module/search_entries.h:58-102 | the running minimum of a search is the unique smallest admitted thread, or -1 exactly when none is admitted |
| `Clocks.ScanDependsOnMembersOnly` | src/module/search_entries.h:58-102 | the answer depends neither on the order of the visit nor on entries that are not admitted |
| `Clocks.AwakeCountIsCardinality` | src/module/search_entries.h:35-56 | the count is the number of live, awake threads visited |
| `Clocks.TwoScansAgree` | src/module/search_entries.h:35-102 | if every live entry in reach is listed, index scan and list walk agree in all searches and in the count |
| `Clocks.ScansAgreeExactlyWhen` | src/module/search_entries.h:82-102 | without that hypothesis they agree exactly when the list's minimum precedes every live unlisted entry |
| `Clocks.CleanStackSearch` | src/module/search_entries.h:136-153 | with a cleared scratch array the search is the minimum if it waits, else -1 |
| `Periods.BoundedOvershoot` | src/module/logical_clock_instruction_counting.h:144-172 | a chain of chosen periods is finite, of exactly known length, and its last member is the first at or beyond the waiter, late by an amount that the lead alone determines, at most 1023 |
| `Overshoots.ClocksAreTheChain` | src/module/clock_main.c:288-305 | the clock of a running thread at its interrupts is that chain: counting changes nothing about who else waits |
| `Overshoots.AimedOvershootIsBounded` | src/module/clock_main.c:288-305 | with the period chosen for the waiter: after one interrupt for every full period of 200000 and one more the thread has first reached it, late by an amount that the lead alone determines, at most 1023 |
| `Overshoots.OvershootIsBounded` | src/module/clock_main.c:288-305 | in the middle of any period, whenever the waiter stopped: the first interrupt to reach it is the end of that period, late by what it exceeds the lead, or comes as if aimed from there |
| `Overshoots.PeriodGrows` | src/module/logical_clock_instruction_counting.h:155-169 | with nobody waiting ahead the period after n interrupts is 10000 n more, up to 200000 |
| `Overshoots.EnableChoosesIt` | src/module/clock_main.c:471-473 | starting to count behind a waiter chooses the period that the chain begins with |
| `Protocol.StopTurnsOff` | src/module/clock_main.c:734-757 | a stop turns counting off, whether it was on or not, and shows the clock |
| `Protocol.AddTicksAdds` | src/module/clock_main.c:443-456 | whatever the state of the group, adding ticks moves the clock by just that amount and shows it |
| `Protocol.GrantClears` | src/module/clock_main.c:341-406 | a caller that is granted the turn is left with none of its flags set; any other waits |
| `Groups.Group.constructor` | src/module/clock_main.c:576-591 | a new group: nobody initialised, listed or recorded, a notification owed, none flagged or scheduled |
| `Groups.Group.ClockIsLower` | src/module/utility.h:54-57 | true exactly for the smaller clock, or the same clock and the smaller number |
| `Groups.Group.SearchIndices` | src/module/search_entries.h:62-68 | the index loop computes the minimum over 0..max_index |
| `Groups.Group.SearchList` | src/module/search_entries.h:69-76 | the list loop computes the minimum over the list |
| `Groups.Group.Search` | src/module/search_entries.h:58-102 | either traversal returns the unique smallest admitted thread, or -1 |
| `Groups.Group.SearchForLowestWaiting` | src/module/search_entries.h:136-153 | marks waiting threads in an array nobody cleared; the minimum passes when it waits or its slot held a stale mark |
| `Groups.Group.ActiveThreadCount` | src/module/search_entries.h:35-56 | the loop counts the live, awake listed threads |
| `Groups.Group.NewLowest` | src/module/clock_main.c:207-224 | in place: compares with the record, and searches only if nobody is recorded or the caller is |
| `Groups.Group.WakeUpWaitingThread` | src/module/clock_main.c:234-250 | called with the recorded lowest thread: a sleeper gets its poll flag, any other its shared page flag |
| `Groups.Group.SetCurrentThreadToLowest` | src/module/clock_main.c:341-348 | the caller's page flag set, its waiting, sleeping and inactive flags cleared, the owed notification dropped |
| `Groups.Group.DetermineLowestAndNotifyOrWait` | src/module/clock_main.c:350-406 | the branches of the code compute the closed form of the decision, for whatever the scratch array held |
| `Groups.Group.UpdateOverflowPeriod` | src/module/logical_clock_instruction_counting.h:144-172 | grows the period, or aims past the lowest waiter ahead, within the bounds |
| `Groups.Group.EntryOverflowUpdatePeriod` | src/module/clock_main.c:288-305 | credits the clock and picks the next period, only while counting |
| `Groups.Group.OverflowHandler` | src/module/clock_main.c:308-339 | flags and schedules a notification for a new lowest thread that waits, once, and changes nothing else |
| `Groups.Group.NotifyWaitingThreads` | src/module/clock_main.c:258-286 | no longer scheduled, it records the waiting minimum, and wakes it if a notification is owed or flagged, after which neither is |
| `Groups.Group.EntryWait` | src/module/clock_main.c:673-684 | one decision and its wake-up |
| `Groups.Group.EntryStopNoNotify` | src/module/clock_main.c:760-762 | credits the reading only if counting was on, turns counting off in any case, publishes the clock |
| `Groups.Group.EntryStartNoNotify` | src/module/clock_main.c:773-784 | counting moves to user space: not counted here, to be armed again by the next enable |
| `Groups.Group.EntryStop` | src/module/clock_main.c:734-757 | counting is off, then one decision and its wake-up |
| `Groups.Group.EntrySleep` | src/module/clock_main.c:690-721 | unless the group is stranded, the loop is one pass with its wake-up |
| `Groups.Group.EntryWokeUp` | src/module/clock_main.c:724-730 | clears the caller's sleeping and waiting flags |
| `Groups.Group.OnEnable` | src/module/clock_main.c:458-494 | new chunk and period, counter armed anew exactly when user space was reading it, decision, re-arming by the recorded lowest, cleared flags, wake-up |
| `Groups.Group.OnDisable` | src/module/clock_main.c:410-441 | credits and stops counting, makes a notification owed, then decides |
| `Groups.Group.AddTicks` | src/module/clock_main.c:443-456 | moves the clock by exactly the signed amount and shows it, then decides there |
| `Groups.Group.EntryHalt` | src/module/clock_main.c:593-610 | takes itself off the list, decides for the others, and does not wait |
| `Groups.Group.EntryActivate` | src/module/clock_main.c:612-644 | joins the list; takes the lead, and sees it, only when the comparison with the record says so |
| `Groups.Group.EntryActivateOther` | src/module/clock_main.c:646-670 | seeds a fresh thread one tick after its activator, lists it, and tells the activator if it precedes the record |
| `Groups.Group.EntryInit` | src/module/clock_main.c:538-552 | after registering, the thread is initialised, active and not counting; a known one keeps its clock and a new one starts at zero; nobody is listed by it and no other record changes |
| `Grants.LowestIsUniqueMinimum` | src/module/search_entries.h:82-102 | among listed, live threads the search finds the one lexicographic minimum |
| `Grants.LowestComesFirst` | src/module/utility.h:54-57 | spelled out: everybody listed but the minimum has a larger clock, or the same clock and a larger number, and nobody else has this property |
| `Grants.DetermineExact` | src/module/clock_main.c:350-406 | the caller is granted the turn iff it is the minimum; another thread is woken iff it is the minimum, waits and is owed a notification; stale marks do not matter |
| `Grants.DetermineEffect` | src/module/clock_main.c:350-406 | every other thread's record and page, the list and all other fields are left alone |
| `Grants.RecordedLowest` | src/module/clock_main.c:364-398 | after a decision the record is the minimum or -1, the minimum if that waits; only a lone thread leaves it alone |
| `Grants.RecordedTicks` | src/module/clock_main.c:347-401 | whoever is recorded after a decision, lowest_ticks is that thread's clock, in the lone-thread branch and for a halting record too |
| `Grants.NotifyExact` | src/module/clock_main.c:258-281 | the deferred notification wakes exactly the waiting minimum when one is owed or flagged; only then nothing is owed or flagged any more; and in any case nothing is scheduled |
| `Grants.OverflowFlagsExactly` | src/module/clock_main.c:308-339 | the handler flags and schedules iff the caller counts, none is flagged, the record is the caller or nobody and the minimum is another thread, which waits; it changes nothing else |
| `Grants.LowestOfJoined` | src/module/clock_main.c:612-670 | a newcomer is the minimum iff it precedes the minimum of those already listed |
| `Grants.ActivateLeadsWhen` | src/module/clock_main.c:612-644 | the newcomer takes the lead iff it precedes the recorded lowest thread, or nobody is recorded and it is the minimum |
| `Grants.ActivateMisleadsExactlyWhen` | src/module/clock_main.c:207-224 | the newcomer leads without being the minimum exactly when somebody listed precedes it and it precedes the record; a leading newcomer sees its flag and drops the owed notification |
| `Grants.NewcomerSeesExactlyWhen` | src/module/clock_main.c:612-644 | the newcomer sees the lead flag iff it precedes the record, or nobody is recorded and it is the minimum, or the flag was set before; exactly when it sees it without being the minimum; nobody else's page changes |
| `Grants.ActivatorIsToldExactlyWhen` | src/module/clock_main.c:661-667 | the activator is told iff the thread it lists precedes the record or nobody is recorded; no other page field changes |
| `SleepLoop.NobodyAwake` | src/module/search_entries.h:35-56 | the awake count is zero iff every listed thread sleeps |
| `SleepLoop.TriesAgainExactlyWhenStranded` | src/module/clock_main.c:690-721 | the loop repeats iff all others sleep and the minimum is another, recorded thread whose notification was already sent |
| `SleepLoop.LeavesWithSomebody` | src/module/clock_main.c:690-721 | on leaving there is a thread to wake up or a listed thread awake |
| `SleepLoop.StrandedForever` | src/module/clock_main.c:690-721 | a stranded caller tries again after any number of passes, whatever the scratch arrays held |
| `Runs.RecordedExactly` | src/module/clock_main.c:376-380 | in every deciding operation whose caller is not alone, the record becomes the minimum if that is the caller, waits, or has a stale mark, and otherwise nobody |
| `Runs.WaitingMinimumIsAnswered` | src/module/clock_main.c:350-406 | after any decision a waiting minimum has been granted, woken or answered before |
| `Runs.DecidingKeeps` | src/module/clock_main.c:350-494 | every operation that decides keeps the record listed or -1, sleepers waiting, and no wake-up lost |
| `Runs.ActivateKeeps` | src/module/clock_main.c:612-644 | so does a thread that activates itself |
| `Runs.ActivateOtherKeeps` | src/module/clock_main.c:646-670 | so does activating another thread |
| `Runs.OverflowsKeep` | src/module/clock_main.c:288-339 | so do both halves of the counter interrupt |
| `Runs.RegisterKeeps` | src/module/clock_main.c:538-552 | so does registering a thread, listed or not |
| `Runs.StartInv` | src/module/clock_main.c:576-591 | a new group is blank but for an owed notification, and satisfies the invariant, so runs have somewhere to start |
| `Runs.GroupKept` | src/module/clock_main.c:258-784 | every operation, notifications however late included, keeps the listed threads live, the record listed or -1 and listed sleepers waiting |
| `Runs.NotifyKeepsExactlyWhen` | src/module/clock_main.c:258-286 | the deferred notification keeps them iff something is still owed or flagged, or nobody waits lowest, or that wait was answered already |
| `Runs.StepKeepsInv` | src/module/clock_main.c:258-784 | one step of any of sixteen operations keeps the invariant when a notification runs while something is owed |
| `Runs.RunKeepsInv` | src/module/clock_main.c:258-784 | so does every such run: at each lock release lowest_tid is -1 or listed, and a waiting recorded thread with nothing owed has been answered |
| `Runs.SleepLeavesAtOnce` | src/module/clock_main.c:690-721 | in every such state where no sleeper sits on an unconsumed notification, sleep leaves on its first pass with somebody awake or woken |
| `Turns.DecidingGrants` | src/module/clock_main.c:350-406 | through a whole deciding operation: granted iff minimum, woken is the recorded, waiting minimum, no listed clock goes back |
| `Turns.GrantSafety` | src/module/clock_main.c:258-406 | whoever any step grants the turn to, late notifications included, is at that moment the unique minimum of the listed threads, and a woken one waits and is recorded |
| `Turns.FreshThreadNeverPrecedes` | src/module/clock_main.c:653-657 | a fresh thread comes right behind its activator and leaves the minimum unchanged |
| `Turns.StepMovesForward` | src/module/utility.h:44-52 | no operation turns a listed thread's clock back or lists a thread, activation aside |
| `Turns.StepKeepsOrder` | src/module/clock_main.c:258-730 | each step keeps the turns sorted and all of them at or before every listed thread |
| `Turns.TurnsNeverGoBack` | src/module/clock_main.c:258-784 | along every run whose returning threads come back in order, granted (clock, tid) pairs never decrease, however late the notifications |
| `Turns.ComesBackInOrderExactlyWhen` | src/module/clock_main.c:612-670 | a thread that joins the list is in order iff the turns stay sorted should it stop at once: one that comes back before a past turn is the minimum and is granted the next |
| `Merges.MinHeadLeads` | src/module/utility.h:56-57 | the merge takes the request that precedes every other thread's first one |
| `Merges.MergeServesEveryRequest` | src/lib/tests/simple.c:20-26 | the canonical schedule gives each thread exactly its own requests in its own order |
| `Merges.MergeIsInTurnOrder` | src/module/utility.h:56-57 | the canonical schedule is sorted by (clock, tid) |
| `Schedule.DecidingStep` | src/module/clock_main.c:350-406 | everything a deciding operation does: to the caller, the woken thread and all others, the record, the owed notification, the clock |
| `Schedule.HoldersStayMinimum` | src/module/clock_main.c:350-406 | after a deciding step only the minimum holds the turn |
| `Schedule.RecordStaysMinimum` | src/module/clock_main.c:376-401 | after a decision that leaves a notification stale, the record is the minimum, and that thread is not running |
| `Schedule.MinimumAnswered` | src/module/clock_main.c:388-401 | no decision leaves the minimum's own request unanswered, as long as none was forgotten before |
| `Schedule.NotifyForgetsNone` | src/module/clock_main.c:258-286 | nor does a deferred notification, however late: a stale one finds the waiting minimum recorded and answered |
| `Schedule.StepKeepsOk` | src/lib/tests/simple.c:20-26 | every step of the cycle and every interrupt keeps the invariant for safety, and the one that no request is forgotten |
| `Schedule.ServedLeads` | src/module/clock_main.c:350-406 | the request a step serves is the one the merge takes next, running threads included |
| `Schedule.StepKeepsSchedule` | src/lib/tests/simple.c:20-26 | turns granted followed by the merge of open requests never changes |
| `Schedule.ScheduleIndependence` | src/lib/tests/simple.c:20-26 | from any start in which everybody listed runs, in every interleaving, the turns are a prefix of the merge of all requests, and the rest is the merge of the open ones |
| `Schedule.AnyTwoRunsAgree` | src/lib/tests/simple.c:20-26 | two runs from equal clocks and chunks agree on the turns as far as both have got, whatever the list order and whatever is recorded, owed or scheduled |
| `Schedule.OneHolderAtATime` | src/lib/determ_clock.c:249-290 | at most one thread holds the turn, and it precedes every other listed thread |
| `Schedule.SomebodyCanGoOnExactlyWhen` | src/lib/determ_clock.c:249-290 | where no request was forgotten, and on from there, some listed thread is not blocked exactly when no thread spins in its sleep call, with no assumption on when notifications run |
| `Schedule.BeginIsOk` | src/lib/tests/simple.c:20-26 | every start in which everybody listed runs satisfies the invariant for safety, and, unless a notification is stale, no request is forgotten there |
| `Schedule.SleepHangsExactlyWhen` | src/lib/determ_clock.c:263-269 | where no request was forgotten, a sleep call starts to spin exactly when all other listed threads sleep and the caller is not the minimum |
| `Schedule.SpinningForever` | src/module/clock_main.c:690-721 | a thread that spins tries again after every pass |
| `Schedule.VisibleGrantsAreTurns` | src/lib/determ_clock.c:249-290 | a stopped thread sees that it may proceed iff its request was granted |
| `Completion.StepBurden` | src/lib/tests/simple.c:20-26 | each cycle step uses up some of a bound on the work left and no step adds to it |
| `Completion.RunBurden` | src/lib/tests/simple.c:20-26 | no run has more cycle steps than the bound it started with |
| `Completion.SomebodyProgresses` | src/lib/determ_clock.c:249-290 | as long as anybody is listed, no request is forgotten and nobody spins, some thread can take the next step of its cycle |
| `Completion.CanFinishExactlyWhen` | src/lib/tests/simple.c:20-26 | from a state reached from one where no request was forgotten, the group can run to its end if and only if no thread spins there |
| `Completion.FinishedRunsGrantTheWholeSchedule` | src/lib/tests/simple.c:20-26 | a finished run granted the whole merge: each thread its turns after exactly its chunks, in (clock, tid) order |
| `Effects.CallerRecord` | src/module/clock_main.c:288-784 | for all sixteen operations, what is left in the caller's record: clock, chunk, counting, who reads the counter, and all flags |
| `Effects.CallerPage` | src/module/clock_main.c:341-784 | and on its page: lead flag, shown clock, single-active and activated-lowest flags |
| `Effects.OthersStay` | src/module/clock_main.c:258-784 | no operation touches anybody's record or page but the caller's, the woken thread's and the activated one's |
| `Effects.WokenIsTold` | src/module/clock_main.c:234-250 | a woken thread comes first on the list, waits and is recorded; it is told through its buffer if it sleeps, else on its page, and nothing is owed or flagged any more |
| `Effects.ActivatedRecord` | src/module/clock_main.c:653-661 | the activated thread's record: a fresh one starts one tick behind its activator, a known one keeps its clock |
| `Effects.InterruptChoosesPeriod` | src/module/logical_clock_instruction_counting.h:144-172 | the next period of a counting thread, from its clock and that of the lowest other waiter |
| `Effects.ChunkBeginsWithPeriod` | src/module/clock_main.c:471-473 | and the one a chunk begins with |
| `Effects.ActivationChoosesPeriod` | src/module/clock_main.c:621-623 | and the one a thread that activates itself begins with |
| `Effects.FlagStaysScheduledExactlyWhen` | src/module/clock_main.c:258-331 | every step keeps a raised flag scheduled, but for a notification that runs while the minimum does not wait |
| `Effects.FlagsAgainAfterDelivery` | src/module/clock_main.c:268-331 | after a delivered notification, whatever happens in between, the next overflow that finds another thread the waiting minimum flags and schedules again |
| `Effects.NextEnableArmsExactlyWhen` | src/module/clock_main.c:475-478 | along every run, an enable finds the counter read by user space iff the thread's last operation on it was the hand-over |
| `Effects.AddTicksMoves` | src/module/clock_main.c:443-456 | the clock moves by exactly the signed amount, the chunk does not, the page shows the new clock, and the turn is granted by where it lies |
| `Effects.BlockReachesTheGroup` | src/lib/determ_clock.c:385-391 | a coarsened block reaches the group as one add-ticks call, after which library and group agree on the clock again |
| `Effects.StepKeepsRest` | src/module/utility.h:39-40 | each step of the cycle leaves a thread that does not run uncounted, with its clock shown |
| `Effects.OnlyRunnersCount` | src/module/clock_main.c:288-339 | in every interleaving a thread counts exactly while it runs; otherwise its page shows its clock and no interrupt does anything |
| `Stalls.DoomedStays` | src/module/clock_main.c:350-406 | with everybody waiting behind a sleeping, recorded minimum and nothing owed, no step changes that: renewed waits and sleeps answer nobody |
| `Stalls.StaleNotification` | src/module/clock_main.c:258-286 | with nothing owed or flagged, the notification records the waiting minimum, and wakes nobody |
| `Stalls.StaleStartStalls` | src/lib/tests/simple.c:20-26 | from every start with a stale notification, whoever is recorded and whatever the clocks, some chunks have an interleaving that stalls |
| `Stalls.StartCanStallExactlyWhen` | src/lib/tests/simple.c:20-26 | a start in which everybody listed runs has chunks and an interleaving after which everybody waits for ever although nobody spins, if and only if a stale notification is scheduled |
| `Hazards.SleepBeforeAcknowledgementHangs` | src/module/clock_main.c:690-721 | steps of an ordinary two-thread cycle that reach the state the sleep loop never leaves |
| `Hazards.NewcomerIsMisled` | src/module/clock_main.c:612-644 | the steps: the minimum starts and runs past a listed thread, and a returning thread between the two sees the flag although it is not the minimum |
| `LostWakeUps.LateNotificationLosesWakeUp` | src/module/clock_main.c:258-286 | in any new group of three or more threads an eighteen-step run is possible at whose end everybody listed runs and a stale notification is scheduled, so that the group can stall |
| `Counters.KernelDeltaIsSignedResidue` | src/module/logical_clock_instruction_counting.h:88-91 | for all readings the kernel's shifts give the signed 48-bit residue of the advance |
| `Counters.UserDeltaIsResidue` | src/lib/determ_clock.c:435-440 | the library's shifts give the unsigned one |
| `Counters.DeltasAgreeExactlyWhen` | src/lib/determ_clock.c:435-440 | they agree iff the advance modulo 2^48 is below 2^47 |
| `Counters.SetThenRead` | src/module/logical_clock_instruction_counting.h:115-141 | setting the counter to -val and reading after k events gives exactly k, across the wrap |
| `Counters.InterruptCreditsAtOnce` | src/module/clock_main.c:288-300 | an interrupt credits at once what the event has counted and what the hardware holds if counting is on, else only moves it into the event's count; either way the record is fresh |
| `Counters.ReadLoopConserves` | src/module/logical_clock_instruction_counting.h:49-72 | through interrupts, updates and retries the signed balance of clock, event count and hardware follows the events; what an interrupted read does to it is HonestReadExactlyWhen |
| `Counters.HonestReadExactlyWhen` | src/module/logical_clock_instruction_counting.h:49-72 | after the read loop the hardware holds exactly the events since the successful raw read, if and only if no interrupt came between that read and the swap; otherwise it is short by what the interrupts took back |
| `Counters.StopBalances` | src/module/logical_clock_instruction_counting.h:40-105 | from start to stop the clock grows by the events and what was pending at the start, less the signed amount pending at the end |
| `Counters.CreditIsExactUpToSurplus` | src/module/logical_clock_instruction_counting.h:40-105 | a stop credits the events between the two records, plus its surplus, less the surplus at the start; the surplus is what interrupts took back in the successful attempt, unless a later update or interrupt settles it |
| `Counters.EachEventIsCreditedOnceExactlyWhen` | src/module/logical_clock_instruction_counting.h:49-105 | every event between the records is credited once if and only if no interrupt fell into the successful attempt, or an update or interrupt before the event's count is read made up for it, with counting still on or already off; otherwise the clock runs ahead by what was taken back |
| `Counters.InterruptBeforeRecordCreditsTwice` | src/module/logical_clock_instruction_counting.h:56-65 | an overflow between the two reads: its whole period is credited on top of the events it has credited itself |
| `Counters.InterruptAtTheSameValueCreditsTwice` | src/module/logical_clock_instruction_counting.h:62-65 | an overflow before the swap that arms the counter at the recorded value: the same |
| `Counters.OverflownExists` | src/module/logical_clock_instruction_counting.h:129-141 | counters that have just overflowed with an honest record exist, for any armed value: the two failing families are not empty |
| `Counters.SurplusStays` | src/module/logical_clock_instruction_counting.h:107-113 | nothing that happens with counting off takes a surplus back, and the reset starts from a clean record |
| `Counters.HandedOverCreditsNothing` | src/module/clock_main.c:773-784 | after the hand-over nothing is credited, whatever happens to the counter |
| `Counters.QuietReset` | src/module/logical_clock_instruction_counting.h:107-113 | an undisturbed reset keeps the clock, zeroes the event's count and leaves nothing pending |
| `Counters.QuietStopCreditsEveryEvent` | src/module/logical_clock_instruction_counting.h:74-113 | from a reset to an undisturbed stop it grows by exactly the events |
| `Counters.StoppedCounterDropsEvents` | src/module/logical_clock_instruction_counting.h:82-104 | with counting off nothing is ever credited |
| `CounterDevices.CounterDevice.ReadPerformanceCounter` | src/module/logical_clock_instruction_counting.h:49-72 | the retry loop in place computes the read-loop function under any interference |
| `CounterDevices.CounterDevice.ReadClockAndUpdate` | src/module/logical_clock_instruction_counting.h:74-105 | reading and stopping in place is the function that the crediting lemmas are about |
| `CounterDevices.CounterDevice.ResetCurrentTicks` | src/module/logical_clock_instruction_counting.h:107-113 | the reset zeroes the event's count; with counting off or undisturbed it keeps the clock, and undisturbed it leaves nothing pending |
| `CounterDevices.CounterDevice.SetPerfCounter` | src/module/logical_clock_instruction_counting.h:129-141 | counter and record are armed at -val and the event's count cleared; after k events either delta reads k |
| `CounterDevices.CounterDevice.StartNoNotify` | src/module/clock_main.c:773-784 | the counter is left 2^31-1 events from its overflow, with an honest record, and is not counted |
| `Fences.HappeningKeepsChunk` | src/module/bounded_tso.c:39-117 | overflow by overflow and trap by trap: counting, stepping or done, with exactly the right distance to the end |
| `Fences.ExactFence` | src/module/bounded_tso.c:39-117 | the signal is sent iff the clock has grown by exactly the chunk size, at most once, after finitely many happenings; the countdown stays within the skid allowance plus one, and while stepping the period is out of its reach |
| `Fences.FenceMakesProgress` | src/module/bounded_tso.c:39-117 | until the signal an overflow can happen, or a trap that is armed |
| `Fences.LateExactlyWhenSkidTooLarge` | src/module/bounded_tso.c:39-63 | an overflow keeps the exact end possible iff it lands within the chunk size; beyond it the end is late by the excess |
| `Fences.ChunkSafePeriod` | src/module/bounded_tso.h:69-70 | while counting, chunk ticks plus period stay within the imprecise bound, so the bound's subtraction never underflows |
| `Fences.ChunkTraps` | src/module/bounded_tso.c:39-117 | the trap flag is set exactly while the chunk is single-stepped |
| `Fences.CountdownBegins` | src/module/bounded_tso.c:39-63 | the countdown covers what is left of the chunk; outside an interrupt the trap flag is set at once; with nothing left the chunk ends with the signal |
| `Fences.StrayTrap` | src/module/bounded_tso.c:107-117 | a trap without a countdown costs nothing, and takes the flag back before the end of the chunk |
| `Fences.FencePeriod` | src/module/logical_clock_instruction_counting.h:144-172 | the period of a counting chunk is the usual one, but not beyond the imprecise bound |
| `Fences.FirstFencePeriod` | src/module/clock_main.c:471-473 | a chunk begins with a period grown from nothing, or after a fence with one out of reach |
| `Fences.StopCountsOnce` | src/module/clock_main.c:734-757 | a stop while stepping discards the hardware delta, any other stop credits it once |
| `Fences.EarlyStopCreditsCountedPlusStepped` | src/module/bounded_tso.c:73-91 | a chunk ended while stepping has credited its counted ticks plus its steps |
| `FenceDevices.FenceDevice.BeginBoundedMemoryFence` | src/module/bounded_tso.c:39-63 | in place: end the chunk at once, or start the countdown and the trap flag |
| `FenceDevices.FenceDevice.OnEnable` | src/module/clock_main.c:458-494 | in place: a new chunk, counting and without ticks; the old fence flag is still seen when its first period is chosen, and cleared at the end |
| `FenceDevices.FenceDevice.OverflowInterrupt` | src/module/clock_main.c:288-322 | in place: an overflow credits the chunk, which may end it or start the countdown, picks the next period, and turns the trap flag on while stepping |
| `FenceDevices.FenceDevice.OnSingleStep` | src/module/bounded_tso.c:82-117 | in place: one trap of the countdown, its end with the signal, and when the trap was ours |
| `FenceDevices.FenceDevice.EndBoundedMemoryFenceEarly` | src/module/bounded_tso.c:73-80 | in place: trap flag off, fence hit, countdown gone |
| `FenceDevices.FenceDevice.UpdateOverflowPeriod` | src/module/logical_clock_instruction_counting.h:144-172 | the period under the fence, with the unsigned subtraction shown safe |
| `FenceDevices.FenceDevice.EntryStop` | src/module/clock_main.c:740-746 | the stop with the fence on |
| `CoarsenedClock.TxsAddUp` | src/lib/determ_clock.c:404-440 | any number of start/stop pairs sum up the deltas in a 64-bit word and leave the kernel's clock alone; the last start's reading and value are noted |
| `CoarsenedClock.BlockConservesExactlyWhen` | src/lib/determ_clock.c:385-440 | a block advances the kernel's clock by exactly its work iff that is below 2^31 |
| `CoarsenedClock.EndKeepsReadingExactlyWhen` | src/lib/determ_clock.c:198-200 | ending a block leaves the clock that user space reads unchanged iff the sum is below 2^31 |
| `CoarsenedClock.ArmedBlockConserves` | src/lib/determ_clock.c:404-440 | a block whose readings lie between arming and overflow does at most 2^31-1 work, so it is conserved |
| `CoarsenedClock.BlockMovesByAdvances` | src/lib/determ_clock.c:433-448 | whatever the readings, a block moves the kernel's clock by the signed sum of its advances when that fits 32 bits |
| `CoarsenedClock.BlockWithOverflows` | src/lib/determ_clock.c:385-440 | a block moves it by the events inside its transactions less what interrupts there took back, so it conserves exactly when no interrupt falls inside one |
| `CoarsenedClock.HugeBlockGoesBackwards` | src/lib/determ_clock.c:385-388 | a block with work from 2^31 up to 2^32 turns the kernel's clock back |
| `CoarsenedDevices.TaskClock.StartNoNotify` | src/lib/determ_clock.c:333-415 | in place: the first start of a block has the kernel reset and arm the counter, every start notes clock and reading |
| `CoarsenedDevices.TaskClock.StopNoNotify` | src/lib/determ_clock.c:433-445 | in place: reads the counter, adds the 48-bit advance to the sum and returns it |
| `CoarsenedDevices.TaskClock.EndCoarsenedTx` | src/lib/determ_clock.c:385-391 | in place: hands the sum to the kernel and resets it |

## Left out

- Field widths: clocks and counts of the protocol are unbounded naturals, so overflow of 64-bit clocks is not modelled; the counter layer models 48- and 64-bit wrap-around, and the coarsened layer the 32-bit argument.
- Weak memory, and races on fields written outside the group lock: a lock-held section and its wake-up are one atomic step, so the wake-up's second look at the recorded lowest thread always sees the one it was called for.
- Updates and interrupts between the reading of the event's count and its reset, which are one step here, and between the read loop of a reset and the reset of the count.
- Poll and the wait queue: only the poll flag is kept. Consuming it, the shared flag reset in user space and the woke-up call are one step of the client cycle, which does not capture interrupts between them.
- The client cycle of the schedule theorems starts with every listed thread running (whoever is recorded, whatever is owed, flagged or scheduled), and excludes activation, add-ticks and the stop and start that do not notify; runs in `Runs.dfy` include all of these.
- While a thread spins in its sleep call nothing else is a step of the client cycle: everybody else sleeps, and what a sleeper or a deferred notification would do needs the lock. In `Runs.dfy` a spinning thread's first pass is a step and the others may go on, which only adds runs.
- Resetting a thread (`task_clock_entry_reset`) is not a step of the runs: on a listed thread it breaks the rule that listed threads are initialised.
- The group and the hardware counter are separate models: in the group the counter's reading is an amount, and arming it again after user space has read it is the result `rearmed`.
- Runs.RunKeepsInv: assumes that a deferred notification runs while one is owed or flagged; `Runs.NotifyKeepsExactlyWhen`, `LostWakeUps.LateNotificationLosesWakeUp` and `Stalls.StartCanStallExactlyWhen` show what happens otherwise, and the schedule, grant and order theorems do without the assumption.
- Turns.TurnsNeverGoBack: a thread with a history may come back only at or after every turn granted so far. The source lets it come back anywhere, and `Turns.ComesBackInOrderExactlyWhen` shows that the order can be lost otherwise.
- Turns.GrantSafety: the lead that a thread takes when it activates itself is not counted as a turn; exactly when it is wrong is `Grants.ActivateMisleadsExactlyWhen`.
- Schedule.SomebodyCanGoOnExactlyWhen: like `Schedule.SleepHangsExactlyWhen` and `Completion.CanFinishExactlyWhen`, starts where no request was forgotten, which `Schedule.BeginIsOk` gives for every start without a stale notification; `Stalls.StartCanStallExactlyWhen` shows that all others can stall.
- Groups.Group.EntrySleep: excludes the stranded state, in which the source's loop does not end; that state is covered by `SleepLoop.StrandedForever`.
- ListArrays.ListArray.Remove: removing an unlisted index from a non-empty list is excluded; the source then follows a dead link out of the array.
- Groups.Group.EntryHalt: the caller must be listed, and `Groups.Group.EntryActivate`, `Groups.Group.EntryActivateOther` need an unlisted thread, where the source stops the machine otherwise.
- Groups.Group.AddTicks: a negative amount larger than the ticks so far is excluded; in the runs the amount is not negative.
- Fences.ExactFence: assumes overflows with a skid of at most the source's own allowance and at least one event each, and none while stepping; `Fences.LateExactlyWhenSkidTooLarge` shows that the skid bound is needed.
- Counters.EachEventIsCreditedOnceExactlyWhen: assumes that counter and record stay within 2^46 of the wrap, which periods below 2^31 and timely interrupts ensure, and that an overflow interrupt comes only once the counter has wrapped.
- CoarsenedClock.BlockWithOverflows: assumes that events less what was taken back fit 32 bits; beyond that the argument is truncated as in `CoarsenedClock.HugeBlockGoesBackwards`.
- The bounded fence inside the group: the default build has it off; chunk stepping, the fence flag and the early end are modelled on one thread.
- The x86 reading instructions, page mapping, memory mapping, device calls, file handling, module loading and signals: inputs or nothing.
- Debug rings, printing, the printing and debugging variants of the searches, and the `notifying_*` debug fields.
- The transaction-size estimator and the debug clock cache: no property of the protocol depends on them.
