# A verified model of coro++

coro++ is a user-thread runtime for C++ in which every coroutine runs on one and the same 4 MB
stack: when a coroutine blocks, the part of the stack it uses is copied to the heap, and copied
back when it is resumed. This project models the runtime and the layers on it, and proves what the
design promises of them; where the code does not keep a promise, it proves exactly when it does.

| file | what it holds |
|---|---|
| `SharedStack.dfy` | create, preserve, restore, resume, yield and `__swap` as steps of a machine with one flat memory, its invariant, and the specification machine in which each coroutine owns a private stack |
| `StackRefinement.dfy` | the first machine refines the second, over all runs and interleavings |
| `Scheduling.dfy` | scheduler, timers, poller registrations, condition variables, latches and fifos as one state machine; a blocking call is split at its switch |
| `WakeUniqueness.dfy`, `RunProperties.dfy`, `FifoProperties.dfy` | what holds in every reachable state and over every run of that machine |
| `NobodyLost.dfy` | when every living coroutine is somewhere, and when one is lost for good |
| `MainCalls.dfy` | `wait()` called by main |
| `Progress.dfy` | what main, a coroutine and the scheduler can do in every reachable state: no state is stuck |
| `Reached.dfy` | runs that get to the states in which the code does not do what it is meant to, and one in which a woken popper finds its item gone |
| `Traces.dfy` | the resumes in a trace of the shared-stack machine |
| `WholeRuntime.dfy` | every run of the scheduler has a run of the shared-stack machine in step with it |
| `Timeval.dfy` | the timeval macros, the deadline of `sleep`, and the wait of the event loop |
| `Runtime.dfy` | the `coro` class and its statics in imperative form, `run_pending` included; each method that touches stack, registers or copies is proved to be a step of the shared-stack machine, and `run_pending` a run of a machine of ticks and turns |
| `Sync.dfy` | the classes of `sync.h` over that runtime |
| `Scanner.dfy`, `Buffer.dfy` | the delimiter scanner as a function on the whole stream, and the buffered reader, over a stream that answers with arbitrary short reads, proved against it |
| `Poll.dfy` | the poll(2) back end, with the kernel's answer arbitrary |
| `Smtp.dfy` | the demonstration SMTP session, as a loop around the buffered reader |
| `Options.dfy` | the usual optional value |

A coroutine's body is arbitrary: any change to the registers and to the words of the stack, any
schedule calls, and then a blocking call or the end of its thread function. That its stack pointer
stays inside the stack is an assumption, since the code has no overflow check. The clock is any
nondecreasing sequence of samples; the answers of `malloc`, of the stream and of the kernel are
arbitrary. Pointers to coroutines are ids.

The classes carry ghost histories: `Runtime.Sound()` says that the object's life so far is a run of
the shared-stack machine, so each theorem of `StackRefinement.dfy` about runs is a theorem about the
class, and that its log of resumes is the log of the Resume steps of that run. `run_pending` is proved to be a succession
of acts (`ActStep`): ticks of `schedule_events`, and turns, each of which resumes the coroutine next
in the order of schedule calls; every entry scheduled by the end of one tick has its turn before the
next (`InPace`). The scheduler's own state machine in `Scheduling.dfy` is tied to the classes by the
operations they share (`Schedule`, `SwapLists`, `Advance`, `WakeFront`, the poll dispatch) and to the
shared stack by `WholeRuntime.dfy`; what is proved of all its runs, `WakeUniqueness.AtMostOnePlace`
among it, is proved of the machine, whose coroutines block in fewer ways than a `Runtime` allows.

## Where code and intent part

Each of these is modelled as the code has it.

- The scanner of `coro_buffer::get` does not look a second time at a character that breaks off a
  match (`coro_buffer.h:57-59`). CR CR LF is not seen as the end of a line, and a mail body that
  ends with one blank line hides the end-of-data mark (`Scanner.DoubledCrIsMissed`,
  `Scanner.BlankLineHidesEndOfData`). `Scanner.StopsExactlyAfterAttempts` gives the language it
  does recognise, and `Scanner.StopsAtFirstOccurrenceIff` and `Scanner.CrlfStopsAtFirstPairIff` the
  condition under which that is the first occurrence. A mail message's end is noticed exactly when
  the blank lines it ends with are even in number (odd, if it has no other lines, so that the end of
  an empty message is missed; `Scanner.EndOfDataIsSeenIff`).
- `condition_variable::wake_all` returns from inside its loop (`sync.h:31-36`), so one call wakes one
  waiter, and a latch with several waiters releases the oldest only
  (`RunProperties.WakeAllReleasesAllIffAtMostOne`, `RunProperties.LatchReleasesOnePerCall`;
  `Reached.LatchLeavesOneOfTwo` is a run that gets there).
- The dispatch loop of `poll` inspects the first `poll_result` slots, not the first `poll_result`
  ready ones (`event_poll.h:72`). Whatever the kernel honestly answers, no waiter reported ready is
  missed if and only if there is no registration, or a single one that is not a writer in a slot
  still asking about reading (`Poll.NobodyIsMissedIff`). A miss can repeat for ever, also behind slots
  that report errors only: such a slot wakes nobody (`event_poll.h:74-82`; `Poll.StarvedForever`).
- Interest bits are or-ed into slots and never cleared (`event_poll.h:51,58`). A writer reported ready
  in an inspected slot is certain to be scheduled if and only if the slot did not hold POLLIN before
  (`Poll.WriterIsServedIff`); `Poll.PollPoller.WriterAfterReader` gets there in two calls. In the same
  way a slot that has served a writer may report POLLOUT to a reader that follows, and be inspected
  for nothing, if and only if it held POLLOUT before (`Poll.ReaderIsServedIff`,
  `Poll.PollPoller.ReaderAfterWriter`).
- A second reader (or writer) on a descriptor replaces the first (`event_poll.h:27-37`), which is then
  nowhere and is never resumed again; as long as that does not happen every living coroutine is
  always in exactly one place (`NobodyLost.EveryoneSomewhereIff`, `NobodyLost.LostForever`;
  `Reached.SecondReaderDisplacesTheFirst` is a run that gets there).
- `time_to_next_event` answers 0 when the gap is a whole number of seconds (`coro++.h:199`), and the
  event loop spins; `Timevals.SpinsOnWholeSeconds`.
- `_current` is never cleared, so `wait() from main` is refused only before the first resume of the
  program (`sync.h:18-20`). After that main is accepted, enlists the coroutine resumed last, and
  overwrites that one's saved context with its own, because yield has no guard: Yield_From_Main is
  thrown by the waits of coro_file only, on the same test (`coro_file.h:68-85`)
  (`MainCalls.MainIsRefusedIff`,
  `MainCalls.EnlistedIsDeadOrElsewhere`, `Sync.ConditionVariable.Wait`, `CoroRuntime.Runtime.Yield`;
  `Reached.MainIsEnlistedAfterAResume` is a run that gets there).
- `find_email_addr` rejects a one-letter address and accepts an empty one, and after a command word
  what it stores runs on past the ">"; `Smtp.AddressAcceptedIff`, `Smtp.AddressStored`,
  `Smtp.AddressIsBracketedTextIff`, `Smtp.OneLetterIsRefused`, `Smtp.EmptyIsAccepted`. So a sender
  can be remembered from a MAIL that was answered 501, and RCPT is answered 503 by what is remembered,
  not by whether MAIL was accepted (`Smtp.RememberedIff`, `Smtp.RcptIsAnswered`).

## Model

| member | source | states |
|---|---|---|
| StackRefinement.RunRefines | coro++.h:252-348 | in every run and interleaving, create/preserve/restore/resume/yield/swap on the one stack keep the invariant and simulate, label for label, coroutines that each own a private stack |
| StackRefinement.StepRefines | coro++.h:153-169 | one step of any kind keeps the invariant and is the same step of the private-stack machine |
| StackRefinement.ResumeRefines | coro++.h:322-340 | resuming restores exactly the coroutine's own context, touches no other coroutine's, and pushes main's return address without harm |
| StackRefinement.ResumeContext | coro++.h:322-340 | the resumed coroutine gets the registers and words it was parked with; a first run starts at `_wrap0` with its own pointer on the stack |
| StackRefinement.ResumeOthers | coro++.h:252-262 | create and restore never destroy live data of another coroutine |
| StackRefinement.YieldRefines | coro++.h:342-348 | yield saves the running coroutine's context, with its return address, and reinstates main's |
| StackRefinement.SettleRefines | coro++.h:160-164 | preserving a live coroutine leaves every context as it was; a dead one is gone and leaves no copy |
| StackRefinement.RestoreRebuilds | coro++.h:313-320 | the words copied back, with both return addresses written by the call and by `__swap`, are those saved |
| StackRefinement.ResumeSeesWhatYieldLeft | swap.h:78-96 | a coroutine continues after yield at its return address with exactly the registers and `[sp, top)` words it had, whatever ran in between, and its yield returns the argument of the resume |
| StackRefinement.MainSeesWhatResumeLeft | swap.h:78-96 | so does run_pending after resume, whatever the coroutine did to the stack |
| StackRefinement.CopiesAreExact | coro++.h:288-320 | at every point of every run the live heap copies are those of the coroutines that are started, not dead and not on the stack, one each: no copy is leaked, overwritten or freed twice |
| StackRefinement.RunInv | coro++.h:153-169 | the invariant (control, copy accounting) holds in every reachable state, by induction from a state without coroutines |
| WholeRuntime.EveryScheduleRunsOnOneStack | coro++.h:153-169 | every run of the scheduler has, whatever coroutines and scheduler compute, stack states coupled to each of its states, joined by the prescribed path for each step; the paths together are one execution from boot whose resumes are the scheduler's, argument for argument |
| WholeRuntime.StepTogether | coro++.h:153-169 | each scheduler step is carried out by exactly its path: compute and resume; compute, yield and settle for a blocking call; compute, die, yield and settle for an exit; a new record for a spawn |
| WholeRuntime.ResumeOnStack | coro++.h:322-340 | a living coroutine can be resumed on the stack and is handed the entry's argument |
| WakeUniqueness.AtMostOnePlace | coro++.h:144-188 | in every reachable state a coroutine is in at most one of pending, the rest of staging, timers, poller maps, condition queues and the processor, and is alive there |
| WakeUniqueness.NeverDeadCoro | coro++.h:322-340 | in no reachable state can schedule or resume throw Dead_Coro |
| WakeUniqueness.Moves | coro++.h:144-188 | a step only moves coroutines: each occupied place goes back to a distinct place occupied before by the same coroutine |
| WakeUniqueness.StepKeepsUnique | sync.h:15-51 | every operation keeps the at-most-one-place property |
| WakeUniqueness.StepKeepsAlive | event_poll.h:27-37 | every operation keeps the dead out of all places |
| WakeUniqueness.StepNeverThrows | coro++.h:144-151 | under that invariant no operation throws |
| RunProperties.RunInOrder | coro++.h:153-169 | over any run, resumes, then the rest of staging, then pending, are the log of schedule calls, despite the swap and scheduling during resumes |
| RunProperties.ResumedAfterThoseAhead | coro++.h:144-169 | an entry with k entries ahead of it is resumed after exactly k other resumes |
| RunProperties.StepReady | coro++.h:144-169 | every operation changes the two lists by at most one schedule, one swap or one resume |
| RunProperties.StepSchedules | coro++.h:144-188 | who each operation schedules, and with what argument: the holder of the event or registration, the new coroutine, the oldest waiter; by any other operation nobody |
| RunProperties.YieldReturnsTheArgument | coro++.h:322-348 | a coroutine that blocks and is later resumed has been scheduled exactly once in between, and its yield, reading `_current->_value`, returns that call's argument |
| RunProperties.WaitReturnsTheWakeArgument | sync.h:15-51 | wait returns the argument of the wake that dequeued the caller, the longest waiter first, whatever happens in between |
| RunProperties.MainIsRecognisedOnlyBeforeTheFirstResume | sync.h:18-20 | current() is null exactly until the first resume |
| RunProperties.SleepNeverEndsEarly | coro++.h:350-361 | after sleep(msec) at t0, for any msec, the sleeper is resumed only once the clock has passed t0 + msec*1000 microseconds |
| RunProperties.LatchReleasesOnePerCall | sync.h:69-73 | from the first wake_all on the latch stays set, and after k calls exactly the oldest min(k, n) of n waiters are released, nobody joining |
| RunProperties.LatchQueueStep | sync.h:62-73 | no coroutine joins the queue of a set latch, and only wake_all shortens it |
| RunProperties.DoneIsKept | sync.h:62-73 | no operation resets a latch |
| RunProperties.WakeAllReleasesAllIffAtMostOne | sync.h:28-38 | wake_all, on any queue, releases all waiters if and only if there is at most one |
| FifoProperties.WaitersNeverMissItems | sync.h:82-97 | for any interleaving, while a coroutine waits the items are no more than the woken poppers on their way; with nothing ready or running, a non-empty fifo has no waiters |
| FifoProperties.WokenPoppersAreReady | sync.h:88-97 | each woken popper is queued for resumption or running |
| FifoProperties.StepKeepsFifoInv | sync.h:77-98 | every operation keeps the no-lost-wakeup invariant |
| FifoProperties.EachItemOnceInOrder | sync.h:82-97 | in every run the items pushed are those popped, in order, followed by the contents |
| FifoProperties.PopTest | sync.h:88-97 | a test of pop's loop takes the front item or goes back to the queue, having read nothing |
| FifoProperties.PopEndsWithTheFront | sync.h:88-97 | over any run, a coroutine inside pop stays there, woken in vain or not, until it takes the item then at the front |
| Progress.NeverStuck | coro++.h:153-188 | in every reachable state some step can be taken without an exception |
| Progress.PopperCanOnlyTestAgain | sync.h:88-97 | a running coroutine inside pop can take a step if and only if that is another test of its own fifo, whatever that holds |
| Progress.CoroutineCanDoAnything | sync.h:15-98 | a running coroutine not inside pop can sleep, wait on descriptor, condition or latch, wake, set, push, pop, spawn and exit, whatever the state |
| Progress.MainCanDoWhatDoesNotBlock | event_poll.h:72-91 | outside run_pending every wake, push and spawn can be done, every registration can be served, and run_pending can be entered |
| Progress.SchedulerGoesOn | coro++.h:153-188 | schedule_events can fire exactly an earliest event that is due and can end exactly when none is; the loop over staging resumes exactly while an entry is left |
| Reached.BargingPopper | sync.h:88-97 | a run in which a woken popper finds the fifo empty, another having taken its item, joins the queue again and later takes the next item |
| NobodyLost.EveryoneSomewhereIff | event_poll.h:27-37 | up to any step every living coroutine has always been somewhere if and only if nobody has registered for a descriptor taken in that direction |
| NobodyLost.LostForever | event_poll.h:27-37 | a living coroutine that is nowhere stays nowhere and is never resumed |
| NobodyLost.DisplacedIsLost | event_poll.h:27-37 | the holder of an overwritten registration is alive and nowhere |
| NobodyLost.StepKeepsPlaced | coro++.h:144-188 | every other operation keeps every living coroutine somewhere |
| MainCalls.MainIsRefusedIff | sync.h:15-26 | wait() called by main throws exactly until the first resume of the program |
| MainCalls.EnlistedIsDeadOrElsewhere | sync.h:15-26 | once main is accepted, the queue ends with the coroutine resumed last, which is dead or also at a second place |
| MainCalls.CurrentIsPlaced | coro++.h:329 | what current() names is, while it lives, always somewhere |
| Reached.MainIsEnlistedAfterAResume | sync.h:15-26 | a run after which main is accepted |
| Reached.LatchLeavesOneOfTwo | sync.h:69-73 | a run in which a latch's wake_all leaves one of two waiters behind |
| Reached.SecondReaderDisplacesTheFirst | event_poll.h:27-31 | a run in which a second reader of a descriptor leaves the first alive and nowhere |
| Timevals.LessIsEarlier | coro++.h:52-55 | timercmp orders normalised timevals as the instants they denote, in both directions |
| Timevals.SleepDeadlineDenotes | coro++.h:350-361 | the deadline is t0 + msec milliseconds for every msec, and normalised exactly when the truncated remainder does not borrow |
| Timevals.FiredIsPast | coro++.h:181 | an event that schedule_events takes is in the past, even if its deadline is denormalised |
| Timevals.PastIsFired | coro++.h:173-188 | the strict test takes a sleeper's event, for any msec, as soon as the clock is past t0 + msec milliseconds |
| Timevals.MillisLoseLessThanOne | event_poll.h:65 | poll is given the wait in whole milliseconds, and loses less than one |
| Timevals.NoOversleeping | coro++.h:190-207 | the wait is the exact gap if that is positive and not a whole number of seconds, else 0; what poll gets never exceeds the gap, and in the first case is short of it by less than a millisecond |
| Timevals.HalfAMinuteWithoutEvents | coro++.h:204-205 | without events poll is given 30000 milliseconds |
| Timevals.SpinsOnWholeSeconds | coro++.h:199-203 | with a deadline ahead, the exact gap is answered if and only if the microseconds differ; otherwise 0 |
| Timevals.SpinExample | coro++.h:199-203 | a deadline exactly two seconds ahead is answered with 0 |
| CoroRuntime.Runtime.constructor | coro++.h:415-426 | the runtime starts as a run of length zero, with empty lists |
| CoroRuntime.Runtime.Schedule | coro++.h:144-151 | appends one entry to pending, or throws on a dead coroutine and changes nothing |
| CoroRuntime.Runtime.FireEvent | coro++.h:180-184 | takes event k off the timer queue and schedules its coroutine |
| CoroRuntime.Runtime.ScheduleEvents | coro++.h:173-188 | moves to pending exactly the events strictly before the sampled time, in nondecreasing deadline order, and leaves the later-or-equal ones; an exception stops it at the dead coroutine's event |
| CoroRuntime.TopExists | coro++.h:57 | a non-empty timer queue has an earliest event |
| CoroRuntime.FireTop | coro++.h:179-187 | taking the earliest due event keeps the fired ones sorted, due, and no later than the rest |
| CoroRuntime.Runtime.NextEventTime | coro++.h:190-207 | answers the gap of an earliest event, or 30 000 000 microseconds without events |
| CoroRuntime.Runtime.PollTimeout | coro++.h:220-221 | the milliseconds handed to poll: 30000 without events; the gap to an earliest event less a part of a millisecond; 0 if that is past or a whole number of seconds ahead |
| CoroRuntime.Runtime.InsertEvent | coro++.h:230-238 | adds one event |
| CoroRuntime.Runtime.Swap | swap.h:73-97 | the instruction sequence saves one context, with its return address, and reinstates the other, as the machine's swap |
| CoroRuntime.Runtime.Create | coro++.h:252-262 | writes only its two words near the top, and the initial registers |
| CoroRuntime.Runtime.Preserve | coro++.h:294-311 | copies exactly `[sp, top)` to a fresh block |
| CoroRuntime.Runtime.Restore | coro++.h:313-320 | copies the block back over exactly those words and frees it |
| CoroRuntime.Runtime.Prepare | coro++.h:322-333 | create on the first run and restore of a saved copy, as the machine has them |
| CoroRuntime.Runtime.Resume | coro++.h:322-340 | one Resume step of the machine, handing over the argument; on a dead coroutine throws and changes nothing |
| CoroRuntime.Runtime.Yield | coro++.h:342-348 | one Yield step of the machine; called by main after a resume, it overwrites the context of the coroutine resumed last, which if alive can no longer be restored |
| CoroRuntime.Runtime.Settle | coro++.h:160-164 | one Settle step; afterwards the coroutine has a copy if and only if it is not dead |
| CoroRuntime.Runtime.MarkDead | coro++.h:390-404 | the end of the thread function is one MarkDead step |
| CoroRuntime.Runtime.NewCoro | coro++.h:264-286 | adds one coroutine, neither started nor dead and without a copy |
| CoroRuntime.Runtime.Sleep | coro++.h:350-361 | queues one event at the deadline and yields |
| CoroRuntime.Runtime.EndBurst | coro++.h:350-361 | the end of a turn: death and yield, or a yield; one event of that coroutine at t0 + msec milliseconds is added exactly if it ends in a sleep, and no other |
| CoroRuntime.Runtime.TakeTurn | coro++.h:159-165 | a whole turn on the stack: compute, schedule calls up to one on a dead coroutine, perhaps death, the timer of a sleep, yield, settle |
| CoroRuntime.Runtime.RunEntry | coro++.h:159-165 | one iteration: throws exactly on a dead coroutine; else the entry at the iterator is resumed with its argument, runs its burst, dies exactly if its function returns or it schedules a dead coroutine, and leaves one event at t0 + msec milliseconds exactly if it ends in a sleep |
| CoroRuntime.TurnMeans | coro++.h:159-165 | the same, spelt out for every turn of a run of run_pending |
| CoroRuntime.FiredMeans | coro++.h:173-188 | the events fired are, as instants, before the time sampled, in the order of their deadlines, and no later than those that stay |
| CoroRuntime.TickMeans | coro++.h:173-188 | a tick schedules the coroutine of each event it fires, in that order, up to a dead one; otherwise only events not yet due stay |
| CoroRuntime.SleeperIsScheduled | coro++.h:173-188 | a coroutine whose turn ends in sleep(msec) at t0 has been scheduled, from the event of that sleep, by the first tick that sees a time past t0 + msec milliseconds, unless an exception stops it; no tick that sees an earlier time does it |
| CoroRuntime.ScriptMeans | coro++.h:153-169 | the turn that comes after n others runs burst n, and the tick that comes after n others sees clock sample n |
| CoroRuntime.Runtime.RunStaging | coro++.h:159-165 | a succession of turns, one per entry, running the bursts in order, until the end of the list or a dead coroutine |
| CoroRuntime.Runtime.SwapLists | coro++.h:158 | staging becomes what was pending, and nothing is lost |
| CoroRuntime.Runtime.Tick | coro++.h:173-188 | schedule_events as one act of the loop |
| CoroRuntime.Runtime.RunRound | coro++.h:157-168 | swap, a turn for every entry pending at the start of the round, and only then clear and tick |
| CoroRuntime.RoundsAreSeparate | coro++.h:157-168 | whatever was scheduled before a tick was over has been resumed when the next tick comes, and nothing else is resumed between the two |
| CoroRuntime.Runtime.RunPending | coro++.h:153-169 | the whole call is a succession of acts, in pace, that uses the bursts and clock samples in order: each tick is followed by a turn for every entry scheduled so far, each resuming on the stack machine the coroutine next in the order of schedule calls, and setting its timer if it sleeps; it finishes exactly when a tick leaves nothing to resume |
| Sync.ConditionVariable.Wait | sync.h:15-26 | throws exactly if nothing was ever resumed; a running coroutine joins the back of the queue and yields; main, once accepted, enlists the coroutine resumed last and destroys its context |
| Sync.ConditionVariable.WakeOne | sync.h:40-51 | takes the oldest waiter and schedules it; true iff there was one and no exception |
| Sync.ConditionVariable.WakeAll | sync.h:28-38 | the loop has the effect of wake_one |
| Sync.Latch.Wait | sync.h:62-67 | returns at once if the latch is set, else waits as the condition variable does |
| Sync.Latch.WakeAll | sync.h:69-73 | sets the latch and wakes the oldest waiter |
| Sync.Fifo.Push | sync.h:82-87 | appends the item and wakes the oldest waiter |
| Sync.Fifo.PopRound | sync.h:88-97 | returns and removes the front item, or finds none and waits |
| Sync.WakeIsWakeFront | sync.h:28-51 | the class's wake and the state machine's wake are the same operation |
| Scanner.StopsExactlyAfterAttempts | coro_buffer.h:41-65 | get stops after n characters if and only if they are abandoned match attempts followed by the delimiter |
| Scanner.StopsAtFirstOccurrenceIff | coro_buffer.h:41-65 | it stops at the first occurrence if and only if what precedes that consists of abandoned attempts |
| Scanner.StopsAtAnOccurrence | coro_buffer.h:50-56 | it never stops anywhere but at an occurrence, and not before the first |
| Scanner.StopUnique | coro_buffer.h:44-64 | there is at most one stopping point |
| Scanner.GetLineIs | coro_buffer.h:41-75 | the line delivered, the flag and the remainder are determined by the byte stream alone |
| Scanner.CrlfStopsAtFirstOddLf | coro_buffer.h:77-81 | with the default delimiter it stops precisely at the first LF preceded by a run of CRs of odd length from the start of the call |
| Scanner.CrlfStopsAtFirstPairIff | coro_buffer.h:77-81 | that is the first CR LF if and only if an even number of CRs stands directly before the pair |
| Scanner.NoDoubleCrStopsAtFirstPair | coro_buffer.h:77-81 | it always is on streams without CR CR |
| Scanner.DoubledCrIsMissed | coro_buffer.h:57-59 | CR CR LF is not recognised |
| Scanner.BlankLineHidesEndOfData | demo/smtp_server.cc:150 | a body ending with a blank line hides the end-of-data mark |
| Scanner.EndOfDataIsSeenIff | demo/smtp_server.cc:150 | get stops at the end of a message of CRLF-terminated lines if and only if the blank lines it ends with are even in number (odd if there are no others) |
| Scanner.RecordIsDelivered | coro_buffer.h:41-75 | a record without the delimiter's first character is delivered whole with its delimiter, whatever follows |
| Scanner.RoundTrip | coro_buffer.h:41-75 | framed records come back one per call, in order, and then the end of the stream with an empty string |
| Buffer.StringJoin | coro_buffer.h:15-28 | appends the pieces in order, having reserved exactly the final length |
| Buffer.CoroFile.ReadExact | coro_file.h:196-209 | delivers exactly the first min(n, available) bytes, whatever the short reads |
| Buffer.CoroFile.ReadExactInto | coro_file.h:174-183 | delivers exactly n bytes when the stream holds them |
| Buffer.CoroFile.ReadExactList | coro_file.h:185-194 | the pieces appended join to exactly the first n bytes |
| Buffer.CoroFile.Read | coro_file.h:156-172 | takes an arbitrary non-empty piece off the front, nothing only at the end of the stream or for length 0 |
| Buffer.CoroBuffer.Scan | coro_buffer.h:49-60 | the inner loop, from the count left by earlier chunks, finds the character that completes the delimiter in the unchunked stream |
| Buffer.CoroBuffer.TakePiece | coro_buffer.h:49-63 | one round delivers the line's last piece and keeps the rest buffered, or delivers the whole chunk |
| Buffer.CoroBuffer.GetParts | coro_buffer.h:41-65 | for every chunking the pieces, flag and remainder are those of the scan of the unchunked stream |
| Buffer.CoroBuffer.Get | coro_buffer.h:67-75 | the same for the joined string |
| Buffer.CoroBuffer.Flush | coro_buffer.h:83-89 | returns and empties the buffer |
| Buffer.CoroBuffer.ConsumeBuffer | coro_buffer.h:91-100 | hands the buffer over and returns its size |
| Buffer.CoroBuffer.ReadExactInto | coro_buffer.h:102-116 | the consumer gets exactly the first n undelivered bytes |
| Buffer.CoroBuffer.ReadExact | coro_buffer.h:118-135 | appends exactly the first min(n, available) undelivered bytes |
| Buffer.CoroBuffer.ReadToEof | coro_buffer.h:137-145 | the consumer gets everything undelivered, or with block size 0 only the buffer |
| Buffer.ChunkingDoesNotMatter | coro_buffer.h:41-75 | two readers of the same bytes, chunked and buffered in any two ways, deliver the same line and flag and leave the same bytes |
| Buffer.ReadRecords | coro_buffer.h:41-75 | framed records, cut up arbitrarily by the stream, are read back one per call |
| Buffer.GetMany | coro_buffer.h:67-75 | k successive gets deliver the first k lines of the unchunked stream |
| Buffer.Perform | coro_buffer.h:67-145 | what each call delivers of the buffer and stream it is given, and what it leaves there |
| Buffer.Session | coro_buffer.h:41-145 | any sequence of calls is made up to one that never returns, each delivers what it should of what the ones before left, and delivered bytes, buffer and unread stream together are the original stream |
| Poll.PollPoller.SetWaitForRead | event_poll.h:27-31 | registers one reader, replacing an earlier one for the descriptor |
| Poll.PollPoller.SetWaitForWrite | event_poll.h:33-37 | the same for a writer |
| Poll.PollPoller.WaitForRead | coro++.h:367-371 | the running coroutine registers and yields |
| Poll.PollPoller.WaitForWrite | coro++.h:373-377 | the same for a writer |
| Poll.PollPoller.Fill | event_poll.h:47-59 | a fill loop writes each key once, in descending slots; each bit of such a slot is set exactly if it was set before or is the loop's own; no other slot is touched |
| Poll.PollPoller.Arm | event_poll.h:42-59 | the two loops put every registration into exactly one of the slots 0..count-1 and end with j at 0; a slot asks for reading exactly if it did before or is a reader's, for writing exactly if it did before or is a writer's |
| Poll.PollPoller.DispatchLoop | event_poll.h:72-91 | schedules and unregisters what the inspected slots answer for; an exception leaves the faulty registration in place |
| Poll.PollPoller.PollOnce | event_poll.h:39-93 | the whole call, for every kernel answer: the slots it arms, bit by bit, the first min(result, count) slots it inspects, and what it schedules and unregisters; nothing on a failed call |
| Poll.DispatchAccounts | event_poll.h:72-91 | scheduled waiters and remaining registrations together are the earlier registrations, each once, and at most one is scheduled per inspected slot |
| Poll.ServedIffAnswered | event_poll.h:74-90 | a registration is served if and only if an inspected slot reported its descriptor ready in its direction, POLLIN hiding POLLOUT |
| Poll.MissesNobodyIff | event_poll.h:72 | a call schedules every waiter reported ready if and only if each is read as such within the first `poll_result` slots |
| Poll.NobodyIsMissedIff | event_poll.h:65-91 | it schedules every waiter reported ready, whatever the kernel honestly answers, if and only if there is no registration, or one, not a writer in a slot still asking about reading |
| Poll.StarvedForever | event_poll.h:65-91 | if as many slots as are flagged stand in front reporting nothing or errors only, nobody is scheduled however often poll is called |
| Poll.ReadySlotIsMissed | event_poll.h:72 | a ready slot behind an idle one is missed |
| Poll.WriterIsServedIff | event_poll.h:51-90 | a writer whose inspected slot reports POLLOUT is scheduled under every honest answer if and only if the slot's earlier bits lacked POLLIN |
| Poll.ReaderIsServedIff | event_poll.h:51-90 | a reader whose inspected slot reports anything but an error is scheduled under every honest answer if and only if the slot's earlier bits lacked POLLOUT |
| Poll.FlagsCount | event_poll.h:65 | the number poll returns is that of the slots with a bit reported |
| Poll.PollPoller.WriterAfterReader | event_poll.h:27-93 | two calls after which a writer, following a reader in its slot, is reported ready and left waiting |
| Poll.PollPoller.ReaderAfterWriter | event_poll.h:27-93 | two calls after which a reader, following a writer in its slot, still waits although its slot was reported and inspected |
| Poll.PollPoller.PollLone | event_poll.h:39-93 | one registration: the bits its slot then asks for, and whether its waiter is scheduled and unregistered, for every answer |
| Poll.PollPoller.InspectSlot | event_poll.h:74-90 | one slot: the waiter it points to is scheduled and unregistered, or the dead one left in place |
| Poll.ServeIsAStep | event_poll.h:74-90 | serving a registration is a step of the scheduler's state machine |
| Poll.RegistrationsFitTheArray | event_poll.h:22-25 | in every reachable state there are no more registrations than live coroutines, so one slot per coroutine is enough |
| Smtp.FindFirstOf | demo/smtp_server.cc:25 | the first position holding one of the characters, or none |
| Smtp.FindLastOf | demo/smtp_server.cc:40 | the last such position, or none |
| Smtp.AddressAcceptedIff | demo/smtp_server.cc:35-48 | the number returned is positive if and only if both brackets are there and do not enclose exactly one character |
| Smtp.AddressStored | demo/smtp_server.cc:35-48 | what is stored: from behind the first "<" as many characters, less one, as there are before the last ">", or up to the end |
| Smtp.AddressIsBracketedTextIff | demo/smtp_server.cc:45 | the text stored is the bracketed text if and only if the line begins with "<" |
| Smtp.CommandIs | demo/smtp_server.cc:97-106 | a line is taken for a command word if and only if it begins with it, in upper or lower case, and then blank, tab, CR or LF |
| Smtp.Session.OtherCommand | demo/smtp_server.cc:108-166 | the reply to each command but DATA, the sender it leaves, and closing, each stated outright; MAIL and RCPT by the brackets |
| Smtp.Session.DataCommand | demo/smtp_server.cc:139-159 | reads to the end-of-data mark as the scanner sees it, and resets the sender |
| Smtp.Session.Round | demo/smtp_server.cc:99-167 | one iteration depends only on the session's state and the undelivered bytes |
| Smtp.Session.Go | demo/smtp_server.cc:94-169 | greeting and replies of the first n iterations are a function of the byte stream, told by the three rows below |
| Smtp.AnswersByTheBytes | demo/smtp_server.cc:99-167 | one iteration by the bytes of its line: the literal replies, the sender remembered, the bytes left, and that it closes exactly on QUIT |
| Smtp.RememberedIff | demo/smtp_server.cc:117-163 | a sender is remembered exactly if the last MAIL with brackets, RSET or DATA so far was a MAIL that stored a text |
| Smtp.RcptIsAnswered | demo/smtp_server.cc:117-128 | in any session a RCPT is answered 503 exactly if no sender is remembered in that sense, and otherwise 250 or 501 by its brackets |
| Smtp.SegmentationDoesNotMatter | demo/smtp_server.cc:94-169 | two clients that send the same bytes, cut up in any two ways, get the same replies for every n |
| Smtp.OneLetterIsRefused | demo/smtp_server.cc:35-48 | `<a>` is refused, and what is stored runs on past the bracket |
| Smtp.EmptyIsAccepted | demo/smtp_server.cc:46 | `<>` is accepted because the difference wraps around |
| Smtp.PipelinedRepliesComeInOrder | demo/smtp_server.cc:94-169 | a batch of command lines and messages, as the scanner delimits them, is answered one by one in order, each as if sent alone in its turn, and what follows is left unread (section 3.2 of RFC 2920; PIPELINING is advertised at line 132) |

## Left out

- coro_openssl.h and coro_s2n.h: loops around TLS libraries whose behaviour cannot be seen here.
- coro_socket.h, and open, close and fcntl in coro_file.h: thin wrappers of system calls; also the EWOULDBLOCK loop of `read(void *, size_t)` and its OS_Error, which `Buffer.CoroFile.Read` takes as already done.
- event_kqueue.h: depends on event state kept by the kernel; its one-shot registration is the one modelled for poll.
- event_select.h: it erases the iterator it then increments (event_select.h:70-76), which has no defined meaning to model.
- The i386 half of swap.h, `rdtsc`, and how `_wrap0` finds its argument.
- The return value of resume: it reads `_main->_value`, which nothing sets.
- The event loop and the exit flag: a loop around `run_pending`, `time_to_next_event` and `poll`, each modelled.
- Destruction of coroutine objects.
- CoroRuntime.Runtime.RunPending: does not prove termination, because a coroutine may reschedule itself forever; the bursts and clock samples are given as finite scripts, and the call is followed as far as they last. Coroutines created while it runs are not covered by the class method but are by the state machine (Spawn). What a second call would find after Dead_Coro has escaped the first is not modelled.
- CoroRuntime.Runtime.Resume: assigns `_current` after the copy has been put back instead of before; nothing reads it in between.
- Sync.Fifo.PopRound: is one round of pop's loop, because a method cannot be suspended at the switch in the middle; the loop itself is the Pop label of the state machine in `Scheduling.dfy`. For the same reason the other blocking calls end at their switch.
- Sync.ConditionVariable.Wait: what main does after it has been accepted and has switched to its own stale context.
- Sync.ConditionVariable.WakeAll: the return inside the loop is expressed by a flag that ends the loop.
- WakeUniqueness.AtMostOnePlace: is about runs of the state machine, not of the classes; the runs are those in which a coroutine is scheduled once at spawn and then blocks only through sleep, the poller or the objects of sync.h; a bare yield with nobody to wake the caller, and scheduling some other coroutine by hand, are allowed in `Runtime.dfy` but not in these runs.
- Timevals.NoOversleeping: is about normalised deadlines, which every sleep of msec >= 0 makes.
- Buffer.CoroFile.ReadExactInto: requires enough bytes, as does the list form, because the code loops without progress at an early end of stream.
- Buffer.CoroBuffer.GetParts: requires a non-empty delimiter; with an empty one the count can pass its end. The body of its loop stands in Refill, Scan, TakePiece and NextPiece.
- Poll.NobodyIsMissedIff: a descriptor reported in error only does not count as ready.
- Poll.PollPoller.PollOnce: leaves out the timeout (given by `CoroRuntime.Runtime.PollTimeout`; its conversion to int is not checked) and the messages on standard error.
- Poll.PollPoller.constructor: takes the uninitialised array as given.
- CoroRuntime.SleeperIsScheduled: is about clocks that do not go back behind t0; of a negative sleep's denormalised deadline the field-by-field comparison says nothing before that.
- Smtp.Session.OtherCommand: what it says of brackets is for lines no longer than a std::string can be, and so are `Smtp.RememberedIff` and `Smtp.RcptIsAnswered`.
- Smtp.Session.Go: follows the code after the client has closed too, where it goes on answering empty lines; the messages it prints are left out, and so is the grammar of addresses.
- coro_bench.h, the echo demonstrations, certificates, Makefiles and scripts.
