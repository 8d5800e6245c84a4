# Concurrent systems exercises: a verified model

The repository holds an elevator system made of several cooperating programs, and a number of
smaller concurrent and pointer-based programs. This project models the parts of them that other
parts rely on, and proves what they are relied on for.

**The elevator system** (`assignment2`). A central controller takes calls, gives each to a car and
keeps a linked floor queue per car, which it works off as the car's STATUS messages come in and
turns into FLOOR messages. A car is one record in shared memory that four parties update under a
mutex: the car's loop, its controller thread, the internal controls and a safety monitor.

- `Floors` floor names and their two conversions.
- `FloorQueue` what one insertion does to a car's queue, as a closed form on sequences.
- `Controller` the queue as linked nodes, spliced in place.
- `Dispatch` the list of calls, the choice of a car, one pass of the controller's main loop.
- `CallRuns`, `FleetRuns` all runs of the controller, for one car and for all of them;
  `ControllerRuns` drives the linked nodes through them.
- `CarRecord` the shared record as a value, and the effect of each atomic step.
- `SharedRecord`, `SafetyMonitor` the record as buffers and bytes, updated in place.
- `MotionSafety` all interleavings of one car's parties.
- `CarBehaviour` what buttons, service controls and faults lead to, as a run shows it.
- `StatusMirror`, `DestinationAgreement` the messages in both directions against the two ends.
- `Framing` the length-prefixed messages that everything is sent in.

**The others.** `BoundedBuffer` and `ConditionRing` are the two bounded buffers of `week6`;
`RoundRobin` and `RoundRobinQueues` the scheduler of `exam/week9`; `HashTable` and
`ParallelSearch` the hash table of `week5`; `Handshake` the shared-memory calculator and
`DoubleVector` the growable vector of `assignment1`.

Each part that works by changing memory is a class whose methods follow the source statement by
statement and are proved equal to a function on values; the theorems are about those functions and
about all runs made of them. A section between taking and releasing a mutex is one step, as is
each statement outside one. A wait with a timeout is a step that was either signalled or timed out,
in any order. Where the interleaving of threads is the point (the two buffers, the handshake, the
parallel search, the runs of the elevator) the model is a step system, and the theorems hold of
every sequence of its steps.

## What the model found

- `insert_floors_into_queue` links the drop-off after the pickup and not after the last node walked
  over (`controller.c:268-271`). When the pickup lands inside the leading block and the drop-off
  belongs past its end, the entries between are lost, or the drop-off never gets linked.
  `FloorQueue.LossyExample` is such a call; `InsertServesCall` says exactly which calls are served,
  and `InsertCorrectExactly` when nothing queued is lost either.
- A call between two names of one number ("1" and "01") gets past the comparison by name. With the
  pickup queued already, its drop-off is linked in front (`FloorQueue.SwappedExample`);
  `InsertCorrectExactly` covers this case too.
- A destination stored under a name that is not the one the car would give its number, or under
  another name of the floor the car is at, is never reached: the car stays "Between"
  (`MotionSafety.ArrivesExactly`).
- `call` accepts "+1", which the controller passes on and the monitor then reports as inconsistent
  (`MotionSafety.PlusOneAlarms`); so does `down` at floor "0", which stores "-1", and `up` at a
  basement 0, which stores "B-1" (`internal.c:138-195`). `MotionSafety.NoFalseAlarms` shows that
  there is nothing else.
- The monitor's "Closing" to "Opening" (`safety.c:216-218`) writes nothing to the car's pipe, so
  the controller is not told (`StatusMirror.ObstructionGoesUnreported`).
- `validate_floor_input` reads one byte past the buffer exactly when that holds no NUL
  (`safety.c:53-60`, `SafetyMonitor.ValidateFloorInput`).
- `receive_msg` computes `len + 1` in 32 bits, which is 0 for the largest length, and does not
  look at whether the length arrived (`shared.h:117-127`). `Framing.FrameRoundTrip` and
  `Framing.ClosedStream` give the exact conditions.
- The ring of `condition.c` needs two slots: with one, every thread that takes a turn waits, and
  nothing is ever stored (`ConditionRing.OneSlotNeverMoves`).

## Model

| member | source | states |
|---|---|---|
| FloorQueue.InsertCorrectExactly | assignment2/controller.c:196-284 | for floors with different names, an insertion keeps every queued entry and puts pickup before drop-off if and only if it is neither lossy nor swapped, or the pickup is in place and both were queued in that order |
| FloorQueue.InsertKeepsQueue | assignment2/controller.c:215-284 | the old queue is an order-preserving subsequence of the new one if and only if the insertion is not lossy or its pickup is in place |
| FloorQueue.InsertServesCall | assignment2/controller.c:196-284 | for every insertion of a call between two names, the new queue has pickup before drop-off if and only if it is not lossy with the pickup in place, nor swapped, or both were queued in that order |
| FloorQueue.InsertKeepsRest | assignment2/controller.c:215-284 | in every insertion what is not dropped survives in order |
| FloorQueue.LossyDuplicateExample | assignment2/controller.c:262-271 | a lossy insertion that drops nothing and serves nobody |
| FloorQueue.LossyResult | assignment2/controller.c:262-271 | which entries the lossy case drops, counted with repetition, and that a duplicate pickup leaves the queue unchanged |
| FloorQueue.LossyExample | assignment2/controller.c:268-271 | a concrete call that loses two queued floors |
| FloorQueue.SwappedExample | assignment2/controller.c:241-253 | a concrete call between two names of one floor, dropped off before it is picked up |
| FloorQueue.AfterPrevCorrectExactly | assignment2/controller.c:262-271 | a variant linking after prev, which the program does not do, always keeps the queue and fails a call only when swapped |
| FloorQueue.InsertKeepsOrder | assignment2/controller.c:215-271 | a same-direction insertion keeps a strictly monotone leading block so if and only if the two numbers differ and, unless it is lossy, neither floor lands in front of its own number under another name |
| Controller.Car.InsertFloorsIntoQueue | assignment2/controller.c:182-296 | the pointer code yields exactly the closed form, in every case, in a well-formed list, and sends a FLOOR message exactly when the head changed or is the current floor |
| ControllerRuns.CallFollowsTravel | assignment2/controller.c:196-284 | in floor numbers: a call the other way than the car travels, to its destination when between floors and else to its queue's head, goes to the end; one the same way has its pickup in the leading block before everything at its floor or beyond |
| ControllerRuns.IdleCarTakesCall | assignment2/controller.c:201-203 | a car with an empty queue takes pickup and drop-off as its queue |
| ControllerRuns.CallAnnounced | assignment2/controller.c:286-293 | the queue's head is announced exactly if it is new or the floor the car is at |
| FloorQueue.PickupStands | assignment2/controller.c:219-241 | where the pickup stands and what stands before it |
| Controller.Car.WalkBlock | assignment2/controller.c:219-258 | the loop stops where the closed form says, with the nodes linked so far in between |
| Controller.Car.AppendPair | assignment2/controller.c:272-284 | a call against the car's direction goes to the end of the list |
| Controller.Car.CompleteFloor | assignment2/controller.c:533-553 | a STATUS message takes off at most two entries, all for the current floor, and announces the next |
| ControllerRuns.ReportServesFloor | assignment2/controller.c:533-553 | doors reported opening at the destination serve the entries at the head for that floor, two at most, in one opening, and the next is announced; any other report leaves queue and messages alone |
| Controller.ThreadsChain | assignment2/controller.c:215-271 | links spliced in at two places of a list form one list again |
| CallRuns.NoStrandedCall | assignment2/controller.c:110-158 | in a run with anything before the call, whose own insertion finds a serviceable queue and in which no later insertion drops what the call still needs, it is waiting in order, or picked up at its floor with its drop-off queued, or dropped off at a strictly later opening |
| CallRuns.OwnInsertion | assignment2/controller.c:182-296 | a call's own insertion puts it on its way if and only if the queue was serviceable |
| CallRuns.TrackedIsOnItsWay | assignment2/controller.c:533-553 | a call is on its way if and only if its pickup precedes its drop-off in what was served since, followed by the queue |
| CallRuns.NothingDroppedSpares | assignment2/controller.c:262-271 | an insertion that is not lossy, or has its pickup in place, spares every call |
| CallRuns.StrandedCallerOnly | assignment2/controller.c:262-271 | a run in which a lossy insertion strands its own caller and the earlier call stays on its way |
| CallRuns.AcceptKeepsCall | assignment2/controller.c:182-296 | accepting another call, however its insertion goes, keeps a call on its way if it drops nothing that the call still needs |
| CallRuns.CompleteKeepsTrail | assignment2/controller.c:533-553 | an opening moves entries from queue to past and skips none |
| Dispatch.CallQueue.Append | assignment2/controller.c:408-420 | a call goes to the end of the list of calls |
| Dispatch.CallQueue.TakeOldest | assignment2/controller.c:117-122 | the call handled next is the oldest |
| Dispatch.SelectBestCar | assignment2/controller.c:162-180 | the first car in the list whose limits, in floor numbers, enclose both floors of the call, none exactly if no car's do |
| Dispatch.ServeCall | assignment2/controller.c:128-147 | the call enters the queue of the selected car and of no other, and the reply names that car, or says UNAVAILABLE |
| FleetRuns.EveryCallAnswered | assignment2/controller.c:110-158 | in every run, whatever the insertions do, calls are answered in order of arrival, each answer was right when given, and a car has accepted exactly the calls answered with it, in order |
| FleetRuns.CallAnsweredAndServed | assignment2/controller.c:110-158 | a call whose own insertion finds a serviceable queue, and which later insertions into the same car spare, is answered with that car and is waiting, aboard or delivered there at the end |
| FleetRuns.EveryAnswerGiven | assignment2/controller.c:110-158 | every answer of a run was given at one of its passes of the main loop, to the oldest call, and is UNAVAILABLE exactly if no car connected by then encloses both its numbers |
| FleetRuns.NoCarLeavesItsRange | assignment2/controller.c:702-711 | in every run each floor queued or served in a car lies between that car's lowest and highest floor |
| FleetRuns.NewCarStands | assignment2/controller.c:456-480 | a car that connects stands where it reported, with nothing to do |
| FleetRuns.CarRun | assignment2/controller.c:110-158 | a car goes through the run of its own events, whatever the other cars do |
| FleetRuns.BestCar | assignment2/controller.c:162-180 | as cars connect at the front of the list, the last car to connect among those that reach both floors |
| Floors.RoundTrip | assignment2/car.c:876-899 | every number from -99 to 999 has a name that converts back to it |
| Floors.SameNumberSameName | assignment2/controller.c:694-700 | for canonical names comparing names is comparing numbers |
| CarRecord.FloorAboveLevels | assignment2/internal.c:138-164 | up skips 0 and stops at 999 |
| CarRecord.FloorBelowLevels | assignment2/internal.c:169-195 | down skips 0, stops at B99 and yields "-1" from 0 |
| CarRecord.TowardMoves | assignment2/car.c:859-871 | whatever texts the floors have, a car moves one integer nearer its destination, through 0, or stays if the numbers are equal |
| Floors.AtoiReads | assignment2/controller.c:694-700 | signs in front of a number, as atoi reads them |
| Floors.AtoiSkips | assignment2/controller.c:694-700 | white space in front of a number is skipped |
| SharedRecord.CarMemory.ElevatorStep | assignment2/car.c:190-551 | one turn of the loop has, on the buffers, the effect of the step on the value record, in all modes, and writes the stated number of pipe bytes |
| SharedRecord.CarMemory.EmergencySignalled | assignment2/car.c:193-225 | emergency mode woken early |
| SharedRecord.CarMemory.ManualDelayElapsed | assignment2/car.c:225-280 | the status branches that emergency and service mode share, after a delay |
| SharedRecord.CarMemory.EmergencyTimedOut | assignment2/car.c:225-291 | emergency mode after a delay: a moving car stops at the next floor |
| SharedRecord.CarMemory.ServiceTimedOut | assignment2/car.c:334-403 | service mode after a delay |
| SharedRecord.CarMemory.NormalModeTimedOut | assignment2/car.c:459-548 | normal mode after a delay, with its one, two or no notices |
| SharedRecord.CarMemory.MoveFloor | assignment2/car.c:859-900 | the floor buffer holds the neighbouring floor's name, terminated |
| SharedRecord.CarMemory.Perform | assignment2/internal.c:41-112 | each control's effect, and when it is refused |
| SharedRecord.CarMemory.TakePending | assignment2/car.c:661-666 | a pending destination is taken over unless the car is between floors |
| SharedRecord.CarMemory.Reset | assignment2/shared.h:139-149 | the cleared record with both floors set |
| SafetyMonitor.ValidateFloorInput | assignment2/safety.c:53-78 | true exactly for one to four digits, or B and one to three digits; the highest index read lies past the buffer if and only if it holds no NUL |
| SafetyMonitor.ValidExamples | assignment2/safety.c:53-78 | up to four digits with leading zeros are valid, a basement needs one |
| SafetyMonitor.ValidateStatus | assignment2/safety.c:81-120 | true exactly for the five status names, whatever follows the NUL |
| SafetyMonitor.SafeStrncpy | assignment2/safety.c:124-131 | the copy is a prefix that fits, always terminated, and nothing after it changes |
| SafetyMonitor.SafeStrcmp | assignment2/safety.c:135-150 | equality of the strings in the first bytes |
| SafetyMonitor.LooksConsistent | assignment2/safety.c:236-247 | the byte-wise test decides the consistency of the record |
| SafetyMonitor.MonitorStep | assignment2/safety.c:212-252 | one pass of the monitor on arbitrary memory: its effect and the messages printed |
| MotionSafety.DoorAndMotionSafety | assignment2/car.c:190-551 | in every interleaving, for any texts that fit the buffers, "Between" means not at the destination, the floor changes only from "Between" and by one number towards it, and no step goes from open or opening doors to "Between" |
| MotionSafety.EmergencyBudget | assignment2/car.c:193-291 | while emergency mode holds the floor changes at most once, only if the car was moving, and "Between" is not re-entered |
| MotionSafety.ServiceBudget | assignment2/car.c:294-403 | in service mode floor changes are at most destination writes plus one if a move was owed |
| MotionSafety.ExactArrival | assignment2/car.c:459-548 | timeouts alone bring the car to a destination with a floor's name and another number in exactly start-up plus distance steps, over every floor between |
| MotionSafety.NeverArrives | assignment2/car.c:459-470 | to any other destination it never comes, but stays "Between" once started |
| MotionSafety.ArrivesExactly | assignment2/car.c:459-548 | timeouts bring the car to "Opening" at its destination if and only if the text of that is canonical and its number is not the current floor's |
| MotionSafety.DoorsCycle | assignment2/car.c:500-548 | three more timeouts close the doors, where they stay |
| CarBehaviour.OpenAnswered | assignment2/car.c:208-222 | the open button and the next broadcast, in every mode: closed or closing doors open, unless a close goes first in the manual modes |
| CarBehaviour.CloseAnswered | assignment2/car.c:429-437 | the close button and the next broadcast, in every mode: open doors close, unless an open goes first in normal mode |
| CarBehaviour.BroadcastAnswered | assignment2/car.c:438-457 | a broadcast with no button pressed starts a closed car, except in emergency mode, or reopens it where it should be |
| CarBehaviour.OpeningAfterDelay | assignment2/car.c:493-507 | opening doors after a delay, with the close button or without |
| CarBehaviour.ClosingAfterDelay | assignment2/car.c:528-548 | closing doors after a delay, with the open button or without, and the immediate departure in normal mode |
| CarBehaviour.OpenAfterDelay | assignment2/car.c:508-526 | open doors close by themselves in normal mode only, and a pressed open button holds them once |
| CarBehaviour.ClosedAfterDelay | assignment2/car.c:478-492 | closed doors after a delay: the button goes first in the manual modes, the departure in normal mode |
| CarBehaviour.BetweenAfterDelay | assignment2/car.c:459-477 | a moving car comes one number nearer; in the manual modes it stops there and answers the open button |
| CarBehaviour.OpenInVain | assignment2/car.c:406-548 | the two kinds of step after which a pressed open button has not opened the doors |
| CarBehaviour.ServiceTripUp | assignment2/internal.c:61-93 | service on, up, a broadcast and a delay bring a closed car one number up, out of an emergency too |
| CarBehaviour.ServiceTripDown | assignment2/internal.c:61-112 | the same down |
| CarBehaviour.ServiceOffResumes | assignment2/internal.c:71-76 | service off returns the car to normal mode |
| CarBehaviour.ControlsRefused | assignment2/internal.c:79-112 | up and down change nothing outside service mode or with doors not closed, and no control moves the car or its doors |
| CarBehaviour.ResetIsIdle | assignment2/shared.h:139-149 | a reset car stands closed for any number of delays and opens at the first broadcast |
| CarBehaviour.AlarmTellsCause | assignment2/safety.c:221-232 | a stop is logged as a stop, an overload as an overload, both as a stop once, and each starts an emergency |
| CarBehaviour.FaultReported | assignment2/safety.c:236-249 | any floor, status, flag or obstruction out of range is reported, exactly once |
| CarBehaviour.CalmMonitorIdle | assignment2/safety.c:212-252 | a monitor step that finds nothing wrong changes nothing |
| CarBehaviour.ObstructionReopens | assignment2/safety.c:216-218 | obstructed closing doors reopen and no others, and the monitor changes nothing but status and emergency mode |
| CarBehaviour.NoticesCount | assignment2/car.c:193-549 | a step writes no byte exactly if status stays and no delay ended between floors, and two exactly if it passes through a status it does not stay in |
| MotionSafety.NoFalseAlarms | assignment2/safety.c:212-252 | from reset, without sensors or stop, every record of a run is consistent if and only if the first floor is valid, no invalid destination is taken over, and there is no accepted down at 0 or up at basement 0; and then no monitor step raises an alarm |
| MotionSafety.CalmStep | assignment2/safety.c:212-252 | one step from a calm record leaves it calm, or is one of those and makes it inconsistent |
| MotionSafety.PendingBreaksExactly | assignment2/car.c:661-666 | a pending destination breaks a calm record if and only if it is invalid and the car is not between floors |
| MotionSafety.PlusOneAlarms | assignment2/safety.c:236-249 | the destination "+1", a name of floor 1, raises the alarm |
| MotionSafety.DownAtZeroExactly | assignment2/internal.c:79-112 | on a calm record a control breaks consistency if and only if it is an accepted down at 0 or up at basement 0 |
| MotionSafety.StopIsLatched | assignment2/safety.c:221-225 | after a stop every later monitor step ends in emergency mode, whatever is interleaved |
| MotionSafety.MonitorCatches | assignment2/safety.c:215-250 | after a monitor step emergency mode off means a fully consistent record |
| StatusMirror.StatusMirrorsRecord | assignment2/car.c:699-734 | with the thread waiting and the pipe empty, the last STATUS has the car's floor, and its status if and only if the monitor has not rewritten it since |
| StatusMirror.SilentStepsChangeNothing | assignment2/car.c:193-549 | a car step that writes no pipe byte changes neither status nor floor |
| StatusMirror.PipeConserved | assignment2/car.c:719-734 | the pipe holds the bytes written and not read, in every run |
| StatusMirror.ThreadSends | assignment2/car.c:699-734 | a byte read, a poll timed out and a new connection each lead to a STATUS of the record as it is |
| StatusMirror.DisconnectedIsSilent | assignment2/car.c:561-605 | without a connection nothing is sent until the next one |
| StatusMirror.ObstructionGoesUnreported | assignment2/safety.c:216-218 | a run in which the exception happens |
| DestinationAgreement.DestinationAgreesWithQueue | assignment2/controller.c:286-293 | in every normal-mode run the newest of message, pending and stored destination names the queue's head, so an idle exchange means the car is bound for it |
| DestinationAgreement.HeadIsServed | assignment2/controller.c:533-553 | in a run of the whole system, with other events in between, the car opens at the head's floor after exactly the arrival bound, no sooner, and the report takes off the head and a second entry for that floor, no more; or it never gets there, if the head is no floor's name or another name of the current floor |
| DestinationAgreement.SettlesOnHead | assignment2/car.c:661-666 | delivering all messages and taking the pending destination over leaves nothing on its way and the car bound for the head |
| DestinationAgreement.MessagesOfControllerRun | assignment2/controller.c:286-293 | the messages received and those under way are the ones the controller's run sends, in order |
| DestinationAgreement.QueueOfControllerRun | assignment2/controller.c:508-553 | in every run of the whole system, in any mode, the queue is the queue of the controller's run on its share of the events |
| ControllerRuns.Drive | assignment2/controller.c:182-553 | over any sequence of calls and STATUS messages the linked nodes go through the states of the run and the FLOOR messages are those of its steps |
| DestinationAgreement.FloorMessageRoundTrip | assignment2/car.c:707-715 | the floor in a FLOOR message is the one the car takes from it |
| DestinationAgreement.OtherMessages | assignment2/car.c:707-715 | of a longer word three characters are kept, and other messages are ignored |
| DestinationAgreement.SpacesSkipped | assignment2/car.c:707-715 | white space before the word is skipped and a message without a word ignored |
| Framing.FrameRoundTrip | assignment2/shared.h:82-132 | a framed message comes back whole, with the rest of the stream untouched, if and only if it is shorter than 2^32 - 1 bytes |
| Framing.ListRoundTrip | assignment2/shared.h:82-132 | a list of such messages comes back in order |
| Framing.ClosedStream | assignment2/shared.h:117-131 | a closed stream gives NULL if and only if the uninitialised length is neither 0 nor all ones |
| Framing.ValueOfBigEndian | assignment2/shared.h:83-120 | ntohl undoes htonl |
| Framing.NetworkOrder | assignment2/shared.h:83-84 | the wire has the most significant byte first |
| Framing.SendLooped | assignment2/shared.h:67-80 | under any short writes the loop ends with everything sent, or with a proper prefix when the stream fails |
| Framing.Exchange | assignment2/shared.h:67-132 | any list of NUL-free texts sent is the list of texts received, under all short writes and reads |
| Framing.SendMessage | assignment2/shared.h:82-86 | the frame of the C string goes onto the stream |
| Framing.RecvLooped | assignment2/shared.h:93-108 | under any short reads the loop ends with the buffer filled from the stream in order, or with -1 when it ran dry |
| Framing.ReceiveMsg | assignment2/shared.h:117-132 | the result for every number of bytes that the two reads get, failing streams included, and on a stream that does not fail the function of its contents; a delivered buffer is its own and terminated |
| BoundedBuffer.BufferIsSafe | week6/workshop6/buffer.c:20-42 | for any threads and interleaving, semaphores plus claims in flight equal the size, removals are a prefix of insertions, and indices stay in bounds |
| BoundedBuffer.AccessesAreSafe | week6/workshop6/buffer.c:24-36 | an insertion overwrites no unread value and a removal takes the oldest unread one |
| BoundedBuffer.ArgumentsAreInserted | week6/workshop6/buffer.c:20-30 | in every interleaving the arguments of all insertions started are the values inserted and those still held by their producers, each as often as given |
| BoundedBuffer.InsertsItsArgument | week6/workshop6/buffer.c:20-30 | each insertion stores the argument its own thread was last called with |
| BoundedBuffer.NoDeadlock | week6/workshop6/buffer.c:20-42 | with a producer and a consumer some thread can always step |
| BoundedBuffer.StepKeepsInv | week6/workshop6/buffer.c:20-42 | every statement of every thread keeps the invariant |
| ConditionRing.RingIsSound | week6/workshop6/condition.c:27-62 | slot i holds 1 exactly when it lies in the occupied stretch, and one slot stays free |
| ConditionRing.AlwaysAlert | week6/workshop6/condition.c:27-62 | not full means a producer is awake, not empty a consumer, under single signals and spurious wakeups |
| ConditionRing.NoDeadlock | week6/workshop6/condition.c:27-62 | with two slots or more some awake thread can always change the occupancy |
| ConditionRing.OneSlotNeverMoves | week6/workshop6/condition.c:27-62 | with one slot no turn of any run changes the occupancy: it puts its thread to wait |
| ConditionRing.OneSlotDeadlocks | week6/workshop6/condition.c:27-62 | with one slot one turn of each of two threads leaves both waiting |
| ConditionRing.FullAndEmpty | week6/workshop6/condition.c:31-49 | the two wait tests are the two ends of the occupancy |
| ConditionRing.TurnWakes | week6/workshop6/condition.c:27-62 | exactly who waits after a turn, a signal or a spurious wakeup |
| RoundRobin.ScheduleIsRounds | exam/week9/roundRobinScheduling_Skeleton.c:107-118 | the dispatch order is round after round, each in original order, with as many entries as there are slices |
| RoundRobin.SlicesIsCeiling | exam/week9/roundRobinScheduling_Skeleton.c:107-118 | a process is dispatched max(1, ceil(burst / quantum)) times |
| RoundRobin.NextRound | exam/week9/roundRobinScheduling_Skeleton.c:109-113 | what survives a round is the next round |
| RoundRobinQueues.Queues.InsertNodeJobQueue | exam/week9/roundRobinScheduling_Skeleton.c:41-48 | the job queue gains a last element, although links are shared and may be stale |
| RoundRobinQueues.Queues.RemoveJobQueueHeadNode | exam/week9/roundRobinScheduling_Skeleton.c:53-66 | the job queue loses its first element |
| RoundRobinQueues.Queues.InsertNodeToReadyQueue | exam/week9/roundRobinScheduling_Skeleton.c:74-81 | linking into the ready queue leaves the job queue as it was, given how the tails lie |
| RoundRobinQueues.Queues.DispatchOne | exam/week9/roundRobinScheduling_Skeleton.c:108-116 | one dispatch on the nodes is one dispatch on the sequence, and the tails meet again |
| RoundRobinQueues.Queues.Run | exam/week9/roundRobinScheduling_Skeleton.c:107-118 | the loop ends after the stated number of dispatches, in the order of the rounds |
| HashTable.DjbHash | week5/workshop5/hashtables/hashtable_search.c:54-64 | shift and add is multiplication by 33 in 64 bits, with signed characters |
| HashTable.HashAppend | week5/workshop5/hashtables/hashtable_search.c:54-64 | one more character multiplies the hash by 33 and adds the character |
| HashTable.HashExamples | week5/workshop5/hashtables/hashtable_search.c:54-64 | two hashes in full, one of a negative char |
| HashTable.Table.Find | week5/workshop5/hashtables/hashtable_search.c:82-92 | NULL exactly for an unbound key, else the item with its value |
| HashTable.Table.Add | week5/workshop5/hashtables/hashtable_search.c:98-114 | binds a new key and changes no other binding |
| HashTable.Table.Delete | week5/workshop5/hashtables/hashtable_search.c:147-170 | unbinds a key, bound or not, and changes no other binding |
| HashTable.HoldsRemove | week5/workshop5/hashtables/hashtable_search.c:154-163 | a bucket without one item holds its part of the map without that key |
| HashTable.OnePlace | week5/workshop5/hashtables/hashtable_search.c:147-170 | an item lies at one place of one bucket, so unlinking it touches no other |
| ParallelSearch.SearchThread | week5/workshop5/hashtables/hashtable_search.c:195-215 | a thread prints the matches of its range |
| ParallelSearch.RangesPartition | week5/workshop5/hashtables/hashtable_search.c:226-236 | the four ranges cover every bucket once for every table size |
| ParallelSearch.SearchFinishes | week5/workshop5/hashtables/hashtable_search.c:222-245 | every interleaving ends after exactly as many steps as there are items and buckets, and until then some thread is running |
| ParallelSearch.SearchPrintsExactlyTheMatches | week5/workshop5/hashtables/hashtable_search.c:222-245 | in every interleaving, after those steps, the keys printed are exactly those bound to the value, once each |
| ParallelSearch.StepConserves | week5/workshop5/hashtables/hashtable_search.c:199-212 | printed plus still to print stays the same multiset over a thread's step |
| ParallelSearch.KeysDistinct | week5/workshop5/hashtables/hashtable_search.c:261-264 | the driver's keys differ below 26 cubed |
| ParallelSearch.KeyExamples | week5/workshop5/hashtables/hashtable_search.c:259-264 | the first, a middle and the last key |
| ParallelSearch.Fill | week5/workshop5/hashtables/hashtable_search.c:259-267 | every addition meets its precondition and the table ends with all the bindings |
| Handshake.HandshakeIsSafe | assignment1/sharedMemory/shm_ipc.c:139-262 | counts and sides hold one token, each answer is the operation on its own operands, and the worker reads only complete requests |
| Handshake.HandshakeFinishes | assignment1/sharedMemory/shm_ipc.c:274-312 | every step uses up bounded work, some side can step while any is left, and at the end both have finished with all answered |
| Handshake.WorkerKeepsInv | assignment1/sharedMemory/shm_ipc.c:219-262 | each statement of the worker keeps the invariant |
| Handshake.ControllerKeepsInv | assignment1/sharedMemory/shm_ipc.c:139-155 | each statement of the controller keeps it |
| DoubleVector.Vector.EnsureCapacity | assignment1/vector/dbl_vector.c:11-28 | contents survive, capacity suffices, and growth follows the cost function |
| DoubleVector.Vector.Push | assignment1/vector/dbl_vector.c:49-54 | appends |
| DoubleVector.Vector.InsertItem | assignment1/vector/dbl_vector.c:73-83 | inserts at the clamped position |
| DoubleVector.Vector.RemoveItem | assignment1/vector/dbl_vector.c:85-93 | removes at the position, or nothing past the end |
| DoubleVector.Vector.Last | assignment1/vector/dbl_vector.c:63-71 | the last element, NaN of an empty vector |
| DoubleVector.Vector.Copy | assignment1/vector/dbl_vector.c:37-43 | equal contents in storage of its own |
| DoubleVector.InsertThenRemove | assignment1/vector/dbl_vector.c:73-93 | removal at the clamped position undoes insertion; at the position asked for if and only if it was not clamped |
| DoubleVector.InsertGoesTo | assignment1/vector/dbl_vector.c:73-83 | past the end an item goes to the end, elsewhere to its position with the rest moved up by one |
| DoubleVector.RemoveTakesOut | assignment1/vector/dbl_vector.c:85-93 | removal closes the gap, and past the end changes nothing |
| DoubleVector.RemoveThenInsert | assignment1/vector/dbl_vector.c:73-93 | putting an item back undoes its removal |
| DoubleVector.GrowthIsLinear | assignment1/vector/dbl_vector.c:11-28 | for any sizes asked for, slots moved are at most 7 (capacity - 4), and 4 capacity at most the larger of 16 and 5 times the largest size |
| DoubleVector.GrowthMovesStorage | assignment1/vector/dbl_vector.c:11-28 | storage grows exactly when too small, and then all of it is moved |

## Left out

- Sockets, `poll`, the connection monitors, signal handlers, `mmap`, usage messages and process exit.
- Real clocks: a wait ends signalled or timed out, whichever; its other error codes are not part of the model.
- A missed broadcast: the monitor and the car may be woken at any time, whether or not anybody signalled.
- Eventual service of every call: a FLOOR for a floor where the doors are already open need not open them again, so only safety and bounded arrival are stated.
- Failure of `malloc` and of thread creation.
- Disconnection of a car from the controller, with the leaked queue nodes and the second unlock in `select_best_car`: cars stay connected and the selection is one atomic search.
- Dispatch.ServeCall: takes the list of cars as a sequence, because the model does not remove cars from it.
- Parsing of CALL, CAR and STATUS lines: their fields are arguments of the steps.
- CallRuns.NoStrandedCall: is about calls between two different names; `call` compares the names as typed, so " 1" to "1" reaches the controller as a call from a floor to itself, which asks for nothing. Of a later insertion it assumes that it drops no entry the call still needs; one that drops an entry with a copy elsewhere in the queue is not covered.
- FleetRuns.CallAnsweredAndServed: has the same two conditions, for the one call and the one car.
- FloorQueue.InsertKeepsOrder: covers calls in the car's direction only: the others are appended unsorted.
- StatusMirror.StatusMirrorsRecord: says nothing about the destination in the message, which the controller thread changes without a notice, nor about a string copied half way when it is read.
- MotionSafety.StopIsLatched: holds at the monitor's steps; between them `service_on` may turn emergency mode off.
- Floors of more than three characters, which overflow the record's buffers: no conversion or message the model covers produces one, and a car started on such a floor is not part of the model.
- The check of the two floors in `call`, by `strtol`: any texts of up to three characters are covered.
- The printed ready list of the scheduler, whose links are shared with the job queue: the schedule is the order of dispatches.
- Keys of more than three characters in the hash table, whose copy would not be terminated, and tables of no buckets.
- Doubles: elements and operands are abstract, so NaN and rounding do not arise; the growth factor 1.25 is exact arithmetic, and sizes do not overflow.
- `dv_destroy`, `dv_foreach`, `htab_print` and `htab_destroy`, which would add only easy members.
- The unsynchronised message queue of `week5`, the chat and echo programs of `week8`, and the small weekly exercises.
