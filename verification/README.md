# MCX core: a verified model

MCX is a Minecraft server extension written in C++ with a Rust launcher. This project models the parts of it
that run algorithms or give guarantees over whole runs, and proves those guarantees. Each Dafny file is one
unit:

- `ThreadScheduler.dfy`, `AsyncWorker.dfy`: the deadline scheduler and the worker pool as atomic steps of all
  threads. A run is any sequence of enabled steps, so the theorems hold for every interleaving. Mutex, sleeps,
  notifications, spurious wake-ups and the stop flag are explicit. The classes at the end of each file perform
  the same steps on fields.
- `Scheduler.dfy`: the frame scheduler that erases while it iterates and may be left by an exception.
- `ChatFilter.dfy`, `KitManager.dfy`: a rate limiter and cooldowns, against the full history of admissions and
  grants. Clock readings are arguments; they never go back.
- `VersionOrder.dfy`: the version comparison of the server and that of the launcher.
- `WebSocketFrames.dfy`, `Protocol.dfy`, `PacketSerializer.dfy`, `Rcon.dfy`, `CommandParser.dfy`: the byte and
  text formats, with the integer widths and signs of the code.
- `EconomyManager.dfy`, `BackupManager.dfy`: conservation of money and retention of backups.
- `Bytes.dfy`, `Clock.dfy`, `Decimals.dfy`, `CharClasses.dfy`, `Wrappers.dfy`: what they share.

Where the code and its comments disagree, the code is modelled:

- The rate limiter's comments speak of five seconds; whole seconds are compared with five, so the window is six
  (src/core/chat_filter.cpp:39-48).
- The thread scheduler's worker is declared, and so started, before the flag that its loop reads. The model lets
  the flag hold either value until the constructor is done (include/mcx/thread_scheduler.hpp:38-39).
- `AsyncWorker` notifies a condition variable nobody waits on: its workers poll every ten milliseconds, so the
  model has no notification for it (src/core/async_worker.cpp:55-61).
- The WebSocket decoder reads the 16-bit length through a signed `char` and never reads the 64-bit length
  (src/core/websocket_server.cpp:218-223).
- `Deserialize` stores the packet type before it checks the length (src/core/protocol.cpp:26-29).

Some properties one would expect hold only under a condition. Each is proved with an exact one:

- A stop reaches the worker before it sleeps: `StopMissesSleeperIff`, and for the wait without a deadline
  `StopMissesUntimedSleeperIff`.
- The worker lives until it is stopped: `WorkerCanQuitBeforeStopIff`. `Start` terminates: `StartEndsIffEmpty`.
- A due task is called by the frame loop: `CalledIff`.
- A cooldown passes in full, to the clock tick: `FullSpacingIff`.
- The server and the launcher agree about versions: `ReadAlikeIff`, `AgreesWithAllIff`.
- A WebSocket frame decodes to its payload: `UnmaskedFramesDecode`, `MaskedFramesDecode`, and `CutUnmaskedFrame`,
  `CutMaskedFrame` for frames of which only a part was received.
- An MCX packet, a pair of strings in it, a serialized field survive: `McxProtocol.RoundTripIff`,
  `PairRoundTripIff`, `FieldRoundTripIff`.
- A transfer stays within 64 bits: `TransferOverflowsIff`.
- Backup names sort as their times: `NamesFollowTimeIff`. The backup just made survives the pruning:
  `JustMadeSurvivesIff`, `LastSurvivesIff`, `LastSurvivesInTimeIff`.

Run `dafny verify dfyconfig.toml` in this directory.

## Model

| member | source | states |
|---|---|---|
| `ThreadScheduling.DispatchFollowsDeadlines` | include/mcx/thread_scheduler.hpp:19-21 | In every run, if a task is dispatched before one with a strictly earlier deadline, the latter was pushed only after the former was popped |
| `ThreadScheduling.TasksAreConserved` | src/core/thread_scheduler.cpp:12-50 | In every run the pushed tasks, as a bag, are the pending ones, the running one and the finished ones; no task is pushed or started twice, and none before its deadline |
| `ThreadScheduling.SleepersMatchTheQueue` | src/core/thread_scheduler.cpp:30-48 | Outside a caller's window between push and notify, an untimed sleep means an empty queue, and a timed one ends exactly at the least pending deadline |
| `ThreadScheduling.SleepEndsAtADeadline` | src/core/thread_scheduler.cpp:47 | In every reachable state a timed sleep ends at the deadline of a pending task |
| `ThreadScheduling.DueTaskIsNotSleptPast` | src/core/thread_scheduler.cpp:26-50 | With the mutex free and a due task pending, a live idle worker always has a step of its own that is not a spurious wake-up |
| `ThreadScheduling.DueTaskStartsWithinSixSteps` | src/core/thread_scheduler.cpp:26-50 | From there, running and undisturbed, it starts a task at least as urgent as the due one within six steps of its own |
| `ThreadScheduling.WorkerSettlesWithinSixSteps` | src/core/thread_scheduler.cpp:26-50 | Left alone, a live and idle worker of a running scheduler comes to rest within six steps: running the most urgent task if one is due, else asleep exactly until the least deadline, else asleep without one |
| `ThreadScheduling.DueTasksAllFinish` | src/core/thread_scheduler.cpp:35-45 | Left alone, it runs every due task to its end and no other |
| `ThreadScheduling.AtMostOneStartAfterStop` | src/core/thread_scheduler.cpp:18-24 | At most one task starts after the stop flag is stored, none after the join |
| `ThreadScheduling.OneStartAfterStopHappens` | src/core/thread_scheduler.cpp:27-39 | The bound is reached: a worker past the loop condition still takes a due task |
| `ThreadScheduling.StopMissesSleeperIff` | src/core/thread_scheduler.cpp:18-48 | The notification of a stop can be lost, and a sleep with or without a deadline follow it, exactly if the worker found the wait predicate false and did not block yet, or is past the loop condition and the queue it has read or will read holds nothing due |
| `ThreadScheduling.StopMissesUntimedSleeperIff` | src/core/thread_scheduler.cpp:18-33 | The sleep without a deadline follows exactly in the first of these cases |
| `ThreadScheduling.StoppedWorkerLeavesWithinFiveSteps` | src/core/thread_scheduler.cpp:18-27 | In all positions but those of `StopMissesSleeperIff` the notified worker leaves its loop within five steps of its own |
| `ThreadScheduling.WorkerCanQuitBeforeStopIff` | include/mcx/thread_scheduler.hpp:35-39 | The worker member is constructed before the flag it reads: it can leave its loop without any stop exactly if the uninitialised flag reads false |
| `ThreadScheduling.StepWake` | src/core/thread_scheduler.cpp:12-48 | Every step of every thread keeps the sleep/queue relation |
| `ThreadScheduling.StepSleep` | src/core/thread_scheduler.cpp:47 | Every step keeps: a timed sleep ends at a pending deadline |
| `ThreadScheduling.StepLock` | src/core/thread_scheduler.cpp:26-50 | Every step keeps mutual exclusion, and an empty queue between predicate and block |
| `ThreadScheduling.StepBag` | src/core/thread_scheduler.cpp:12-45 | Every step keeps the balance of pushed, pending, running and finished tasks |
| `ThreadScheduling.StepPendingOrder` | src/core/thread_scheduler.cpp:36-39 | Every step keeps: a pending task that should have preceded a popped one was pushed after that pop |
| `ThreadScheduling.StepBound` | src/core/thread_scheduler.cpp:27-39 | Every step keeps the bound on starts after a stop |
| `ThreadScheduling.RunKeepsInv` | src/core/thread_scheduler.cpp:12-50 | All of these hold along every interleaving |
| `ThreadScheduling.ThreadScheduler.Allocate` | include/mcx/thread_scheduler.hpp:35-39 | The object as the worker thread may first see it, flag uninitialised |
| `ThreadScheduling.ThreadScheduler.FinishConstruction` | include/mcx/thread_scheduler.hpp:39 | The flag gets its initial value |
| `ThreadScheduling.ThreadScheduler.Schedule` | src/core/thread_scheduler.cpp:12-16 | One critical section adds exactly one entry with deadline now + delay, wakes a sleeping worker and nothing else; its steps form a run |
| `ThreadScheduling.ThreadScheduler.StopWithoutJoin` | src/core/thread_scheduler.cpp:18-20 | Store and notification, without the lock, as two steps of a run |
| `ThreadScheduling.ThreadScheduler.Top` | include/mcx/thread_scheduler.hpp:19-21 | The element found is one with the least deadline |
| `ThreadScheduling.ThreadScheduler.CompareTop` | src/core/thread_scheduler.cpp:35-48 | A due top is removed and run, otherwise the worker sleeps until exactly its deadline; the state changes by that step |
| `ThreadScheduling.ThreadScheduler.WorkerStep` | src/core/thread_scheduler.cpp:26-50 | Each iteration part of the worker is exactly one enabled step of the model |
| `AsyncWorking.PopsFollowSubmissions` | src/core/async_worker.cpp:34-40 | In every run with any number of workers: pops in order, then the queue, equal the submissions in order |
| `AsyncWorking.ActiveThreadsCountsTheWorkSection` | src/core/async_worker.cpp:63-74 | The counter always equals the number of workers inside the work section |
| `AsyncWorking.CallbackFollowsItsWork` | src/core/async_worker.cpp:65-72 | A callback runs at most once, after its own work returned, and never for work that threw |
| `AsyncWorking.NothingPoppedIsDropped` | src/core/async_worker.cpp:55-76 | Once the workers are gone, every popped task with work was started and returned or threw, and its callback ran exactly if it has one and the work returned |
| `AsyncWorking.FrontTaskStartsWithinFourSteps` | src/core/async_worker.cpp:55-63 | In a running pool a worker with empty hands, alone, takes and starts the front task within four steps |
| `AsyncWorking.OneWorkerDrainsTheQueue` | src/core/async_worker.cpp:55-88 | One worker, left alone, empties the queue: tasks with work start in order of submission, each returns or throws as given, callbacks follow exactly the returns, the counter is restored |
| `AsyncWorking.StoppedWorkerLeavesWithinSevenSteps` | src/core/async_worker.cpp:22-32 | Once the flag is down every worker leaves its loop within seven steps of its own |
| `AsyncWorking.StepAccount` | src/core/async_worker.cpp:55-76 | Every step keeps the account of what happened to each popped task |
| `AsyncWorking.NoTaskStartsTwice` | src/core/async_worker.cpp:78-88 | No submitted task is started by two workers or twice by one |
| `AsyncWorking.AtMostOneStartPerWorkerAfterStop` | src/core/async_worker.cpp:22-32 | After the stop flag is stored each worker starts at most one more task until the next start |
| `AsyncWorking.StartEndsIffEmpty` | src/core/async_worker.cpp:14-20 | The start loop ends exactly if the thread vector was empty, whatever the growth policy, and then with as many threads as the reserved capacity |
| `AsyncWorking.StepActive` | src/core/async_worker.cpp:63-74 | Every step keeps the counter equal to the occupancy of the work section |
| `AsyncWorking.StepTicket` | src/core/async_worker.cpp:78-88 | Every step keeps: tasks in the hands of workers are distinct pops with work |
| `AsyncWorking.StepBound` | src/core/async_worker.cpp:55-63 | Every step keeps the bound on starts after a stop |
| `AsyncWorking.RunKeepsInv` | src/core/async_worker.cpp:14-88 | All of these hold along every interleaving |
| `AsyncWorking.AsyncWorker.constructor` | src/core/async_worker.cpp:6-8 | An idle pool with reserved capacity and no threads |
| `AsyncWorking.AsyncWorker.Start` | src/core/async_worker.cpp:14-20 | On an empty pool it creates exactly capacity threads, all at the loop condition; its steps form a run |
| `AsyncWorking.AsyncWorker.StoreStop` | src/core/async_worker.cpp:22-24 | The flag falls, the event is logged, threads, queue and counter stay |
| `AsyncWorking.AsyncWorker.JoinWorkers` | src/core/async_worker.cpp:26-31 | Threads are gone once all have left their loops; the queue keeps what nobody took |
| `AsyncWorking.AsyncWorker.Submit` | src/core/async_worker.cpp:34-40 | The task goes to the back of the queue |
| `AsyncWorking.AsyncWorker.TakeNext` | src/core/async_worker.cpp:78-88 | The front task or an empty one, and the exact rest of the queue |
| `AsyncWorking.AsyncWorker.WorkerStep` | src/core/async_worker.cpp:55-76 | Each part of the worker loop is exactly one enabled step of the model |
| `Scheduling.SweepIsAStablePartition` | src/core/scheduler.cpp:11-22 | Up to the first due task that throws, due tasks run once in insertion order and leave while the others keep their order; from there on everything is intact |
| `Scheduling.EveryTaskCompletesAtMostOnce` | src/core/scheduler.cpp:7-26 | Over any sequence of schedules, frames and clears no call is early, a call that did not throw is its task's last, and scheduled tasks are pending, cleared or completed |
| `Scheduling.CalledIff` | src/core/scheduler.cpp:11-22 | Over any run a task is called exactly if in some frame it is pending and due and no due task ahead of it throws |
| `Scheduling.NoCallBeforeItsDelay` | src/core/scheduler.cpp:7-16 | Over any run no call of a task comes before the clock of its `Schedule` plus its delay |
| `Scheduling.FrameCallsExactlyTheDue` | src/core/scheduler.cpp:11-22 | A frame in which nothing throws calls and erases exactly the pending tasks whose delay is over |
| `Scheduling.GoneStaysGone` | src/core/scheduler.cpp:14-16 | A task that left the vector is never called again |
| `Scheduling.ClearedTasksAreNeverCalled` | src/core/scheduler.cpp:24-26 | Whatever follows a `Clear`, none of the tasks pending then is called |
| `Scheduling.FailingTaskBlocksTheRest` | src/core/server.cpp:72-81 | A task that throws in every frame keeps every task behind it from ever being called, although the frame loop goes on |
| `Scheduling.SweepErasesCompleted` | src/core/scheduler.cpp:14-16 | A task whose call returned is not in the vector afterwards |
| `Scheduling.SweepBalance` | src/core/scheduler.cpp:11-22 | One sweep neither loses nor duplicates a task |
| `Scheduling.Scheduler.Schedule` | src/core/scheduler.cpp:7-9 | Appends one task with deadline now + delay |
| `Scheduling.Scheduler.Update` | src/core/scheduler.cpp:11-22 | The in-place erase loop computes the sweep, and says whether an exception left it |
| `Scheduling.Scheduler.Clear` | src/core/scheduler.cpp:24-26 | Drops all pending tasks |
| `ChatFiltering.ExpiredMeansSixSeconds` | src/core/chat_filter.cpp:39-44 | A timestamp is pruned exactly from an age of six seconds on, because whole seconds are compared with five |
| `ChatFiltering.FreshTwice` | src/core/chat_filter.cpp:40-45 | Pruning forgets nothing that a later pruning would have kept |
| `ChatFiltering.FreshCountsRecent` | src/core/chat_filter.cpp:40-48 | What survives pruning of the full record is what is younger than six seconds |
| `ChatFiltering.CountRecentIs` | src/core/chat_filter.cpp:39-48 | What counts for the limit is the set of the player's admitted messages younger than six seconds |
| `ChatFiltering.CallStep` | src/core/chat_filter.cpp:35-50 | One call keeps the buffers in agreement with the full history and decides as the history does |
| `ChatFiltering.SixAdmissionsSpanTheWindow` | src/core/chat_filter.cpp:39-50 | Under a monotone clock any six successive admissions of a player span at least six seconds |
| `ChatFiltering.FiveOfABurst` | src/core/chat_filter.cpp:48-50 | Of any number of messages at one instant exactly the first five are admitted |
| `ChatFiltering.OthersDoNotMatter` | src/core/chat_filter.cpp:36 | A player's verdicts in any run equal those in the run of that player's calls alone |
| `ChatFiltering.ChatFilter.Prune` | src/core/chat_filter.cpp:40-45 | The remove-and-erase pass keeps exactly the fresh timestamps in order |
| `ChatFiltering.ChatFilter.MatchesSpam` | src/core/chat_filter.cpp:53-55 | True exactly if some pattern matches |
| `ChatFiltering.ChatFilter.RateLimit` | src/core/chat_filter.cpp:35-50 | Limited exactly if the full history holds five admissions of this player younger than six seconds; the buffer stays sorted, at most five long, and others are untouched |
| `ChatFiltering.ChatFilter.IsSpam` | src/core/chat_filter.cpp:35-58 | Spam exactly if rate-limited or matching a pattern; a matching message is still admitted |
| `KitManaging.GrantsAreSpaced` | src/core/kit_manager.cpp:18-31 | In every run with a monotone clock two grants of a kit to a player are at least the cooldown in force at the later one apart, across deletion and redefinition |
| `KitManaging.GrantedIff` | src/core/kit_manager.cpp:33-51 | In every run a request is granted exactly if the kit is defined and its cooldown has passed since every earlier grant of it to the player |
| `KitManaging.LastWordHolds` | src/core/kit_manager.cpp:8-16 | After any run a kit is as last defined, or gone if last deleted |
| `Clocks.WholeSecondsBounds` | src/core/kit_manager.cpp:77-80 | Whole seconds lose less than a second, towards zero |
| `KitManaging.WindowBound` | src/core/kit_manager.cpp:18-51 | With constant cooldown c > 0, grants within w seconds number at most w / c + 1 |
| `KitManaging.GrantedFromTickOn` | src/core/kit_manager.cpp:48-49 | After its latest grant a kit can be granted again exactly from one clock tick on |
| `KitManaging.FullSpacingIff` | src/core/kit_manager.cpp:77-80 | In every run the full cooldown, to the tick, passes before the next grant exactly if the last one was stamped at the very beginning of a second (for readings before the clock's origin: exactly as `StartsFully` says) |
| `KitManaging.SpacingInTicks` | src/core/kit_manager.cpp:77-80 | In every run two grants of a kit to a player are more than the cooldown minus one second apart, to the tick |
| `KitManaging.SpacingInTicksIsTight` | src/core/kit_manager.cpp:77-80 | For every positive cooldown a run in which all of that second but one tick is missing |
| `KitManaging.KitManager.DefineKit` | src/core/kit_manager.cpp:8-11 | Defines or replaces a kit and keeps the grant record |
| `KitManaging.KitManager.DeleteKit` | src/core/kit_manager.cpp:13-16 | Removes the definition, keeps the grant record |
| `KitManaging.KitManager.CanReceiveKit` | src/core/kit_manager.cpp:33-51 | Decides by definition, record and elapsed whole seconds |
| `KitManaging.KitManager.GiveKit` | src/core/kit_manager.cpp:18-31 | Grants exactly if allowed, storing the second clock reading in whole seconds for this player and kit only; a refusal changes nothing |
| `VersionOrdering.CppOrderIsStrictWeak` | src/core/update_checker.cpp:30-42 | On arbitrary strings the verdict is irreflexive, asymmetric, transitive, and incomparability is transitive |
| `VersionOrdering.IncomparableMeansSame` | src/core/update_checker.cpp:33-41 | Neither newer exactly if equal after zero padding |
| `VersionOrdering.PaddingIsIrrelevant` | src/core/update_checker.cpp:33-35 | Component lists that differ in trailing zeros only are interchangeable in every comparison |
| `VersionOrdering.FirstDifferenceDecides` | src/core/update_checker.cpp:37-41 | The greater number at the first difference is newer whatever follows, and so is a longer list with a positive number more |
| `VersionOrdering.ReadAlikeIff` | src/core/update_checker.cpp:12-28 | On all strings: both programs read the same numbers, up to trailing zeros, exactly if each token is a strict numeral or text whose leading numeral is absent, zero or beyond 32 bits, and of several v the first token is zero for the launcher |
| `VersionOrdering.ProgramsAgree` | launcher-rs/src/github.rs:42-65 | Both programs give the same verdicts on every pair of such versions |
| `VersionOrdering.AgreesWithAllIff` | launcher-rs/src/github.rs:42-65 | A string gets the same verdicts from both programs, against all such versions, exactly if it is one |
| `VersionOrdering.WellFormedIsReadAlike` | src/core/update_checker.cpp:12-28 | Optional v and dotted digit runs of any length are such versions |
| `VersionOrdering.TokensAgreeIff` | launcher-rs/src/github.rs:43-48 | The two readings of a token agree exactly on strict numerals and on tokens whose leading numeral is absent, zero or beyond 32 bits |
| `VersionOrdering.CppReadsNumeral` | src/core/update_checker.cpp:22-25 | White space in front of a numeral and anything behind it is skipped, either sign and leading zeros are understood, and what does not fit 32 bits is zero |
| `VersionOrdering.RustReadsNumerals` | launcher-rs/src/github.rs:46 | A numeral with either sign and leading zeros is read as its number, or zero if that does not fit 32 bits |
| `VersionOrdering.RustReadsOnlyNumerals` | launcher-rs/src/github.rs:46 | Nothing but a numeral is read as another number than zero |
| `VersionOrdering.GetlineDropsOneEmptyToken` | src/core/update_checker.cpp:20 | The tokenizers differ exactly by an empty token at the end |
| `VersionOrdering.SplitOfJoin` | launcher-rs/src/github.rs:45 | Splitting text joined by dots gives its tokens |
| `VersionOrdering.JoinOfSplit` | launcher-rs/src/github.rs:45 | And the tokens of any text, joined by dots, are the text |
| `VersionOrdering.LeadingVsAreStripped` | launcher-rs/src/github.rs:44 | Of any number of v in front the launcher drops all and the server one |
| `VersionOrdering.SuffixesDisagree` | src/core/update_checker.cpp:21-25 | Text behind a positive number is dropped by one program and zero in the other: they disagree already against the empty version |
| `VersionOrdering.SecondVDisagrees` | launcher-rs/src/github.rs:44 | A positive number behind two or more v is not read alike |
| `VersionOrdering.DottedNumeralsAreRead` | src/core/update_checker.cpp:12-28 | Numerals of any length, padding and sign, between dots behind at most one v, are read as their numbers by both programs |
| `VersionOrdering.DottedNumeralsCompare` | src/core/update_checker.cpp:30-42 | Both programs order such versions as their numbers are ordered |
| `VersionOrdering.GreaterNumeralIsNewer` | src/core/update_checker.cpp:37-41 | The version whose first differing numeral is greater is newer for both programs, however the numerals are padded |
| `Decimals.ValueConcat` | src/core/update_checker.cpp:22 | In a run of digits each weighs ten times the next, leading zeros included |
| `VersionOrdering.PrintedVersionsReadBack` | src/core/update_checker.cpp:12-28 | Printing 32-bit components, negative ones too, behind at most one v and parsing is the identity in both programs |
| `VersionOrdering.CompareParts` | src/core/update_checker.cpp:33-41 | The padded index loop returns the verdict of the first differing component |
| `VersionOrdering.NextToken` | src/core/update_checker.cpp:20 | One extraction takes the text up to the next dot and leaves what follows it |
| `VersionOrdering.ParseVersionParts` | src/core/update_checker.cpp:12-28 | The getline loop yields the values of all tokens in order, exceptions as zero |
| `VersionOrdering.IsVersionNewer` | src/core/update_checker.cpp:30-42 | The order of the component lists read by C++ |
| `VersionOrdering.IsNewerVersion` | launcher-rs/src/github.rs:42-65 | The order of the component lists read by Rust |
| `WebSocketFrames.RfcRoundTrip` | src/core/websocket_server.cpp:243-262 | A decoder written from sections 5.2 and 5.3 of RFC 6455 inverts the encoding in any stream, masked or not, for every length below 2^63 |
| `WebSocketFrames.RfcCanonical` | src/core/websocket_server.cpp:247-258 | What that decoder accepts is the encoding of its result, so the length form is the least one |
| `WebSocketFrames.ExampleUnmasked` | src/core/websocket_server.cpp:243-262 | The unmasked text of the examples in section 5.7 of RFC 6455 |
| `WebSocketFrames.ExampleMaskedHeader` | src/core/websocket_server.cpp:214-229 | Where mask bit, length and key stand in the masked one |
| `WebSocketFrames.ExampleFragments` | src/core/websocket_server.cpp:211-212 | And its two fragments |
| `WebSocketFrames.ExampleLengths` | src/core/websocket_server.cpp:249-258 | The two long binary messages of those examples, with 16-bit and 64-bit length |
| `WebSocketFrames.EncodeFrame` | src/core/websocket_server.cpp:243-262 | Exactly the unmasked text frame of the RFC, byte by byte: first byte, length in one, three or nine bytes with the high end first, message |
| `WebSocketFrames.DecodeFrame` | src/core/websocket_server.cpp:208-241 | The decoder loop computes what the byte-level reading of the code says, including exceptions and reads past the string |
| `WebSocketFrames.UnmaskFrame` | src/core/websocket_server.cpp:226-235 | The unmasking loop undoes the mask, or runs off the string |
| `WebSocketFrames.UnmaskedFramesDecode` | src/core/websocket_server.cpp:215-238 | With anything received behind the frame: an unmasked data frame decodes to its payload exactly with a 7-bit length, a 16-bit length whose bytes are both below 128, or any 16-bit length and nothing behind it; other 16-bit lengths swallow what follows, longer ones give the first 127 bytes |
| `WebSocketFrames.MaskedFramesDecode` | src/core/websocket_server.cpp:215-235 | With anything received behind the frame: a masked data frame decodes to its payload exactly with a 7-bit length or a 16-bit length whose bytes are both below 128; other 16-bit lengths run off the string, longer ones give the first 127 bytes |
| `WebSocketFrames.MaskedMessageBits` | src/core/websocket_server.cpp:226-235 | In every masked string decoded, each bit of the message is the exclusive or of the bit received and that of the key, whose four bytes take turns |
| `WebSocketFrames.OtherFramesAreDropped` | src/core/websocket_server.cpp:211-212 | Frames with any opcode but text and binary decode to nothing |
| `WebSocketFrames.CutUnmaskedFrame` | src/core/websocket_server.cpp:161-165 | An unmasked frame of which one read returned only a part yields that part of the payload |
| `WebSocketFrames.CutMaskedFrame` | src/core/websocket_server.cpp:161-165 | A masked one runs off the string, unless 127 bytes suffice or one byte is missing, for which the terminator of the string stands in |
| `WebSocketFrames.MaskTwice` | src/core/websocket_server.cpp:226-235 | The mask of section 5.3 is its own inverse for every key |
| `WebSocketFrames.MaskBits` | src/core/websocket_server.cpp:226-235 | The mask of section 5.3 turns over exactly the bits set in the key byte whose turn it is |
| `WebSocketFrames.JoinOnWords` | src/core/websocket_server.cpp:219 | The sign-extended length is what shift and bitwise or do on the 32-bit words of the promoted bytes |
| `WebSocketFrames.SignedLength` | src/core/websocket_server.cpp:219 | The sign-extended length is exact or larger than any string |
| `McxProtocol.RoundTripIff` | src/core/protocol.cpp:21-33 | In any stream a packet is recovered exactly if its payload has at most 65535 bytes |
| `McxProtocol.ReadWire` | src/core/protocol.cpp:14-17 | Otherwise exactly the first size mod 65536 payload bytes come back |
| `McxProtocol.StreamRoundTrip` | src/core/protocol.cpp:7-33 | Reading a concatenation of packets one after the other recovers the list |
| `McxProtocol.ReadAllIsCanonical` | src/core/protocol.cpp:21-33 | Whatever was read off a stream, re-serialized in front of the rest, is that stream |
| `McxProtocol.AcceptedIsCanonical` | src/core/protocol.cpp:21-33 | The accepted prefix of any input re-serializes to itself |
| `McxProtocol.PairRoundTripIff` | src/core/protocol.cpp:35-67 | Two strings in one packet come back end to end exactly if the first has no zero byte |
| `McxProtocol.Serialize` | src/core/protocol.cpp:7-19 | 0x4D, 1, the type, the low and the high byte of the size, the payload |
| `McxProtocol.Packet.Deserialize` | src/core/protocol.cpp:21-33 | Accepts exactly complete packets and takes type and payload from them; a rejected input can still have overwritten the type, as in the code |
| `McxProtocol.CreatePlayerJoin` | src/core/protocol.cpp:35-42 | Id, zero byte, name; a reader's split at the first zero gives both back exactly if the id has no zero byte |
| `McxProtocol.CreateChatMessage` | src/core/protocol.cpp:51-58 | Id, zero byte, message, with the same round trip |
| `McxProtocol.CreateAction` | src/core/protocol.cpp:60-67 | Action type, zero byte, payload, with the same round trip |
| `PacketSerialization.BlockRoundTrip` | src/core/packet_serializer.cpp:5-47 | Any list of fields, strings shorter than 2^32 bytes, written in order is read back in order through one offset, wherever the block starts, and the offset ends behind it, on hosts of either byte order |
| `PacketSerialization.FieldRoundTripIff` | src/core/packet_serializer.cpp:25-33 | A field survives exactly if it is not a string of 2^32 bytes or more |
| `PacketSerialization.ReadEncoded` | src/core/packet_serializer.cpp:5-11 | A longer string comes back cut to its length modulo 2^32 |
| `PacketSerialization.SerializeString` | src/core/packet_serializer.cpp:5-11 | The size modulo 2^32 as a number, then the string; it reads back exactly if shorter than 2^32 bytes |
| `PacketSerialization.SerializeUInt32` | src/core/packet_serializer.cpp:13-17 | The four bytes of the number, low end first on a little-endian host and last on a big-endian one, which read back |
| `PacketSerialization.SerializeDouble` | src/core/packet_serializer.cpp:19-23 | Eight opaque bytes that read back unchanged |
| `PacketSerialization.DeserializeString` | src/core/packet_serializer.cpp:25-33 | As many bytes as the number at the offset says, and the offset behind them |
| `PacketSerialization.DeserializeUInt32` | src/core/packet_serializer.cpp:35-40 | The number those four bytes denote on such a host, and the offset behind them |
| `PacketSerialization.DeserializeDouble` | src/core/packet_serializer.cpp:42-47 | The eight bytes at the offset, and the offset behind them |
| `RconPackets.ReceiveWhatWasSent` | src/core/rcon.cpp:93-137 | For every int32 id and type and every payload under 2^31 - 10 bytes the reader returns the packet sent and stops behind it |
| `RconPackets.JoinWord` | src/core/rcon.cpp:125-127 | Rejoining inverts splitting for every 32-bit number, negative ones included |
| `RconPackets.WordJoin` | src/core/rcon.cpp:97-102 | Splitting inverts rejoining for all four bytes |
| `RconPackets.ShiftsGiveTwosComplement` | src/core/rcon.cpp:97-102 | The shifts and masks of the writer give the two's complement, least significant first |
| `RconPackets.LengthField` | src/core/rcon.cpp:69-71 | The length field is the total size minus its own four bytes |
| `RconPackets.AppendInt` | src/core/rcon.cpp:97-102 | Appends the four bytes of a number |
| `RconPackets.Serialize` | src/core/rcon.cpp:93-112 | Three numbers, the payload, two zero bytes |
| `RconPackets.Receive` | src/core/rcon.cpp:117-137 | On any stream: a short header gives an empty packet; the payload is the length less ten bytes, zero where the stream ended; a length of nine throws, one below -2^31 + 8 overflows |
| `RconPackets.RconClient.NextRequest` | src/core/rcon.cpp:69-87 | Each request has a fresh id and a length field that fits its payload |
| `RconPackets.RconClient.Authenticate` | src/core/rcon.cpp:69-77 | A request of kind 3 with a fresh id; the answer is a success unless its id is -1, a short answer included |
| `RconPackets.RconClient.SendCommand` | src/core/rcon.cpp:79-87 | A request of kind 2 with a fresh id; the result is the payload of the answer |
| `Economy.TransferConserves` | src/core/economy_manager.cpp:47-53 | A transfer keeps the sum of all balances, to oneself and to a missing account too; a failed one changes nothing, a successful one only the two balances |
| `Economy.RunConserves` | src/core/economy_manager.cpp:6-53 | After any run the sum is the initial one plus what creation, deletion, deposits and withdrawals moved in and out |
| `Economy.RunStaysNonNegative` | src/core/economy_manager.cpp:23-53 | If created balances are non-negative, no run makes one negative |
| `Economy.TransferCannotOverflow` | src/core/economy_manager.cpp:47-53 | With non-negative balances whose sum is at most 2^63 - 1 neither step of a transfer overflows |
| `Economy.TransferOverflowsIff` | src/core/economy_manager.cpp:30 | Between any accounts that fit 64 bits, a transfer leaves them exactly if it succeeds, is not to oneself, and the recipient has less headroom than the amount; its withdrawal never does |
| `Economy.SumUpdate` | src/core/economy_manager.cpp:30 | Changing one balance changes the sum by the difference |
| `Economy.EconomyManager.CreateAccount` | src/core/economy_manager.cpp:6-9 | Creates or overwrites |
| `Economy.EconomyManager.DeleteAccount` | src/core/economy_manager.cpp:11-13 | Removes the account if there is one |
| `Economy.EconomyManager.Deposit` | src/core/economy_manager.cpp:23-33 | Fails exactly on non-positive amounts; a missing account is created |
| `Economy.EconomyManager.Withdraw` | src/core/economy_manager.cpp:35-45 | Succeeds exactly with a positive amount that the account covers |
| `Economy.EconomyManager.Transfer` | src/core/economy_manager.cpp:47-53 | Withdraw, then deposit, or nothing |
| `Backups.NamesFollowTime` | src/core/backup_manager.cpp:86-93 | With years of equally many digits the order of names is the order of calendar time, and different times have different names |
| `Backups.NamesFollowTimeIff` | src/core/backup_manager.cpp:91 | For any two years the names sort as the times do exactly if the years have equally many digits, or the date with the shorter year is below the other one cut to its length |
| `Backups.FiveDigitYearsSortFirst` | src/core/backup_manager.cpp:91 | So all names of the years 10000 to 19999 sort before those of 2000 to 9999 |
| `Backups.NameSaysTheTime` | src/core/backup_manager.cpp:86-93 | A name reads year, month, day, underscore, hour, minute, second, the year unpadded and the others with two digits |
| `Backups.KeepsTheNewest` | src/core/backup_manager.cpp:95-106 | Exactly min(n, maxBackups) entries stay, and every one that stays is newer than every one removed |
| `Backups.KeepAbsorbsKeep` | src/core/backup_manager.cpp:95-106 | Pruning, adding an entry and pruning again keeps what one pruning of everything would |
| `Backups.RunKeepsTheNewest` | src/core/backup_manager.cpp:36-54 | After any run of backups the directory holds the newest names of everything there ever was |
| `Backups.JustMadeSurvivesIff` | src/core/backup_manager.cpp:45 | Made into any directory, a backup survives its own cleanup exactly if fewer than maxBackups names there are above its own |
| `Backups.LastSurvivesIff` | src/core/backup_manager.cpp:36-54 | The same for the last backup of any run from any directory, against everything there ever was |
| `Backups.LastSurvivesInTimeIff` | src/core/backup_manager.cpp:86-106 | In terms of time: exactly if fewer than maxBackups of all backups, old ones included, are stamped after it |
| `Backups.SteppingBackLosesTheBackup` | src/core/backup_manager.cpp:91 | With room for one, a backup made after local time stepped back is the one deleted |
| `Backups.JustMadeSurvives` | src/core/backup_manager.cpp:36-54 | While no backup, old or new, is stamped after the last one, it survives if any may |
| `Backups.KeepIsSuffix` | src/core/backup_manager.cpp:99-103 | Keeping is dropping all but the last maxBackups of the sorted list |
| `Backups.BackupManager.SetMaxBackups` | src/core/backup_manager.cpp:19-21 | Sets the limit and deletes nothing |
| `Backups.BackupManager.ListBackups` | src/core/backup_manager.cpp:56-64 | Every entry once, in some order |
| `Backups.BackupManager.Sort` | src/core/backup_manager.cpp:99 | A strictly ascending list of the same entries |
| `Backups.BackupManager.CleanupOldBackups` | src/core/backup_manager.cpp:95-106 | Sorting and deleting from the front leaves exactly the newest maxBackups entries |
| `Backups.BackupManager.BackupNow` | src/core/backup_manager.cpp:36-54 | A successful copy adds its name and prunes, and survives that as `JustMadeSurvivesIff` says; a failed one changes nothing |
| `CommandParsing.TokensIff` | src/core/command_parser.cpp:7-19 | A list is the token list of an input exactly if the input is those words, in order, between white space |
| `CommandParsing.CommandIff` | src/core/command_parser.cpp:7-19 | An input parses to a name and arguments exactly if it is these words, in order, between white space |
| `CharClasses.SpaceCodes` | src/core/command_parser.cpp:12 | White space is the blank and the five control characters from the tab to the carriage return |
| `CommandParsing.JoinParses` | src/core/command_parser.cpp:12-17 | Any words joined by any white space parse back to the list |
| `CommandParsing.EveryInputIsAJoin` | src/core/command_parser.cpp:12-17 | Every token is a maximal run without white space |
| `CommandParsing.TokensKeepEveryCharacter` | src/core/command_parser.cpp:12-17 | The tokens in a row are the input without its white space |
| `CommandParsing.ParsePrintParse` | src/core/command_parser.cpp:7-19 | Parsing a printed command gives the command back |
| `CommandParsing.Extract` | src/core/command_parser.cpp:12 | One stream extraction: skip white space, take the longest word, leave the rest |
| `CommandParsing.ParseCommand` | src/core/command_parser.cpp:7-19 | The first word is the name, the others in order are the arguments |

## Left out

- Sockets, HTTP, the WebSocket handshake, RCON connection and login exchange, Paper and network bridges: only the byte layouts and what is made of an answer are modelled; the reads of the RCON client return all that was asked for if it is there.
- Consoles, launchers, logging, file watching, signals, Lua, dynamic modules and archives: no algorithm of this repository.
- Permissions, registries, event bus, entities, worlds, scenes, bans, teleports, statistics: single lookups or standard sorts that would only add easy members.
- `std::priority_queue` and `std::sort` internals: a bag whose top is some least deadline, and a sorted list of the same entries.
- Regular expressions: an uninterpreted relation between messages and patterns; `IsClean` and `Sanitize` have no other content.
- Liveness of the threads: the theorems are about safety and about which steps are enabled; that an enabled step is eventually taken is the scheduler of the operating system.
- Exceptions that are not `std::exception`: they end the process in the worker threads.
- A task that calls `Schedule` from inside `Scheduler::Update`: it would invalidate the iterator of the loop.
- A second start of the worker pool without a stop: the loop never ends, as `StartEndsIffEmpty` shows, so the steps have no such start.
- `TaskPriority`: never read by the queue.
- Signed overflow of 64-bit balances and of the RCON request counter: undefined in C++; balances are unbounded here, and it is proved when they leave 64 bits.
- Frames cut off inside their length field or key: covered by `DecodeFrame`, which takes any bytes, and by no further lemma.
- Doubles: eight opaque bytes, since they are only copied.
- A failed removal in the backup directory and a copy that fails half way: a copy succeeds or changes nothing.
