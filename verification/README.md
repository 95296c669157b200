# Verification of the packet relay

The relay receives packets from game clients over websockets, collects them per room, and thirty times a second sends
every member of a room what the other members sent. This project models its concurrent and stateful parts in Dafny and
proves what they promise. Cited paths are relative to the root of the repository.

| part | files | source |
|---|---|---|
| Worker hand-off, tick loop, delivery | `HandOff*.dfy`, `RelayTypes.dfy`, `Integers.dfy` | `src/Semaphore.h`, `src/RelayThread.cpp`, `src/RelayThreadPool.*`, `src/RoomManager.cpp:30-78`, lock sections of `src/PacketAccumulator.cpp` |
| Job body | `BufferAssembly.dfy` | `src/RoomManager.cpp:42-64` |
| Room threads | `RoomLifecycle*.dfy` | `src/RoomManager.cpp:8-25`, `src/RoomManager.cpp:80-84` |
| Accumulator and handlers | `PacketAccumulator.dfy`, `RelayServer*.dfy`, `MoonKeys.dfy` | `src/PacketAccumulator.cpp`, `src/RelayServer.cpp` |
| The whole relay, end to end | `RelaySystem*.dfy`, `RelayEndToEnd.dfy`, `RelayEnrolment.dfy`, `RelayRuns.dfy` | all of the above together |
| Contiguous queue | `ContiguousQueue*.dfy` | `src/ContiguousQueue.h` |
| Key store | `KeyFile.dfy`, `KeyManager.dfy`, `ApiServer.dfy` | `src/KeyManager.cpp`, `src/APIServer.cpp`, `src/Helpers.cpp` |
| Asio buffers | `BuffersIterator.dfy`, `BufferCopy.dfy`, `StreamBuffer.dfy` | `libs/asio/include/asio/` |

`dafny verify dfyconfig.toml` checks everything.

**Hand-off.** `HandOff.State` holds any number of workers (the source has 1024) and room threads, each with a program
counter. One step is one semaphore operation, one write of `m_function`, `m_done` or `m_exit`, one pass of a job over
its batch, or one lock section of the accumulator. A job names its room thread and member index, since it captures
references; a dangling reference, an empty function, a copy beyond the buffer or an overflow of the `int` counter leads
to the state `Crashed`. The theorems speak of every state before that (`Defined`), and `HandOffOverflow` proves that
exactly one thing leads there: a batch that owes a member more than `INT_MAX` bytes. Histories (`ticks`, `sent`, `accepted`, `fates`, `ran`, `finished`) never influence a step.
`HandOffInvariant.Inv` is the inductive invariant, `HandOffDelivery.Delivery` its companion for packets and streams, and
`HandOffTheorems` draws the conclusions. `HandOffProgress` proves that searches find free workers, that a tick takes all
that is pending and all who are enrolled, and that it comes to its end.

**Handlers.** They run on one thread (`src/main.cpp:46-48`, `src/WebsocketServer.cpp:34`). `RelayServerModel` gives each
as a function on the whole relay state, `RelayServing.RelayServer` is the object whose loops are proved to compute it.
Room threads only touch the pending packets between handlers; `TicksAreInvisible` and `HandlersIgnorePending` prove that
no handler can tell. What `getRoom` and `getPlayerLimit` answer is arbitrary in the run theorems, so a key refresh at any
moment is covered.

**The whole relay.** `RelaySystem.System` puts the parts together: a handler is a list of things to do, each one step, and
what a step reads in the accumulator under its lock decides what comes next; it waits inside `createRoom` where it calls
it. Room threads are started and ended by the registry; ticks and workers interleave with all of it. Every run of the system is proved to be a run of the
hand-off machine and of the registry machine, and its handlers to compute what the handlers compute one after another.
`RelayEndToEnd` concludes what a member is sent, in terms of the messages that were accepted.

**Where the code does not do what one would expect.**

- `ContiguousQueue`: a pop keeps the layout if and only if it does not empty the queue; otherwise the first slot is left
  preceded by itself (`PopTakesOldest`), and a later pop from several entries lets go of slots. `FifoIffSurvives` says
  exactly which runs are first-in-first-out: those that `Survives` accepts, a small automaton over the pushes and pops
  that knows nothing of the layout; every other run trips an assert. `EmptyingOnceCanBreakTheQueue` is one.
- The `int` counter of a job overflows if and only if its batch owes the member more than `INT_MAX` bytes
  (`CrashesExactlyOnOverflow`); `OverflowIsReachable` is such a run of the whole relay, with one moon and one player.
- `/create` does not validate its id. The keys within the key directory stay distinct on every run
  (`RunsKeepKeysDistinct`), but with `../x` a file lies outside: its keys open nothing (`CreatedKeysOpenTheirRoom`) and are
  not known as taken (`CreatedKeysAreTaken`), both if and only if the id leaves the directory. So two files share their
  keys on some runs that do (`EscapedKeysRepeat`) and on none that do not (`InsideRunsShareNoKey`).
- A connection that sends a second moon key overwrites its entry and can leave a room without a moon for good
  (`TwoMoonKeysOrphanARoom`); `MessageAndMoonRooms` says exactly when.
- A room created again while its old thread is between its loop and its announcement gets no thread
  (`RecreatedRoomStaysWithoutThread`, a run of the whole relay); `DecideLeavesTickingThread` says exactly when.
- `claimIdentifier` looks like a search for a free identifier but keeps overwriting its candidate: the highest wins.
- `basic_streambuf::reserve` shifts its data before it throws, and the pointers stay (`Reserve`, `ShiftedData`). The data
  survives exactly when `ShiftedIsUnchanged` says; `FailedPrepareChangesData` is a run on which it does not.
- `commit` and `consume` cast their count to `int`; they are exact if and only if it is at most `INT_MAX`, and
  `LargeCommitMovesBack` and `LargeConsumeMovesBack` are runs beyond.

## Model

| member | source | states |
|---|---|---|
| `HandOffInvariant.StepKeepsInv` | src/RelayThread.cpp:9-59 | Every step of any worker, room thread, destructor or accumulator section keeps the protocol invariant that ties lock bits, program counters, job slots and controller semaphores together |
| `HandOffInvariant.ReachableInv` | src/Semaphore.h:12-36 | The invariant holds after every run, for any number of workers and callers |
| `HandOffInvariant.CopyFits` | src/RoomManager.cpp:43-64 | Between the two passes of a job nobody changes its batch or member: the second pass needs exactly the bytes the first one counted |
| `HandOffInvariant.IdleHasNoFlight` | src/RoomManager.cpp:68-71 | A room thread outside its fan-out has no job of its own left with any worker |
| `HandOffTheorems.ExactlyOnce` | src/RelayThread.cpp:18-26 | A submitted job runs and finishes at most once, after it ran; exactly once when its tick is over; never without being submitted |
| `HandOffTheorems.SignalsItsOwnJob` | src/RelayThread.cpp:25-26 | A worker signals the very job it just ran, for the first time |
| `HandOffOverflow.CrashesExactlyOnOverflow` | src/RoomManager.cpp:44-52 | A step causes undefined behaviour if and only if it counts more than `INT_MAX` bytes for a member; the tick at fault is on record |
| `HandOffOverflow.FittingRunsAreDefined` | src/RoomManager.cpp:42-64 | As long as no tick owes a member more than `INT_MAX` bytes, no undefined behaviour has occurred |
| `RelayRuns.OverflowIsReachable` | src/RoomManager.cpp:44-51 | A run of the whole relay, one moon and one player, on which 131072 messages of the largest size overflow the counter |
| `HandOffTheorems.NoDataRace` | src/RelayThread.cpp:36-48 | Whoever is about to write `m_function`, `m_done` or `m_exit` holds the worker alone while the worker is blocked on `m_runningLock` |
| `HandOffTheorems.JoinWaits` | src/RelayThreadPool.h:17-20 | `join` passes its acquire only after that controller's job ran and was signalled, each once |
| `HandOffTheorems.JoinBarrier` | src/RoomManager.cpp:35-70 | No step of anybody changes the packets or connections that a job in flight refers to |
| `HandOffTheorems.DestructorIsLast` | src/RelayThread.cpp:31-43 | A destructor that holds the worker finds no job in flight, every job handed to that worker finished, and returns only after the thread left its loop |
| `HandOffTheorems.JobIsInOnePlace` | src/RelayThreadPool.cpp:7-19 | Each job of a running tick is waiting for a worker, owned by one, or finished, and never two of these |
| `HandOffTheorems.OneOwner` | src/RelayThread.cpp:53-59 | No job is owned by two workers |
| `HandOffTheorems.UnfinishedAtMostWorkers` | src/RelayThreadPool.h:30 | In every reachable state at most as many jobs are handed over and unfinished as there are workers |
| `HandOffTheorems.Progress` | src/RelayThread.cpp:10-27 | Every worker is claimable or destroyed, or a definite actor can step and brings it strictly closer to that, unless the step is the overflow |
| `HandOffTheorems.RankNeverGrows` | src/RelayThread.cpp:10-49 | No step of anybody undoes that progress |
| `HandOffTheorems.BlockedJoinIsServed` | src/RelayThreadPool.h:17-20 | A blocked `join` waits for a worker that has the job in flight |
| `HandOffProgress.SearchFindsFirstFree` | src/RelayThreadPool.cpp:8-10 | From where it stands a search locks the first worker that nobody holds, in as many steps as it has to look at workers |
| `HandOffProgress.SearchFindsAfterWrapping` | src/RelayThreadPool.cpp:7-10 | When all workers ahead are held it starts over and locks the first free one from the beginning |
| `HandOffProgress.SearchSucceeds` | src/RelayThreadPool.cpp:7-19 | So whenever some worker is free a search left to itself locks one within two rounds |
| `HandOffProgress.TickTakesMembers` | src/RoomManager.cpp:35-38 | A step that changes the ticks of a thread adds one tick: what that thread drained, for exactly the members that its room has at that moment |
| `HandOffProgress.TickBegins` | src/RoomManager.cpp:30-40 | A thread whose room has something pending takes all of it into a tick with all members, and leaves nothing pending |
| `HandOffProgress.EmptyRoundReturns` | src/RoomManager.cpp:30-37 | A round that finds nothing pending is back where it began and has changed nothing |
| `HandOffProgress.ThreadEndsWithRoom` | src/RoomManager.cpp:30 | A thread leaves its loop exactly when its room does not exist |
| `HandOffProgress.MembersStay` | src/PacketAccumulator.cpp:28-58 | A member stays one unless it is withdrawn, or its room is destroyed or made anew |
| `HandOffProgress.TickProgresses` | src/RoomManager.cpp:41-71 | Inside a tick every step of the thread brings its end nearer, but for a search past a busy worker, and only `join` can block |
| `HandOffProgress.OthersKeepTickRank` | src/RoomManager.cpp:41-71 | Nobody else moves a thread further from the end of its tick |
| `HandOffProgress.DestructorClaims` | src/RelayThread.cpp:31-33 | A destructor takes its worker as soon as nobody holds it, and the worker is never claimable again |
| `HandOffDelivery.WithoutDistinct` | src/PacketAccumulator.cpp:44-58 | Removing an identifier from a duplicate-free member list keeps exactly the other members, distinct, and leaves no entry of it |
| `HandOffDelivery.SendServes` | src/RoomManager.cpp:42-65 | A send serves its own member for the first time in the tick, and changes for no other member whether it has been served |
| `HandOffDelivery.StepKeepsDelivery` | src/RoomManager.cpp:30-71 | Every step keeps the books of accepted, pending, drained and sent packets balanced |
| `HandOffDelivery.ReachableDelivery` | src/RoomManager.cpp:30-71 | They balance after every run |
| `HandOffTheorems.PacketsAreConserved` | src/PacketAccumulator.cpp:126-136 | Accepted packets of a room are all drained or discarded batches followed by the pending ones, in order, each once |
| `HandOffTheorems.TicksDeliverBatches` | src/RoomManager.cpp:35-71 | Between ticks a thread has ticked over exactly the batches it drained, and each member was sent what those batches owe it in whose snapshot it appears |
| `HandOffTheorems.StreamIsAtMostATickBehind` | src/RoomManager.cpp:37-71 | At every moment a member's stream is a prefix of what the ticks owe it, lacking at most the last tick's part |
| `HandOffTheorems.ExpectedIsOwed` | src/RoomManager.cpp:37-66 | For a member of every snapshot the stream does not depend on where ticks cut the packets |
| `HandOffTheorems.WholeRunDelivery` | src/RoomManager.cpp:30-71 | For any stretch of a room's history that one thread drained, whatever came before and after, a member of all its snapshots was sent exactly the flattened payloads of the packets of other identifiers accepted in that stretch; a stretch up to the present ends with the last packet not pending |
| `RelayTypes.OwedIsFlattenedForeign` | src/RoomManager.cpp:55-62 | The accumulating loop's result is filter-then-flatten |
| `BufferAssembly.CountBytes` | src/RoomManager.cpp:44-52 | The count is the number of bytes owed; it leaves `int` exactly when more than `INT_MAX` bytes are owed |
| `BufferAssembly.Assemble` | src/RoomManager.cpp:42-62 | For every batch whose total fits an `int`: every copy stays inside the buffer, the final index is the count, and the buffer holds exactly what the member is owed |
| `BufferAssembly.Memcpy` | src/RoomManager.cpp:60 | Writes the stretch and nothing else |
| `RoomLifecycle.ReachableInv` | src/RoomManager.cpp:8-25 | The invariant over the two mutexes, the thread registry and the announcements holds after every run |
| `RoomLifecycle.OneThreadPerRoom` | src/RoomManager.cpp:21-25 | A room never has two threads that are not yet joined |
| `RoomLifecycle.CompletedIsConsistent` | src/RoomManager.cpp:80-83 | `m_completedThreads` has no duplicates and, outside a clean-up, names exactly the registered rooms whose thread has announced its end |
| `RoomLifecycle.ReapingNeverBlocks` | src/RoomManager.cpp:13-18 | The clean-up never joins a default-constructed thread and never waits in a join: that thread has ended and holds no lock |
| `RoomLifecycle.NoDeadlock` | src/RoomManager.cpp:9-24 | Whatever a call of `createRoom` waits for, the thread it waits for can step |
| `RoomLifecycle.DecideLeavesTickingThread` | src/RoomManager.cpp:21-25 | A call leaves a ticking thread for its room if and only if no registered thread of the room has already left its loop |
| `RoomLifecycleProgress.CleanUpTakesAll` | src/RoomManager.cpp:12-19 | When a clean-up gives the lock back, exactly the threads that have announced their end are joined, and no registered one has |
| `RoomLifecycleProgress.CallProgresses` | src/RoomManager.cpp:8-25 | Every step of a call of `createRoom` brings its end nearer; it waits for nothing but the two mutexes |
| `RoomLifecycleProgress.OthersKeepCallRank` | src/RoomManager.cpp:9-24 | Nobody sets back a call that has taken both |
| `RoomLifecycleProgress.ThreadEnds` | src/RoomManager.cpp:80-84 | A thread that has left its loop waits for nothing but the announcement mutex, whose holder can step, and every step brings its end nearer |
| `RelaySystem.RunProjects` | src/RoomManager.cpp:8-84 | Every run of the whole relay is a run of the hand-off machine and a run of the registry machine |
| `RelaySystemTheorems.OneTicksPerRoom` | src/RoomManager.cpp:21-25 | Two threads that tick for the same room are the same thread |
| `RelaySystemTheorems.ThreadsRunFreely` | src/RoomManager.cpp:30-78 | In the whole relay a room thread in its loop can do exactly what it can do in the hand-off machine |
| `RelaySystemTheorems.OthersRunFreely` | src/RoomManager.cpp:8-25 | So can workers, their destructors and the websocket thread inside `createRoom` |
| `RelaySystemTheorems.OneDrainerInALife` | src/RoomManager.cpp:30-35 | Between a room's creation and its destruction at most one thread takes its packets |
| `RelayEndToEnd.PlanIsHandler` | src/RelayServer.cpp:54-173 | A handler's lock sections, run in order with what each reads deciding the next, are the handler |
| `RelayEndToEnd.NextIgnoresPending` | src/RelayServer.cpp:128-158 | What room threads take between the sections makes no difference to what the handler reads and does next |
| `RelayEndToEnd.ReachableAgrees` | src/RelayServer.cpp:54-219 | However room threads and workers interleave with the sections, finishing the running handler gives what the handlers compute one after another from the same events, up to the packets already taken |
| `RelayEndToEnd.ConsistentBetweenHandlers` | src/RelayServer.cpp:54-219 | So the five collections are consistent between handlers in every interleaving |
| `RelayEndToEnd.MoonRoomsBetweenHandlers` | src/RelayServer.cpp:120-144 | In every interleaving in which no connection sends two moon keys, the rooms between handlers are those of the registered moons |
| `RelayEndToEnd.PlayerCapBetweenHandlers` | src/RelayServer.cpp:152-172 | In every interleaving the player cap holds between handlers |
| `RelayEndToEnd.AcceptedSoFar` | src/PacketAccumulator.cpp:16-26 | The packets accepted for a room are, in order, the accepted messages after their key, each under its sender's identifier |
| `RelayEndToEnd.MembersHearTheOthers` | src/RoomManager.cpp:30-71 | Over every interleaving: for any stretch of a room's life, a member of all its snapshots was sent exactly what the accepted messages of the others say in that stretch, in order |
| `RelayEndToEnd.FirstLifeHearsEverything` | src/RoomManager.cpp:30-71 | In a room never destroyed and with nothing pending, a member of all snapshots was sent everything the others said |
| `RelayEndToEnd.NobodyHearsMore` | src/RoomManager.cpp:30-71 | At every moment, inside ticks and handlers too, a member of all snapshots of a room's first life has been sent a prefix of what the others said |
| `RelayEnrolment.EnrolledTicks` | src/RoomManager.cpp:37-38 | Over every interleaving: a connection that is a member from some point of the run on is in every tick that the thread adds after it |
| `RelayEnrolment.EnrolledHearTheOthers` | src/RoomManager.cpp:30-71 | So whoever is enrolled from some point on was sent exactly what the accepted messages of the others say in any stretch drained after it |
| `RelayRuns.EventRuns` | src/RelayServer.cpp:54-173 | A handler that nobody interrupts runs to its end, does what the model's handler does, and starts a thread exactly where it creates a room that has none |
| `RelayRuns.RecreatedRoomStaysWithoutThread` | src/RoomManager.cpp:21-23 | A run of the whole relay after which a room exists, its moon is registered, and its only thread has ended |
| `RelayEndToEnd.FittingSystemIsDefined` | src/RoomManager.cpp:42-64 | Without an oversized tick the whole relay is free of undefined behaviour |
| `PacketAccumulation.PacketAccumulator.HasRoom` | src/PacketAccumulator.cpp:10-14 | Answers whether the room has pending packets on record |
| `PacketAccumulation.PacketAccumulator.AddPacket` | src/PacketAccumulator.cpp:16-42 | Is the packet section followed by the member section of the transition system, or nothing for an unknown room |
| `PacketAccumulation.PacketAccumulator.RemoveConnection` | src/PacketAccumulator.cpp:44-58 | Takes the identifier out of every member list and changes nothing else |
| `PacketAccumulation.PacketAccumulator.CreateRoom` | src/PacketAccumulator.cpp:60-76 | Adds an empty room unless it exists; a thread is asked for exactly when it did not |
| `PacketAccumulation.PacketAccumulator.DestroyRoom` | src/PacketAccumulator.cpp:78-90 | Removes packets and members of an existing room |
| `PacketAccumulation.PacketAccumulator.GetConnections` | src/PacketAccumulator.cpp:92-104 | A copy of the member list, empty for an unknown room |
| `PacketAccumulation.PacketAccumulator.GetConnectionCountWithoutConnection` | src/PacketAccumulator.cpp:106-124 | The number of members, not counting the identifier itself |
| `RelayServerFrames.CountIsOthers` | src/PacketAccumulator.cpp:113-123 | That count is the number of members that are not the asking one |
| `PacketAccumulation.PacketAccumulator.GetPackets` | src/PacketAccumulator.cpp:126-136 | Hands out the pending packets and leaves none, as in the transition system |
| `PacketAccumulation.FindMember` | src/PacketAccumulator.cpp:32-34 | The first entry of the identifier, or the end exactly when it is not enrolled |
| `PacketAccumulation.WithoutErasesFirst` | src/PacketAccumulator.cpp:50-56 | Erasing the entry that the search finds removes the identifier |
| `RelayServerModel.OtherMoonRemains` | src/RelayServer.cpp:70-77 | The scan finds a registered moon of the room if and only if there is one |
| `RelayServing.RelayServer.OnOpen` | src/RelayServer.cpp:54-58 | Computes the model's open handler |
| `RelayServing.RelayServer.OnClose` | src/RelayServer.cpp:60-93 | Computes the model's close handler |
| `RelayServing.RelayServer.OnMessage` | src/RelayServer.cpp:95-173 | Computes the model's message handler and its outcome for the answers of the key table |
| `RelayServing.RelayServer.ClaimIdentifier` | src/RelayServer.cpp:185-206 | Claims the highest free identifier of 1..65534 and returns 0 if and only if none is free |
| `RelayServing.RelayServer.GetIdentifier` | src/RelayServer.cpp:175-183 | The mapped identifier, 0 for an unmapped handle |
| `RelayServing.RelayServer.ReleaseIdentifier` | src/RelayServer.cpp:208-219 | Forgets handle and identifier, leaves the rest |
| `RelayServerTheorems.RunsStayConsistent` | src/RelayServer.cpp:54-219 | Over every run of opens of unmapped handles, closes, messages and ticks: the handle map is injective with the reserved identifiers as its duplicate-free values, packets and member lists have the same rooms, members are distinct and reserved, and the room of every registered moon exists |
| `RelayServerTheorems.OpenKeepsConsistent` | src/RelayServer.cpp:185-206 | Opening keeps that consistency; the handle gets an identifier if and only if one is free, and a recycled identifier starts as member or moon of no room |
| `RelayServerTheorems.CloseKeepsConsistent` | src/RelayServer.cpp:60-93 | Closing keeps it and forgets the identifier in every room and in the moon map |
| `RelayServerTheorems.MessageKeepsConsistent` | src/RelayServer.cpp:95-173 | A message keeps it, whatever the key table answers |
| `RelayServerTheorems.LeaveAsMoonKeepsMoons` | src/RelayServer.cpp:64-85 | A leaving moon never destroys the room of a remaining one |
| `RelayServerFrames.OpenLeavesOthers` | src/RelayServer.cpp:54-58 | An open maps and reserves at most its own identifier and touches no moon and no room |
| `RelayServerFrames.CloseForgetsOne` | src/RelayServer.cpp:60-93 | A close takes its own handle, identifier and moon entry, and nobody else's |
| `RelayServerFrames.CloseLeavesOthers` | src/RelayServer.cpp:66-89 | A close destroys a room if and only if it was that of a last moon; every other room keeps its pending packets and all its members but the one that left |
| `RelayServerTheorems.CloseKeepsMoonRooms` | src/RelayServer.cpp:60-93 | Closing keeps the existing rooms equal to the rooms of registered moons |
| `RelayServerTheorems.RegisterAndMoonRooms` | src/RelayServer.cpp:120-144 | A registration keeps them equal if and only if it does not take the last moon from another room |
| `RelayServerTheorems.MessageAndMoonRooms` | src/RelayServer.cpp:120-144 | A message breaks the equality if and only if it abandons a room in that way |
| `RelayServerTheorems.LoyalRunsMatchRoomsAndMoons` | src/RelayServer.cpp:64-85 | Over every run without such a message the existing rooms are exactly those of the registered moons |
| `MoonKeys.OneMoonKeyEachMatchesRooms` | src/RelayServer.cpp:120-144 | Over every run in which no connection sends two different moon keys the existing rooms are exactly the image of the moon map |
| `MoonKeys.RunsRemember` | src/RelayServer.cpp:122-125 | In every run the room of a registered moon is the moon key its connection last sent |
| `MoonKeys.MessageMoons` | src/RelayServer.cpp:120-125 | A message registers its sender as moon of the room if it carries a moon key, and changes no other entry and no identifier |
| `RelayServerTheorems.TwoMoonKeysOrphanARoom` | src/RelayServer.cpp:124 | A run with two moon keys on one connection after which a room without a moon remains, even when the connection closes |
| `RelayServerTheorems.PacketCarriesMessage` | src/RelayServer.cpp:163-171 | The stored packet's payload is the message after its key; the 16-bit length loses nothing |
| `RelayServerTheorems.AcceptedMessageIsQueued` | src/RelayServer.cpp:147-172 | An accepted message adds exactly its bytes after the key, under the sender's identifier, to its room and no other, and makes the sender a member |
| `RelayServerFrames.AcceptedIff` | src/RelayServer.cpp:95-172 | A message is accepted if and only if its connection is known, it has a key that opens a room and a payload that fits, and it is the moon's own or its room exists with fewer other members than the limit |
| `RelayServerFrames.RefusedBecause` | src/RelayServer.cpp:101-161 | What holds of a message that each guard refuses |
| `RelayServerFrames.AcceptedMembers` | src/PacketAccumulator.cpp:28-41 | An accepted message enrols its sender, with its handle, unless the identifier is a member, and changes no other membership |
| `RelayServerTheorems.RefusedMessageChangesNoRoom` | src/RelayServer.cpp:101-161 | Any other outcome leaves the packets and members of every room unchanged; only an oversized moon message may have created an empty room |
| `RelayServerTheorems.RunsKeepPlayerCap` | src/RelayServer.cpp:152-172 | While a room's limit is L, no run lets in more than L members by the player key, and the membership is at most L plus those let in as moons |
| `RelayServerTheorems.TicksAreInvisible` | src/PacketAccumulator.cpp:126-136 | A room thread's swap commutes, up to pending contents, with every lock section of the handlers |
| `RelayServerTheorems.HandlersIgnorePending` | src/RelayServer.cpp:54-173 | States that differ in pending contents only give the same outcomes and stay that way |
| `ContiguousQueues.LinksVisitEverySlotOnce` | src/ContiguousQueue.h:72-98 | In a well-linked queue the next-links from the first slot visit every slot once, the occupied ones being those up to the current one |
| `ContiguousQueues.ResizeKeepsLinks` | src/ContiguousQueue.h:122-157 | Growing a full or empty queue keeps its contents and appends the new slots as free ones |
| `ContiguousQueues.PushAppends` | src/ContiguousQueue.h:41-70 | On a well-linked queue the asserts of push hold, the entry comes last, and the vector grows only when full, by doubling (to 10 from nothing) |
| `ContiguousQueues.PopTakesOldest` | src/ContiguousQueue.h:34-39 | pop returns the oldest entry and leaves the rest; the queue stays well linked if and only if it does not become empty |
| `ContiguousQueues.UnlinkedSlots` | src/ContiguousQueue.h:73-86 | What the pointer surgery does to every slot when the first of at least two entries goes |
| `ContiguousQueues.RunsAreFifo` | src/ContiguousQueue.h:34-98 | On every push/pop run that empties the queue at most with its last operation, no assert fails, entries come out as from a plain sequence, and `reserved()` is at most the initial capacity or twice the peak size |
| `ContiguousQueues.RunsFromNewAreFifo` | src/ContiguousQueue.h:10-16 | The same from the constructor, for every initial size |
| `ContiguousQueues.EmptyingOnceCanBreakTheQueue` | src/ContiguousQueue.h:82-96 | From every capacity of at least 3, a run that empties the queue once fails the assert on line 92 with two entries queued |
| `ContiguousQueueRuns.ExactlyTheSurvivors` | src/ContiguousQueue.h:34-98 | From any layout that a mode describes, a run trips no assert if and only if it survives, and then its pops give what a plain queue gives |
| `ContiguousQueueRuns.FifoIffSurvives` | src/ContiguousQueue.h:34-98 | From the constructor, for every initial size and every run without underflow: first-in-first-out if and only if the run survives, otherwise an assert fails |
| `ContiguousQueueRuns.FilledRunsSurvive` | src/ContiguousQueue.h:34-98 | Runs that empty the queue at most with their last operation survive |
| `ContiguousQueueRuns.WholeTurns` | src/ContiguousQueue.h:72-98 | What a pop from several entries makes of the list when the first slot's predecessor link is stale: how many slots remain reachable and where the stale link points next |
| `ContiguousQueues.ContiguousQueue.Push` | src/ContiguousQueue.h:41-70 | The object computes the push that the lemmas speak about, failing exactly where it does |
| `ContiguousQueues.ContiguousQueue.Pop` | src/ContiguousQueue.h:34-39 | The same for pop |
| `ContiguousQueues.ContiguousQueue.Remove` | src/ContiguousQueue.h:72-98 | The same for remove, at any index |
| `ContiguousQueues.ContiguousQueue.Resize` | src/ContiguousQueue.h:122-157 | The same for resize, with its loop over the new slots |
| `KeyFile.DecimalRoundTrip` | src/APIServer.cpp:70 | Reading back the decimal text of a number gives the number |
| `KeyFile.KeyFileRoundTrip` | src/APIServer.cpp:70 | A written key file parses to the same keys and limit through the table's and the `/get` parser, for all 4-character keys without line ends and all limits of an `int` |
| `KeyFile.ParsersAgree` | src/APIServer.cpp:106-123 | The `/get` parser agrees with the table's exactly on the contents the table accepts, or when both refuse |
| `KeyFile.RelimitKeepsKeys` | src/APIServer.cpp:205-211 | Rewriting a limit keeps both keys and sets the limit |
| `KeyFile.LimitTextSettles` | src/KeyManager.cpp:29-40 | Whatever limit text was sent, the limit stored for it reads back as the same limit |
| `KeyFile.LimitSaysNumber` | src/KeyManager.cpp:31-39 | A text of zeros and a decimal number gives that number up to `INT_MAX`, the default beyond |
| `KeyFile.OtherTextGivesDefault` | src/KeyManager.cpp:29-39 | Every text that is not zeros and a number up to `INT_MAX` gives the default |
| `KeyFile.FieldsOfFile` | src/KeyManager.cpp:22-40 | Which characters of a file are which key and which the limit, whatever stands between; a file of nine characters has the default limit |
| `KeyFile.CutFile` | src/APIServer.cpp:205-211 | `/get` and `/limit` take what there is of a player key that the file cuts short |
| `KeyFile.StripDropsLineEnds` | src/Helpers.cpp:40-41 | Reading drops the line ends and no other character |
| `KeyFile.StripConcat` | src/Helpers.cpp:40-41 | It keeps the order: two texts one after the other are read one after the other |
| `KeyManagement.FindIsFirst` | src/KeyManager.cpp:53-63 | The lookup gives the first entry that the key opens, or nothing when no entry does |
| `KeyManagement.KeyManager.RefreshKeys` | src/KeyManager.cpp:11-51 | The table becomes the accepted files' entries in directory order |
| `KeyManagement.KeyManager.GetRoom` | src/KeyManager.cpp:53-63 | The moon key of the first entry that the key opens, or the empty room |
| `KeyManagement.KeyManager.GetPlayerLimit` | src/KeyManager.cpp:65-75 | The limit of that entry, or 0 |
| `KeyManagement.KeyManager.HasKey` | src/KeyManager.cpp:77-87 | Whether any entry is opened by the key |
| `KeyManagement.DistinctKeysAnyOrder` | src/KeyManager.cpp:56-60 | In a table without shared keys, both keys of any entry find it, wherever it stands |
| `ApiService.FirstFreeIsFirst` | src/APIServer.cpp:45-54 | The loop takes the first draw that is not taken, or gives up after 1024 taken ones |
| `ApiService.ChosenPairIsNew` | src/APIServer.cpp:43-67 | The chosen keys are the first draws that are new to the store, and differ; failure means that one search met only taken keys |
| `ApiService.KnownIsStoreKey` | src/KeyManager.cpp:77-87 | The table knows a key if and only if a file of the store holds it, for any directory order |
| `ApiService.ApiServer.ChooseKey` | src/APIServer.cpp:45-54 | The do-while loop computes that first free draw |
| `ApiService.ApiServer.HandleCreate` | src/APIServer.cpp:39-78 | Computes the model's create on the file that the id names, wherever it lies, and reloads the table |
| `ApiService.ApiServer.HandleDelete` | src/APIServer.cpp:143-164 | Computes the model's delete: with Ok the file is gone, otherwise nothing has changed; the status says which guard refused |
| `ApiService.ApiServer.HandleLimit` | src/APIServer.cpp:181-216 | Computes the model's limit change; the status says which guard refused |
| `ApiService.ApiServer.HandleGet` | src/APIServer.cpp:95-126 | The keys and limit of the file, an empty answer for a missing one, an exception for one too short for `substr` |
| `ApiService.CreateKeepsStoreOk` | src/APIServer.cpp:39-73 | Creating keeps all keys of the key directory pairwise distinct and its files well formed, also when the file lies outside |
| `ApiService.SetLimitKeepsStoreOk` | src/APIServer.cpp:194-211 | So does changing a limit, which changes nothing else |
| `ApiService.DeleteKeepsStoreOk` | src/APIServer.cpp:143-159 | So does deleting |
| `ApiService.OtherFilesKeepText` | src/APIServer.cpp:70-211 | No request changes a file other than the one that it names, and a refused request changes none |
| `ApiService.DeletedIsGone` | src/APIServer.cpp:143-159 | A delete removes its file and no other |
| `ApiService.DeletedKeysAreFree` | src/APIServer.cpp:143-159 | It takes the two keys of the file out of the store and no other key |
| `ApiService.DeleteClosesOneRoom` | src/APIServer.cpp:143-159 | After a delete and a refresh, in any order of the directory, both keys of the file give the empty room; every other key gives the room and limit that it gave before |
| `ApiService.RunsKeepKeysDistinct` | src/APIServer.cpp:39-217 | So does every run of requests from an empty store |
| `ApiService.InsideRunsShareNoKey` | src/APIServer.cpp:39-217 | After any run whose created files lie in the key directory, no two files at all share a key |
| `ApiService.CreatedKeysAreTaken` | src/APIServer.cpp:39-73 | After a create the store knows the new keys if and only if the file lies in the key directory; otherwise it says what it said, and the same draws give the same pair |
| `ApiService.CreatedKeysOpenTheirRoom` | src/APIServer.cpp:70-73 | The keys of a created file open its room if and only if the file lies in the key directory; otherwise they give the empty room |
| `ApiService.EscapedKeysRepeat` | src/APIServer.cpp:45-70 | From any good store, creating a file outside the directory and then one inside with the same draws writes the same keys twice |
| `ApiService.UpEscapes` | src/APIServer.cpp:70 | An id `../x`, with x plain, names a file outside the key directory |
| `ApiService.DetoursReachTheSameFile` | src/APIServer.cpp:70 | Leading `./`, `/` and `../keys/` reach the file that the rest of the id names |
| `ApiService.LookupIgnoresDirectoryOrder` | src/KeyManager.cpp:11-75 | After a refresh in any directory order both keys of a file give its moon key and its limit |
| `ApiService.UnknownKeysGiveEmptyRoom` | src/KeyManager.cpp:53-63 | Exactly the keys of no file give the empty room |
| `ApiService.ListingsAnswerAlike` | src/KeyManager.cpp:11-87 | After any run of requests whose ids the model places, any two directory orders give the same room and limit for every key |
| `BufferCursors.CursorIsUnique` | libs/asio/include/asio/buffers_iterator.hpp:167-203 | A flat position has one normalised cursor |
| `BufferCursors.CursorReadsFlat` | libs/asio/include/asio/buffers_iterator.hpp:341-345 | The byte at that cursor is the flat byte at the position |
| `BufferCursors.BuffersIterator.Begin` | libs/asio/include/asio/buffers_iterator.hpp:167-184 | The normalised cursor of position 0, whatever leading buffers are empty |
| `BufferCursors.BuffersIterator.End` | libs/asio/include/asio/buffers_iterator.hpp:187-203 | The normalised cursor of the total size |
| `BufferCursors.BuffersIterator.Dereference` | libs/asio/include/asio/buffers_iterator.hpp:341-345 | The flat byte at the position |
| `BufferCursors.BuffersIterator.Increment` | libs/asio/include/asio/buffers_iterator.hpp:354-374 | Ends on the normalised cursor one further |
| `BufferCursors.BuffersIterator.Decrement` | libs/asio/include/asio/buffers_iterator.hpp:377-404 | Ends on the normalised cursor one back |
| `BufferCursors.BuffersIterator.Advance` | libs/asio/include/asio/buffers_iterator.hpp:407-485 | Ends on the normalised cursor n further, or back for negative n |
| `BufferCursors.BuffersIterator.Element` | libs/asio/include/asio/buffers_iterator.hpp:218-223 | The flat byte at the offset position; the iterator itself stays |
| `BufferCursors.BuffersIterator.Walk` | libs/asio/include/asio/buffers_iterator.hpp:340-491 | Every in-bounds sequence of single steps and advances ends on the normalised cursor of the summed distance |
| `BufferCursors.BuffersIterator.ThereAndBack` | libs/asio/include/asio/buffers_iterator.hpp:407-485 | Advancing by n and then by -n restores the cursor |
| `BufferCursors.EqualIteratorsAgree` | libs/asio/include/asio/buffers_iterator.hpp:348-351 | Iterators that compare equal have the same cursor, so n single steps and one advance by n agree |
| `BufferCopying.BufferSize` | libs/asio/include/asio/buffer.hpp:558-573 | The number of addresses the sequence covers |
| `BufferCopying.BufferCopy1` | libs/asio/include/asio/buffer.hpp:2173-2183 | Copies the smaller size, byte by byte equal, and changes nothing else |
| `BufferCopying.CopyOneOne` | libs/asio/include/asio/buffer.hpp:2185-2191 | One to one: copies the minimum of both sizes as a flat prefix |
| `BufferCopying.CopyOneOneMax` | libs/asio/include/asio/buffer.hpp:2193-2201 | The same with a bound |
| `BufferCopying.CopyOneMany` | libs/asio/include/asio/buffer.hpp:2203-2224 | Gathers many into one: minimum of target, source total and bound, as a flat prefix |
| `BufferCopying.CopyManyOne` | libs/asio/include/asio/buffer.hpp:2226-2247 | Scatters one into many, likewise |
| `BufferCopying.CopyManyMany` | libs/asio/include/asio/buffer.hpp:2249-2291 | Many to many: minimum of the totals as a flat prefix; terminates with empty buffers anywhere |
| `BufferCopying.CopyManyManyMax` | libs/asio/include/asio/buffer.hpp:2293-2339 | The same with a bound |
| `BufferCopying.RestAdvances` | libs/asio/include/asio/buffer.hpp:2273-2287 | Moving past a buffer exactly when it is used up keeps index and offset in step with the bytes copied |
| `BufferCopying.CopyIsFlatPrefix` | libs/asio/include/asio/buffer.hpp:2262-2290 | A copy makes the target's flat prefix the source's, keeps the rest of the target and all of the source |
| `StreamBuffers.StreamBuffer.Size` | libs/asio/include/asio/basic_streambuf.hpp:158-161 | The bytes committed and not consumed, at most the maximum |
| `StreamBuffers.StreamBuffer.Reserve` | libs/asio/include/asio/basic_streambuf.hpp:308-346 | Succeeds if and only if the data and n more fit the maximum, keeps the data through shift and growth and makes room for n; a failure leaves the shifted bytes under unmoved pointers |
| `StreamBuffers.StreamBuffer.Prepare` | libs/asio/include/asio/basic_streambuf.hpp:214-219 | The same, exposing n writable bytes after the data |
| `StreamBuffers.StreamBuffer.Commit` | libs/asio/include/asio/basic_streambuf.hpp:233-238 | Appends the first n bytes of the output area, or all of it, to the data; exact if and only if that many fit an `int` |
| `StreamBuffers.StreamBuffer.Consume` | libs/asio/include/asio/basic_streambuf.hpp:247-254 | Drops the first n bytes of the data, or all of them; exact if and only if that many fit an `int` |
| `StreamBuffers.ShiftedData` | libs/asio/include/asio/basic_streambuf.hpp:322-340 | What `data()` reads after a failed reserve |
| `StreamBuffers.ShiftedIsUnchanged` | libs/asio/include/asio/basic_streambuf.hpp:322-340 | A failed reserve leaves the data as it was if and only if the shift is no less than its size or it repeats with the shift as period |
| `StreamBuffers.FailedPrepareChangesData` | libs/asio/include/asio/basic_streambuf.hpp:322-340 | A run on which a failed prepare turns `bc` into `cc` |
| `StreamBuffers.ToIntIsExact` | libs/asio/include/asio/basic_streambuf.hpp:236 | The cast to `int` is exact if and only if the count is at most `INT_MAX` |
| `StreamBuffers.LargeCommitMovesBack` | libs/asio/include/asio/basic_streambuf.hpp:233-238 | Committing 2 GiB at once moves the put pointer backwards |
| `StreamBuffers.LargeConsumeMovesBack` | libs/asio/include/asio/basic_streambuf.hpp:247-254 | Consuming 2 GiB at once moves the get pointer backwards |

## Left out

- Sockets, websocketpp, httplib, logging, clocks, `sleep_for` and the file system. A send is an entry of a log, whether or not the handle is still open (src/RelayServer.cpp:41-52); files are a map from id to text; closing a connection for cause is an outcome of the handler.
- Semaphore internals: `acquire`, `release` and `try_acquire` are atomic steps on one bit; spurious wake-ups and `notify_one` are not part of this model. The semaphores have no class of their own because a blocking method has no sequential meaning; they are the bits of the transition system.
- The worker, pool and tick loops are a transition system rather than classes with loops, so that steps can interleave. The hand-off machine alone lets accumulator sections and room threads occur in any number and order; `RelaySystem` restricts it to what the server does.
- Random keys: the draws are a parameter of `/create`, any sequence of 4-character alphanumeric keys. Requests without the secret or a required field are refused before they touch the state. Concurrent `/create` requests and hand-edited files are excluded.
- `ApiService.ApiServer.HandleCreate`: places ids that name a file of the key directory, directly or through leading `./`, `/` or `../keys/`, and ids that lead out of it by `../`. Ids into subdirectories, with NUL, or that the file system refuses are not modelled; the theorems on runs leave them out.
- Delivery is stated per identifier, not per human client: pending packets keep the identifier of a closed connection that a new one may get.
- A handler of `RelaySystem` has the key table's two answers from its beginning, as part of the event; they are arbitrary.
- `HandOffTheorems.WholeRunDelivery`: states what has been sent between ticks; in the middle of a tick some members have been served and some not. Like all theorems about the pool it speaks of states before any undefined behaviour.
- `RelayServerTheorems.RunsStayConsistent`: opens are of handles that are not mapped yet; websocketpp gives each connection one handle.
- `RelayServing.RelayServer.OnMessage`: the object reads one key table during a message; a refresh between its two lookups is covered by the model's arbitrary answers, not by the object.
- `BufferAssembly.Assemble`: a batch beyond `INT_MAX` bytes overflows a signed counter, which is undefined; the method then only reports it, and the transition system crashes.
- `ContiguousQueues.RunsAreFifo`: the capacity bound is stated for runs that do not empty the queue before their last operation; `FifoIffSurvives` covers the order on all other runs. Removing a middle slot is not covered, nor widths of `long long` and `int`, nor the moved-from state of entries.
- `StreamBuffers.StreamBuffer.Reserve`: after the failing path no further operation is modelled. `underflow` and `overflow` are left out, they only add single characters through `reserve` and `pbump`.
- `BufferCursors.BuffersIterator.Advance`: only in-bounds moves; the asserts of the source exclude the others. Differences of `ptrdiff_t` width are not modelled.
- `BufferCopying.CopyManyMany`: buffers must not overlap and the target must not name an address twice, which `memcpy` demands; `size_t` wrap-around of the totals is not modelled.
- The rest of Asio, and the wiring in `src/main.cpp` and `src/WebsocketServer.cpp`.
