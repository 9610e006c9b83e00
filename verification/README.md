# Verified model of the realtime game server

The server is a Windows completion-port game server. This project models the parts of it that keep
state of their own and proves what they keep, over every run:

* **Receiving.** A fixed receive buffer with two cursors, compacted in place (`RecvBuffers`), a drain
  loop with a size guard and a rate guard (`Connections`), and the framing of the byte stream
  (`Frames`, `Receiver`). What the handlers get is exactly the longest passing prefix of the frames
  of the whole stream, however it was cut into receive completions.
* **Limiting.** The per-session token bucket, which rounds and forgets remainders, lies between two
  ideal fluid buckets (`TokenBucket`), with consequences for whole sessions (`DeliveryRate`);
  `ExactRates` says for exactly which rates it is as good as its ideal. The server-wide connection
  limiter has an exact worst case and an exact condition under which its advertised cap holds
  (`GlobalLimiter`).
* **Rooms.** A room is a timed state machine driven by queued jobs and a tick. `RoomModel` says what
  each job and tick does, `RoomHistory` what a room's history means, `RoomSafety` what every step
  keeps. `HistoryLaws` proves that a room is what its history says, and what each step adds to it.
  `GameRooms` is the room object in place, proved against `RoomModel`.
* **The room world.** `World` puts registry, sessions' room pointers, packet handlers, tick thread and
  idle-room collector into one transition system; `WorldSafety` and `WorldTheorems` prove that no room
  pointer dangles and that the collector never loses a live reconnect slot; `IdleRooms` says exactly
  which rooms it removes, and `Requests` that rooms run exactly what was asked of them. `ReconnectWindow`,
  `ReadyStart` and `Occupancy` say for exactly which settings the server keeps its promises about
  reconnect slots, starts and room limits; `DeadMembers` says exactly when a closed session stays a
  member for good. They use `SmallRooms`, rooms in which no game is possible, and `Stories`, concrete
  runs in which only connected sessions act. `Handlers` has what requests and jobs undo of each other,
  `Servers` the handlers, the collector and the tick of all rooms in place.
* **Resources.** The life of send contexts (`SendContexts`, told from the requests in `SendTraces`, and in
  place in `ObjectPools` and `SendPaths`), session ids and connection counters (`SessionRegistry`), the token-validation queue
  (`AuthQueue`), and the room list on the wire (`RoomListWire`).

Every system is a state, an event type and a step function under which an event that is not possible
changes nothing, so that every list of events is a run. Verify with `dafny verify dfyconfig.toml`.

Assumptions:

* A job, a tick's tail, a collector pass, and each "look up a room, then push a job on it" is one
  atomic step with one clock reading. The code does not lock these against each other: `TickAll` works
  on raw room pointers taken under the lock but used outside it (Game/RoomManager.cpp:33-41), and the
  collector runs on another thread. Interleavings inside such a step are not part of this model.
* Clocks never run backwards and are positive; the connection limiter reads the system clock.
* Integers are unbounded. `unordered_set` and `unordered_map` may yield their elements in any order.
* Message contents of the protobuf library are opaque.

Where code and documentation differ, the model follows the code:

* The repository's README says new connections are limited per minute; the code can admit twice the
  limit in one minute, and more with every policy applied (`GlobalLimiter.MinuteBoundIsAttained`,
  `GlobalLimiter.CapHoldsExactly`).
* Utils/Config.h:32 gives the packet limit as a rate with a burst of twice the rate. At the default of
  100 a second, traffic within that can be refused and traffic beyond it can pass (`ExactRates`).
* The comment on the start condition (Game/GameRoom.h:233) says all players are ready; the code compares
  two sizes. The two agree at a start if and only if nobody from outside the room is marked ready then
  (`ReadyStart.StartIsFairExactly`, `ReadyStart.FairRunsExactly`), and at every start of every run only
  for settings under which no game can start at all (`ReadyStart.StartsAreFairExactly`).
* A full room turns sessions away (Game/GameRoom.h:86-92), but not those that rejoin: whatever the
  limit, if it is two or more, some run exceeds it (`Occupancy.LimitHoldsExactly`).
* `S_ROOM_LIST` entries end in a state byte, as in Packet/Logic/Logic.cpp:186 but not in
  Packet/PacketID.h:28-30.

## Model

| member | source | states |
|---|---|---|
| Frames.ParseIsTheOnlyFraming | Packet/RecvBuffer.cpp:15-37 | The parse of a stream is its one and only division into whole frames and a remainder without a whole frame |
| Frames.ParseResumes | Packet/RecvBuffer.cpp:15-47 | Parsing may stop after any byte and resume from the remainder with more bytes |
| Frames.LengthField | Packet/RecvBuffer.cpp:15-37 | The length of a frame is the first little-endian field of its header, plus four |
| RecvBuffers.RecvBuffer.constructor | Packet/RecvBuffer.cpp:5-8 | A new buffer is empty |
| RecvBuffers.RecvBuffer.Fill | Core/ServerCore.cpp:365-374 | The kernel's write at the offered place leaves the pending bytes alone |
| RecvBuffers.RecvBuffer.Write | Packet/RecvBuffer.cpp:10-13 | Moving the write cursor appends exactly the received bytes to the pending ones |
| RecvBuffers.RecvBuffer.TryGetPacket | Packet/RecvBuffer.cpp:15-37 | Finds a packet exactly when a whole frame is pending, and then that frame |
| RecvBuffers.RecvBuffer.Pop | Packet/RecvBuffer.cpp:39-47 | Drops the first bytes of the pending ones; an emptied buffer starts over at the front |
| RecvBuffers.RecvBuffer.GetWriteBufferPtr | Packet/RecvBuffer.cpp:54-66 | Keeps the pending bytes; no space is offered exactly when they fill the whole buffer |
| RecvBuffers.RecvBuffer.Compact | Packet/RecvBuffer.cpp:68-76 | The overlapping move to the front of the same array keeps the pending bytes |
| Connections.Connection.HandleRecv | Core/ServerCore.cpp:383-418 | Refines one step of the pure receiver, and never posts a receive after a refusal or disconnect |
| Connections.Connection.DrainBuffer | Core/ServerCore.cpp:392-415 | The loop ends, with a refusal or with no whole frame left, having done what the pure drain does |
| Connections.Connection.GuardAndDeliver | Core/ServerCore.cpp:397-414 | Size guard before rate guard; a refused frame is neither delivered nor removed |
| Connections.Connection.PostRecv | Core/ServerCore.cpp:356-381 | Posts exactly when the session is connected and WSARecv does not refuse at once, which ends the session; keeps the pending bytes |
| Connections.Connection.CompleteReceive | Core/ServerCore.cpp:454-470 | Afterwards a receive is outstanding exactly when the session is connected; a failed or empty completion disconnects; zero bytes are offered only if the pending frame declares more than the capacity |
| Connections.Connection.ServeNext | Core/ServerCore.cpp:454-470 | One receive of as much of the stream as the network chooses, or of nothing, which ends the session |
| Connections.Connection.Serve | Core/ServerCore.cpp:435-470 | Whatever the network does, the receive loop ends, and what the handlers got is the longest passing prefix of the frames of the bytes that arrived |
| Receiver.GuardedDelivery | Core/ServerCore.cpp:383-418 | On every run the packets delivered are the longest prefix of all frames of the stream that passes both guards, and no byte is lost while the session is open |
| Receiver.ChunkingIndependence | Core/ServerCore.cpp:383-418 | The cut of the stream into completions changes nothing |
| Receiver.UnguardedDelivery | Core/ServerCore.cpp:395-415 | Without cause for a guard to fire, exactly the frames of the stream are delivered |
| Receiver.RefusalIsFinal | Core/ServerCore.cpp:397-411 | Bytes after a refusal change nothing |
| Receiver.GuardedPrefixIsUnique | Core/ServerCore.cpp:395-415 | There is only one longest passing prefix |
| TokenBucket.RateLimiter.InitRateLimit | Core/ServerSession.h:83-91 | Starts full with twice the rate |
| TokenBucket.RateLimiter.CheckRateLimit | Core/ServerSession.h:93-114 | Refills and takes a token as the pure bucket does |
| TokenBucket.CheckBounds | Core/ServerSession.h:101-111 | A refill is worth at most what accrued and at least half of it, and happens exactly when a whole token has accrued |
| TokenBucket.UpperSimulation | Core/ServerSession.h:83-114 | Whatever is accepted, an ideal fluid bucket of the same rate with room for burst + 1 accepts too |
| TokenBucket.WindowBound | Core/ServerSession.h:83-114 | Any stretch of accepted packets has at most burst + 1 + rate * T / 1000 of them |
| TokenBucket.LowerSimulation | Core/ServerSession.h:83-114 | Traffic that an ideal fluid bucket of half the rate and the same burst accepts is never refused |
| TokenBucket.SteadyClientIsNeverRefused | Core/ServerSession.h:83-114 | A gap worth one token between packets is enough never to be refused |
| TokenBucket.NothingWithoutRate | Core/ServerSession.h:93-114 | A configured rate of zero or less refuses everything |
| ExactRates.ConformingIsAcceptedExactly | Core/ServerSession.h:101-111 | All traffic within the configured rate and burst is accepted if and only if the rate is zero or less or a multiple of 1000 |
| ExactRates.UnevenRateRefuses | Core/ServerSession.h:107-110 | For every other rate, traffic within rate and burst whose last packet is refused: refills have forgotten a whole token |
| ExactRates.AcceptedIsConformingExactly | Core/ServerSession.h:101-111 | Nothing beyond the configured rate and burst is accepted if and only if the rate is zero or less or at least 1000 |
| ExactRates.SlowRateOverfills | Core/ServerSession.h:101-106 | For every rate in between, accepted traffic that exceeds rate and burst |
| DeliveryRate.DeliveredPacketsAreBounded | Core/ServerCore.cpp:395-415 | However the stream arrives, the packets handlers see in any stretch of time are bounded by burst + 1 and the rate |
| DeliveryRate.SteadyClientLosesNothing | Core/ServerCore.cpp:395-415 | A client within the size limit and with one token's time between packets loses nothing and stays connected |
| GlobalLimiter.GlobalConnectionLimiter.ConsumeGlobalConnectionToken | Core/ServerCore.cpp:555-575 | Consumes as the pure limiter does |
| GlobalLimiter.GlobalConnectionLimiter.RefreshTrafficPolicy | Core/ServerCore.cpp:603-615 | Applies a pulled policy as the pure limiter does |
| GlobalLimiter.AdmittedWithoutReset | Core/ServerCore.cpp:573-574 | Between resets exactly the tokens left are handed out |
| GlobalLimiter.LimitMeaning | Core/ServerCore.cpp:603-615 | The limit in force is that of the last policy that took effect; null, or no policy so far, means there is none |
| GlobalLimiter.AdmittedWithoutLimit | Core/ServerCore.cpp:555-560 | A freshly started server admits every connection, and so does one whose last limit was taken back, until a policy sets one |
| GlobalLimiter.AdmittedAfterPolicy | Core/ServerCore.cpp:603-615 | A policy hands out its number of connections for the minute after it, whatever was left before |
| GlobalLimiter.MinuteBound | Core/ServerCore.cpp:555-615 | In any minute of any run, at most limit * (2 + policies applied) connections are admitted; pulls that change nothing do not count |
| GlobalLimiter.MinuteBoundIsAttained | Core/ServerCore.cpp:555-615 | For every limit and number of policies some run admits exactly that many |
| GlobalLimiter.CapHoldsExactly | Core/ServerCore.cpp:565-574 | While no policy is applied the per-minute cap holds for a minute if and only if no tokens are left over, or a reset has just happened or is due at once |
| RoomListWire.EncodeRoomList | Packet/Logic/Logic.cpp:181-202 | The appending loops build the encoding of the list |
| RoomListWire.RawFrameIsOneFrame | Core/ServerSession.cpp:102-123 | What is sent parses as one whole frame with the given id and payload |
| RoomListWire.RawFrameHeader | Core/ServerSession.cpp:114-116 | The header is payload size, then packet id, both little-endian |
| RoomListWire.Layout | Packet/Logic/Logic.cpp:185-202 | Every field of every entry lies where the documented format says, little-endian, with nothing between or after |
| RoomListWire.RoomListRoundTrip | Packet/Logic/Logic.cpp:181-206 | A list that passes the size guard is recovered from the wire up to counts modulo 65536, and exactly if and only if its counts fit |
| RoomListWire.DecodedEncodes | Packet/Logic/Logic.cpp:185-202 | Any payload that decodes is the encoding of what it decodes to |
| ObjectPools.IOContext.Reset | Core/ServerSession.cpp:15-23 | Recycling replaces type and owner and lets go of the shared buffer, the send range and the accept socket |
| ObjectPools.ObjectPool.Allocate | Utils/ObjectPool.h:31-42 | Hands out the oldest pooled context or a new one, never one that is out, and touches no other |
| ObjectPools.ObjectPool.Deallocate | Utils/ObjectPool.h:44-49 | Takes back a context that is out, at the end of the queue; ignores null |
| SendContexts.Conservation | Core/ServerSession.cpp:53-151 | On every run created = free + in use, no duplicates, one return for each allocation no longer in use |
| SendContexts.NetworkTakesWhatWasPosted | Core/ServerSession.cpp:65-83 | The network always takes the message of the latest allocation, for its session |
| SendContexts.PostReturnsExactly | Core/ServerSession.cpp:132-151 | Posting returns the context if and only if the session is closed or the send fails at once |
| SendContexts.CompletionReturnsOnce | Core/ServerCore.cpp:454-476 | A delivered completion returns its context, once |
| SendTraces.BeginTakes | Core/ServerSession.cpp:53-123 | A request for a send takes the oldest pooled context or a new one for exactly its message, unless the session is closed or the message does not fit |
| SendTraces.SentIsTaken | Core/ServerSession.cpp:65-83 | A message sent on an open session, if it fits, reaches the network as it is when posting and completion succeed |
| SendTraces.CompletionTakes | Core/ServerCore.cpp:454-475 | A successful completion gives the network session and message of the request that last took the context; a failed one closes exactly that session |
| SendTraces.TakenIsBegun | Core/ServerSession.cpp:65-151 | Whatever the network ever got is the message of a request, on its session, that had last taken the context when the send completed |
| SendTraces.ClosedExactly | Core/ServerSession.cpp:140-150 | A session is closed if and only if it was disconnected or a send of it failed, at once or on completion |
| SendPaths.SendPath.BeginRaw | Core/ServerSession.cpp:112-123 | Takes a context and fills its own buffer with header and payload; no other context in use is touched |
| SendPaths.SendPath.BeginShared | Core/ServerSession.cpp:90-93 | Takes a context that refers to the shared packet |
| SendPaths.SendPath.PostSend | Core/ServerSession.cpp:132-151 | Hands the context to the network or returns it as modelled |
| SendPaths.SendPath.SendRaw | Core/ServerSession.cpp:102-130 | Sends one frame in two steps of the model, unless the session is disconnected or the frame does not fit; then nothing is touched |
| SendPaths.SendPath.SendShared | Core/ServerSession.cpp:86-100 | The same for a packet all receivers share, which may have any size |
| SendPaths.SendPath.CompleteSend | Core/ServerCore.cpp:457-475 | What the network takes is what lies in the context; the context is returned, and a failure ends the session |
| SessionRegistry.Accounting | Core/ServerCore.cpp:337-349 | The gauge is the size of the registry; every issued id is a connection or a policy rejection |
| SessionRegistry.ClosedIsFinal | Core/ServerCore.cpp:420-426 | A closed session is never taken off the gauge again and its id never reissued |
| SessionRegistry.StillRegisteredExactly | Core/ServerSession.cpp:140-150 | A closed session stays registered if and only if a failing send closed it |
| SessionRegistry.CountersAreEvents | Core/ServerCore.cpp:337-349 | Connections, rejections and ids count the accepts with and without a token |
| SessionRegistry.ClosedByFirst | Core/ServerSession.cpp:43-51 | A session is closed by whichever event was the first to have a reason to |
| SessionRegistry.SessionManager.Add | Game/SessionManager.cpp:10-17 | Issues the next id and registers it |
| SessionRegistry.SessionManager.Remove | Game/SessionManager.cpp:19-23 | Takes the id off the registry |
| SessionRegistry.SessionManager.Disconnect | Core/ServerSession.cpp:43-51 | Only the first caller gets true |
| SessionRegistry.SessionManager.AcceptCompletion | Core/ServerCore.cpp:337-349 | Keeps the accounting, admitted or rejected |
| SessionRegistry.SessionManager.Drop | Core/ServerCore.cpp:420-426 | Keeps the accounting, whoever was first to disconnect |
| AuthQueue.Conservation | Utils/AuthService.cpp:51-99 | Jobs leave in submit order, none is called back twice, and none is lost between queue, workers and callbacks |
| AuthQueue.DrainedExactly | Utils/AuthService.cpp:74-82 | Once all workers have left, every job has been called back if and only if none came after the last of them left |
| AuthQueue.StopDrains | Utils/AuthService.cpp:38-49 | With a worker and no submission after Stop, everything has been called back when all have left |
| AuthQueue.WorkerStepsCountDown | Utils/AuthService.cpp:70-100 | Every worker step brings the end of a stopped service nearer |
| AuthQueue.NoWorkerIsStuck | Utils/AuthService.cpp:73-79 | After Stop every worker that has not left can take a step |
| AuthQueue.WaitsExactly | Utils/AuthService.cpp:73-79 | A worker waits exactly while it has no job, none is queued and the service runs |
| AuthQueue.EventsTell | Utils/AuthService.cpp:38-58 | Every submission counts, whenever it comes, and the service runs until it is stopped |
| AuthQueue.AuthService.ValidateAsync | Utils/AuthService.cpp:51-58 | Queues the job at the end |
| AuthQueue.AuthService.BeginStop | Utils/AuthService.cpp:38-41 | Clears the running flag and tells whether it was set |
| AuthQueue.AuthService.TakeOrExit | Utils/AuthService.cpp:72-83 | Takes the oldest job, or leaves exactly when there is none |
| AuthQueue.AuthService.WorkerLoop | Utils/AuthService.cpp:66-101 | Among any other threads, each worker of a service that is stopped leaves in the end, only when nothing is queued, and by steps of the model |
| GameRooms.JobQueue.Push | Utils/JobQueue.h:17-21 | Appends the job |
| GameRooms.JobQueue.SwapOut | Utils/JobQueue.h:25-31 | Empties the queue into the batch |
| GameRooms.RunJobs | Utils/JobQueue.h:25-36 | Running n jobs of a batch runs the first n, in order, and leaves the rest and the queue alone |
| GameRooms.GameRoom.constructor | Game/GameRoom.h:32-33 | A new room waits, empty and without stamp |
| GameRooms.GameRoom.HandleEnter | Game/GameRoom.h:77-109 | Room and pointer as modelled: refused in a game or when full |
| GameRooms.GameRoom.HandleLeave | Game/GameRoom.h:111-136 | Room and pointer as modelled; the winner is a session still there |
| GameRooms.GameRoom.HandleGameEnd | Game/GameRoom.h:248-265 | Finished now, with that winner |
| GameRooms.GameRoom.HandleRejoin | Game/GameRoom.h:145-164 | Room and pointer as modelled, whatever the state |
| GameRooms.GameRoom.HandleReady | Game/GameRoom.h:167-179 | Toggles while waiting and tries to start |
| GameRooms.GameRoom.TryStartGame | Game/GameRoom.h:234-246 | Starts with two members or more and as many ready |
| GameRooms.GameRoom.HandleMove | Game/GameRoom.h:138-142 | Keeps the last move of an account, in a game only |
| GameRooms.GameRoom.Flush | Utils/JobQueue.h:25-36 | Runs exactly the jobs that were queued, each once, in order |
| GameRooms.GameRoom.EraseExpiredSlots | Game/GameRoom.h:53-63 | The erase loop keeps exactly the slots not older than the window |
| GameRooms.GameRoom.BroadcastPendingMoves | Game/GameRoom.h:282-296 | The snapshot has each pending move once, one per account, and empties them |
| GameRooms.GameRoom.Tick | Game/GameRoom.h:49-75 | A flush of everything queued, then the tail |
| RoomHistory.UnsentMeaning | Game/GameRoom.h:138-142 | The replayed pending moves are the last accepted ones neither broadcast nor followed by a departure |
| RoomHistory.OwedMeaning | Game/GameRoom.h:123-124 | The replayed debts are the latest mid-game departures not followed by a rejoin |
| RoomHistory.ShownMeaning | Game/GameRoom.h:65-72 | The replayed result screen is the last result not followed by a reset |
| RoomHistory.MarkedMeaning | Game/GameRoom.h:167-179 | Ready is who has asked an odd number of times since the last start and its last departure |
| RoomSafety.RunNextKeeps | Game/GameRoom.h:77-179 | Every job keeps the room invariant |
| RoomSafety.TickTailKeeps | Game/GameRoom.h:53-75 | Every tick tail keeps the room invariant |
| RoomSafety.DepartureEndsGame | Game/GameRoom.h:111-136 | A mid-game departure always leaves somebody and ends the game with one result won by a session still there |
| RoomSafety.TickBroadcastsUnsentMoves | Game/GameRoom.h:65-74 | A tick broadcasts exactly the unsent moves, and nothing while FINISHED |
| RoomSafety.TickLeavesLiveSlots | Game/GameRoom.h:53-63 | After a tick the slots are exactly the departures within the window that were not followed by a rejoin |
| RoomSafety.CollectableOwesNothing | Game/RoomManager.cpp:53-56 | A room the collector may take is empty and owes nobody a slot |
| WorldSafety.RunKeeps | Game/RoomManager.cpp:11-73 | The world invariant holds in every reachable state |
| WorldSafety.RunSessions | Core/ServerCore.cpp:420-426 | The connection accounting holds in the room world too |
| WorldTheorems.NoStaleRoomPointer | Game/RoomManager.cpp:44-62 | A session's room pointer leads to a registered room that has it as a member |
| WorldTheorems.NoDanglingUse | Core/ServerCore.cpp:428-432 | No handler or disconnect ever uses a pointer to a collected room |
| WorldTheorems.HistoryGrows | Game/GameRoom.h:77-179 | No step shortens a room's history, and collecting a room does not erase it |
| HistoryLaws.RoomIsItsHistory | Game/GameRoom.h:49-179 | On every run phase, members, ready marks, pending moves and stamp of a room are those of its history, and its slots are debts of the history with no recent one missing |
| HistoryLaws.StepAdds | Game/GameRoom.h:49-179 | On every run, what each job and each tick adds to a room's history follows from the history: who is refused, who departs, when a game starts and ends, which moves count; nothing else adds to it |
| HistoryLaws.SlotsAfterTick | Game/GameRoom.h:53-63 | On every run, after a tick the slots are exactly the debts of the history no older than the window, each with its time |
| HistoryLaws.PointersFollowHistory | Game/GameRoom.h:94-150 | Coming in sets a session's room pointer and going clears it, as the first disconnect does; nothing else moves it |
| IdleRooms.CollectorRemoves | Game/RoomManager.cpp:44-62 | On every run the collector removes exactly the rooms somebody was in once, nobody is in, and the last one left longer ago than the timeout; every other room stays as it is |
| IdleRooms.StampMeaning | Game/GameRoom.h:131-133 | The stamp is the time of the departure that emptied the room |
| Requests.RoomsRunWhatIsAsked | Packet/Logic/Logic.cpp:46-225 | On every run, what a room has run, runs and has yet to run is exactly what requests, logins and disconnects asked of it, in order |
| Requests.AccountIsLastLogin | Packet/Logic/Logic.cpp:46-63 | The account of a session is that of its last login |
| Requests.SessionsAndClock | Core/ServerCore.cpp:420-433 | The sessions of a run are those of the registry on the same accepts, disconnects and failing sends |
| WorldTheorems.ReconnectGuarantee | Game/RoomManager.cpp:64-73 | Whoever left a game within the window and has not rejoined is found in that room |
| WorldTheorems.ReconnectOnlyIfOwed | Game/RoomManager.cpp:64-73 | Only such accounts are found |
| WorldTheorems.LiveGames | Game/GameRoom.h:234-246 | A game in progress has two members or more; nobody is ready outside WAITING |
| WorldTheorems.EveryDepartureHasAWinner | Game/GameRoom.h:122-128 | On every run a mid-game departure yields one result, won by a session still in the room |
| WorldTheorems.TimedLifecycle | Game/GameRoom.h:65-72 | At every moment of a room's history starts, results and resets have taken turns; results match mid-game departures; each reset is more than 5000 ms after its result, and starts are more than 5000 ms apart |
| WorldTheorems.ResultScreenEnds | Game/GameRoom.h:65-72 | On every run, when a tick ends, the last result is still shown if and only if it is at most 5000 ms old |
| WorldTheorems.JobsRunInOrder | Utils/JobQueue.h:17-36 | Jobs run at most once and in push order on every run |
| WorldTheorems.BroadcastIsLastMoves | Game/GameRoom.h:282-296 | A broadcast holds exactly the last unsent move of each account |
| ReconnectWindow.SlotLost | Utils/Config.h:35-36 | With rooms kept idle for less than the window, a run of connected sessions in which a live slot is lost |
| ReconnectWindow.GuaranteeHoldsExactly | Utils/Config.h:35-36 | For all settings: the reconnect guarantee holds if and only if the idle timeout is at least the window, the window is negative, or rooms are too small for a game |
| SmallRooms.RunSmall | Game/GameRoom.h:86-92 | With room for fewer than two, no room ever sees a game, holds a slot or exceeds its limit |
| ReadyStart.StartMeansAllReady | Game/GameRoom.h:234-240 | If only members are marked ready, the size comparison means everybody is |
| ReadyStart.StartsExactlyWhenAllReady | Game/GameRoom.h:167-179 | A ready job toggles the account, and starts a game if and only if there are two members or more and as many ready; with distinct accounts and none but members ready, if and only if all of them are |
| ReadyStart.StartIsFairExactly | Game/GameRoom.h:167-179 | A ready job that starts a game starts it with exactly its players ready if and only if nobody from outside the room is marked ready then; if only members were marked before, if and only if the job is for an account in the room |
| ReadyStart.GamesStartAllReady | Game/GameRoom.h:167-179 | In orderly runs every game of every room started with exactly its players ready |
| ReadyStart.FairRunsExactly | Game/GameRoom.h:167-179 | A run has none but fair starts if and only if each time a ready job started a game nobody from outside the room was marked ready |
| ReadyStart.GameStartsWithoutEverybodyReady | Packet/Logic/Logic.cpp:208-225 | For every limit of two or more, a run of connected sessions in which a game starts with a member who was never ready |
| ReadyStart.StartsAreFairExactly | Game/GameRoom.h:233-240 | Every game of every run starts with exactly its players ready if and only if rooms are too small for a game |
| Occupancy.RoomsWithinLimit | Game/GameRoom.h:86-92 | On every run the members are those whose last entry, departure or rejoin was no departure, and those who last came in by entering never exceed the limit |
| Occupancy.InsideMeaning | Game/GameRoom.h:94-150 | How a session is in the room is what the last history entry about it says |
| Occupancy.OverFull | Game/GameRoom.h:145-150 | For every limit of two or more, a run of connected sessions after which a room has one member too many |
| Occupancy.LimitHoldsExactly | Game/GameRoom.h:86-92 | No room of any run exceeds its limit if and only if rooms are too small for a game |
| DeadMembers.ClosedMemberStays | Game/GameRoom.h:111-120 | A closed session that is a member stays one, and its room is never collected, whatever happens, if and only if no leave of it is queued |
| DeadMembers.DisconnectedMemberStays | Core/ServerCore.cpp:420-433 | On every run, a disconnected member stays for good if and only if it did not point to the room and had not asked to leave |
| DeadMembers.SendFailedMemberStays | Core/ServerSession.cpp:140-150 | On every run, a member closed by a failing send stays for good unless it had asked to leave; a later disconnect does nothing |
| DeadMembers.ClosedMembersLeaveExactly | Core/ServerCore.cpp:420-433 | Closed members always leave in the end if and only if nobody can enter at all |
| Handlers.ReenterQueuesLeaveThenEnter | Packet/Logic/Logic.cpp:118-123 | Entering the current room queues a leave, then an entry |
| Handlers.EnterQueuesLeaveFirst | Packet/Logic/Logic.cpp:118-123 | A session with a room queues its leave there first and then goes on as one without a room |
| Handlers.LeaveUndoesEnter | Game/GameRoom.h:94-120 | Leaving after entering restores the room and clears the pointer |
| Handlers.RejoinUsesUpSlot | Game/GameRoom.h:145-150 | Leaving a game and rejoining uses up exactly that slot |
| Handlers.ReadyTwiceIsNever | Game/GameRoom.h:171-175 | The ready toggle undoes itself, except in the history |
| Servers.Server.GetOrCreateRoom | Game/RoomManager.cpp:11-22 | Returns the room of that name, new only if there was none |
| Servers.Server.FindReconnect | Game/RoomManager.cpp:64-73 | Finds a room with a slot exactly if there is one |
| Servers.Server.EraseIdleRooms | Game/RoomManager.cpp:54-61 | The erase loop keeps exactly the rooms that are not idle and counts the others |
| Servers.Server.RemoveIdleRooms | Game/RoomManager.cpp:44-62 | A collector pass leaves registry and rooms as in the transition system and counts what it removed |
| Servers.Server.HandleDisconnect | Core/ServerCore.cpp:420-433 | Flag, registry, pointer and queued leave end up as in the transition system |
| Servers.Server.OnLogin | Packet/Logic/Logic.cpp:46-74 | Account and queued rejoin end up as in the transition system, with a reconnect room whenever there is one |
| Servers.Server.OnEnterRequest | Packet/Logic/Logic.cpp:102-124 | Queued leave, room creation and queued entry end up as in the transition system |
| Servers.Server.OnLeaveRequest | Packet/Logic/Logic.cpp:126-142 | Queues the leave on the current room as in the transition system |
| Servers.Server.OnReadyRequest | Packet/Logic/Logic.cpp:208-225 | Queues the ready job on the current room as in the transition system |
| Servers.Server.OnMoveRequest | Packet/Logic/Logic.cpp:144-158 | Queues the move on the current room as in the transition system |
| Servers.Server.TickRoom | Game/GameRoom.h:49-75 | One room's tick is a run of the model that empties its queue and touches no other room |
| Servers.Server.TickAll | Game/RoomManager.cpp:31-42 | Ticking all rooms is a run of the model that empties every queue |

## Left out

- Chat: its job broadcasts and changes nothing.
- Ping, the health server, statistics, logging, configuration parsing, the JSON scan, HTTP and socket calls: foreign calls, or code without state of its own. A receive completion is "these bytes appeared", a send "fails now" or "completes later".
- Acknowledgements and room-state broadcasts to members: the history records the events they report, not each message to each session. The S_ROOM_LEAVE acknowledgement of the leave job is not recorded.
- Machine integer widths: refills of the token bucket beyond 2^31 tokens (a session idle for months) and counter overflow are not modelled.
- Heartbeat timeouts: a timed-out session is one more disconnect, which may happen at any time.
- Memory ordering of atomics, lost wake-ups of the condition variable, and thread creation.
- Interleavings inside the steps assumed atomic, in particular the collector destroying a room that the tick thread holds a pointer to.
- Servers.Server: keeps rooms as values in a map from room numbers, so aliasing of room objects is by number; GameRooms.GameRoom is the same room as an object updated in place.
- Connections.Connection.HandlePacket: hands over the frame; which handler the packet id selects is not modelled, and the handler may or may not end the session.
- RECV and ACCEPT contexts: they belong to one session or one accept and never enter the pool.
- SendInternal: it is SendRaw with a serializer in place of the copy; the context of a serializer that fails goes back by the Abort step of SendContexts, which is not done in place.
- ReadyStart.GamesStartAllReady: goes one way only, as a disorderly run may have none but fair starts; the exact conditions are those of StartIsFairExactly for one start, FairRunsExactly for a run and StartsAreFairExactly for the settings.
