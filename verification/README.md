# ipc-cam-schedule: verified model of the session, broadcast and accept logic

The server of this repository schedules capture devices over TCP. Four hand-written pieces of it
carry state across handlers, and each is modelled here as small atomic steps (one completion
handler or one public call per step) with the classes that take those steps in place:

* **Write queue** (`src/tcp_server.hpp`, class `Tcp_session`): `WriteQueue.dfy`, `BusyPeriods.dfy`,
  `TransmissionLaws.dfy`, class in `TcpSession.dfy`. Messages are pushed and popped at the front
  while one write is in flight, so a completion removes the newest message and not the one just
  sent. Every interleaving of posts and completions is a forest, and what is transmitted is a
  postorder walk of it.
* **Broadcast** (`src/tcp_server.hpp`, class `Tcp_server`): `Broadcast.dfy`,
  `RepeatedBroadcasts.dfy`, `ServerRuns.dfy`, `ServerBroadcasts.dfy`, `ServerMembership.dfy`, class
  in `TcpServer.dfy`. The loop erases closed
  sessions and still increments the iterator; the effect is described by the lengths of the runs
  of closed sessions.
* **Service pool and accept chain** (`inc/service_pool.h`, `inc/server.h`): `RoundRobin.dfy`,
  `PoolMutex.dfy`, `AcceptChain.dfy`, classes in `ServicePool.dfy` and `Server.dfy`.
* **Capture session** (`inc/session.h`, class `CCaptureDevSession`): `Capture.dfy`,
  `Decisions.dfy`, `CaptureAccounts.dfy`, `DeviceAdmission.dfy`, `Reassembly.dfy`,
  `SessionObserver.dfy`, `CaptureBounds.dfy`, `Chunking.dfy`, class in `CaptureSession.dfy`. The
  picture buffer is an array updated in place; a reference assembler without a buffer is shown to
  give out the same pictures, and an observer without handlers to see the same device and the
  same calls in the same order.

A state machine (`Step`, `Legal`, `Run`) stands beside each class. The handlers and public calls of
a class are proved to take exactly its steps, and the laws over whole runs are proved about the
machine. The class `TcpServer` carries a ghost history of all sessions it has created; `HandleAccept`,
`Post` and the completion of any session's write are steps of the machine in `ServerRuns.dfy`.
`Messages.dfy`, `Sequences.dfy` and `Arithmetic.dfy` hold what several pieces share.

Code that a handler calls and whose outcome the session does not control (frame parsing, mission
lookup, the search for a free camera, the length of a packed reply) enters as arbitrary answers
carried by the event, so every law holds for all of them. `PackageResponeFrame`
(`src/protocol.cpp:403-434`) gives six bytes for a real buffer; the laws do not depend on it.

Where the code does not do what a reader might expect, the model follows the code and the exact
condition is proved:

* the write queue is a FIFO, and loses nothing, only if every `Post` finds the deque empty
  (`FifoIffEveryPostFindsIdle`, and without assuming messages distinct
  `WritesFollowPostsIffEachFindsIdle`); a message is lost exactly if it is posted on a non-empty
  deque and a completion comes next (`LostExactlyWhen`);
* a broadcast is defined only if the closed sessions at the end of the list are even in number
  (`WalkDefinedIffEvenTail`), and reaches only open sessions behind an even run of closed ones; a
  server does get into states that break either (`BroadcastMayBecomeUndefined`,
  `BroadcastMayMissAnOpenSession`);
* the size check `res.frameSize < 1024*1024*10` admits captures that can run past the picture
  buffer; captures are safe exactly up to 10401550 bytes (`BufferSafeIffSizeLeavesOnePacket`);
* reads are not exclusive: a reply and its completion each leave a read armed. At most one is
  outstanding exactly while completed writes do not outnumber malformed logins and failed reads
  (`ExclusiveExactlyWhen`);
* the rotation balances the sessions created. The sessions started are in balance on a config server
  exactly when its successful accepts are, modulo the number of services
  (`StartedInBalanceExactlyWhen`), and always on a capture server.

Capture runs that show a failure are made of frames that parse as what they are (`Genuine`): the type is in
the fifth byte, the size of a snapshot in the first four, and a reply is six bytes long.

Verify with `dafny verify dfyconfig.toml` (Dafny 4.11).

## Model

| member | source | states |
|---|---|---|
| WriteQueue.QueueAgreesWithSocket | src/tcp_server.hpp:69-137 | in every reachable state an open session has one write in flight exactly while its deque is non-empty, and a closed one has none in flight and a non-empty deque |
| WriteQueue.PopNeverMeetsAnEmptyQueue | src/tcp_server.hpp:121 | in no run does a successful completion pop an empty deque |
| WriteQueue.NoWriteAfterClose | src/tcp_server.hpp:69-137 | once a write has failed, whatever is posted later, no write is started, nothing completes, and the old deque stays under the new posts |
| WriteQueue.FailureCloses | src/tcp_server.hpp:133-136 | whenever a write is in flight it can fail, and that closes the session with nothing in flight, deque and transmitted messages as they were |
| WriteQueue.ClosedIffFailed | src/tcp_server.hpp:89-137 | after any run a session is closed if and only if one of its writes has failed, and only posts follow a failure |
| WriteQueue.NoWriteAfterFailure | src/tcp_server.hpp:69-137 | after the event of a failed write, in any run, only posts follow, they pile up on the deque as it was, and nothing more is transmitted |
| BusyPeriods.EveryIdleRunIsAForest | src/tcp_server.hpp:69-131 | the idle-to-idle runs of posts and successful completions are exactly the bracketings of forests, and each transmits its roots when posted and the parent of every other message in postorder |
| BusyPeriods.RunOnBusy | src/tcp_server.hpp:115-131 | on a busy session a bracketed run leaves the deque as it was and transmits parents in postorder |
| TransmissionLaws.BusyPeriodLaw | src/tcp_server.hpp:69-131 | over a busy period as many writes are issued as messages posted, and the opening message is the first and the last one transmitted |
| TransmissionLaws.OpenerStaysAtTheBack | src/tcp_server.hpp:76-121 | throughout a busy period the back of the deque is the message that opened it |
| TransmissionLaws.ChargeLaw | src/tcp_server.hpp:69-137 | over every run, failures included, what is transmitted plus what is still owed is, as a multiset, what the posts charge: themselves on an empty deque, else the message at the front |
| TransmissionLaws.TransmittedIffCharged | src/tcp_server.hpp:69-131 | an idle-to-idle run transmits a message exactly if some post charges it, and as often |
| TransmissionLaws.LostExactlyWhen | src/tcp_server.hpp:74-121 | of distinct messages one is never transmitted if and only if it is posted on a non-empty deque and the very next event is a completion |
| TransmissionLaws.WritesFollowPostsIffEachFindsIdle | src/tcp_server.hpp:69-131 | for any messages, equal or not, the writes of an idle-to-idle run carry the posts one by one in order if and only if every post finds the deque empty |
| TransmissionLaws.FifoIffEveryPostFindsIdle | src/tcp_server.hpp:74-85 | for distinct messages the transmitted sequence is the posted one, and no message is lost, if and only if every post finds the deque empty |
| TransmissionLaws.QueueDrains | src/tcp_server.hpp:115-131 | an open session left alone becomes idle after as many completions as it has messages queued, transmitting those below the front from front to back |
| TransmissionLaws.BurstIsReversed | src/tcp_server.hpp:74-128 | messages m1..mk all posted before the first completion are transmitted as m1 followed by the reverse of m1..m(k-1) |
| TcpSessions.TcpSession.Post | src/tcp_server.hpp:69-87 | the new state is the queue machine's post step, whose laws are the rows above; agreement of deque and socket is kept |
| TcpSessions.TcpSession.HandleWrite | src/tcp_server.hpp:115-137 | a failure closes the session with nothing in flight and the deque as it was; a completion pops the front and transmits the next one; each is the queue machine's step and keeps the agreement |
| TcpSessions.TcpSession.CloseSocket | src/tcp_server.hpp:89-97 | the session is marked closed |
| Broadcast.WalkDefinedIffEvenTail | src/tcp_server.hpp:171-186 | the loop never increments an iterator at the end if and only if the closed sessions at the end of the list are even in number |
| Broadcast.BroadcastHalvesGaps | src/tcp_server.hpp:168-193 | a broadcast keeps all open sessions in order and turns every maximal run of m closed ones into floor(m/2) |
| Broadcast.DeliveryBehindEvenGaps | src/tcp_server.hpp:171-186 | the message goes once, in list order, to exactly the open sessions before which the run of closed ones has even length |
| Broadcast.SurvivingSessions | src/tcp_server.hpp:171-186 | a broadcast neither duplicates a list element nor brings in a new one |
| RepeatedBroadcasts.GapsAfter | src/tcp_server.hpp:168-193 | after t broadcasts a run of m closed sessions is down to floor(m/2^t) and the open sessions are unchanged |
| RepeatedBroadcasts.DefinedForIffDivides | src/tcp_server.hpp:171-186 | t broadcasts in a row are well defined if and only if 2^t divides the number of closed sessions at the end of the list |
| RepeatedBroadcasts.ClearedIffPowerExceedsRuns | src/tcp_server.hpp:175-178 | no closed session is left after t broadcasts exactly when 2^t exceeds the longest run |
| RepeatedBroadcasts.MissedIsBinaryOnes | src/tcp_server.hpp:171-186 | an open session behind m closed ones misses one broadcast for each binary one of m while they are worked off |
| TcpServers.TcpServer.constructor | src/tcp_server.hpp:160-166 | the list is empty and the first accept is armed for a fresh open session |
| TcpServers.TcpServer.StartAccept | src/tcp_server.hpp:194-203 | the next accept waits for a fresh session whose flag is cleared |
| TcpServers.TcpServer.HandleAccept | src/tcp_server.hpp:205-218 | a connected session joins the end of the list, a failed one is dropped, and the next accept is armed either way; this is the server machine's accept step |
| TcpServers.TcpServer.CompleteWrite | src/tcp_server.hpp:115-137 | a write completed or failed on any session is the server machine's completion step: no other session changes |
| TcpServers.TcpServer.Round | src/tcp_server.hpp:173-184 | one iteration erases a closed session or posts to an open one, and moves the iterator |
| TcpServers.TcpServer.Loop | src/tcp_server.hpp:171-186 | the loop ends with the whole list walked, and the sessions it served have taken one post step each |
| TcpServers.TcpServer.Post | src/tcp_server.hpp:168-193 | the list becomes the walk's survivors, each recipient has taken exactly one post step, and no other session has changed; this is the server machine's broadcast step |
| ServerRuns.EveryRunIsValid | src/tcp_server.hpp:69-218 | however accepts, broadcasts and completions interleave, every session's deque agrees with its socket and the list names no session twice |
| ServerRuns.EverySessionRuns | src/tcp_server.hpp:69-218 | in every run of the server each session goes through a queue run made of exactly its share of the steps, so the queue laws hold of every session |
| ServerRuns.FailedSessionsRest | src/tcp_server.hpp:133-184 | a closed session is never posted to again and never changes again |
| ServerRuns.FailureIsFinal | src/tcp_server.hpp:133-184 | from the event of a failed write on, in any run, the session it belongs to is closed with nothing in flight, is neither posted to nor completed, and does not change |
| ServerRuns.ClosedIffWriteFailed | src/tcp_server.hpp:89-137 | after any run of the server a session is closed if and only if one of its own writes has failed |
| ServerRuns.CompletionsAreFree | src/tcp_server.hpp:115-137 | whatever write is in flight can complete or fail in any state, and that touches no other session and not the list |
| ServerRuns.AcceptsAreFree | src/tcp_server.hpp:194-218 | an accept can succeed or fail in any state; only on success does its session join the list, at the end |
| ServerMembership.OpenSessionsAreTheUnfailed | src/tcp_server.hpp:168-218 | after any run the open sessions in the list are exactly the connected ones none of whose writes has failed, in the order they connected |
| ServerBroadcasts.AcceptMakesBroadcastSafe | src/tcp_server.hpp:171-213 | a broadcast right after a successful accept stays inside the list |
| ServerBroadcasts.BroadcastSafeIffEvenTail | src/tcp_server.hpp:171-186 | in any state of the server a broadcast stays inside the list if and only if the closed sessions at its end are even in number |
| ServerBroadcasts.BroadcastMayBecomeUndefined | src/tcp_server.hpp:171-186 | after one connection, one broadcast and a failed write no broadcast is defined |
| ServerBroadcasts.BroadcastMayMissAnOpenSession | src/tcp_server.hpp:171-186 | a run after which a broadcast is defined and is not posted to the session that is listed and open |
| ServerBroadcasts.BroadcastsRepeatTheWalk | src/tcp_server.hpp:168-193 | broadcasts of the server in a row are possible exactly if the repeated walks over its list are defined, and leave the list they leave |
| ServerBroadcasts.HeardAllButBinaryOnes | src/tcp_server.hpp:168-193 | of enough broadcasts in a row a session of the server is posted all but as many as the closed sessions before it have binary ones |
| RoundRobin.DrawsGoRound | inc/service_pool.h:65-75 | the k-th call of a run returns the service k places further round the pool |
| RoundRobin.DrawCount | inc/service_pool.h:65-75 | how often each service is returned by w consecutive calls, exactly |
| RoundRobin.WindowFairness | inc/service_pool.h:65-75 | in any window of w consecutive calls every service is returned floor(w/n) or ceil(w/n) times |
| RoundRobin.WindowBalance | inc/service_pool.h:65-75 | over any window two services are at most one call apart |
| PoolMutex.EveryInterleavingGoesRound | inc/service_pool.h:65-75 | with every line of the call a step and threads interleaving freely, the k-th finished call returns service k mod n, at most one thread is inside, and the vector is indexed in range |
| PoolMutex.EveryInterleavingIsSequential | inc/service_pool.h:65-75 | the finished calls of any interleaving are those of one sequential run |
| PoolMutex.EveryInterleavingIsFair | inc/service_pool.h:65-75 | however the threads interleave, in any window of w finished calls every service is returned floor(w/n) or ceil(w/n) times |
| PoolMutex.HolderAlwaysFinishes | inc/service_pool.h:65-75 | in every reachable state with the mutex held only its holder can step, and at most four of its steps finish its call with the service whose turn it is, the cursor at the next and the mutex free |
| PoolMutex.FreePoolServesAnyone | inc/service_pool.h:65-75 | in every reachable state with the mutex free any thread completes its call in five steps |
| ServicePools.ServicePool.constructor | inc/service_pool.h:27-37 | the pool holds the requested number of distinct services, each with work, and the cursor is at 0 |
| ServicePools.ServicePool.Start | inc/service_pool.h:39-47 | one thread runs each service, in pool order |
| ServicePools.ServicePool.Stop | inc/service_pool.h:57-63 | every service is stopped |
| ServicePools.ServicePool.GetIoService | inc/service_pool.h:65-75 | the service under the cursor is returned and the cursor takes the rotation's next place |
| AcceptChain.SessionAccounting | inc/server.h:45-107 | every session created is started, deleted or waiting, and only one of these; started and deleted count the successful and failed accepts |
| AcceptChain.SessionPlacement | inc/server.h:45-107 | the acceptor sits on service 0 and the k-th session on service (k+1) mod n |
| AcceptChain.SessionsAreBalanced | inc/server.h:45-107 | over any run each service has got floor or ceil of an even share of the sessions created |
| AcceptChain.ConfigServerNeverStops | inc/server.h:89-107 | on the config server an accept is outstanding for ever, and t completions have created t more sessions |
| AcceptChain.CaptureServerStopsAtFirstFailure | inc/server.h:65-87 | on the capture server nothing can follow the first failed accept, after which no accept is ever outstanding |
| AcceptChain.FateIsTheAccept | inc/server.h:65-107 | session k has been started if and only if accept number k succeeded, and deleted if and only if it failed |
| AcceptChain.StartedAreTheSuccesses | inc/server.h:65-107 | on either server the sessions started on service v are as many as successful accepts number i with (i+1) mod n = v |
| AcceptChain.StartedInBalanceExactlyWhen | inc/server.h:89-107 | on the config server the started sessions are in balance if and only if the successful accepts, modulo the number of services, are |
| AcceptChain.CaptureServerStartsInBalance | inc/server.h:65-87 | on the capture server no two services ever differ by more than one in the sessions started |
| AcceptChain.StartedSessionsMayPileUp | inc/server.h:89-107 | with two services and every other accept failing, all sessions started from then on sit on one service, from any state with that turn |
| AcceptChain.PileUpFromTheStart | inc/server.h:45-107 | the same from the constructor on: all started sessions are on service 1 and none on service 0 |
| Servers.Server.constructor | inc/server.h:45-63 | the acceptor and the first waiting session take the first two services |
| Servers.Server.HandleAccept | inc/server.h:65-87 | the new state is the capture server's step of the accept chain |
| Servers.Server.HandleAcceptCfg | inc/server.h:89-107 | the new state is the config server's step of the accept chain |
| Servers.Server.Run | inc/server.h:109-113 | every service of the pool gets a thread |
| Decisions.LoginOutcome | inc/session.h:134-218 | for each case of a login, the device and the exact calls it leaves behind |
| Decisions.HeartbeatOutcome | inc/session.h:219-297 | for each case of a heartbeat, the device (mission, status, camera, online) and the exact calls it leaves behind |
| Decisions.FrameOutcome | inc/session.h:129-503 | for every frame type, the device, the calls in order, the type and value of the reply, and the capture state it leaves behind |
| Decisions.HeartbeatAsksIffItActs | inc/session.h:226-256 | a heartbeat asks for a mission exactly if its decision does something to the device |
| Decisions.CaptureOpensExactlyWhen | inc/session.h:366-403 | a snapshot frame of declared size n leaves the session capturing if and only if 0 < n < 10485760 |
| SessionObserver.SessionRefinesObserver | inc/session.h:66-563 | in every run the calls a session makes, in order, and its device, capture and life are those of an observer without handlers |
| SessionObserver.DeviceIsLastAnswers | inc/session.h:105-295 | after any run the mission number is the last answer to the question for it, the camera the last one given, the status the last one set, and the device is online if and only if it was ever put to work |
| SessionObserver.TornDownIffFailed | inc/session.h:509-563 | after any run the session has been torn down if and only if one of its operations has failed |
| CaptureAccounts.ReadsLaw | inc/session.h:57-563 | at any point of any run, outstanding reads are 1 plus completed writes, minus malformed logins, minus failed reads |
| CaptureAccounts.WritesLaw | inc/session.h:140-563 | at any point of any run, outstanding writes are the frames that got a reply minus the writes completed or failed |
| CaptureAccounts.PendingOperationLaw | inc/session.h:57-563 | at any point of any run, outstanding operations are 1 plus the replies of branches that re-arm a read, minus unanswered rejections, minus failed operations; and those replies are the ones the frames received ask for |
| CaptureAccounts.ExclusiveExactlyWhen | inc/session.h:500-545 | at most one read is outstanding if and only if completed writes do not outnumber malformed logins and failed reads |
| CaptureAccounts.OneReadAtATimeIffNothingWritten | inc/session.h:500-545 | without malformed logins and failed reads, never more than one read is outstanding throughout a run if and only if no write ever completes |
| CaptureAccounts.ReadsPileUp | inc/session.h:314-545 | n answered requests leave n more reads outstanding |
| CaptureAccounts.DeafExactlyWhen | inc/session.h:140-150 | a run without errors leaves nothing outstanding exactly if unanswered rejections outnumber the frames answered by one; with none of them something is always outstanding |
| CaptureAccounts.DeafForEver | inc/session.h:140-150 | once nothing is outstanding the session runs no handler again, changes nothing and is never torn down |
| CaptureAccounts.CaptureConservation | inc/session.h:94-412 | accepted snapshot frames are pictures handed over plus one if a capture is open; results stored are pictures for which a mission was found |
| CaptureAccounts.NoReplyWhileCapturing | inc/session.h:94-127 | a handler that finds a capture open issues no reply and no write |
| CaptureAccounts.AdmissionConservation | inc/session.h:152-283 | starts of the device equal settings of the online mark and equal mission updates minus reassignments, and are as many as the logins and heartbeats that give the device work |
| CaptureAccounts.SingleTeardown | inc/session.h:509-563 | for any order of errors the session is torn down at most once, and `freeThis` is set exactly until then |
| CaptureAccounts.ErrorsDrain | inc/session.h:509-563 | once every completion is an error the outstanding operations go down by one each, and a live session is torn down exactly once |
| CaptureAccounts.EverythingMayFail | inc/session.h:509-563 | in any state all that is outstanding can fail one after the other, which leaves nothing outstanding and the session torn down |
| CaptureAccounts.EveryWriteMayComplete | inc/session.h:540-545 | in any state all outstanding writes can complete, each leaving one more read and nothing else |
| DeviceAdmission.EveryAdmissionIsWellMade | inc/session.h:152-297 | every start is for a mission other than -1 and a camera and is followed at once by the online mark and the update for the same two; a device whose mission is over has a camera |
| DeviceAdmission.ReassignedNotAdmitted | inc/session.h:219-295 | exactly when a heartbeat reassigns a device and exactly when it admits one late, never both |
| Reassembly.SessionRefinesAssembler | inc/session.h:94-402 | in every run the pictures handed over are those of the reference assembler; the buffer is the opening packet, all later chunks in handler order and then zeros, and all zero outside a capture |
| Reassembly.StepHolds | inc/session.h:94-402 | one handler keeps buffer, position and declared size in step with the reference |
| CaptureBounds.ExtentBound | inc/session.h:96-100 | a capture of declared size F extends at most to max(F, 84210) before a chunk and max(F, 84210) + 84210 with it |
| CaptureBounds.BufferSafeIffSizeLeavesOnePacket | inc/session.h:392-402 | for a size between 0 and 10485760 and whatever the uninitialised fields hold, no run can pass the end of the buffer if and only if the size is at most 10401550; a run that does needs only frames that parse as what they are |
| CaptureBounds.TwoCounterAgreement | inc/session.h:96-119 | `rcvdSzie` is the leftover plus the extent as a 32-bit integer (in range, and congruent modulo 2^32), the leftover being its initial value before the first complete picture and 0 ever after |
| Chunking.FirstPicture | inc/session.h:94-118 | a picture is the shortest chunk-aligned prefix, with at least one chunk behind the opening packet, longer than declared; there is none exactly if the chunks do not get that far |
| Chunking.ChunkingIndependence | inc/session.h:94-103 | two sessions that read one stream cut in any two ways hand over pictures longer than F that agree on the first F+1 bytes |
| Chunking.PictureIsShortest | inc/session.h:94-118 | the picture a session hands over is that shortest prefix of its stream |
| Chunking.CaptureTerminates | inc/session.h:94-120 | an open capture at b bytes completes within max(1, F+1-b) further reads, and `res.frameSize` does not change before |
| Chunking.TerminationBoundIsTight | inc/session.h:94-120 | fed one byte at a time, a capture is still open after one read less |
| CaptureSessions.CaptureSession.constructor | inc/session.h:37-45 | a constructed session, once started, is in the initial state of the machine |
| CaptureSessions.CaptureSession.Start | inc/session.h:57-64 | one more read is outstanding |
| CaptureSessions.CaptureSession.HandleChunk | inc/session.h:94-127 | the new state is the machine's chunk step |
| CaptureSessions.CaptureSession.CompletePicture | inc/session.h:100-120 | the picture is handed over, stored if there is a mission, and erased, and the device gets the mission number it was matched to |
| CaptureSessions.CaptureSession.HandleLogin | inc/session.h:134-218 | device and calls are those decided for the login, and the new state is the machine's login step |
| CaptureSessions.CaptureSession.HandleHeartbeat | inc/session.h:219-297 | device and calls are those decided for the heartbeat, and the new state is the machine's heartbeat step |
| CaptureSessions.CaptureSession.HandleSnapshot | inc/session.h:366-412 | a capture opens if and only if the size is positive and below 10485760, and the new state is the machine's snapshot step |
| CaptureSessions.CaptureSession.HandleRead | inc/session.h:66-538 | every completion of a read, successful or not, takes exactly one step of the machine |
| CaptureSessions.CaptureSession.HandleWrite | inc/session.h:540-563 | every completion of a write takes exactly one step of the machine |

## Left out

- TcpSessions.TcpSession.CloseSocket: sets the flag; the close of the socket has no further effect in the model, since the write that failed was the only operation outstanding on it.
- Servers.Server.Run: starts the pool's threads; waiting for them to end (`join`) is not modelled.
- Boost.Asio, sockets and threads: an operation is outstanding and completes with success or error; handlers are atomic, except in `PoolMutex`, where every line is a step.
- C++ object lifetime: fields stay readable after teardown, as the code itself assumes when it tests `freeThis`, and `delete` releases nothing.
- Frame parsing and packing, mission and camera lookup: arbitrary answers in each event; a heartbeat that asks for work and is matched must find its mission, because the code dereferences it, and a mission is reported over only for a device that has a camera, as in `src/CaptureDevice.cpp:69-72`.
- Within one heartbeat both halves see the same lookup answers; `ReassignedNotAdmitted` shows that at most one half asks.
- `reload_Preset` with no camera: the call is recorded, the null dereference inside it is not modelled.
- Writes the capture device itself makes on the shared socket are not counted as outstanding operations.
- Frame types 3 and 5, and the flag `status` that several branches clear: the frames only re-arm a read and nothing reads the flag.
- `res` apart from its frame size, the device's name fields, and the decoding of a completed picture into files.
- TcpServers.TcpServer.Post: requires a walk that stays inside the list, because incrementing past the end is undefined in C++; `WalkDefinedIffEvenTail` gives the exact condition.
- CaptureSessions.CaptureSession.HandleRead: requires that a chunk fits the buffer, because copying past it is undefined in C++; `BufferSafeIffSizeLeavesOnePacket` gives the exact condition.
- `Tcp_session::start` and `Tcp_session::handle_read`: never called; the timer code and everything under `#if 0` likewise.
- A message is the bytes passed to `Post`; the byte copy in `src/tcp_message.hpp` is not modelled.
- Configuration, databases, the camera SDK, the config session and logging.
