# Verified model of the oryx game server

One logic thread ("main") talks to several epoll worker threads only through
single-producer single-consumer queues. This project models that server and the hash
table of the protobuf headers it ships with, and proves what they keep.

| layer | files |
|---|---|
| byte-stream framing over fixed buffers | `Bytes.dfy`, `Framing.dfy`, `Device.dfy` |
| session lifecycle between main and the workers | `Tasks.dfy`, `Protocol*.dfy`, `EpollHandler.dfy`, `ClientConnManager.dfy`, `ThreadManager.dfy` |
| the code of one thread in the whole system | `Connection.dfy`, `RunningWorker.dfy`, `RunningMain.dfy` |
| queue and task engine | `SpscQueue.dfy`, `TaskEngine.dfy`, `Thread.dfy`, `EngineQueues.dfy` |
| session ids, timers, packets | `SessionIds.dfy`, `Timer.dfy`, `Packet.dfy` |
| protobuf's `InnerMap` | `InnerMapSpec.dfy`, `InnerMapOrder.dfy`, `InnerMapLinks.dfy`, `InnerMapSorted.dfy`, `InnerMap.dfy` |

Each layer has a specification of values and transition steps, about which the theorems
are proved, and the code itself as classes and loops over arrays, whose methods are
proved to be runs of those steps or to compute those values.

* *Framing.* `Parse` is a recursive parser of a whole stream. `ReadLoop` receives, parses
  and compacts in a 4096-byte array; it delivers exactly what `Parse` finds, however the
  bytes were cut up. `Perform` gives the sender's history; `Write` and `WriteLoop` follow it.
  A connection carries both histories through every event of its life.
* *Protocol.* `Protocol.State` holds the queues, tables and program counters of all threads,
  and a `Step` is one action of one thread that another can observe, so a run is an arbitrary
  interleaving. Main is between two steps after it has pushed an Insert and not yet added the
  session, and after it has pushed a Delete and not yet removed it. `ProtocolInvariant` is the
  inductive invariant. The methods of `EpollHandler` and `ClientConnManager` return the
  protocol steps they performed as ghost results, and prove that these lead from the old
  state to the new one. `RunningWorker` and `RunningMain` hold one thread's code together with
  the state of the whole system: each call extends one run of the protocol, in which the other
  threads make arbitrary steps between the calls, so the theorems hold of the code's own tables.
* *Queues.* `SpscQueue` is stepped one ring operation at a time. `EngineQueues` shows that what
  waits in the engine's queues is the sequence that the protocol uses for each queue. `Thread`
  holds the four queues of a worker and keeps the history of all steps of both threads. Its methods are one thread's code, as main or as
  the worker; before every ring operation the other thread makes the next batch of its own
  steps, on any queue, from a schedule that is arbitrary. Every method extends the history, so
  what `TaskEngine` proves of all interleavings holds in every state the code reaches.
* *InnerMap.* A table value of buckets represents a map if the nodes are distributed as the hash
  says. The class keeps an array of slots, with heads of linked nodes and shared tree objects, a
  mirror of such a value; the nodes of a list are linked in its order and those of a tree are not.

Sizes, limits and byte positions are named constants and predicates in the specification;
the contracts of the operations, or lemmas about the functions they refine, state what
happens at them in plain numbers as well.

Assumptions. The ring's push and pop are atomic and its capacity is exactly the template
constant. `accept` returns descriptors that are not open, listeners are server devices on
descriptors that are not open, and registration with epoll succeeds. `recv` and `send` are
oracles that return would-block, an error, 0, or any number of bytes up to what is there.
Thread ids are positive and distinct. In the protocol main never draws a session id again
that it has issued; `RunningMain` derives this from a clock that does not go back or below 0 and at most
100000 draws in a second, and `SessionIds.DistinctIffRate` says that this is exact. A
`std::set` puts a new node before the first greater one and finds nodes by equality; that
the trees are then sorted, for any strict total order `less`, is proved of every table.

Where the code and its comments disagree, the model follows the code: a packet's payload
accessor skips 14 bytes that its `Append` never reserved, and the version field of the
header is written under the operate code.

## Model

| member | source | states |
|---|---|---|
| Bytes.DecodeEncode | oryx/packet.cpp:58-98 | the network-order encoding of any 32-bit value is read back as that value |
| Bytes.NetworkOrder | oryx/packet.cpp:58-66 | the four bytes written for a 32-bit value, most significant first, are that value modulo 2^32 |
| Bytes.DecodedOrder | oryx/packet.cpp:82-98 | the value read is that of the four bytes, most significant first, modulo 2^32 |
| Framing.ParseKeepsBytes | oryx/EpollHandler.cpp:411-437 | frames and remaining bytes together are the stream, no byte lost or invented |
| Framing.ParseCuts | oryx/EpollHandler.cpp:411-437 | in numbers: every frame is 4 to 4096 bytes long and begins with its own length; what is left is at most 4 bytes, or an incomplete frame of legal length, or, exactly if the verdict is failure, begins with a length below 4 or above 4096 |
| Framing.CutIsParse | oryx/EpollHandler.cpp:411-437 | there is only one way to cut a stream like that, and it is the parser's |
| Framing.RestFitsBuffer | oryx/EpollHandler.cpp:375-379 | between iterations fewer than 4096 bytes remain, so `recv` is never asked for 0 bytes |
| Framing.ParseAppend | oryx/EpollHandler.cpp:370-440 | parsing can be cut at any byte: a parsed prefix is never revised by later bytes |
| Framing.RestIsDrained | oryx/EpollHandler.cpp:411-437 | what one pass leaves over yields nothing when examined again |
| Framing.ChunkInvariance | oryx/EpollHandler.cpp:370-440 | frames, remaining bytes and verdict depend only on the concatenated stream, for every way `recv` can cut it |
| Framing.ContinueAppend | oryx/EpollHandler.cpp:370-440 | if frames delivered and a window continue the parse of all bytes received, they still do when bytes arrive at the end of both |
| Framing.DeliverOne | oryx/EpollHandler.cpp:432-436 | taking one complete frame off the window moves it from the undelivered part of the parse |
| Framing.ParseStops | oryx/EpollHandler.cpp:411-428 | in each of the three ways out of the inner loop the parser makes nothing of the window, with the loop's verdict |
| Framing.SendConservation | oryx/DeviceInfo.h:93-116 | for every interleaving of writes and partial sends, bytes sent then bytes pending are the accepted frames, whole and in order |
| Framing.AcceptedExactly | oryx/DeviceInfo.h:93-116 | a payload is refused exactly if it is empty or 4 bytes of length and it would not fit into 4096 behind what is unsent; an accepted one adds the bytes of its length plus 4, most significant first, and itself |
| Framing.ParseFramesPrefix | oryx/EpollHandler.cpp:411-437 | every prefix of a stream of well-formed frames parses to a prefix of the frames, never meets an illegal length, and the whole stream parses to all of them |
| Framing.EndToEnd | oryx/EpollHandler.cpp:357-507 | for any writes, partial sends and chunking the delivered bodies are a prefix of the accepted payloads, all of them once all bytes arrive; the illegal-length branch is never taken |
| Device.MoveToFront | oryx/DeviceInfo.h:45-67 | the overlapping copy to the front keeps the moved bytes |
| Device.DeviceInfo.ClearRecvBuff | oryx/DeviceInfo.h:45-67 | compaction keeps the undelivered bytes and puts them at offset 0; the begin > end branch is unreachable |
| Device.DeviceInfo.ClearSendBuff | oryx/DeviceInfo.h:69-91 | compaction keeps the unsent bytes and puts them at offset 0; the begin > end branch is unreachable |
| Device.DeviceInfo.AppendReceived | oryx/EpollHandler.cpp:375-409 | received bytes go behind those in the window |
| Device.DeviceInfo.TakeFrame | oryx/EpollHandler.cpp:432-436 | a frame leaves the window from its front, and nothing else changes |
| Device.DeviceInfo.Write | oryx/DeviceInfo.h:93-116 | a payload is framed and queued as a whole or refused as a whole, as the sender's history says: refused exactly if it is empty or unsent + payload + 4 exceeds 4096, queued behind the bytes 0, 0, high, low of its length plus 4 |
| Device.ReadLoop | oryx/EpollHandler.cpp:370-440 | the in-place receive loop refines the recursive parser on old bytes followed by new ones; every frame delivered is 4 to 4096 bytes long and says so; it goes on until a call moves no bytes or a length is below 4 or above 4096, and succeeds exactly on would-block; a 0 return means that the peer closed; it terminates |
| Device.DeliverFrames | oryx/EpollHandler.cpp:411-437 | the inner loop delivers exactly the frames of the parse of its window, each of 4 to 4096 bytes with its own length in front, and stops at 4 bytes or less, at an incomplete legal frame, or, failing, at a length below 4 or above 4096 |
| Device.DeviceInfo.TransmitSome | oryx/EpollHandler.cpp:453-470 | one `send` is one partial send of the connection's whole history, or none if nothing moved |
| Device.SendRound | oryx/EpollHandler.cpp:459-505 | one round of the send loop goes on exactly if `send` moved bytes, and then fewer are left; otherwise the buffer was empty, or the call's outcome is the loop's verdict |
| Device.WriteLoop | oryx/EpollHandler.cpp:453-506 | the send loop performs partial sends of the sender's history only, until the buffer is empty or a call moves no bytes; it fails exactly on 0 or a real error, and terminates with the pending bytes as measure |
| Tasks.OperationsDrift | oryx/EpollHandler.cpp:221-274 | every table operation keeps the two indexes keyings of one device set and moves the pressure counter with its size |
| EpollHandler.EpollHandler.AddDevice | oryx/EpollHandler.cpp:221-242 | files a new device under both keys and counts one more, or rejects it exactly if either key is taken and changes nothing |
| EpollHandler.EpollHandler.RemoveDeviceByFd | oryx/EpollHandler.cpp:260-274 | removes a device from both indexes and one from the count, or nothing |
| EpollHandler.EpollHandler.RemoveDeviceBySession | oryx/EpollHandler.cpp:244-258 | removes a device from both indexes and one from the count, or nothing |
| EpollHandler.EpollHandler.WritePacketToConn | oryx/EpollHandler.cpp:187-219 | queues and sends; a payload that is empty or fits into 4096 bytes behind the unsent ones, its 4 bytes of length included, leaves the connection as it is unless the last `send` returned 0 or a real error; otherwise OnClose is submitted first and the device removed second; a payload that does not fit is not sent at all |
| EpollHandler.EpollHandler.DoTask | oryx/EpollHandler.cpp:43-71 | executing a task changes tables and queues as the protocol's dispatch says |
| EpollHandler.EpollHandler.TakeTask | oryx/thread.cpp:83-93 | one round of the worker's task loop is a run of worker steps that starts with taking the task |
| EpollHandler.EpollHandler.DoAccept | oryx/EpollHandler.cpp:326-355 | submits one Conn task per accepted descriptor, in order, as an internal client if the listener is internal and as an external one if it is external |
| EpollHandler.EpollHandler.DoRead | oryx/EpollHandler.cpp:357-443 | submits one Packet task per complete frame of the stream, in stream order |
| EpollHandler.EpollHandler.DoWrite | oryx/EpollHandler.cpp:445-507 | sends from the buffer of the named device and touches no other device |
| EpollHandler.EpollHandler.DoClientEvent | oryx/EpollHandler.cpp:288-322 | one event writes, then reads if the last `send` did not fail; the worker steps are its frames in stream order, then, exactly if the last `send` returned 0 or an error or the last `recv` did not end in would-block, OnClose and the removal |
| EpollHandler.EpollHandler.DoEvent | oryx/EpollHandler.cpp:280-322 | one event slot is the run of worker steps that the device's type asks for; an unknown descriptor is ignored |
| EpollHandler.EpollHandler.DoEpollEvents | oryx/EpollHandler.cpp:276-324 | the event loop is a run of worker steps |
| EpollHandler.EpollHandler.WholeHistory | oryx/EpollHandler.cpp:357-507 | of every connection a worker holds, over its whole life: sent and waiting bytes are the accepted payloads framed, whole and in order, and the parse of all bytes received is the frames delivered and the bytes in the window |
| Connection.EventRuns | oryx/EpollHandler.cpp:288-322 | the frames of one event, and the report and removal if it failed, are a run of the whole protocol from any state, which records exactly those frames for the session |
| Connection.TakeRuns | oryx/thread.cpp:83-93 | a worker's taking of a task, with the removal it may ask for, is a run of the whole protocol from any state |
| Connection.AcceptRuns | oryx/EpollHandler.cpp:326-355 | so are the steps of the accept loop, if the descriptors are new |
| RunningWorker.RunningWorker.TakeTask | oryx/thread.cpp:83-93 | from a state that agrees with the worker's tables, queues and byte streams, taking and executing a task is a run of the protocol to one that agrees again |
| RunningWorker.RunningWorker.Serve | oryx/EpollHandler.cpp:280-322 | the same for one event slot of any device; the log of a session grows by exactly the bytes `recv` returned for it |
| RunningWorker.RunningWorker.Others | oryx/thread.cpp:35-104 | the same for every step of main and of the other workers, which reach the worker only through its two queues |
| RunningWorker.InsertIsSilent | oryx/EpollHandler.cpp:167-179 | when a worker takes the Insert of a session nothing has been read for it yet |
| RunningWorker.OthersKeep | oryx/thread.cpp:35-104 | a step of another thread changes neither the worker's devices nor the frames recorded for its sessions |
| RunningWorker.ReadLogged | oryx/EpollHandler.cpp:370-440 | what a connection delivers for bytes read is what they add to the parse of all its bytes |
| RunningWorker.RunningWorker.PacketsComeFromBytes | oryx/EpollHandler.cpp:430-436 | over every run made of the worker's calls and the others' steps, the packets main executes for a session are, in order, the first frames of the parse of all bytes its connection has received, also after it is gone; all of them once main has executed the OnClose |
| ProtocolPreserved.LocalStep | oryx/EpollHandler.cpp:43-324 | every worker step keeps the worker's part of the invariant |
| ProtocolPreserved.HalfWorkerStep | oryx/EpollHandler.cpp:43-324 | every worker step keeps the relation between one session at main and at its worker |
| ProtocolPreserved.HalfMainStep | oryx/ClientConnManager.cpp:29-60 | every main step keeps that relation, in particular closes that cross a peer's close |
| ProtocolPreserved.HalfExecute | task/task_clientConn.cpp:43-46 | so does main's execution of the oldest task of the session's own worker |
| ProtocolPreserved.WorkersKept | oryx/thread.cpp:35-104 | every step of the system keeps the local invariants of all workers |
| ProtocolPreserved.SessionsKept | task/task_clientConn.cpp:5-15 | every step of the system keeps the relation for all sessions |
| ProtocolPreserved.InsertAccepted | oryx/EpollHandler.cpp:167-179 | under the invariant the Insert at the head of a queue is not rejected |
| ProtocolDescriptors.DescriptorsKept | oryx/EpollHandler.cpp:221-355 | every step keeps each open descriptor in the one place recorded for it |
| ProtocolDescriptors.StreamOrderKept | oryx/EpollHandler.cpp:430-436 | every step keeps the submitted Packet tasks of a session equal to the frames read, in order |
| ProtocolTheorems.StepInv | task/task_clientConn.cpp:5-15 | the invariant is inductive over every step of main and the workers |
| ProtocolTheorems.RunInv | oryx/thread.cpp:35-104 | the invariant holds after every run |
| ProtocolTheorems.TablesAgreeAtQuiescence | oryx/ClientConnManager.cpp:29-60 | whenever nothing is queued and no thread is between two steps, the sessions main holds for a worker are exactly the non-listener sessions in its device table |
| ProtocolPlaces.OpenerTellsPlace | oryx/EpollHandler.cpp:153-185 | in every run a descriptor is in the hands of the listener machinery (queued, filed, or rejected) if and only if it was last opened by starting a listener; one that came from accept never is |
| ProtocolPlaces.StrandedIsListener | oryx/EpollHandler.cpp:221-226 | over every run a descriptor that a worker rejected, so that it is open and nowhere, was opened by starting a listener |
| ProtocolPlaces.DescriptorInOnePlace | oryx/EpollHandler.cpp:221-355 | over every run an accepted descriptor that is still open is in exactly one place: a Conn or Insert task, main's hand, or one worker's table; no descriptor is in two places, and one that is not open is nowhere |
| ProtocolPlaces.ListenerRejectedIff | oryx/EpollHandler.cpp:221-226 | over every run a worker rejects the listener at the head of its queue if and only if it already has one |
| ProtocolPlaces.ListenerInPlaceIff | oryx/EpollHandler.cpp:153-165 | for listeners the property fails, exactly so: whatever happens after a listener is started on a worker, once it has been taken it is in a place if and only if no listener was there or queued there when it was started; otherwise it stays open and is nowhere |
| ProtocolPlaces.SecondListenerNowhere | oryx/EpollHandler.cpp:221-226 | a run of four steps that leaves a second listener open and nowhere |
| ProtocolTheorems.InsertNeverRejected | oryx/EpollHandler.cpp:221-226 | over every run the rejection branch of `addDevice` is not taken for a client connection |
| ProtocolTheorems.PacketsThenOneClose | oryx/EpollHandler.cpp:211-216 | over every run each session has at most one OnClose, no packet and nothing else about it follows, and its packets reach main in stream order, all of them before the OnClose |
| ProtocolTheorems.OneWorkerPerSession | oryx/EpollHandler.cpp:167-179 | no other worker ever holds the session, is told of it or reports it |
| ProtocolTheorems.OrphanPacketMeansMainClosed | logic/TestAction.cpp:16-21 | a packet that finds no session on main belongs to a session main itself has closed |
| ProtocolTheorems.MainLeavesTablesAlone | oryx/thread.cpp:59-70 | no step of main or of another worker changes a worker's tables, although main calls the same virtual `dotask` |
| ProtocolTheorems.IndexesAgree | oryx/EpollHandler.cpp:221-274 | over every run both indexes of a worker key the same devices, and the pressure change since the start equals the change of their size |
| SessionIds.CounterStep | oryx/ClientConnManager.cpp:67-68 | the counter stays in 1..100000 and is the candidate's number modulo 100000 plus 1 |
| SessionIds.EqualCandidates | oryx/ClientConnManager.cpp:65-73 | two candidates coincide if and only if they are drawn in the same second and a multiple of 100000 draws apart |
| SessionIds.ConsecutiveDistinct | oryx/ClientConnManager.cpp:65-73 | any 100000 consecutive candidates are pairwise distinct, for any clock readings |
| SessionIds.TriedSize | oryx/ClientConnManager.cpp:65-73 | a stretch of at most 100000 candidates has as many different values |
| SessionIds.DistinctIffRate | oryx/ClientConnManager.cpp:65-73 | with a clock that does not go back, no candidate repeats over a run if and only if no second sees more than 100000 draws |
| SessionIds.RateInNumbers | oryx/ClientConnManager.cpp:65-73 | that is so if and only if any two draws 100000 apart are in different seconds |
| SessionIds.SearchEndsIff | oryx/ClientConnManager.cpp:65-75 | for every clock and from wherever the counter is, the search ends, and within 100000 draws, if and only if some counter value in 1..100000 has no live id congruent to it |
| SessionIds.FreeCandidate | oryx/ClientConnManager.cpp:67-68 | at such a counter value the candidate is free, whatever the clock says |
| SessionIds.BlockingClock | oryx/ClientConnManager.cpp:65-75 | without such a value there is a clock that keeps the search going for any number of draws |
| SessionIds.FewLeaveSomeFree | oryx/ClientConnManager.cpp:65-75 | fewer than 100000 live ids leave such a value |
| ClientConnManager.ClientConnManager.GetRandNewSession | oryx/ClientConnManager.cpp:62-76 | if some counter value has no live id congruent to it, it stops within live + 1 and within 100000 draws, for any clock; the id is the last clock reading times 100000 plus the draw's number modulo 100000 plus 1, not in the table, and never returned before if the rate is respected |
| ClientConnManager.ClientConnManager.AddNewConn | oryx/ClientConnManager.cpp:15-27 | adds the session unless the id is present, and says which |
| ClientConnManager.ClientConnManager.RemoveSessionConn | oryx/ClientConnManager.cpp:50-60 | removes exactly that session |
| ClientConnManager.ClientConnManager.CloseConn | oryx/ClientConnManager.cpp:29-40 | pushes a Delete to the session's own worker and then removes the session; nothing if it is unknown; a run of main's protocol steps |
| ClientConnManager.ClientConnManager.SendMsgToConn | oryx/ClientConnManager.cpp:78-101 | pushes a Send to the session's own worker exactly if the session is known and the size is 1..4096 |
| ClientConnManager.ClientConnManager.ExecuteConn | task/task_clientConn.cpp:5-15 | draws a new id, pushes the Insert to a worker of least pressure and then adds the session for that worker; a run of main's protocol steps |
| ClientConnManager.ClientConnManager.ExecuteTask | oryx/thread.cpp:59-70 | executing any task from a worker is a run of main's protocol steps that begins with that task; a packet changes nothing at main |
| RunningMain.MainRunsLift | oryx/ClientConnManager.cpp:29-60 | main's steps with their posts are a run of the whole protocol from any state with main there, if new connections get new ids and existing workers; it delivers exactly these posts |
| RunningMain.ExecuteRunsLift | oryx/thread.cpp:59-70 | the same when main begins with the oldest task of a worker, which leaves the worker alone |
| RunningMain.IdsGrow | oryx/ClientConnManager.cpp:62-76 | each search adds one id to those issued, a new one if the clock does not go back or below 0 and no second sees more than 100000 draws |
| RunningMain.ClockInNumbers | oryx/ClientConnManager.cpp:65-73 | the clock condition in numbers: readings from 0 on that never go down, and any two draws 100000 apart in different seconds |
| RunningMain.RunningMain.Execute | oryx/thread.cpp:59-70 | under that clock condition alone, executing a task is a run of the protocol to a state that agrees with main's table again, all ids new |
| RunningMain.RunningMain.Close | oryx/ClientConnManager.cpp:29-40 | so is closing a session |
| RunningMain.RunningMain.SendMsg | oryx/ClientConnManager.cpp:78-101 | so is sending a message |
| RunningMain.RunningMain.SessionsAgree | oryx/ClientConnManager.cpp:29-60 | over every run made of main's calls and the workers' steps, at quiescence main's table has for a worker exactly the sessions of the worker's table |
| ThreadManager.RouteIsUnique | oryx/threadManager.cpp:19-47 | the table and the pressures determine the route |
| ThreadManager.ThreadManager.GetLessPressureThread | oryx/threadManager.cpp:19-47 | the thread asked for, or for id 0 the first in table order whose pressure no other thread's is below; none only if there is none |
| ThreadManager.ThreadManager.AddThread | oryx/threadManager.cpp:49-62 | adds a thread unless its id is present |
| ThreadManager.ThreadManager.PushTask | oryx/threadManager.h:32-42 | the task goes to the end of the routed worker's queue and to no other; for id 0 no worker has less pressure than that one; -1 and no push if there is no route |
| SpscQueue.StepInv | oryx/spsc_queue.h:18-59 | pushed = popped ++ ring ++ live cache is kept by every single ring operation, also between the copy of a cached item and its erasure |
| SpscQueue.Fifo | oryx/spsc_queue.h:18-59 | over every interleaving the queue is FIFO without loss or duplication |
| SpscQueue.StepsAsQueue | oryx/spsc_queue.h:18-59 | push appends to and pop takes from one sequence, and all other ring operations do not show on it |
| SpscQueue.SpscQueue.EnterPush | oryx/spsc_queue.h:18-24 | a new item goes behind a cache that is not empty, or on to the ring: the step that begins a push |
| SpscQueue.SpscQueue.OfferItem | oryx/spsc_queue.h:26-29 | the item goes to the ring or, if it is full, to the cache |
| SpscQueue.SpscQueue.DrainOne | oryx/spsc_queue.h:42-51 | one test of the loop with its ring push |
| SpscQueue.SpscQueue.EraseFront | oryx/spsc_queue.h:46 | the front of the cache is dropped only after it is in the ring |
| SpscQueue.SpscQueue.TakeFront | oryx/spsc_queue.h:34-37 | takes the oldest item of the ring, wherever the producer is |
| TaskEngine.LaneStepInv | oryx/thread.cpp:59-104 | each step of submitter or executor keeps account of every task of one direction |
| TaskEngine.LaneExactlyOnce | oryx/task.h:25-36 | submitted = completed ++ under way, and completion order follows execution order follows submission order |
| TaskEngine.EveryTaskOnce | oryx/thread.cpp:35-104 | over any interleaving of the two threads' ring operations on the four queues, every task of both directions is executed and completed exactly once, in order |
| TaskEngine.EngineExactlyOnce | oryx/thread.h:77-83 | the same from four empty queues of the source's capacity on |
| TaskEngine.OthersLeaveOwn | oryx/thread.h:50-83 | no step of one thread changes what the other relies on: its ends of the queues, its scratch nodes, what it has taken, executed and completed |
| Thread.Thread.EveryTaskAccounted | oryx/thread.h:77-83 | in every state that the code reaches, whatever calls either thread has made: every task submitted in either direction is executed and completed exactly once, in order, or is still under way |
| Thread.Thread.Interfere | oryx/thread.cpp:35-104 | while the other thread runs, this thread's own part stays as it is |
| Thread.Thread.Push | oryx/spsc_queue.h:18-32 | adds exactly the new task behind, with steps of the other thread at every point between the ring operations; at the last of them the cache was empty or the ring full |
| Thread.Thread.CheckCache | oryx/spsc_queue.h:39-59 | moves a prefix of the cache into the ring, returns its size, and stops where the cache was empty or the ring full |
| Thread.Thread.MoveOne | oryx/spsc_queue.h:42-51 | the front of the cache is moved, or stays if the ring was full at the attempt |
| Thread.Thread.PopTask | oryx/thread.cpp:63 | takes the oldest task if the ring was not empty at that moment |
| Thread.Thread.RunBody | oryx/thread.cpp:65 | the task is executed, and exactly what its body submits is pushed, in order |
| Thread.Thread.ReturnTask | oryx/thread.cpp:66 | the executed task goes to the queue that takes it back |
| Thread.Thread.ExecuteTasks | oryx/thread.cpp:59-93 | tasks are taken, executed and pushed back in order, with the pushes of their bodies between, until 1024 are done or the ring was empty at a pop; a run of engine steps together with the other thread's |
| Thread.Thread.CompleteTasks | oryx/thread.cpp:72-104 | takes back and completes in order until the ring was empty at a pop |
| Thread.Thread.PushTaskThread | oryx/thread.h:50-61 | main's push reaches the worker's queue exactly once and changes nothing else of main's |
| Thread.Thread.PushTaskMain | oryx/thread.h:63-74 | the worker's push reaches main's queue exactly once and changes nothing else of the worker's |
| Thread.Thread.UpdateMain | oryx/thread.cpp:35-45 | main's update completes and executes in order all that is there up to 1024 executions, pushes what the executed tasks submit, refills both its rings until the cache is empty or the ring full, and returns how many; each of these was so at its own moment of the joint run |
| Thread.Thread.UpdateThread | oryx/thread.cpp:47-57 | the worker's update does the same on its side |
| EngineQueues.EngineSimulates | oryx/spsc_queue.h:18-59 | over every interleaving of ring operations on the four queues, what waits in the two queues of new tasks, rings and caches together, is what plain queues would hold after the same submissions and takes |
| EngineQueues.CodeSimulates | oryx/thread.h:50-83 | so it is in every state that the code of both threads reaches |
| EngineQueues.ProtocolSimulates | oryx/thread.cpp:59-93 | over every run of the protocol a worker's inbox and outbox are plain queues too |
| EngineQueues.EngineCarriesProtocol | oryx/thread.h:77-83 | if engine and protocol see the same submissions and takes, the protocol's inbox and outbox of a worker are what waits in its engine's queues |
| Timer.TickAligns | oryx/TimerControl.cpp:23-38 | from an aligned time an update leaves the multiple of the interval at or below now, or 0 after a backward jump, and fires exactly if it reaches a later multiple |
| Timer.RemTruncates | oryx/TimerControl.cpp:27-30 | the `%` of C++ is the one number of the sign of the dividend and smaller than the divisor that leaves a multiple of it |
| Timer.TickAny | oryx/TimerControl.cpp:21-38 | for any interval and any last time: an update fires exactly if now >= last + interval; then the new time is a number of intervals away from the last, between it and now and within one interval of now; otherwise it is 0 if now < last and unchanged if not |
| Timer.AlwaysAligned | oryx/TimerControl.cpp:9-41 | over any run, also with a clock that goes back, `lastRunTime` is a multiple of the interval |
| Timer.FiresOncePerPeriod | oryx/TimerControl.cpp:9-41 | with a clock that does not go back a timer fires exactly once for each distinct positive now / interval that an update sees |
| Timer.BackwardJumpRepaired | oryx/TimerControl.cpp:35-38 | after any run a jump back past the last run time resets to 0 without firing, and after any further run the next update that fires leaves the multiple of the interval at or below now |
| Timer.FiringAligns | oryx/TimerControl.cpp:21-38 | after any run, also with a clock that jumps, an update that fires leaves the multiple of the interval at or below now, and fires exactly if that is a later period |
| Timer.SilentUntilFired | oryx/TimerControl.cpp:21-38 | from a reset on a timer is silent exactly as long as no update comes at the interval or later |
| Timer.TimerControl.Update | oryx/TimerControl.cpp:9-41 | every timer makes its own step, and the number returned is the number of timers with a function for which now >= last + interval; one without a function is not touched |
| Timer.TimerControl.Register | oryx/TimerControl.cpp:43-50 | appends one timer that has never run, for any interval |
| Timer.UpdateOne | oryx/TimerControl.cpp:18-38 | the in-place arithmetic computes the timer's step, fires exactly if there is a function and now >= last + interval, and keeps an aligned time aligned |
| Packet.HeaderRoundTrip | oryx/packet.cpp:142-153 | a header gives back length, operate code and error code, for all 32-bit values and any body |
| Packet.VersionSurvivesIff | oryx/packet.h:10-13 | the version comes back if and only if, modulo 65536, it equals the operate code divided by 65536, whose upper half is written over it |
| Packet.VersionLost | oryx/packet.h:10-13 | an input for which the version does not come back |
| Packet.GrowthEndsIff | oryx/packet.cpp:203-213 | with 32-bit doubling the growing loop reaches a length if and only if it is at most 2^30; for a greater one it never ends |
| Packet.CapacityIff | oryx/packet.cpp:203-213 | the capacities are exactly 256 times a power of two |
| Packet.DoubledWraps | oryx/packet.cpp:203-213 | doubling in 32 bits is doubling modulo 2^32, in the range of a signed number |
| Packet.CapacityBelowLimit | oryx/packet.cpp:203-213 | below 2^30 a capacity of 256 times a power of two can always be doubled within 2^30 |
| Packet.Packet.CheckLen | oryx/packet.cpp:192-227 | capacity becomes 256 times a power of two that covers the length, 256 or less than twice the length if it grew, and the bytes in use are kept |
| Packet.Packet.WriteData | oryx/packet.cpp:47-56 | writes exactly the given bytes at the position, growing if needed |
| Packet.Packet.Write | oryx/packet.cpp:58-98 | a 32-bit field in network order at any offset, growing if needed; nothing else in use is changed |
| Packet.Packet.WriteHead | oryx/packet.cpp:142-153 | the front of the buffer is the current fields in network order: length at 0, the first two bytes of the version at 4, operate code at 6, error code at 10, whatever the length field says, and the bytes in use behind it are kept |
| Packet.Packet.New | oryx/packet.cpp:8-14 | a packet without payload of length 14, version 1 and capacity 256; its buffer begins with 0, 0, 0, 14, 0, 0 and the two codes in network order |
| Packet.Packet.FromBytes | oryx/packet.cpp:16-31 | keeps the bytes and reads length, version, operate code and error code back from offsets 0, 4, 6 and 10; fewer than 14 bytes give an empty packet |
| Packet.Packet.Append | oryx/packet.cpp:155-165 | on any packet the length field and the bytes in use grow by what is appended; the bytes from the 15th in use on are in the buffer, and the header is current |
| Packet.Packet.GetRealData | oryx/packet.cpp:167-176 | the bytes in use behind the first 14: the body of a received packet; of a built one it lacks the first 14 bytes appended, and is what was appended if and only if nothing was |
| Packet.BuildPacket | oryx/packet.cpp:155-165 | over any sequence of appends the capacity is 256 times a power of two and covers the length, which is 14 plus the total |
| Packet.SendAndReceive | oryx/packet.cpp:8-31 | a packet without payload is decoded to the same length, operate code and error code |
| InnerMapSpec.SharedIffEqual | proto/protocolbuf-windows/include/google/protobuf/map.h:319-322 | two buckets of a pair hold the same non-empty thing if and only if they share a tree |
| InnerMapSpec.FoundIffPresent | proto/protocolbuf-windows/include/google/protobuf/map.h:646-670 | searching a key's own bucket finds exactly the node the map has for it |
| InnerMapSpec.ConvertKeeps | proto/protocolbuf-windows/include/google/protobuf/map.h:842-871 | turning a list and its sibling into a shared tree represents the same map |
| InnerMapSpec.InsertedKeeps | proto/protocolbuf-windows/include/google/protobuf/map.h:676-726 | inserting a node with a new key represents the map with that key, whatever the hash and in each of the four cases, and no list exceeds 8 nodes |
| InnerMapSpec.ErasedKeeps | proto/protocolbuf-windows/include/google/protobuf/map.h:606-631 | erasing a node represents the map without its key |
| InnerMapOrder.OrderVisits | proto/protocolbuf-windows/include/google/protobuf/map.h:422-440 | the scan from any bucket on meets exactly the nodes whose home is not before it, each once |
| InnerMapOrder.OrderIsContents | proto/protocolbuf-windows/include/google/protobuf/map.h:422-469 | the order of iteration has every node of the map exactly once, and as many as the map has keys |
| InnerMapOrder.NextInOrder | proto/protocolbuf-windows/include/google/protobuf/map.h:450-469 | the node after one in a list or tree, or the first after its buckets, is its successor in that order |
| InnerMapOrder.MovedMore | proto/protocolbuf-windows/include/google/protobuf/map.h:778-784 | moving one bucket, or one shared pair, moves exactly the keys with their home there |
| InnerMapOrder.NextSizeFits | proto/protocolbuf-windows/include/google/protobuf/map.h:736-767 | growing and shrinking keep the number of buckets a power of two of at least 8 |
| InnerMapOrder.NextSizeExact | proto/protocolbuf-windows/include/google/protobuf/map.h:736-767 | in numbers: from 12/16 of the buckets on the table doubles, unless it has more than 2^59; between 3/16 and 12/16, or with 8 buckets, it stays; below, it shrinks by the least power of two by which a quarter more elements and one would reach 12/16 of the buckets, to no less than 8 |
| InnerMapLinks.PointerTest | proto/protocolbuf-windows/include/google/protobuf/map.h:828-840 | in every reachable table the comparison of the pointers of a pair tells empty, list and tree apart |
| InnerMapLinks.EraseFromLinkedList | proto/protocolbuf-windows/include/google/protobuf/map.h:807-814 | the recursion over the links takes exactly that node out of the chain and gives the new head |
| InnerMapLinks.ListFind | proto/protocolbuf-windows/include/google/protobuf/map.h:649-657 | following the links finds the node with the key, or null exactly if the list has none |
| InnerMapSorted.PlaceParts | proto/protocolbuf-windows/include/google/protobuf/map.h:377-381 | for a strict total order a new node goes behind all lesser keys and before all greater ones |
| InnerMapSorted.TreeAddSorted | proto/protocolbuf-windows/include/google/protobuf/map.h:377-381 | adding a node with a new key keeps a tree sorted |
| InnerMapSorted.TreeAddAllSorted | proto/protocolbuf-windows/include/google/protobuf/map.h:860-871 | so does adding the nodes of a list one by one |
| InnerMapSorted.OrderedAdd | proto/protocolbuf-windows/include/google/protobuf/map.h:718-726 | insertion into a tree keeps all trees of the table sorted |
| InnerMapSorted.OrderedConvert | proto/protocolbuf-windows/include/google/protobuf/map.h:842-856 | turning two lists into a tree keeps all trees of the table sorted |
| InnerMapSorted.OrderedErase | proto/protocolbuf-windows/include/google/protobuf/map.h:606-631 | erasing a node keeps all trees of the table sorted |
| InnerMapSorted.OrderAscends | proto/protocolbuf-windows/include/google/protobuf/map.h:422-440 | from any bucket on, the order of iteration goes from lesser to greater keys in a tree and from bucket to bucket otherwise |
| InnerMapSorted.IterationAscends | proto/protocolbuf-windows/include/google/protobuf/map.h:450-469 | of two nodes of one pair of buckets that share a tree, the one visited first has the lesser key; of other nodes, the bucket of the one visited first does not come later |
| InnerMapTable.InnerMap.constructor | proto/protocolbuf-windows/include/google/protobuf/map.h:339-348 | an empty map in a table of n buckets, or 8 if n is less |
| InnerMapTable.InnerMap.FindHelper | proto/protocolbuf-windows/include/google/protobuf/map.h:646-670 | returns the map's node for the key, or null exactly if there is none, and the bucket where it is or belongs |
| InnerMapTable.InnerMap.InsertUniqueInList | proto/protocolbuf-windows/include/google/protobuf/map.h:710-714 | the node is linked in front of its list, and the map gets its key |
| InnerMapTable.InnerMap.InsertUniqueInTree | proto/protocolbuf-windows/include/google/protobuf/map.h:718-726 | the node, its link cleared, is added to the tree that both buckets of the pair share, whose keys then ascend, and the map gets its key |
| InnerMapTable.InnerMap.CopyListToTree | proto/protocolbuf-windows/include/google/protobuf/map.h:860-871 | follows the links, adds the nodes one by one to the tree, clears every link and counts; a sorted tree without these keys is sorted again |
| InnerMapTable.InnerMap.TreeConvert | proto/protocolbuf-windows/include/google/protobuf/map.h:842-856 | both buckets share one new tree of exactly their nodes, none of them linked, with ascending keys; the map is the same |
| InnerMapTable.InnerMap.TableEntryIsTooLong | proto/protocolbuf-windows/include/google/protobuf/map.h:875-886 | counts whether the list has 8 nodes |
| InnerMapTable.InnerMap.InsertUnique | proto/protocolbuf-windows/include/google/protobuf/map.h:676-706 | the map gets the key, every invariant is kept, and the first index is still the least non-empty bucket; a list becomes a tree exactly if it had 8 nodes |
| InnerMapTable.InnerMap.TransferList | proto/protocolbuf-windows/include/google/protobuf/map.h:788-795 | every node of an old list is in the new table, although inserting a node overwrites its link |
| InnerMapTable.InnerMap.TransferTree | proto/protocolbuf-windows/include/google/protobuf/map.h:797-805 | every node of an old tree is in the new table |
| InnerMapTable.InnerMap.TransferBucket | proto/protocolbuf-windows/include/google/protobuf/map.h:778-805 | moves the nodes of one old bucket or pair, and of no other, into the new table, and leaves the links of the rest as they were |
| InnerMapTable.InnerMap.Resize | proto/protocolbuf-windows/include/google/protobuf/map.h:770-786 | the table has the new number of buckets and the map is the same |
| InnerMapTable.InnerMap.ResizeIfLoadIsOutOfRange | proto/protocolbuf-windows/include/google/protobuf/map.h:736-767 | the map is the same, and the number of buckets is the next size for the load, twice as many from 12/16 on and the same from 3/16 to there; says whether it changed |
| InnerMapTable.InnerMap.Insert | proto/protocolbuf-windows/include/google/protobuf/map.h:564-579 | inserts the pair if the key is not present, keeps every other pair, and says which |
| InnerMapTable.InnerMap.Revalidate | proto/protocolbuf-windows/include/google/protobuf/map.h:481-505 | finds the node's bucket from an arbitrarily stale iterator, and whether it is in a list |
| InnerMapTable.InnerMap.EraseFromList | proto/protocolbuf-windows/include/google/protobuf/map.h:611-616 | removes exactly that node from its list, whose other nodes keep their order, and empties the bucket with the last one |
| InnerMapTable.InnerMap.EraseFromTree | proto/protocolbuf-windows/include/google/protobuf/map.h:617-627 | removes exactly that node from the shared tree, and empties both buckets with the last one |
| InnerMapTable.InnerMap.Erase | proto/protocolbuf-windows/include/google/protobuf/map.h:606-637 | removes exactly that key, also through a stale iterator, and keeps every invariant, the element count and the first index |
| InnerMapTable.InnerMap.SkipEmpty | proto/protocolbuf-windows/include/google/protobuf/map.h:631-636 | moves the first index to the least non-empty bucket |
| InnerMapTable.InnerMap.SearchFrom | proto/protocolbuf-windows/include/google/protobuf/map.h:422-440 | finds the first node at or after a bucket in the order of iteration |
| InnerMapTable.InnerMap.Begin | proto/protocolbuf-windows/include/google/protobuf/map.h:399-401 | the first node of the order, or none |
| InnerMapTable.InnerMap.Next | proto/protocolbuf-windows/include/google/protobuf/map.h:450-469 | the successor in the order, or none, by the node's link or, without one, through its bucket, also from a stale bucket index |
| InnerMapTable.InnerMap.LinkInOrder | proto/protocolbuf-windows/include/google/protobuf/map.h:465-467 | only a node in a list has a link, and it leads to the node's successor in the order of iteration |
| InnerMapTable.InnerMap.Iterate | proto/protocolbuf-windows/include/google/protobuf/map.h:516-519 | a loop from begin to end visits each element exactly once, `num_elements_` in all, those of one tree in ascending order of their keys and otherwise bucket after bucket |

## Left out

- Sockets, epoll, pthreads, signals, daemonising, logging and clock reads: oracles or parameters.
- Failure of `EpollRegister`: no OnClose reaches main then, so table agreement is not claimed for it.
- Liveness under edge-triggered epoll, such as stopping a read on EINTR: safety and termination only.
- The bodies of packet handlers (`MessageHandler`, `TestAction`, `PlayerManager`): a packet at main has no further effect here.
- `onSessionBegin`, `onSessionClose`, the deletion order of session records, socket addresses and the stored thread ids of tasks.
- That the two threads' submissions in the engine are those of the protocol is the hypothesis of `EngineQueues.EngineCarriesProtocol`: tasks there have no bodies in common with those of `EpollHandler`.
- Main and a worker each run their code against all other threads as protocol steps (`RunningMain`, `RunningWorker`), not both as code at once.
- Closing a descriptor and erasing it from the tables are one step of the protocol; the table operations of different workers touch disjoint state.
- Thread.Thread.Interfere: the other thread's schedule is finite, so it submits finitely many tasks during one call; `CompleteTasks` has no limit of its own and would not end otherwise.
- Overlapping `memcpy` is an ascending copy loop; NULL data and sizes of 0 or less are the empty sequence.
- 64-bit overflow of seconds times 100000, and of milliseconds.
- The initial value of the pressure counter, which the source leaves unset: only its change is claimed.
- `ThreadManager::init` and `ThreadManager::update`: the creation of four workers and a loop over `update_main`.
- A load-factor bound for `InnerMap`, which the shrinking computation does not keep.
- `clear`, the destructor, `operator[]` and the allocators of `InnerMap`.
- EpollHandler.EpollHandler.DoRead: pushes its Packet tasks after the read loop and not inside it; the protocol's steps push them one by one.
- RunningMain.RunningMain.Execute: requires a worker thread for a connection, and a free counter value.
- Device.ReadLoop: `recv` returns the bytes, which are then copied into the buffer, instead of writing through a pointer.
- Timer.TimerControl.Update: requires that the update divides by no interval of 0, which the source does not check.
- Packet.Packet.CheckLen: for lengths up to 2^30, exactly those for which the loop ends (`Packet.GrowthEndsIff`); the same bound is in `WriteData`, `Write`, `WriteHead`, `Append` and `FromBytes`.
- ClientConnManager.ClientConnManager.GetRandNewSession: requires a free counter value, the exact condition for the loop to end (`SessionIds.SearchEndsIff`).
- ClientConnManager.ClientConnManager.ExecuteConn: without a worker thread it changes nothing, and that is not a step of the protocol, whose main always routes a connection it has taken.
- InnerMapTable.InnerMap.ResizeIfLoadIsOutOfRange: sizes are unbounded integers; the source's stay below 2^64 since the table never exceeds 2^60 buckets.
