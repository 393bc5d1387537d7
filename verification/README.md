# Ratkinia server: verified model

The server runs actors on a pool of worker threads, talks to its clients over TLS sessions and keeps its
game objects in hand-written containers.  This project models five of its cores and the login actor, and
proves what each of them is for.

- **Frame barrier and mailboxes** (`FrameProtocol`, `FrameSafety`, `FrameTheorems`, `FrameFairness`, `Actor`).  The main thread
  and the workers as an interleaved step system; the double-buffered mailbox is safe because the barrier
  never lets two workers run one actor, so the two proofs are one invariant.  `Actor` is the actor object.
- **Session pipeline** (`Ring`, `Framing`, `SessionReceive`, `SessionSend`, `SessionProtocol`, `SessionSafety`,
  `SessionTheorems`, `SessionProgress`, `SessionUpkeep`).  Ring buffers and framing as objects over real arrays; the send scheduler, the
  "I/O online" flags and teardown as a step system over any number of threads.
- **Slot-map stack** (`Pages`, `PoolLinks`, `PoolFreeLinks`, `IndexedUnmanagedList`, `DensePairing`, `SparseArray`, `SparseList`,
  `EntityManager`, `Possession`).  The node pool as a heap of nodes with Next and Prev references; each of
  its methods performs exactly the link update that `PoolLinks` defines on values, where the list theorems
  are proved.  The containers and the two-way possession map are built on its contracts.
- **Parallel executor** (`ParallelProtocol`, `ParallelClaims`, `ParallelSafety`, `ParallelStops`,
  `ParallelTheorems`, `ParallelTermination`, `ResultPages`, `ParallelPages`).  Chunk claiming on a 32-bit index
  under every interleaving, with the wrapped first claim, the exact condition under which every index is run
  once and the exact condition under which the call terminates; the result pages with their iterator, and the
  worker's loop over its page as a run of the worker's steps.
- **Byte queue** (`SpscRingBuffer`).  The ring as an object, and again with both sides split into single
  loads, byte copies and stores that work from stale snapshots.
- **Login** (`Auth`).  Two job queues, a background thread and two inverse maps, and who is going to be online
  once the jobs so far have been answered.

`Arithmetic`, `Counting` and `Types` hold what the modules share.  In the step systems every atomic operation or lock region
is one step and memory is sequentially consistent; fields called observing in the comments record history
and influence no step.  A check that ends the program is modelled as a result that says so, and the
contracts state when it happens.  16- and 32-bit values are integers with their range; shifts and masks are
written as quotients and remainders.

The code is followed where it may surprise: the first claim of a parallel loop is always empty, and
`CreateAt` and `Erase` leave `Prev` as it was, so the lists survive a mixture of `Create`, `CreateAt` and
`Erase` only in the case that `CreateAtKeepsLinkedIff` states.  Some promises fail on inputs the program can
meet; each of these has its exact condition here: a wrapped frame body larger than `MessageMaxSize`
(`PeekReceivedMessage`, `OverrunDependsOnPosition`), a full receive ring (`FillApp`, `CompletionReadable`), claims
that start over (`ExactlyOnceIff`), claims that never meet an index without an axis (`TerminatesIff`), and a
login answered after its context has disconnected (`HandleSessionDisconnected`, `LateLogin`).

## Model

| member | source | states |
|---|---|---|
| `FrameSafety.NextInv` | Source/MainServer.cpp:51-115 | every step of the main thread, of a worker and of a pusher, spurious wakeups included, keeps the barrier invariant (no worker behind the version, countdown = workers not yet finished, one reason for the wake flag), the claim invariant (index i is below the work index exactly when one worker holds it or its run of this frame is done) and the mailbox invariant |
| `FrameSafety.SoleHolder` | Source/MainServer.cpp:94-111 | an actor that is claimed or being run in a frame has exactly one holder, and has run exactly version - 1 times |
| `FrameSafety.FrameOver` | Source/MainServer.cpp:63-72 | when the wake flag is up, every worker has left the frame, the shared index was claimed exactly A + N times and every actor has run `version` times |
| `FrameTheorems.RunsAreExclusive` | Source/MainServer.cpp:94-112 | in every reachable state of every interleaving no actor is inside Run on two workers |
| `FrameTheorems.LeavingTheWait` | Source/MainServer.cpp:55-72 | the main thread leaves its wait only when every actor has run exactly as often as the version says, nobody holds an actor, A + N claims were made and the flag was raised once per frame |
| `FrameTheorems.ProgramCanMove` | Source/MainServer.cpp:55-72 | in every state the invariant allows some thread can move without a spurious wakeup: no deadlock and no lost wakeup |
| `FrameTheorems.WorkDecreases` | Source/MainServer.cpp:82-111 | every step of a worker lowers a lexicographic measure (claims left with the positions of workers and main thread, then unhandled messages of the runs in progress) |
| `FrameTheorems.PushKeepsMeasure` | Source/Actor/Actor.h:56-62 | a push of any thread leaves that measure and the version as they are, so handlers and other threads may push as much as they like |
| `FrameTheorems.FramesGoOn` | Source/MainServer.cpp:51-111 | in every infinite run in which the threads of the program go on being scheduled and spurious wakeups come to an end, pushes at any rate included, every frame is followed by a later one |
| `FrameFairness.FramesGoOnFairly` | Source/MainServer.cpp:51-111 | in every infinite run that is fair to each thread every frame is followed by a later one, whatever is pushed and however often threads are woken in vain |
| `FrameFairness.SomeUseful` | Source/MainServer.cpp:51-111 | in every state some thread is neither blocked nor about to test its condition in vain |
| `FrameFairness.OthersKeep` | Source/MainServer.cpp:51-111 | a push, a spurious wakeup or a vain test leaves the measure and the useful threads as they are |
| `FrameTheorems.FrameEnds` | Source/MainServer.cpp:51-111 | while the version stands still the program takes at most as many steps that lower the first component as it had at the start, one more for each spurious wakeup; pushes do not enter |
| `FrameSafety.RunMailboxKeeps` | Source/Actor/Actor.cpp:8-32 | a step of Run keeps handled ++ unread ++ push queue equal to the push history, whatever other threads push, and a completed run has handled everything pushed before the frame was published |
| `FrameTheorems.HistoryIsPushed` | Source/Actor/Actor.h:56-62 | the recorded history of a mailbox is exactly what the schedule pushed to that actor, in order |
| `FrameTheorems.DeliveryConserves` | Source/Actor/Actor.cpp:8-29 | at every moment handled ++ rest of the read queue ++ push queue is the sequence of pushes: nothing lost, duplicated or reordered |
| `FrameTheorems.HandledByTheNextFrame` | Source/Actor/Actor.cpp:8-32 | whatever had been pushed while the version was v is handled once a later frame is over |
| `Actors.DynamicActor.PushMessage` | Source/Actor/Actor.h:56-62 | a null message is refused; any other is appended to the queue that the push index selects |
| `Actors.DynamicActor.RegisterHandler` | Source/Actor/Actor.h:73-77 | a second handler for one message type is the crash check |
| `Actors.DynamicActor.Run` | Source/Actor/Actor.cpp:8-29 | takes exactly the steps of Run in the frame protocol, with messages arriving in front of any of them, from the mailbox before to the mailbox after; delivers exactly what was pushed before the flip, in push order, each to its handler or to the unknown-message hook, and leaves exactly what arrives from the flip to the end of Tick |
| `Actors.StepsOfRun` | Source/Actor/Actor.cpp:8-29 | the steps of one Run, with messages arriving in front of any of them, handle the push queue and what arrives up to the flip, and leave the rest in the new push queue |
| `Ring.AdvanceIsModulo` | Source/Session.h:136-140 | the index arithmetic is addition modulo the capacity |
| `Ring.WriteAppends` | Source/Session.h:40-55 | a write split at the end of the buffer, followed by the move of the tail, appends the data to the ring contents for every head and tail |
| `Ring.ReadIsPrefix` | Source/Session.h:57-71 | a split read of an available size yields exactly that prefix of the contents |
| `Ring.AdvanceHeadDrops` | Source/Session.h:136-140 | moving the head drops exactly that prefix |
| `Framing.HtonsInvolution` | Source/Session.h:30-33 | the byte swap is its own inverse on all 16-bit values |
| `Framing.EncodeLayout` | Source/Session.h:208-223 | on the wire the type is bytes 0 and 1, the body length modulo 2^16 bytes 2 and 3, each with its high byte first, and the body follows from byte 4 |
| `Framing.FrameLayout` | Source/Session.cpp:287-333 | a frame is read exactly when the bytes announced by bytes 2 and 3 are there, with the type of bytes 0 and 1 and that body |
| `Framing.FrameRoundTrip` | Source/Session.h:208-223 | an encoded message followed by anything parses back to itself exactly when its body is shorter than 2^16; a longer body comes back cut to its length modulo 2^16 |
| `Framing.StrictPrefixIncomplete` | Source/Session.cpp:287-313 | a proper prefix of a frame is never taken for a frame |
| `Framing.StreamRoundTrip` | Source/Session.cpp:280-337 | any sequence of frames followed by an incomplete one parses to exactly that sequence and that rest |
| `Framing.FragmentationInvisible` | Source/NetworkServer.cpp:277-290 | peeking and popping after every fragment gives the same messages and the same rest as parsing the whole stream at once |
| `Framing.FramingRoundTrip` | Source/Session.cpp:280-337 | frames delivered in arbitrary fragments come back as exactly the sequence sent, leaving the strict prefix of the next one |
| `SessionReceive.CompletionReadable` | Source/Session.cpp:108-110 | a completion written into the empty ring is readable exactly when it is shorter than the buffer; one that fills the buffer makes the ring look empty |
| `SessionReceive.SessionReceiver.TryReceiveAsync` | Source/Session.cpp:49-99 | arms exactly when no receive is online, the session is not closing and the socket accepts; the flag is down again otherwise |
| `SessionReceive.SessionReceiver.FeedBio` | Source/Session.cpp:345-374 | the TLS ring, both stretches of it, moves into the read BIO and is left empty |
| `SessionReceive.SessionReceiver.FillApp` | Source/Session.cpp:376-428 | without a TLS error succeeds exactly when application ring and pending bytes stay below the capacity minus one, and then everything TLS does not hold back has moved to the end of the ring; on failure the published contents are unchanged |
| `SessionReceive.SessionReceiver.TryPostReceive` | Source/Session.cpp:101-137 | without a TLS error a completion is processed exactly when there is room, and then application ring and what TLS holds back are the old ones followed by the completion; a completion of the full capacity is the one that is lost, and the TLS ring is empty afterwards |
| `SessionReceive.SessionReceiver.PeekReceivedMessage` | Source/Session.cpp:280-337 | overruns the pop buffer exactly for a complete first frame whose body is larger than MessageMaxSize and wraps; in every other case returns exactly the first complete frame, for every wrap position, and changes nothing |
| `SessionReceive.OverrunDependsOnPosition` | Source/Session.cpp:317-332 | one and the same frame overruns the pop buffer at one ring position and is returned in place at another |
| `SessionReceive.FittingNeverOverruns` | Source/Session.cpp:317-332 | frames whose bodies are at most MessageMaxSize never overrun, wherever they lie |
| `SessionReceive.SessionReceiver.PopReceivedMessage` | Source/Session.h:136-140 | drops exactly that many bytes |
| `SessionReceive.SessionReceiver.DeliverMessages` | Source/NetworkServer.cpp:277-290 | the drain loop overruns exactly when it comes to a frame too large where it lies; otherwise it delivers exactly the complete frames of the application ring, in order, and leaves the incomplete rest |
| `SessionReceive.SessionReceiver.PostReceive` | Source/NetworkServer.cpp:266-299 | without a TLS error a completion is processed exactly when there is room; if it is and no frame overruns, the actor has been given exactly the frames of everything received, up to the end TLS holds back, and the ring holds exactly the incomplete frame; the receive is re-armed exactly under the conditions of the code, and the next one cannot overwrite unread bytes |
| `SessionSend.SessionSender.EncryptQueue` | Source/Session.cpp:454-500 | until the queue is found empty everything in it, what arrives before each look included, is encrypted in push order; it fails only by a TLS error |
| `SessionSend.SessionSender.DrainBio` | Source/Session.cpp:502-538 | succeeds exactly when ring and pending bytes fit below the capacity, then appends all of them; otherwise publishes nothing |
| `SessionSend.SessionSender.TryProcessSendBuffers` | Source/Session.cpp:449-541 | without a TLS error succeeds exactly when ring, BIO and the encodings of all queued messages stay below the capacity, and then the ring has grown by exactly those; on failure no unsent byte changes |
| `SessionSend.SessionSender.SendWindow` | Source/Session.cpp:200-207 | what is handed to the socket is a prefix of the ring contents, empty only if the ring is, and all of it unless it wraps |
| `SessionSend.SessionSender.TrySendAsync` | Source/Session.cpp:139-229 | at most one send is online; with something to send, room and no TLS error the ring grows by exactly the encodings, and a nonempty contiguous prefix of it is submitted if the socket accepts; a refused request leaves it in the ring; the flag is up exactly after a submission |
| `SessionSend.SessionSender.TryPostSend` | Source/Session.cpp:231-242 | drops exactly the completed bytes and takes the flag down |
| `SessionSend.StepsMatchBuffers` | Source/Session.cpp:449-541 | the thread steps of the protocol, in any chunking and with pushes between any two of them, add up to exactly what the buffer code does to queue, BIO and ring |
| `SessionSafety.NextInv` | Source/Session.cpp:139-278 | every step of every thread keeps: one owner per raised flag, byte conservation on the send path, somebody attending to unsent data, and the teardown bookkeeping |
| `SessionSafety.ConservationKept` | Source/Session.cpp:449-541 | wire ++ ring ++ staged ++ BIO ++ encoded queue stays equal to the encoding of all pushed messages |
| `SessionTheorems.NoMessageStranded` | Source/Session.cpp:139-169 | while an open session has anything left to send, an InitiateSend is pending, a send is online, or a thread is about to enter the routine that puts one online |
| `SessionTheorems.FlagsHaveOwners` | Source/Session.cpp:141-262 | a flag is up exactly while one thread or one outstanding request owns it; at most one send is outstanding |
| `SessionTheorems.PushedIsSent` | Source/NetworkServer.h:44-55 | what was pushed is exactly what the schedule sent to the entered session, in order |
| `SessionTheorems.QuiescentHasSentAll` | Source/NetworkServer.cpp:302-326 | in every quiescent open session the wire carries the encodings of all messages sent, and the frame parser returns exactly those messages |
| `SessionTheorems.WireIsPrefix` | Source/Session.cpp:231-242 | until a send fails, completed bytes followed by the ring are a prefix of the encoded messages, and the ring stays below its capacity |
| `SessionTheorems.BusyThreadsMove` | Source/NetworkServer.cpp:162-187 | while some thread is busy some busy thread can move |
| `SessionUpkeep.ReceiveGoesOn` | Source/NetworkServer.cpp:266-299 | in every reachable state an open session has its receive online or a thread about to process one or arm the next |
| `SessionUpkeep.QuiescentReceives` | Source/NetworkServer.cpp:266-299 | a quiescent open session has a receive outstanding |
| `SessionUpkeep.ArmedOnce` | Source/Session.cpp:49-63 | a thread about to arm a receive never finds one online |
| `SessionUpkeep.CompletionsProcessed` | Source/Session.cpp:101-137 | the receive completions taken are those processed and those a thread is about to process |
| `SessionUpkeep.DoomedIff` | Source/NetworkServer.cpp:328-358 | a session is closing or bound to if and only if a reason has come up: a TLS error, a refused request, a receive that could not be processed, a failed completion, a disconnect, or bytes without room in the ring |
| `SessionUpkeep.DisconnectCloses` | Source/NetworkServer.h:39-42 | after DisconnectSession the session is marked for closing or a thread is about to mark it, for the rest of the run |
| `SessionUpkeep.ClosedWithCause` | Source/NetworkServer.cpp:328-358 | at rest, with a reason and no receive outstanding the session has been erased and announced exactly once; without a reason it is in the table and waits for its client |
| `SessionUpkeep.CloseSeesFlags` | Source/Session.cpp:270-278 | Close returns true only when all three flags are down |
| `SessionUpkeep.OutcomesPossible` | Source/NetworkServer.cpp:162-187 | an idle thread can be given exactly the outcomes of the outstanding requests |
| `SessionUpkeep.FailuresPossible` | Source/Session.cpp:139-229 | TLS, socket and receive processing can fail exactly where the program calls them |
| `SessionProgress.StepsBounded` | Source/Session.cpp:139-278 | between two moments the threads take at most as many steps as the work left and the inputs (messages, receive completions, disconnects, empty send completions) account for, whatever the schedule |
| `SessionProgress.MovesUntilQuiescent` | Source/NetworkServer.cpp:162-187 | until the session is quiescent some thread can take a step without an input |
| `SessionProgress.ClosingIsErased` | Source/NetworkServer.cpp:328-358 | a closing session at rest with no receive outstanding has been erased and announced exactly once |
| `SessionTheorems.ClosedStaysDown` | Source/Session.cpp:270-278 | after Close has returned true no Send and no Receive goes online again |
| `SessionTheorems.InitiateOutlivesErase` | Source/Session.cpp:243-255 | InitiateSendAsync does not look at the closing mark: one that starts between a Close that returned true and the erase is still outstanding after the erase |
| `SessionTheorems.ErasedWithInitiate` | Source/Session.cpp:243-255 | every first state with two threads has a run that ends erased with an InitiateSend online |
| `SessionTheorems.NoInitiateAfterErase` | Source/NetworkServer.h:44-55 | after the erase no InitiateSend goes online any more |
| `SessionTheorems.TeardownCompletes` | Source/NetworkServer.cpp:328-358 | a closing session with all flags down and no thread on a cleanup path has been erased, with exactly one disconnect message once the eraser is through |
| `SessionTheorems.AnnouncedAtMostOnce` | Source/NetworkServer.cpp:339-357 | at most one disconnect message is ever pushed, and only after a successful Close and the erase |
| `PoolLinks.CreateKeepsLinked` | Source/Util/MemoryPool/IndexedUnmanagedList.h:139-165 | Create moves the first free node to the front of the allocated list: both lists stay acyclic, disjoint and complete, and the allocated one stays doubly linked |
| `PoolLinks.EraseKeepsLinked` | Source/Util/MemoryPool/IndexedUnmanagedList.h:218-256 | Erase moves a live node, wherever it stands, to the front of the free list, with both lists well-formed |
| `PoolLinks.PrependKeepsLinked` | Source/Util/MemoryPool/IndexedUnmanagedList.h:172-182 | a new page in front of the free list, empty or not, keeps both lists well-formed |
| `PoolLinks.RefillLinked` | Source/Util/MemoryPool/IndexedUnmanagedList.h:141-145 | with an empty free list a new page becomes the free list |
| `PoolLinks.GrowLinked` | Source/Util/MemoryPool/IndexedUnmanagedList.h:170-182 | adding pages until an index exists keeps both lists well-formed |
| `PoolLinks.CreateAtKeepsLinkedIff` | Source/Util/MemoryPool/IndexedUnmanagedList.h:191-213 | CreateAt keeps the lists well-formed exactly when the node heads the free list with a clear Prev link; in every other case they break |
| `PoolFreeLinks.CreateKeepsFreeBack` | Source/Util/MemoryPool/IndexedUnmanagedList.h:139-165 | Create keeps the free list doubly linked behind its head and clears the Prev of the new head |
| `PoolFreeLinks.EraseKeepsFreeBack` | Source/Util/MemoryPool/IndexedUnmanagedList.h:218-256 | Erase keeps it so, and the new free head has a clear Prev exactly if it was the first allocated node |
| `PoolFreeLinks.PrependKeepsFreeBack` | Source/Util/MemoryPool/IndexedUnmanagedList.h:172-182 | so does a new page, whose first node has a clear Prev |
| `PoolFreeLinks.CreateAtAfterErase` | Source/Util/MemoryPool/IndexedUnmanagedList.h:191-256 | erasing a node and creating it again in place keeps the lists well-formed exactly if it was the first allocated node |
| `PoolFreeLinks.CreateAtAfterCreate` | Source/Util/MemoryPool/IndexedUnmanagedList.h:139-213 | CreateAt at the free head is safe after a Create |
| `PoolLinks.MixedHistoryReturnsLiveIndex` | Source/Util/MemoryPool/IndexedUnmanagedList.h:139-256 | a concrete mixed history after which a live node heads the free list |
| `Pages.PagedLookup` | Source/Util/MemoryPool/IndexedUnmanagedList.h:261-269 | page and slot arithmetic: an index is found in its page exactly when it exists |
| `UnmanagedList.IndexedUnmanagedList.ExtendPage` | Source/Util/MemoryPool/IndexedUnmanagedList.h:288-319 | a new page is unallocated, initialized, numbered and chained in index order; existing nodes, links and data are untouched |
| `UnmanagedList.IndexedUnmanagedList.Create` | Source/Util/MemoryPool/IndexedUnmanagedList.h:139-165 | on any pool, mixed histories included: returns the head of the free list or the first node of a new page, adds exactly its index to the live set and keeps every stored datum; the index was live before exactly if a live node headed the free list, which well-formed lists exclude and which keep well-formed |
| `UnmanagedList.IndexedUnmanagedList.CreateAt` | Source/Util/MemoryPool/IndexedUnmanagedList.h:167-216 | null exactly when the index is live; otherwise exactly that index becomes live, whatever the links say, and no node moves or loses its data |
| `UnmanagedList.IndexedUnmanagedList.Erase` | Source/Util/MemoryPool/IndexedUnmanagedList.h:218-256 | removes exactly the index from the live set, nothing if it is not live; data and all other flags stay |
| `UnmanagedList.IndexedUnmanagedList.Get` | Source/Util/MemoryPool/IndexedUnmanagedList.h:258-270 | the node of a live index, null otherwise |
| `UnmanagedList.IndexedUnmanagedList.Iterate` | Source/Util/MemoryPool/IndexedUnmanagedList.h:57-62 | visits exactly the nodes of the allocated chain, each once with its datum, whenever that chain ends; with well-formed lists these are exactly the live indices |
| `UnmanagedList.IndexedUnmanagedList.LinkedCanIterate` | Source/Util/MemoryPool/IndexedUnmanagedList.h:57-62 | with well-formed lists the allocated chain ends |
| `Pages.GrowPages` | Source/Util/MemoryPool/SparseArray.h:80-87 | page growth ends, reaches the index and keeps every earlier slot at its index |
| `DensePairing.InsertPaired` | Source/Util/MemoryPool/SparseArray.h:71-92 | adding an index at the count keeps the two directions inverse |
| `DensePairing.RemovePaired` | Source/Util/MemoryPool/SparseArray.h:94-141 | swap and pop keeps the two directions inverse |
| `DensePairing.PairedCount` | Source/Util/MemoryPool/MakeIterableFromThis.h:34-62 | the dense slots below the count list the live indices without repetition, and there are exactly count of them |
| `SparseArrays.ErasedMap` | Source/Util/MemoryPool/SparseArray.h:94-141 | after swap and pop the array stands for the map without the erased key, every other key keeping its value |
| `SparseArrays.SparseArray.Emplace` | Source/Util/MemoryPool/SparseArray.h:71-92 | adds one key that was not in use with its value, and changes no other |
| `SparseArrays.SparseArray.EraseBySparseIndex` | Source/Util/MemoryPool/SparseArray.h:94-141 | removes exactly the key; the first crash check fails exactly for an absent key, the second never |
| `SparseArrays.SparseArray.Get` | Source/Util/MemoryPool/SparseArray.h:143-157 | the value of a live key, none otherwise |
| `SparseArrays.SparseArray.Iterate` | Source/Util/MemoryPool/SparseArray.h:176-188 | iteration over the dense slots lists every key once with its value |
| `SparseLists.Erased` | Source/Util/MemoryPool/SparseList.h:98-137 | the pure effect of an erase: the map loses exactly the key and the dense listing stays duplicate-free |
| `SparseLists.SparseList.EmplaceAt` | Source/Util/MemoryPool/SparseList.h:89-96 | refines map insertion whatever the state of the node links; crashes exactly for a live key; the value lives in the node of its index and no node moves |
| `SparseLists.SparseList.EraseBySparseIndex` | Source/Util/MemoryPool/SparseList.h:98-137 | refines map removal; the first crash check fails exactly for an absent key, the page check and the unchecked pointer never |
| `SparseLists.SparseList.Get` | Source/Util/MemoryPool/SparseList.h:139-150 | the value of a live key, none otherwise |
| `SparseLists.SparseList.Iterate` | Source/Util/MemoryPool/SparseList.h:163-180 | the dense listing names every live key once |
| `Entities.PackParse` | Source/Entity.h:65-73 | parsing a packed handle returns id and version, each cut to its field |
| `Entities.PackInjective` | Source/Entity.h:18-20 | two packed handles are equal exactly when both fields agree |
| `Entities.HandleLayout` | Source/Entity.h:18-20 | a handle is its version in the upper 12 bits and its id in the lower 20, the null handle all ones |
| `EntityHistory.CreationsCounted` | Source/EntityManager.h:75-81 | the number of creations is how often the history creates the slot |
| `EntityHistory.LiveIff` | Source/EntityManager.h:75-104 | a slot is live exactly if one of its creations is not followed by a destruction |
| `EntityHistory.CreateCounts` | Source/EntityManager.h:75-81 | storing the incremented version counts one more creation modulo 2^12, on freshly added pages too |
| `EntityHistory.HandleLives` | Source/EntityManager.h:96-111 | a created handle is what Get returns for its slot until it is destroyed |
| `EntityHistory.HandleMatches` | Source/EntityManager.h:96-120 | a handle matches its slot again exactly when the slot is live and has been re-created a multiple of 2^12 times |
| `EntityManagement.EntityManager.Create` | Source/EntityManager.h:75-81 | a handle for a slot that was not live, whose version is the number of the slot's creations modulo 2^12 |
| `EntityManagement.EntityManager.Destroy` | Source/EntityManager.h:96-104 | destroys exactly when the handle is current; a stale or unknown handle changes nothing |
| `EntityManagement.EntityManager.Get` | Source/EntityManager.h:107-111 | the current handle of a live slot, the null handle otherwise |
| `Possession.InverseIsBijective` | Source/GlobalObject/G_Possession.cpp:7-45 | context and entity belong together in one map exactly when they do in the other, versions included; no slot is possessed twice |
| `Possession.G_Possession.TryPossess` | Source/GlobalObject/G_Possession.cpp:7-21 | possesses exactly when both sides are free, in both maps; never hits a crash check |
| `Possession.G_Possession.UnpossessByContext` | Source/GlobalObject/G_Possession.cpp:23-33 | releases exactly the context and what it possesses, in both maps; never hits a crash check |
| `Possession.G_Possession.UnpossessByEntity` | Source/GlobalObject/G_Possession.cpp:35-45 | releases exactly when the version matches; never hits a crash check |
| `ParallelClaims.RoomIsEnough` | Source/Floweryclover/ParallelExecutor.h:284-285 | count + (W + 1) chunks within 2^32 is enough for no claim to wrap |
| `ParallelClaims.NoWrapComplete` | Source/Floweryclover/ParallelExecutor.h:282-293 | without wrapping a complete call makes exactly count / chunk + 1 + W claims, and each index lies in exactly one claimed chunk |
| `ParallelClaims.HitsOnceIff` | Source/Floweryclover/ParallelExecutor.h:282-293 | for every chunk size from 1 to 2^32 - 1: the claims of a complete call take every index with an axis exactly once if and only if no claim after the first chunk starts inside that chunk again |
| `ParallelClaims.NoReturnHits` | Source/Floweryclover/ParallelExecutor.h:282-293 | as long as no claim starts over no index with an axis is in two claimed chunks |
| `ParallelClaims.NoWrapNoReturn` | Source/Floweryclover/ParallelExecutor.h:284-287 | a call that does not wrap does not start over |
| `ParallelClaims.StartsOverRepeats` | Source/Floweryclover/ParallelExecutor.h:284-287 | a claim that starts inside the first chunk takes its first index a second time |
| `ParallelClaims.NoReturnIffNoWrap` | Source/Floweryclover/ParallelExecutor.h:284-287 | with at least one chunk of axes some claim starts over exactly when the last worker's last claim wraps |
| `ParallelClaims.EmptyChunks` | Source/Floweryclover/ParallelExecutor.h:284-287 | every claim of a chunk size that is 0 modulo 2^32 fetches 0, takes no index and stops nobody |
| `ParallelSafety.ClaimRange` | Source/Floweryclover/ParallelExecutor.h:284-287 | a claim whose fetched value is below the chunk size, the first one included, gets an empty chunk through the unsigned wrap-around; any other gets the chunk in front of the value |
| `ParallelSafety.NextInv` | Source/Floweryclover/ParallelExecutor.h:279-322 | every step of the caller and the workers keeps, wrapping or not: each index was run or is held exactly as often as a claimed chunk contained it, and exactly the claims that meet a missing axis have made a worker stop |
| `ParallelTheorems.NeverTwice` | Source/Floweryclover/ParallelExecutor.h:282-308 | while no claim has started over, at no moment of any interleaving has an index been run twice; one without an axis is never run |
| `ParallelTheorems.ReturnedIdle` | Source/Floweryclover/ParallelExecutor.h:313-322 | when the call returns every flag is down and the claims made are those of a complete call, which count, chunk and W determine |
| `ParallelTheorems.ExactlyOnceIff` | Source/Floweryclover/ParallelExecutor.h:274-325 | for every chunk size from 1 to 2^32 - 1 and every number of axes, a call that returns has run every index exactly once, under every interleaving, if and only if none of its claims starts over |
| `ParallelTheorems.ExactlyOnceIffNoWrap` | Source/Floweryclover/ParallelExecutor.h:274-325 | with at least one chunk of axes the condition is that the last worker's last claim does not wrap |
| `ParallelTheorems.ChunkIsCut` | Source/Floweryclover/ParallelExecutor.h:284-287 | a chunk size beyond 32 bits acts as its low 32 bits |
| `ParallelTheorems.CollectedAsOften` | Source/Floweryclover/ParallelExecutor.h:295-306 | collecting over a list of indices yields every result as often as positions in the list return it |
| `ParallelTheorems.ResultsOfRuns` | Source/Floweryclover/ParallelExecutor.h:295-306 | at every moment a started worker holds every result as often as the indices it has run return it |
| `ParallelTheorems.ResultsComplete` | Source/Floweryclover/ParallelExecutor.h:274-325 | when no claim has started over, the workers of a returned call hold every result exactly as often as there are indices below the count whose task returns it |
| `ParallelStops.FetchedBelow` | Source/Floweryclover/ParallelExecutor.h:284-285 | no claim fetches a value closer to 2^e than the largest power of two that divides the chunk size |
| `ParallelStops.LargestReached` | Source/Floweryclover/ParallelExecutor.h:284-285 | some claim fetches a value exactly that close |
| `ParallelStops.SomeClaimStopsIff` | Source/Floweryclover/ParallelExecutor.h:282-293 | some claim meets an index without an axis if and only if count + LowBit(chunk) < 2^32 |
| `ParallelStops.HaltsComplete` | Source/Floweryclover/ParallelExecutor.h:282-293 | then for any number of workers there is a claim that stops the last of them, since the fetched values repeat after 2^32 claims |
| `ParallelTermination.TerminatesIff` | Source/Floweryclover/ParallelExecutor.h:279-376 | for every count and chunk size: the length of all executions of a call is bounded if and only if some execution returns, and if and only if there are no workers or the chunk size cut to 32 bits is not zero and count + LowBit(chunk) < 2^32 |
| `ParallelTermination.TerminatesIn` | Source/Floweryclover/ParallelExecutor.h:279-376 | no execution is longer than a measure of its first state that counts the claims of the complete call |
| `ParallelTermination.Terminates` | Source/Floweryclover/ParallelExecutor.h:279-376 | without wrapping these claims are count / chunk + 1 + W |
| `ParallelTermination.CanMove` | Source/Floweryclover/ParallelExecutor.h:313-322 | until the call returns some thread can move |
| `ParallelTermination.NeverReturned` | Source/Floweryclover/ParallelExecutor.h:284-293 | where the condition fails no execution ever brings the caller back |
| `ParallelTermination.NeverReturnsExamples` | Source/Floweryclover/ParallelExecutor.h:284-293 | with 2^32 - 1 axes in chunks of one, and with chunks of zero, no execution returns |
| `ParallelTermination.WrapsAndReturns` | Source/Floweryclover/ParallelExecutor.h:284-293 | two inputs whose claims wrap and for which the call terminates all the same |
| `ResultPages.ElementWritten` | Source/Floweryclover/ParallelExecutor.h:301-306 | writing a block behind the elements appends exactly that element |
| `ResultPages.WorkerThreadResult.ExtendPageAtLeast` | Source/Floweryclover/ParallelExecutor.h:259-272 | doubling ends with at least the requested size, keeps all earlier bytes and overshoots by less than a factor of two or the base |
| `ResultPages.WorkerThreadResult.Append` | Source/Floweryclover/ParallelExecutor.h:301-306 | appends one result behind those the page holds |
| `ResultPages.Iterator.Begin` | Source/Floweryclover/ParallelExecutor.h:215-227 | starts at the first element of the first thread that has one |
| `ResultPages.Iterator.Next` | Source/Floweryclover/ParallelExecutor.h:162-174 | passes exactly the current element, skipping empty threads |
| `ResultPages.VisitAll` | Source/Floweryclover/ParallelExecutor.h:139-236 | the range loop visits exactly the concatenation of all threads' results |
| `ParallelPages.ResetAll` | Source/Floweryclover/ParallelExecutor.h:311-316 | the caller leaves every page valid and without elements before the workers start |
| `ParallelPages.PartOfCall` | Source/Floweryclover/ParallelExecutor.h:279-322 | in a returned execution each worker's part is a run of its own steps, from its raised flag with no results to its end |
| `ParallelPages.WorkOnPage` | Source/Floweryclover/ParallelExecutor.h:279-311 | the claiming loop on a real page, given the values its claims fetch, leaves in the page exactly the results that the worker's steps give it |
| `ParallelPages.VisitReturned` | Source/Floweryclover/ParallelExecutor.h:274-325 | when no claim has started over, under every interleaving, iterating over the pages of a returned call visits every result exactly as often as there are indices below the count whose task returns it |
| `SpscRing.SpscRingBuffer.TryEnqueue` | Source/SpscRingBuffer.h:47-81 | appends all of the data or nothing, and refuses exactly when it does not fit below the capacity |
| `SpscRing.SpscRingBuffer.TryPeek` | Source/SpscRingBuffer.h:88-108 | the prefix of that size, in place or reassembled, exactly when it is there; a request larger than the reassembly buffer overruns it exactly when it wraps |
| `SpscRing.SpscRingBuffer.Dequeue` | Source/SpscRingBuffer.h:83-86 | drops exactly that prefix |
| `SpscProtocol.NextRefines` | Source/SpscRingBuffer.h:47-108 | every load, byte copy and store of either side keeps the invariant and is, seen from outside, one queue operation or none |
| `SpscProtocol.FifoBounded` | Source/SpscRingBuffer.h:47-108 | what was dequeued is a prefix of what was enqueued, the queue holds the rest, at most capacity - 1 bytes |
| `SpscProtocol.ViewIsPrefix` | Source/SpscRingBuffer.h:88-108 | a peeked view stays equal to the queue's prefix until it is given up, whatever the producer does |
| `SpscProtocol.RefusalJustified` | Source/SpscRingBuffer.h:50-54 | TryEnqueue refuses exactly when the data did not fit when the head was loaded; staleness only underestimates room |
| `SpscProtocol.EmptyPeekJustified` | Source/SpscRingBuffer.h:90-94 | TryPeek is empty exactly when the data was not there when the tail was loaded |
| `SpscProtocol.EnqueueAlone` | Source/SpscRingBuffer.h:47-81 | the producer's steps, taken alone, leave buffer and tail exactly as the object's TryEnqueue does |
| `SpscProtocol.PeekAlone` | Source/SpscRingBuffer.h:88-108 | the consumer's steps, taken alone, end in the view, the refusal or the overrun of the object's TryPeek |
| `SpscProtocol.CanStep` | Source/SpscRingBuffer.h:47-108 | a side inside an operation has a step, an overrun apart |
| `SpscProtocol.OperationsFinish` | Source/SpscRingBuffer.h:47-108 | until the next call a side takes at most as many steps as its position in the current operation says, whatever the other side does |
| `Auth.InverseIsBijective` | Source/Actor/A_Auth.cpp:205-219 | no account is online under two contexts and no context under two accounts |
| `Auth.A_Auth.OnlineIsAuthenticated` | Source/Actor/A_Auth.cpp:195-219 | whoever is online has an answered login with the right password for an existing account, and nobody else is online for it |
| `Auth.FaultlessIff` | Source/Actor/A_Auth.cpp:99-133 | a registration is faultless exactly when both lengths and all characters are allowed |
| `Auth.FaultWhen` | Source/Actor/A_Auth.cpp:99-133 | each reason for refusing a registration is given exactly under its condition, in the order of the checks, with the allowed characters written out |
| `Auth.A_Auth.OnRegisterRequest` | Source/Actor/A_Auth.cpp:99-140 | a registration is enqueued exactly when nothing is wrong with it and otherwise refused; each of the six reasons is sent exactly under its own condition on lengths and characters |
| `Auth.A_Auth.OnLoginRequest` | Source/Actor/A_Auth.cpp:142-170 | a context that is online is notified and disconnected; any other request is enqueued with the id and hash that the look-up of its account finds, under the invalid id when the account is unknown |
| `Auth.A_Auth.HandleSessionDisconnected` | Source/Actor/A_Auth.cpp:75-85 | takes exactly the context and its account out of both maps; it is then gone exactly if no login job of it is unanswered, and once the jobs so far are answered it is online again if and only if one of them is a matching login of it whose account is offline at its turn |
| `Auth.A_Auth.GoneIsNotOnline` | Source/Actor/A_Auth.cpp:75-85 | whoever has disconnected with no login job unanswered, and has not asked since, is not online and will not be when all jobs have been answered |
| `Auth.ComesOnlineIff` | Source/Actor/A_Auth.cpp:195-219 | an offline context comes online exactly by a matching login of its own whose account is offline when its turn comes |
| `Auth.LockedOut` | Source/Actor/A_Auth.cpp:201-219 | while an account is online no waiting login for it succeeds |
| `Auth.LateLogin` | Source/Actor/A_Auth.cpp:75-85 | the concrete failing case: a login answered after its context has disconnected puts it online, and the next login for the account is a DuplicateAccount |
| `Auth.A_Auth.BackgroundPop` | Source/Actor/A_Auth.cpp:34-44 | the oldest background job goes into the thread's hand; the order of all jobs is kept |
| `Auth.A_Auth.BackgroundPush` | Source/Actor/A_Auth.cpp:51-63 | the executed job goes to the end of the foreground queue: a registration with the hash of its password, a login matching exactly for a valid id and a matching password |
| `Auth.A_Auth.TickOnce` | Source/Actor/A_Auth.cpp:176-254 | the first foreground job gets exactly one answer: a login Failure, DuplicateContext, DuplicateAccount or Success exactly under its condition, a registration what creating that account with that hash comes to; a success puts context and account online together, and who will be online in the end does not change |
| `Auth.A_Auth.Tick` | Source/Actor/A_Auth.cpp:172-256 | jobs are answered in order until the queue is found empty or a failed login or registration ends the tick |

## Left out

- SessionReceive.SessionReceiver.PostReceive: does not overlap two receive completions of one session, although the drain loop comes after the re-arm.  What the program does after an overrun of the pop buffer is not modelled.
- SessionSend.SessionSender.TryPostSend: clearing the flag and moving the head are one step in the step system, where the code has two.
- SessionTheorems.InitiateOutlivesErase: the session object lives on in the step system; in the program the erase may free it while that request is outstanding.
- Auth.A_Auth.HandleSessionDisconnected: who comes back online is stated for the jobs unanswered at that moment, with no further request or disconnect until they are answered.
- SparseArrays.SparseArray.Emplace: requires well-formed lists, which its own operations keep; mixtures with `CreateAt` do not occur there.
- ParallelTheorems.ExactlyOnceIff: the indices with an axis are assumed to be a prefix of all indices.
- TLS is an order-preserving byte stream without renegotiation, so the WANT_READ and WANT_WRITE cross-calls never happen; a message popped in front of a WANT_READ is not put back by the code and is not modelled.
- Sockets, completion ports, OpenSSL, the database, bcrypt, protobuf and console output appear only as completions, byte streams, parameters and recorded answers.
- The locking discipline of `sessionsMutex_`: table look-up with the closing mark, and erase, are single steps.
- Weak memory orders; wrap-around of the frame version, of contexts, of the 32-bit node index and of page sizes in `size_t`.
- The protocol header `RatkiniaProtocol.gen.h` is not part of this model; a header is two 16-bit fields and `MessageMaxSize` a parameter.
- The allocation size expression in `PushMessage`, object lifetimes, destructors and what uninitialized memory holds; dense pages are sequences of pages rather than raw blocks.
- Erasing during an iteration: `shouldInvalidateIterator_` is never set by the containers.
- `SparseList::Emplace` has no caller, and its body hands on the address of the node pointer instead of the pointer.
- `ParallelForWorkerThreads`, the executor's construction and shutdown, the protobuf branch of `TryEnqueue` and the unused `MpscMessageBodyPool`.
- `FreeListPool`, `DbConnectionPool`, `G_PlayerCharacters`, the component, event, global-object and system managers, actor look-up by name and `ChangeAssociatedActor`: they would only add easy members.
