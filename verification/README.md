# Verification of ProtoCore2

A Dafny model of the middleware's protocols and proofs about them. `dafny verify dfyconfig.toml`
checks everything.

* `Wrappers.dfy`, `Sequences.dfy` — options and facts about sequences that the others use.
* **Topic pipe** — `Framing.dfy`, `Decoder.dfy` (length-prefixed frames, the incremental decoder),
  `TopicSender.dfy` (send buffers, partial writes, the cache), `TopicReceiver.dfy` (the receive loop
  and its routing), `TopicPipe.dfy` (a publisher and a subscriber joined by a byte stream).
* **Registrar** — `RegistryLog.dfy` (the versioned log, the compacted list, replay), `Registrar.dfy`
  (the class), `Discovery.dfy` (master and listeners as one system), `Rendezvous.dfy` (the connection
  clients of a node), `NodeHandler.dfy` (master, listeners and nodes as one system).
* **Transform tree** — `FrameNames.dfy` (the cache key), `Ancestors.dfy` (chains and the lowest common
  ancestor), `TimeSeries.dfy` (samples of a frame), `Groups.dfy`, `FramePaths.dfy` (products along
  chains), `PlaneMotions.dfy` (a concrete non-commutative group), `TreeNodes.dfy` (what messages make of the
  frames), `TransformTree.dfy` (the class).
* **Services** — `ServiceStream.dfy` (one stream's status machine), `ServiceServer.dfy` (ids and events),
  `ServiceClient.dfy`, `ServiceProtocol.dfy` (a client and a stream joined by FIFO channels),
  `ServiceLosses.dfy` (requests that are lost), `ServiceAnswers.dfy` (requests that are answered).
* **Static gossip** — `Gossip.dfy`.
* **Parameters** — `ParamWatch.dfy` (declaring, setting and watching, interleaved), `ParamServer.dfy`,
  `ParamClub.dfy` (a node's clients and callbacks).

Code that updates its fields is a class or a method with loops, proved against functions on values;
concurrent code is a state machine whose steps are the accesses that other threads can separate.
System calls appear as scripts of outcomes: every theorem holds for all of them.

## Findings

The code, not what its names suggest, is modelled. Where a property one would expect fails, there is
a run that shows it and a condition under which it holds:

* a short successful write leaves `errno` from an earlier call, and the loop may then resend bytes
  (`TopicPipe.StaleErrnoCorrupts`, `TopicPipe.ConservedIffClean`);
* the copy of the cache replaces a buffer that publishes may already have used
  (`TopicPipe.OvertakenAttachLoses`, `Gossip.OvertakenConnectionLoses`, `TopicPipe.ConservedIffClean`);
* an unparsable frame redelivers the messages in front of it with every later chunk
  (`Framing.FailedParseRedelivers`, `Framing.RedeliversIff`);
* a list may run over a version whose slot is not filled yet, and its listener misses that node until it
  leaves (`Discovery.OverrunMissesNode`, `Discovery.MissedForever`, `Discovery.ConvergedIffNoOverrun`); otherwise
  it learns of it (`Discovery.ArrivalIsLearnt`);
* a lookup returns A_to times the inverse of A_from, which is the relative pose exactly when the two
  commute (`PlaneMotions.SiblingsDiffer`, `FramePaths.RelativeIffCommute`);
* frame names with colons share cache keys (`FrameNames.ColonCollides`, `FrameNames.UniqueIff`,
  `FrameNames.ColonFreeIff`, `TransformTrees.CacheServesIff`), and a lookup by another pair's ancestor
  fails, is conjugated, or does not end (`TransformTrees.FoundIff`, `FramePaths.LookupHigher`,
  `TransformTrees.HangsIff`);
* clean-up divides nanoseconds by a thousand, and so drops entries hardly older than the newest and keeps
  old ones for good (`TimeSeries.CleanupIsBackwards`, `TimeSeries.DroppedIff`);
* a request that arrives before the stream is back in SUSPEND is ignored for good
  (`ServiceLosses.RequestIgnored`, `ServiceLosses.IgnoredIff`, `ServiceLosses.IgnoredForever`);
* a future taken after its answer was read and its promise replaced waits for good or gets the next
  request's answer (`ServiceLosses.EarlyAnswerIsLost`, `ServiceLosses.ForeignAnswer`,
  `ServiceProtocol.FuturesMatch`, `ServiceLosses.LockedIff`);
* a close that comes between the write and the future of a request goes unnoticed
  (`ServiceLosses.CloseGoesUnnoticed`, `ServiceLosses.ToldIff`);
* two `declare` calls that race can lose an update (`ParamWatch.RacingDeclarationsLose`,
  `ParamWatch.NothingLostIff`), and a remote `set` that races with `declare` can change a
  constant (`ParamWatch.RemoteSetChangesConstant`, `ParamWatch.ConstantIffNobodyPastChecks`).

## Model

| member | source | states |
|---|---|---|
| `Framing.HeaderRoundTrip` | cpp/include/serialization.hpp:28 | the four-byte little-endian size is read back from in front of any bytes, for every 32-bit size |
| `Framing.HeaderIs` | cpp/include/serialization.hpp:28 | the header is the size in base 256, least significant byte first |
| `Framing.SizeTestExact` | cpp/include/serialization.hpp:53-60 | the mixed signed/unsigned size test says whether the frame is complete exactly when the 32-bit sum does not wrap, and always for sizes below 2^31 |
| `Framing.WrappedSizeFails` | cpp/include/serialization.hpp:53-65 | a size so large that the sum wraps passes the test; what lies behind the buffer is taken not to parse |
| `Framing.FramePrefixFree` | cpp/include/serialization.hpp:19-32 | two frames that begin the same bytes carry the same message and leave the same rest |
| `Framing.StreamPrefixFree` | cpp/include/serialization.hpp:19-32 | a byte stream determines its messages: whole frames that begin a stream are the first messages of it |
| `Framing.PrefixSplit` | cpp/include/serialization.hpp:19-32 | every prefix of a stream is some whole frames followed by nothing or a proper prefix of one frame |
| `Framing.DecodeUndoesStream` | cpp/include/serialization.hpp:48-73 | decoding a printed stream from any offset gives back its messages and stops in front of the partial frame |
| `Framing.FeedAdvances` | cpp/src/TCPServer.cpp:160-163 | one append/decode/erase turn in the middle of a stream hands over the next whole messages and keeps a proper prefix of a frame; no byte is lost |
| `Framing.ChunkingIndependence` | cpp/src/TCPServer.cpp:160-163 | for every split of a prefix of a stream into chunks, the messages delivered and the bytes kept are those of decoding it at once, and what is kept is a proper prefix of one frame |
| `Framing.FailedParseRedelivers` | cpp/include/serialization.hpp:63-65 | a frame that does not parse makes `decode` return 0: from any state, whichever chunk completes the frame, nothing is erased from then on and every later chunk delivers the messages in front of it once more |
| `Framing.RedeliversIff` | cpp/include/serialization.hpp:63-65 | later chunks deliver nothing twice if and only if no message was completed in front of the bad frame |
| `Framing.DecodeStopsAtBad` | cpp/include/serialization.hpp:48-73 | decoding a stream with an unparsable frame yields exactly the messages in front of it and reports failure |
| `Decoders.Serialize` | cpp/include/serialization.hpp:19-32 | the buffer filled is the frame of the message |
| `Decoders.SpecifiedDecoder.AddCallback` | cpp/include/serialization.hpp:45-47 | callbacks are kept in the order they were added |
| `Decoders.DecodeTurn` | cpp/include/serialization.hpp:49-70 | one turn of the loop tells a partial, a whole and an unparsable frame at the offset apart, and gives the message and its length |
| `Decoders.DecodeLoop` | cpp/include/serialization.hpp:49-72 | the loop over `offset` gives the messages and the result of the decoding function, for every buffer, wrapped sizes included |
| `Decoders.SpecifiedDecoder.Decode` | cpp/include/serialization.hpp:48-73 | the loop queues the messages of the decoding function behind those queued, and returns its offset, or 0 if a parse failed |
| `Decoders.SpecifiedDecoder.Handle` | cpp/include/serialization.hpp:74-82 | the queue is emptied, every message to every callback in order |
| `Decoders.EveryCallbackSeesAll` | cpp/include/serialization.hpp:74-82 | each registered callback sees every handled message once and in order |
| `TopicSender.WriteConserves` | cpp/src/TCPClient.cpp:114-134 | bytes written plus bytes left are the bytes to send if and only if the loop did not end on a successful short write with `errno` still EAGAIN |
| `TopicSender.HonestNotStale` | cpp/src/TCPClient.cpp:118-131 | with an `errno` that belongs to the call just made, that never happens |
| `TopicSender.LoopStops` | cpp/src/TCPClient.cpp:115-131 | the loop told by its answers: with all before it short and error-free, an error that is not EAGAIN loses what is left and closes the socket, an EAGAIN keeps it, the whole rest ends it, and so does the end of the answers |
| `TopicSender.StopsSomewhere` | cpp/src/TCPClient.cpp:115-131 | every loop has such an end |
| `TopicSender.ClosesIff` | cpp/src/TCPClient.cpp:121-127 | the socket closes if and only if the loop gets as far as an answer that is an error other than EAGAIN |
| `TopicSender.Pump` | cpp/src/TCPClient.cpp:115-131 | the write loop against every sequence of kernel answers: what was taken, what is left, and whether the socket failed |
| `TopicSender.TcpClient.WriteToCache` | cpp/src/TCPClient.cpp:31-34 | true exactly when the frame was not cached for the topic; it is afterwards, and nothing else changes |
| `TopicSender.TcpClient.WriteFd` | cpp/src/TCPClient.cpp:114-134 | the buffer keeps what the loop left; a failed socket leaves its topic with an empty buffer |
| `TopicSender.TcpClient.OfferTo` | cpp/src/TCPClient.cpp:108-110 | one socket: the message is dropped whole above the limit, otherwise appended and written |
| `TopicSender.TcpClient.WriteToSocket` | cpp/src/TCPClient.cpp:105-112 | every visited socket was offered the message, the others are untouched, and all are visited unless one failed |
| `TopicSender.TcpClient.InsertFd` | cpp/src/TCPClient.cpp:78-79 | the descriptor joins its topic; its buffer and all others stay as they are; exactly a descriptor 100 or more beyond the vector is still out of range afterwards |
| `TopicSender.TcpClient.CopyCache` | cpp/src/TCPClient.cpp:80-85 | the copy is every cached frame of the topic exactly once, in any order, one behind the other |
| `TopicSender.TcpClient.AssignData` | cpp/src/TCPClient.cpp:86 | the copy replaces the buffer, whatever was appended meanwhile |
| `TopicSender.TcpClient.Attach` | cpp/src/TCPClient.cpp:77-89 | these steps with nothing in between: the connection starts with exactly the cached frames, each once, and other buffers are untouched; only for descriptors in range |
| `TopicReceiver.TcpServer.AcceptNewClient` | cpp/src/TCPServer.cpp:87-113 | an accepted connection waits for its topic under its own address |
| `TopicReceiver.TcpServer.AcceptClient` | cpp/src/TCPServer.cpp:12-31 | an address waiting is routed to the topic with an empty receive buffer; one not waiting changes nothing |
| `TopicReceiver.TcpServer.CloseAndDelete` | cpp/src/TCPServer.cpp:115-128 | closing removes the address from both tables and empties the buffer |
| `TopicReceiver.TcpServer.ReadOnce` | cpp/src/TCPServer.cpp:159-163 | one turn of the loop calls the callbacks for exactly the messages completed and keeps the rest |
| `TopicReceiver.TcpServer.ReadDry` | cpp/src/TCPServer.cpp:148-167 | the loop over any `recv` results is the chunk-wise intake, whatever it ends with |
| `TopicReceiver.TcpServer.HandleClientEvent` | cpp/src/TCPServer.cpp:130-168 | an event feeds only the decoder its address is routed to, unrouted addresses are ignored, and a hang-up or a closed connection removes that address, and no other, from both tables and empties its buffer |
| `TopicPipe.ConservedIffClean` | cpp/src/TCPClient.cpp:77-134 | over every run: sent bytes plus buffer are the accepted frames in every state if and only if no write of the run ended on a stale `errno` and the copy of the cache was put into an empty buffer |
| `TopicPipe.HonestIsClean` | cpp/src/TCPClient.cpp:118-131 | a kernel whose `errno` is always current gives only such runs, when the connection is made before anything is published to it |
| `TopicPipe.EndToEnd` | cpp/src/TCPServer.cpp:148-167 | for every such run of connecting, publishes, partial writes, drops and chunkings: what the callbacks got is a prefix of what was accepted, which is a subsequence of what was published; equal once both buffers have drained |
| `TopicPipe.BufferBounded` | cpp/src/TCPClient.cpp:105-112 | the send buffer never exceeds the larger of the replayed cache and 65536 plus one frame |
| `TopicPipe.OpenIffNoFailure` | cpp/src/TCPClient.cpp:121-127 | over every run: the socket is open if and only if no write met an error other than EAGAIN |
| `TopicPipe.StaysOpen` | cpp/src/TCPClient.cpp:121-128 | so a run in which the kernel buffer fills up but no write fails never closes it |
| `TopicPipe.AcceptedIffNoDrop` | cpp/src/TCPClient.cpp:105-112 | over every run: everything to be sent got into the buffer if and only if no publish was stopped by another subscriber or found the socket closed or more than 65536 bytes in the buffer |
| `TopicPipe.ListeningIff` | cpp/src/TCPServer.cpp:115-128 | over every run: the subscriber listens until it hangs up, and its callbacks get nothing more from then on |
| `TopicPipe.EverythingArrives` | cpp/src/TCPClient.cpp:77-134 | in every clean run without failures and drops: once drained, the callbacks were given the cached messages and then all that were published, each once and in order |
| `TopicPipe.Drains` | cpp/src/TCPServer.cpp:148-167 | from every state of a clean run, both ends open, one write and some receives deliver all that is in the buffer or under way |
| `TopicPipe.CopyIsStream` | cpp/src/TCPClient.cpp:80-85 | the copy of the cache is the stream of the cached messages |
| `TopicPipe.StaleErrnoCorrupts` | cpp/src/TCPClient.cpp:128 | a run in which the short write with a stale `errno` makes a subscriber receive a message nobody published |
| `TopicPipe.OvertakenAttachLoses` | cpp/src/TCPClient.cpp:78-86 | with any encoding, a run in which a message published while the connection comes up is overwritten by the copy of the cache and never arrives |
| `RegistryLog.AllocateWf` | cpp/src/Registrar.cpp:26 | handing out a version keeps the log well formed, and names that are not alive are free at it |
| `RegistryLog.FillAddWf` | cpp/src/Registrar.cpp:19-23 | filling a slot with an addition, while slots in front of it may be blank and slots behind it filled, keeps the log well formed and makes that name alive, no other |
| `RegistryLog.FillDeleteWf` | cpp/src/Registrar.cpp:27-33 | filling a slot with a deletion keeps it so: the addition points forward to it, and exactly that name is no longer alive |
| `RegistryLog.OneDeleteThenOneAdd` | cpp/src/Registrar.cpp:37-52 | in any list over filled slots, whatever its bounds, a name occurs at most twice: deleted, then added |
| `RegistryLog.CompactionSound` | cpp/src/Registrar.cpp:37-52 | replaying the list up to the last version on the view at its start equals replaying the raw log segment |
| `RegistryLog.ReplayList` | cpp/src/Registrar.cpp:37-52 | replaying a list with any bounds, with deletions beyond the bound already visible, moves a view correctly from its start to its end |
| `RegistryLog.SeesAllocate` | cpp/src/Registrar.cpp:61 | a view stays right when a version is handed out between reading the bound and listing |
| `RegistryLog.SeesFillAdd` | cpp/src/Registrar.cpp:19-23 | and when a slot behind it is filled with an addition |
| `RegistryLog.SeesFillDelete` | cpp/src/Registrar.cpp:27-33 | or with a deletion of a node it has seen |
| `RegistryLog.CaughtUp` | cpp/src/Registrar.cpp:71-76 | a view at the last version holds exactly the alive names other than its own, at their latest addresses |
| `RegistryLog.CurrentUnique` | cpp/src/Registrar.cpp:71-76 | there is only one such view |
| `RegistryLog.NamelessIffBlank` | cpp/src/Registrar.cpp:43-50 | a list names no empty node if and only if no version within its bounds is still unfilled |
| `RegistryLog.NamelessStays` | cpp/src/Registrar.cpp:43-50 | once a view has a nameless node, replaying any further list leaves it there |
| `Registrars.Registrar.FindExistNode` | cpp/src/Registrar.cpp:8-11 | true exactly for the names alive in the log |
| `Registrars.Registrar.Reserve` | cpp/src/Registrar.cpp:20 | the vector grows without touching a filled slot |
| `Registrars.Registrar.NextVersion` | cpp/src/Registrar.cpp:26 | the version is handed out and its slot is blank |
| `Registrars.Registrar.Registration` | cpp/src/Registrar.cpp:13-24 | fills the slot of a version handed out before, also behind the end of the vector; the invariant of the log and of the alive names is kept |
| `Registrars.Registrar.FillDeletion` | cpp/src/Registrar.cpp:27-33 | fills the slot of the deletion and makes the addition point to it; the invariant is kept |
| `Registrars.Registrar.Deregistration` | cpp/src/Registrar.cpp:25-34 | hands out the version and fills it |
| `Registrars.Registrar.List` | cpp/src/Registrar.cpp:37-52 | the loop with its growing skip set gives the specified list |
| `Registrars.ListLoop` | cpp/src/Registrar.cpp:43-50 | the same, for any bounds |
| `Registrars.SkipsExact` | cpp/src/Registrar.cpp:44-48 | the loop skips exactly the deleted additions and the deletions of additions inside the list |
| `Discovery.ApplyKeeps` | cpp/src/Registrar.cpp:53-82 | every step of getting a version, filling its slot, first list, reading the bound, polling, delivery and leaving keeps the invariant |
| `Discovery.Convergence` | cpp/src/Registrar.cpp:53-82 | in every interleaving a caught-up listener, no list to which ran over a blank slot, holds exactly the alive names other than its own, each with the address of its latest registration |
| `Discovery.ConvergedIffNoOverrun` | cpp/src/Registrar.cpp:61-76 | over runs whose nodes have names, a caught-up listener has converged if and only if no list to it ran over a blank slot |
| `Discovery.OverrunMissesNode` | cpp/src/Registrar.cpp:61-63 | a run in which one did: the listener is caught up and misses a node that is alive |
| `Discovery.MissedForever` | cpp/src/Registrar.cpp:66-76 | from there on, in every continuation, the listener misses that node until it leaves |
| `Discovery.NamelessNodeHidesOverrun` | cpp/src/Registrar.cpp:37-52 | a run with a node of the empty name, in which a listener has converged although a list to it ran over a blank slot |
| `Discovery.ListenersAgree` | cpp/src/NodeRegist.cpp:19-30 | two listeners that have converged agree on every third node |
| `Discovery.CatchesUp` | cpp/src/Registrar.cpp:66-76 | from every state a listener that has not begun to leave catches up by its own moves alone, nothing else changing, and without an overrun if the log has no blank slot |
| `Discovery.ArrivalIsLearnt` | cpp/src/Registrar.cpp:61-76 | after every run in which nothing waits: a node joins under a free name, is alive, and a listener no list overran comes to have it at its address |
| `Discovery.DepartureIsLearnt` | cpp/src/Registrar.cpp:71-81 | and when a node leaves, it is no longer alive, and such a listener comes to have forgotten it |
| `Discovery.BlankIffWaiting` | cpp/src/Registrar.cpp:19-33 | over every run, a slot is blank exactly until the call that holds its version fills it |
| `NodeHandlers.PresentIsView` | cpp/src/rscl.cpp:48-58 | applying commands to the club keeps exactly the clients of the replayed view |
| `NodeHandlers.EndpointIs` | cpp/src/rscl.cpp:48-52 | the address connected to is the ip, a colon and the port in decimal, without leading zeros, and no two addresses give the same |
| `NodeHandlers.ApplyKeeps` | cpp/src/NodeRegist.cpp:19-30 | in the system of master, listeners and nodes, the club of every node has gone through exactly the commands delivered to it, up to those still to be applied |
| `NodeHandlers.RequestsRecorded` | cpp/src/rscl.cpp:283-308 | over every run a node's club has been asked each request exactly as often as the node made it |
| `NodeHandlers.PeersMeet` | cpp/src/NodeRegist.cpp:19-30 | in every run of that system: a caught-up node, no list to which ran over a blank slot, has a client for exactly the other alive nodes, at their latest address, each sent every request exactly as often as the run has the node make it |
| `NodeHandlers.MeetsAll` | cpp/src/NodeRegist.cpp:19-30 | after every run in which nothing waits, a node no list overran comes, by its own steps and its handler's, to have clients for exactly the other alive nodes |
| `FrameNames.LessTotal` | cpp/src/TransformTree.cpp:90 | the string order is total and asymmetric |
| `FrameNames.LessIs` | cpp/src/TransformTree.cpp:90 | names are compared at the first character in which they differ, and a name comes before its extensions |
| `FrameNames.TokenSymmetric` | cpp/src/TransformTree.cpp:90 | the cache key is the two names with a colon between, and does not depend on the direction |
| `FrameNames.TokenInjective` | cpp/src/TransformTree.cpp:106 | the key of two colon-free names is the key of no other pair |
| `FrameNames.UniqueIff` | cpp/src/TransformTree.cpp:90 | a pair has its key for itself if and only if the key cannot be cut at another colon into names in the key's order |
| `FrameNames.ColonCollides` | cpp/src/TransformTree.cpp:134 | every name with a colon shares its key with some colon-free name with a different pair |
| `FrameNames.ColonFreeIff` | cpp/src/TransformTree.cpp:106 | a name has unshared keys with all colon-free names if and only if it is colon-free itself |
| `Ancestors.FindsUnique` | cpp/src/TransformTree.cpp:101-131 | the outcome of a search is determined, and the same with the frames swapped |
| `Ancestors.RootedDistinct` | cpp/src/TransformTree.cpp:109-115 | on a chain that ends no frame comes twice, so a repetition means a loop |
| `Ancestors.StaysLowest` | cpp/src/TransformTree.cpp:80-83 | the lowest common ancestor stays the lowest while parents are only added and chains end |
| `Ancestors.CacheAgrees` | cpp/src/TransformTree.cpp:89-99 | a fresh search in a later state finds the cached ancestor if and only if the chain still ends; otherwise it reports the loop |
| `TransformTrees.Walk` | cpp/src/TransformTree.cpp:107-115 | ends on every finite parent graph, cyclic or not; collects exactly the frames above, or reports the loop exactly when there is one |
| `TransformTrees.Search` | cpp/src/TransformTree.cpp:101-131 | finds the lowest common ancestor, or tells missing frames, loops and unconnected frames apart |
| `TreeNodes.InsertMessage` | cpp/src/TransformTree.cpp:69-87 | the updates in order: both frames known, the static flag, the entry, the parent if there was none |
| `TreeNodes.AddedOk` | cpp/src/TransformTree.cpp:69-87 | a message keeps parents write-once and every frame with a parent supplied with data |
| `TreeNodes.TreeReflects` | cpp/src/TransformTree.cpp:69-87 | over every history of messages: the frames are exactly those named; each is under the frame the first message for it named, static if and only if one of its messages was, with exactly its samples pushed |
| `TreeNodes.NewestIsUsed` | cpp/src/TransformTree.cpp:24-29 | so a lookup with negative tolerance uses, for each frame, the first message for it to have arrived with the greatest stamp |
| `TransformTrees.CacheRecords` | cpp/src/TransformTree.cpp:123-126 | recording a found ancestor keeps every cached ancestor one found for a pair with its key |
| `TransformTrees.CacheServesIff` | cpp/src/TransformTree.cpp:89-94 | whatever is cached, a pair finds only what was found for it, if and only if it has its key for itself |
| `TransformTrees.CacheExtends` | cpp/src/TransformTree.cpp:80-83 | so does adding parents |
| `TransformTrees.TransformTree.AddTransformNode` | cpp/src/TransformTree.cpp:69-87 | keeps the tree what its history of messages, now with this one, makes of it, and only extends the parents |
| `TransformTrees.TransformTree.FindSharedAncestor` | cpp/src/TransformTree.cpp:101-131 | searches and records what it found, nothing otherwise |
| `TransformTrees.TransformTree.GetTransform` | cpp/src/TransformTree.cpp:133-153 | the two loops up to the cached ancestor, whichever pair it was cached for: the transform, failure where a pose is missing, or no end |
| `TransformTrees.TransformTree.Lookup` | cpp/src/TransformTree.cpp:89-99 | by the cached ancestor if there is one, otherwise by a fresh search; it fails or crashes exactly as the search says; the ancestor was found for this pair if its key is its own or was not cached |
| `TransformTrees.ClimbLoop` | cpp/src/TransformTree.cpp:138-143 | one loop up to any frame: the product of the poses up to it, a stop where one is missing, or no end |
| `TransformTrees.FoundIff` | cpp/src/TransformTree.cpp:133-153 | with any cached ancestor a lookup succeeds if and only if that is above both frames and the poses up to it are there, with the quotient of the two products |
| `TransformTrees.HangsIff` | cpp/src/TransformTree.cpp:138-150 | and it never ends if and only if one of the climbs starts at a frame the ancestor is not above and finds every pose on its way, which takes a loop of frames |
| `TransformTrees.LookupUsesLowest` | cpp/src/TransformTree.cpp:89-99 | the ancestor a lookup uses is what a fresh search in either direction would find, if and only if the chain ends |
| `TransformTrees.DefaultLookupSucceeds` | cpp/src/TransformTree.cpp:24-29 | a lookup with negative tolerance between frames with a shared ancestor always succeeds, with the newest entries |
| `FramePaths.LoopsAreQuotient` | cpp/src/TransformTree.cpp:135-152 | the loops compute A_to times the inverse of A_from, A being the product along the path to the ancestor |
| `FramePaths.LookupSwapped` | cpp/src/TransformTree.cpp:133-153 | swapping the frames gives the exact inverse, and succeeds on the same inputs |
| `FramePaths.LookupDown` | cpp/src/TransformTree.cpp:133-153 | from a frame to one below it the result is the plain product along the path |
| `FramePaths.LookupChain` | cpp/src/TransformTree.cpp:133-153 | lookups compose along any chain of ancestors |
| `FramePaths.LookupHigher` | cpp/src/TransformTree.cpp:133-153 | a lookup through a frame above the lowest common ancestor is the proper one conjugated with the pose of that ancestor in that frame |
| `FramePaths.AncestorIsShared` | cpp/src/TransformTree.cpp:116-128 | a frame above another is their lowest common ancestor |
| `FramePaths.RelativeIffCommute` | cpp/src/TransformTree.cpp:141-149 | the result is the pose of `to` in the coordinates of `from` if and only if the two poses commute |
| `PlaneMotions.MotionsAreAGroup` | cpp/src/TransformTree.cpp:135-152 | quarter turns with real translations satisfy the laws assumed of transforms |
| `PlaneMotions.SiblingsDiffer` | cpp/src/TransformTree.cpp:141-149 | between a turned and a moved sibling the result is never the relative pose |
| `TimeSeries.Cleanup` | cpp/src/TransformTree.cpp:47-61 | the erasing loop keeps exactly the entries the test retains |
| `TimeSeries.Push` | cpp/src/TransformTree.cpp:63-67 | insertion and clean-up, seen from the newest entry |
| `TimeSeries.PushedNewest` | cpp/src/TransformTree.cpp:63-67 | a push keeps the series sorted and ends it with the greater of the old newest and the new entry, the old one on a tie |
| `TimeSeries.PushedIff` | cpp/src/TransformTree.cpp:46-67 | exactly what a push leaves: the entries there and the new one, if its stamp is new, and of these, unless the frame is static, those within the limit of the newest |
| `TimeSeries.DiffMsIs` | cpp/src/TransformTree.cpp:49-52 | the difference counts a thousand a second and one for each whole thousand nanoseconds, toward zero |
| `TimeSeries.DroppedIff` | cpp/src/TransformTree.cpp:46-61 | with stamps as messages carry them an entry is dropped if and only if its nanoseconds are ahead of the newest's by 1000 for each counted millisecond and 1001 more; one 999 seconds old or older never is |
| `TimeSeries.CleanupIsBackwards` | cpp/src/TransformTree.cpp:46-61 | so clean-up drops entries hardly older than the newest and keeps one of 999 seconds ago, for a family of stamps |
| `TimeSeries.NewestSurvives` | cpp/src/TransformTree.cpp:47-67 | after any pushes the series is strictly sorted and its last entry is the first-arrived message of the greatest stamp ever pushed |
| `TimeSeries.ChooseIsEarliest` | cpp/src/TransformTree.cpp:30-44 | a lookup with a tolerance uses the least entry not before the stamp, or fails |
| `TimeSeries.ChooseIs` | cpp/src/TransformTree.cpp:24-44 | exactly what a lookup with a tolerance gets: the first entry not before the stamp, or the last if all are before it, if the difference is within the tolerance |
| `ServiceStream.HandleKeeps` | cpp/include/ServiceServer.hpp:84-144 | every status setter and event keeps the status in step with the callback |
| `ServiceStream.ReplyShape` | cpp/include/ServiceServer.hpp:200-224 | on every run, each accepted request issues PROCESS, unless the stream was cancelled, at most one PROMPTED, at most one terminal status, exactly one if the callback returned and the stream was not cancelled, and it is the first one set |
| `ServiceStream.WireOfCall` | cpp/include/ServiceServer.hpp:200-224 | the replies of a call told by its events: PROCESS, PROMPTED if a cancel was read before the first terminal status was set, and at the return that status, or ABORTED if none was set |
| `ServiceStream.AfterTheReply` | cpp/include/ServiceServer.hpp:213-214 | behind its final reply a stream sends nothing until it settles, which brings it back to SUSPEND |
| `ServiceStream.InSuspend` | cpp/include/ServiceServer.hpp:200-222 | in SUSPEND nothing but a request changes anything |
| `ServiceStream.CancelledSendsNothing` | cpp/include/ServiceServer.hpp:179-188 | a cancelled stream sends nothing |
| `ServiceStream.FirstDecisionStands` | cpp/include/ServiceServer.hpp:104-123 | a terminal status once set is never changed |
| `ServiceStream.EmitsForRunning` | cpp/include/ServiceServer.hpp:205-218 | replies are for the request being processed, and a terminal one ends it |
| `ServiceServers.ServiceServer.constructor` | cpp/include/rscl.hpp:235-245 | ten streams listen, under the ids 0 to 9 |
| `ServiceServers.ServiceServer.GenerateStreamId` | cpp/include/ServiceServer.hpp:170-178 | the oldest recycled id, or a new one |
| `ServiceServers.ServiceServer.AwaitTask` | cpp/include/ServiceServer.hpp:158-159 | a recycled stream is aborted and waited for: no callback runs afterwards and the status is SUSPEND |
| `ServiceServers.ServiceServer.OpenPort` | cpp/include/ServiceServer.hpp:146-168 | the id handed out was recycled or new, never live; its stream starts as a fresh one, every index stays in range, other streams are untouched |
| `ServiceServers.ServiceServer.WriteReply` | cpp/include/ServiceServer.hpp:180-188 | a reply goes out unless the context is cancelled |
| `ServiceServers.ServiceServer.HandleRead` | cpp/include/ServiceServer.hpp:200-224 | a request in SUSPEND is accepted, a cancel in PROCESS prompts, anything else is ignored |
| `ServiceServers.ServiceServer.Connect` | cpp/include/ServiceServer.hpp:193-199 | another stream starts listening before this one is served; no live stream is touched |
| `ServiceServers.ServiceServer.BrokenPipe` | cpp/include/ServiceServer.hpp:234-238 | the id is recycled once, with its stream cancelled |
| `ServiceServers.ServiceServer.HandleEvent` | cpp/include/ServiceServer.hpp:190-242 | ids stay distinct, recycled ones disjoint from live ones, and ten streams listen before and after every event, a READ behind the BROKEN_PIPE of its stream included |
| `ServiceServers.ServiceServer.HandleTask` | cpp/include/ServiceServer.hpp:207-215 | so they do while callbacks decide, return and settle |
| `ServiceClients.ServiceClient.WriteRequest` | cpp/include/ServiceClient.hpp:76-81 | a request is written exactly when connected, none outstanding and the stream takes it; it is the protocol's step |
| `ServiceClients.ServiceClient.SetFlag` | cpp/include/ServiceClient.hpp:82 | the flag is set, nothing else |
| `ServiceClients.ServiceClient.TakeFuture` | cpp/include/ServiceClient.hpp:83 | the future handed out is that of the current promise; it throws exactly when that is out already |
| `ServiceClients.ServiceClient.Cancel` | cpp/include/ServiceClient.hpp:64-74 | a cancel is written exactly while a request is outstanding, and changes nothing at the client |
| `ServiceClients.ServiceClient.HandleReply` | cpp/include/ServiceClient.hpp:100-108 | a terminal reply sets the current promise; others only set the status |
| `ServiceClients.ServiceClient.RenewPromise` | cpp/include/ServiceClient.hpp:109 | a new promise takes the place of the current one, which is abandoned if it was not set |
| `ServiceClients.ServiceClient.ClearFlag` | cpp/include/ServiceClient.hpp:110 | the flag is cleared, nothing else |
| `ServiceClients.ServiceClient.HandleClose` | cpp/include/ServiceClient.hpp:112-116 | the current promise gets the exception exactly when the flag is set |
| `ServiceClients.ServiceClient.Disconnect` | cpp/include/ServiceClient.hpp:118 | the client is marked as not connected, nothing else |
| `ServiceProtocol.ApplyKeeps` | cpp/include/ServiceClient.hpp:64-123 | every access of the user's calls, of the reading thread and of the server keeps the invariant of futures and promises |
| `ServiceProtocol.FuturesMatch` | cpp/include/ServiceClient.hpp:76-111 | over every run: a terminal reply read is in the future of its own request if and only if neither that request nor the one before it had its promise replaced between its write and its `get_future`; otherwise it is in the future of the one before it, and `get_future` throws exactly then, unless replaced in turn; no future has any other value and no two requests have the same |
| `ServiceProtocol.ResolvedOnce` | cpp/include/ServiceClient.hpp:103-120 | a promise once set, broken or abandoned stays what it is in every continuation of the run |
| `ServiceProtocol.CancelHitsItsRequest` | cpp/include/ServiceServer.hpp:217-219 | a cancel that prompts prompts the request outstanding when it was sent, never a later one |
| `ServiceAnswers.RequestIsAnswered` | cpp/include/ServiceClient.hpp:76-111 | from every reachable state in which a request may be made and the one before was not early: whatever the callback decides, a run brings just that to the request's own future, prompted on the way if the user cancels, and the client may ask again |
| `ServiceAnswers.ClosedDown` | cpp/include/ServiceClient.hpp:112-121 | from every reachable state in which the client reads, a close leaves it neither connected nor waiting, its reading thread gone |
| `ServiceLosses.IgnoredIff` | cpp/include/ServiceServer.hpp:203-222 | in every run whose next message is a request: it is left without an answer if and only if the stream is not in SUSPEND when it is read |
| `ServiceLosses.IgnoredForever` | cpp/include/ServiceServer.hpp:219-222 | in every continuation without a close it is never answered, no promise is set and no other request is made |
| `ServiceLosses.RequestIgnored` | cpp/include/ServiceServer.hpp:213-214 | a run in which that happens: the answer is read and the next request arrives before the return to SUSPEND |
| `ServiceLosses.LockedIff` | cpp/include/ServiceClient.hpp:82-110 | whatever happens between setting the flag and taking the future, except a close: the client is then locked, waiting with no request outstanding, if and only if it set the flag after the answer was read and done with |
| `ServiceLosses.LockedForever` | cpp/include/ServiceClient.hpp:78 | in every continuation without a close it stays so |
| `ServiceLosses.EarlyAnswerIsLost` | cpp/include/ServiceClient.hpp:81-84 | a run in which the answer is read between the write and the flag: the future never resolves |
| `ServiceLosses.ForeignAnswer` | cpp/include/ServiceClient.hpp:82-83 | a run in which it is read between the flag and the future: the next request's `get_future` throws, and its answer arrives in the future of the first |
| `ServiceLosses.ToldIff` | cpp/include/ServiceClient.hpp:112-120 | over every run: when the stream closes on an unanswered request, its future gets the exception of the close or of the abandoned promise if and only if it was taken before the promise was replaced; otherwise it is unset in every continuation |
| `ServiceLosses.TakenIsBroken` | cpp/include/ServiceClient.hpp:112-115 | an unanswered request whose future was taken gets the exception of the close, whatever happens besides |
| `ServiceLosses.CloseGoesUnnoticed` | cpp/include/ServiceClient.hpp:81-120 | a run in which it is not: the stream closes between the write and the flag, and the future never resolves |
| `Gossip.Publish` | cpp/include/rscl.hpp:210-216 | the cache gate: a message passes exactly when it is new to the node |
| `Gossip.LossesOf` | cpp/src/TCPClient.cpp:105-112 | a channel loses exactly what a flush says it drops there and what the copy of the cache overwrites; any other flushed message gets to the end of its queue |
| `Gossip.SparedRun` | cpp/src/TCPClient.cpp:105-112 | a channel on which no flush drops and over whose empty buffer the copy is put has lost nothing |
| `Gossip.StateAfter` | cpp/src/TCPClient.cpp:77-89 | over every run a channel is open until it is hung up, and live once its copy was assigned |
| `Gossip.ConnectsCleanly` | cpp/src/TCPClient.cpp:77-89 | from every state a connection made while nothing is published comes up with the whole cache in its queue and nothing lost |
| `Gossip.ApplyKeeps` | cpp/src/TransformTree.cpp:178-181 | every broadcast, flush, delivery, hang-up and step of connecting keeps: a cached message is at the other end of each channel whose copy was made, on its way, or was dropped or overwritten there |
| `Gossip.LinksKeep` | cpp/src/TCPClient.cpp:78-86 | joining the topic, copying the cache and putting the copy into the buffer are separate steps, and keep that |
| `Gossip.OvertakenConnectionLoses` | cpp/src/TCPClient.cpp:78-86 | a run in which a message published in between is overwritten: the network is quiescent, nothing was dropped, and the listener lacks it |
| `Gossip.Decreases` | cpp/src/TransformTree.cpp:178-181 | every delivery and every flush strictly decreases the potential (missing messages, pending messages, messages in flight) |
| `Gossip.FloodingEnds` | cpp/src/TransformTree.cpp:178-181 | over fixed channels no run of deliveries and flushes is longer than the potential at its start |
| `Gossip.QuiescentIffStuck` | cpp/src/TransformTree.cpp:178-181 | a network is quiescent if and only if no delivery and no flush can happen |
| `Gossip.Settles` | cpp/src/TransformTree.cpp:178-181 | from every state some run of deliveries and flushes ends quiescent, and no channel loses anything in it |
| `Gossip.CompleteAtListeners` | cpp/src/TCPClient.cpp:80-89 | in a quiescent network each connected listener has cached all its publisher has, but for what its channel dropped or had overwritten |
| `Gossip.CompleteAlong` | cpp/src/TransformTree.cpp:178-181 | so it is along every path of channels that lost nothing |
| `Gossip.EveryoneHasEverything` | cpp/src/TransformTree.cpp:178-181 | after every run that became quiescent, a node to which the run connected all broadcasters, by channels that it set up over an empty buffer, did not hang up and on which no flush dropped, has cached exactly the messages broadcast |
| `ParamWatch.NoLostUpdate` | cpp/src/ParamRPC.cpp:3-41 | in every interleaving that declares the parameter once, a watcher waiting at the current version with no writer inside last sent the current value, and with the replies arrived the client's slot holds it unless it was replaced since |
| `ParamWatch.NeverGoesBack` | cpp/src/ParamRPC.cpp:7-22 | the values sent are values the parameter had, never an older one after a newer one |
| `ParamWatch.CatchesUp` | cpp/src/ParamRPC.cpp:7-22 | from every state with the lock free the watcher comes to rest by its own steps, having last sent the current value, and with the replies arrived the slot holds it unless it was replaced since |
| `ParamWatch.ReplacedIsEmpty` | cpp/src/ParamRPC.cpp:97-117 | a slot that is replaced is empty until the next reply comes, which it then holds |
| `ParamWatch.NothingLostIff` | cpp/include/ParamRPC.hpp:87-100 | no continuation loses an update if and only if no other `declare` is past its check, or exactly one is, the parameter is a constant, and the watcher cannot sleep at a version which that declaration and the calls past their check bring back |
| `ParamWatch.RedeclarationLoses` | cpp/include/ParamRPC.hpp:88-95 | with one past it, a run from any state with the watcher asleep at a version that can come again, which leaves it asleep on an old value |
| `ParamWatch.RacingDeclarationsLose` | cpp/include/ParamRPC.hpp:88-95 | and one from the start, for any two values |
| `ParamWatch.ConstantIffNobodyPastChecks` | cpp/src/ParamRPC.cpp:29-37 | a constant keeps its value in every continuation if and only if no caller is past a check made before it was constant |
| `ParamWatch.RemoteSetChangesConstant` | cpp/src/ParamRPC.cpp:29-31 | a run in which a remote `set`, having asked for constancy before declaredness, changes a constant |
| `ParamServers.ParamRpcServer.Declare` | cpp/include/ParamRPC.hpp:87-100 | an undisturbed call is the model's three steps on its own parameter; a declared one stays as it is |
| `ParamServers.ParamRpcServer.Set` | cpp/include/ParamRPC.hpp:103-116 | likewise; undeclared and constant parameters stay as they are |
| `ParamServers.ParamRpcServer.SetRemote` | cpp/src/ParamRPC.cpp:26-41 | likewise, with the status telling which |
| `ParamServers.ParamRpcServer.WatchTurn` | cpp/src/ParamRPC.cpp:8-17 | one turn of the watcher sends the current value and waits at its version |
| `ParamClub.ReplayRestores` | cpp/src/ParamRPC.cpp:127-133 | replaying the remembered requests gives every parameter the callback most recently asked for, and one reader |
| `ParamClub.ReplayLoop` | cpp/src/ParamRPC.cpp:127-133 | the loop over the copied queue does that |
| `ParamClub.CallbackContinuity` | cpp/src/ParamRPC.cpp:97-139 | across all disconnections and reconnections the callback in force is the one most recently asked for, and a parameter has one reader if it was asked for, none otherwise |
| `ParamClub.LatestIff` | cpp/include/ParamRPC.hpp:233-251 | the callback most recently asked for is the one of a request behind which there is none for the parameter |
| `ParamClub.NewestIff` | cpp/src/ParamRPC.cpp:97-117 | the newest reply is one behind which nothing has taken its place: no later reply, no callback, no new client |
| `ParamClub.PresentIff` | cpp/src/ParamRPC.cpp:124-139 | a client is there if and only if its node was added and not deleted since |
| `ParamClub.ParamRpcClientClub.AddPeer` | cpp/src/ParamRPC.cpp:124-134 | a peer that comes back: kept is that each slot has the callback most recently asked for, the newest reply since then, and exactly one reader |
| `ParamClub.ParamRpcClientClub.DeletePeer` | cpp/src/ParamRPC.cpp:136-139 | a peer that goes; its requests stay remembered |
| `ParamClub.ParamRpcClientClub.WatchParam` | cpp/include/ParamRPC.hpp:233-251 | a callback is remembered whether the peer is there or not; the call never returns a value |
| `ParamClub.ParamRpcClientClub.GetParam` | cpp/include/ParamRPC.hpp:219-231 | a plain request returns the last reply that came since the client was added and the callback last changed |
| `ParamClub.ParamRpcClientClub.HandleReply` | cpp/src/ParamRPC.cpp:114-117 | a reply goes to the slot in force and to no other |
| `Rendezvous.IssueAll` | cpp/src/rscl.cpp:273-274 | a peer that joins is sent all topic requests in order, then all service requests in order |
| `Rendezvous.IssueTo` | cpp/src/rscl.cpp:292-294 | a new request goes to every peer once |
| `Rendezvous.NodeConnectionClientClub.AddClient` | cpp/src/rscl.cpp:270-276 | a peer joins, or joins again: kept is that the peers present are exactly those that joined and did not leave since, at the address they joined with, each sent all topic requests and all service requests ever made, once and in order |
| `Rendezvous.NodeConnectionClientClub.DeleteClient` | cpp/src/rscl.cpp:278-281 | a peer leaves; the others keep their clients and the invariant holds |
| `Rendezvous.NodeConnectionClientClub.PullSubscribeRequest` | cpp/src/rscl.cpp:283-295 | a subscription is recorded and sent once to every peer there is, behind what it was sent before; the invariant holds |
| `Rendezvous.NodeConnectionClientClub.PullServingServiceRequest` | cpp/src/rscl.cpp:297-308 | so is a served service, whose request carries no type |
| `Rendezvous.EachPeerSentEachRequestOnce` | cpp/src/rscl.cpp:270-308 | in every interleaving of joins, leaves, rejoins and requests, each present client was sent every request exactly as often as it was made |
| `Rendezvous.PresentIff` | cpp/src/rscl.cpp:270-281 | a peer is there at an address if and only if it joined at it and neither joined nor left since |
| `Rendezvous.AskedIs` | cpp/src/rscl.cpp:283-308 | the recorded requests of a kind are exactly those of the history, in its order |

## Left out

- Sockets, epoll/kqueue, gRPC, logging, signals, timers, `main`, `Rate.hpp`, `exception.hpp`: foreign calls; their outcomes are parameters.
- The contents of protobuf messages: encoding and parsing are any pair of functions of which the second undoes the first, and messages are short enough that a frame and one received chunk have an `int` length.
- Floating point and quaternions of KDL: transforms are elements of any group; three-dimensional rotations are not built.
- Durations: nanoseconds are divided by a thousand where milliseconds are meant; the arithmetic is as written, and nothing is claimed about true durations. Overflow of time stamps, versions and ids is not modelled.
- Discovery.ConvergedIffNoOverrun: for runs in which every node has a name. `Discovery.NamelessNodeHidesOverrun` shows that one half fails otherwise; the other half, `Discovery.Convergence`, is for all runs.
- Registrars.Registrar.Registration: finding the name free and getting the version is one step in `Discovery`, so that two nodes with one name never race; handing out a version and filling its slot are two. Reading behind the end of the vector, which the code does when a slot is listed before the vector has grown, reads a blank slot.
- TopicReceiver.TcpServer.AcceptClient: the wait for a connection that has not been accepted yet is its result `false`; growing the descriptor-indexed vectors is not modelled, they are maps.
- TopicSender.TcpClient.InsertFd: nothing is said of what the code does after it has left a descriptor out of range; a descriptor that already belongs to a topic does not connect again.
- TopicSender.TcpClient.WriteToCache: the cache holds the frames as a set; the order in which a replay visits them is arbitrary.
- Framing.WrappedSizeFails: with such a size the code reads behind its buffer; what it finds there is not modelled.
- Gossip.OvertakenConnectionLoses: channels carry whole messages in order; a frame cut in two by the copy of the cache is a matter of the topic pipe, where such a run is not clean.
- TransformTrees.TransformTree.GetTransform: both frames are known. For an unknown one the code puts a null node into the tree and goes on, which is not modelled.
- TransformTrees.TransformTree.Lookup: leaves out unknown frames whose key another pair shares; with an entry cached for that key they reach the null node. Unknown frames whose key is their own are covered, they fail.
- ServiceClients.ServiceClient.WriteRequest: what is tested is tested together with the write, as in `Cancel`; in between, the stream may close, which fails the write, or the answer may be read, which a cancel might as well have overtaken. Data races inside the promise object are not modelled.
- ServiceServers.ServiceServer.HandleEvent: a READ that leaves the queue only after its recycled id listens again is not modelled.
- ServiceServers.ServiceServer.WriteReply: `reply_wait_queue` is pushed to only when it is not empty, so it stays empty and is not modelled; replies go out in call order.
- ServiceServers.ServiceServer.AwaitTask: the second `get` on a consumed future is a wait until no callback runs.
- ServiceStream.HandleKeeps: each setter is one step, although the code tests the status before it takes the lock.
- The slots and peers of the two client clubs are values in the club's tables; sharing of the client objects is not modelled. Callbacks of a dynamic slot run in detached threads, so their order is not claimed.
- The local dynamic watcher in `cpp/include/ParamRPC.hpp` reads the value before the version; the no-lost-update theorem is for the remote one.
- Wake-ups of condition variables, and every claim that something happens in the end: the members that bring about an outcome give a run that does, not that it is taken.
- `cpp/include/Node.hpp`, which has no implementation, tree requests, which are empty in the code, the test programs and the JavaScript parts.
