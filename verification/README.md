# SyncSwarm in Dafny

SyncSwarm moves files and messages between peers over links that lose, reorder and duplicate
frames, across meshes in which nodes learn paths from signed announces, and through relays that
hold data for peers that are away. This project models the parts of it in which many steps have to
fit together, and proves what they promise over every run.

* **Reliable resources** (`Resource*.dfy`). The sliding-window, selective-acknowledgement sender and
  receiver of `internal/link/resource.go`, as objects with in-place arrays, and as one state machine
  with a network that may lose, reorder and duplicate every frame and carry frames of other
  resources. Safety (the sender finishes only after the receiver completed with exactly its bytes)
  holds in every run, and progress while the advertisement is accepted once. `onAdv` does not consult
  the memory of finished resources: from every completed state a late advertisement leads to a second
  delivery, and it can leave the sender silent for ever. For which transfers is settled exactly: an
  unfinished sender can always resend while the advertisement was accepted at most once or base is 0,
  and every transfer of two or more parts with an acceptable advertisement, whatever its window, has a
  run of two acceptances that wedges. A transfer to a receiver with room therefore never wedges if and
  only if it has one part or its advertisement is not acceptable. Rounds that the network lets through
  complete: the part at base is answered exactly while the receiver has the resource open or remembers
  it, and only a full memory forgets. The sender's state is measured against the history of a run:
  transmissions of one part are an rto apart, an acknowledged part never goes out again, every overdue
  one does. A resource whose parts do not have the advertised digest is never completed nor given up,
  although `internal/link/resource.go:492` means to keep retrying.
* **Path tables and routed packets** (`Path*.dfy`, `RoutedForwarding.dfy`). Announces, re-floods and
  cached answers to path requests across a whole network. Following next hops reaches the destination
  and visits no node twice in every run of at most 256 nodes, eviction included (it is shown never to
  trigger). The bound is exact: the hop count is a byte and a cached answer adds one without a cap, so
  from 257 nodes on a run with a loop is constructed. Table entries are the best of what was offered
  since the table last had none. A fresh announce of which every copy is heard reaches every node that
  transports join to its origin in every network of at most 130 nodes, and again the bound is exact: a
  node drops all copies but the first, so one that took the long way round can silence it. Routed
  packets are handed over at most once and cost at most their hop limit; over loop-free tables they
  arrive if and only if every node inside the route is a transport and the route is within the limit.
* **Streaming with resume** (`Stream*.dfy`). Blocks, an erasure code, sealed shards cut into pieces,
  and an assembler that writes blocks in order. The sink is always a prefix of the payload. A resumed
  attempt seals every shard again, while pieces already held are kept, so a shard put together from two
  attempts never opens and is never replaced. The stream therefore completes if and only if no block
  has more such shards than parity. An attempt sends its pieces in ascending order, so wherever it is
  cut off it cuts one shard at most: m interruptions are always survived, and m + 1 of them can lose
  the stream for good. The promise of `internal/transfer/streaming.go:154-164` that a resumed stream
  completes is met only up to that bound; shards that travel in one piece have no bound.
* **Kademlia** (`Kademlia*.dfy`, `Contacts.dfy`, `Ranking.dfy`, `NodeLookup.dfy`). The XOR metric, the
  k-buckets against their history of sightings, and the iterative lookup against "the k closest of
  everything heard of", which is shown to be one list only.
* **Relay selection** (`PathSelection.dfy`, `PathBuilding.dfy`). Subnet diversity of onion paths for
  every shuffle, with the exact condition for a fully diverse path. The count behind the adaptive path
  length does not leave out a relay that bears the destination's own id, although such a relay is never
  used; the exact condition under which the adaptive length can be walked in different subnets is
  proved, and a family in which it cannot. Transfers do not meet it: `newForwardCtx` leaves the
  destination out of the relays (`internal/transfer/transfer.go:1471`), so only direct users of the
  routing functions do.
* **Encodings** (`WireFormat.dfy`, `PacketCodec.dfy`, `AnnounceEncoding.dfy`, `WireLayout.dfy`,
  `FrameSize.dfy`, `Kiss.dfy`). The packet's binary form and stream frames, where every field lies and
  in which byte order, what its signature covers, the injectivity of the signed announce, the MTU from
  which link frames fit, and KISS framing with noise.
* **Airtime and held messages** (`DutyCycle.dfy`, `OfflineStore.dfy`, `OfflineOrder.dfy`,
  `OfflineRelay.dfy`). The sliding-window duty limit for every window, and store-and-forward queues
  against their copy on disk across restarts. A restart lists files by name, so the arrival order
  promised at `internal/transfer/storeforward.go:46-48` survives it if and only if the decimal names
  are ordered like the numbers.

Objects the source updates in place are classes whose methods are proved against functions of the old
state; what is promised over runs is proved about those functions.

## Assumptions

* SHA-256 is a function of the bytes; nothing needs it to be injective. Sealed frames are not altered
  on the way.
* The Reed-Solomon library rebuilds a block from any k of its shards. A sealed shard opens to its
  content, its length does not depend on the nonce, and pieces of different sealings do not open
  together; nonces are named by the attempt. `StreamWitness.SoundCodecExists` shows that these
  assumptions can be met, also by shards that travel in several pieces.
* Clocks, random ids and shuffles are arguments. Variable fields are shorter than 2^32 bytes, as their
  length prefix supposes.
* Node ids, addresses, subnets and blobs that are only compared are named by numbers.
* Each operation on the offline queues is one atomic step and disk writes succeed.

## Model

| member | source | states |
|---|---|---|
| `ResourceEndpoints.SplitParts` | internal/link/resource.go:141-151 | the parts of a resource concatenate to its data, all but the last have the part size, and empty data is one empty part |
| `ResourceEndpoints.MaxPartLen` | internal/link/resource.go:549-557 | the advertised part size is the length of the longest part |
| `ResourceEndpoints.NewResourceSender` | internal/link/resource.go:131-165 | refused exactly if the part size is not positive; otherwise the parts concatenate to exactly the data, all but the last of the part size and the last not longer, the window and timeout are those given or the defaults, and nothing is sent or acknowledged |
| `ResourceEndpoints.ResourceSender.constructor` | internal/link/resource.go:131-165 | the initial arrays are all clear and all as long as the part list |
| `ResourceEndpoints.ResourceSender.Start` | internal/link/resource.go:172-182 | starting sends one advertisement and then the first window of parts |
| `ResourceEndpoints.ResourceSender.FillWindow` | internal/link/resource.go:254-269 | the in-place loop sends exactly the parts between sentHigh and the window's end, in order, and stamps only those |
| `ResourceEndpoints.ResourceSender.DueRetransmits` | internal/link/resource.go:274-287 | exactly the in-window, unacknowledged parts older than the timeout are resent, in order, and only those are restamped |
| `ResourceEndpoints.ResourceSender.Tick` | internal/link/resource.go:289-307 | one timer turn is the due resends followed by whatever the window newly admits |
| `ResourceEndpoints.ResourceSender.Finish` | internal/link/resource.go:309-319 | only the first outcome is kept |
| `ResourceEndpoints.MarkBits` | internal/link/resource.go:228-234 | the bitmap loop marks a part if and only if its bit above base is set, and ignores bits past the end |
| `ResourceEndpoints.ResourceSender.MarkAcked` | internal/link/resource.go:208-234 | after an acknowledgement a part is marked if and only if it was before or the frame covers it; base never falls |
| `ResourceEndpoints.ResourceSender.OnAck` | internal/link/resource.go:208-250 | an acknowledgement of everything finishes the sender, any other advances the window and sends what it admits |
| `ResourceEndpoints.ResourceSender.Feed` | internal/link/resource.go:196-206 | frames of other resources and unknown kinds change nothing |
| `ResourceEndpoints.AckFor` | internal/link/resource.go:508-532 | the acknowledgement built from the receive bits carries base and, for the 256 parts from base on, exactly the bits of the parts held |
| `ResourceEndpoints.MarkBit` | internal/link/resource.go:508-532 | setting one bit of the bitmap changes no other position |
| `ResourceEndpoints.AbsorbPart` | internal/link/resource.go:471-478 | a part is stored once, counted once, and base moves to the lowest part still missing |
| `ResourceEndpoints.Assemble` | internal/link/resource.go:534-540 | the delivered bytes are the parts in order |
| `ResourceEndpoints.ResourceReceiver.constructor` | internal/link/resource.go:370-378 | a new receiver has nothing in progress and nothing finished |
| `ResourceEndpoints.ResourceReceiver.OnAdv` | internal/link/resource.go:401-445 | an acceptable advertisement opens an empty state if there is none and room for one; every other leaves the receiver as it was |
| `ResourceEndpoints.ResourceReceiver.OnPart` | internal/link/resource.go:447-504 | the replies, the stored part, completion and its delivery are those of the receiver's specification, for unknown, finished, out-of-range, repeated and completing parts |
| `ResourceEndpoints.ResourceReceiver.PruneExpired` | internal/link/resource.go:564-569 | exactly the finished ids past their lifetime are dropped |
| `ResourceEndpoints.ResourceReceiver.RememberFinished` | internal/link/resource.go:562-580 | the finished id is remembered with the current time, only others are forgotten, and the memory stays within its bound |
| `ResourceModel.FirstGapIsLowest` | internal/link/resource.go:475-477 | the base the receiver reports is the lowest missing part |
| `ResourceModel.AbsorbValid` | internal/link/resource.go:471-478 | taking in a part keeps count equal to the number held and base at the lowest gap |
| `ResourceProtocol.StepInv` | internal/link/resource.go:196-250 | every step of sender, receiver, network or timer keeps the safety invariant |
| `ResourceProtocol.RunInv` | internal/link/resource.go:196-504 | the invariant holds in every state of every run |
| `ResourceProtocol.Safety` | internal/link/resource.go:196-504 | in every run, an acknowledged part is held or delivered, a sender that finished as delivered has been delivered exactly its bytes, whatever is delivered is exactly its bytes, and acceptances equal deliveries plus the open transfer |
| `ResourceProtocol.NothingWithoutAdvertisement` | internal/link/resource.go:431-445 | while no advertisement was accepted no part is held or acknowledged, base is 0, nothing is delivered and the sender has not succeeded |
| `ResourceProtocol.RunChained` | internal/link/resource.go:479-532 | with one acceptance, any two acknowledgements ever sent are ordered by inclusion, none covers another's base without reporting a higher one itself, and whatever the sender has marked one of at most its base covers |
| `ResourceProtocol.RunFirst` | internal/link/resource.go:479-532 | in every run, however often the advertisement was accepted, no acknowledgement marks part 0 by a bit, so part 0 is acknowledged only once base has passed it |
| `ResourceProtocol.DeadlockFree` | internal/link/resource.go:208-287 | while the advertisement was accepted at most once, or base is 0, an unfinished sender has part base sent and unacknowledged inside the window, so every due tick resends it |
| `ResourceProtocol.Monotone` | internal/link/resource.go:208-250 | base, every acknowledgement flag, the parts received, the acceptances and the outcome never go back along a run |
| `ResourceProtocol.RoundProgress` | internal/link/resource.go:274-307 | a round in which the resent part at base arrives and its reply returns raises base or finishes the sender, whatever was lost before |
| `ResourceProtocol.RoundsSuffice` | internal/link/resource.go:274-307 | as many disjoint rounds as parts finish the transfer, and as delivered unless a timeout came first |
| `ResourceReopen.DeliveredAtMostOnce` | internal/link/resource.go:486-504 | one acceptance means at most one delivery |
| `ResourceReopen.LateAdvertisementDeliversAgain` | internal/link/resource.go:431-443 | from every completed state, reachable ones included, accepting the advertisement once more leads through parts already sent to a second delivery |
| `ResourceReopen.LateAdvertisementWedges` | internal/link/resource.go:431-443 | every transfer of at least two parts with an acceptable advertisement, of any window, has a run with two acceptances after which the sender is unfinished and no tick ever sends anything |
| `ResourceReopen.NeverWedgesIff` | internal/link/resource.go:431-443 | for a receiver with room, in all runs an unfinished sender can resend if and only if the transfer has one part or its advertisement is not acceptable |
| `ResourceRounds.BaseIsAnswered` | internal/link/resource.go:455-504 | in every run the part at base is answered if and only if the receiver has the resource open or remembers it; with one acceptance every answer raises base or finishes the sender; a completing part is answered by an acknowledgement of all parts and by DONE |
| `ResourceRounds.ForgetsOnlyWhenFull` | internal/link/resource.go:559-580 | what completes is remembered; a completed resource is forgotten only when another completes with the memory full, and then only if it expired or nothing else did; the memory stays within its cap |
| `ResourceRounds.StaysRemembered` | internal/link/resource.go:486-504 | while the memory never filled up, an accepted resource is open or remembered |
| `ResourceRounds.NeverUnanswered` | internal/link/resource.go:455-504 | so from acceptance on no arrival of the part at base goes unanswered |
| `ResourceRounds.RoundPossible` | internal/link/resource.go:208-307 | from every reachable state in which the sender waits and the receiver has or remembers the resource, the run can go on by a whole round, after which base is higher or the sender is done |
| `ResourceRounds.SomeReaction` | internal/link/resource.go:446-504 | a receiver has a reaction to every frame in every state |
| `ResourceRounds.DigestHolds` | internal/link/resource.go:486-504 | whoever sent the parts, what is handed over has the advertised digest |
| `ResourceRounds.CorruptForever` | internal/link/resource.go:486-498 | a resource whose parts are all in without having the advertised digest stays as it is whatever arrives, and its parts go on being acknowledged |
| `ResourceTiming.TransmissionsApart` | internal/link/resource.go:252-287 | in every run with a clock that does not go back, the stamps are the times of the last transmissions and two transmissions of one part are at least one rto apart |
| `ResourceTiming.OverdueIsResent` | internal/link/resource.go:274-287 | every part of the window that went out, was not acknowledged and last went out at least one rto ago is resent by a tick |
| `ResourceTiming.ToldNotResent` | internal/link/resource.go:208-287 | a part that an acknowledgement has reported never goes out again |
| `ResourceTiming.WindowIsOut` | internal/link/resource.go:252-272 | while the sender is unfinished exactly the parts below base plus window have gone out |
| `ResourceTiming.AckedIffTold` | internal/link/resource.go:208-236 | a part counts as acknowledged exactly if an acknowledgement that arrived covers it |
| `ResourceTiming.BaseIsHighestTold` | internal/link/resource.go:208-236 | base is the highest base any acknowledgement that arrived reported |
| `ResourceTiming.FinishedIffEnded` | internal/link/resource.go:196-250 | the sender is finished exactly if DONE or an acknowledgement of all parts arrived, or it timed out |
| `ResourceTiming.SendsAscending` | internal/link/resource.go:252-287 | in one step parts go out in ascending order, none twice |
| `ResourceTiming.TickCatchesUp` | internal/link/resource.go:289-307 | in any state a tick puts out every part of the window that never went out |
| `ResourceLimits.AcceptableIff` | internal/link/resource.go:401-427 | an advertisement is acceptable exactly for 1 to 65536 parts of at most 1 MiB that stay within 256 MiB together |
| `ResourceLimits.OpensIff` | internal/link/resource.go:401-445 | it opens a resource exactly if it is acceptable, the id is not open and fewer than 256 are; it starts with nothing held and disturbs no other |
| `ResourceLimits.StaysBounded` | internal/link/resource.go:401-580 | whatever arrives at most 256 resources are open, of at most 65536 parts each, and at most 1024 are remembered |
| `ResourceLimits.AckIsShortest` | internal/link/resource.go:508-532 | an acknowledgement reports exactly the parts held of the 256 from base on, and no shorter bitmap does |
| `PathObjects.PathTable.Update` | internal/discovery/announce.go:60-79 | an entry replaces another only if newer, or equally new over fewer hops; `PathHistory` measures it against all offers |
| `PathObjects.PathTable.EvictOldest` | internal/discovery/announce.go:88-100 | the evicted entry was learned no later than any other |
| `PathObjects.DedupSet.Observe` | internal/discovery/announce.go:116-132 | a key is reported as new exactly if it was not seen within its lifetime, and is then remembered from now |
| `PathObjects.DedupSet.Prune` | internal/discovery/announce.go:123-129 | exactly the expired keys are dropped |
| `PathObjects.Discovery.OnAnnounce` | internal/discovery/announce.go:216-275 | own and repeated announces change nothing else; a fresh one updates the table, is reported as stored exactly if it improves the entry, and is forwarded with one more hop only by transports below the hop cap |
| `PathObjects.Discovery.OnRequest` | internal/discovery/announce.go:368-404 | a request is answered with the own announce, or from the cache with the hop count incremented modulo 256; one that is neither a repeat nor answered is flooded on with one more hop, by transports below the hop cap only |
| `PathHistory.EntryIsBest` | internal/discovery/announce.go:60-79 | over every sequence of offers, evictions included, the entry for a destination is the offer of the newest generation over the fewest hops since the table last had none, the first of equals, seen when that generation was last offered |
| `PathHistory.StoredIffBeatsAll` | internal/discovery/announce.go:60-79 | an offer is stored exactly if the table has nothing for its destination or it beats every offer since |
| `PathHistory.HeldIffOffered` | internal/discovery/announce.go:60-79 | as long as there is room exactly what was offered is held |
| `PathHistory.EvictsLeastRecent` | internal/discovery/announce.go:75-100 | a table never outgrows its cap and gives up no entry seen later than one it keeps |
| `PathHistory.RepeatIffRecent` | internal/discovery/announce.go:116-132 | a sighting is reported as a repeat exactly if one taken as new came less than one lifetime before; repeats do not prolong it |
| `PathHistory.FullSetForgets` | internal/discovery/announce.go:116-132 | a dedup set past its threshold keeps nothing that expired |
| `PathRequests.AnsweredIff` | internal/discovery/announce.go:368-404 | a fresh request is answered exactly by the destination and by nodes that know a path, a repeat by nobody; announces do not look repeated for it |
| `PathRequests.AnswerTeaches` | internal/discovery/announce.go:368-404 | a node that knew no path and hears the answer then reaches the destination through the answering node, over one hop more and of the same generation |
| `PathProtocol.StepInv` | internal/discovery/announce.go:216-275 | every event of the network keeps the invariant that an entry's next hop is its destination or holds a strictly better entry |
| `PathProtocol.HopsBound` | internal/discovery/announce.go:387-394 | in a network of at most 256 nodes no stored hop count exceeds the number of nodes minus two, so the byte never wraps |
| `PathProtocol.TableBound` | internal/discovery/announce.go:75-77 | a table never holds more entries than there are other nodes, so eviction never triggers in such a network |
| `PathProtocol.RunInv` | internal/discovery/announce.go:60-79 | in every run of at most 256 nodes every next hop is the destination or holds a newer entry, or an equally new one over fewer hops |
| `PathProtocol.RouteImproves` | internal/discovery/announce.go:60-79 | along a route each step is such an improvement |
| `PathProtocol.RouteDistinct` | internal/discovery/announce.go:60-79 | a route visits no node twice |
| `PathProtocol.LoopFree` | internal/discovery/announce.go:60-79 | from any node that knows a destination, following next hops reaches it over distinct nodes |
| `PathWrap.LoopsFrom257Nodes` | internal/discovery/announce.go:387-394 | for every network of at least 257 nodes a run is constructed after which 255 nodes route to a destination only through each other |
| `PathFlood.FloodReaches` | internal/discovery/announce.go:216-275 | in every network of at most 130 nodes a fresh announce of which every copy is heard over the links reaches every node that transports join to its origin |
| `PathDetour.FloodFailsFrom131Nodes` | internal/discovery/announce.go:266-275 | for every network of at least 131 nodes there are links and a run in which every copy is heard and a node two links from the origin never learns of it |
| `RoutedForwarding.RoutedNode.RouteToward` | internal/discovery/routed.go:72-91 | a packet is sent to the table's next hop, and nowhere if there is none |
| `RoutedForwarding.RoutedNode.HandleRouted` | internal/discovery/routed.go:97-118 | the in-place decrement, the drop of repeated, exhausted and non-transport packets, and delivery at the destination |
| `RoutedForwarding.HandedAtMostOnce` | internal/discovery/routed.go:97-118 | with any tables and a duplicating network, within the dedup lifetime the destination gets the packet at most once and with its bytes intact |
| `RoutedForwarding.SentAtMostLimit` | internal/discovery/routed.go:41-48 | with any tables, even cyclic ones, any clocks and a network that does not duplicate, a packet of hop limit H is transmitted at most H times, and one without a limit at most 16 times |
| `RoutedForwarding.DeliveredIffCarried` | internal/discovery/routed.go:72-118 | over loop-free tables, with other packets passing through, a packet that is not lost ends its journey after at most as many deliveries as its route has hops; it is then handed over, once, if and only if all inner nodes are transports and the route is within the limit, and in that case exactly when all hops were made |
| `RoutedForwarding.ReachableRoute` | internal/discovery/routed.go:72-91 | in every reachable network of at most 256 nodes such a route exists from every node that knows the destination |
| `StreamModel.CutJoins` | internal/fragment/fragment.go:63-90 | joining the cut pieces gives back the data |
| `StreamModel.CutSizes` | internal/transfer/streaming.go:297-357 | all pieces but the last are full, and the last is not longer and empty only for empty data |
| `StreamModel.CutFrom` | internal/transfer/streaming.go:205-242 | seeking to a block boundary and cutting the rest gives the remaining blocks |
| `StreamObjects.Split` | internal/fragment/fragment.go:63-77 | the loop cuts data into pieces of the given size, the last possibly shorter |
| `StreamObjects.FragmentPieces` | internal/transfer/transfer.go:1324-1341 | a shard within the limit, or with no limit, is one piece; otherwise it is cut |
| `StreamObjects.ReadBlock` | internal/transfer/streaming.go:297-357 | a read gives the next block and says whether the input is exhausted |
| `StreamObjects.StreamBlocks` | internal/transfer/streaming.go:297-357 | the lookahead loop sends the blocks of the input in order with consecutive numbers and marks exactly the last as final, also for empty input |
| `StreamObjects.BlockSizes` | internal/transfer/streaming.go:297-357 | all blocks but the last are full, 4 MiB by default, numbered on and not final |
| `StreamObjects.StreamAssembler.Add` | internal/transfer/streaming.go:448-489 | one arrival changes the assembler as its specification says, for finished streams, ready blocks, repeated and completing pieces |
| `StreamObjects.StreamAssembler.FlushReady` | internal/transfer/streaming.go:493-512 | the loop writes exactly the ready blocks that continue the sink and closes it after the final one |
| `StreamObjects.AbsorbPiece` | internal/transfer/transfer.go:1956-1987 | held pieces are never replaced, and the last missing piece turns them into a shard in order |
| `StreamObjects.ReconstructBlock` | internal/transfer/streaming.go:562-569 | a block is rebuilt from the shards that open, if they are enough |
| `StreamSafety.AddKeeps` | internal/transfer/streaming.go:448-489 | every genuine piece keeps the assembler's invariant |
| `StreamSafety.PrefixSafety` | internal/transfer/streaming.go:448-512 | whatever pieces of whatever attempts arrive, in any order and with any loss and duplication, the sink is exactly the blocks below nextFlush, and a finished sink is the whole payload, closed once |
| `StreamSafety.LatePieceHarmless` | internal/transfer/streaming.go:456-467 | a late piece of a written block changes neither the sink nor what will be written |
| `StreamAny.AnyPacket` | internal/transfer/streaming.go:448-512 | whatever packet arrives, the sink only grows, it is closed at most once, what is done stays done, and blocks keep their labels and leave only finished and in turn |
| `StreamAny.MalformedDropped` | internal/transfer/transfer.go:1956-1987 | a piece numbered past the count it names is dropped |
| `StreamAny.WrongTotalNeverWritten` | internal/transfer/streaming.go:562-571 | a block opened under another number of shards is never written, nor is anything after it |
| `StreamSafety.MixOpens` | internal/fragment/rs.go:136-169 | a shard put together from several attempts opens if and only if all pieces are from one |
| `StreamResume.EnoughShardsComplete` | internal/transfer/streaming.go:448-512 | if k usable whole shards of every remaining block arrive, the sink holds the payload and was closed once |
| `StreamResume.FirstAttemptCompletes` | internal/transfer/streaming.go:448-512 | for a receiver that holds nothing, any k whole shards of every block suffice |
| `StreamResume.ResumeCompletesIff` | internal/transfer/streaming.go:205-242 | a whole resumed attempt completes the stream if and only if no remaining block has more bad shards than parity |
| `StreamInterrupt.SpoiledForever` | internal/transfer/transfer.go:1956-1987 | once a block has more spoiled shards than parity, nothing that can ever arrive completes the stream |
| `StreamInterrupt.InterruptionsCost` | internal/transfer/streaming.go:516-520 | n attempts, each cut off anywhere in what it sends from the block the receiver asks for, leave at most n bad shards in a block |
| `StreamInterrupt.SurvivesParityInterruptions` | internal/transfer/streaming.go:205-242 | after at most m attempts, each cut off anywhere in what it sends from the block the receiver asks for, one attempt that gets through completes the stream with the original content |
| `StreamInterrupt.OneInterruptionTooMany` | internal/transfer/transfer.go:1956-1987 | for every stream whose first m + 1 shards are split there are m + 1 such cut-off attempts after which it never completes |
| `StreamInterrupt.UnsplitNeverBad` | internal/transfer/transfer.go:1324-1341 | shards that travel in one piece are never lost to interruptions |
| `StreamSender.EncodeBlock` | internal/transfer/streaming.go:362-385 | a block, padded if short, becomes its sealed shards in order, each stamped with the block number, the length before padding and the final mark |
| `StreamSender.SendFragment` | internal/transfer/transfer.go:1324-1341 | one packet for each piece of a shard, in order, with the labels of the shard |
| `StreamSender.SendBlock` | internal/transfer/streaming.go:297-357 | every piece of every shard of the block, in ascending order of shard and piece, and nothing else |
| `StreamSender.SendResumed` | internal/transfer/streaming.go:205-242 | a resumed attempt sends exactly the pieces of the blocks from the requested one on, in ascending order of block, shard and piece, with the labels of the whole stream |
| `StreamSender.PrefixIsCut` | internal/transfer/transfer.go:1185-1210 | wherever such a sequence is cut off, of every shard but one all pieces or none were sent |
| `StreamWitness.SoundCodecExists` | internal/fragment/rs.go:51-83 | the assumptions on erasure code and sealer can be met for every k and m |
| `Kademlia.IsZero` | internal/dht/dht.go:55-62 | true exactly for the id of all zero bytes |
| `Kademlia.ComputeXor` | internal/dht/dht.go:65-71 | the loop computes the bytewise exclusive or |
| `Kademlia.ComputeLess` | internal/dht/dht.go:74-81 | the loop compares big-endian numbers |
| `Kademlia.ComputeCloser` | internal/dht/dht.go:84-86 | strictly smaller XOR distance to the target |
| `Kademlia.CloserTransitive` | internal/dht/dht.go:84-86 | being closer is transitive |
| `Kademlia.CloserTotal` | internal/dht/dht.go:84-86 | different ids are never at the same distance |
| `Kademlia.BucketIndex` | internal/dht/dht.go:92-103 | the loop finds the bucket of a distance, or -1 |
| `Kademlia.BucketIsTopBit` | internal/dht/dht.go:92-103 | the bucket is the most significant bit in which the ids differ; -1 exactly for equal ids |
| `Kademlia.LowerBucketCloser` | internal/dht/dht.go:88-103 | an id in a lower bucket is strictly closer |
| `Contacts.LatestAre` | internal/dht/dht.go:138-163 | the reference for a bucket's history holds exactly the last sighting of every id |
| `Contacts.SightingStep` | internal/dht/dht.go:147-162 | moving a known contact to the end, or evicting the oldest for a new one, keeps the last k of the history |
| `Contacts.Sight` | internal/dht/dht.go:147-162 | the search loop and slice surgery do that to a bucket |
| `KademliaTable.BucketSound` | internal/dht/dht.go:138-163 | a bucket has at most k contacts, no id twice, and only ids of its distance |
| `KademliaTable.ContentsDistinct` | internal/dht/dht.go:138-163 | no id appears twice in the whole table |
| `KademliaTable.ContentsPlaced` | internal/dht/dht.go:138-163 | every contact was sighted and is neither self nor the zero id |
| `KademliaTable.RoutingTable.constructor` | internal/dht/dht.go:127-132 | an empty table, with the default bucket size where none is given |
| `KademliaTable.RoutingTable.Update` | internal/dht/dht.go:138-163 | after any history of updates every bucket lists, oldest first, the k most recently sighted ids of its distance with their latest addresses |
| `KademliaTable.RoutingTable.Closest` | internal/dht/dht.go:166-181 | the count closest contacts of the table, closest first; all of them for a negative count |
| `KademliaTable.RoutingTable.Lookup` | internal/dht/dht.go:210-262 | the result is the k closest of everything the table and the replies named; each round started from the k closest so far and probed the alpha closest unprobed ones; no id is probed twice; at most alpha times maxRounds probes; stopping early means every result was probed |
| `KademliaTable.DistanceOrders` | internal/dht/dht.go:84-86 | distance to a target orders the ids strictly and totally |
| `Ranking.TopUnique` | internal/dht/dht.go:166-181 | "the k closest, in order" determines the list, so the sorting algorithm does not matter |
| `Ranking.TopOfMerge` | internal/dht/dht.go:246-259 | sorting and cutting the merged list gives the k closest of everything known, although cut contacts and table contacts beyond k may come back with other addresses |
| `NodeLookup.SelectBatch` | internal/dht/dht.go:228-240 | the batch keeps the order of the shortlist, takes alpha contacts that were not probed or all there are, and every one left out stands behind those taken |
| `NodeLookup.MergeReply` | internal/dht/dht.go:246-252 | exactly the contacts with ids neither seen before nor named earlier in the reply are appended, in order, and every id of the reply is then seen |
| `NodeLookup.Iterate` | internal/dht/dht.go:226-262 | the rounds of a lookup as stated for it |
| `NodeLookup.AskedOnce` | internal/dht/dht.go:242-245 | no id is probed twice and self never |
| `NodeLookup.FindsGoal` | internal/dht/dht.go:198-204 | if every probed node but the goal can name a closer one, a lookup that stopped before the cap has the goal at its head |
| `PathSelection.FirstPassCount` | internal/routing/routing.go:419-431 | the first pass picks as many relays as there are usable subnets, or as asked for |
| `PathSelection.FirstPassDiverse` | internal/routing/routing.go:419-431 | those relays lie in pairwise different subnets, none the destination's |
| `PathSelection.SelectedSound` | internal/routing/routing.go:415-442 | a selection takes listed relays, none twice |
| `PathSelection.SelectedCount` | internal/routing/routing.go:432-441 | it takes as many as asked for, or all there are |
| `PathSelection.SelectedAttains` | internal/routing/routing.go:415-442 | for every n it uses min(n, usable subnets) different subnets |
| `PathSelection.SelectedDiverseIff` | internal/routing/routing.go:415-442 | a selection of n relays is pairwise diverse if and only if n subnets are usable |
| `PathSelection.SelectDiverse` | internal/routing/routing.go:415-442 | the two loops compute that selection |
| `PathSelection.DistinctSubnetRelays` | internal/routing/routing.go:257-272 | the number of distinct subnets of usable relays, without the destination's |
| `PathSelection.HopsFor` | internal/routing/routing.go:290-312 | never more hops than distinct subnets or than the cap, never fewer than the floor; 0 exactly if there is no subnet or the floor cannot be met |
| `PathSelection.HopsForIs` | internal/routing/routing.go:290-312 | before the floor the length is the largest h up to the cap with 2^(h-1) subnets, and there is just one such length |
| `PathSelection.AdaptiveHops` | internal/routing/routing.go:288-312 | the branching calculation computes the longest length up to the cap whose price, doubling from one subnet per hop, the distinct subnets pay, or 0 below the floor |
| `PathBuilding.SortByLatency` | internal/routing/routing.go:181-186 | a permutation ordered by latency, then id |
| `PathBuilding.TakesFastest` | internal/routing/routing.go:181-209 | the first pass over the sorted relays takes the fastest relay of each subnet it takes, and every subnet it leaves out has only slower ones |
| `PathBuilding.TierOrder` | internal/routing/routing.go:376-409 | a permutation: the faster half of the main relays, then the slower half, then the deprioritized, whatever the shuffles do |
| `PathBuilding.BiasExit` | internal/routing/routing.go:447-474 | the in-place swap or substitution at the exit |
| `PathBuilding.BiasedSound` | internal/routing/routing.go:447-474 | the biased path has the same length, repeats no relay and uses listed relays only |
| `PathBuilding.ExitIsNear` | internal/routing/routing.go:447-474 | the exit is near the destination if and only if some listed relay is |
| `PathBuilding.BiasedDiverse` | internal/routing/routing.go:447-474 | the relays before the exit stay diverse, and the whole path does if it already had a near relay |
| `PathBuilding.SelectionOfAnyOrder` | internal/routing/routing.go:349-369 | whatever order the eligible relays are in, the selection is as diverse as can be |
| `PathBuilding.BuildPath` | internal/routing/routing.go:163-233 | each error exactly in its case, in their order; otherwise a path through the fastest-first selection to the destination, as diverse as can be |
| `PathBuilding.BuildPathTiered` | internal/routing/routing.go:337-370 | each error exactly in its case, in their order; otherwise a path through a selection from such a tiered order, with its exit biased, whose diversity and exit are as stated above, for every shuffle |
| `PathBuilding.CountAgreesIff` | internal/routing/routing.go:257-272 | the count equals the subnets a path can use if and only if every usable relay with the destination's id shares a usable subnet or the destination's |
| `PathBuilding.AdaptiveFitsIff` | internal/routing/routing.go:288-312 | that many subnets can be used as the adaptive length says if and only if it stays below the count or the count is right |
| `PathBuilding.AdaptivePathDiverse` | internal/transfer/transfer.go:1485-1512 | a path of the adaptive length has that many relays in pairwise different subnets, none the destination's, only if that many subnets can be used; and if they can, it has, up to an exit chosen for being near |
| `PathBuilding.AdaptiveCountsDestination` | internal/routing/routing.go:257-272 | on a list of two relays of one subnet and one with the destination's id in a subnet of its own, every selection of the adaptive length repeats a subnet |
| `WireFormat.ValueOfBigEndian` | internal/protocol/packet.go:130-131 | a number that fits its width is read back |
| `WireFormat.GetPutAll` | internal/protocol/packet.go:147-193 | a record reads back whatever follows it |
| `WireFormat.GetAllCutShort` | internal/protocol/packet.go:147-193 | every strict prefix of a record is refused |
| `WireFormat.Unambiguous` | internal/protocol/packet.go:130-132 | records of one layout are determined by their bytes, and so is what follows them |
| `WireFormat.Reader.TakeBytes` | internal/protocol/packet.go:147-158 | the cursor advances by n or fails, and stays failed |
| `WireFormat.Reader.Read` | internal/protocol/packet.go:160-193 | one field is read, or the cursor fails exactly if the bytes run out |
| `WireFormat.ReadRecord` | internal/protocol/packet.go:63-94 | the fields are read in order, or nothing if any of them fails |
| `PacketCodec.Unmarshal` | internal/protocol/packet.go:63-94 | the packet of the fields read, or a refusal |
| `PacketCodec.RoundTrip` | internal/protocol/packet.go:30-94 | every field of a packet is restored, whatever follows it |
| `PacketCodec.PrefixRefused` | internal/protocol/packet.go:30-94 | every strict prefix of a packet is refused |
| `PacketCodec.FrameReadsBackIff` | internal/protocol/packet.go:97-128 | a frame is read back and the stream left at the next one if and only if the packet is within 8 MiB |
| `PacketCodec.CanonicalDetermines` | internal/protocol/packet.go:535-629 | signed bytes are equal if and only if the packets agree in everything but time, signature and padding |
| `AnnounceEncoding.SignedBytes` | internal/protocol/announce.go:49-95 | the appended bytes are those of the specification |
| `AnnounceEncoding.ListUnambiguous` | internal/protocol/announce.go:68-71 | a list and what follows it can be told apart |
| `AnnounceEncoding.TailUnambiguous` | internal/protocol/announce.go:81-92 | the optional relay list is told apart from its absence |
| `AnnounceEncoding.SignedInjective` | internal/protocol/announce.go:49-95 | equal signed bytes mean equal announces |
| `WireLayout.FourBytes` | internal/protocol/packet.go:130-132 | numbers are written most significant byte first |
| `WireLayout.EightBytes` | internal/protocol/packet.go:130-132 | so are 8-byte numbers |
| `WireLayout.PacketLayout` | internal/protocol/packet.go:30-60 | the offset and bytes of every field of a packet |
| `WireLayout.SignedLayout` | internal/protocol/packet.go:535-629 | the offset and bytes of every field a signature covers, the payload last |
| `WireLayout.AnnounceLayout` | internal/protocol/announce.go:49-95 | the offset and bytes of every field of a signed announce, timestamp and nonce in the last 16 bytes |
| `WireLayout.ListLayout` | internal/protocol/announce.go:68-71 | a list is its count and its elements in order |
| `FrameSize.MaxChunkForMtu` | internal/link/message.go:39-51 | the largest chunk between floor and ceiling whose base64 share fits beside the overhead; the ceiling for an unknown MTU |
| `FrameSize.PacketSize` | internal/protocol/packet.go:30-60 | a packet takes 124 bytes and its variable fields |
| `FrameSize.LinkFrameSize` | internal/link/link.go:321-362 | a frame of n message bytes takes at most 242 bytes and its base64 ciphertext, with equality for three-digit link ids |
| `FrameSize.FramesFit` | internal/link/message.go:39-51 | for every MTU of at least 366 every frame of a chunked message fits |
| `FrameSize.FramesOverflowBelow` | internal/link/message.go:39-51 | for every smaller positive MTU a full chunk takes 366 bytes on some links and does not fit |
| `Kiss.Encode` | internal/iface/kiss.go:30-44 | the byte loop produces the escaped frame |
| `Kiss.EncodedBytes` | internal/iface/kiss.go:20-44 | the bytes of single-byte frames: 0xC0 travels as 0xDB 0xDC, 0xDB as 0xDB 0xDD, every other byte as itself |
| `Kiss.ByteReader.ReadFrame` | internal/iface/kiss.go:50-90 | the byte-wise reader returns one payload and stops after its delimiter, or runs to the end |
| `Kiss.ReadEncoded` | internal/iface/kiss.go:30-90 | an encoded payload is read back, whatever follows it |
| `Kiss.SelfSynchronises` | internal/iface/kiss.go:46-90 | reading from any offset yields exactly the payloads whose opening delimiter is at or after it |
| `Kiss.NoiseCostsAtMostOne` | internal/iface/kiss.go:46-90 | after any noise whatsoever every following frame is read except at most the first |
| `DutyCycle.GrantKeepsLimit` | internal/iface/duty.go:67-84 | a grant keeps the airtime of every half-open interval of one window within the budget, past and future ones alike |
| `DutyCycle.SpentIsWindow` | internal/iface/duty.go:67-84 | what the limiter counts as spent is the airtime granted in the window ending now |
| `DutyCycle.Limiter.Prune` | internal/iface/duty.go:87-102 | exactly the events that left the window are dropped and spent stays their sum, so the clamp never acts |
| `DutyCycle.Limiter.Allow` | internal/iface/duty.go:67-84 | a frame is allowed if and only if the airtime granted in the window ending now leaves room for it, and the limit holds for every window afterwards |
| `OfflineStore.StoredHolds` | internal/transfer/storeforward.go:17-44 | a store adds the blob and removes another only if the queue was full, namely its first |
| `OfflineStore.StoreKeeps` | internal/transfer/storeforward.go:17-44 | storing keeps memory and disk in agreement |
| `OfflineStore.ClearKeeps` | internal/transfer/storeforward.go:139-150 | clearing a node removes its blobs from both and nothing else |
| `OfflineStore.SweepKeeps` | internal/transfer/storeforward.go:199-229 | a sweep removes exactly the expired blobs from both |
| `OfflineStore.RestartKeeps` | internal/transfer/storeforward.go:155-183 | a restart restores exactly the unexpired blobs, and the next number collides with none |
| `OfflineStore.AlwaysAgree` | internal/transfer/storeforward.go:17-229 | after every operation of every history, restarts included, memory and disk hold the same blobs, numbers are unique and at most the counter, and no node has more than 64 |
| `OfflineStore.AtMost64Held` | internal/transfer/storeforward.go:17-44 | no node ever has more than 64 blobs held |
| `OfflineStore.LossHasReason` | internal/transfer/storeforward.go:17-229 | a blob disappears only by being served, expiring, or being the first of a full queue |
| `OfflineOrder.RestartOrderIff` | internal/storage/storage.go:117-169 | a restart leaves the queues in arrival order if and only if the decimal names of the unexpired blobs are ordered like their numbers |
| `OfflineOrder.OrderKept` | internal/transfer/storeforward.go:17-229 | every history whose restarts meet that condition keeps every queue in arrival order, so a full queue loses its oldest |
| `OfflineOrder.RestartReverses` | internal/storage/storage.go:117-169 | a restart that finds the blobs 9 and 10 puts 10 first |
| `OfflineRelay.Relay.StoreOffline` | internal/transfer/storeforward.go:17-44 | the queue, its cut and the file deletions are those of the specification; nothing happens when disabled or without a node id |
| `OfflineRelay.Relay.ClearOffline` | internal/transfer/storeforward.go:139-150 | the node's queue and files are gone |
| `OfflineRelay.Relay.FlushOffline` | internal/transfer/storeforward.go:49-61 | the unexpired blobs are sent in queue order and everything held is cleared |
| `OfflineRelay.Relay.RedeliverTo` | internal/transfer/storeforward.go:120-135 | the queue is cleared if and only if every unexpired blob was sent |
| `OfflineRelay.Relay.ExpireOffline` | internal/transfer/storeforward.go:199-229 | the loops over queues and files amount to the sweep |
| `OfflineRelay.Relay.LoadOffline` | internal/transfer/storeforward.go:155-183 | whatever order the files are listed in, the unexpired ones are loaded, the others deleted, and the counter moves to the largest number |

## Left out

- Sockets, tickers, goroutines, connection pools and deadlines; sends are returned frames and time is an argument.
- Cryptographic primitives, JSON parsing and the Reed-Solomon library, beyond the assumptions above.
- The reverse-path learning of `internal/discovery/routed.go:178-228`, which writes entries outside the announce order.
- Frames of the resource layer as bytes (`internal/link/resource.go:61-105`); malformed ones are ignored by the source.
- A shortest-path claim for the path tables: a repeated announce is dropped before hop counts are compared.
- `hopsFor` and `newForwardCtx` beyond passing the adaptive length and the near relays to path building.
- Best-effort link messages and their reassembler (`internal/link/message.go:66-221`), except for the size of their frames.
- One assembler's life only: a late piece after a stream has completed builds a new assembler (`internal/transfer/transfer.go:1891-1900`).
- OfflineRelay.Relay.LoadOffline: the listing order of files is arbitrary here; `OfflineOrder` takes it to be by name.
- RoutedForwarding.RoutedNode.RouteToward: the choice of interface and the result of the send; a send that fails is a lost copy. Next hops are nodes, so an empty one does not occur.
- Interleavings inside `redeliverTo` and `flushOffline`, which send outside the lock.
- A limiter that is absent because no duty cycle is configured; it allows everything.
- Reachability voting, relay strikes, metrics, peer cache, presets, mobile facade, updates: independent of the above or easy.
- Ranking.SortSlice: an insertion sort stands for the library's sort; `Ranking.TopUnique` shows that the result does not depend on it.
- PacketCodec.Unmarshal: the values a refused packet leaves in its fields are not modelled.
