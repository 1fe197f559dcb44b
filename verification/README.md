# ZeroCopyRpc: a verified model of shared-memory publish/subscribe

ZeroCopyRpc publishes messages through shared memory. A topic has a ring of entries over a byte pool, a
lock-free bag of subscriptions, a lock-free pool of subscription IDs, and a table of 256 slots; subscribers
wait on one semaphore each and read messages in place. Topics are replicated to other machines over UDP by
cutting messages into datagrams and putting them together again.

The project models these four parts and proves what they promise, over all inputs and all runs:

* **Lock-free structures** (`Chains`, `ConcurrentBag`, `IdPool`). Every load, store and compare-exchange is
  one action of a state machine, and a run is any sequence of actions. `Run` is the state after a run,
  `ViewRun` the abstract state beside it (the lists, the owner of each ID). `BagAnswers` and `PoolAnswers` say
  what the callers are told, in every run, and what an operation gets done when nobody interferes.
* **Publish, notify, read, and the life of a slot** (`Cursors`, `TopicService`, `Recovery`, `Restart`).
  Publisher, dispatcher and any number of clients interleave action by action; semaphores are counters.
  `Operations` says what reading, unsubscribing and removing get done in every interleaving, `Rounds` what a
  whole operation leaves when it runs alone, `Lives` what subscriptions made and removed cost. `Restart`
  continues such a run after the server's restart.
* **The ring over the pool** (`MemoryPool`, `CyclicBuffer.dfy` with module `Ring`). Classes that update in
  place, proved against functions on values, with an unbounded ghost history.
* **Fragmentation and reassembly** (`FastBitSet.dfy` with module `BitSet`, `UdpFrames`, `Reassembly`,
  `RoundTrip`, `UdpFrameDefragmentator.dfy` with module `Defragmentator`, `Replication`). `Reassembly.Process`
  is one call of `ProcessFragment` as a function; the class is proved to compute it; everything else is
  proved about the function.

`dafny verify dfyconfig.toml` checks the whole project.

## Where the code departs from its documentation, its tests or its purpose

The model follows the code. Each of these is a theorem below.

* `NotifyAll` calls `s.Close()`, which sets `Index` to -1, before it tests `s.Index >= 0`, so as written an ID
  is never returned and a topic serves 256 subscriptions in all (`TopicService.WrittenCodeUsesIdsUp`; runs that
  make and remove a subscription for any list of processes are in `Lives.EveryLifeCostsAnId`, and one that ends in
  an empty topic that accepts nobody in `Lives.EmptyTopicRefuses`). The model has both codes, as written and
  with an index that survives `Close`, and the safety results cover both. A restart finds the lost IDs again
  (`Restart.RestartFindsLostIds`).
* The tests of `IDPool` (NativeRpc/tests/IDPoolTests.cpp:73-90) rent from several threads. It is safe exactly with one
  (`IdPool.SafeIffOneRenter`); with two, an ID is given out twice (`IdPool.TwoRentersBreakIt`). The server has one.
* `try_rent` at the head of the list does not mark the ID in use, so returning such an ID throws
  (`IdPool.ReturnThrowsIffTakenFromHead`, with a run in `IdPool.ReturnCanThrow`; after a restart,
  `Recovery.ReturnAfterRestartThrows`).
* A failed compare-exchange in `remove` overwrites `current`, so the scan goes on behind its target, and `remove`
  can miss an item that is there (`ConcurrentBag.RemoveCanMiss` is a run). It does so exactly after losing a race
  with a push at the head (`ConcurrentBag.RemoveMissesIffLost`, `ConcurrentBag.LostIffOvertaken`).
* Sequence numbers have 16 bits; a message of more than 65536 chunks is never published
  (`RoundTrip.PublishedIffNumbered`; `RoundTrip.LongMessageIsLost` has such messages for every payload).
* A message of one datagram is published again for every duplicate of its datagram
  (`Replication.DuplicateIsPublished`), so with nothing lost a replica equals its source if and only if each such
  message arrives exactly once (`Replication.ReplicaEqualsSourceIff`).
* An empty datagram makes the receive loop notify with nothing published (`Reassembly.EmptyDatagramNotifies`;
  `Reassembly.NotificationsCount` has the exact count).
* A message is published exactly when all its fragments arrive (`RoundTrip.PublishedIffComplete`), and one lost
  fragment stops a replica for good: the open frame keeps the pool's lock (`RoundTrip.LostFragmentStops`). The
  clean-up of stale frames is never reached.
* The restart scan clears `PendingRemove` of a slot it drops and leaves it active, so the next restart may rebuild
  it (`Recovery.RecoverTwice`).

## Model

| member | source | states |
|---|---|---|
| `ConcurrentBag.StepKeepsInv` | NativeRpc/ZeroCopyRpc/ConcurrentBag.hpp:32-164 | one atomic step of either thread keeps both lists, the partition of the nodes, the multiset balance, and what each thread relies on in its locals |
| `ConcurrentBag.NodesAreConserved` | NativeRpc/ZeroCopyRpc/ConcurrentBag.hpp:32-164 | in every run both lists end, and items list, free list and the nodes in the two operations' hands are disjoint and sum to the capacity |
| `ConcurrentBag.BagIsAMultiset` | NativeRpc/ZeroCopyRpc/ConcurrentBag.hpp:32-109 | what removes have unlinked and freed was pushed, and while no remove is between its unlinking and its return the bag is exactly the items pushed minus those, with repetitions |
| `BagAnswers.BagIsWhatWasAnswered` | NativeRpc/ZeroCopyRpc/ConcurrentBag.hpp:32-109 | in every run, while no remove is between its unlinking and its return, the bag holds exactly the items of the pushes that have answered true less those of the removes that have answered true |
| `BagAnswers.RemoveAnswers` | NativeRpc/ZeroCopyRpc/ConcurrentBag.hpp:76-109 | in every run the action that ends a remove answers true if and only if that remove has taken one occurrence of its item out of the bag it began with, pushes since then set in front, and false if and only if it has taken nothing |
| `BagAnswers.PushAnswers` | NativeRpc/ZeroCopyRpc/ConcurrentBag.hpp:32-49 | in every run a push answers true exactly if its item enters the bag in that same action, and false exactly if it does not |
| `BagAnswers.RemoveAlone` | NativeRpc/ZeroCopyRpc/ConcurrentBag.hpp:76-109 | undisturbed, for any bag and any place of the item, a remove ends with true and one occurrence less, or, the item not being there, with false and the bag unchanged |
| `BagAnswers.PushAlone` | NativeRpc/ZeroCopyRpc/ConcurrentBag.hpp:32-49 | undisturbed, a push answers true with the item in front if a node is free, and otherwise false with nothing changed |
| `ConcurrentBag.PushFailsOnlyWhenFull` | NativeRpc/ZeroCopyRpc/ConcurrentBag.hpp:32-36 | a push returns false only when every node holds an item or is in a running remove's hands |
| `ConcurrentBag.RemoveDeletesOne` | NativeRpc/ZeroCopyRpc/ConcurrentBag.hpp:84-103 | the successful compare-exchange takes out one node and exactly one occurrence of the item asked for |
| `ConcurrentBag.RemoveMissesIffLost` | NativeRpc/ZeroCopyRpc/ConcurrentBag.hpp:76-109 | a remove that answers false changes nothing, and the item was in the list it loaded if and only if a compare-exchange of its scan failed |
| `ConcurrentBag.LostIffOvertaken` | NativeRpc/ZeroCopyRpc/ConcurrentBag.hpp:84-103 | a scan that has lost no compare-exchange loses one exactly at the first node, when a push has swung the head after the scan loaded it and before this compare-exchange |
| `ConcurrentBag.FalseIffLost` | NativeRpc/ZeroCopyRpc/ConcurrentBag.hpp:76-109 | for an item present once, a scan ends by unlinking it without having lost, or by giving up having lost |
| `BagAnswers.AnswersFalseIffLost` | NativeRpc/ZeroCopyRpc/ConcurrentBag.hpp:76-109 | in every run a remove of an item that was in the bag once when it began answers false if and only if it has lost a compare-exchange, and otherwise true |
| `ConcurrentBag.RemoveCanMiss` | NativeRpc/ZeroCopyRpc/ConcurrentBag.hpp:86-106 | a concrete run, for any two items, in which remove answers false and the item is still there |
| `ConcurrentBag.StepIsAtomic` | NativeRpc/ZeroCopyRpc/ConcurrentBag.hpp:32-164 | seen as a sequence of items the bag is atomic: one action of a push puts its item in front, one action of a remove takes out one occurrence, and no other action changes it |
| `ConcurrentBag.IterationYieldsSnapshot` | NativeRpc/ZeroCopyRpc/ConcurrentBag.hpp:111-137 | an iteration yields exactly the items the bag had when the iterator loaded the head, in order, whatever is pushed meanwhile |
| `BagAnswers.IterationYieldsAll` | NativeRpc/ZeroCopyRpc/ConcurrentBag.hpp:111-137 | in every run an iteration, from its begin to its end, yields exactly the items in the bag when it began, in order; on an empty bag it ends at once |
| `BagAnswers.IterationAdvances` | NativeRpc/ZeroCopyRpc/ConcurrentBag.hpp:111-137 | whatever the other thread does, every step of an iteration brings it one nearer to its end, and it ends when none is left |
| `BagAnswers.IterateAlone` | NativeRpc/ZeroCopyRpc/ConcurrentBag.hpp:111-137 | undisturbed, an iteration begun on any bag ends after two steps for each item, has yielded them all, and has changed nothing |
| `IdPool.StepKeepsInv` | NativeRpc/ZeroCopyRpc/IDPool.hpp:21-103 | with one renter and any number of returning threads, one atomic step keeps the free list, the owner of every ID and each thread's knowledge |
| `IdPool.NoIdIsGivenOutTwice` | NativeRpc/ZeroCopyRpc/IDPool.hpp:21-103 | in every run the free list is acyclic and duplicate-free and every ID is free, held once, or in one thread's hands, the unlink in the middle included |
| `IdPool.RentRoundsAreBounded` | NativeRpc/ZeroCopyRpc/IDPool.hpp:66-79 | the failed rounds of a rent are at most the returns completed since its first load, which are at most the IDs then outstanding |
| `IdPool.ReturnThrowsIffTakenFromHead` | NativeRpc/ZeroCopyRpc/IDPool.hpp:28-95 | returning a rented ID throws exactly when `try_rent` took it from the head of the list |
| `IdPool.ReturnCanThrow` | NativeRpc/ZeroCopyRpc/IDPool.hpp:31-95 | a concrete run, for any pool and any renting thread, in which a return throws and the ID stays with its holder |
| `IdPool.StepIsAtomic` | NativeRpc/ZeroCopyRpc/IDPool.hpp:21-103 | seen as a set of free IDs the pool is atomic: one action of a rent takes out a free ID, one action of a return puts in one that was not free, and no other action changes it |
| `IdPool.RentFailsIffNoneFree` | NativeRpc/ZeroCopyRpc/IDPool.hpp:66-79 | in every run with one renter a load of the head ends `rent` with false exactly when no ID is free, and then every ID is held or in a returning thread's hands |
| `IdPool.TryRentFailsIffUnseen` | NativeRpc/ZeroCopyRpc/IDPool.hpp:21-64 | in every run with one renter `try_rent` answers false exactly when the list is empty at its load or when it reaches the end of the list it loaded without its target there, that list being still the end of the free list |
| `PoolAnswers.TryRentGivesItsTarget` | NativeRpc/ZeroCopyRpc/IDPool.hpp:21-64 | in every run, however many threads rent, the end of a `try_rent` gives out the ID it was called with, or nothing, and no other action of it gives out anything |
| `PoolAnswers.ChecksNeverFail` | NativeRpc/ZeroCopyRpc/IDPool.hpp:43-60 | in every run with one renter the links that `try_rent` checks again before unlinking are as it loaded them, so it never takes its mark back |
| `PoolAnswers.RentGivesAFreeId` | NativeRpc/ZeroCopyRpc/IDPool.hpp:66-79 | in every run with one renter `rent` gives out an ID that was free when its exchange took it, marked in use, or answers false on loading the head with none free; a lost exchange never ends it |
| `PoolAnswers.ReturnPutsItsId` | NativeRpc/ZeroCopyRpc/IDPool.hpp:81-103 | in every run a return ends with its own ID put in front of the free list, or by throwing with the list unchanged and the ID still its caller's |
| `IdPool.TwoRentersBreakIt` | NativeRpc/ZeroCopyRpc/IDPool.hpp:66-79 | a concrete run in which two renting threads are given the same ID |
| `IdPool.SafeIffOneRenter` | NativeRpc/ZeroCopyRpc/IDPool.hpp:21-103 | no run gives an ID out twice if and only if at most one thread rents |
| `Cursors.CursorCounts` | NativeRpc/ZeroCopyRpc/CyclicBuffer.hpp:115-177 | in 64-bit arithmetic, from any start including 0 - 1 and after any reads, `Remaining` is the true unread count and `TryRead` succeeds exactly when it is positive and then stands on the next index |
| `Cursors.OpenedAhead` | NativeRpc/ZeroCopyRpc/CyclicBuffer.hpp:132-177 | a cursor opened ahead of the writer waits for it only when it is at most one message ahead |
| `Cursors.StandingCounts` | NativeRpc/ZeroCopyRpc/CyclicBuffer.hpp:119-144 | for every cursor, behind the writer or ahead of it, what `Remaining` is, exactly when `TryRead` succeeds, and where it then stands |
| `TopicService.StepKeepsInv` | NativeRpc/ZeroCopyRpc/SharedMemoryServer.cpp:46-88 | every action of publisher, dispatcher or client keeps the ownership of slots, the counts of permits and the clients' reads; what a removal pass gets done is `Operations.RoundRemovesMarked` |
| `TopicService.EveryPermitYieldsTheNextMessage` | NativeRpc/ZeroCopyRpc/SharedMemoryClient.cpp:195-217 | in every interleaving permits never exceed `nextIndex - start`, a read that has begun finds its message, and the j-th read is message `start + j`, in the ring while fewer than `capacity` messages followed |
| `Operations.AcquireSpendsOne` | NativeRpc/ZeroCopyRpc/SharedMemoryClient.cpp:195-206 | in every state that keeps the invariant an open resting client with a permit spends exactly one and begins to read, and without a permit, or not open, or in the middle of a read, nothing moves |
| `Operations.PermitIsRead` | NativeRpc/ZeroCopyRpc/SharedMemoryClient.cpp:195-217 | from every reachable state, an open resting client with a permit spends one, and after two steps of its own with a cursor or three without, whatever the others do between them, rests with exactly one more read logged, of the next message it is due |
| `TopicService.NoNotificationIsLost` | NativeRpc/ZeroCopyRpc/SharedMemoryServer.cpp:46-73 | from the push of a subscription on, in every continuation that ends between publications with it open, it has exactly one permit, unspent, read or being read, for each message whose announcement had not begun at the push, the first one included |
| `Rounds.NotifyAllAlone` | NativeRpc/ZeroCopyRpc/SharedMemoryServer.cpp:46-88 | from every reachable state, a round that runs alone and finds every entry, for a bag of any length: the entries pending are out of the bag, their slots neither pending nor active and, as intended, their IDs free; every other entry has one permit more and its slot one more notification; nothing else has changed |
| `Rounds.PublishAlone` | NativeRpc/ZeroCopyRpc/SharedMemoryServer.cpp:114-120 | publishing stores the message, moves the index on by one, and announces it in such a round |
| `Operations.IterationCollectsAll` | NativeRpc/ZeroCopyRpc/SharedMemoryServer.cpp:51-73 | in every interleaving the iteration ends with `toRemove` holding every entry found pending at its check, in order, and no other |
| `Operations.RoundRemovesMarked` | NativeRpc/ZeroCopyRpc/SharedMemoryServer.cpp:46-88 | from every reachable state, whatever the others do during the round: of each subscription marked when it began, however many, nothing is left when the publisher is quiet, neither entry nor slot nor, as intended, a rented ID, unless the remove of that very subscription failed |
| `TopicService.SlotsAreNeverShared` | NativeRpc/ZeroCopyRpc/SharedMemoryServer.cpp:74-87 | live entries have distinct slots that are not free; the slot of a live entry and of one about to be pushed says what the four stores of its own reset left; and a slot the publisher still writes to is neither free, live, being reset, nor about to be pushed |
| `Rounds.SubscribeAlone` | NativeRpc/ZeroCopyRpc/SharedMemoryServer.cpp:268-282 | for any process, free ID and bag: the ID is rented, its slot is reset for the process, and a new semaphore without permits has its entry in front of the bag |
| `Operations.UnsubscribeAlone` | NativeRpc/ZeroCopyRpc/SharedMemoryServer.cpp:306-319 | for any process and slot: a request whose process is that of the slot marks it pending and touches no other, and one whose process is not, or whose exchange fails spuriously, changes no slot |
| `Operations.LeaveAlone` | NativeRpc/ZeroCopyRpc/SharedMemoryServer.cpp:306-319 | a resting client that closes and whose request is served is closed and has its slot marked, and nothing else has changed |
| `Operations.RequestIsServed` | NativeRpc/ZeroCopyRpc/SharedMemoryServer.cpp:306-319 | from every reachable state, a waiting request that the dispatcher takes up leaves its subscription marked after two more of its steps without a spurious failure, whatever the others do between them, and the mark is never lost |
| `TopicService.PushFindsANode` | NativeRpc/ZeroCopyRpc/SharedMemoryServer.cpp:268-282 | the bag is never full when a subscription is pushed, and `toRemove` never overflows |
| `TopicService.IdsAreConserved` | NativeRpc/ZeroCopyRpc/SharedMemoryServer.cpp:81-85 | in every run of the code as written and as intended, free IDs, the one being prepared and those in use sum to 256, where as written an ID once used stays in use |
| `TopicService.WrittenCodeUsesIdsUp` | NativeRpc/ZeroCopyRpc/SharedMemoryServer.cpp:30-85 | as written, with `Close` clearing the index that guards the return, no run makes more than 256 subscriptions, and once it has made as many no ID is free and a subscribe gets no further |
| `Lives.EveryLifeCostsAnId` | NativeRpc/ZeroCopyRpc/SharedMemoryServer.cpp:30-88 | for every list of processes there is a run that makes a subscription for each and has removed them all again; at its end 256 IDs are free as intended, and 256 less their number as written |
| `Lives.EmptyTopicRefuses` | NativeRpc/ZeroCopyRpc/SharedMemoryServer.cpp:30-88 | a run of the written code to a topic with no subscription and no free ID, where a subscribe gets no further |
| `BitSet.RootIsFull` | NativeRpc/ZeroCopyRpc/FastBitSet.h:82-84 | in a tree whose inner nodes are the ANDs of their children, the root is all ones exactly when every bit of every leaf is set |
| `BitSet.FastBitSet.constructor` | NativeRpc/ZeroCopyRpc/FastBitSet.h:15-33 | the tree of ANDs holds from the start, no bit is set, and all padding is |
| `BitSet.FastBitSet.Create` | NativeRpc/ZeroCopyRpc/FastBitSet.h:60-65 | a set of no bits throws, and only that |
| `BitSet.FastBitSet.SetBit` | NativeRpc/ZeroCopyRpc/FastBitSet.h:67-80 | throws exactly out of range; otherwise adds that bit and no other, and every inner node is again the AND of its children, padding still set |
| `BitSet.FastBitSet.UpdateParents` | NativeRpc/ZeroCopyRpc/FastBitSet.h:39-57 | from a tree wrong at most above one leaf, the climb with its early exit restores every inner node and touches no leaf |
| `BitSet.FastBitSet.GetBit` | NativeRpc/ZeroCopyRpc/FastBitSet.h:86-95 | throws exactly out of range and otherwise tells membership |
| `BitSet.FastBitSet.IsComplete` | NativeRpc/ZeroCopyRpc/FastBitSet.h:82-84 | true exactly when every bit below `numBits` has been set |
| `MemoryPool.CyclicMemoryPool.GetWriteSpan` | NativeRpc/ZeroCopyRpc/CyclicMemoryPool.hpp:138-159 | both exceptions leave the pool as it was; otherwise the span starts at the offset, or at 0 when the tail is too short, and reaches to the end |
| `MemoryPool.Span.Commit` | NativeRpc/ZeroCopyRpc/CyclicMemoryPool.hpp:49-55 | throws exactly when the span is exceeded and otherwise moves span and pool by the same amount |
| `MemoryPool.MessageIsRetained` | NativeRpc/ZeroCopyRpc/CyclicMemoryPool.hpp:49-159 | a message of `s` bytes stays untouched, over every run with requests up to `M`, while the bytes committed after it plus the request in flight are at most `S - s - (M - 1)`, across wraps and abandoned spans |
| `MemoryPool.FirstLapIsPacked` | NativeRpc/ZeroCopyRpc/CyclicMemoryPool.hpp:138-159 | over every run whose bytes fit behind the place it began, each span starts where the committed bytes before it end, and an abandoned one costs nothing |
| `MemoryPool.RetentionIsTight` | NativeRpc/ZeroCopyRpc/CyclicMemoryPool.hpp:138-159 | for every `s`, `M` and pool of at least `s + 2 * (M - 1)` bytes there is a run that exceeds that bound by one byte and overwrites the message |
| `Ring.RingTakesEntry` | NativeRpc/ZeroCopyRpc/CyclicBuffer.hpp:86-88 | storing entry `n` at `n` modulo the capacity keeps the ring equal to the last `capacity` messages of the history |
| `Ring.RingTakesSize` | NativeRpc/ZeroCopyRpc/CyclicBuffer.hpp:86-87 | adding the difference to the overwritten entry modulo 2^64 keeps the running size equal to the sum of the sizes held |
| `Ring.WriterScope.Publish` | NativeRpc/ZeroCopyRpc/CyclicBuffer.hpp:77-92 | the destructor's body appends exactly the committed message, or nothing, and keeps ring, running size and index in step with the history |
| `Ring.WriterScope.Dispose` | NativeRpc/ZeroCopyRpc/CyclicBuffer.hpp:77-92 | publishes, then gives the pool back, and touches no byte of it |
| `Ring.CyclicBuffer.BufferItemsSize` | NativeRpc/ZeroCopyRpc/CyclicBuffer.hpp:170-173 | the sum of the sizes of the messages in the ring |
| `Ring.CyclicBuffer.OpenCursor` | NativeRpc/ZeroCopyRpc/CyclicBuffer.hpp:174-177 | a cursor that has read nothing and will read from `at`, wherever the writer is |
| `Ring.Cursor.Remaining` | NativeRpc/ZeroCopyRpc/CyclicBuffer.hpp:119 | the number of messages published and not read, or, ahead of the writer, 2^64 less the distance |
| `Ring.Cursor.TryRead` | NativeRpc/ZeroCopyRpc/CyclicBuffer.hpp:132-144 | behind the writer it succeeds exactly when a message is left, ahead of it exactly when more than one message ahead; then it stands on the next index, otherwise nothing moves |
| `Ring.Cursor.Data` | NativeRpc/ZeroCopyRpc/CyclicBuffer.hpp:120-124 | the entry of the message read, while at most `capacity` messages were published from it on |
| `Ring.LogFollowsPool` | NativeRpc/ZeroCopyRpc/CyclicBuffer.hpp:77-92 | over every run of a writer the history only grows, by exactly the bytes the pool counts as committed |
| `Ring.LogKeepsRing` | NativeRpc/ZeroCopyRpc/CyclicBuffer.hpp:77-92 | over every run of a writer the ring holds the last `capacity` messages of the history |
| `Ring.ClosingPublishes` | NativeRpc/ZeroCopyRpc/CyclicBuffer.hpp:77-92 | closing a scope with something committed appends one message of its kind, whose bytes the pool holds at its entry |
| `Ring.ReaderFindsMessage` | NativeRpc/ZeroCopyRpc/CyclicBuffer.hpp:120-124 | a reader finds the entry and the published bytes of message `j` in place after every run that keeps within the ring's capacity and the pool's retention bound |
| `Ring.EveryMessageIsFound` | NativeRpc/ZeroCopyRpc/CyclicBuffer.hpp:77-124 | over every well-behaved run from an empty buffer, each message of the history was published by one event of the run, and a reader finds its entry and bytes at the end if the run since then kept within the capacity and the retention bound |
| `UdpFrames.ChunkExists` | NativeRpc/ZeroCopyRpc/UdpFrameProcessor.h:61-63 | `ceil(size / payload)` chunks: chunk `k` exists exactly when `k * payload < size` |
| `UdpFrames.FragmentsJoin` | NativeRpc/ZeroCopyRpc/UdpFrameProcessor.h:41-60 | the first `n` fragments concatenate to the first `n * payload` bytes of the message |
| `UdpFrames.UdpFrameIterator.Current` | NativeRpc/ZeroCopyRpc/UdpFrameProcessor.h:41-49 | the datagram of the current chunk, or the exception exactly past the end |
| `UdpFrames.UdpFrameIterator.Advance` | NativeRpc/ZeroCopyRpc/UdpFrameProcessor.h:52-60 | moves by one chunk with a 16-bit sequence number, or throws exactly past the end |
| `UdpFrames.SendMessage` | NativeRpc/ZeroCopyRpc/UdpReplicator.cpp:18-34 | whatever finite pattern of sends fails, the loop ends, the datagrams sent are the chunks in order without gaps, and they concatenate to the message |
| `Reassembly.StepKeepsOneFrame` | NativeRpc/ZeroCopyRpc/UdpFrameDefragmentator.h:63-138 | any datagram, exception or not, leaves at most one frame open with the pool locked exactly then, and the history grows by one message exactly when the call returns true for a non-empty one; when it throws is `Reassembly.OutcomeOfCall` |
| `Reassembly.OutcomeOfCall` | NativeRpc/ZeroCopyRpc/UdpFrameDefragmentator.h:63-138 | for every datagram, what the call ends in: with a frame open every whole datagram and newer fragment throws, with none open those larger than the pool, and a fragment also for want of such a chunk; it returns true exactly for a whole datagram and for the last chunk the frame lacks |
| `Reassembly.StateAfterCall` | NativeRpc/ZeroCopyRpc/UdpFrameDefragmentator.h:63-149 | for every datagram, what becomes of the open frame: which calls open one, add exactly their chunk, close it, or leave it and the pool's bytes alone, those that throw included |
| `Reassembly.PublishedKind` | NativeRpc/ZeroCopyRpc/UdpFrameDefragmentator.h:63-121 | the message a call publishes has the kind its frame was opened with, or its whole datagram states |
| `Reassembly.WholesRefusedBySize` | NativeRpc/ZeroCopyRpc/CyclicMemoryPool.hpp:138-159 | with no frame open, a run of whole datagrams throws nothing if and only if each fits the pool |
| `Reassembly.RunCounts` | NativeRpc/ZeroCopyRpc/UdpFrameDefragmentator.h:140-149 | in every run the open frame has counted its chunks once each, in 16 bits, and was last active at the time of its message |
| `Reassembly.RunKeepsOneFrame` | NativeRpc/ZeroCopyRpc/UdpFrameDefragmentator.h:63-138 | the same for every run of any datagrams, so the two clean-ups of an older open frame are unreachable |
| `Reassembly.FramesPublishedOnce` | NativeRpc/ZeroCopyRpc/UdpFrameDefragmentator.h:74-138 | over every run the creation times of opened frames strictly increase and so do those of published frames, each of which was opened: every frame is published at most once |
| `Reassembly.LostFragmentBlocks` | NativeRpc/ZeroCopyRpc/UdpFrameDefragmentator.h:88-138 | while one chunk of the open frame stays missing, no run of other datagrams ever publishes anything |
| `Reassembly.NotificationsCount` | NativeRpc/ZeroCopyRpc/UdpReplicator.cpp:93-100 | whatever datagrams arrive, the notifications are exactly the messages published plus the calls that return true for an empty message |
| `Reassembly.EmptyDatagramNotifies` | NativeRpc/ZeroCopyRpc/UdpFrameDefragmentator.h:65-71 | an empty datagram returns true and publishes nothing, or throws exactly while a frame is open |
| `Reassembly.NotifiedPerMessage` | NativeRpc/ZeroCopyRpc/UdpReplicator.cpp:93-100 | whatever datagrams of non-empty messages arrive, there is exactly one notification per message published |
| `RoundTrip.ChunkLands` | NativeRpc/ZeroCopyRpc/UdpFrameDefragmentator.h:140-149 | writing a chunk at its place brings in its bytes and disturbs no other chunk |
| `RoundTrip.FragmentsRoundTrip` | NativeRpc/ZeroCopyRpc/UdpFrameDefragmentator.h:63-149 | the fragments of a message of 2 to 65536 chunks, in any order, with any duplicates and late strangers, give exactly that message in the history, and only the call that completes the set returns true |
| `RoundTrip.PublishedIffNumbered` | NativeRpc/ZeroCopyRpc/UdpReplicationMessages.h:7-12 | with no fragment lost a message is published if and only if it has at most 65536 chunks |
| `RoundTrip.TooLongPublishesNothing` | NativeRpc/ZeroCopyRpc/UdpReplicationMessages.h:7-12 | a message of more than 65536 chunks, all of which arrive in order and once, leaves the history as it was |
| `RoundTrip.LongMessageIsLost` | NativeRpc/ZeroCopyRpc/UdpReplicationMessages.h:7-12 | for every payload below 65536 bytes such messages exist within a 32-bit size, and a fresh receiver with a pool large enough loses them |
| `RoundTrip.PublishedIffComplete` | NativeRpc/ZeroCopyRpc/UdpFrameDefragmentator.h:63-138 | whatever fragments of a message have arrived, it has been published if and only if all of them have, and until then the history has not moved |
| `RoundTrip.LostFragmentStops` | NativeRpc/ZeroCopyRpc/UdpFrameDefragmentator.h:74-138 | from a receiver with nothing pending: once one fragment of a message has arrived and another never does, nothing is published again, whatever arrives |
| `RoundTrip.OneFragmentLacks` | NativeRpc/ZeroCopyRpc/UdpFrameDefragmentator.h:112-121 | one fragment of any message of several chunks is enough to get there |
| `RoundTrip.ArrivalsFit` | NativeRpc/ZeroCopyRpc/UdpFrameDefragmentator.h:140-144 | no copy of such a run leaves the pool |
| `Defragmentator.FrameState.Arrive` | NativeRpc/ZeroCopyRpc/UdpFrameDefragmentator.h:123-138 | the object does what `Reassembly.Arrive` says, bit set, span, pool and bytes included |
| `Defragmentator.UdpFrameDefragmentator.StartFrame` | NativeRpc/ZeroCopyRpc/UdpFrameDefragmentator.h:112-121 | the object does what `Reassembly.StartFrame` says, with the state each exception leaves behind; `Reassembly.OutcomeOfCall` and `Reassembly.StateAfterCall` say what that is |
| `Defragmentator.UdpFrameDefragmentator.ProcessFragment` | NativeRpc/ZeroCopyRpc/UdpFrameDefragmentator.h:63-109 | one call equals `Reassembly.Process` in new state and outcome, which `Reassembly.OutcomeOfCall` and `Reassembly.StateAfterCall` determine, and keeps the objects separate |
| `Replication.SentFragmentsArrive` | NativeRpc/ZeroCopyRpc/UdpReplicator.cpp:18-29 | any reordering and duplication of what the send loop sent is an arrival the round trip is about |
| `Replication.CopiesPublish` | NativeRpc/ZeroCopyRpc/UdpFrameDefragmentator.h:63-72 | a message of one datagram is published and announced once for every copy of it that arrives, whatever late fragments come between |
| `Replication.PublishedOnceIffOneCopy` | NativeRpc/ZeroCopyRpc/UdpFrameDefragmentator.h:63-72 | it is published exactly once if and only if exactly one copy arrives |
| `Replication.DuplicateIsPublished` | NativeRpc/ZeroCopyRpc/UdpFrameDefragmentator.h:63-72 | the concrete run: the same datagram twice gives the message twice, with two notifications |
| `Replication.DeliveryPublishes` | NativeRpc/ZeroCopyRpc/UdpReplicator.cpp:87-100 | one delivery adds its message, or one of a single datagram as often as that arrives, leaves nothing pending, notifies once for each, throws nothing and copies nothing beyond the pool |
| `Replication.ReplicaEchoesSource` | NativeRpc/ZeroCopyRpc/UdpReplicator.cpp:87-100 | over all datagrams that arrive, in any order within a message and any number of times, the replica's history goes on with the source's messages in order, each of a single datagram as often as it arrived, one notification for each and no exception |
| `Replication.ReplicaEqualsSourceIff` | NativeRpc/ZeroCopyRpc/UdpReplicator.cpp:87-100 | with no message lost, the replica is the source's messages in order and complete if and only if each message of a single datagram arrives exactly once |
| `Replication.SendAll` | NativeRpc/ZeroCopyRpc/UdpReplicator.cpp:9-36 | whatever sends fail, the source sends of every message exactly its chunks in order |
| `Replication.Replicate` | NativeRpc/ZeroCopyRpc/UdpReplicator.cpp:9-110 | end to end, send loop, network and receive loop: no exception leaves the receive loop, it notifies once for each message it publishes, these are the source's with their repetitions, and with none lost the source itself exactly if each single datagram arrived once |
| `Replication.ReceiveLoop` | NativeRpc/ZeroCopyRpc/UdpReplicator.cpp:87-110 | the loop counts one notification per true result and is left at the first datagram that the receiver, as the ones before it have left it, must refuse; with none such it handles all of them |
| `Recovery.TryRent` | NativeRpc/ZeroCopyRpc/IDPool.hpp:21-64 | undisturbed, `try_rent` finds an ID exactly when it is free, takes only that one, and marks it unless it was at the head |
| `Recovery.Push` | NativeRpc/ZeroCopyRpc/ConcurrentBag.hpp:32-49 | undisturbed, a push takes the first free node and adds one occurrence of the item |
| `Recovery.Recover` | NativeRpc/ZeroCopyRpc/SharedMemoryServer.cpp:222-254 | after the restart scan the bag holds exactly one subscription for each slot in use, not pending removal and alive, exactly those IDs are rented, and neither the exception nor a full bag occurs |
| `Recovery.SurvivingIdsOnce` | NativeRpc/ZeroCopyRpc/SharedMemoryServer.cpp:226-243 | the IDs rented are those of the surviving slots, each once |
| `Recovery.ReturnAfterRestartThrows` | NativeRpc/ZeroCopyRpc/IDPool.hpp:28-95 | after a restart, returning the ID of a rebuilt subscription throws exactly when every slot up to it was rebuilt too |
| `Recovery.RecoverTwice` | NativeRpc/ZeroCopyRpc/SharedMemoryServer.cpp:125-254 | two restarts in a row throw nothing, and the second rents exactly the IDs of the slots in use whose process then runs, pending removals of the first included |
| `Restart.CanRestart` | NativeRpc/ZeroCopyRpc/SharedMemoryServer.cpp:222-254 | after any run that ends between two messages and two requests, the scan's table, free IDs and bag exist, the bag holding each surviving subscription once |
| `Restart.RestartKeepsInv` | NativeRpc/ZeroCopyRpc/SharedMemoryServer.cpp:222-254 | the restarted topic has the invariant of the running one: slots, owners, entries, counts and reads agree |
| `Restart.NothingIsLostOverARestart` | NativeRpc/ZeroCopyRpc/SharedMemoryServer.cpp:222-254 | after any run, a restart and any continuation, a surviving subscription still open has had one permit for each message since the first it was due, before the restart and after, and its reads go on with the next index |
| `Restart.RestartFindsLostIds` | NativeRpc/ZeroCopyRpc/SharedMemoryServer.cpp:222-254 | after a restart free IDs and entries sum to 256, so the IDs the written code has lost are free again |

## Left out

- Weak memory ordering: every action is sequentially consistent. Weak compare-exchanges may fail spuriously.
- Several removers or iterators of one bag, `try_pop`, `is_full` and the bag's size queries: the server has one publish thread and does not pop.
- ConcurrentBag.StepKeepsInv: one pushing and one removing thread, as the server documents; more of either is outside the invariant.
- IdPool.StepKeepsInv: the case of one renter; `SafeIffOneRenter` says why there is no other.
- PoolAnswers.ReturnPutsItsId: callers return only IDs they hold; an ID beyond the pool, which throws before anything is touched, is not modelled.
- TopicService.StepKeepsInv: the bag and the ID pool appear as the atomic structures `ConcurrentBag.StepIsAtomic` and `IdPool.StepIsAtomic` show them to be; the three machines are not composed into one.
- Lock-free structures, slots and clients are state machines on values, not classes, because their subject is interleaving; loops and in-place updates of those parts appear as actions. The restart scan drives the same machines without interference.
- Restart.RestartKeepsInv: the server stops between two messages and two requests, and a process that has ended has no subscription open; a second restart, which may rebuild what the first dropped, is `Recovery.RecoverTwice`; that returning a rebuilt ID may throw (`Recovery.ReturnAfterRestartThrows`) is not followed into `NotifyAll`.
- Recovery.Recover: which processes are alive and the subscription opened for each slot are inputs.
- Semaphores, shared memory, mapped regions, message queues, sockets, threads, logging and process checks: a semaphore is a counter, a socket a sequence of datagrams.
- Crashes in the middle of an operation, and indices at the end of 64 bits: `_nextIndex` stays below 2^64 - 1.
- BitSet.FastBitSet.SetBit: a 64-bit block is the set of the positions of its ones, so the bitwise operators are set operations.
- BitSet.FastBitSet.constructor: requires a positive size; `Create` has the exception.
- MemoryPool.CyclicMemoryPool.GetWriteSpan: one writer thread, so the free space read before the lock is still right after it; `Unlock` and the placement of the pool in shared memory are not modelled.
- MemoryPool.MessageIsRetained: for a writer that stays within the bytes it asked for, as the source asks of its callers.
- Moving a span or a scope after something was committed; scopes are built in place.
- The initial value of `_currentSize`, which the constructors do not set, is taken to be 0.
- UdpFrames.UdpFrameIterator.Current: the header's 16 bytes are a record; byte order and padding are not modelled, nor are datagrams shorter than a header.
- Defragmentator.FrameState.Arrive: requires the copy to stay inside the pool, as `ProcessFragment` does.
- Defragmentator.UdpFrameDefragmentator.StartFrame: requires the copy to stay inside the pool, as `ProcessFragment` does.
- Defragmentator.UdpFrameDefragmentator.ProcessFragment: requires the copy to stay inside the pool, which the code does not check; `ArrivalsFit` shows that fragments of the sender do.
- Replication.ReplicaEchoesSource: kinds below 256, creation times that grow from one message of several chunks to the next, no chunk of such a message lost, and all copies of a message arriving before the next is sent. What a lost chunk does is `RoundTrip.LostFragmentStops`.
- Replication.ReceiveLoop: requires the copies to stay inside the pool, which `Replicate` shows of every network that loses nothing; errors of the socket, which the loop retries, and the check for short datagrams are left out.
- TCP replication, requests and responses, timers, measuring and test helpers.
