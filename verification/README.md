# Latency lab: the data plane, modelled and proved

The latency lab generates a stream of market messages, carries it through a queue from a producer
thread to a consumer thread, and keeps an order book at the far end. Two books exist (a baseline and
one that keeps its orders in a recycled object pool) and two in-process queues (a lock-free
single-producer single-consumer ring and a bounded queue under a mutex), besides a TCP feed and a
batching loop. This project models that data plane and proves that the parts do what they are for,
alone and together: **whatever the queue, its size, the interleaving and the age of the index views,
the book at the end is the sequential fold of the generated messages.**

How the proofs are organised:

- `Ledger` is an independent reference: a book is the list of live orders in the order of their
  accepted Adds. Price levels, id queues, cached totals and best prices are projections of that list.
  `Rules` says in plain numbers what each kind of message has to do to orders, level sums and queues, and
  the reference step and every handler are proved to do it. `LedgerLaws` proves the laws of the
  reference: orders are independent, messages on different ids commute except for two accepted Adds,
  queues run in time priority.
- `Levels`, `OrderBooks` and `PooledOrderBooks` are the two books in the form the code gives them:
  classes with two level maps and an order table (and, for the pooled one, an `ObjectPool`) edited
  in place by four handlers. Every handler keeps the whole-state invariant and moves the reference
  list by one reference step. `BookTheorems` and `PooledLedger` draw the consequences, among them that the
  containers are determined by the list, that the pooled book is the baseline on the stream minus the
  Adds it dropped, and exactly when its clamp breaks a cached total.
- `Spsc` is the ring buffer with its producer and consumer programs, one atomic access per step. An
  acquire-load may return any value between the last one seen and the current one. `SpscTiming`
  adds the recorders' samples, `SpscStamps` traces them to the clock at the steps that read it,
  `SpscLiveness` adds termination under fair scheduling, and `SpscRingBuffers` is the buffer as a class on
  one thread.
- `MutexQueue` is the monitor with two condition variables, any number of threads, parked and
  notified threads, spurious wakeups and barging; `MutexPipeline` runs the producer and consumer
  programs on it, `MutexTiming` and `MutexStamps` add their timestamps and `MutexLiveness` termination. What
  a sample has to be is said once, in `Latency`.
- `Lcg` and `Generator` are the generator and `Distribution` counts what it draws; `Replay` and
  `Metrics` are the replay and batching loops and the percentiles; `Framing`, `Wire` and `TcpFeed` the TCP
  framing, the 64 bytes of a message and the feed into a book. `EndToEnd` composes them.

Facts about the code that the model keeps:

- The book does not match orders, so bids and asks may cross; nothing here says otherwise.
- An Add or Modify of quantity 0 leaves a live order of quantity 0, which stays until a Cancel or any
  Trade of its id (`BookTheorems.ZeroQuantityLeaves`).
- The baseline Modify computes in `int32_t`. `OrderBooks.Safe` is its demand on the caller: no signed
  overflow. It is not guaranteed by the code (`BookTheorems.BaselineModifyCanOverflow`); quantities and level
  sums below 2^31 are enough (`OrderBooks.GuardMakesModifySafe`), `OrderBooks.ModifySafeExactly` says exactly
  when a Modify is defined, and generated streams meet it (`Generator.StreamIsSafe`). The pipelines carry the
  demand along: their baseline book is `Undefined` from the first Modify that overflows. All other
  32-bit totals are modular, and the invariant states them modulo 2^32.
- The pooled Modify computes in `int64_t` and stores 0 in place of a negative total. That breaks
  the cached total exactly when the stored total has wrapped below what the order takes out of it
  (`PooledLedger.ClampBreaksTotals`, and over whole streams `Replay.ExactIffClampFree`), which happens
  (`BookTheorems.PooledClampCanBite`) but not while exact level sums fit 32 bits
  (`PooledLedger.ExactSumsNeverClamp`).
- `SpscRingBuffer(0)` accepts no push: with messages to send its pipeline never ends
  (`SpscLiveness.ZeroCapacityNeverExits`), and with any other capacity it ends in every fair run
  (`SpscLiveness.PipelineTerminates`). The mutex queue of capacity 0 is stuck in the same way
  (`MutexPipeline.ZeroCapacityNeverEnds`).
- docs/architecture.md differs from the code in places: it gives the message 14 bytes of padding where the
  code has 18, lets ids cycle through 1000..11000 where the code produces 1000..10999, and
  calls a cancel O(1) although it searches the level's id vector. The model follows the code.

## Model

| member | source | states |
|---|---|---|
| Ledger.ApplyDistinct | src/order_book.cpp:27-39 | one message never makes two live orders share an id: a duplicate Add is ignored |
| Ledger.RunDistinct | src/order_book.cpp:10-25 | ids stay distinct over every stream |
| Ledger.RunConcat | src/order_book.cpp:10-25 | replaying a stream in two parts is replaying it whole |
| Ledger.ApplyFind | src/order_book.cpp:27-159 | after any message every other id has its old state, and the message's id what the reference step makes of its own old state alone |
| Rules.AddObeys | src/order_book.cpp:27-61 | an Add of an unknown id stores exactly its id, price, quantity and side, raises the sum of its level by exactly its quantity and puts the id at the end of that queue; every other order, sum and queue is kept; an Add of a known id changes nothing |
| Rules.OthersObey | src/order_book.cpp:63-159 | Modify sets the quantity, moves the level sum by the difference and keeps all queues; Cancel removes the order with its quantity; Trade for less than the order leaves the difference and lowers the sum by the traded quantity, any other removes the order with its quantity; unknown ids and all other orders, sums and queues are left alone |
| Rules.ApplyObeys | src/order_book.cpp:10-25 | each kind of message obeys its own rule |
| Ledger.LevelIdsAreLive | src/order_book.cpp:41-54 | an id is queued at a level iff a live order of that side and price carries it |
| LedgerLaws.RunFind | src/order_book.cpp:27-159 | the stored state of an id after any stream is the fold of that id's messages alone |
| LedgerLaws.Independence | src/order_book.cpp:27-159 | deleting all messages of other ids does not change what is stored for an id |
| LedgerLaws.Commutation | src/order_book.cpp:27-159 | two messages on different ids commute iff they are not both accepted Adds; the book shows the difference iff those two Adds meet at one level |
| LedgerLaws.BothLiveCommute | src/order_book.cpp:63-159 | Modify, Cancel and Trade of two live orders commute |
| LedgerLaws.OneAddCommutes | src/order_book.cpp:27-159 | an accepted Add commutes with anything on another id that is not one |
| LedgerLaws.TwoAdds | src/order_book.cpp:41-54 | two accepted Adds swap places in the arrival order, visibly iff at one level |
| LedgerLaws.AddThenCancel | src/order_book.cpp:89-121 | an accepted Add followed by its Cancel restores the book |
| LedgerLaws.TradesFuse | src/order_book.cpp:123-159 | Trades of q1 and q2 on one order are one Trade of q1 + q2 when that fits uint32 |
| LedgerLaws.OpeningOpens | src/order_book.cpp:27-39 | every live order has an accepted Add that opened it and after which it stayed live |
| LedgerLaws.OpeningUnique | src/order_book.cpp:27-39 | that Add is unique in the stream |
| LedgerLaws.OpeningLevel | src/order_book.cpp:41-60 | that Add carries the side and price the order still has |
| LedgerLaws.OpeningsAscend | src/order_book.cpp:27-159 | live orders are listed by the position of the Adds that opened them |
| LedgerLaws.TimePriority | src/order_book.cpp:41-159 | after any stream, the id queue of every level runs in the order of the accepted Adds; Modify and partial Trade never reorder it, a re-added id goes to the back |
| LedgerLaws.QueuedOrderHasOpening | src/order_book.cpp:41-60 | each queued id was opened by an Add of exactly that side and price |
| Levels.AddedSide | src/order_book.cpp:41-60 | adding to a level or creating it keeps the level map equal to the non-empty queues, and moves totals by exactly the change of the sums |
| Levels.SplicedIds | src/order_book.cpp:100-104 | replacing or removing one live order changes the queue of its own level only: the id stays in place, or is erased |
| Levels.SplicedSum | src/order_book.cpp:134-136 | it changes the exact sum of its own level only, by the difference of quantities |
| Levels.SplicedSide | src/order_book.cpp:70-152 | the edit of a side by Modify, Cancel and Trade, empty levels dropped, keeps the level map equal to the queues of the new list |
| Levels.MovedTotalsAgree | include/latency_lab/order_book.hpp:20-26 | totals that follow the sums in 32-bit arithmetic stay equal to them modulo 2^32 |
| Levels.First | include/latency_lab/order_book.hpp:44-45 | the first entry of a non-empty side is its highest key among the bids, its lowest among the asks |
| OrderBooks.OrderBook.constructor | include/latency_lab/order_book.hpp:30-30 | the empty book satisfies the invariant |
| OrderBooks.OrderBook.OnMessage | src/order_book.cpp:10-25 | a message moves the live orders by the reference step and by its rule, and keeps table, queues and totals consistent with them |
| OrderBooks.OrderBook.HandleAdd | src/order_book.cpp:27-61 | the same for Add by the rule of an Add, duplicates ignored |
| OrderBooks.OrderBook.HandleModify | src/order_book.cpp:63-87 | the same for Modify by its rule, whenever its int32 arithmetic is defined |
| OrderBooks.OrderBook.HandleCancel | src/order_book.cpp:89-121 | the same for Cancel by its rule |
| OrderBooks.OrderBook.HandleTrade | src/order_book.cpp:123-159 | the same for Trade by its rule: less than the order leaves exactly the difference, in the order and in the level sum; anything else fills it |
| OrderBooks.OrderBook.BestBid | src/order_book.cpp:161-167 | a live buy price that no live buy price exceeds, with its whole queue and total; none iff no buy order is live |
| OrderBooks.OrderBook.BestAsk | src/order_book.cpp:169-175 | a live sell price that no live sell price undercuts, with its whole queue and total; none iff no sell order is live |
| OrderBooks.OrderBook.TotalOrders | include/latency_lab/order_book.hpp:39-39 | the table has one entry per live order |
| OrderBooks.ModifiedTotal | src/order_book.cpp:74-76 | when the int32 steps are defined, the casts cancel out and the result is total plus new minus old quantity modulo 2^32 |
| OrderBooks.GuardMakesModifySafe | src/order_book.cpp:73-78 | exact level sums below 2^31 before and after a message exclude signed overflow |
| OrderBooks.ModifySafeExactly | src/order_book.cpp:73-78 | for every list of live orders, a Modify is defined iff neither int32 step shows the sign of an overflow: the subtraction by the signs of both quantities and their change, the addition by those of the exact level sums before and after, modulo 2^32 |
| OrderBooks.ModifySafeFromGuarded | src/order_book.cpp:73-78 | from level sums below 2^31 that comes down to: the new sum is below 2^31, or the new quantity is at least 2^31 plus the old one |
| OrderBooks.Ignored | src/order_book.cpp:28-30 | a duplicate Add and any other message on an unknown id change nothing |
| OrderBooks.Added | src/order_book.cpp:32-61 | an accepted Add appends to the live orders, and the three edited containers represent the result |
| OrderBooks.Updated | src/order_book.cpp:69-159 | the edits of Modify, Cancel and Trade represent the next list of live orders, with totals moved by the change of the sums or clamped |
| OrderBooks.TableSize | include/latency_lab/order_book.hpp:39-39 | an order table that answers every lookup like the live orders has as many entries |
| OrderBooks.FirstIsBest | src/order_book.cpp:165-166 | the first entry of the side map is the highest live buy level, or the lowest live sell level |
| BookTheorems.QueuedExactlyOnce | include/latency_lab/order_book.hpp:20-26 | each live id appears exactly once in the queue of its own side and price and in no other |
| BookTheorems.QueueLengths | include/latency_lab/order_book.hpp:44-46 | the queue lengths of a side add up to the live orders of that side |
| BookTheorems.TableMatchesQueues | include/latency_lab/order_book.hpp:39-46 | total orders equal the lengths of all level queues together |
| BookTheorems.BooksAreEqual | include/latency_lab/order_book.hpp:44-46 | the live orders determine all three containers, so two books over one list are equal |
| BookTheorems.BaselineModifyCanOverflow | src/order_book.cpp:74-76 | a concrete stream on which the int32 subtraction overflows |
| BookTheorems.PooledClampCanBite | src/pooled_order_book.cpp:83-85 | a concrete stream on which the pooled Modify stores 0 although a share is left |
| BookTheorems.SameBookSameContainers | include/latency_lab/order_book.hpp:44-46 | two lists with equal lookups, queues and sums are represented by the same containers |
| BookTheorems.SameBookStays | src/order_book.cpp:10-25 | no message tells two such lists apart |
| BookTheorems.SameBookForever | src/order_book.cpp:10-25 | no stream does |
| BookTheorems.ZeroQuantityAccepted | src/order_book.cpp:27-61 | an Add of quantity 0 and an unknown id is accepted, whatever else is live |
| BookTheorems.ZeroQuantityLeaves | src/order_book.cpp:89-159 | a live order of quantity 0 leaves with a message iff that is a Cancel or any Trade of its id |
| BookTheorems.ZeroQuantityLives | src/order_book.cpp:27-159 | it stays live and unchanged through every stream without a Modify, Cancel or Trade of its id |
| ObjectPools.ObjectPool.constructor | include/latency_lab/object_pool.hpp:15-21 | all slots free, the free list counts down to slot 0 so that slot 0 is handed out first |
| ObjectPools.ObjectPool.Allocate | include/latency_lab/object_pool.hpp:34-46 | fails iff no slot is free and then changes nothing; else hands out the last freed slot, which was not in use, and stores the object there only |
| ObjectPools.ObjectPool.Deallocate | include/latency_lab/object_pool.hpp:48-61 | null does nothing; a slot in use loses its object and goes to the end of the free list, which stays duplicate-free and complementary to the slots in use |
| ObjectPools.ObjectPool.Load | src/pooled_order_book.cpp:76-76 | a dereference yields the object of a slot in use; of any other slot there is none, so no use before allocation or after deallocation can be written |
| ObjectPools.ObjectPool.Store | src/pooled_order_book.cpp:86-86 | a write through a pointer changes the object of a slot in use and nothing else; a free slot cannot hold one |
| ObjectPools.ObjectPool.Destroy | include/latency_lab/object_pool.hpp:26-32 | destroys exactly the slots in use, each once |
| ObjectPools.ObjectPool.Available | include/latency_lab/object_pool.hpp:67-73 | free slots plus allocations minus deallocations is the capacity, so the difference in_use() computes never underflows |
| ObjectPools.BoundedFreeList | include/latency_lab/object_pool.hpp:67-73 | distinct slots below the capacity are at most that many |
| PooledLedger.PooledIsBaselineOnKept | src/pooled_order_book.cpp:29-44 | for every stream and capacity the pooled book holds what the baseline holds on the stream minus the fresh Adds that met a full pool; it counts exactly those |
| PooledLedger.LargePoolNeverExhausts | src/pooled_order_book.cpp:41-44 | a pool that the baseline's live orders never outgrow drops nothing |
| PooledLedger.ClampBreaksTotals | src/pooled_order_book.cpp:83-86 | totals that were exact stay exact through a pooled Modify iff the clamp does not cut a negative value |
| PooledLedger.ClampOnLevel | src/pooled_order_book.cpp:83-86 | level by level: wrong at the modified order's level, right at all others |
| PooledLedger.ClampedShift | src/pooled_order_book.cpp:83-85 | a stored total follows the exact sum through the clamped shift iff nothing is cut off |
| PooledLedger.ExactSumsNeverClamp | src/pooled_order_book.cpp:83-85 | while level sums fit 32 bits the clamp cuts nothing |
| PooledOrderBooks.PointAt | src/pooled_order_book.cpp:34-46 | pointing a fresh id at a fresh slot keeps table and slots in use in one-to-one correspondence |
| PooledOrderBooks.WriteThrough | src/pooled_order_book.cpp:86-86 | writing through a pointer changes that id's order and no other |
| PooledOrderBooks.Release | src/pooled_order_book.cpp:125-126 | erasing an id and destroying the object in its slot keeps the correspondence: no pointer to a freed slot remains |
| PooledOrderBooks.PointersMatchOrders | include/latency_lab/pooled_order_book.hpp:27-29 | the table has one pointer per live order |
| PooledOrderBooks.PooledOrderBook.constructor | src/pooled_order_book.cpp:7-10 | an empty book over an unused pool |
| PooledOrderBooks.PooledOrderBook.OnMessage | src/pooled_order_book.cpp:12-27 | a message moves the live orders by the pooled reference step and by its rule, except that a fresh Add at a full pool does nothing; exhaustions, allocations and deallocations are counted exactly, and totals stay exact iff the clamp does not cut |
| PooledOrderBooks.PooledOrderBook.HandleAdd | src/pooled_order_book.cpp:29-68 | the step for Add by its rule: duplicates ignored, exhaustion counted and nothing else changed |
| PooledOrderBooks.PooledOrderBook.HandleModify | src/pooled_order_book.cpp:70-94 | the step for Modify by its rule, totals moved with the clamp; the order is read and written through the pointer while its slot is in use |
| PooledOrderBooks.PooledOrderBook.HandleCancel | src/pooled_order_book.cpp:96-127 | the step for Cancel by its rule: every use of the order comes before its deallocation, which happens once |
| PooledOrderBooks.PooledOrderBook.HandleTrade | src/pooled_order_book.cpp:129-169 | the step for Trade by its rule: less than the order leaves exactly the difference, in the order and in the level sum; a filled order leaves queue, table and pool, deallocated once and not used afterwards |
| PooledOrderBooks.PooledOrderBook.ModifyLevel | src/pooled_order_book.cpp:77-87 | the edits of level and order, of an order that its pointer reaches |
| PooledOrderBooks.PooledOrderBook.Remove | src/pooled_order_book.cpp:103-126 | the level edit of a cancel, then the order leaves table and pool |
| PooledOrderBooks.PooledOrderBook.TradeLevel | src/pooled_order_book.cpp:136-162 | what is left of an order is its quantity minus the traded one, or nothing; level, order, table and pool are edited for that |
| PooledOrderBooks.PooledOrderBook.TotalOrders | include/latency_lab/pooled_order_book.hpp:27-29 | the table size is the number of live orders, and allocations minus deallocations |
| PooledOrderBooks.PooledOrderBook.Fill | src/pooled_order_book.cpp:144-161 | the order shrinks by exactly the traded quantity; at zero its id is erased and its slot freed |
| PooledOrderBooks.PooledOrderBook.BestBid | src/pooled_order_book.cpp:171-176 | a live buy price that no live buy price exceeds, with its whole queue; its total is exact while totals are |
| PooledOrderBooks.PooledOrderBook.BestAsk | src/pooled_order_book.cpp:178-183 | a live sell price that no live sell price undercuts, with its whole queue; its total is exact while totals are |
| PooledOrderBooks.ClampedTotal | src/pooled_order_book.cpp:83-85 | zero when the old quantity takes the total to zero or below, else total plus new minus old quantity |
| Spsc.DistinctMod | include/latency_lab/spsc_ring_buffer.hpp:58-61 | counters less than one ring apart have different wrapped indices |
| Spsc.IncrementMod | include/latency_lab/spsc_ring_buffer.hpp:58-61 | increment of a wrapped index is the wrapped index of the next counter |
| Spsc.FullTest | include/latency_lab/spsc_ring_buffer.hpp:21-25 | for any coherent old view of tail, the wrapped comparison holds iff the items believed to be in the ring fill the capacity |
| Spsc.EmptyTest | include/latency_lab/spsc_ring_buffer.hpp:33-37 | for any coherent old view of head, the wrapped comparison holds iff nothing is believed to be in the ring |
| Spsc.StepKeepsInv | include/latency_lab/spsc_ring_buffer.hpp:19-46 | every atomic step of either thread keeps the protocol invariant, whatever its loads return |
| Spsc.Safety | apps/benchmark_spsc_queue.cpp:81-141 | the invariant holds after every interleaving |
| Spsc.FifoAndBounded | include/latency_lab/spsc_ring_buffer.hpp:19-46 | in every interleaving the popped items are a prefix of the pushed ones, the slots from tail to head hold exactly the rest, and occupancy never exceeds capacity() |
| Spsc.SlotAccessesAreOrdered | include/latency_lab/spsc_ring_buffer.hpp:27-40 | producer and consumer are never at one slot, and each slot access has acquired the index store that handed the slot over |
| Spsc.PipelineIsFold | apps/benchmark_spsc_queue.cpp:81-141 | when the consumer leaves its loop it has applied every message once and in order, produced equals consumed equals N, and the book is the sequential fold |
| SpscTiming.TimeSafety | apps/benchmark_spsc_queue.cpp:81-134 | stamps and samples keep their relations in every interleaving |
| SpscTiming.LatencySamples | apps/benchmark_spsc_queue.cpp:81-134 | on one monotone clock below 2^64 stamps run producer, push, now; the three samples of each finished message are the exact differences of its own stamps and clock readings, those of the message in hand have not wrapped either; a pipeline sample is at least its wait plus its book sample; at the end each recorder has N samples |
| SpscTiming.ProcessKeepsSamples | apps/benchmark_spsc_queue.cpp:122-133 | each clock reading of the consumer keeps the samples exact differences |
| SpscStamps.ProducerStamps | apps/benchmark_spsc_queue.cpp:81-93 | the first clock reading of a message is its producer timestamp and stays that; each attempt to push takes a new push timestamp; a failed one leads to the next attempt |
| SpscStamps.PushedStamps | apps/benchmark_spsc_queue.cpp:81-95 | in every run, the producer timestamp of each pushed item is the clock of the step that took up its message, and its push timestamp the clock of the step that began its last attempt, the one that published it |
| SpscStamps.ConsumerReadings | apps/benchmark_spsc_queue.cpp:122-133 | pop, book start, book end and end times are the clock of their own steps, and the book update lies between the second and the third |
| SpscStamps.SamplesAreClockDifferences | apps/benchmark_spsc_queue.cpp:81-134 | in every run each finished message's three samples are the differences of the clock at these very steps |
| SpscLiveness.NeverMoreMissing | apps/benchmark_spsc_queue.cpp:86-120 | no step undoes a push, a pop, the done flag or the exit |
| SpscLiveness.ProducerStepCloser | apps/benchmark_spsc_queue.cpp:86-93 | with current views, a step of the producer whose turn it is succeeds or comes closer to its next success |
| SpscLiveness.ConsumerStepCloser | apps/benchmark_spsc_queue.cpp:115-120 | the same for the consumer |
| SpscLiveness.NextSuccess | apps/benchmark_spsc_queue.cpp:86-120 | in a fair run with current views, another push, pop, done or exit happens |
| SpscLiveness.EventuallyExits | apps/benchmark_spsc_queue.cpp:115-120 | with capacity at least 1 (or nothing to send), every fair run in which stores become visible reaches the exit |
| SpscLiveness.PipelineTerminates | apps/benchmark_spsc_queue.cpp:74-145 | such a run from the start ends with N pushes, N pops and the fold in the book |
| SpscLiveness.ZeroCapacityNeverExits | include/latency_lab/spsc_ring_buffer.hpp:13-25 | with capacity 0 and a message to send, no interleaving pushes anything or exits |
| SpscRingBuffers.SpscRingBuffer.constructor | include/latency_lab/spsc_ring_buffer.hpp:13-14 | capacity + 1 slots, empty |
| SpscRingBuffers.SpscRingBuffer.Push | include/latency_lab/spsc_ring_buffer.hpp:19-30 | appends the item, or fails iff the items believed to be in the ring fill the capacity; never overwrites an unread slot |
| SpscRingBuffers.SpscRingBuffer.Pop | include/latency_lab/spsc_ring_buffer.hpp:32-42 | takes the oldest item, or fails iff nothing is believed to be in the ring |
| SpscRingBuffers.SpscRingBuffer.Empty | include/latency_lab/spsc_ring_buffer.hpp:44-46 | true iff everything believed to be pushed is popped |
| MutexQueue.NotifyOneCounts | include/latency_lab/mutex_queue.hpp:30-30 | notify_one moves exactly one parked thread, if any, to the notified ones |
| MutexQueue.NotifyAllCounts | include/latency_lab/mutex_queue.hpp:71-72 | notify_all moves every parked thread of its variable |
| MutexQueue.PushKeepsInv | include/latency_lab/mutex_queue.hpp:19-48 | the critical section of push keeps the monitor invariant |
| MutexQueue.PopKeepsInv | include/latency_lab/mutex_queue.hpp:50-64 | the critical section of pop keeps it |
| MutexQueue.CloseKeepsInv | include/latency_lab/mutex_queue.hpp:66-70 | setting the flag keeps it, with the notifications still to come |
| MutexQueue.Safety | include/latency_lab/mutex_queue.hpp:19-73 | it holds for any number of threads after any schedule, spurious wakeups and barging included |
| MutexQueue.FifoUntilClosed | include/latency_lab/mutex_queue.hpp:19-73 | accepted items in lock order are the popped ones followed by the queue, within the capacity; nothing is accepted after close; items are dropped only after close; pop reports the end only when closed and drained |
| MutexQueue.NoLostWakeup | include/latency_lab/mutex_queue.hpp:21-71 | while a parked thread's predicate holds, some thread is awake that will take its turn or notify it |
| MutexQueue.SleepersMustWait | include/latency_lab/mutex_queue.hpp:21-54 | with capacity at least 1, if all threads sleep then the queue is open and all are consumers of an empty queue or all are producers of a full one |
| MutexPipeline.StuckIsFinal | apps/benchmark_producer_consumer.cpp:72-127 | with capacity at least 1, neither thread can move only when both have finished |
| MutexPipeline.WorkBounds | apps/benchmark_producer_consumer.cpp:72-127 | every effective step uses up work, every spurious wakeup adds at most one unit |
| MutexPipeline.MutexPipelineIsFold | apps/benchmark_producer_consumer.cpp:72-127 | at most 6N + 12 effective steps plus one per spurious wakeup; nothing is dropped; when pop reports the end every message was applied once and in order; no deadlock |
| MutexPipeline.ZeroCapacityNeverEnds | include/latency_lab/mutex_queue.hpp:19-31 | with capacity 0 and a message to send, no schedule accepts an item, closes the queue or ends the consumer's loop |
| MutexLiveness.ConsumerSucceeds | apps/benchmark_producer_consumer.cpp:106-119 | a consumer that is awake, with an item or the end to fetch, makes progress with its next step |
| MutexLiveness.ProducerSucceeds | apps/benchmark_producer_consumer.cpp:79-95 | when the consumer cannot, the producer makes progress with its next step, until both have finished |
| MutexLiveness.NextSuccess | apps/benchmark_producer_consumer.cpp:72-127 | in a fair run another push, pop, stage of close or end of the loop happens, however many spurious wakeups come between |
| MutexLiveness.PipelineTerminates | apps/benchmark_producer_consumer.cpp:72-130 | every fair run with capacity at least 1 (or nothing to send) finishes: N pushes, N pops in order, the fold in the book |
| MutexTiming.TimedRunIsPipelineRun | apps/benchmark_producer_consumer.cpp:79-119 | forgetting the clock, a timed run is a run of the pipeline |
| MutexTiming.RecordKeepsSamples | apps/benchmark_producer_consumer.cpp:107-118 | each clock reading of the consumer keeps every sample, the pipeline sample included, the exact difference of stamps and readings |
| MutexTiming.TimeSafety | apps/benchmark_producer_consumer.cpp:79-119 | stamps and samples keep their relations in every schedule |
| MutexTiming.LatencySamples | apps/benchmark_producer_consumer.cpp:79-119 | on one monotone clock below 2^64 stamps run producer, push, now; the three samples of each finished message are the exact differences of its own stamps and clock readings, those of the message in hand have not wrapped either; a pipeline sample is at least its wait plus its book sample; at the end each recorder has N samples |
| MutexStamps.AcceptedStamps | apps/benchmark_producer_consumer.cpp:79-87 | in every run, the producer timestamp of each accepted item is the clock of the step that took up its message, and its push timestamp the clock of the critical section that accepted it |
| MutexStamps.ReadingStep | apps/benchmark_producer_consumer.cpp:107-118 | pop, book start, book end and end times are the clock of their own steps |
| MutexStamps.SamplesAreClockDifferences | apps/benchmark_producer_consumer.cpp:79-119 | in every run each finished message's three samples are the differences of the clock at these very steps |
| Lcg.OddCancels | include/latency_lab/generator.hpp:18-23 | an odd factor does not change divisibility by a power of two |
| Lcg.GeoSumDivisible | include/latency_lab/generator.hpp:18-23 | 2^k divides the sum of the first n powers of the multiplier iff it divides n |
| Lcg.ClosedForm | include/latency_lab/generator.hpp:18-23 | the state after n draws in closed form, modulo 2^64 |
| Lcg.FullPeriod | include/latency_lab/generator.hpp:18-23 | from any seed the state is back at the seed iff the number of draws is a multiple of 2^64 |
| Lcg.DrawsDistinct | include/latency_lab/generator.hpp:18-23 | two draws coincide iff they are a multiple of 2^64 apart |
| Generator.Bounded | include/latency_lab/generator.hpp:25-27 | a reduced draw is below its bound |
| Generator.Padded | src/generator.cpp:10-12 | eight characters: those of the name, then spaces |
| Generator.MarketDataGenerator.constructor | src/generator.cpp:8-13 | seed 12345, sequence number 1, symbol cut or padded to 8 characters |
| Generator.MarketDataGenerator.NextRandom | include/latency_lab/generator.hpp:18-23 | one step of the generator |
| Generator.MarketDataGenerator.RandomBounded | include/latency_lab/generator.hpp:25-27 | one draw, shifted and reduced |
| Generator.MarketDataGenerator.NextMessage | src/generator.cpp:18-37 | the i-th message: sequence number, id, and price, quantity, side and kind as plain arithmetic of draws 4i+1, 4i+2, 4i+3 and 4i+4 |
| Generator.MarketDataGenerator.Generate | src/generator.cpp:15-41 | appends N messages, every field of the k-th as plain arithmetic of the states 4k+1 to 4k+4 after the old seed, of k, the old sequence number and the clock, and leaves seed and sequence number 4N draws and N numbers on |
| Generator.FirstMessage | src/generator.cpp:15-39 | the default seed makes a first message number 1, id 1000, price 16017, quantity 1280, a buy Add |
| Distribution.EveryStateOnce | include/latency_lab/generator.hpp:18-27 | over 2^62 consecutive messages each field sees all 2^62 states of one residue modulo 4, each exactly once |
| Distribution.FieldDistribution | include/latency_lab/generator.hpp:18-27 | from any seed and for any bound, the exact number of those messages whose reduced draw falls into any given set of values |
| Distribution.CountsAreDraws | src/generator.cpp:24-37 | kinds and sides of generated messages are those of the draws |
| Distribution.KindMix | src/generator.cpp:28-37 | among 2^62 generated messages from any seed, Add, Modify, Cancel and Trade come as 70, 15, 10 and 5 per hundred, with 56 * 16384 left-over messages that are all Adds |
| Distribution.SideMix | src/generator.cpp:26-26 | exactly half of them buy and half sell |
| Generator.GeneratedInRange | src/generator.cpp:21-25 | ids in 1000..10999, quantities in 100..10099, prices in 10000..28999 |
| Generator.FewLiveOrders | src/generator.cpp:21-21 | at most 10000 orders are live |
| Generator.SumBound | src/generator.cpp:25-25 | a level sums to at most 10099 per live order |
| Generator.StreamBounds | src/generator.cpp:15-41 | after any stream in these ranges: at most 10000 live orders, no zero quantity, level totals at most 100,990,000, no clamping |
| Generator.StreamIsSafe | src/order_book.cpp:63-87 | no Modify of such a stream overflows in the baseline |
| Generator.PoolNeverExhausts | apps/benchmark_memory_pool.cpp:79-102 | a pool of min(N, 10000) slots or more never exhausts and both books end alike |
| Replay.ReplayBaseline | apps/benchmark_memory_pool.cpp:50-53 | the replay loop leaves the baseline with the reference run of the whole stream |
| Replay.ReplayPooled | apps/benchmark_memory_pool.cpp:50-53 | the same for the pooled book, with its exhaustion count and its level maps after every message; allocations minus deallocations are the live orders |
| Replay.ExactIffClampFree | src/pooled_order_book.cpp:83-86 | over any stream, the cached totals of the pooled book are exact after every message iff no Modify is cut off at zero |
| Replay.GuardMakesClampFree | src/pooled_order_book.cpp:83-86 | level sums below 2^31 all along are enough for that |
| Replay.GuardMakesKeptSafe | src/order_book.cpp:73-78 | level sums of the pooled book below 2^31 all along make the baseline safe on the kept messages |
| Replay.CompareBooks | src/pooled_order_book.cpp:29-169 | when no Modify is cut off in the pooled book or overflows in the baseline on the kept messages, both end with exactly the same orders, levels, queues and totals |
| Replay.BatchShare | apps/benchmark_batching.cpp:56-63 | a batch of k messages that took d records samples summing to at most d and more than d - k |
| Replay.AmortizedSum | apps/benchmark_batching.cpp:47-64 | one sample per message; over a run the samples miss less than one nanosecond per message of the measured time |
| Replay.ApplyBatch | apps/benchmark_batching.cpp:51-53 | a batch applies its messages once and in order |
| Replay.OneBatch | apps/benchmark_batching.cpp:48-63 | the last batch is cut at the end of the stream, and each batch records its share once per message |
| Replay.RunBatches | apps/benchmark_batching.cpp:41-64 | for every batch size at least 1 the book is the unbatched fold, and sample i is the time of batch i / size divided by the number of messages in that batch |
| Replay.AllSamples | apps/benchmark_batching.cpp:47-63 | the amortized samples are that, for all messages |
| Metrics.SortedIsUnique | src/metrics.cpp:63-64 | two sorted lists of the same samples are equal |
| Metrics.PercentileMonotone | src/metrics.cpp:22-38 | the percentile is monotone in p |
| Metrics.PercentileBetween | src/metrics.cpp:26-37 | it lies between the two neighbouring samples |
| Metrics.PercentileIsLinear | src/metrics.cpp:26-37 | between two ranks it runs along the straight line from one sample to the next, cut to an integer |
| Metrics.PercentileEnds | src/metrics.cpp:101-106 | it is the least sample at 0 and the greatest at 100 |
| Metrics.PercentileOfMultiset | src/metrics.cpp:61-87 | it depends only on the multiset of samples |
| Metrics.LatencyRecorder.Record | include/latency_lab/metrics.hpp:14-16 | appends a sample |
| Metrics.LatencyRecorder.Min | src/metrics.cpp:40-46 | the least sample, 0 without samples |
| Metrics.LatencyRecorder.Max | src/metrics.cpp:48-53 | the greatest sample, 0 without samples |
| Metrics.LatencyRecorder.Quantile | src/metrics.cpp:61-87 | the percentile of any sorted arrangement of the samples |
| Framing.Sender.SendAll | src/socket_utils.cpp:63-89 | over every sequence of partial sends, interruptions and failures: success iff the calls move all bytes before one fails or none is left; all bytes are on the wire then, else a proper prefix |
| Framing.Receiver.RecvAll | src/socket_utils.cpp:91-117 | success hands out exactly the next bytes of the stream; otherwise fewer than asked for were taken; with the bytes there, success iff the calls move them |
| Framing.EnoughMovesComplete | src/socket_utils.cpp:69-79 | without failures, one successful call per byte is always enough |
| Framing.WholeCallsComplete | src/socket_utils.cpp:69-79 | calls that take a whole record each do with one call per record |
| Framing.FramesAreRecords | apps/benchmark_tcp_feed.cpp:154-157 | cutting a prefix of a stream of equal-sized records at record boundaries gives the records back, in order |
| Framing.Produce | apps/benchmark_tcp_feed.cpp:192-205 | exactly the records that the calls move whole are counted, and the wire holds exactly the bytes they move, at most a proper part of one more record |
| Framing.Consume | apps/benchmark_tcp_feed.cpp:154-174 | only whole records are applied, in stream order, and the book is their fold; k are applied iff the stream has k and the calls move k, so as many as possible are |
| Framing.Feed | apps/benchmark_tcp_feed.cpp:154-205 | the book is the fold of the first records the producer iterated over, exactly as many as arrive whole and are received; all of them iff the calls of both ends move them all and nothing is lost |
| Wire.NumberOfBytes | include/latency_lab/market_message.hpp:20-30 | an integer that fits its field is read back from its bytes |
| Wire.RoundTrip | include/latency_lab/market_message.hpp:20-34 | a message is read back from its 64 bytes, field by field at the struct's offsets |
| Wire.Layout | include/latency_lab/market_message.hpp:7-30 | every byte: offset, width and order of each field, two's complement of the price, and the codes 0 to 3 of the kinds and 0 and 1 of the sides |
| Wire.Encode | include/latency_lab/market_message.hpp:32-32 | a message is exactly 64 bytes |
| TcpFeed.SentIsApplied | apps/benchmark_tcp_feed.cpp:155-163 | stamped, sent, received and applied, a message does to the book what it does unsent |
| TcpFeed.RecordReads | apps/benchmark_tcp_feed.cpp:192-194 | the i-th record reads back as the i-th message, stamped with the i-th clock reading |
| TcpFeed.ReplayedIsBaseline | apps/benchmark_tcp_feed.cpp:154-174 | folding the first n records is the sequential replay of the first n messages |
| TcpFeed.FeedBook | apps/benchmark_tcp_feed.cpp:154-205 | for every chunking, failure and cut the consumer's book is that of the first `consumed` messages, exactly as many as arrive whole and are received; these are all iff the calls of both ends move them all and nothing is lost |
| TcpFeed.FeedGenerated | apps/benchmark_tcp_feed.cpp:154-205 | on a fresh generator's messages that book is defined and holds the reference run |
| EndToEnd.BaselineFold | src/order_book.cpp:10-25 | the fold of the pipelines, with the baseline book, is the reference run as long as every Modify is defined, and undefined from the first that is not |
| EndToEnd.PooledFold | src/pooled_order_book.cpp:12-27 | the same for the pooled book and its exhaustion counter |
| EndToEnd.SpscBaselineBook | apps/benchmark_spsc_queue.cpp:74-145 | the ring pipeline leaves the baseline book of the sequential replay, defined exactly when no Modify of the stream overflows |
| EndToEnd.SpscPooledBook | apps/benchmark_spsc_queue_pooled.cpp:77-148 | the ring pipeline leaves the pooled book of the kept messages and the count of the dropped ones |
| EndToEnd.MutexBaselineBook | apps/benchmark_producer_consumer.cpp:72-130 | the same for the mutex pipeline |
| EndToEnd.AllPipelinesAgree | apps/benchmark_spsc_queue_pooled.cpp:77-148 | on a generated stream all three pipelines end with the same live orders, whatever the queue sizes and interleavings; nothing is dropped and nothing overflows |
| EndToEnd.GeneratedIsGuarded | src/generator.cpp:15-41 | a generated stream keeps the pooled book's level sums below 2^31 all along |
| EndToEnd.FreshStream | src/generator.cpp:8-41 | a fresh generator's messages are those of seed 12345 and sequence number 1, and all in range; the first is number 1, id 1000, price 16017, quantity 1280, a buy Add |
| EndToEnd.GenerateAndCompare | apps/benchmark_memory_pool.cpp:75-108 | generating and replaying into both books gives identical containers and no exhaustion for a pool of min(N, 10000) slots or more |

## Left out

- UDP feed: loss, reordering and timeouts are decided by the kernel, little by the code.
- Socket set-up, thread pinning, CPU migration counters, spin counters, argument parsing, printing, `format_duration` and throughput figures: system calls and formatting.
- The false-sharing benchmark, alignment and padding: performance effects.
- `benchmark_single_thread`: it replays its first 1000 messages as a warm-up; the pipelines are compared with a plain sequential fold instead.
- `mean()`, `clear()`, `count()`, `size()` of the mutex queue and the level counts of the books: one-line reads.
- Standard containers and `std::sort`: by specification. A level map is a finite map whose first entry is its best key, the order table a finite map, a sorted copy any sorted permutation.
- Metrics.Percentile: exact real arithmetic; IEEE double rounding before the truncation may move a result, and no bit-exact claim is made.
- ObjectPools.ObjectPool: raw memory, placement new and pointer division; a pointer is a slot index with an in-use flag, and a slot holds an object exactly while it is in use. Memory allocation never fails.
- Counters: `allocations`, `deallocations`, `pool_exhaustions`, `produced`, `consumed` and vector sizes are unbounded; their uint64 wrap-around, and the wrap of `capacity + 1`, are not modelled. Batch indices likewise.
- Clocks: timestamps are parameters (generator, batching) or readings of one monotone clock below 2^64 (pipelines); the latency claims are conditional on that bound.
- Spsc.Step: a slot is read and written in one step and in one memory copy; that this is sound is what `Spsc.SlotAccessesAreOrdered` shows. Only the acquire-loads of the other side's index and of `producer_done` may be old.
- SpscRingBuffers.SpscRingBuffer: the class form covers one thread at a time, with what the acquire-load returns as a parameter; concurrency is in the state machine `Spsc`.
- MutexQueue.Step: modelled on values, one critical section per step, not as a class; the mutex itself and the atomicity of wait are taken from their specification. `push_with_mutation` is the same section for the mutated item.
- MutexTiming.ConsumerStep: applies the message at the pop, ahead of the clock readings around the update; no other thread sees the book in between.
- SpscLiveness.PipelineTerminates: fairness of the scheduler and eventual visibility of stores are assumptions about the platform, stated as such.
- MutexLiveness.PipelineTerminates: so is fairness here; a thread that is scheduled gets the mutex.
- OrderBooks.OrderBook.HandleModify: says nothing about a Modify whose int32 arithmetic overflows, which is undefined in the source.
- Framing.Feed: the kernel is a finite script of call outcomes per end, after which calls fail, and a lost tail of the byte stream; the producer's bytes are fixed before the consumer reads them, since the two loops share nothing but the stream. The stamp written into each message just before sending is an arbitrary clock reading.
- Wire.Encode: a little-endian host with the struct's natural offsets, padding sent as zeros; the symbol is the array of eight chars that its type says (`Wire.Encodable`).
- Wire.Decode: bytes with a side or a kind that no program here sends decode to nothing, and the book ignores them; what the struct would then hold is not modelled.
- Fields that the book ignores (sequence number, timestamp, symbol) are carried but nothing is proved about them beyond the generator.
