# Verified model of the SIMD NanoRing market data engine

This project models the order-book engine and the two concurrent pipelines of a
NASDAQ ITCH 5.0 market data engine, and proves what they keep over whole runs.
`dafny verify dfyconfig.toml` checks all of it.

Five pieces are modelled, each as the source writes it and as a value:

- **Order table** (`Probing`, `OrderTable`, `FlatOrderMaps`). Open addressing with linear
  probing, tombstones and doubling. The class is proved to compute functions on the
  slots; the functions are proved to refine a finite map from order reference to order.
- **Order book** (`PriceLevels`, `LiveOrders`, `BookModel`, `BookRefinement`, `BookEnvelope`,
  `BookLimits`, `BookConservation`, `BookQuotes`, `OrderBooks`). Two sorted level arrays, two
  cached best prices and the order table. `LiveOrders` is the independent reference: a map of live orders that
  knows no table, array or cache. The book refines it exactly as long as references are
  fresh, the orders fit the arrays and no departing order leaves a stale cached price; beyond
  the arrays' capacity an envelope still holds, on the same terms for the cached price, and
  `BookQuotes` says exactly what arrays and cache are on every stream with fresh references.
- **Book manager** (`SymbolTable`, `BookManagerModel`, `ShardedBookManagers`). An insert-only
  probe table from ticker to one of 512 books.
- **Rings and pipelines** (`Rings`, `SpscProtocol`, `SpscQueues`, `JournalProtocol`,
  `BroadcastJournals`, `ProgressProtocol`, `Sharding`, `BroadcastPipeline`, `BroadcastCompletion`,
  `RoutedPipeline`, `RoutedCompletion`, `PipelineThreads`, `PipelineEquivalence`). Each protocol
  is a state machine over atomic steps; an interleaving is any sequence of steps of its
  threads, and the theorems hold of every one. Payload copies and index stores are separate steps, and during a copy the slot
  may hold anything. Release/acquire order is the rule that a payload step precedes the
  index step that publishes it.
- **Decoder** (`Bytes`, `Decoder`, `SimdDecoder`). Length-prefixed framing, the four message
  handlers on a little-endian host, and the four-lane Add Order decoder.

Hash functions are parameters: any total function will do, only determinism matters.
`& mask` is `% capacity`. Ring counters are natural numbers, as they stay below 2^64.
Prices and shares are 32-bit and their sums wrap as in the source.

## Where the obvious claim is false

The code is kept as it is, and the exact condition is proved instead.

- Inserting a key that is already live may leave it in two slots: it does unless every slot
  its probe passes is in use (`OrderTable.ReinsertIffReached`). Any two keys with a common
  home slot reach it, at any capacity (`OrderTable.ReinsertCanDuplicate`).
- A stream of orders with positive prices and shares, of any sides, keeps the book in step with
  the live orders throughout if and only if references are fresh, the orders always fit
  the arrays, and no order departs uncovered (`BookRefinement.AlwaysInStepIff`).
  - Orders that do not fit: two of 2^31 shares at one price wrap their level to 0
    (`BookLimits.SharesDoNotFit`), and more than 256 prices on a side lose levels
    (`BookLimits.PricesFitIff`).
  - An uncovered departure: a side other than 'B' or 'S' is stored as an ask but never refreshes
    the cached best ask. When such an order leaves, the cache stays right if and only if
    it was not at the best ask or another ask rests at its price
    (`BookRefinement.DepartureInStepIff`, with a two-message run in `BookLimits.OtherSideGoesStale`).
- The comments at include/broadcast_journal.h:25-26 and :65-66 say that
  `min_consumer_seq_` follows the slowest consumer. `report_consumer_progress` keeps the largest
  report (`ProgressProtocol.CounterIsMaximum`). So with consumers that report their own cursors
  `try_publish` protects unread items in every interleaving if and only if there is at
  most one consumer, whatever the size of the ring (`JournalProtocol.OwnReportsSafeIff`).
- The repository's own README describes backpressure, but `Pipeline::run` publishes unconditionally.
  Consumers apply exactly the published orders under every interleaving if and only if the
  stream is no longer than the ring (`BroadcastPipeline.EveryRunAppliesExactlyIff`).
- The two pipelines give a thread a manager of its own, with room for 512 tickers each. Beyond
  512 tickers they agree with one sequential manager on a ticker exactly when both
  or neither have room for it (`PipelineEquivalence.AgreementBeyondCapacity`); with 513 tickers
  in more than one shard they can disagree (`Sharding.ShardHoldsMore`).
- Order references are not byte-swapped by the decoder. A decoded reference equals the one
  sent if and only if its bytes read the same both ways (`Decoder.ReferenceKeptIff`).
- The comments in include/itch_messages.h:25, :36 and :45 give 30, 18 and 34 bytes for three
  message types; the packed structures and the size constants of the decoder give 31, 19 and 35.

## Model

| member | source | states |
|---|---|---|
| Probing.ProbeOrderIsRotation | include/order_book.h:37-46 | A wrapped probe from any home visits every slot exactly once: its order is the table rotated to the home. |
| Probing.StepIsNext | include/order_book.h:43 | `(idx + 1) & mask` walks the probe order and returns to the home after a lap. |
| Probing.HomeIsRemainder | include/order_book.h:38 | The home slot is the hash masked to the capacity. |
| OrderTable.FirstStop | include/order_book.h:37-83 | A probe stops at the first slot of its order that meets its stopping rule, or reports that a full lap met none. |
| OrderTable.ExhaustedProbeProvesAbsence | include/order_book.h:37-46 | A bounded probe runs out if and only if no slot at all would have stopped it. |
| OrderTable.PlacementStops | include/order_book.h:51-67 | The unbounded loop of `insert` and the inner loop of `rehash` stop within one lap while a slot is unoccupied. |
| OrderTable.LoadKept | include/order_book.h:49 | The check at three quarters load leaves a slot unoccupied before every placement, and the load bound is kept. |
| OrderTable.LocateExact | include/order_book.h:37-46 | `find` returns the slot of every live key, even with no pristine slot left. |
| OrderTable.LocateView | include/order_book.h:37-46 | `find` succeeds exactly on live keys and gives the order stored under the key. |
| OrderTable.ErasedRefines | include/order_book.h:70-83 | `erase` removes exactly its key and keeps every other key reachable, whatever the keys. |
| OrderTable.ErasedMarks | include/order_book.h:75-78 | The erased slot is left unoccupied under reference 2^64 - 1, the size falls by one and no other slot changes. |
| OrderTable.InsertedRefines | include/order_book.h:48-68 | Inserting a non-live key adds exactly that entry, keeps keys unique and reachable, reusing tombstones. |
| OrderTable.RehashedRefines | include/order_book.h:95-110 | Doubling keeps exactly the live entries and `size_`, restores the probe paths and drops every tombstone. |
| OrderTable.TableRefinesMap | include/order_book.h:37-110 | Over every sequence of finds, erases and fresh inserts, for all 64-bit keys and across rehashes, answers and content are those of a finite map, and `size_` is its size. |
| OrderTable.ReinsertIffReached | include/order_book.h:51-66 | Re-inserting a live key keeps keys unique, and then overwrites, if and only if every slot its probe passes is occupied. |
| OrderTable.ReinsertCanDuplicate | include/order_book.h:53-59 | At every capacity and for every two keys with a common home slot: insert both, erase the first, insert the second again, and it is in two slots. |
| FlatOrderMaps.FlatOrderMap.constructor | include/order_book.h:29-35 | A new map is 2^20 zeroed slots. |
| FlatOrderMaps.FlatOrderMap.Find | include/order_book.h:37-46 | The probe loop returns the first live slot of the key. |
| FlatOrderMaps.FlatOrderMap.FindPlacement | include/order_book.h:50-67 | The `for (;;)` loop ends, at the first slot that is free or holds the key. |
| FlatOrderMaps.FlatOrderMap.FindHole | include/order_book.h:102-103 | The inner loop of `rehash` ends, at the first free slot. |
| FlatOrderMaps.FlatOrderMap.Rehash | include/order_book.h:95-110 | In place of the slots stands the doubled copy that RehashedRefines describes. |
| FlatOrderMaps.FlatOrderMap.Insert | include/order_book.h:48-68 | The new slots and size are those of the insertion that InsertedRefines describes. |
| FlatOrderMaps.FlatOrderMap.Erase | include/order_book.h:70-83 | The new slots and size are those of the erasure that ErasedRefines describes. |
| PriceLevels.BinaryFind | include/order_book.h:264-276 | Returns the index of the price, or encodes the one position where it keeps the array sorted. |
| PriceLevels.ShiftRight | include/order_book.h:290-293 | Moves the tail up by one and leaves the rest. |
| PriceLevels.ShiftLeft | include/order_book.h:305-308 | Deletes one position and closes the gap. |
| PriceLevels.AddToLevels | include/order_book.h:278-296 | The array afterwards is the sorted insertion or addition; the count grows by one exactly for a new price while fewer than 256 are held. |
| PriceLevels.RemoveFromLevels | include/order_book.h:298-314 | The array afterwards is the subtraction, with the level deleted when it reaches zero. |
| PriceLevels.AddKeepsSorted | include/order_book.h:278-296 | Adding keeps strict order. |
| PriceLevels.RemoveKeepsSorted | include/order_book.h:298-314 | Removing keeps strict order. |
| PriceLevels.AddLevelMap | include/order_book.h:278-296 | As a map from price to shares: an update at the price modulo 2^32, a new price while fewer than 256 are held, dropped from then on, other prices untouched. |
| PriceLevels.RemoveLevelMap | include/order_book.h:298-314 | As a map from price to shares: truncated subtraction with deletion at zero, other prices untouched. |
| BookModel.Step | include/order_book.h:132-147 | On every message whatever, both arrays stay strictly sorted within 256 levels and the table's size stays the number of occupied slots. |
| BookRefinement.JoinFresh | include/order_book.h:171-190 | Adding a fresh order keeps levels and live orders in step if and only if the orders fit the arrays. |
| BookRefinement.JoinStale | include/order_book.h:171-190 | Adding under a reference that is still live always puts them out of step. |
| BookRefinement.Leave | include/order_book.h:192-230 | Taking shares off a live order keeps levels and live orders in step. |
| BookRefinement.TopIsBest | include/order_book.h:332-340 | The first level is the best live price of its side, 0 exactly when there is none. |
| BookRefinement.BboAfterLeave | include/order_book.h:192-230 | Taking shares off any live order keeps levels in step, and the cached bests if and only if the order stays or its departure is covered. |
| BookRefinement.DepartureInStepIff | include/order_book.h:316-324 | When an order of any side departs, levels and cached bests stay in step if and only if its side is 'B' or 'S', or it was not at the best ask, or another ask rests at its price. |
| BookRefinement.StepTable | include/order_book.h:171-258 | Every handler keeps the table in step with the live orders. |
| BookRefinement.StepStored | include/order_book.h:132-314 | One message of any side keeps table and arrays in step with the live orders if and only if its reference is fresh and the orders fit. |
| BookRefinement.StepRefines | include/order_book.h:132-340 | One message of any side keeps table, arrays and cache in step with the live orders if and only if its reference is fresh, the orders fit and no order departs uncovered. |
| BookRefinement.KnownSidesCover | include/order_book.h:316-324 | A feed of sides 'B' and 'S' only never has an uncovered departure. |
| BookRefinement.RunRefines | include/order_book.h:132-340 | The same over every run: the book simulates the map from reference to side, price and remaining shares. |
| BookRefinement.AlwaysInStepIff | include/order_book.h:132-340 | A stream of messages with positive prices and shares, of any sides, keeps the book in step all along if and only if references are fresh, orders fit and departures are covered all along. |
| BookRefinement.RunBbo | include/order_book.h:149-158 | After such a run levels are exactly the live prices with their resting shares, and each cached best is the best live price, or 0. |
| BookLimits.OtherSideGoesStale | include/order_book.h:183-188 | Added to an empty book and deleted, an order of a side other than 'B' or 'S' leaves the cached best ask naming its price. |
| BookLimits.SharesDoNotFit | include/order_book.h:282 | Two fresh orders of 2^31 shares at one price leave a level of 0 shares and the book out of step. |
| BookLimits.PricesFitIff | include/order_book.h:286 | A stream of n bids at n prices stays in step if and only if n is at most 256. |
| BookLimits.LevelsHeld | include/order_book.h:122 | After n such bids the array holds n levels, best first, up to 256 and exactly 256 beyond, while the cached best bid is the newest price. |
| BookQuotes.StepQuotes | include/order_book.h:171-340 | On every book, saturated or not, a message does to arrays and cache what the feed's rules do to two maps of at most 256 prices: an addition offers its price to the cache even when the array drops it, a departure looks its price up again, a replacement looks up both sides. |
| BookQuotes.RunQuotes | include/order_book.h:132-340 | Over every stream with fresh references, whatever its prices, shares and sides, level totals and cached bests are exactly those of the maps. |
| BookQuotes.FillingShowsBest | include/order_book.h:171-190 | While a book only fills, with no bound on prices, each cached best is the best live price of its side, 0 when there is none. |
| BookEnvelope.StepEnvelope | include/order_book.h:171-340 | With any number of prices and orders of any side, one message keeps the saturation envelope if and only if it does not leave the cached best ask behind. |
| BookEnvelope.AlwaysInEnvelopeIff | include/order_book.h:171-340 | A run with fresh references and 32-bit sums stays in the envelope all along if and only if no departure of an order of another side leaves the cached best ask behind. |
| BookEnvelope.RunEnvelope | include/order_book.h:171-340 | So every run of sides 'B' and 'S' ends in it: arrays sorted, level totals positive and at most the live shares, each cached best 0 or a live price and no worse than the first level. |
| BookConservation.StepBalanced | include/order_book.h:171-258 | One message moves as many shares into the ledger as it moves in the arrays and in the live orders. |
| BookConservation.RunConserves | include/order_book.h:171-314 | For orders of any sides that fit, shares added and replaced in equal those executed, deleted and replaced out plus the sum of all level totals, and the totals are the shares live orders still hold. |
| OrderBooks.OrderBook.constructor | include/order_book.h:160-169 | A new book is empty in all three views. |
| OrderBooks.OrderBook.HandleAdd | include/order_book.h:171-190 | Every field afterwards, on every message and at full arrays too, is that of the addition that StepQuotes and StepTable describe. |
| OrderBooks.OrderBook.HandleExecute | include/order_book.h:192-213 | The same for an execution, capped at what remains. |
| OrderBooks.OrderBook.HandleDelete | include/order_book.h:215-230 | The same for a deletion. |
| OrderBooks.OrderBook.HandleReplace | include/order_book.h:232-258 | The same for a replacement. |
| OrderBooks.OrderBook.RecalculateBbo | include/order_book.h:316-324 | Only the side whose best price was vacated is refreshed; a side other than 'B' or 'S' never is. |
| OrderBooks.OrderBook.Apply | include/order_book.h:132-147 | The class computes the step that BookRefinement, BookEnvelope and BookConservation speak of. |
| SymbolTable.ProbeEnds | include/order_book.h:393-408 | At most half the slots are ever used, so every probe ends before a full lap. |
| SymbolTable.IndexOfExact | include/order_book.h:365-374 | A known ticker is found at its index and an unknown one is not found. |
| SymbolTable.ResolvedRepresents | include/order_book.h:393-408 | A known ticker resolves without change, a new one takes the next index below 512, and from then on is refused; the table stays a bijection. |
| BookManagerModel.RunIsolated | include/order_book.h:355-408 | Over every message sequence the symbol table is a bijection between the first at most 512 distinct tickers and the indices in use, each book is the fold of exactly its ticker's messages, and `total_messages_` counts exactly those not dropped. |
| BookManagerModel.GetBookExact | include/order_book.h:347-374 | `get_book` returns that fold for each of the first 512 distinct tickers and nothing for any other. |
| ShardedBookManagers.ShardedBookManager.constructor | include/order_book.h:347-353 | A new manager has 1024 empty symbol slots and 512 empty books in separate storage. |
| ShardedBookManagers.ShardedBookManager.FindSlot | include/order_book.h:366-373 | The probe loop returns the first slot that is empty or holds the ticker. |
| ShardedBookManagers.ShardedBookManager.FindOrInsertSymbol | include/order_book.h:393-408 | The symbol arrays afterwards and the index are those that ResolvedRepresents describes. |
| ShardedBookManagers.ShardedBookManager.Apply | include/order_book.h:355-360 | Exactly one book takes the step, no other book's storage is reached, and the count grows unless the message is dropped. |
| ShardedBookManagers.ShardedBookManager.FindBook | include/order_book.h:365-374 | Returns the book object that holds the value GetBookExact describes. |
| SpscProtocol.StepKeepsInv | include/spsc_queue.h:34-79 | Every step of either thread keeps: at most a ring of items pending, their slots holding exactly them, popped items a prefix of pushed ones. |
| SpscProtocol.QueueSafe | include/spsc_queue.h:34-86 | The same in every interleaving, and the producer never touches the slot the consumer is reading. |
| SpscProtocol.RefinesFifo | include/spsc_queue.h:34-79 | Each step is invisible or one atomic step of a bounded first-in first-out queue; a refusal saw it full, a failed pop saw it empty. |
| SpscQueues.SpscQueue.WriteOrRefuse | include/spsc_queue.h:41-43 | Refuses exactly when the ring is full as last seen, and otherwise writes slot `head` only. |
| SpscQueues.SpscQueue.CopyOrGiveUp | include/spsc_queue.h:74-76 | Fails exactly when the ring is empty as last seen, and otherwise copies slot `tail`. |
| SpscQueues.SpscQueue.TryPush | include/spsc_queue.h:34-46 | With no other thread between its steps, enqueues unless a ring of items is pending. |
| SpscQueues.SpscQueue.TryPop | include/spsc_queue.h:66-79 | With no other thread between its steps, dequeues the oldest item unless there is none. |
| JournalProtocol.RunKeepsInv | include/broadcast_journal.h:38-81 | In every interleaving each slot holds the newest sequence number that maps to it, and the ring exactly the last lap. |
| JournalProtocol.ProgressIsMaximum | include/broadcast_journal.h:65-75 | In every interleaving the progress is 0 or a reported value, and no reported value exceeds it. |
| JournalProtocol.SlotIsCurrentIff | include/broadcast_journal.h:77-81 | `get_payload(s)` yields the item published as s if and only if s is within the last lap. |
| JournalProtocol.IntactIffNotLapped | include/broadcast_journal.h:52-58 | In every interleaving a reader's unread and in-use items are intact if and only if it is not lapped. |
| JournalProtocol.PublishSafeIff | include/broadcast_journal.h:52-58 | Starting an unconditional publication destroys nothing unread if and only if every cursor is less than a ring behind. |
| JournalProtocol.JournalSafe | include/broadcast_journal.h:38-81 | With `try_publish` and no report beyond the slowest cursor, in every interleaving no unread or in-use slot is overwritten and every reader reads as s the item published as s. |
| JournalProtocol.OneReaderSafe | include/broadcast_journal.h:65-75 | At most one consumer, reporting its own cursor, meets that hypothesis. |
| JournalProtocol.TwoReadersUnsafe | include/broadcast_journal.h:65-75 | With more, in a ring of any size, a run exists in which `try_publish` overwrites an item a slower one has not read. |
| JournalProtocol.OwnReportsSafeIff | include/broadcast_journal.h:38-75 | With consumers that report their own cursors, `try_publish` destroys nothing unread in any interleaving if and only if there is at most one consumer, for every ring size. |
| BroadcastJournals.BroadcastJournal.TryPublish | include/broadcast_journal.h:38-50 | With no other thread between its steps, appends exactly when a slot lies beyond the progress reported, and otherwise changes nothing. |
| BroadcastJournals.BroadcastJournal.Publish | include/broadcast_journal.h:52-58 | With no other thread between its steps, appends whatever the readers have done. |
| BroadcastJournals.BroadcastJournal.CheckProgress | include/broadcast_journal.h:43-47 | The unsigned comparison, including its wrap when the reported progress is ahead. |
| BroadcastJournals.BroadcastJournal.GetPayload | include/broadcast_journal.h:77-81 | Gives the item in the slot of the sequence asked for, which stays in use until the cursor advances. |
| BroadcastJournals.BroadcastJournal.ReportProgress | include/broadcast_journal.h:65-75 | However often the exchange fails spuriously, the progress ends at the larger of its old value and the value reported. |
| ProgressProtocol.StepKeepsInv | include/broadcast_journal.h:65-75 | Under concurrent reporters, stale loads and spurious failures, a step keeps the counter or raises it to the value being reported. |
| ProgressProtocol.Monotone | include/broadcast_journal.h:65-75 | The counter never decreases along a run. |
| ProgressProtocol.CounterIsMaximum | include/broadcast_journal.h:65-75 | It is 0 or a reported value, at least every value whose call returned, and with all calls complete the maximum. |
| Sharding.ShardsPartition | include/pipeline.h:113-117 | The shards partition every message sequence: their sizes sum to its length. |
| Sharding.ShardIsRemainder | include/pipeline.h:113-117 | A ticker's shard is the remainder of its mixed value by the number of threads. |
| Sharding.TickerWithinShard | include/pipeline.h:145-147 | A shard carries its tickers' messages whole and in order, and no others. |
| Sharding.ShardedAgreesIff | include/order_book.h:355-374 | A shard's manager and a single one agree on a ticker if and only if both or neither have room for it; always up to 512 tickers. |
| Sharding.ShardHoldsMore | include/order_book.h:397-402 | With 513 tickers not all of one shard, the last one is held by its shard's manager and dropped by a single one. |
| BroadcastPipeline.StepKeepsInv | include/pipeline.h:127-189 | Every step of any thread keeps the producer's and all consumers' invariants. |
| BroadcastPipeline.ExitsOnlyAtTheEnd | include/pipeline.h:130-140 | Because the index is loaded again after `producer_done` is seen, in every interleaving a consumer exits only at the end of the stream, having visited every sequence number once and in order. |
| BroadcastPipeline.RunReports | include/pipeline.h:163-165 | In every interleaving the reported progress is at most the largest cursor and at least the cursor of every consumer outside its inner loop. |
| BroadcastPipeline.FinishedIsReported | include/pipeline.h:163-165 | A complete run ends with the whole stream reported. |
| BroadcastPipeline.BroadcastDelivers | include/pipeline.h:127-189 | On every complete run in which no consumer is lapped, each has applied exactly its shard's messages in order, and the counts sum to the number of orders. |
| BroadcastPipeline.ShortStreamsNeverLap | include/pipeline.h:67-189 | No run laps a consumer when the stream fits the ring. |
| BroadcastPipeline.EveryRunAppliesExactlyIff | include/pipeline.h:142-183 | In every interleaving every consumer has applied exactly its shard of the orders it has passed if and only if the stream fits the ring. |
| BroadcastCompletion.CanAlwaysFinish | include/pipeline.h:127-189 | From every reachable state some continuation is a complete run: the shutdown handshake never wedges. |
| RoutedPipeline.StepKeepsInv | include/routed_pipeline.h:73-147 | Every step of any thread keeps each shard's queue, ledger and consumer invariants. |
| RoutedPipeline.LedgerHolds | include/routed_pipeline.h:117-141 | In every interleaving, pushed plus batched messages are the shard's part of the orders routed so far, and popped ones a prefix of pushed ones. |
| RoutedPipeline.BatchesGoOut | include/routed_pipeline.h:111-134 | In every interleaving no batch exceeds 64; before each order is routed, every queue has been given exactly the whole batches of 64 routed to it so far. |
| RoutedPipeline.ExitsWithEverything | include/routed_pipeline.h:77-101 | No consumer exits with a message outstanding: it has popped exactly its shard's messages in order. |
| RoutedPipeline.RoutedDelivers | include/routed_pipeline.h:73-147 | On every complete run, with no further hypothesis, delivery is exact and the counts sum to the number of orders. |
| RoutedCompletion.CanAlwaysFinish | include/routed_pipeline.h:73-147 | From every reachable state, full queues included, some continuation is a complete run: `push` and the handshake never wedge. |
| PipelineThreads.BookThread.Take | include/routed_pipeline.h:78-80 | A thread's manager is the fold of what the thread has applied, and its count the number of those messages. |
| PipelineThreads.BookThread.Drain | include/pipeline.h:142-160 | The inner loop applies exactly its shard's part of the payloads, in order. |
| PipelineThreads.Router.Push | include/spsc_queue.h:48-64 | On a bounded ring whose consumer pops while the producer waits, a push ends and appends exactly its item. |
| PipelineThreads.Router.Route | include/routed_pipeline.h:125-133 | What was pushed into a shard's bounded queue plus its batch stay the shard's part of what was routed; every batch stays below 64 and goes out whole at 64. |
| PipelineThreads.Router.RouteAll | include/routed_pipeline.h:117-141 | After the final flush every bounded queue was given exactly its shard's orders, in order. |
| PipelineEquivalence.SameDeliveries | include/routed_pipeline.h:38-163 | On complete runs, never lapped in the broadcast case, both pipelines give every consumer the same messages. |
| PipelineEquivalence.PipelinesAgree | include/pipeline.h:95-205 | With at most 512 distinct tickers the broadcast pipeline, the routed pipeline and one sequential manager hold the same book for every ticker: the fold of its messages in order. |
| PipelineEquivalence.AgreementBeyondCapacity | include/pipeline.h:95-205 | Beyond 512 tickers the pipelines still agree with each other on every thread, and with the sequential manager on a ticker if and only if both or neither have room for it. |
| Bytes.Swap32Involution | include/simd_decoder.h:275-277 | Swapping twice restores the word. |
| Bytes.SwapReadsBigEndian | include/simd_decoder.h:264-277 | Load and swap read four bytes in big-endian order. |
| Decoder.DecodeStream | include/simd_decoder.h:56-83 | For every buffer and cap: all reads in bounds, at most `max_output` orders, which are those of the recursive frame grammar, and nothing written beyond them. |
| Decoder.DecodeFrame | include/simd_decoder.h:72-78 | One turn of the loop writes at most one order, exactly when the type has a handler and the frame is long enough. |
| Decoder.ParseConcat | include/simd_decoder.h:56-83 | Decoding distributes over concatenation at a frame boundary. |
| Decoder.ParseTruncated | include/simd_decoder.h:56-83 | Cutting the buffer anywhere leaves a prefix of the orders. |
| Decoder.RoundTrip | include/simd_decoder.h:30-83 | A stream yields exactly the orders of its messages of the four types, on every retained field and with any bytes after them, whatever frames of other types, too short or empty, of any length below 65536, stand between. |
| Decoder.ReferenceKeptIff | include/simd_decoder.h:282 | A decoded reference is the one sent if and only if its bytes read the same both ways; swapping once more recovers it. |
| SimdDecoder.ReverseIsShuffle | include/simd_decoder.h:113-169 | The NEON reversal and the AVX2 shuffle mask are the same permutation of 16 bytes. |
| SimdDecoder.SwapLanesIsScalar | include/simd_decoder.h:106-181 | On either target the vector swap is the scalar swap in every lane. |
| SimdDecoder.LoadBlock | include/simd_decoder.h:94-126 | Every lane of the three vectors holds the ticker and the swapped price and shares of its own record. |
| SimdDecoder.DecodeBlock | include/simd_decoder.h:94-146 | A block writes its four output slots with what the scalar handler decodes, and no others. |
| SimdDecoder.DecodeAddOrdersSimd | include/simd_decoder.h:87-212 | For every n and target, block loop and tail write each output index once with exactly what the scalar handler decodes. |

## Left out

- `order_count`, `stats_`, `bbo_changes` and `spread()`: the first three do not track what their names suggest, the last is a subtraction.
- Timing, latency records, throughput, thread pinning, pauses, prefetch and alignment have no functional meaning.
- `filter_tickers_simd`, the data generator, the experiments and `main` are not part of this model.
- The concrete hash functions: they are parameters, so load balance is not modelled.
- Memory orders weaker than release/acquire publication, counters at 2^64, and the fairness that would turn CanAlwaysFinish into termination.
- BroadcastPipeline and RoutedPipeline are state machines on values, because their threads share objects between steps; the threads' own loops are in PipelineThreads.
- BroadcastDelivers: assumes that no consumer is lapped, because publication is unconditional; EveryRunAppliesExactlyIff says for which streams that is no assumption. A lapped reader keeps the payload as it first saw it, so a payload torn later during its use is not modelled.
- PipelinesAgree: assumes no lapping for the broadcast pipeline, like BroadcastDelivers; a thread's books are the fold of the messages it applied or popped, which PipelineThreads.BookThread.Take ties to the manager object.
- Push: fixes one schedule, in which the shard's consumer pops while the producer waits, as a single thread would never leave the wait; every schedule is in RoutedPipeline and RoutedCompletion.
- Route: like RouteAll, runs on that schedule of Push.
- RouteAll: runs on that schedule of Push; LedgerHolds and RoutedDelivers hold of every schedule.
- RunRefines: the messages of a stream must have positive prices and shares, as price 0 is the source's sentinel for none.
- A theorem from wire bytes to the right book: Execute, Delete and Replace decode with ticker 0, so they reach another book than their Add.
