# A verified model of the hbt replay engine

`hbt` replays recorded market data against a simulated exchange. A strategy talks to a *local* processor; the
local processor and the *exchange* processor of each asset exchange orders over two FIFO buses with latency; a
scheduler dispatches feed rows and messages of all assets in time order. This project models that engine and
proves what its two sides, its fast paths and its caches promise each other.

The model has two layers. Every operation is a function on values (`Exchange`, `LocalSide`, `HashMapDepth`,
`RoiDepth`, `Scheduler`, ...), and the laws are lemmas about these functions, over every input, every run and every
traversal order of the unordered containers. What the source does by changing state is a class or method with the
source's fields and loops (`HashMapMarketDepth`, `ROIVectorMarketDepth`, `NoPartialFillExchange`, `LocalProcessor`,
`OrderBus`, `EventSet`, `Backtest`, `EventReaderCache`, `EventReader`, `ProcessorState`), proved equal to those functions.

## Files

- `Core` orders, events, accounts; `QueueModels`, `Latency` the models plugged into the engine.
- `HashMapDepth`, `RoiDepth`, `Snapshot` the two order books and the snapshot.
- `Exchange` the matching engine; `ExchangeLaws`, `ExchangeRuns`, `QueueRuns`, `Executions` its laws; `StaleLevels` a run
  in which a clear revives a stale level.
- `OrderBus`, `LocalSide`, `Protocol`, `AskedTerms`, `AccountAgreement`, `PartialFills` the message protocol between the two sides;
  `FreshIds`, `FreshViews`, `FreshBooks` what submitting no id twice guarantees.
- `EventSet`, `Scheduler`, `SchedulerLaws`, `Waits`, `Backtest`, `WaitingCalls` the scheduler and the bot API.
- `Reader` shard-fed cursors and their shared cache; `Processors` both processors in place.
- `Replay` everything composed: the concrete processors under the scheduler and the bot API; `IdReuse` a replay in which
  reusing an order id turns the clock back.

## Numbers

Prices are integer ticks, with the two sentinels of the source kept as distinguished values; quantities are integer
lots; timestamps are unbounded integers; money and queue positions are exact reals. The maximal timestamp that marks
an empty slot is the constructor `Never`. Orders have positive quantity, depth rows non-negative quantity and a tick
strictly between the sentinels, durations and response latency are non-negative, and a negative entry latency means
that the request is rejected on its way, as in the source. Fee, contract and latency models are parameters.

## Where the code does less than one might expect

- A crossing update leaves the crossed levels stored. The best ticks stay exact if and only if no update crosses
  (`HashMapDepth.ExactUpdateIff`); what a later clear may revive is `HashMapDepth.ClearBidsSaneIff`. After a crossing the
  two books can part (`RoiDepth.CrossedBooksPart`), and they do so exactly when the hash-map book loses sight of a stale
  level (`RoiDepth.BooksAgreeIff`).
- A partial clear can find a stale level again and make it the best price, across a resting order. It keeps the resting
  book exactly when no level it leaves to be found crosses anything (`ExchangeLaws.ClearKeepsRestingBookIff`,
  `ExchangeRuns.RunOrderlyIff`); `StaleLevels.RevivedLevelCrosses` is a state reached from an empty exchange where it does
  not.
- The two scan branches agree on the resting book, not on every table: `ExchangeLaws.BranchesAgreeIff` and
  `ExchangeLaws.BestMovedBranchesAgreeIff` give the exact condition on outcomes, and after such a clear a trade through a
  resting order is missed by the tick-range scan (`StaleLevels.TradeIsMissed`).
- The clock can go back. A request to modify a finished order that the exchange finds resting and marketable is answered
  with the order's old stamp (`Replay.ReplyStamp`, `Replay.AnswerTimelyIff`). That cannot happen as long as no order id
  is submitted twice (`FreshIds.NoFinishedTaker`, `Replay.ClockNeverGoesBack`), and reusing one id is enough to bring it
  about (`IdReuse.ReuseTurnsClockBack`, with a latency model that tells cancels from submissions).
- A modify applied in place answers with the request still marked as a replacement, so the order accepts no further
  request: `Protocol.ModifyReplyFreesIff`. A modify that resubmits starts from the leaves the request carries, not from its
  new quantity: `ExchangeRuns.AdmissionLeaves`.
- A modify rejected by a negative entry latency does not restore the local terms: `Protocol.RejectedModifyRestoresIff`.
  The local side stays misinformed exactly when the order rests and nothing under way will tell the terms anew:
  `FreshViews.StepKeepsInformedIff`.
- A reply that hands back a request claiming a fill is booked once too often: `AccountAgreement.RequestBooksIff` gives
  the exact condition for one request, `AccountAgreement.AccountsDiffer` the exact difference of the accounts over every
  run, and `PartialFills.DisciplineIsNotEnough` a run of a disciplined strategy in which they differ.
- A request can overtake an earlier one when rows of the latency table are out of order (`Latency.OutOfOrderOvertakes`).
  With accepted rows at distinct times only, none does if and only if the rows are in order (`Latency.NoOvertakingIff`);
  for any table, if and only if none does among the requests sent within one tick of a row
  (`Latency.OvertakingIsNearRows`). Rows that decide about no request do not matter (`Latency.UnreachedRowIsHarmless`).
- A market order that finds nothing on the other side is executed all the same, at the sentinel price
  (`Executions.RunTakersPayBest`).
- A fill-or-kill order is treated like an immediate-or-cancel one, and a post-only market order takes liquidity; both
  follow the branches of `ack_new` (include/hbt/backtest/exchange.hpp:306-362).
- The result `OrderResponse` is returned only when waiting for a feed row and a reply at once, which no API call
  does. A wait whose reply is the last event of all reports the end of the data: `Waits.WaitIsElapse`.

## Model

| member | source | states |
|---|---|---|
| HashMapDepth.SaneUpdate | include/hbt/depth/hashmap_depth.hpp:94-165 | any update, crossing or not, keeps best bid < best ask with each best a stored level within its watermark; a bid update never lowers the best ask, nor an ask update raises the best bid |
| HashMapDepth.RunUpdates | include/hbt/depth/hashmap_depth.hpp:94-165 | book sanity after any sequence of updates |
| HashMapDepth.RunRows | include/hbt/depth/hashmap_depth.hpp:94-211 | after any history of updates and clears, crossing or not, stored levels are positive and each best is a stored level or absent |
| HashMapDepth.WatermarksAreQuoted | include/hbt/depth/hashmap_depth.hpp:94-211 | over any such history the watermarks are the lowest bid and the highest ask quoted since a removal or clear last left their side without a best |
| HashMapDepth.ExactUpdateIff | include/hbt/depth/hashmap_depth.hpp:94-165 | on a book whose best ticks are the true extremes, an update keeps them so if and only if it does not quote at or through the opposite best |
| HashMapDepth.ClearBidsSaneIff | include/hbt/depth/hashmap_depth.hpp:167-184 | a partial bid clear keeps the book sane if and only if no stale level at or above the ask is left below the cut |
| HashMapDepth.ClearAsksSaneIff | include/hbt/depth/hashmap_depth.hpp:185-203 | the same for asks |
| HashMapDepth.ExactClear | include/hbt/depth/hashmap_depth.hpp:167-211 | on an exact book a clear removes exactly the levels it names and leaves the book exact |
| HashMapDepth.HashMapMarketDepth.UpdateBidDepth | include/hbt/depth/hashmap_depth.hpp:94-129 | the in-place update and its report, all fields |
| HashMapDepth.HashMapMarketDepth.UpdateAskDepth | include/hbt/depth/hashmap_depth.hpp:131-165 | the same for asks |
| HashMapDepth.HashMapMarketDepth.ClearBidDepth | include/hbt/depth/hashmap_depth.hpp:167-184 | the in-place clear of the bid side, stale levels and watermark included |
| HashMapDepth.HashMapMarketDepth.ClearAskDepth | include/hbt/depth/hashmap_depth.hpp:185-203 | the in-place clear of the ask side |
| HashMapDepth.HashMapMarketDepth.ClearAllDepth | include/hbt/depth/hashmap_depth.hpp:203-211 | clearing both sides gives the empty book |
| HashMapDepth.HashMapMarketDepth.ScanBelow | include/hbt/depth/hashmap_depth.hpp:32-43 | the downward scan finds the highest stored level in its range |
| HashMapDepth.HashMapMarketDepth.ScanAbove | include/hbt/depth/hashmap_depth.hpp:44-55 | the upward scan finds the lowest stored level in its range |
| RoiDepth.StepAgreesIff | include/hbt/depth/roi_vector_depth.hpp:96-169 | one in-range row, crossing or not, takes agreeing books to agreeing books if and only if the hash-map book does not lose sight of a stale level: a search that only levels beyond the watermark could answer, or a clear that leaves stale levels beyond the best behind |
| RoiDepth.BooksAgreeIff | include/hbt/depth/roi_vector_depth.hpp:96-169 | over every history of in-range updates and clears the two books agree after every row if and only if no row makes the hash-map book lose sight of a stale level, and then all reports agree |
| RoiDepth.BooksAgree | include/hbt/depth/roi_vector_depth.hpp:96-169 | from empty books, for every history of in-range updates and clears that never crosses, the array and the hash map give the same reports, quantities and best ticks, and these are the extremes of the levels |
| RoiDepth.RowKeepsBounded | include/hbt/depth/roi_vector_depth.hpp:96-169 | as long as quotes stay short of the opposite best, each best is occupied, every occupied tick of the array lies between the best and the far bound of its side, a clear makes that bound exact, and a row outside the range changes nothing |
| RoiDepth.CrossedBooksPart | include/hbt/depth/hashmap_depth.hpp:152-164 | a concrete crossing history after which the two books name different best asks |
| RoiDepth.ROIVectorMarketDepth.UpdateBidDepth | include/hbt/depth/roi_vector_depth.hpp:96-119 | the in-place array update and its report, out-of-range ticks included |
| RoiDepth.ROIVectorMarketDepth.UpdateAskDepth | include/hbt/depth/roi_vector_depth.hpp:121-144 | the same for asks |
| RoiDepth.ROIVectorMarketDepth.ClearDepth | include/hbt/depth/roi_vector_depth.hpp:146-169 | the in-place clears, both ends of the side recomputed |
| RoiDepth.ROIVectorMarketDepth.Ends | include/hbt/depth/roi_vector_depth.hpp:231-250 | one pass over the cells finds the lowest and the highest stored tick |
| RoiDepth.ROIVectorMarketDepth.ScanBidBelow | include/hbt/depth/roi_vector_depth.hpp:217-223 | the downward cell scan |
| RoiDepth.ROIVectorMarketDepth.ScanAskAbove | include/hbt/depth/roi_vector_depth.hpp:224-230 | the upward cell scan |
| Snapshot.SnapshotRoundTrip | include/hbt/depth/hashmap_depth.hpp:214-265 | for every book of stored positive levels, crossed or not, a snapshot applied to a fresh book keeps both best ticks and exactly the levels at or behind them; the book comes out exact if and only if its best ticks do not cross |
| Snapshot.SnapshotIdempotent | include/hbt/depth/hashmap_depth.hpp:214-265 | snapshotting the restored book gives the same events in the same order |
| Snapshot.HistoryRoundTrip | include/hbt/depth/hashmap_depth.hpp:214-265 | both of these for every book that a history of updates and clears can lead to |
| Snapshot.TakeSnapshot | include/hbt/depth/hashmap_depth.hpp:236-265 | bids at or behind the best in descending order, then asks ascending |
| Snapshot.ApplySnapshot | include/hbt/depth/hashmap_depth.hpp:214-234 | the in-place application of snapshot events |
| QueueModels.ShrinkageConserved | include/hbt/models/queue.hpp:109-124 | in the split of a shrinkage nobody is lost: whoever is left in front and whoever is left behind add up to what is left |
| QueueModels.ProbDepthSplits | include/hbt/models/queue.hpp:101-125 | so a depth change leaves the order behind the displayed size plus what trades explain, less those still behind it, who lose the given share of the rest; a growth moves nobody, the new size caps, and the trade count starts anew |
| QueueModels.TradesExplainShrinkage | include/hbt/models/queue.hpp:96-107 | what traded is not counted again as a cancellation: a shrinkage by just what traded moves the order up by just that |
| QueueModels.NewcomerAdvances | include/hbt/models/queue.hpp:88-99 | under either model an order joins behind all that is displayed, and as that trades away it has just the rest ahead of it |
| QueueModels.ShrinkageEnds | include/hbt/models/queue.hpp:118-124 | with probability 0 all of a shrinkage is taken from the front, with probability 1 none as long as enough stand behind |
| QueueModels.ShrinkageMonotone | include/hbt/models/queue.hpp:118-124 | the likelier a shrinkage is to come from behind, the less it moves the order up |
| QueueModels.ProbDepthAdvances | include/hbt/models/queue.hpp:101-125 | with a probability in [0,1] a depth change never pushes an order back, and moves it up by at most the shrinkage trades do not explain unless the new size caps it |
| QueueModels.FillTest | include/hbt/models/queue.hpp:127-136 | a fill is reported exactly when trades overran the order by half a lot or more, by the nearest number of lots, and the order is then at the front |
| QueueModels.ProbBounded | include/hbt/models/queue.hpp:83-140 | the probabilistic model never places an order behind the displayed size, whatever the probability |
| QueueModels.RiskAdverseBounded | include/hbt/models/queue.hpp:39-69 | nor does the risk-averse model |
| QueueModels.LotsAheadClosedForm | include/hbt/models/queue.hpp:39-69 | queue-ahead is the least of the initial size and each displayed size plus what traded before it, less everything traded |
| QueueModels.RiskAdverseOnLots | include/hbt/models/queue.hpp:48-68 | on whole lots the model steps as the closed form does, and reports a fill exactly when trades overran the queue, by the lots overrun |
| QueueRuns.FillsOnFirstOverrun | include/hbt/backtest/exchange.hpp:154-194 | over any run that does not execute the order otherwise, an order still rests, at the closed-form position, if and only if no trade at its price overran the queue |
| QueueRuns.ExecutionWithinTrade | include/hbt/backtest/exchange.hpp:159-171 | with v lots ahead and n traded at its price an order executes exactly when n > v: with partial fills by min(n - v, leaves), so never by more than was traded, and otherwise entirely |
| QueueRuns.RunKeepsQueueOnLots | include/hbt/models/queue.hpp:39-69 | queue positions stay non-negative whole lots over every run of rows and requests, clears included, with or without partial fills, so the previous row applies throughout |
| ExchangeLaws.SweepOrderFree | include/hbt/backtest/exchange.hpp:75-122 | the traversal order of a scan shows only in the order of its reports: same orders, same account, same multiset of reports |
| ExchangeLaws.BranchesAgreeIff | include/hbt/backtest/exchange.hpp:75-122 | on any order table, the tick-range scan gives the same book, account and multiset of replies as the full scan if and only if every order it passes over would have been left untouched |
| ExchangeLaws.BestMovedBranchesAgreeIff | include/hbt/backtest/exchange.hpp:260-304 | when the best price moved, that is so if and only if no order rests within the limit at or behind the reference |
| ExchangeLaws.FastScanVisitsAll | include/hbt/backtest/exchange.hpp:75-122 | on a resting book both branches visit the same orders, for trades and best-price moves on either side |
| ExchangeLaws.FastScanRefinesFull | include/hbt/backtest/exchange.hpp:260-304 | so the branch chosen by cost never changes orders, account or the multiset of replies, for any traversal order of either branch |
| ExchangeLaws.ScanIsCheapest | include/hbt/backtest/exchange.hpp:79-87 | the branch chosen looks at as few orders or ticks as either would, and at all orders where there is no reference |
| ExchangeLaws.TouchKeeps | include/hbt/backtest/exchange.hpp:154-221 | one visited order: executed plus remaining is what it owed, it leaves exactly when a report says Filled, and otherwise stays live |
| ExchangeLaws.ClearKeepsRestingBookIff | include/hbt/depth/hashmap_depth.hpp:167-211 | a clear of either side keeps the resting book if and only if every level it leaves for its search to find would, as the new best, cross neither the opposite best nor a resting order |
| ExchangeLaws.FeedKeepsRestingBook | include/hbt/backtest/exchange.hpp:56-123 | a feed row keeps the resting book if and only if it is not a clear of that kind, and after a trade nothing rests strictly through its price |
| ExchangeLaws.HandleKeepsRestingBook | include/hbt/backtest/exchange.hpp:306-406 | a request keeps the resting book if and only if it neither puts nor leaves an order in it that has nothing left to execute; so every cancel does |
| ExchangeRuns.RunOrderlyIff | include/hbt/backtest/exchange.hpp:56-138 | from a resting book, over every run: after every input each resting order is live, owes something, is filed under its id and does not cross the opposite best, if and only if no clear revives a level that crosses and no request places an order with nothing to execute |
| StaleLevels.StaleBookIsReached | include/hbt/depth/hashmap_depth.hpp:152-164 | from an empty exchange a crossing quote that goes away again leads to an orderly resting book with a stale bid above the best bid |
| StaleLevels.RevivedLevelCrosses | include/hbt/depth/hashmap_depth.hpp:167-184 | there a clear of bids makes the stale bid the best, above a resting sell: the book stays sane, the resting book does not |
| StaleLevels.TradeIsMissed | include/hbt/backtest/exchange.hpp:75-98 | and a trade through that sell is scanned by tick range without visiting it, where the full scan would have executed it |
| ExchangeRuns.QuantityConserved | include/hbt/backtest/exchange.hpp:154-238 | over any stretch of any run without a request for an order, whatever else is fed or asked, its leaves at the start are its executions plus its leaves at the end; it is gone if and only if all of it was executed |
| ExchangeRuns.NewIsAnswered | include/hbt/backtest/exchange.hpp:306-362 | a new order of a known id bounces; any other is executed, or rests as it is behind everything displayed if it may wait and does not reach the other side, or expires |
| ExchangeRuns.CancelIsAnswered | include/hbt/backtest/exchange.hpp:364-380 | a cancel takes the order out of the book and brings back the exchange's own record of it, and bounces where nothing rests |
| ExchangeRuns.ModifyIsAnswered | include/hbt/backtest/exchange.hpp:382-406 | a modify to another price, or to more than is still owed, does exactly what a cancel and then a new order do; any other amends the order in its place in the queue |
| ExchangeRuns.AdmissionLeaves | include/hbt/backtest/exchange.hpp:382-406 | what an admission by new, resubmit or in-place modify starts that count from |
| ExchangeRuns.OthersUntouched | include/hbt/backtest/exchange.hpp:306-406 | a request answers for its own order and changes no other |
| ExchangeRuns.RequestKeepsPlace | include/hbt/backtest/exchange.hpp:382-406 | only a resubmitting modify loses an order's place in the queue; it and a new order join behind everything displayed |
| ExchangeRuns.RunKeepsQueueWithinDisplay | include/hbt/backtest/exchange.hpp:240-258 | over every run without clears, orderly or not, no order's queue position exceeds the quantity displayed at its price and side |
| ExchangeRuns.DepthRowSplits | include/hbt/backtest/exchange.hpp:63-74 | under the probabilistic model a depth row moves exactly the orders at its price and side, by the split of the change from the size displayed before the row |
| ExchangeRuns.DepthRowsNeverPushBack | include/hbt/backtest/exchange.hpp:63-74 | so no depth row moves any resting order back |
| Executions.RowFillsIff | include/hbt/backtest/exchange.hpp:11-16 | a feed row executes a resting order if and only if it meets the documented fill conditions, whatever branch and traversal order; any other order keeps its record |
| Executions.RunIsFair | include/hbt/backtest/exchange.hpp:196-221 | over every run at all a resting order executes at its own price, an incoming limit order at no worse than its limit and never if post-only, unless the message only repeats what a request claimed; only waiting limit orders ever rest |
| Executions.RequestTakes | include/hbt/backtest/exchange.hpp:306-362 | a request executed at once, market order or not, is executed whole at the best price of the other side, with nothing left and status Filled; the account grows by that execution and the order does not rest |
| Executions.StepTakes | include/hbt/backtest/exchange.hpp:201-221 | every genuine execution as a taker, over any input, is such an execution of the request just handled |
| Executions.RunTakersPayBest | include/hbt/backtest/exchange.hpp:306-362 | over every run whose quotes do not cross, an incoming order pays the lowest stored ask or receives the highest stored bid at its arrival, or the sentinel where nothing is stored on that side |
| Executions.RowMakes | include/hbt/backtest/exchange.hpp:154-221 | every message of a feed row is the execution of a visited resting order: some of its lots at its own price, and nothing else of it changed |
| Executions.RunBooksReports | include/hbt/backtest/state.hpp:28-40 | over every run at all the exchange's account grows by exactly its genuine executions, and by all it reported if and only if no request's claim of a fill was repeated |
| Executions.AccountIsSummed | include/hbt/backtest/state.hpp:28-40 | so every field of the account is a sum over the genuine executions: lots bought less lots sold, money received less money paid, fees, fills, lots and money traded |
| Executions.EquityIsProfits | include/hbt/backtest/state.hpp:42-45 | equity at a mid price is the starting equity plus each execution's profit marked at that price, for linear and inverse contracts and any fee |
| Core.Accounting.TotalPermutes | include/hbt/backtest/state.hpp:28-40 | the account does not depend on the order in which executions are booked |
| Processors.NoPartialFillExchange.Process | include/hbt/backtest/exchange.hpp:56-123 | the feed handler in place: table, both indexes, account and reply bus end as the specification says for the order in which the scanned orders were visited |
| Processors.NoPartialFillExchange.ScanByCost | include/hbt/backtest/exchange.hpp:260-275 | the chosen branch collects exactly the orders it should, each once |
| Processors.NoPartialFillExchange.ScanRange | include/hbt/backtest/exchange.hpp:270-275 | the walk over the per-tick index collects exactly the orders strictly beyond the reference up to the limit |
| Processors.NoPartialFillExchange.SweepOrders | include/hbt/backtest/exchange.hpp:276-281 | the fill loop and removal: orders, account and replies, with both indexes kept in agreement with the table |
| Processors.NoPartialFillExchange.RemoveFilledOrders | include/hbt/backtest/exchange.hpp:223-238 | exactly the finished orders leave the table and the indexes |
| Processors.NoPartialFillExchange.OnQtyChange | include/hbt/backtest/exchange.hpp:240-258 | every order at the tick, and no other, hears of the new displayed quantity |
| Processors.NoPartialFillExchange.HandleNew | include/hbt/backtest/exchange.hpp:306-362 | a new order in place |
| Processors.NoPartialFillExchange.HandleCancel | include/hbt/backtest/exchange.hpp:364-380 | a cancel in place |
| Processors.NoPartialFillExchange.HandleModify | include/hbt/backtest/exchange.hpp:382-406 | a modify in place |
| Processors.NoPartialFillExchange.ProcessRecvOrder | include/hbt/backtest/exchange.hpp:125-138 | the draining loop answers exactly the requests due now, in order |
| Processors.LocalProcessor.Perform | include/hbt/backtest/local.hpp:45-93 | submit, modify and cancel in place, the refused cases included |
| Processors.LocalProcessor.ClearInactiveOrders | include/hbt/backtest/local.hpp:95-103 | exactly the finished orders are erased |
| Processors.LocalProcessor.TakeReply | include/hbt/backtest/local.hpp:164-186 | one reply in place: booking, rejection and update of the local record |
| Processors.LocalProcessor.ProcessRecvOrder | include/hbt/backtest/local.hpp:153-189 | the draining loop takes in exactly the replies due now, in order, and says whether the awaited order was among them |
| LocalSide.ReplyIsRecorded | include/hbt/backtest/local.hpp:164-186 | a reply books the execution it reports and replaces the record of its order but for the time of the local request; a rejection only takes the mark off the request it answers, and ends the order if that was its submission |
| LocalSide.UnfinishedAreKept | include/hbt/backtest/local.hpp:95-103 | exactly the orders neither expired, canceled nor filled are kept, as they are |
| OrderBus.AppendSorted | include/hbt/backtest/order_bus.hpp:39-42 | clamping keeps a bus sorted and never delivers before the time asked for |
| OrderBus.AppendSortedIff | include/hbt/backtest/order_bus.hpp:39-42 | a message asked for in the past comes late exactly when no message ahead of it holds it up |
| OrderBus.SentAfterLatency | include/hbt/backtest/order_bus.hpp:143-155 | an accepted request is due at the exchange after its entry latency, a refused one back after as long, or together with the message ahead of it if that is due later |
| OrderBus.AnsweredAfterLatency | include/hbt/backtest/order_bus.hpp:94-99 | a reply is due after its response latency, counted from the exchange's stamp, or together with the one ahead |
| OrderBus.RespondAllOrders | include/hbt/backtest/order_bus.hpp:94-99 | replies queue in the order sent and none is lost |
| OrderBus.OrderBus.Push | include/hbt/backtest/order_bus.hpp:39-42 | the in-place append with its clamped timestamp |
| OrderBus.OrderBus.Receive | include/hbt/backtest/order_bus.hpp:101-109 | the front is popped exactly when it is due now; on a timely bus the assertion about overdue messages holds |
| OrderBus.LocalToExch.Request | include/hbt/backtest/order_bus.hpp:143-155 | a request goes to the exchange bus, or its rejection to the local bus when the entry latency is negative |
| OrderBus.ExchToLocal.Answer | include/hbt/backtest/order_bus.hpp:94-99 | a reply is queued after the response latency |
| Protocol.ViewAgreement | include/hbt/backtest/local.hpp:58-93 | over every disciplined run without partial fills and refusals an id has at most one request under way, and with both buses empty nothing local is pending on a submission or cancel; with no request under way its queued replies bring the local order to exactly what the exchange rests, for which `FreshViews.ViewsAgree` needs neither the discipline nor whole fills |
| Protocol.StepKeepsOk | include/hbt/backtest/exchange.hpp:125-138 | every step of either side keeps the per-id protocol invariant |
| Protocol.HandleKeepsIdOk | include/hbt/backtest/exchange.hpp:306-406 | answering the request under way takes an id to a permitted state, late cancels and modifies included |
| Protocol.ModifyReplyFreesIff | include/hbt/backtest/exchange.hpp:392-405 | the reply to a modify frees the order for further requests if and only if the modify resubmitted it |
| Protocol.RejectedModifyRestoresIff | include/hbt/backtest/local.hpp:170-178 | a modify rejected on its way leaves the local terms as they were if and only if it changed none |
| AskedTerms.CommandCarries | include/hbt/backtest/local.hpp:45-93 | a submission carries exactly what the strategy asked for with nothing executed, a modify or cancel the recorded order with exactly that change; a refused one comes back with the former terms |
| AskedTerms.EverythingIsAsked | include/hbt/backtest/local.hpp:45-93 | over every run at all, every order recorded, resting or on either bus, execution reports included, has the side, type and time in force of an accepted submission of its id in the run and the price and quantity of an accepted submission or modify of its id |
| AskedTerms.LikeItsSubmission | include/hbt/backtest/local.hpp:45-57 | with fresh ids that submission is the only one of the id |
| FreshIds.StepKeepsOnce | include/hbt/backtest/exchange.hpp:306-406 | with no id submitted twice, every step keeps: an order the exchange rests is finished nowhere, and one it does not rest never comes back |
| FreshIds.FinishedStaysGone | include/hbt/backtest/local.hpp:153-189 | over every run that reuses no id, with partial fills, rejections and requests on finished orders: an order known or about to be known as finished does not rest |
| FreshIds.NoFinishedTaker | include/hbt/backtest/exchange.hpp:202-205 | in every such state the request next in line is not about to execute a finished order |
| FreshViews.ViewsAgree | include/hbt/backtest/local.hpp:153-189 | over every run that submits no id twice, with partial fills, refusals and changes of orders in any state, as long as no change of terms is refused unheard: whenever an order does not rest, or no request for it is under way, its queued replies bring the local order to exactly what the exchange rests (side, price, quantity, leaves) |
| FreshViews.StepKeepsInformedIff | include/hbt/backtest/local.hpp:58-93 | of all moves only a request refused on its way can mislead the local side, and it does so if and only if it changes the terms of a resting order that no reply under way and no request before it will tell anew |
| FreshViews.RunInformedIff | include/hbt/backtest/local.hpp:153-189 | so the local side is informed after every move of a run if and only if no request was refused in that way |
| FreshBooks.StepKeepsRestingBookIff | include/hbt/backtest/exchange.hpp:125-138 | with fresh ids and positive quantities no request ever leaves an empty order in the book: of all moves only a clear can break the resting book, exactly when it is unsafe |
| FreshBooks.BookRestsIff | include/hbt/backtest/exchange.hpp:56-138 | so over every such run nothing crosses in the resting book if and only if every clear is safe, and then no scan by tick range misses an order |
| AccountAgreement.AccountsDiffer | include/hbt/backtest/local.hpp:164-165 | over every run at all, the local account plus everything queued for it is the exchange's account plus the bookings of the spurious messages; the two agree if and only if there was none |
| AccountAgreement.AccountsAgree | include/hbt/backtest/local.hpp:164-165 | over every run without partial fills in which only cancellable orders are changed: the local account plus the queued fills is the exchange's account, so the two are equal whenever the reply bus is empty |
| AccountAgreement.RequestBooksIff | include/hbt/backtest/exchange.hpp:202-221 | answering a request books the same on both sides if and only if the request is not one whose claimed fill the reply repeats |
| AccountAgreement.PartialFillsBookTwice | include/hbt/backtest/exchange.hpp:364-370 | a late cancel of a partially filled order is booked locally though nothing was executed |
| PartialFills.DisciplineIsNotEnough | include/hbt/backtest/exchange.hpp:364-370 | with partial fills, a run in which a cancellable order is canceled too late leaves the settled accounts one booking apart |
| EventSet.FirstMinIsFirst | include/hbt/backtest/event_set.hpp:53-65 | the scan finds the earliest slot and, among ties, the lowest; or every slot is empty |
| EventSet.EventSet.Next | include/hbt/backtest/event_set.hpp:53-65 | the in-place minimum scan over the flat array |
| EventSet.EventSet.Update | include/hbt/backtest/event_set.hpp:67-83 | an update overwrites one slot of one asset |
| Scheduler.DispatchProgress | include/hbt/backtest/backtest.hpp:298-372 | every turn of the loop decreases (unread rows, queued requests, queued replies) lexicographically, even with zero latency and several fills per event |
| SchedulerLaws.NextIsEarliest | include/hbt/backtest/event_set.hpp:53-65 | nothing of any asset is due before the next intent |
| SchedulerLaws.AssetsRunIndependently | include/hbt/backtest/backtest.hpp:287-373 | running any number of assets to a target leaves each exactly as if it had run alone, for arbitrary processors |
| SchedulerLaws.ElapseStops | include/hbt/backtest/backtest.hpp:188-191 | an elapse ends at its target with nothing due by then, or reports the end of the data with nothing due at all |
| SchedulerLaws.ElapseAdds | include/hbt/backtest/backtest.hpp:188-191 | elapsing a then b is elapsing a + b: same assets, clock and result, also when the data runs out midway |
| SchedulerLaws.GotoTimely | include/hbt/backtest/backtest.hpp:287-373 | for any processors and any invariant under which the exchange answers promptly, every call of the loop keeps buses and feeds sorted with nothing pending before the clock, and never turns the clock back |
| Waits.WaitIsElapse | include/hbt/backtest/backtest.hpp:198-210 | waiting for a feed row or a reply leaves assets and clock exactly as elapsing to the moment it first reaches the local side |
| Waits.WaitInVain | include/hbt/backtest/backtest.hpp:300-306 | a wait that is never met replays everything and reports the end of the data |
| WaitingCalls.WaitForData | include/hbt/backtest/backtest.hpp:198-202 | waiting for data, whatever else is asked for, ends as an elapse to the first feed row of any asset and says so, or replays everything |
| WaitingCalls.WaitForOrders | include/hbt/backtest/backtest.hpp:203-204 | waiting for orders only ends as an elapse to the first reply on any asset, or replays everything |
| WaitingCalls.WaitForNothing | include/hbt/backtest/backtest.hpp:204-215 | waiting for neither, and closing, replay everything and report the end of the data |
| WaitingCalls.WaitForReply | include/hbt/backtest/backtest.hpp:207-210 | waiting for an order ends as an elapse to the first reply to that id on that asset, or replays everything |
| WaitingCalls.RequestsTakeNoTime | include/hbt/backtest/backtest.hpp:217-248 | a request is sent and no time passes, a refused one changes nothing and is an exception, and only a submission told to waits, for the reply to its own order |
| WaitingCalls.ClearsAtOnce | include/hbt/backtest/local.hpp:95-103 | forgetting finished orders takes no time and touches nothing but the records of that asset |
| WaitingCalls.ElapseEnds | include/hbt/backtest/backtest.hpp:188-196 | elapsing ends exactly that much later with nothing more due by then, or where the data ends |
| Backtest.CallTimely | include/hbt/backtest/backtest.hpp:188-248 | and so does every API call whose request is stamped with the present |
| Backtest.Backtest.constructor | include/hbt/backtest/backtest.hpp:259-284 | initialization loads the data slots and starts the clock at the first event |
| Backtest.Backtest.RefreshOrderSlots | include/hbt/backtest/backtest.hpp:292-296 | on entry the cached slots become exact whatever happened to the buses between calls |
| Backtest.Backtest.DispatchOne | include/hbt/backtest/backtest.hpp:315-371 | refreshing only the slots the dispatch touches keeps the whole cache exact |
| Backtest.Backtest.DoGoto | include/hbt/backtest/backtest.hpp:287-373 | the loop over cached slots ends with the assets, clock and result of the loop that reads bus fronts and cursors directly |
| Backtest.Backtest.Call | include/hbt/backtest/backtest.hpp:188-248 | one API call in place, refused commands included |
| Reader.NextChunkKeepsPool | include/hbt/data/reader.hpp:72-162 | with as many readers as counted on, a step of any reader keeps resident shards a contiguous interval and loads equal to resident plus released, never loads a shard twice, and leaves the reader's shard and the one after it resident |
| Reader.RunKeepsPool | include/hbt/data/reader.hpp:72-162 | the same over any interleaving of the readers |
| Reader.PoolFromStart | include/hbt/data/reader.hpp:72-162 | so from an empty cache and fresh readers, at every moment, resident shards are the interval between the released and the loaded ones |
| Reader.EventReaderCache.AcquireShard | include/hbt/data/reader.hpp:72-80 | acquire in place: the shard asked for, and the next one prefetched |
| Reader.EventReaderCache.ReleaseShard | include/hbt/data/reader.hpp:81-97 | release in place: a shard is dropped by its last consumer |
| Reader.EventReader.Advance | include/hbt/data/reader.hpp:142-160 | a reader returns the shards in order, releasing each as it moves on |
| Reader.ProcessorState.Advance | include/hbt/backtest/backtest.hpp:59-83 | each call delivers exactly the next relevant row of the concatenated shards, for any chunking, empty shards included |
| Reader.ProcessorState.NextRow | include/hbt/backtest/backtest.hpp:85-89 | the current row, loaded first if need be: the row queue stays the same, and without a row it is empty |
| Reader.ProcessorState.Step | include/hbt/backtest/backtest.hpp:316-323 | handing out the current row and advancing pops the front of the processor's row queue, if there is one, and the slot gets the time of the next: the queue the scheduler works with, whatever the sharding |
| Latency.InterpolateOnLine | include/hbt/models/latency.hpp:128-135 | an interpolated latency is the height of the line through the two points, its rise from the first truncated to a whole number |
| Latency.EntryOnLine | include/hbt/models/latency.hpp:88-100 | for every table the constructor accepts: a request between two rows waits the height of the line through their entry latencies, or through their round trips counted negative if one was rejected; before the first and from the last row on it waits what that row says |
| Latency.ResponseOnLine | include/hbt/models/latency.hpp:102-126 | a reply between two accepted rows, with rejected ones in between or not, waits the height of the line through their response latencies |
| Latency.ResponseBefore | include/hbt/models/latency.hpp:102-110 | up to the first accepted row a reply waits what that row says, and nothing if no row is accepted |
| Latency.ResponseAfter | include/hbt/models/latency.hpp:111-122 | from the last accepted row on it waits what that row says |
| Latency.InterpolateBetween | include/hbt/models/latency.hpp:128-135 | an interpolated latency lies between its two end latencies, truncation included |
| Latency.ArrivalMonotone | include/hbt/models/latency.hpp:102-126 | a later departure never arrives earlier, across all segments, ends and duplicate rows |
| Latency.EntryArrivalMonotone | include/hbt/models/latency.hpp:88-100 | with accepted rows in order no request overtakes an earlier one, repeated request times included |
| Latency.AcceptedIffForwarded | include/hbt/models/latency.hpp:88-100 | in a table in which nothing arrives or responds before it was asked, a request is accepted if and only if the rows it is interpolated between are |
| Latency.ForwardedArrivalMonotone | include/hbt/models/latency.hpp:88-100 | of two requests between accepted rows the later never arrives earlier, if the accepted rows that decide about any request are in order; rejected rows in between do not matter |
| Latency.AcceptedArrivalMonotone | include/hbt/models/latency.hpp:88-100 | and so for two accepted requests |
| Latency.NoOvertakingIff | include/hbt/models/latency.hpp:88-100 | with accepted rows at distinct request times no request overtakes an earlier one if and only if the rows are in order |
| Latency.OvertakingIsNearRows | include/hbt/models/latency.hpp:88-100 | for every table the constructor accepts, rejected rows and repeated times included: some request overtakes an earlier one if and only if one does among the requests sent within one tick of a row |
| Latency.OutOfOrderOvertakes | include/hbt/models/latency.hpp:88-100 | a table the constructor accepts in which a later request overtakes |
| Latency.UnreachedRowIsHarmless | include/hbt/models/latency.hpp:88-100 | a table whose accepted rows are out of order and in which none does |
| Latency.ResponseArrivalMonotone | include/hbt/models/latency.hpp:102-126 | with the accepted rows in order no reply overtakes an earlier one, rejected rows in between notwithstanding |
| Latency.Build | include/hbt/models/latency.hpp:70-86 | the constructor shifts every row and refuses empty or unordered tables |
| Latency.ShiftedSaysTheSame | include/hbt/models/latency.hpp:70-80 | a shifted table gives the same latencies, that much later |
| Latency.WalkResponse | include/hbt/models/latency.hpp:102-126 | the walk over the table computes the piecewise response latency through the accepted rows |
| Replay.ReplyStamp | include/hbt/backtest/exchange.hpp:125-138 | a reply carries the time it was handled at, except for two kinds of request that are named exactly |
| Replay.ServeIsDispatched | include/hbt/backtest/exchange.hpp:125-138 | what the exchange object does with a batch is what the scheduler dispatches |
| Replay.TakeInIsDispatched | include/hbt/backtest/local.hpp:153-189 | and so for the local object |
| Replay.AnswerTimelyIff | include/hbt/backtest/exchange.hpp:125-138 | exactly when an answer is queued in time: unless the request would execute a finished order, nothing is queued ahead, and the old stamp makes the reply due in the past |
| Replay.FreshIdsAreTended | include/hbt/backtest/exchange.hpp:125-138 | with non-negative response latency and no id submitted twice the concrete exchange never answers into the past, whatever is canceled or modified |
| Replay.DispatchIsMoves | include/hbt/backtest/backtest.hpp:315-371 | whatever the scheduler dispatches to an asset is a run of protocol moves |
| Replay.ReplayIsTrace | include/hbt/backtest/backtest.hpp:287-373 | so every sequence of API calls is, asset by asset, the run of moves its trace names, and the protocol's laws apply to the simulator |
| Replay.ClockNeverGoesBack | include/hbt/backtest/backtest.hpp:287-373 | over any sequence of API calls that submits no id twice, with partial fills and rejections, for any number of assets: the clock never goes back, all buses and feeds stay sorted and nothing pending is before the clock |
| Replay.SimulationWaits | include/hbt/backtest/backtest.hpp:198-215 | and wherever such calls lead, the waiting calls of the simulator end with what they wait for |
| IdReuse.ReuseTurnsClockBack | include/hbt/backtest/exchange.hpp:202-205 | on an engine as constructed, once its one row is taken in, eight accepted calls that reuse one id turn the clock back from 16 to 1 |
| Replay.SimulationBooks | include/hbt/backtest/backtest.hpp:287-373 | after any sequence of API calls by any strategy, each asset's settled local account differs from the exchange's by exactly the spurious messages |
| Replay.SimulationCarriesWhatWasAsked | include/hbt/backtest/backtest.hpp:217-248 | after any sequence of API calls by any strategy, every order anywhere on an asset carries terms asked for under its id on that asset |
| Replay.SimulationViews | include/hbt/backtest/backtest.hpp:287-373 | after any sequence of API calls that submits no id twice, both sides agree on every order in the sense of `FreshViews.ViewsAgree`, partial fills included |
| Replay.SimulationRests | include/hbt/backtest/backtest.hpp:287-373 | over any sequence of API calls that submits no id twice and asks for positive quantities, nothing crosses in an asset's resting book if and only if its feed clears nothing unsafely, and then the cost rule never makes a scan miss an order |
| Replay.SimulationAgrees | include/hbt/backtest/backtest.hpp:287-373 | end to end: after any sequence of API calls that submits no id twice over any number of assets, the clock is orderly, and on each asset whose strategy changes only cancellable orders, without partial fills and refusals, an id has at most one request under way, both sides agree on every order, and both accounts agree up to the queued fills |

## Left out

- Floating-point rounding, NaN, infinity and 64-bit overflow: ticks, lots and money are exact here.
- Rounding of prices to ticks and quantities to lots: rows and orders arrive already in ticks and lots.
- Decoding of an event's flag mask: a row is already one of the kinds of `Core.EventKind`.
- The sides None and Unsupported: orders and levels are buys or sells, as everywhere the engine branches on them.
- File formats, manifests and decompression behind the reader: the cache is given its shards.
- The power and logarithm probability functions: the probability is a parameter.
- Fee formulas: a parameter of the account; contract formulas appear only in the equity law.
- The last-trades buffer and the feed-latency and order-latency observers: one-line records of what was seen.
- The recorder, the statistics and the remaining accessors of the bot API.
- The snapshot of the array book, and its not-a-number quantity outside the range (zero here).
- Asset numbers out of range in an API call, undefined in the source: they change nothing here.
- Clearing the inactive orders of all assets at once: it is one call per asset here.
- A trade scan collects the ids it visits before touching the first order, where the source touches while walking; which orders it visits does not depend on what touching changes.
- Snapshot.SortDescending: selects the greatest remaining tick instead of calling the library sort; only the sorted result is modelled.
- Backtest.Backtest.Call: the engine holds each asset's processors as values behind a record of operations; that the processors and the engine share the bus objects by reference is modelled by the order slots being stale between calls.
- Replay.ClockNeverGoesBack: for feeds sorted per side and non-negative response latency, which the source assumes; a fresh engine starts no later than its first row.
- Reader.ProcessorState.Step: the engine keeps each cursor's queue as a sequence of rows; that the local and exchange cursors of an asset share one cache object is modelled in `Reader` only.
- Latency.AcceptedArrivalMonotone: for tables whose rows all respond after they were requested, so that a rejected bracket gives a negative latency.
- Replay.SimulationRests: for feeds whose ticks lie between the sentinels, and an exchange book that starts sane.
