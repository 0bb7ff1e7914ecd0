# A verified model of the L2 order-book pipeline

The pipeline keeps a level-2 order book in step with an exchange, writes the top of the book after
every applied event, and survives lost, repeated and reordered messages, reconnects and restarts.
This project models that behaviour in Dafny, component by component, and proves what the components
are for. `dafny verify dfyconfig.toml` checks all of it.

The reference for everything about the book is a history of the exchange's own book, one book per
update id (`Synchronisation.History`). A diff is *faithful* to it when every price it names has the
named value at its final id and every price it does not name is constant over the ids it spans; this
covers Binance's events of many ids and OKX's sparse ids alike. A snapshot is *true* when it is the
history's book at its id, on the whole book or on a band of prices around the spread.

| Part | Files |
|---|---|
| Values and price levels | `BookTypes`, `Levels`, `TopLevels`, `Collections` |
| Book synchronisation | `Engine`, `Synchronisation`, `SnapshotOutcome`, `Envelope` |
| Deterministic simulation | `Draws`, `Market`, `Faults`, `Driver` |
| Live feeds | `BinanceResync`, `OkxResync`, `Connection`, `RateLimit`, `Supervisor` |
| Parquet sink | `Rows`, `RowQueue`, `Writer`, `FileNames`, `Sink` |
| Stress report | `Quantile` |

The main results:

- **Safety over every run.** Whatever is delivered, dropped, repeated or reordered, and however old
  the snapshots are, a LIVE book is the exchange's book at the engine's checkpoint, on the band of
  prices that the snapshot it was loaded from is complete for; otherwise the book is empty
  (`LiveBookIsTrueOnItsBand`, `LiveBookIsTheMarket`). The rows both clients emit have the exchange's
  own best levels wherever these lie in that band (`EmittedRowsAreTrue`).
- **Synchronisation.** From any state, a reset, an unbroken chain of events received while waiting and
  a true snapshot that does not predate them end LIVE with the exchange's book at the later of the
  two (`SynchronisesFromAnyState`).
- **Convergence of the simulation.** For every fault configuration and every sequence of draws, a
  step that delivers anything ends converged or raises, and it raises only when every one of its
  attempts was served an aged snapshot (`RunStep`, `Sync`, `ConvergesUnderArbitraryFaults`).
- **Live control loops.** Under every interleaving of reader, worker and connection steps the engine
  is run on exactly what the client received (`EngineRunsOnInputs`), the book stays right, and it is
  LIVE only on a snapshot of the current connection (`LiveOnlyIfLoaded`); the exact steps that lose a wakeup, and the exact conditions under which a client can
  still recover, are proved in both directions.
- **Sink conservation.** Every row taken off the queue is flushed or buffered; after the sink has
  finished, each partition read back from disk is exactly the rows flushed for it, in arrival order,
  and there is no other file, as long as no instrument's hours go back. A crash costs no more than
  the open file, which was filled within one checkpoint interval.

Steps between two awaits of an asyncio task are atomic in the models of the feed clients, and the
tasks interleave in any order. Clocks are parameters that do not go back; random draws are arbitrary
values of their range; the file system is a map from paths to rows, and `Path.replace` an update of
it. Prices, quantities, times and tokens are exact real numbers.

## Where the code does less than its comments say

- `feeds/binance.py:482-495` says that a failure must not kill the resync worker, but an error status
  other than 429 and 418, a `Retry-After` that is not a number and a body that does not parse
  (lines 521, 534-535) still raise inside it. These are exactly the replies that kill it
  (`WorkerDiesIffReplyRaises`), and after that the client never becomes LIVE again
  (`RecoverableIffWorkerAlive`).
- `feeds/okx.py:596-605` treats a resubscribe overtaken by a disconnect as harmless. One that is still
  signalled or throttled when the next connection is made can put a second snapshot on it, and then
  `load_snapshot` raises (`ConnectionCanFailIffResubscribeLeftOver`, `StartCanFail`): the book stays
  right (`EveryInterleaving`), but the connection is lost. The suppressed send error can also strand a
  connection that is up (`FailedSendStrands`, `RecoverableIffSnapshotComing`).
- `feeds/okx.py:409-417` only logs a refused subscribe: the connection stays up and out of sync, with
  no snapshot coming (`LostSnapshotStrands`).
- The errors of `close()` are suppressed as well (`feeds/binance.py:467-468`, `feeds/okx.py:572-573`):
  if the socket stays up, the reconnect that was to repair the client is not made
  (`FailedCloseLosesWakeup`).
- `book/engine.py:95-98`: a gap during the replay drops the buffered events behind it
  (`ReplayGapDropsLaterEvents`). Safety does not depend on them.
- `book/engine.py:77-78` stores zero quantities of a snapshot as they are
  (`SnapshotIsApplicationIffNoZero`).
- `sinks/parquet_sink.py:182-185` says a final name is only ever taken by a complete file, which
  holds, but an hour that comes back restarts its numbering and replaces the hour's first file
  (`RowsLostIffHourComesBack`, `ReturnToEarlierHour`). So does a restart within the hour.
- `simulation/market.py`: a `spread_min` above 0.02 is not met by the seeded book itself
  (`MarketSimulator.constructor`); the book is uncrossed all the same. Without a positive one the very
  first tick can cross the book, and its assertion fails (`FirstTickNeverCrossesIff`).

## Model

| member | source | states |
|---|---|---|
| Levels.ApplyLevelsInPlace | src/l2_pipeline/book/engine.py:15-29 | the loop that edits the dict computes the function whose laws follow, level by level in order |
| Levels.LookupApply | src/l2_pipeline/book/engine.py:18-29 | price by price: the last level naming a price decides it (zero removes it), a price not named keeps what it had |
| Levels.LookupLadderOf | src/l2_pipeline/book/engine.py:77-78 | a loaded side holds, for each price, the last quantity the snapshot lists for it, zeros included |
| Levels.ApplyConcat | src/l2_pipeline/book/engine.py:18-29 | applying two lists in turn is applying their concatenation |
| Levels.ApplyAbsorbs | src/l2_pipeline/book/engine.py:18-23 | a list makes any earlier list of prices it covers irrelevant: why an event may overlap a snapshot |
| Levels.ApplyIdempotent | src/l2_pipeline/book/engine.py:18-23 | the documented idempotence: a second application changes nothing |
| Levels.SnapshotIsApplicationIffNoZero | src/l2_pipeline/book/engine.py:77-78 | loading a snapshot equals applying its levels to an empty side exactly when no price ends on quantity zero |
| TopLevels.SortedTop | src/l2_pipeline/book/engine.py:104-108 | the list is strictly best first, carries the side's own quantities, is as long as the slice `[:limit]` (limit, the whole side, or the side less a negative limit), and leaves out only worse prices |
| TopLevels.TopSpelledOut | src/l2_pipeline/book/engine.py:102-109 | that description in plain terms: length by cases of the limit, order by price, and which prices are left out |
| TopLevels.TopIsUnique | src/l2_pipeline/book/engine.py:102-109 | that description determines the list: no other list of best levels exists |
| TopLevels.TopWithinBand | src/l2_pipeline/book/engine.py:102-109 | best levels lying where two sides agree are the best levels of both |
| Engine.BookEngine.constructor | src/l2_pipeline/book/engine.py:33-39 | an engine starts BUFFERING, empty, without checkpoint |
| Engine.BookEngine.ApplyEventTo | src/l2_pipeline/book/engine.py:49-53 | field by field: while not LIVE the event goes to the end of the buffer and nothing else changes; while LIVE it is applied or a gap empties the book and keeps the event alone |
| Engine.BookEngine.ApplyLiveTo | src/l2_pipeline/book/engine.py:136-152 | a chaining event updates both sides and the checkpoint; any other empties the book, keeps only itself and leaves RESYNCING |
| Engine.BookEngine.SurvivorsOf | src/l2_pipeline/book/engine.py:63 | the buffered events newer than the snapshot, in arrival order |
| Engine.BookEngine.LoadSnapshotInto | src/l2_pipeline/book/engine.py:55-100 | refines the state function; raises exactly while LIVE, and raising or refusing changes nothing |
| Engine.BookEngine.BestLevels | src/l2_pipeline/book/engine.py:102-109 | the n best levels of both sides, n defaulting to the configured depth, with their lengths written out; state unchanged |
| Engine.BookEngine.InvalidateBook | src/l2_pipeline/book/engine.py:114-134 | empties everything, staying BUFFERING only if it never left that state |
| Synchronisation.StraddleAbsorbed | src/l2_pipeline/book/engine.py:65-93 | a faithful event takes a book that is right (on a band) anywhere in its interval to one that is right at its final id |
| Synchronisation.StraddleIsExact | src/l2_pipeline/book/engine.py:86-93 | on whole books: applied to the exchange's book at any id of its interval it gives exactly the book at its final id |
| Synchronisation.SurvivorsAreBuffered | src/l2_pipeline/book/engine.py:63 | exactly the buffered events beyond the snapshot's id survive |
| Synchronisation.ApplyLiveSafe | src/l2_pipeline/book/engine.py:136-152 | a faithful event keeps the invariant, and the engine stays LIVE exactly when it was applied |
| Synchronisation.ReplaySafe | src/l2_pipeline/book/engine.py:95-100 | replaying any faithful events keeps the invariant, ending LIVE or, on a gap, RESYNCING |
| Synchronisation.LoadSnapshotSafe | src/l2_pipeline/book/engine.py:55-100 | a true snapshot of any age keeps the invariant; a waiting engine becomes LIVE exactly when the status is APPLIED |
| Synchronisation.HandleSafe | src/l2_pipeline/book/engine.py:49-152 | every operation keeps the book right on the band of the snapshot it was loaded from, an accepted snapshot bringing its own band, and never returns to BUFFERING |
| Synchronisation.RunSafe | src/l2_pipeline/book/engine.py:49-152 | the same over every run of events, snapshots and invalidations in any order, each snapshot complete for a band of its own |
| Synchronisation.LiveBookIsTrueOnItsBand | src/l2_pipeline/book/engine.py:32-152 | at the end of every run a LIVE engine has an empty buffer and agrees with the exchange's book at its checkpoint on the band of the snapshot it was loaded from; any other has an empty book and no checkpoint |
| Synchronisation.LiveBookIsTheMarket | src/l2_pipeline/book/engine.py:32-152 | with complete snapshots, the book of a LIVE engine is exactly the exchange's at its checkpoint |
| SnapshotOutcome.ReplayExact | src/l2_pipeline/book/engine.py:95-100 | replay applies everything iff the events chain; otherwise it keeps the first event that does not continue the chain and nothing else |
| SnapshotOutcome.LoadOutcomeExact | src/l2_pipeline/book/engine.py:63-100 | for every buffer, the exact condition of STALE, APPLIED and GAP_DETECTED, the checkpoint each leaves, and which survivor is kept at a gap |
| SnapshotOutcome.SurvivorsOfChain | src/l2_pipeline/book/engine.py:63 | of an unbroken chain the survivors are a suffix, cut exactly at the snapshot's id |
| SnapshotOutcome.SurvivorsOfChainFit | src/l2_pipeline/book/engine.py:63-98 | they pass every check exactly when the snapshot does not predate the buffer |
| SnapshotOutcome.LoadOnUnbrokenChain | src/l2_pipeline/book/engine.py:55-100 | with no event lost: refused without change iff the snapshot predates the buffer; otherwise LIVE with the exchange's book at the later of snapshot and last event; never a gap |
| SnapshotOutcome.LoadOfNewestSnapshot | src/l2_pipeline/book/engine.py:63-84 | a snapshot at least as new as everything buffered is always accepted and alone decides book and checkpoint |
| SnapshotOutcome.WaitingBuffersAll | src/l2_pipeline/book/engine.py:49-53 | over any deliveries a waiting engine's buffer is the old one followed by all of them, in order, and nothing else changes |
| SnapshotOutcome.LiveFollowsChain | src/l2_pipeline/book/engine.py:136-152 | a LIVE engine follows every chain of faithful events to the exchange's book at the last of them |
| SnapshotOutcome.SynchronisesFromAnyState | src/l2_pipeline/book/engine.py:49-134 | from delivery to checkpoint, whatever state the engine was in: reset, an unbroken chain received while it waits, then a true snapshot: LIVE with the exchange's book at the later of snapshot and last event, or, exactly when the snapshot predates the chain, still waiting with every event kept |
| SnapshotOutcome.ReplayGapDropsLaterEvents | src/l2_pipeline/book/engine.py:95-98 | a concrete buffer whose last event chains to the gapping one and is lost all the same |
| Envelope.BuildSnapshotRow | src/l2_pipeline/feeds/envelope.py:59-85 | the row holds the depth best levels of both sides, min(depth, levels there are) of them, the checkpoint and the caller's timestamps |
| Envelope.AppliedSetsCheckpoint | src/l2_pipeline/feeds/envelope.py:73-74 | the assertion on the checkpoint cannot fail after an APPLIED result of either operation |
| Envelope.RowIsTrueTop | src/l2_pipeline/feeds/envelope.py:66-85 | a row from a LIVE engine is the exchange's top of book at the row's id, min(depth, levels there are) levels a side, and uncrossed if the exchange's book is |
| Envelope.RowIsExactOnItsBand | src/l2_pipeline/feeds/envelope.py:66-85 | with a depth-limited snapshot, side by side: the row has the exchange's depth best levels whenever these lie in the band of that snapshot, and always on a side it covers whole |
| Market.MarketSimulator.constructor | src/l2_pipeline/simulation/market.py:24-36 | for any spread_min the market invariant holds: ten levels a side within 0.1 of the mid, quantities 1 to 50, uncrossed, and apart by spread_min exactly when that is at most 0.02 |
| Market.MarketSimulator.SeedBook | src/l2_pipeline/simulation/market.py:32-36 | the seeded prices stay 0.01 clear of the mid on either side, with quantities in range |
| Market.MarketSimulator.SnapshotNow | src/l2_pipeline/simulation/market.py:45-50 | loading the snapshot gives back the simulator's own book, at its current id |
| Market.MarketSimulator.Step | src/l2_pipeline/simulation/market.py:52-87 | the event takes the old book exactly to the new and is never empty; at least 5 levels a side, quantities 1 to 50, bids at least 0.01; the assertion at the end fails exactly when the sides have crossed, never with a positive spread_min; otherwise the book is uncrossed, by spread_min itself up to 0.02, and the event is faithful |
| Market.MarketSimulator.TickBoth | src/l2_pipeline/simulation/market.py:64-77 | whatever is drawn, one or both sides change, by the levels reported |
| Market.MarketSimulator.Uncrossed | src/l2_pipeline/simulation/market.py:79 | comparing the best prices decides whether any bid meets any ask |
| Market.MarketSimulator.TickSide | src/l2_pipeline/simulation/market.py:64-77 | one side's change is applied at once and leaves good sides, so the other side's draw sees it |
| Market.MarketSimulator.ChangesForSide | src/l2_pipeline/simulation/market.py:95-109 | one change as the drawn action says: a deletion becomes an update on a side of five levels, an insertion follows the insertion rule; the sides stay good |
| Market.MarketSimulator.InsertLevel | src/l2_pipeline/simulation/market.py:111-121 | the price by the source's formula from both best prices and a drawn offset of -5 to 1 (bids) or -1 to 5 (asks) ticks; with a positive spread_min it keeps the promised distance from every level of the other side |
| Market.FirstTickNeverCrossesIff | src/l2_pipeline/simulation/market.py:52-79 | inserts on both sides of the seeded book cannot cross in the first tick, whatever is drawn, if and only if spread_min is positive |
| Market.MarketSimulator.BestBid | src/l2_pipeline/simulation/market.py:89-90 | the highest bid, or the fallback for an empty side |
| Market.MarketSimulator.BestAsk | src/l2_pipeline/simulation/market.py:92-93 | the lowest ask, or the fallback for an empty side |
| Market.SideStaysGood | src/l2_pipeline/simulation/market.py:95-109 | one level set to a drawn quantity, or spared from a side of more than five, keeps the side good |
| Synchronisation.ExactStepIsFaithful | src/l2_pipeline/simulation/market.py:82-87 | an event that takes one book exactly to the next is faithful |
| Faults.FaultInjector.constructor | src/l2_pipeline/simulation/faults.py:73-84 | starts with the current snapshot alone (or none, if the history may hold none), nothing pending, the accounting balanced |
| Faults.FaultInjector.RollFaults | src/l2_pipeline/simulation/faults.py:124-136 | the first hit in order of precedence wins, every other hit and nothing else is logged as shadowed, and a fault without a chance never wins |
| Faults.ShadowsCountNothing | src/l2_pipeline/simulation/faults.py:59-64 | shadowed records count as no fault fired and open no window, however many there are |
| Faults.FirstHitWins | src/l2_pipeline/simulation/faults.py:124-131 | a fault decides the tick exactly when its roll hits and none before it does, in the order DISCONNECT, DROP_BURST, DROP_ONE, DUPLICATE, REORDER |
| Faults.LaterHitsAreShadowed | src/l2_pipeline/simulation/faults.py:132-136 | logged as shadowed, in that order, are exactly the hits that have another before them |
| Faults.TickBalances | src/l2_pipeline/simulation/faults.py:138-163 | the record of a tick accounts for exactly what the tick delivers, holds back or drops |
| Faults.FaultInjector.ApplyWinner | src/l2_pipeline/simulation/faults.py:138-163 | fault by fault: what it delivers, holds back or opens, the range of the window, and the one record it logs, with its detail |
| Faults.FaultInjector.DecideFate | src/l2_pipeline/simulation/faults.py:124-163 | the first roll that hits decides deliveries, held event, window and log; deliveries balance with the faults logged, and a held event and an open window are never both left |
| Faults.FaultInjector.Advance | src/l2_pipeline/simulation/faults.py:104-107 | one market step, after which everything but its event is accounted for; a held event stays faithful |
| Faults.FaultInjector.StepMarket | src/l2_pipeline/simulation/faults.py:104-107 | the snapshot history is again the latest consecutive true snapshots, ending at the new id |
| Faults.FaultInjector.ReleaseHeld | src/l2_pipeline/simulation/faults.py:113-116 | completes the swap: the event of the tick, then the held one, once each |
| Faults.FaultInjector.SkipTick | src/l2_pipeline/simulation/faults.py:120-122 | an active window drops the event of the tick and gets one tick shorter |
| Faults.FaultInjector.AppendSnapshot | src/l2_pipeline/simulation/faults.py:81-84 | the bounded deque keeps the most recent consecutive snapshots |
| Faults.FaultInjector.Poll | src/l2_pipeline/simulation/faults.py:103-163 | of everything ever handed out, each event occurs at most twice, and deliveries = ticks + duplicates - drops - window drops so far - held; only faithful events, the current one first, the held one right behind it, so at most one tick late; never a held event beside an open window; with nothing pending the first roll that hits decides the tick |
| Faults.FaultInjector.RequestSnapshot | src/l2_pipeline/simulation/faults.py:165-184 | a true snapshot: the current one, or, exactly when a delay is logged, one between 1 and delayed_snapshot_max_steps ids old |
| Faults.FaultInjector.ServeAged | src/l2_pipeline/simulation/faults.py:171-183 | every lookback that can be drawn is in range, and the entry there is a true snapshot of just that age |
| Faults.OldEventStaysFaithful | src/l2_pipeline/simulation/faults.py:113-116 | an event held over a market step is still faithful to the longer history |
| Driver.LoadWhileWaiting | src/l2_pipeline/simulation/driver.py:83-97 | a current snapshot ends the wait at once; an aged one ends it at the market's id or leaves the engine waiting for that same id |
| Driver.AfterDeliveries | src/l2_pipeline/simulation/driver.py:74-81 | after any deliveries a poll can make there is a gap exactly when two events came or the engine was behind; without one the engine is at the market's id |
| Driver.TickOutcome | src/l2_pipeline/simulation/driver.py:74-81 | the deliveries of a tick leave the engine with the market's new book, or, exactly on a gap, waiting for it |
| Driver.AttemptOutcome | src/l2_pipeline/simulation/driver.py:84-93 | from any waiting state: a current snapshot ends at the market's book, an aged one at a true but perhaps older book or not at all; an engine that waits for the current book gets that or goes on waiting |
| Driver.HeldEventBehindCheckpoint | src/l2_pipeline/simulation/driver.py:70-97 | an event held back behind the checkpoint would let an aged snapshot end a step one id behind the market |
| Driver.AssertConverged | src/l2_pipeline/simulation/convergence.py:8-13 | passes exactly when the engine is LIVE at the market's id and both sides equal the market's |
| Driver.FeedAllSafe | src/l2_pipeline/simulation/driver.py:74-79 | feeding any faithful events keeps the engine's invariant |
| Driver.SimulatedFeedDriver.Create | src/l2_pipeline/simulation/driver.py:32-56 | over any injector and any engine fed from its market: raises exactly if the synchronisation was served nothing but aged snapshots or allowed no attempt; otherwise LIVE with a true book, the current one when no aged snapshot can be served; a LIVE engine is left alone |
| Driver.SimulatedFeedDriver.TrySnapshot | src/l2_pipeline/simulation/driver.py:84-93 | one attempt fails only if the injector served, and logged, an aged snapshot; with a current one it converges |
| Driver.SimulatedFeedDriver.FeedEngine | src/l2_pipeline/simulation/driver.py:74-79 | every event reaches the engine in order, and a gap anywhere among them is remembered |
| Driver.SimulatedFeedDriver.Sync | src/l2_pipeline/simulation/driver.py:83-97 | ends LIVE, converged if the engine waited for the current book, and records the recovery; or raises after exactly the retry limit of failures; stale_snapshot_retries grows by one per failure, each served and logged as an aged snapshot; without delays it neither retries nor raises |
| Driver.SimulatedFeedDriver.DeliverTick | src/l2_pipeline/simulation/driver.py:74-79 | the deliveries of one tick: when a gap is reported, and otherwise that the engine is converged or untouched |
| Driver.SimulatedFeedDriver.RunStep | src/l2_pipeline/simulation/driver.py:70-81 | a step that delivers anything ends with the three facts of assert_converged or raises; one that delivers nothing leaves the engine LIVE and untouched; the checkpoint never goes back; exactly the gaps are recorded |
| Driver.SimulatedFeedDriver.RunSteps | src/l2_pipeline/simulation/driver.py:66-68 | one market tick a step; the engine ends LIVE with the market's book at the latest event that was delivered, or untouched if none was, unless a step raised, and then the log ends in one aged snapshot for each attempt; without faults the end is converged |
| Driver.BuildSimulation | src/l2_pipeline/simulation/driver.py:100-117 | a simulation is converged as soon as it is built |
| Driver.ConvergesUnderArbitraryFaults | tests/simulation/test_properties.py:39-62 | property H1 for every configuration, length and sequence of draws: after both runs over one market and engine, assert_converged passes at the market's id steps + tailSteps, unless the first run raised on nothing but aged snapshots |
| BinanceResync.StepKeepsInv | src/l2_pipeline/feeds/binance.py:231-539 | every atomic step keeps the invariant; a snapshot is only ever loaded into a waiting engine; the worker dies exactly at a reply that raises; a wakeup is lost exactly when the close that was to force the reconnect fails |
| BinanceResync.EveryInterleaving | src/l2_pipeline/feeds/binance.py:231-539 | over every interleaving: a LIVE book is the exchange's on the band of the snapshot it was loaded from, and load_snapshot never raises |
| BinanceResync.EngineRunsOnInputs | src/l2_pipeline/feeds/binance.py:231-457 | along every interleaving the engine is exactly the engine run on the resets, messages and replies the client was given, in that order |
| BinanceResync.ConnectionStartsOver | src/l2_pipeline/feeds/binance.py:249-255 | the coupling rule: after a connection is made the book and the buffer are empty, there is no checkpoint, and the worker is signalled, whatever the engine held |
| BinanceResync.LiveOnlyIfLoaded | src/l2_pipeline/feeds/binance.py:249-255 | after every run the engine is LIVE only if a snapshot was applied since the last connection was made |
| BinanceResync.SignalledForCause | src/l2_pipeline/feeds/binance.py:367-373 | the worker is signalled exactly by a new connection and by a gap, and consumes a signal exactly by waking |
| BinanceResync.WokenWorkerStartsFetching | src/l2_pipeline/feeds/binance.py:367-410 | a woken worker begins with the first attempt of each kind, or rests if the engine is LIVE |
| BinanceResync.FetchGivesUpAtLimit | src/l2_pipeline/feeds/binance.py:470-539 | over any retryable replies: the HTTP attempts are counted one by one, and the resync gives up exactly when they are used up |
| BinanceResync.ResyncGivesUpAtLimit | src/l2_pipeline/feeds/binance.py:408-468 | over any snapshots refused in turn: the next attempt is made exactly while attempts are left, and then the current socket is closed |
| BinanceResync.EscalationEnds | src/l2_pipeline/feeds/binance.py:259-290 | with the reconnect budget exhausted nothing happens any more |
| BinanceResync.BackoffLeadsToConnecting | src/l2_pipeline/feeds/binance.py:259-280 | otherwise the client keeps the dead socket through its backoff, drops it and connects again |
| BinanceResync.NoWakeupLostUnlessCloseFails | src/l2_pipeline/feeds/binance.py:367-468 | over every run in which that close does not fail: connected, out of sync and not fetching, the worker has been told or is forcing a reconnect |
| BinanceResync.FailedCloseLosesWakeup | src/l2_pipeline/feeds/binance.py:459-468 | a run from the start whose suppressed close error loses a wakeup |
| BinanceResync.WorkerDiesIffReplyRaises | src/l2_pipeline/feeds/binance.py:520-535 | over every run the worker is dead at the end if and only if some reply on the way had an unusable Retry-After, an error status or a body that does not parse |
| BinanceResync.EveryReplyIsClassified | src/l2_pipeline/feeds/binance.py:477-535 | each reply raises, is retried or delivers a snapshot, and does only one of these |
| BinanceResync.RepliesSpelledOut | src/l2_pipeline/feeds/binance.py:477-535 | which: by status 429 or 418, Retry-After, success range and body |
| BinanceResync.EmittedRowsAreTrue | src/l2_pipeline/feeds/binance.py:357-365 | along any run, every row put on the queue has the exchange's depth best levels at the row's id, on each side where these lie in the band of the snapshot the book was loaded from |
| BinanceResync.EveryAppliedInputIsWritten | src/l2_pipeline/feeds/binance.py:352-365 | and the ids of the rows are exactly the checkpoints after every event and snapshot applied, in order: none is missing and none is extra |
| BinanceResync.StraddleIsFirstEventRule | src/l2_pipeline/feeds/binance.py:69-80 | under prev_id = U - 1 the engine's straddle test is U <= lastUpdateId + 1 <= u |
| BinanceResync.StartSatisfiesInv | src/l2_pipeline/feeds/binance.py:183-188 | the invariant holds of the client as constructed |
| BinanceResync.DeadWorkerNeverRecovers | src/l2_pipeline/feeds/binance.py:520-535 | once an uncaught reply has killed the worker, no later message or reconnect makes the client LIVE |
| BinanceResync.ReconnectRecovers | src/l2_pipeline/feeds/binance.py:235-280 | from every state with a resting worker a reconnect can lead back to LIVE |
| BinanceResync.RecoverableIffWorkerAlive | src/l2_pipeline/feeds/binance.py:367-468 | an out-of-sync client can become LIVE again if and only if its worker is alive |
| BinanceResync.RaisingReplyStrandsClient | src/l2_pipeline/feeds/binance.py:520-535 | for any reply that raises, a run of three steps that ends connected, out of sync and with a dead worker |
| OkxResync.StepKeepsInv | src/l2_pipeline/feeds/okx.py:266-611 | every atomic step keeps the book right on its snapshot's band, also one whose load raises |
| OkxResync.EveryInterleaving | src/l2_pipeline/feeds/okx.py:266-611 | over every interleaving, a LIVE book is the exchange's on the band of the snapshot it was loaded from |
| OkxResync.EngineRunsOnInputs | src/l2_pipeline/feeds/okx.py:266-537 | along every interleaving the engine is exactly the engine run on the resets, updates and snapshot pushes the client was given, in that order |
| OkxResync.SubscribeStartsOver | src/l2_pipeline/feeds/okx.py:278-298 | the coupling rule: after the subscribe on a new connection book and buffer are empty, there is no checkpoint, the retry count is zero and one more snapshot is coming |
| OkxResync.LiveOnlyIfLoaded | src/l2_pipeline/feeds/okx.py:278-298 | after every run the engine is LIVE only if a snapshot was applied since that subscribe |
| OkxResync.RetriesAreRefusals | src/l2_pipeline/feeds/okx.py:524-540 | over every run the retry counter is the number of snapshots refused since the last one accepted or the last new connection |
| OkxResync.RefusalRetriesOrCloses | src/l2_pipeline/feeds/okx.py:540-576 | a refused snapshot signals another resubscribe exactly while the limit is not reached, and then closes the socket |
| OkxResync.SignalledForCause | src/l2_pipeline/feeds/okx.py:470-576 | the worker is signalled exactly by a gap and by a refusal with retries left, and consumes a signal exactly by waking |
| OkxResync.WorkerResubscribes | src/l2_pipeline/feeds/okx.py:578-611 | unless the engine is LIVE a woken worker throttles or sends on the current socket; only a send that reaches the socket being read asks for a snapshot |
| OkxResync.DisconnectEndsOrReconnects | src/l2_pipeline/feeds/okx.py:302-328 | every disconnect, a load that raises among them, ends the client for good or leads through backoff to a new connection |
| OkxResync.StartSatisfiesInv | src/l2_pipeline/feeds/okx.py:266-336 | the invariants hold of the client as constructed |
| OkxResync.EmittedRowsAreTrue | src/l2_pipeline/feeds/okx.py:496-537 | along any run, every row put on the queue has the exchange's depth best levels at the row's id, on each side where these lie in the band of the snapshot the book was loaded from |
| OkxResync.EveryAppliedInputIsWritten | src/l2_pipeline/feeds/okx.py:484-537 | and the ids of the rows are exactly the checkpoints after every update and snapshot applied, in order |
| OkxResync.OneAtATimeKept | src/l2_pipeline/feeds/okx.py:454-611 | with nothing left over at the handshake, at most one snapshot is coming, none once LIVE, and no push is loaded while LIVE |
| OkxResync.ConnectionCanFailIffResubscribeLeftOver | src/l2_pipeline/feeds/okx.py:578-611 | a connection can run into load_snapshot's error if and only if it is made while a resubscribe is signalled or throttled |
| OkxResync.StartCanFail | src/l2_pipeline/feeds/okx.py:578-611 | such a state is reached: a run from the start that ends in a load that raises |
| OkxResync.WakeupLostIff | src/l2_pipeline/feeds/okx.py:389-611 | a step loses a wakeup if and only if it loses the one snapshot still coming (a malformed push, a refused subscribe, a failed send on the socket being read, a last unaccepted snapshot whose close fails) |
| OkxResync.NoWakeupLostOverRun | src/l2_pipeline/feeds/okx.py:266-611 | over every run without such a step: out of sync on a connection, a snapshot is coming or the socket was closed |
| OkxResync.NothingComingNeverLive | src/l2_pipeline/feeds/okx.py:506-584 | with nothing coming, the connection never becomes LIVE |
| OkxResync.RecoverableIffSnapshotComing | src/l2_pipeline/feeds/okx.py:506-611 | a connection that is out of sync can become LIVE without a reconnect if and only if a snapshot is still coming |
| OkxResync.LostSnapshotStrands | src/l2_pipeline/feeds/okx.py:409-417 | a refused subscribe, like a malformed push, strands a fresh connection: nothing is coming, nothing was closed |
| OkxResync.FailedSendStrands | src/l2_pipeline/feeds/okx.py:596-611 | a run from the start in which the suppressed error of a resubscribe strands a connection that is up |
| Connection.FullJitterDelay | src/l2_pipeline/feeds/connection.py:59-65 | the delay lies between zero and the capped exponential |
| Connection.CeilingDoublesUpToCap | src/l2_pipeline/feeds/connection.py:59-65 | the upper end of the draw is min(base, cap) at first and doubles with every failure up to the cap |
| Connection.ConnectionManager.MarkConnecting | src/l2_pipeline/feeds/connection.py:91-93 | a new attempt has seen no message, and nothing else changes but the state |
| Connection.ConnectionManager.MarkConnected | src/l2_pipeline/feeds/connection.py:95-102 | reports the attempts and the length of the outage that ends, and ends it |
| Connection.ConnectionManager.MessageReceived | src/l2_pipeline/feeds/connection.py:104-107 | the first message of a connection resets the counter; any other changes nothing |
| Connection.ConnectionManager.MarkDisconnected | src/l2_pipeline/feeds/connection.py:109-132 | counts the failure, starts an outage only if none is running, and hands out a delay for the old count |
| Connection.ConnectionManager.DisconnectOrRaise | src/l2_pipeline/feeds/binance.py:259-278 | over the whole run so far, a disconnect raises exactly when it completes a streak of the maximum length without a message; otherwise the counter stays below the limit |
| Connection.CounterIsStreak | src/l2_pipeline/feeds/connection.py:91-132 | over every run: the counter is the number of disconnects since the last message, and the outage is measured from the first disconnect since a connection last came up |
| Connection.EscalatesAtMaxth | src/l2_pipeline/feeds/binance.py:200-218 | a client escalates exactly at the disconnect that completes a streak of the maximum length |
| Connection.StreakDelayWithinBudget | src/l2_pipeline/feeds/connection.py:59-65 | the backoff of any streak stays within both the cap and the geometric sum |
| Connection.EscalationSleepsWithinBudget | src/l2_pipeline/feeds/binance.py:259-278 | an escalating client slept at most min(cap * (max - 1), base * (2^(max-1) - 1)) in its last streak |
| RateLimit.TokenBucket.constructor | src/l2_pipeline/feeds/ratelimit.py:29-36 | a new bucket is full |
| RateLimit.TokenBucket.Acquire | src/l2_pipeline/feeds/ratelimit.py:44-49 | refill to min(capacity, tokens + elapsed * rate), then grant and pay exactly if the cost is there |
| RateLimit.TokenBucket.TimeUntil | src/l2_pipeline/feeds/ratelimit.py:51-56 | the same refill, then zero if the cost is there and otherwise the wait w with w * rate equal to what is missing |
| RateLimit.TokenBucket.WaitAndAcquire | src/l2_pipeline/feeds/binance.py:472-475 | a caller that sleeps at least as long as told and ignores the result is granted the token exactly when the cost fits the capacity |
| RateLimit.WaitIsExact | src/l2_pipeline/feeds/ratelimit.py:51-56 | the wait times the rate is what is missing; acquiring succeeds from the announced time on and at no earlier time, precisely for costs within the capacity |
| RateLimit.CallIsMethodCall | src/l2_pipeline/feeds/ratelimit.py:38-56 | a call of the modelled runs has the effect of the corresponding method |
| RateLimit.RunIsBucketRun | src/l2_pipeline/feeds/ratelimit.py:38-56 | the runs bounded below are runs of the bucket: same tokens left, same cost granted |
| RateLimit.GrantedIsPaidFor | src/l2_pipeline/feeds/ratelimit.py:38-49 | over every run tokens stay within zero and the capacity, and granted plus left never exceeds initial plus inflow |
| RateLimit.RateBound | src/l2_pipeline/feeds/ratelimit.py:38-56 | in every stretch of every run the total granted is at most capacity + rate * (time from its first call to its last) |
| RateLimit.GrantsWithinRate | src/l2_pipeline/feeds/ratelimit.py:38-56 | so in every stretch of calls of one cost, number of grants times cost is at most capacity + rate * elapsed time |
| RateLimit.PriceSpelledOut | src/l2_pipeline/feeds/ratelimit.py:44-49 | n grants of one cost come to n times the cost |
| RateLimit.RequestsWithinRate | src/l2_pipeline/feeds/binance.py:471-480 | a client that waits as told and ignores the result sends, in any stretch of its requests, at most what capacity + rate * (time from the first sending to the last) pays for |
| Supervisor.FeedSupervisor.RecentTimes | src/l2_pipeline/supervisor.py:113-115 | the comprehension keeps exactly the crashes within the window |
| Supervisor.FeedSupervisor.HandleCrash | src/l2_pipeline/supervisor.py:110-134 | gives up exactly when the pruned list exceeds the limit; otherwise one more restart, with a delay from its backoff range |
| Supervisor.FeedSupervisor.HandleOutcome | src/l2_pipeline/supervisor.py:101-134 | a clean return stops the feed, a cancellation (of the feed or of the sleep before its restart) ends the loop as it is, and a crash ends it exactly when the pruned list exceeds the limit; the entry records the history so far |
| Supervisor.FeedSupervisor.RunFeed | src/l2_pipeline/supervisor.py:100-134 | the loop goes on over crashes that do not give up and stops at the first other outcome, in the state that outcome means; restart_count is the number of crashes minus the one that gave up |
| Supervisor.RecentTwice | src/l2_pipeline/supervisor.py:113-115 | pruning earlier never changes what a later pruning keeps |
| Supervisor.PruningAgreesWithHistory | src/l2_pipeline/supervisor.py:112-116 | the pruned list is exactly the full crash history seen through the window |
| Supervisor.GivesUpIff | src/l2_pipeline/supervisor.py:112-129 | the feed is given up exactly at a crash that has max_restarts others less than one window before it, or at the first if no restart is allowed |
| Supervisor.RestartsAreSpread | src/l2_pipeline/supervisor.py:112-129 | max_restarts + 1 crashes that all led to restarts span at least the window |
| Rows.AppendSide | src/l2_pipeline/sinks/parquet_sink.py:106-114 | one more cell in every column of the side, nulls beyond the levels, earlier cells untouched |
| Rows.RowsToTable | src/l2_pipeline/sinks/parquet_sink.py:74-116 | every column has one cell per row, and each holds that row's value |
| Rows.ReadSideIsPrefix | src/l2_pipeline/sinks/parquet_sink.py:106-114 | reading a side back gives its levels, cut off at the depth |
| Rows.RoundTripIff | src/l2_pipeline/sinks/parquet_sink.py:74-116 | a row is rebuilt exactly if and only if neither side is deeper than the table |
| RowQueue.BoundedRowQueue.constructor | src/l2_pipeline/sinks/parquet_sink.py:127-129 | an empty queue with nothing dropped |
| RowQueue.BoundedRowQueue.Put | src/l2_pipeline/sinks/parquet_sink.py:131-141 | evicts the oldest row exactly when full; the queue stays the tail of all puts, and puts = consumed + queued + dropped |
| RowQueue.BoundedRowQueue.Get | src/l2_pipeline/sinks/parquet_sink.py:143-144 | hands out the oldest row; what is handed out is an in-order subsequence of what was put |
| Writer.RotatingWriter.constructor | src/l2_pipeline/sinks/parquet_sink.py:188-211 | a writer may start over any directory and leaves it as it is |
| Writer.RotatingWriter.WriteBatch | src/l2_pipeline/sinks/parquet_sink.py:213-229 | a new file, opened now, exactly on no file, a new hour or an elapsed interval, and the same file grown by the batch otherwise; the directory is what it was, the finalised files and one .tmp; every row is in its own partition and was written when its file was opened or less than one interval later; other instruments untouched |
| Writer.HourOf | src/l2_pipeline/sinks/parquet_sink.py:150-160 | the hour is the one of the wall-clock timestamp: hour * 3600 s <= tsWallNs < (hour + 1) * 3600 s |
| Writer.FinalisedRowsPlaced | src/l2_pipeline/sinks/parquet_sink.py:213-252 | finalising keeps every row under its own instrument and hour |
| Writer.RotatingWriter.Open | src/l2_pipeline/sinks/parquet_sink.py:231-242 | a new empty .tmp, numbered from zero for a new hour and onwards otherwise |
| Writer.RotatingWriter.Append | src/l2_pipeline/sinks/parquet_sink.py:228-229 | the open file grows by the batch and every other file keeps its rows |
| Writer.RotatingWriter.Finalise | src/l2_pipeline/sinks/parquet_sink.py:244-252 | the .tmp is gone and its rows are under the final name; the directory is all files finalised in turn |
| Writer.RotatingWriter.Close | src/l2_pipeline/sinks/parquet_sink.py:254-255 | no .tmp is left and nothing written is lost by closing |
| Writer.RenamedOnDisk | src/l2_pipeline/sinks/parquet_sink.py:244-252 | the rename turns the directory with an open file into the directory of finalised files |
| FileNames.NameReusedIffHourComesBack | src/l2_pipeline/sinks/parquet_sink.py:231-240 | a file of the hour takes the name of an earlier one if and only if the writer leaves the hour and returns to it |
| FileNames.PartsOnDisk | src/l2_pipeline/sinks/parquet_sink.py:231-252 | if it does not return, the hour's directory holds part 0 up to the last part written and no other final file |
| FileNames.PartCountsFiles | src/l2_pipeline/sinks/parquet_sink.py:234-238 | then the part number is the number of the hour's earlier files |
| FileNames.HourOnDisk | src/l2_pipeline/sinks/parquet_sink.py:213-252 | then the hour's directory read in order is exactly the rows written for that hour, in order |
| FileNames.CrashLosesOnlyTheOpenFile | src/l2_pipeline/sinks/parquet_sink.py:174-186 | at any moment, of an hour that has not come back, the final files on disk lack exactly the rows of the open .tmp, all of which were written within one checkpoint interval of its opening |
| FileNames.RowsLostIffHourComesBack | src/l2_pipeline/sinks/parquet_sink.py:206-249 | an hour's final files lose rows, of this writer or of one before a restart, if and only if the writer comes back to the hour or opens it after an earlier writer left files of it |
| FileNames.WriterLeavesPartZero | src/l2_pipeline/sinks/parquet_sink.py:234-249 | what that asks of an earlier writer is what every writer leaves |
| FileNames.ReturnToEarlierHour | src/l2_pipeline/sinks/parquet_sink.py:213-252 | three batches through one writer, the last for the hour of the first: on disk the first batch is gone |
| Sink.GroupRows | src/l2_pipeline/sinks/parquet_sink.py:390-392 | the groups partition the batch: keys in order of first occurrence, each with its rows in arrival order |
| Sink.GroupsCoverRows | src/l2_pipeline/sinks/parquet_sink.py:390-392 | grouping neither loses nor repeats a row |
| Sink.KeysInHourOrder | src/l2_pipeline/sinks/parquet_sink.py:390-394 | if an instrument's rows come in hour order, so do its groups |
| Sink.LastHourFits | src/l2_pipeline/sinks/parquet_sink.py:394-407 | then no group is ever for an earlier hour than the writer's open file |
| Sink.GroupAccounted | src/l2_pipeline/sinks/parquet_sink.py:394-408 | writing one group puts exactly that group's rows behind its partition and leaves every other partition as it was |
| Sink.FlushAccounted | src/l2_pipeline/sinks/parquet_sink.py:389-409 | once all groups are written, every partition holds exactly its rows of everything flushed, in arrival order |
| Sink.ParquetSink.WriterFor | src/l2_pipeline/sinks/parquet_sink.py:395-406 | one writer per instrument, created on first use over a directory still empty |
| Sink.ParquetSink.WriteThrough | src/l2_pipeline/sinks/parquet_sink.py:407 | a batch reaches the instrument's own files and no other writer or directory |
| Sink.ParquetSink.FlushGroup | src/l2_pipeline/sinks/parquet_sink.py:394-408 | one group written and counted, the accounting advanced by it |
| Sink.ParquetSink.Flush | src/l2_pipeline/sinks/parquet_sink.py:389-409 | the whole batch is written and accounted for, and rows_written is the number of rows ever flushed |
| Sink.ParquetSink.AwaitRow | src/l2_pipeline/sinks/parquet_sink.py:342-347 | needs a positive timeout; takes a row that is already waiting, whatever is put meanwhile |
| Sink.ParquetSink.FlushIfDue | src/l2_pipeline/sinks/parquet_sink.py:334-340 | exactly when the interval since the last flush is over, everything buffered is flushed and the timeout is the whole interval; otherwise nothing changes and it is what is left of it; always positive |
| Sink.ParquetSink.FlushIfFull | src/l2_pipeline/sinks/parquet_sink.py:349-356 | flushes exactly when the batch size is reached or a buffer that is not empty is an interval old, as of the clock it reads; afterwards no buffer is stale |
| Sink.ParquetSink.ConsumeOnce | src/l2_pipeline/sinks/parquet_sink.py:333-356 | every turn takes a waiting row, keeps flushed and buffered rows equal to the rows consumed, bounds every batch, and leaves no stale buffer |
| Sink.ParquetSink.Consume | src/l2_pipeline/sinks/parquet_sink.py:307-356 | n turns take n rows, or at least all that were waiting at first; what is flushed is never taken back and no buffer is stale |
| Sink.ParquetSink.Finish | src/l2_pipeline/sinks/parquet_sink.py:300-305 | the buffer is flushed and every file has its final name |
| Sink.ParquetSink.DiskHoldsEveryRow | src/l2_pipeline/sinks/parquet_sink.py:389-409 | after finishing, with hours that do not go back, each partition on disk, read part after part, is exactly the rows flushed for it, in arrival order |
| Sink.ParquetSink.DiskRowsPlaced | src/l2_pipeline/sinks/parquet_sink.py:389-409 | at any time every row on disk is under its own exchange and symbol and under the hour p with p * 3600 s <= tsWallNs < (p + 1) * 3600 s |
| Sink.ParquetSink.EveryFileIsAccountedFor | src/l2_pipeline/sinks/parquet_sink.py:300-305 | after finishing no .tmp is left, and every file on disk lies in a partition of rows that were flushed |
| Sink.CountByPartition | src/l2_pipeline/sinks/parquet_sink.py:389-409 | the rows of all files together are the rows of all partitions |
| Sink.ParquetSink.RowsWrittenAreOnDiskIff | src/l2_pipeline/sinks/parquet_sink.py:408 | the files on disk hold at most rows_written rows, and exactly that many if and only if no writer came back to an hour it had left |
| Sink.ParquetSink.PartitionShortIff | src/l2_pipeline/sinks/parquet_sink.py:389-409 | a partition on disk holds fewer rows than were flushed for it exactly when its writer came back to the hour |
| Sink.ParquetSink.RowsWrittenAreOnDisk | src/l2_pipeline/sinks/parquet_sink.py:408 | with hours that do not go back, rows_written equals the number of rows in all the files on disk |
| Quantile.QuantileFromBuckets | scripts/stress_replay.py:124-144 | for any buckets of which at most the last is infinite, the scan computes the estimate the following lemmas are about |
| Quantile.EstimateSpelledOut | scripts/stress_replay.py:130-144 | that estimate for any buckets and quantile: NaN iff the total is not positive, and otherwise, in the first bucket whose count reaches quantile * total, the value with (value - lower) * (count - previous) = (target - previous) * (upper - lower), or the boundary of an empty bucket, or infinity |
| Quantile.LandsInItsBucket | scripts/stress_replay.py:130-144 | for a quantile in (0, 1] the estimate lies in the bucket containing the rank, and is infinite exactly in the last |
| Quantile.QuantileIsMonotone | scripts/stress_replay.py:130-144 | a higher quantile never gets a lower estimate |

## Left out

- Websockets, HTTP, pyarrow encoding and compression, Prometheus, signals, logging, configuration and the command line: sockets and replies are steps, files are a map.
- JSON and `Decimal` parsing, `decimal128(18, 8)` rounding, and every effect of floating point, among them `2**attempt` overflowing and the rounding of `ts_wall_ns / 1e9` right before an hour ends: events arrive parsed and numbers are exact.
- Seed derivation and the distribution of draws: a draw is an arbitrary value of its range, so the weights of the market's actions play no part.
- `detail` strings, the `on_apply` hook, counters other than rows_written, batches_flushed and rows_dropped, heartbeats, feed lag and `events_buffered`.
- Faults.FaultInjector.Poll: over a market whose `spread_min` is not positive, where a tick may raise, and with a configuration that lets a window of length below one be drawn, where `randint` raises; the same goes for `RequestSnapshot` with an empty history.
- Driver.SimulatedFeedDriver.RunStep: for a held event that is still ahead of the checkpoint, as it always is after a step. Otherwise convergence after every delivery is false: `HeldEventBehindCheckpoint`.
- Driver.ConvergesUnderArbitraryFaults: a run may raise when delayed snapshots use up all twenty attempts, as the test's own comment on its probabilities allows.
- Synchronisation.LiveBookIsTrueOnItsBand: nothing is claimed of prices outside the band of the snapshot; levels there may be missing or stale until the next resync.
- BinanceResync.EveryInterleaving: messages that do not parse are skipped by the code and are no steps here; the watchdog is one of the reasons to disconnect; the waits inside one HTTP attempt (rate limit, `Retry-After`) are part of that attempt.
- OkxResync.EveryInterleaving: ping and pong, acknowledgements and notices are no steps beyond the disconnect they may cause; the waiting for the connection bucket before a handshake is part of backing off.
- Liveness under scheduling: recoverability says that a run to LIVE exists, not that a scheduler takes it.
- RateLimit.RateBound: costs are not negative, the refill rate is positive and the clock does not go back; in `RequestsWithinRate` the cost also fits the capacity.
- Supervisor.GivesUpIff: for a clock that does not go back; `run`, `_run_sink` and the shutdown they trigger are not modelled.
- FileNames.HourOnDisk: for an hour without earlier final files, as are `PartsOnDisk` and `CrashLosesOnlyTheOpenFile`; what a restart within the hour costs is in `RowsLostIffHourComesBack`.
- Writer.RotatingWriter.WriteBatch: rows count as in the `.tmp` once `write_table` returns, without the library's own buffering, and writing does not raise.
- Path text: exchange, symbol, hour and part are components of a path, not their formatted text, so `part-NNNN` widths and characters that a file system refuses are outside.
- Sink.ParquetSink.constructor: over an empty output directory.
- Sink.ParquetSink.Flush: a flush that raises midway, after which the source flushes the same buffer again.
- Sink.ParquetSink.ConsumeOnce: for a positive flush interval; the stall watchdog is not modelled.
- Quantile.QuantileIsMonotone: for buckets as a Prometheus histogram exposes them, that is cumulative counts and ascending boundaries that are not negative, the last one infinite; the same goes for `LandsInItsBucket`.
