# A verified model of the market-data feed simulator

The program simulates an exchange. Simulators place, cancel, amend and execute orders in limit order books and
publish what they do as Nasdaq TotalView-ITCH 5.0 messages. Trades go to a live table; an archiver moves whole UTC
days of them to files; a history layer answers trade and candle queries over both stores. A snapshotter saves and
restores the books. This project models that behaviour in Dafny and proves what a reader of the program would want to
rely on, in four groups.

**History.** `ArchiveProtocol` is the archiver as a protocol whose steps can fail, be killed or interleave with inserts
anywhere; `ArchiveCycle` is the program's loop, proved to take only steps of the protocol. In every reachable state
each day's trades are all live or all in their file. `Candles` defines the group-by that the database performs,
`ColdCandles` and `Reader` stream files, `History` and `TradeHistory` merge both stores. The main results are
`CandleHistory.OneGroupBy` (a candle query is one group-by over every trade ever inserted), `Paging.AllPages` (cursors
enumerate the whole series), the two lemmas on filled pages in `CandleGaps`, and
`TradeGaps.PagesAreRightIffCovered`.

**Books and their feed.** `OrderBook` has the book operations on values and the invariant that ties the price levels to
the order index; `LiveBook` has the same operations on heap objects, as the program performs them. `Simulation` says
what every action may do, `Draws` which one the generator leads to, `Simulator` draws and performs actions, `Reports`
says what messages tell of them, `Feed` replays the published messages. The main results are `Feed.FeedRefinesBook`,
from the simulator through the binary codec `FeedOnWire.Session`, the balance of shares in `Reports.SharesAreConserved`,
and `Simulator.StepBoth`: the same seed gives the same feed.

**The wire.** `Itch` encodes in place, byte by byte; `Decoder` splits payloads and decodes bodies.
`Decoder.StreamRoundTrip` covers whole streams with a cut-off tail.

**State.** `Pcg` proves that the generator has the full period 2^64, `Uniform` that all its draws are equally frequent.
`Restore`, `Trading` and `Snapshot` prove that books survive saving and loading although the simulators keep running
(`Snapshot.Restart`), and that an id issued afterwards is in no book. `Rotation` covers the deletion of old files.

Times are whole nanoseconds since the epoch, days are UTC days, prices are ten-thousandths of a dollar.

## Where the code differs from its comments

The proofs follow the code. Six places where it does not do what its comments say, each with the exact condition and a
failing run or input:

- history.go lines 16-20 say that the trade split has no gap because retention exceeds the archive-after age. That
  takes two things. The live table reaches back to the retention cutoff in every reachable state exactly if the age is
  at least the retention (`TradeGaps.RetentionCondition`), the opposite relation; and with an archiver that is up to
  date, the archive reaches forward to it exactly if the retention is about a day longer than the age
  (`TradeGaps.ArchiveCondition`). So no settings close the gap (`TradeGaps.NoSettingsCloseTheGap`), and the default ones
  lose the last trade of a day (`TradeGaps.DefaultSettingsLoseTrade`). In a given state, all pages are right exactly if
  the two stores cover the cutoff, which a caller can see in them (`TradeGaps.PagesAreRightIffCovered`).
- The cursor of a candle query is documented as a bound on bucket starts, but the live query compares trades with it
  and the archive compares whole seconds; and the archive takes an upper bound equal to the zero time for no bound. A
  candle query is right on every pair of stores exactly if its cursor cuts no bar that its bounds let through and a zero
  upper bound leaves no room for a bar (`CandleGaps.CursorCondition`).
- The same zero time misleads trade queries, under the condition of `TradeHistory.ZeroTimeCondition`.
- A snapshot keeps the orders of each price level but not their queue; the book comes back unchanged exactly if the
  rows come back in the order of the queues (`Restore.RoundTripIsExactIff`, with `Restore.QueueChanges` for a book that
  does not).
- A replace drops the list of orders it trims, so consumers keep them; a replica equals the book exactly if no replace
  of the run trimmed anything (`Feed.FeedRefinesBook`, with `FeedGaps.SomeReplaceTrims` for a run in which one does).
- A draw below n is documented as uniform; over the generator's period it is exactly if n divides 2^32
  (`Uniform.FairIff`).

## Model

| member | source | states |
|---|---|---|
| ArchiveProtocol.NextKeepsInv | go-feed/internal/archive/archiver.go:60-188 | every step of the protocol, in any state of the invariant and whatever the age setting, leads to a state of the invariant |
| ArchiveProtocol.ReachableStatesAreSound | go-feed/internal/archive/archiver.go:60-188 | after any interleaving of inserts, ticks, cycle steps, failed cursor saves and crashes: live is the newest part of history, each file is its whole day, nothing live is older than an archived day, the cursor or the running phase |
| ArchiveProtocol.DayIsInOnePlace | go-feed/internal/archive/archiver.go:128-188 | in a sound state a day's trades are exactly its file, or exactly its live rows if it has none |
| ArchiveProtocol.OverlapIsNewestDay | go-feed/internal/archive/archiver.go:179-186 | a day both archived and live is the newest archived one and both copies are equal |
| ArchiveProtocol.NothingIsLost | go-feed/internal/archive/archiver.go:60-103 | over all runs: every inserted trade is in its day's file or live, a day is in both only as its newest archived copy, and no live trade is older than the persisted cursor, however stale |
| ArchiveProtocol.FilesNeverChange | go-feed/internal/archive/archiver.go:190-237 | no step removes or alters a file once it is renamed into place; archiving a day again writes the same trades |
| ArchiveProtocol.InsertRecords | go-feed/internal/persist/snapshot.go:253-262 | after an insert a live row has the trade's match number and every earlier row is still there; the trade is recorded, live and in history, exactly if its number was free |
| ArchiveProtocol.LiveRowsAreDistinct | go-feed/internal/persist/snapshot.go:253-262 | in every reachable state, also when match numbers are issued again, no two live rows have the same match number |
| ArchiveCycle.Archiver.StreamDay | go-feed/internal/archive/archiver.go:132-174 | unless a row fails, the temporary file holds exactly the day's live rows in order |
| ArchiveCycle.Archiver.WriteFile | go-feed/internal/archive/archiver.go:192-243 | performs protocol steps ending in the rename of exactly the day's live rows, while other inserts interleave; a failure, like a day without trades, changes no file and leaves the day live |
| ArchiveCycle.Archiver.DeleteArchived | go-feed/internal/archive/archiver.go:183-187 | performs protocol steps ending in the delete, after which no row of the day is live; a failure comes before it and leaves the day both live and in its file |
| ArchiveCycle.Archiver.ArchiveDay | go-feed/internal/archive/archiver.go:132-188 | archiving one day is a run of protocol steps; on success the day is past its delete and not live, on failure it is still before it with all its rows live |
| ArchiveCycle.Archiver.FinishDay | go-feed/internal/archive/archiver.go:89-99 | a day and its cursor update, which may fail unnoticed, are a run of protocol steps; if nothing fails, the cursor is the next day |
| ArchiveCycle.Archiver.BeginCycle | go-feed/internal/archive/archiver.go:105-126 | starts at the cursor's day, else at the earliest live trade's, and finds nothing exactly when there is neither |
| ArchiveCycle.Archiver.ArchiveDays | go-feed/internal/archive/archiver.go:82-100 | the day loop is a run of protocol steps; if it completes, no live trade is older than the cutoff; if nothing fails, it completes with the cursor at the cutoff |
| ArchiveCycle.Archiver.Cycle | go-feed/internal/archive/archiver.go:60-103 | a whole cycle, stopped anywhere, is a run of protocol steps and keeps the invariant; a completed one leaves nothing live before the cutoff day of its start, and it completes if nothing fails |
| ArchiveCycle.Archiver.InsertTrade | go-feed/internal/persist/snapshot.go:253-262 | a trade is appended to the live rows, at the current time, exactly if no live row has its match number; otherwise nothing changes, and rows stay distinct |
| Candles.Highest | go-feed/internal/persist/queries.go:229-229 | the result is a price of the rows and no row's price exceeds it |
| Candles.Lowest | go-feed/internal/persist/queries.go:230-230 | the result is a price of the rows and no row's price is below it |
| Candles.GroupByIsUnique | go-feed/internal/persist/queries.go:226-241 | the group-by, defined by its properties (newest first, one bar per bucket with a trade, each the summary of exactly its rows), determines the bars |
| Candles.BarsConcat | go-feed/internal/archive/candles.go:16-22 | trades whose buckets do not meet can be bucketed separately: the bars of both, newer ones first |
| Candles.BarsAreGroupBy | go-feed/internal/archive/candles.go:77-125 | streaming trades in the order of time yields the group-by |
| Candles.NothingIsCountedTwice | go-feed/internal/archive/history.go:45-56 | the volumes of all bars add up to the shares of all trades, and their counts to the number of trades |
| Candles.BarShowsTrades | go-feed/internal/persist/queries.go:226-241 | a bar opens at the first and closes at the last price of its trades, its extremes are attained bounds, its volume is the sum of their shares |
| Intervals.IntervalSeconds | go-feed/internal/persist/queries.go:112-132 | exactly six intervals are supported, and each divides a day |
| Intervals.IntervalsLastWhatTheySay | go-feed/internal/persist/queries.go:112-132 | every supported interval lasts its number times its unit: minutes, hours or days |
| Intervals.AlignsTowardZero | go-feed/internal/persist/queries.go:269-273 | aligning a time gives the multiple of the interval that is at most one interval away, below it, or above it before the epoch |
| Intervals.BucketKeepsDaySide | go-feed/internal/archive/candles.go:20-22 | for such an interval no bucket crosses midnight |
| Queries.ClampLimit | go-feed/internal/persist/queries.go:98-110 | a page has the number asked for, at most 1000; 100 if none is asked for; asking for too many does not fall back to 100 |
| Queries.LiveCandles | go-feed/internal/persist/queries.go:218-267 | the live query is an error exactly for an unsupported interval, and else the page of a list of bars that satisfies the group-by of its rows: the newest limit bars, filled if asked |
| Queries.LivePageIsGroupBy | go-feed/internal/persist/queries.go:218-267 | over live trades in the order of time, that answer exists, and no other page of a list that satisfies the group-by is different |
| Queries.ZeroFill | go-feed/internal/persist/queries.go:305-323 | the loop over the bucket table yields the series from hi down to lo in steps of one interval, cut at limit |
| Queries.FillCandles | go-feed/internal/persist/queries.go:134-143 | a filled page is contiguous and newest first; it starts in the bucket just below a cursor on a boundary, in the bucket of the upper bound, or at the newest bar, and unless full it ends in the bucket of the lower bound or of the oldest bar |
| Queries.FillSpans | go-feed/internal/persist/queries.go:275-303 | the same of the fill function, for every cursor, bound, list of bars and limit, with what happens to bounds before the epoch and to bounds that cross |
| Filling.NearBarIsOnPage | go-feed/internal/persist/queries.go:305-323 | counting: a bar fewer than limit buckets below the newest possible one is among the newest limit bars |
| Filling.FilledPageIsTrue | go-feed/internal/persist/queries.go:275-323 | a filled page spans the query's bounds as above, and every entry is the true bar of its bucket, all zeros for a bucket without trades, although the input was already cut to limit bars |
| Filling.FilledPageShowsBar | go-feed/internal/persist/queries.go:275-323 | every bar not older than a filled page is on it, and every bar is when the page is not full |
| Catalog.Days | go-feed/internal/archive/catalog.go:45-87 | all archived days in ascending order, whatever order the tree is walked in |
| Catalog.Bounds | go-feed/internal/archive/catalog.go:89-97 | the least and greatest archived day, none exactly if nothing is archived |
| Catalog.Resolve | go-feed/internal/archive/catalog.go:99-121 | exactly the archived days a range of instants touches, in ascending order; none for an inverted range |
| Catalog.SkippedDays | go-feed/internal/archive/catalog.go:99-121 | leaving out days without matching trades changes no filtered result |
| Reader.RangeBounds | go-feed/internal/archive/reader.go:58-67 | the resolved days hold every matching trade of the archive, also for missing bounds |
| Reader.Tail.Push | go-feed/internal/archive/reader.go:165-177 | after any pushes the ring holds exactly the last ones that fit, in order |
| Reader.Tail.NewestFirst | go-feed/internal/archive/reader.go:179-186 | the newest pushes in reverse order, at most the capacity |
| Reader.ReadDayTail | go-feed/internal/archive/reader.go:91-148 | the tail has been given exactly the file's matching trades in order |
| Reader.ReadDays | go-feed/internal/archive/reader.go:71-88 | the remaining-budget loop over days is one cut of the reversed concatenation of all of them |
| Reader.Read | go-feed/internal/archive/reader.go:51-89 | the first limit trades of the reversed, filtered concatenation of all day-files |
| ColdCandles.BucketTrades | go-feed/internal/archive/candles.go:77-124 | the table of aggregates holds, for each bucket with a wanted trade and no other, the summary of its rows |
| ColdCandles.ReadDayCandles | go-feed/internal/archive/candles.go:63-141 | the bars of one file are the group-by of its wanted trades, for files in any order |
| ColdCandles.OlderBars | go-feed/internal/archive/candles.go:41-56 | an older day's bars follow the bars of all later days |
| ColdCandles.ReadCandles | go-feed/internal/archive/candles.go:16-56 | day by day streaming with early stop is the newest bars of one group-by over the whole archive; a non-positive interval is an error |
| History.QueryCandles | go-feed/internal/archive/history.go:45-115 | passed through to the live table exactly if archiving is off, trades are kept forever or nothing is archived; else live bars from the split on, archived bars before it when there is room, filled once, cut at limit; an unsupported interval is an error |
| OneHistory.ColdIsOld | go-feed/internal/archive/history.go:69-70 | in a sound state the archive is exactly history before the midnight after the newest archived day |
| OneHistory.LiveIsNew | go-feed/internal/archive/history.go:69-70 | from that midnight on, all of history is live |
| CandleHistory.CursorKeepsBuckets | go-feed/internal/archive/candles.go:104-108 | unless the cursor cuts a bar, its three comparisons (bucket start, trade, whole second) agree on every wanted trade |
| CandleHistory.AlignedCursorCutsNothing | go-feed/internal/api/handlers.go:250-255 | a cursor on a bucket boundary cuts no bar |
| CandleHistory.MergedIsRight | go-feed/internal/archive/history.go:72-106 | the merged bars are the newest limit of the bars since the split followed by the bars before it |
| CandleHistory.OneGroupBy | go-feed/internal/archive/history.go:45-115 | a candle query returns the newest limit bars of one group-by over all trades ever inserted, filled if asked: none missed, split or counted twice |
| CandleHistory.ReachableHistoryIsExact | go-feed/internal/archive/history.go:45-56 | and so it does in every state the archiver can reach, for no cursor or one on a bucket boundary |
| CandleHistory.UnfilledPageSize | go-feed/internal/persist/queries.go:98-110 | an unfilled page has as many bars as history has, up to the number asked for and to 1000 |
| CandleGaps.FilledHistoryIsTrue | go-feed/internal/archive/history.go:108-113 | a filled page of history is contiguous, starts and ends at the bounds of the query (below the cursor, in the bucket of either bound, else at the page's newest and oldest bar), and shows the true bar of every bucket over all trades |
| CandleGaps.FilledHistoryHidesNothing | go-feed/internal/archive/history.go:108-113 | and leaves out no bar that is not older than its last bucket |
| CandleGaps.CutBarIsWrong | go-feed/internal/persist/queries.go:239-239 | for every query whose cursor cuts a bar, and every archiver age, there is a run after which it answers wrongly |
| CandleGaps.CursorCondition | go-feed/internal/persist/queries.go:59-61 | an unfilled query, with any bounds and cursor, is right on all sound stores if and only if its cursor cuts no bar and its upper bound is not the zero time with room for a bar below the cursor |
| CandleGaps.ZeroTimeIsUnbounded | go-feed/internal/archive/candles.go:29-34 | with the zero time as upper bound the query asks for nothing, but returns the archived bars since its lower bound and before its cursor |
| CandleGaps.MisleadingIsWrong | go-feed/internal/archive/candles.go:29-34 | for every query whose zero upper bound leaves room for a bar, and every archiver age, there is a run after which it answers wrongly |
| Paging.SeriesBehind | go-feed/internal/api/handlers.go:250-255 | asking before the n-th bar's bucket gives exactly the series behind the n-th bar |
| Paging.AllPages | go-feed/internal/api/handlers.go:250-255 | following cursors ends, all pages but the last are full, and together they are the whole series with no bar missing or repeated |
| TradeHistory.QueryTrades | go-feed/internal/archive/history.go:147-222 | for all bounds: the page is the positions from offset on of the first offset + limit, at most 1000, trades of: live since the cutoff, then what the archive selects before it, newest first; it has as many trades as asked for, 100 if no number is, as far as there are that many; passed through to the live table exactly if the archive is inactive |
| TradeHistory.CompletePageSize | go-feed/internal/archive/history.go:155-222 | of a complete history, a request for n trades returns n, or 1000, or all there are, whichever is least |
| TradeHistory.ZeroTimeCondition | go-feed/internal/archive/history.go:190-211 | what pages are cut from is the live trades since the cutoff and the archived ones before it, on all sound stores, if and only if the archive's upper bound is not the zero time with a lower bound that archived trades can reach |
| TradeHistory.CompleteIffNoGap | go-feed/internal/archive/history.go:16-20 | that sequence is all of the symbol's history, reversed, if and only if every wanted trade since the cutoff is live and every earlier one is archived |
| TradeHistory.PageOfHistory | go-feed/internal/archive/history.go:155-222 | without a gap, and within the row clamp, the page is the page of all of history |
| TradeHistory.ServedAndMissing | go-feed/internal/archive/history.go:167-211 | in any sound state what is served, what left live too soon and what is not yet archived make up the wanted history: no trade is served twice |
| TradeHistory.ServedDescends | go-feed/internal/archive/history.go:147-149 | what is served comes newest first |
| TradeGaps.RetentionCondition | go-feed/internal/archive/history.go:16-20 | every reachable live table holds all trades since the retention cutoff if and only if the archiver's age is at least the retention |
| TradeGaps.ArchiveCondition | go-feed/internal/archive/history.go:16-20 | in every reachable state in which the archiver is up to date, all trades before the retention cutoff are archived, if and only if the retention exceeds the archiver's age by at least a day less a nanosecond |
| TradeGaps.NoSettingsCloseTheGap | go-feed/internal/archive/history.go:16-20 | for every archiver age and every number of days of retention there is a run after which, with the archiver up to date, the only recorded trade is in no page of an unbounded query |
| TradeGaps.PagesAreRightIffCovered | go-feed/internal/archive/history.go:147-222 | in a sound state every answer within the row clamp, to a query that does not run into the zero time, is the page of all of history if and only if the two stores, as a caller sees them, hold no archived trade since the cutoff that is not live and no live trade before it that is not archived |
| TradeGaps.GapRun | go-feed/internal/archive/archiver.go:60-103 | for any archiver age, a five-step run after which a trade of the last nanosecond of a day is archived and no longer live |
| TradeGaps.DefaultSettingsLoseTrade | go-feed/internal/config/config.go:50-55 | with the default settings, two days and 24 hours, the last trade of a day is in no page of an unbounded query although it is recent and archived |
| OrderBook.AddKeeps | go-feed/internal/orderbook/book.go:78-94 | adding keeps: levels and index hold the same orders, each once, on its side at its level's price; prices strictly ordered; no empty level; at most ten levels a side |
| OrderBook.RemoveKeeps | go-feed/internal/orderbook/book.go:97-113 | removing keeps the same |
| OrderBook.ReduceKeeps | go-feed/internal/orderbook/book.go:123-142 | reducing keeps the same, whether or not the order disappears |
| OrderBook.ReplaceKeeps | go-feed/internal/orderbook/book.go:145-184 | replacing keeps the same |
| OrderBook.EvictedFacts | go-feed/internal/orderbook/book.go:358-388 | an evicted order is the added one or an order of its side, and is no longer in the book |
| OrderBook.EvictedAreWorst | go-feed/internal/orderbook/book.go:358-388 | what an added order drives out has a strictly worse price than every order that stays on its side, and ten levels stay |
| OrderBook.NoNeedlessEviction | go-feed/internal/orderbook/book.go:358-388 | nothing is driven out unless the side has ten levels and the order's price is none of theirs |
| OrderBook.RestingIsIndexed | go-feed/internal/orderbook/book.go:20-27 | an order is in the index exactly if it is reachable through the levels, and then once |
| OrderBook.RestsOnItsSide | go-feed/internal/orderbook/book.go:145-184 | an order is reachable on a side exactly if it is indexed with that side |
| OrderBook.PickIsBijective | go-feed/internal/orderbook/simulator.go:196-214 | over all indices below the total, the pick names every resting order exactly once |
| OrderBook.RemovePicked | go-feed/internal/orderbook/book.go:391-404 | removing the picked order cuts out that one position and moves no other order |
| OrderBook.DepthShowsBest | go-feed/internal/orderbook/book.go:307-350 | in a depth snapshot the best bid is the highest price of a bid in the book and the best ask the lowest of an ask, zero if there is none; the spread leads from one to the other and the mid price is halfway |
| OrderBook.DepthCountsOrders | go-feed/internal/orderbook/book.go:307-350 | every level of a depth snapshot counts exactly the orders of the book at its side and price |
| LiveBook.Book.AddOrder | go-feed/internal/orderbook/book.go:78-94 | on heap objects: the new contents are the abstract addition, whatever the id, and the returned list is exactly the evicted orders; the book stays well-formed if the id is new |
| LiveBook.Book.RemoveOrder | go-feed/internal/orderbook/book.go:97-113 | removes exactly the named order and returns its object, or nothing |
| LiveBook.Book.ReduceOrder | go-feed/internal/orderbook/book.go:123-142 | the abstract reduction, seen by level and index through the shared object; returns what is left |
| LiveBook.Book.ReplaceOrder | go-feed/internal/orderbook/book.go:145-184 | draws one id, swaps the order for one with the same side, locate and participant, the new price and size and no priority, at the end of its new queue; draws none when the order is unknown |
| LiveBook.Book.RestoreOrder | go-feed/internal/orderbook/book.go:274-287 | as adding, with nothing reported |
| LiveBook.Book.AllOrders | go-feed/internal/orderbook/book.go:187-195 | every indexed order exactly once |
| LiveBook.Book.RandomBidOrder | go-feed/internal/orderbook/book.go:219-232 | the order at a position of the bids in level and queue order, none exactly for positions out of range |
| LiveBook.Book.RandomAskOrder | go-feed/internal/orderbook/book.go:235-248 | the same for the asks |
| LiveBook.Book.TotalBidOrders | go-feed/internal/orderbook/book.go:251-259 | the number of resting bids |
| LiveBook.Book.TotalAskOrders | go-feed/internal/orderbook/book.go:262-270 | the number of resting asks |
| LiveBook.Book.Depth | go-feed/internal/orderbook/book.go:307-350 | price, count and 32-bit total of every level; best prices, spread and mid price as the orders in the book have them |
| Simulation.ActKeeps | go-feed/internal/orderbook/simulator.go:108-394 | every legal action, on any book in use (seeded or restored), keeps it well-formed with issued ids and 32-bit sizes |
| Simulation.ActKeepsOrder | go-feed/internal/orderbook/simulator.go:108-394 | on a book that was never restored, every legal action keeps sizes positive whole lots and queues in the order of arrival |
| Simulation.ExecutedSize | go-feed/internal/orderbook/simulator.go:300-330 | an execution hits an indexed order of the opposite side and takes the drawn number of lots, at least one |
| Simulation.ExecutedFits | go-feed/internal/orderbook/simulator.go:300-330 | on sizes in whole lots, it takes at most what the hit order holds and leaves whole lots |
| Simulation.PriceTimePriority | go-feed/internal/orderbook/simulator.go:278-300 | on a book that was never restored, no order of the hit side has a better price than the hit one, nor the same price and a smaller id |
| Simulation.RunKeeps | go-feed/internal/orderbook/simulator.go:108-132 | the invariant holds after every legal run |
| Simulation.RunKeepsOrder | go-feed/internal/orderbook/simulator.go:108-132 | so do whole lots and queues in the order of arrival |
| Reports.ActionIsReported | go-feed/internal/orderbook/simulator.go:135-410 | the messages of an action say, byte for byte of type and side, what it did to the book: who was added where with what size and participant, who left, who took whose place, and for an execution one new match number on both messages, the hit order's price, the aggressor's side and the shares that order lost |
| Reports.SharesAreConserved | go-feed/internal/orderbook/simulator.go:278-359 | over any run, what rests of an order is what rested before or was announced, less what its trade messages report |
| Reports.TradesAddUp | go-feed/internal/orderbook/simulator.go:278-359 | over a run of a book in whole lots, the trade messages of an order add up to what executions took from it, also if it is gone |
| Reports.MatchNumbersAreConsecutive | go-feed/internal/orderbook/order.go:44-60 | over any run, executions carry all match numbers after the last one in order without gaps, and so do trades |
| Feed.FeedStep | go-feed/internal/orderbook/simulator.go:135-394 | the messages of one action take a consumer that holds the book and some dropped orders to one that holds the new book and those plus what the action trimmed silently |
| Feed.FeedRefinesBook | go-feed/internal/orderbook/simulator.go:108-394 | after any run, also of a restored book, a consumer has every resting order with its side (byte 'B' exactly for bids, 'S' exactly for asks), price and shares; its other orders are exactly those trimmed by replaces; it holds no others, and equals the book, if and only if no replace trimmed |
| FeedGaps.SomeReplaceTrims | go-feed/internal/orderbook/book.go:145-184 | a legal run from an empty book in which a replace trims: eleven placements on ten levels, and an amendment one tick past the last level |
| FeedOnWire.WireActsAsMessages | go-feed/cmd/decoder/main.go:118-196 | replaying the lines decoded from encoded messages is replaying the messages |
| FeedOnWire.RunMessagesFit | go-feed/internal/itch/binary.go:58-230 | every message of a legal run fits its fields if the drawn prices and the last id do |
| FeedOnWire.WireRefinesBook | go-feed/internal/orderbook/simulator.go:55-132 | a consumer that decodes the seeding and any run from the wire refines the book as above, sides by their bytes; that messages fit follows from prices and the last id |
| FeedOnWire.Session | go-feed/internal/orderbook/simulator.go:55-132 | end to end, on the simulator itself: it is seeded, takes actions, and all it says is encoded; whoever decodes and replays the bytes has every resting order with its side byte, price and shares, and no others exactly if no replace trimmed |
| Seeding.QuotesDescend | go-feed/internal/orderbook/simulator.go:55-105 | snapped quotes at increasing distances have strictly worse prices, for every reference price and tick |
| Seeding.SnapIsNearest | go-feed/internal/orderbook/simulator.go:412-414 | a snapped price is the nearest multiple of the tick, and of two equally near ones the one further from zero |
| Seeding.QuoteIsNearest | go-feed/internal/orderbook/simulator.go:58-62 | bids are quoted below and asks above the current price, by the given number of ticks, at the nearest whole tick |
| Draws.WeightsAreChances | go-feed/internal/orderbook/simulator.go:10-25 | picking by the five weights is picking add, cancel, replace, trade or replenish below 0.30, 0.50, 0.65, 0.80 and 1 |
| Simulator.Simulator.Initialize | go-feed/internal/orderbook/simulator.go:55-105 | any book gets sixty orders of the symbol, three a side on each of ten levels at the quoted prices, each announced as it is; sizes and participants are what the generator gives in turn; an empty book becomes exactly that ladder, and a consumer of the messages holds exactly the book |
| Simulator.Simulator.Step | go-feed/internal/orderbook/simulator.go:108-132 | performs a legal run of the given number of actions and returns exactly its messages; the actions and the generator's end are a function of the book, the generator and the current price |
| Simulator.InitializeBoth | go-feed/internal/orderbook/simulator_test.go:148-175 | two simulators with the same seed, counters and symbol are seeded with the same orders and announce them alike |
| Simulator.StepBoth | go-feed/internal/orderbook/simulator_test.go:148-175 | the same seed gives the same feed: two simulators that start alike and are stepped alike say the same, and end up with the same book, counters and generator |
| Simulator.Simulator.DoAction | go-feed/internal/orderbook/simulator.go:108-132 | one legal action, reported by its messages; which of the five it is, and how it turns out, is what the generator's next numbers say |
| Simulator.Simulator.DoAdd | go-feed/internal/orderbook/simulator.go:135-171 | a legal placement of one to ten lots within ten ticks of the current price; an order trimmed at once is not announced, every other evicted one is deleted |
| Simulator.Simulator.DoCancel | go-feed/internal/orderbook/simulator.go:196-229 | a legal cancel: a book with orders loses exactly one, announced by its delete message, and an empty one nothing |
| Simulator.Simulator.DoReplace | go-feed/internal/orderbook/simulator.go:232-275 | a legal amendment of a picked order to a price a few ticks from its own, and of one to ten lots; nothing on an empty book |
| Simulator.Simulator.DoTrade | go-feed/internal/orderbook/simulator.go:278-359 | a legal execution of the opposite side's first order exactly if both best prices are set; execution and trade message carry the shares that the order loses, its price, the aggressor's side and one new match number |
| Simulator.Simulator.DoReplenish | go-feed/internal/orderbook/simulator.go:362-393 | a legal placement of two to ten lots within five ticks of the current price |
| Itch.EncodeBinary | go-feed/internal/itch/binary.go:12-56 | the bytes written in place are the length prefix and the layout of the type; nothing for unknown types |
| Itch.EncodeStockDirectory | go-feed/internal/itch/binary.go:76-101 | every byte of the 39-byte layout |
| Itch.BodySizes | go-feed/internal/itch/binary.go:58-230 | the ten types by their codes, and the size of each body |
| Itch.HeaderLayout | go-feed/internal/itch/binary.go:60-68 | type, locate, tracking number and timestamp at their offsets in every message |
| Itch.DirectoryLayout | go-feed/internal/itch/binary.go:70-98 | every field of a directory entry at its offset, also those that no decoder here reads |
| Itch.TradingLayout | go-feed/internal/itch/binary.go:100-116 | the fields of a trading action at their offsets, with a reason of four blanks |
| Itch.AddLayout | go-feed/internal/itch/binary.go:118-230 | the fields of adds and trades at their offsets |
| Itch.ReductionLayout | go-feed/internal/itch/binary.go:156-194 | the fields of executions, cancels and deletes at their offsets |
| Itch.ReplaceLayout | go-feed/internal/itch/binary.go:196-211 | the fields of replaces at their offsets |
| Itch.PutTimestamp | go-feed/internal/itch/binary.go:48-56 | the low six bytes, big-endian |
| Decoder.BodyRoundTrip | go-feed/cmd/decoder/main.go:164-412 | decoding an encoded body of any of the ten types recovers every field the decoder reads, at its width on the wire |
| Decoder.TextRoundTrip | go-feed/internal/itch/messages.go:90-109 | a text survives padding and trimming if and only if it fits and does not end in a space |
| Decoder.StreamRoundTrip | go-feed/cmd/decoder/main.go:118-162 | encoded messages back to back, cut anywhere behind the first, decode to exactly the whole ones |
| Decoder.CutFrame | go-feed/cmd/decoder/main.go:130-150 | no proper prefix of a frame is taken for a frame |
| Decoder.RawBodyDecodesAsFrame | go-feed/cmd/decoder/main.go:118-162 | a body without its prefix decodes as its framed form |
| Decoder.DecodeBinaryFrames | go-feed/cmd/decoder/main.go:118-162 | on any payload the frame loop ends within bounds and prints exactly the lines of the bodies found |
| Decoder.SplitFrames | go-feed/cmd/decoder/main.go:118-162 | finds one framed body, the frames at the front, or the payload itself |
| Pcg.FullPeriod | go-feed/internal/engine/random.go:22-39 | with an odd increment, n steps return to the state if and only if 2^64 divides n |
| Pcg.NoRepeatWithinPeriod | go-feed/internal/engine/random.go:36-39 | no two of the first 2^64 states are equal |
| Pcg.EveryStateIsVisited | go-feed/internal/engine/random.go:36-39 | every state is reached from every other within 2^64 steps |
| Pcg.StepIsAffine | go-feed/internal/engine/random.go:36-39 | the step is the affine map with the increment at zero and the multiplier 0x5851f42d4c957f2d from each state to the next, modulo 2^64 |
| Pcg.Rng.constructor | go-feed/internal/engine/random.go:22-33 | the increment is odd, whatever the seed; a zero seed is replaced by the clock |
| Pcg.Rng.Uint32 | go-feed/internal/engine/random.go:41-50 | the draw is the output function of the prior state, whose meaning is the next two rows, and the state takes one step |
| Uniform.OutputBits | go-feed/internal/engine/random.go:41-50 | the output function bit by bit: bit i of a draw is bit 27 + (i + rotation) mod 32 of the state, combined by exclusive or with the bit 18 places above, the rotation being the state's top five bits |
| Uniform.EqualDraws | go-feed/internal/engine/random.go:40-50 | uniform draws: over one period from any state, every 32-bit number is drawn exactly 2^32 times |
| Pcg.Rng.Intn | go-feed/internal/engine/random.go:65-70 | the draw modulo n, or 0 without a draw |
| Uniform.FairIff | go-feed/internal/engine/random.go:64-70 | over one period all numbers below n are drawn equally often if and only if n divides 2^32 |
| Pcg.Rng.IntRange | go-feed/internal/engine/random.go:73-78 | the lower bound plus the draw modulo the size of the range, or the lower bound without a draw |
| Pcg.Rng.WeightedPick | go-feed/internal/engine/random.go:112-126 | the first index whose running total exceeds the target |
| Pcg.RestoredStream | go-feed/internal/engine/random.go:145-161 | a generator restored from a stored image draws the same numbers |
| Restore.PartRestores | go-feed/internal/orderbook/book.go:274-287 | restoring some of a well-formed book's orders, in any order, into an empty book evicts none of them and gives a well-formed book of exactly them |
| Restore.RestoresLevels | go-feed/internal/persist/snapshot.go:190-225 | restoring all of them gives the same prices and the same orders at each, even if shares changed since |
| Restore.RoundTrip | go-feed/internal/persist/snapshot.go:98-114 | with the shares unchanged, the index and the depth snapshot are the same, too |
| Restore.RoundTripIsExactIff | go-feed/internal/persist/snapshot.go:190-225 | the book is restored unchanged if and only if the rows come in the order of its queues |
| Restore.QueueChanges | go-feed/internal/persist/snapshot.go:190-225 | two orders of one queue that come back the other way round change places, for any two orders |
| Trading.RunKeeps | go-feed/internal/orderbook/book.go:78-184 | after any operations on any of the books, each drawing its id from the one counter, every book is well-formed, holds only its own orders, and has only issued ids |
| Trading.RunEvolves | go-feed/internal/orderbook/book.go:78-184 | an order that has left a book never comes back, and one that stays changes in nothing but its shares |
| Snapshot.Exchange.Operate | go-feed/internal/orderbook/book.go:78-184 | one operation of a simulator on one book, recorded in the history of the exchange |
| Snapshot.Exchange.Collect | go-feed/internal/persist/snapshot.go:98-101 | while simulators run in between, the rows of each symbol are exactly the orders of a state its book was in since the start of the collection, each at most changed in its shares since, with ids issued by the end |
| Snapshot.Exchange.CopyRows | go-feed/internal/persist/snapshot.go:103-114 | the rows written are those collected, with the shares that their orders had in some state during the copy, unless the order has left its book |
| Snapshot.Exchange.Save | go-feed/internal/persist/snapshot.go:66-153 | a committed image holds, for each symbol, exactly the orders of a state its book was in during the save, each with shares it had then in its book unless it has left, and counters between their values at its start and end that have passed every saved id; a failed save changes nothing stored |
| Snapshot.Exchange.Load | go-feed/internal/persist/snapshot.go:155-251 | every book is rebuilt from its rows, well-formed, with the prices and the orders at each price of the book that was seen, and every restored id is at most the restored counter |
| Snapshot.Restart | go-feed/internal/persist/snapshot.go:66-251 | saving while the simulators go on and loading into a new process: each book comes back, up to the order within its queues, as it was at some moment of the save; one that nobody touched comes back with the same orders and the same depth; counters do not go back behind the start of the save; it succeeds if nothing fails |
| Snapshot.Exchange.NextOrderId | go-feed/internal/orderbook/order.go:30-42 | an id issued then is in no book |
| Rotation.PaddedOrder | go-feed/internal/archive/archiver.go:305-308 | zero-padded numbers compare as strings exactly as they do as numbers |
| Rotation.PathsAreChronological | go-feed/internal/archive/archiver.go:305-308 | sorting day-files by path sorts them by date |
| Rotation.PathRoundTrip | go-feed/internal/archive/catalog.go:45-87 | the catalog reads back the date of every day-file from the path that the archiver gives it |
| Rotation.TemporaryIsIgnored | go-feed/internal/archive/catalog.go:58-74 | a temporary file is no day-file for the catalog |
| Rotation.Directory.RemoveOldest | go-feed/internal/archive/archiver.go:310-320 | the tracked total is always the size of the files left, also when removals fail; it stops at the budget or after the last file |
| Rotation.Directory.Rotate | go-feed/internal/archive/archiver.go:280-321 | when no removal fails, the survivors are the longest chronological suffix within the budget |

## Left out

- Retention pruner: it deletes live trades by design, so the results on history assume that it never runs; the same
  holds for `Rotation` and the archive.
- Inserts with a time in the past, and steps of the clock backwards: trades are inserted at the current time.
- Failing reads: the archive's files are readable and the queries see both stores in one state.
- Trades with equal times keep the order in which they were inserted; the queries promise none.
- Simulator.Simulator.Step: works on the abstract state of a book rather than on a `LiveBook.Book` object; every method
  of the latter is proved to have the effect of the function used. The book must hold fewer than 2^32 orders, as the
  generator's range argument does.
- Simulator.Simulator.Initialize: on a book that is not empty it drops the eviction lists of seed orders, as the
  program does, so only the ladder of an empty one is what a consumer holds.
- Draws and seeds: a clock as the seed is a free number, and the market price is an input of every step.
- Simulation.ActKeeps: prices are free, so the results hold for every path of the market price; how prices are drawn is
  the contract of the simulator's draw methods.
- FeedOnWire.Session: prices are exact ten-thousandths, while the program truncates a binary fraction; that quoted and
  drawn prices fit 32 bits is a condition.
- Pcg.Rng.WeightedPick: sums in exact arithmetic instead of binary floating point.
- Pcg.Rng.Intn: excludes ranges whose size is a multiple of 2^32, for which the program divides by zero.
- Gaussian draws, geometric Brownian motion, stress and the cached spare value: floating point.
- Counters: order ids and match numbers do not wrap around at 2^64.
- LiveBook.Book.Depth: models the 32-bit sum of shares; elsewhere shares are unbounded integers.
- Decoder.DecodeBinaryFrames: bodies are collected before they are decoded, and printed text is a value per line; the
  hex dump, times of day and prices as text are not modelled.
- The database keeps microseconds, so its bounds are coarser than the nanoseconds of the archive's files; here both
  stores compare nanoseconds.
- CandleGaps.CursorCondition: only unfilled queries; filled ones are covered where they are right.
- Snapshot.Exchange.CopyRows: the shares of an order that has left its book are free. Drawing an id and putting the
  order into its book are one step.
- Snapshot.Exchange.Save: symbol prices and the generator's state are saved in the same transaction but are not in the
  image; the image of the generator is in `Pcg`.
- Match numbers after a restart: trades are saved apart from the snapshot, so numbers can be issued again.
- Filled pages with a cursor inside a bucket, and following cursors with fill on.
- QueryTradesMulti, trade statistics, database size and history bounds: plain reads of one store.
- Rotation.Directory.Rotate: any removal may fail; the order of the walk is free.
- Network sessions, HTTP parameters, configuration, logging, compression, JSON and the viewers.
