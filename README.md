# trade-tracker, modelled in Dafny

trade-tracker is a personal tool for trading bitcoin options on the LedgerX
exchange. This project models its sequential core and proves properties of the model:

- **Historic prices** (`PriceHistory`, price_history.dfy). A price line
  is parsed. A trade stream is down-sampled into a time-ordered store. The store answers
  "latest price strictly before", and is split into monthly cache files.
- **Tax lots** (`Tax`, `Lots`, `LxHistory`, `LxHistoryOld`). Opening lots
  are matched first-in-first-out against closing lots. Each label has its
  own queue. A tax event is logged for every close and every open. The
  report's lines and dates are printed. The account history is imported
  from the exchange's records, in both versions of that code.
- **Containers updated in place** (`TimeMaps`, `Books`, `OwnOrders`,
  `PriceTracker`, `LxState`, `Transactions`). These cover the time-keyed multimap, the
  order book of one contract, the tracker of the user's own orders, the
  bitcoin price reference, the dispatcher from contracts to books, and
  the database of bitcoin transactions.
- **Parsers and printers** (`LxCsv`, `Feed`, `Options`, `Contracts`,
  `CreateOrders`, `LxJson`, `CsvPrint`, `Prices`). These cover the
  quote-aware field splitter and 1099 line classifier, the data-feed order
  reader, option symbols, contract validation, the exchange's status codes
  and new orders, the CSV column printer, and dollar prices.
- **Units** (`Quantities`, `Assets`, `Interesting`, `UtcTime`). These
  cover quantities of bitcoin and contracts, asset conversions, the
  interestingness scale, and UTC times.

`Decimals` (decimals.dfy) stands in for the `rust_decimal` crate: a
mantissa and a scale, whose numeric meaning is a real number.
`Strings` (strings.dfy) stands in for Rust's integer formatting and
string splitting. Neither is part of the repository, so neither has rows
below. `Wrappers` holds `Option`, `Result` and `Checked`. A
`Checked` value is a result or a panic with its message: every panic of
the source's own code is an explicit outcome, never a precondition. The
arithmetic overflow panics of a debug build are not (see "## Left out").

Conventions:

- Times are integer nanoseconds since the Unix epoch, UTC.
- A `BTreeMap` whose order matters is a sorted sequence. A `HashMap` is a
  Dafny `map`, and the order in which it is iterated is a parameter.
- A function the model cannot see is a function-typed parameter. These
  are the transaction id, an address's script, a contract's expiry date,
  price rounding, float formatting and the exchange's JSON number parser.
- The two global counters `LOT_INDEX` and `DATE_OFFSET` are explicit
  counter objects.
- Each source file is modelled on its own definitions. This matters
  because the files are at different versions: three of them have their
  own `Order`, `Quantity` and `Asset` types.

## Model

| member | source | states |
|---|---|---|
| PriceHistory.ParseI64Display | src/price.rs:56 | every in-range i64 reads back from its decimal display: the timestamp field of a price line round-trips |
| PriceHistory.FromCsv | src/price.rs:52-75 | a line parses iff it has exactly three comma-separated fields with a valid i64 timestamp and a valid decimal price; the result is that timestamp and price; a two-field line is the no-volume error and a longer one the extra-data error |
| PriceHistory.FromCsvOfFields | src/price.rs:52-75 | a line written as timestamp, price and a comma-free volume parses back to exactly that timestamp and price |
| PriceHistory.InsertLookup | src/price.rs:92-94 | after recording a price, looking up its timestamp gives that price and every other timestamp gives what it gave before (a later price at the same time replaces the earlier) |
| PriceHistory.InsertOrdered | src/price.rs:92-94 | recording keeps the store strictly ordered by time, grows it by one exactly when the timestamp was new, and adds no price except the one recorded |
| PriceHistory.InsertAllLookup | src/price.rs:171-173 | after recording a run of prices, a timestamp that occurs in the run maps to the last price in the run with that time, and any other timestamp to what it mapped to before |
| PriceHistory.LatestBefore | src/price.rs:97-106 | the result is absent iff no stored price is strictly earlier than the time; otherwise it is a stored price strictly earlier than the time and no earlier-than-the-time price is later than it |
| PriceHistory.Historic.constructor | src/price.rs:84-88 | a new history is empty and ordered |
| PriceHistory.Historic.Record | src/price.rs:92-94 | the store becomes the old store with the price inserted under its timestamp, and stays ordered |
| PriceHistory.Historic.RecordAll | src/price.rs:171-173 | the store becomes the old store with every price inserted in order, and stays ordered |
| PriceHistory.Historic.PriceAt | src/price.rs:97-106 | panics exactly when no recorded price is strictly earlier than the time; otherwise returns a recorded price before the time that none of the others before the time follow |
| PriceHistory.Historic.ReadCsv | src/price.rs:115-148 | lines are parsed in order; a bad line stops the reading with its line number and reason, keeping the slot-start trades recorded before it; when every line parses, the slot-start trades and then the last trade are recorded; the slot compared is the `u8` one of `PriceHistory.Slot`, wrapped modulo 256 |
| PriceHistory.FirstBad | src/price.rs:118-121 | the index found is the first line that fails to parse, or the number of lines when all parse |
| PriceHistory.SampledAreSlotStarts | src/price.rs:123-128 | the trades recorded from a file are, in file order, exactly those whose `u8` slot (`PriceHistory.Slot`) differs from the previous trade's (the first trade counting as slot 0 before it) |
| PriceHistory.SlotOfIntended | src/price.rs:123-124 | `12 * hour + minute / 5` in `u8` is the intended slot modulo 256, and equals it exactly before 21:20 UTC |
| PriceHistory.SlotIntendedMeaning | src/price.rs:114-115 | the intended slot (the unwrapped value) is shared exactly by times with the same hour and the same five minutes |
| PriceHistory.SlotCollisions | src/price.rs:123-125 | two times share the `u8` slot exactly when their intended slots are equal or 256 apart |
| PriceHistory.SlotWrapsAtNight | src/price.rs:116-128 | a file whose only line is a trade at 21:22 UTC records nothing in the sampling loop: its intended slot is 256 and its `u8` slot is 0, the starting value |
| PriceHistory.SlotWrapsOverMidnight | src/price.rs:123-128 | after a trade at 21:20 UTC, a trade at 00:02 on a later day is not sampled, though the intended slots (256 and 0) differ |
| PriceHistory.LastTradeRecorded | src/price.rs:142-146 | after a whole file is read, the store holds the file's last trade under that trade's time |
| PriceHistory.Historic.WriteOut | src/price.rs:180-218 | the files written are the month groups of the stored prices |
| PriceHistory.ScanFiles | src/price.rs:185-204 | every file written on the way is non-empty, all of one month, and months of neighbouring files differ |
| PriceHistory.GroupsPartition | src/price.rs:180-218 | the month files, concatenated, are exactly the stored prices in order, each file of one month and no two neighbours of the same month |
| PriceHistory.LastComponent | src/price.rs:166 | the name compared is the part of the path after its last slash, and holds no slash |
| PriceHistory.ReadJsonFrom | src/price.rs:157-177 | the new history holds the prices of every file whose name is at least the minimum date, recorded file by file in directory order |
| PriceHistory.InsertAllAppend | src/price.rs:161-176 | recording one run of prices and then another is the same as recording their concatenation, so reading file by file equals reading all prices at once |
| PriceHistory.ReadJsonReadsAll | src/price.rs:151-153 | with the empty minimum date every file of the directory is read |
| Books.Retain | src/ledgerx/book.rs:56 | dropping a message id keeps exactly the orders with other ids |
| Books.Insert | src/ledgerx/book.rs:58 | inserting at the order's key adds the order and keeps every order of another key, and nothing else |
| Books.RetainSorted | src/ledgerx/book.rs:56 | dropping a message id keeps the side in key order |
| Books.InsertSorted | src/ledgerx/book.rs:58 | inserting at the order's key keeps the side in key order |
| Books.InsertSideMeaning | src/ledgerx/book.rs:43-60 | inserting an order keeps a side in key order, on its own side with positive sizes and one order per message id, and afterwards the side holds the orders of other ids plus the new order exactly when its size is positive |
| Books.InsertSideSize | src/ledgerx/book.rs:43-60 | the side's total size moves by the order's size less the size held before under its message id |
| Books.SizeSumAppend | src/ledgerx/book.rs:84-87 | the total size of two runs of orders is the sum of their totals |
| Books.CostSumValue | src/ledgerx/book.rs:84-87 | the cost added up order by order is the plain sum of each order's cost |
| Books.Step | src/ledgerx/book.rs:100-112 | one bid sells at least one contract and at most its size, and for a call draws a million sats per contract from the budget |
| Books.ClearFromBounds | src/ledgerx/book.rs:92-115 | selling into the bids never sells more contracts than they hold, and for a call never ties up more sats than are available |
| Books.BookState.constructor | src/ledgerx/book.rs:37-40 | a new book is empty on both sides |
| Books.BookState.InsertOrder | src/ledgerx/book.rs:43-60 | only the order's own side changes, as inserting into one side describes, and the book stays valid |
| Books.BookState.BestBid | src/ledgerx/book.rs:62-69 | the best bid is the price and size of the bid with the highest key, or zero and zero with no bids |
| Books.BookState.BestAsk | src/ledgerx/book.rs:71-78 | the best ask is the price and size of the ask with the lowest key, or zero and zero with no asks |
| Books.BookState.ClearAsks | src/ledgerx/book.rs:80-89 | buying into every offer gains the total size of the asks and costs the sum of their costs |
| Books.BookState.ClearBids | src/ledgerx/book.rs:91-115 | selling into the bids from the lowest key up gives the contracts and dollars of the walk over the bids, stopping at the first zero sale and panicking when the sats run out |
| OwnOrders.NextMapMeaning | src/ledgerx/own_orders.rs:71-127 | an order touches only its own message id: a nonzero size stores it there, a size-zero order that is not a fill removes that id, and a fill changes nothing |
| OwnOrders.MyIdIsFirst | src/ledgerx/own_orders.rs:50-69 | our customer id becomes that of the first order carrying one, and once set it never changes |
| OwnOrders.Tracker.constructor | src/ledgerx/own_orders.rs:34-37 | a new tracker knows no customer id and tracks no orders |
| OwnOrders.Tracker.InsertOrder | src/ledgerx/own_orders.rs:43-153 | the customer id is learnt, the result says whether the order is a fill, the tracked orders change as one order's update says, and the call panics exactly when it asks a future contract for its asset (with `with_asset_trade` taken to be total, see "## Left out") |
| OwnOrders.Tracker.OpenOrders | src/ledgerx/own_orders.rs:155-158 | the open orders are exactly the tracked ones, each under its own message id, none of size zero |
| PriceTracker.Reference.constructor | src/ledgerx/price_tracker.rs:40-47 | a new reference has an empty book and quotes the starting price on both sides at the starting time |
| PriceTracker.Reference.Reference | src/ledgerx/price_tracker.rs:61-64 | the reference price is the midpoint of the last best bid and ask, with the time of the last update |
| PriceTracker.Reference.InsertOrder | src/ledgerx/price_tracker.rs:77-98 | the order goes into the book's own side; a nonzero best bid or ask becomes the last quote with `now` as the update time, and a side with no orders keeps its last quote, so a nonzero quote never becomes zero |
| Decimals.IsZeroValue | src/ledgerx/price_tracker.rs:85-92 | the comparison with zero that decides whether a quote is kept is exactly a zero value |
| PriceTracker.Reference.ClearBook | src/ledgerx/price_tracker.rs:101-104 | the book is replaced by an empty one and the last quotes and their time are kept |
| LxState.InsertOrderMeaning | src/ledgerx/mod.rs:290-327 | an unknown contract or a non-bitcoin underlying changes nothing and is reported; a future panics; otherwise only the order's contract's book changes, as inserting into its side says, our own orders change only for an order with a customer id, no contract is added or removed, and the answer is "accepted, bitcoin" exactly for a day-ahead swap |
| LxState.InsertAllKeepsOthers | src/ledgerx/mod.rs:340-342 | feeding a run of orders never adds or removes a contract and leaves untouched the book of every contract none of them names |
| LxState.LedgerX.constructor | src/ledgerx/mod.rs:90-99 | a new tracker has no contracts, no own orders, the given price reference and zero balances |
| LxState.LedgerX.SetBalances | src/ledgerx/mod.rs:101-107 | both balances are overwritten and nothing else changes |
| LxState.LedgerX.SetCurrentPrice | src/ledgerx/mod.rs:110-112 | the price reference is overwritten and nothing else changes |
| LxState.LedgerX.AddContract | src/ledgerx/mod.rs:274-278 | the contract is stored under its id with an empty book, replacing any earlier entry; a future panics before anything is stored |
| LxState.LedgerX.RemoveContract | src/ledgerx/mod.rs:281-287 | the entry under the id goes if there is one, and nothing else changes |
| LxState.LedgerX.InsertOrder | src/ledgerx/mod.rs:290-327 | the new contracts, own orders and answer are those the value-level insertion gives, and the balances are left alone |
| LxState.LedgerX.InitializeOrderbooks | src/ledgerx/mod.rs:329-346 | the named contract's book is emptied and then every order is inserted in turn, ending in the state the run of insertions gives; a future panics |
| TimeMaps.PositionSplits | src/timemap.rs:99-104 | in key order, the entries of a time up to `t` all come before the later ones |
| TimeMaps.InsertedSorted | src/timemap.rs:94-104 | an entry with a fresh index goes after every entry of an equal or earlier time and before every later one, nothing is replaced, and the keys stay ordered |
| TimeMaps.FirstIsMinimum | src/timemap.rs:63-68 | the first entry has the smallest key |
| TimeMaps.LastBefore | src/timemap.rs:106-113 | the entry found has a time before `asOf`, every later entry has not, and none exists exactly when no entry is earlier than `asOf` |
| TimeMaps.LastBeforeIsGreatest | src/timemap.rs:106-113 | the entry found has the greatest key below `(asOf, 0)`: the latest earlier time and, within it, the last inserted |
| TimeMaps.RemovedValid | src/timemap.rs:91 | removing one entry keeps the rest in key order and under the index counter |
| TimeMaps.FirstMaxIsFirstMaximum | src/timemap.rs:74-92 | the entry chosen has a maximal value and every earlier entry a strictly smaller one |
| TimeMaps.TimeMap.constructor | src/timemap.rs:38-51 | a new map has no entries and its counter at zero |
| TimeMaps.TimeMap.IsEmpty | src/timemap.rs:53-61 | the map is empty exactly when its length is zero |
| TimeMaps.TimeMap.Insert | src/timemap.rs:99-104 | the value is stored under the current time and counter, a key not yet present, so the map grows by one; the counter moves on by one |
| TimeMaps.TimeMap.PopFirst | src/timemap.rs:63-68 | the entry with the smallest key is removed and returned; an empty map gives nothing |
| TimeMaps.TimeMap.PopMax | src/timemap.rs:74-92 | the first entry in key order with a maximal value is removed and returned, the others kept in order; an empty map gives nothing |
| TimeMaps.TimeMap.MostRecent | src/timemap.rs:106-113 | something is found exactly when an entry is earlier than `asOf`, and what is found is earlier |
| TimeMaps.TimeMap.Iter | src/timemap.rs:115-120 | iteration gives every entry's time and value, in key order |
| TimeMaps.TimeMap.Values | src/timemap.rs:122-127 | the values come in the order iteration gives them |
| TimeMaps.IterOrder | src/timemap.rs:15-23 | iteration is by time, and entries of equal time come in insertion order |
| Tax.Counters.constructor | src/ledgerx/history/tax.rs:36-39 | both process-wide counters start at zero |
| Tax.Counters.NextBtc | src/ledgerx/history/tax.rs:67-71 | the id is the bitcoin prefix with the current lot index padded to three digits, and the index advances by one; the date offset is untouched |
| Tax.Counters.NextOpt | src/ledgerx/history/tax.rs:73-77 | the id is the option prefix with the current lot index, and the index advances by one; the date offset is untouched |
| Tax.Counters.NextDateOffset | src/ledgerx/history/tax.rs:612 | the current date offset is returned and advanced by one; the lot index is untouched |
| Tax.GeneratedIdsDistinct | src/ledgerx/history/tax.rs:66-77 | two generated ids are equal only for the same prefix and the same counter value, so ids drawn from the counter never repeat |
| Tax.PrintLotId | src/ledgerx/history/tax.rs:44-51 | printing a lot id panics exactly for the invalid (empty) id; any other prints as a CSV string |
| Tax.DepositAndFeeLots | src/ledgerx/history/tax.rs:247-278 | a deposit lot is long, of the deposited sats, at the deposit date, and its id prints; a fee lot is short, of the fee's sats, at price zero, and its id panics if printed |
| Tax.ReportSecondNearest | src/ledgerx/history/tax.rs:91-103 | the second printed is the shifted time's second, at most half a second above the true time and at most half a second plus one microsecond below it (rounding up only past 500000 microseconds): nearest-second rounding rather than truncation |
| Tax.PrintTaxDateRounds | src/ledgerx/history/tax.rs:91-103 | the printed tax date is the date and time of the rounded second |
| Tax.StrikeTextDigits | src/ledgerx/history/tax.rs:140-148 | for strikes of at least 1000, the thousands-separated strike text is the plain decimal strike once its comma is removed |
| Tax.FromContractMeaning | src/ledgerx/history/tax.rs:131-158 | a label exists exactly for a next-day contract (BTC) or an option whose strike is a whole number from 1000 up to but not including 1000000; an option label is underlying, Mini, expiry day, Call or Put, and the strike in dollars with its thousands comma and .00 |
| Tax.TextsDistinct | src/ledgerx/history/tax.rs:160-197 | the gain-type texts and the close-type texts each determine their value, and none holds a comma |
| Tax.SettlementLots | src/ledgerx/history/tax.rs:316-352 | an expiry lot falls on the expiry day at 22:00:00 UTC, has the absolute size, is short exactly for a negative size, has the invalid id and price zero; an assignment lot matches it in date, direction and size, closes as an exercise, and its price is non-negative exactly when the option is in the money |
| Tax.TradeLotMeaning | src/ledgerx/history/tax.rs:280-315 | a trade lot of a nonzero size has the absolute size, is long exactly for a positive size and then closes as a buy-back, and its price is the trade price plus the fee spread over the size in sats or hundredths of contracts |
| Tax.FromTrade | src/ledgerx/history/tax.rs:280-315 | a trade of size zero panics (the division by zero) and draws no id; otherwise the lot is the trade lot with the next bitcoin or option id, and the lot index advances by one |
| Tax.DescriptionQuoted | src/ledgerx/history/tax.rs:409-423 | the description always holds a comma, so it is always printed in double quotes |
| Tax.RowOfMeaning | src/ledgerx/history/tax.rs:388-407 | the amount is the quantity in sats for bitcoin and in hundredths otherwise; basis and proceeds are the amount times the open and close prices rounded to cents; for a long open the dates and the two amounts are swapped |
| Tax.RowColumnsDescription | src/ledgerx/history/tax.rs:425-438 | the description column is the description in double quotes |
| Tax.RowColumnsGain | src/ledgerx/history/tax.rs:425-438 | the row has eleven columns and the seventh is basis minus proceeds, whose value is exactly their difference |
| Tax.DateColumns | src/ledgerx/history/tax.rs:425-438 | the row holds two date columns |
| Tax.AmountColumns | src/ledgerx/history/tax.rs:425-438 | the row's three amount columns end with basis minus proceeds |
| Tax.PrintCloseMeaning | src/ledgerx/history/tax.rs:388-446 | printing a close succeeds exactly when its quantity fits in an i64 and, when lot ids are printed, its open id is valid |
| Tax.PrintCloseLine | src/ledgerx/history/tax.rs:388-446 | a printed close is its eleven columns joined by commas, followed by a comma and the open lot's id when lot ids are printed |
| Tax.BtcDescriptionTwoDecimals | src/ledgerx/history/tax.rs:409-419 | a bitcoin amount in whole hundredths of a bitcoin is described to two decimal places |
| Tax.FifoInsertLookup | src/ledgerx/history/tax.rs:466 | after inserting a lot at a sort date the FIFO maps that date to it and every other date as before |
| Tax.FifoInsertOrdered | src/ledgerx/history/tax.rs:466 | inserting keeps the FIFO ordered by sort date, adds nothing but the inserted lot, and grows it by one exactly when the date was new |
| Tax.FifoInsertTotal | src/ledgerx/history/tax.rs:477-479 | inserting adds the lot's quantity to the total size, less the quantity of a lot it overwrites |
| Tax.GainOf | src/ledgerx/history/tax.rs:536-542 | the gain is 1256 exactly for a 1256 contract; otherwise it is short-term exactly when the close is at most 365 days after the open |
| Tax.ConsumeConserves | src/ledgerx/history/tax.rs:524-573 | the closed quantities plus what is left to open equal the incoming quantity, and nothing is lost from the FIFO but what was closed |
| Tax.ConsumeOrder | src/ledgerx/history/tax.rs:524-573 | the closes pair the incoming lot with the FIFO's lots front to back, first in first out, none closing more than its lot holds |
| Tax.ConsumeFull | src/ledgerx/history/tax.rs:524-573 | every close but the last closes the whole of its open lot |
| Tax.ConsumeOpened | src/ledgerx/history/tax.rs:524-573 | a remainder is opened only after every lot of the FIFO has been closed, and it is then the only lot left, at its sort date |
| Tax.ConsumeRemainder | src/ledgerx/history/tax.rs:524-573 | when nothing is left to open, the FIFO keeps its unclosed lots, with a partly closed front lot put back under its date with the remaining quantity |
| Tax.ConsumeValid | src/ledgerx/history/tax.rs:524-573 | closing keeps the FIFO ordered and of one direction, the direction of the lots it had |
| Tax.PushEventValid | src/ledgerx/history/tax.rs:491-575 | an event keeps the FIFO ordered by sort date and all of one direction |
| Tax.PushEventMeaning | src/ledgerx/history/tax.rs:491-575 | the closes and the opened remainder account for the whole incoming quantity; each close is of an opposite-direction lot in FIFO order; the lot is simply added, closing nothing, exactly when the FIFO is empty or of its direction |
| Tax.PushEventTotal | src/ledgerx/history/tax.rs:491-575 | the total size after the event plus what was closed equals the total before plus what was opened, save a lot overwritten at the same sort date |
| Tax.ConsumeSplit | src/ledgerx/history/tax.rs:555-560 | a front lot larger than the incoming one is partly closed and put back with the rest, and nothing is left to open |
| Tax.ConsumeWhole | src/ledgerx/history/tax.rs:561-565 | a front lot no larger than the incoming one is wholly closed and the matching goes on with the rest |
| Tax.Position.constructor | src/ledgerx/history/tax.rs:470-475 | a new position has an empty FIFO |
| Tax.Position.Holding | src/ledgerx/history/tax.rs:465-467 | a position made from an ordered, one-direction FIFO holds exactly it |
| Tax.Position.Direction | src/ledgerx/history/tax.rs:481-483 | there is no direction exactly when nothing is open; otherwise every open lot has that direction |
| Tax.Position.PushEvent | src/ledgerx/history/tax.rs:491-575 | the loop's closes, remainder and new FIFO are those of the FIFO matching, and the position stays ordered and of one direction |
| Tax.EventsOf | src/ledgerx/history/tax.rs:619-633 | the events logged are one per close in order, then one for the opened lot if any, all at the lot's date and label |
| Tax.ClosedEvents | src/ledgerx/history/tax.rs:621-627 | one close event per close, in order |
| Tax.PositionTracker.FifoOf | src/ledgerx/history/tax.rs:615 | a label's FIFO is ordered and of one direction, and empty for a label not yet seen |
| Tax.PositionTracker.constructor | src/ledgerx/history/tax.rs:600-603 | a new tracker has no positions and no events |
| Tax.PositionTracker.PushLot | src/ledgerx/history/tax.rs:611-636 | the sort date is skewed by the date offset, which advances by one; the label's position becomes the FIFO matching of the lot (1256 unless the label is BTC); the closes and then the opened lot are logged at the lot's date, and the number of closes is returned |
| Tax.PositionTracker.Log | src/ledgerx/history/tax.rs:619-633 | the positions are unchanged and the events grow by the closes and the opened lot, in order |
| LxHistory.RunStops | src/ledgerx/history/mod.rs:292-399 | an import stops exactly at its first record that panics or errors, with that record's reason, and runs to the end when there is none |
| LxHistory.RunEntries | src/ledgerx/history/mod.rs:292-399 | every entry an import inserts comes from a record whose outcome is to insert exactly it, and there are no more entries than records |
| LxHistory.AbsorbMeaning | src/ledgerx/history/mod.rs:297-311 | after the inserts the event map holds the old times plus every inserted time; an inserted time holds the last event inserted at it, and other times keep their old event |
| LxHistory.RunPrefixStopped | src/ledgerx/history/mod.rs:332-360 | once an import has stopped, the records after the stop change nothing |
| LxHistory.Amount | src/ledgerx/history/mod.rs:300-304 | a bitcoin amount is read as sats (eight decimal places), a dollar amount as cents (two); ether panics as not implemented, and nothing else does |
| LxHistory.ExpirySizes | src/ledgerx/history/mod.rs:378-387 | the assigned and expired sizes always sum to minus the position size; a long position's assigned size is minus the assigned count, a short one's the assigned count |
| LxHistory.DepositOutcome | src/ledgerx/history/mod.rs:292-313 | a deposit panics exactly when its two asset fields disagree, it is ether, or its address does not parse; otherwise it is inserted at its creation time with its address, asset and amount in that asset's unit |
| LxHistory.WithdrawalOutcome | src/ledgerx/history/mod.rs:315-329 | a withdrawal panics exactly when it is ether; otherwise it is inserted at its creation time with its asset and amount in that asset's unit |
| LxHistory.TradeOutcome | src/ledgerx/history/mod.rs:332-361 | a trade stops the import exactly when its contract id is unknown; otherwise it is inserted at its execution time with that contract, the size signed by side (positive for a bid) and the price and fee in dollars from cents |
| LxHistory.PositionOutcome | src/ledgerx/history/mod.rs:363-399 | a position is skipped exactly when it has not settled, and never panics (the assertion always holds); a settled one is an expiry at its contract's expiry time whose sizes net it out |
| LxHistory.History.constructor | src/ledgerx/history/mod.rs:228-231 | a new history has no events |
| LxHistory.History.ImportDeposits | src/ledgerx/history/mod.rs:292-313 | the events become the old ones with each deposit before the first panicking one inserted in order; the import panics exactly when a deposit does, with its reason |
| LxHistory.History.ImportWithdrawals | src/ledgerx/history/mod.rs:315-329 | as for deposits, with ether the only panic |
| LxHistory.History.ImportTrades | src/ledgerx/history/mod.rs:332-361 | the trades before the first unknown contract are inserted in order and kept; the result is that contract's error, or success when every contract is known |
| LxHistory.History.ImportPositions | src/ledgerx/history/mod.rs:363-399 | every settled position is inserted in order as its expiry event; the import never stops |
| LxHistoryOld.DepositOutcome | src/ledgerx/history.rs:224-238 | a deposit panics exactly when it is ether, and is otherwise inserted at its creation time with its asset and amount in that asset's unit |
| LxHistoryOld.WithdrawalOutcome | src/ledgerx/history.rs:240-255 | a withdrawal panics exactly when it is ether, and is otherwise inserted at its creation time with its asset and amount |
| LxHistoryOld.TradeOutcome | src/ledgerx/history.rs:257-285 | a trade stops exactly on an unknown contract id; otherwise it carries the contract, the side-signed size and the price in dollars from cents |
| LxHistoryOld.PositionOutcome | src/ledgerx/history.rs:287-323 | an unsettled position is skipped, and a settled one is an expiry at its contract's expiry time whose sizes net it out |
| LxHistoryOld.History.constructor | src/ledgerx/history.rs:218-221 | a new history has no events |
| LxHistoryOld.History.ImportDeposits | src/ledgerx/history.rs:224-238 | the deposits before the first ether one are inserted in order; the import panics exactly when one is ether |
| LxHistoryOld.History.ImportWithdrawals | src/ledgerx/history.rs:240-255 | the withdrawals before the first ether one are inserted in order; the import panics exactly when one is ether |
| LxHistoryOld.History.ImportTrades | src/ledgerx/history.rs:257-285 | the trades before the first unknown contract are inserted in order and kept; the error names that contract |
| LxHistoryOld.History.ImportPositions | src/ledgerx/history.rs:287-323 | every settled position is inserted in order as its expiry event, and the import never stops |
| LxHistoryOld.VersionsAgree | src/ledgerx/history.rs:224-285 | a deposit the newer version accepts has the same amount and asset in the older one, and a trade stops in one version exactly when it stops in the other, with the same contract, price and size |
| Transactions.FirstPaying | src/transaction.rs:76-80 | the output found is the first from the given index on that pays exactly the amount to the script; none is found only when no later output does |
| Transactions.ScanFor | src/transaction.rs:75-82 | the result is a listed transaction and its first output paying the amount to the script; nothing is found only when no listed transaction has such an output |
| Transactions.Database.constructor | src/transaction.rs:28-36 | a new database holds no transactions |
| Transactions.Database.InsertTx | src/transaction.rs:56-63 | the transaction and timestamp are stored under its txid, replacing any entry there; the old timestamp is returned exactly when the txid was already stored |
| Transactions.Database.FindTxForDeposit | src/transaction.rs:65-83 | the nested scan returns the first hash-map-order transaction with an output paying the amount to the address's script, with its first such output; it returns none exactly when no stored transaction has such an output |
| Transactions.Database.FindTxout | src/transaction.rs:85-99 | an output is returned exactly when the txid is stored and the index is below its output count; it is that output, with the stored timestamp as its time |
| LxCsv.AfterNext | src/ledgerx/csv.rs:165-179 | the scan state after one more character is one loop step from the state before it (backslash sets escape, an unescaped quote toggles quoting, any other character after a backslash clears escape) |
| LxCsv.FirstSplitFrom | src/ledgerx/csv.rs:167-179 | the position found is the first from the start index on where an unescaped separator outside quotes ends the field; none is found only when no later position does |
| LxCsv.SplitNext | src/ledgerx/csv.rs:160-184 | nothing is yielded exactly for the empty input; otherwise the input is the field, the separator and the rest, or the whole input is the field and nothing remains; the rest is always shorter than the input |
| LxCsv.CsvIter.constructor | src/ledgerx/csv.rs:151-156 | the iterator starts with the whole string and the given separator |
| LxCsv.CsvIter.Next | src/ledgerx/csv.rs:158-184 | with the cut made at the separator's character position (the corrected half of the csv.rs Finding; `LxCsv.NextAsWritten` cuts at the byte offset as written): the loop yields nothing on empty input; otherwise it yields the part before the first separator that is outside quotes and not escaped, and keeps what follows it; with no such separator it yields everything and keeps nothing |
| LxCsv.FieldHasNoSplit | src/ledgerx/csv.rs:160-184 | a yielded field holds no separator that would end it |
| LxCsv.JoinFields | src/ledgerx/csv.rs:35 | joining the collected fields with the separator gives the input back, or the input minus a trailing separator |
| LxCsv.TrailingSeparatorDropped | src/ledgerx/csv.rs:160-184 | a quoted comma stays in its field with the quotes, and of two trailing commas only the last is dropped |
| LxCsv.NextAsWritten | src/ledgerx/csv.rs:167-175 | as written, with the character count used as a byte offset, empty input yields nothing, and what remains after a field is always shorter than the input |
| LxCsv.NthOfFields | src/ledgerx/csv.rs:129-131 | when collecting the iterator as written does not panic, `nth(k)` does not either, and yields the `k`-th collected field, or nothing when there are at most `k` fields |
| LxCsv.AsciiFieldsAgree | src/ledgerx/csv.rs:35 | on ASCII text, collecting the iterator as written gives exactly the intended fields, without a panic |
| LxCsv.AsciiNthAgrees | src/ledgerx/csv.rs:129-131 | on ASCII text, `nth(k)` as written is the intended `k`-th field, or nothing |
| LxCsv.AsciiFields | src/ledgerx/csv.rs:35 | every field of ASCII text is ASCII |
| LxCsv.AsciiCutsAgree | src/ledgerx/csv.rs:167-175 | on ASCII text the cut as written is exactly the intended one |
| LxCsv.MisplacedCut | src/ledgerx/csv.rs:167-175 | on é a , b the intended field is é a, but the cut as written yields é and leaves , b |
| LxCsv.Trim1 | src/ledgerx/csv.rs:51-58 | a string shorter than two bytes is kept; otherwise the result is the string without its first and last characters, and it panics only when the first or last character takes more than one byte |
| LxCsv.Trim1Ascii | src/ledgerx/csv.rs:51-58 | on ASCII text `trim1` never panics: a string shorter than two is kept, a longer one loses exactly its first and last characters, and the result is ASCII |
| LxCsv.RemoveCharDrops | src/ledgerx/csv.rs:113-117 | the filtered quantity holds no character that was filtered out |
| LxCsv.PriceRefMeaning | src/ledgerx/csv.rs:34-143 | over the fields of the iterator as written: a panicking split panics the call; a line without ten fields is an error; a 2021 line that is not Exercised, or a 2022 line that is not a 1256-option exercise or is of plain BTC, is no price reference; a panic needs ten fields and a line of either format; an exercise is built only from the fields and description words its format names (the 2021 quantity is the first word less its last character, the 2022 quantity is stripped of commas and quotes) |
| LxCsv.PriceRef2021Meaning | src/ledgerx/csv.rs:61-101 | a line that is not Exercised is no price reference; an exercise comes from a description that unquotes and splits into six words, its strike the sixth, its date and basis the third and sixth fields, a call iff the description says Call |
| LxCsv.PriceRef2022Meaning | src/ledgerx/csv.rs:104-143 | a line that is not a 1256-option exercise, or is of plain BTC, is no price reference; an exercise takes its strike from the fourth dash-separated part of the contract, its date and basis from the fifth and eighth fields, and its quantity holds no comma or quote |
| LxCsv.PriceRefAscii | src/ledgerx/csv.rs:34-101 | on an ASCII line every cut falls where intended: the line splits into the intended fields, and the call panics exactly for a 2021 Exercised line whose six-word description starts with an empty word |
| LxCsv.PriceRefPanicsOnEuro | src/ledgerx/csv.rs:34-38 | the line `€,b,c,d,e,f,g,h,i,j` panics while it is split: the comma is the second character, and byte 1 is inside the three-byte `€` |
| Prices.Rounded | src/units/price.rs:62-63 | the plain display rounds to exactly two decimal places |
| Prices.DisplayShape | src/units/price.rs:61-65 | the plain display always ends in a point and two digits |
| Prices.DisplayAscii | src/units/price.rs:61-65 | the plain display is ASCII text |
| Prices.DisplayReadsBack | src/units/price.rs:34-65 | parsing the plain display gives back the price rounded to cents |
| Prices.RoundedExact | src/units/price.rs:62-63 | a price with at most two decimals is displayed at its exact value |
| Prices.RoundedClose | src/units/price.rs:62-63 | a price with more decimals is displayed within half a cent of its value |
| Prices.DisplayDigits | src/units/price.rs:61-65 | the plain display of at least a dollar is the digits of the cents count with a point before the last two |
| Prices.DisplayExample1 | src/units/price.rs:93 | 123 displays as "123.00" |
| Prices.DisplayExample2 | src/units/price.rs:94 | 123.4 displays as "123.40" |
| Prices.DisplayExample3 | src/units/price.rs:95 | 123.04 displays as "123.04" |
| Prices.ParseExamples | src/units/price.rs:82-89 | "123" and "123.45" parse; "123xy", "$1000", "$1,000" and "1,000" are refused |
| Prices.CentsOf | src/units/price.rs:51 | the cents of the alternate display are below 100 |
| Prices.TruncatedToCents | src/units/price.rs:49-52 | whole dollars and cents together are the price truncated to the cent |
| Prices.AltDisplayPanicsExactly | src/units/price.rs:44-52 | the alternate display panics exactly above a billion dollars or below zero |
| Prices.GroupedDigits | src/units/price.rs:53-59 | of the corrected, zero-padded grouping (the intended half of the price.rs Finding, not the code as written): with the separators removed, the grouped integer part is the digits of the whole dollars |
| Prices.GroupedGroups | src/units/price.rs:53-59 | of the corrected, zero-padded grouping (not the code as written, whose later groups are unpadded): every group after the first has three digits |
| Prices.AltDisplayMeaning | src/units/price.rs:44-60 | of the corrected alternate display (the intended half of the price.rs Finding; `Prices.AltDisplayAsWritten` is the code as written): the display, separators removed, is a dollar sign, the whole dollars, a point and two digits of truncated cents |
| Prices.GroupsOfMillions | src/units/price.rs:53-59 | an amount of at least a million dollars splits into three groups; as written the inner groups are not padded |
| Prices.GroupsOfThousands | src/units/price.rs:56-59 | an amount between a thousand and a million dollars splits into two groups; as written the last is not padded |
| Prices.WholeDollars | src/units/price.rs:44-60 | a whole amount below a billion displays as its groups followed by ".00" |
| Prices.CentsAmount | src/units/price.rs:44-60 | an amount with cents displays as its groups, a point and two cents digits |
| Prices.AltDisplayDropsZeros | src/units/price.rs:56-59 | 1005000 displays as "$1,5,0.00" and 1000 as "$1,0.00" as written; the padded rendering gives "$1,005,000.00" and "$1,000.00" |
| Prices.AltDisplaysAgreeBelowThousand | src/units/price.rs:53-59 | below a thousand dollars there is no separator and the written and padded renderings are equal |
| Prices.AltDisplayOf25000 | src/units/price.rs:53-59 | 25000 displays as "$25,0.00" as written and "$25,000.00" padded |
| Prices.AltDisplayExample1 | src/units/price.rs:99 | 123456789 displays as "$123,456,789.00" in both renderings |
| Prices.AltDisplayExample2 | src/units/price.rs:100 | 1234567.89 displays as "$1,234,567.89" in both renderings |
| Prices.AltDisplayExample3 | src/units/price.rs:101 | 34567.09 displays as "$34,567.09" in both renderings |
| Options.SpellingsAgree | src/option.rs:36-52 | the one-letter form of put/call is the first letter of its word, and each spelling tells put from call |
| Options.FromStrFields | src/option.rs:77-99 | a symbol parses exactly when it is ASCII, has at least 12 characters, a parsable date in its first ten, 'C'/'c'/'P'/'p' after them and a parsable strike after that; non-ASCII and too-short inputs report those errors first |
| Options.FromStrDisplay | src/option.rs:65-99 | a displayed option reads back with the same expiry day and put/call, and its strike rounded to cents |
| Options.InTheMoneyIffIntrinsicValue | src/option.rs:135-175 | an option is in the money exactly when its intrinsic value is not negative; a call is worth price minus strike and a put strike minus price |
| Options.AtTheMoney | src/option.rs:130-141 | exactly at the strike both a call and a put count as in the money |
| OptionSales.MaxSaleCost | src/option.rs:176-203 | calls lock no cash and sell what the coins cover; a put priced above its strike sells nothing; otherwise the cash locked per 100 is strike minus sale price plus $25 and the count comes from that ratio |
| UtcTime.ParseOptionExpiry | src/units/utc_time.rs:91-98 | an expiry date that parses is read as 21:00:00 UTC |
| UtcTime.ParseOptionExpiryOfFormat | src/units/utc_time.rs:91-98 | every `%F` date of the years 0 to 9999 reads back as 21:00 UTC of that same day |
| UtcTime.DaysFromCivilInverse | src/units/utc_time.rs:134-147 | the calendar date of a day number leads back to that day number |
| UtcTime.FormatSameSecond | src/units/utc_time.rs:129-132 | two times in the same second format the same to the second |
| Contracts.TaxAssetOf | src/ledgerx/contract.rs:113-126 | a contract has a tax asset unless it is a future or an ether day-ahead swap |
| Contracts.BudgetAssetOf | src/ledgerx/contract.rs:128-141 | a contract has a budget asset unless it is a future or an ether day-ahead swap |
| Contracts.AsOption | src/ledgerx/contract.rs:199-207 | exactly option contracts give an option, and it expires when the contract does |
| Contracts.AssetViewsAgree | src/ledgerx/contract.rs:97-141 | the asset view panics exactly for futures, agrees with the tax asset wherever one exists, the budget asset is the tax asset's budget conversion, and a day-ahead swap is its underlying |
| Contracts.TryFromErrors | src/ledgerx/contract.rs:165-197 | each missing field is reported in the order expiry, exercise date, type, strike, and a record lacking none of the fields its kind needs is accepted |
| Contracts.TryFromFields | src/ledgerx/contract.rs:165-197 | an accepted record keeps its id, activity, underlying, label and multiplier, expires at its expiry date, has no log date, and has the kind, exercise date, strike and put/call the record names |
| CreateOrders.NewInternalAsWritten | src/ledgerx/json.rs:399-418 | as written, an order is built exactly for an option contract and a number of contracts; any other quantity, zero included, panics |
| CreateOrders.ZeroQuantityPanics | src/ledgerx/json.rs:373-418 | a zero quantity on an option contract panics as written, though the documentation accepts it; the corrected constructor builds the order |
| CreateOrders.NewInternalMeaning | src/ledgerx/json.rs:373-418 | the corrected constructor panics exactly for a non-option contract or a bitcoin quantity, agrees with the code wherever the code succeeds, and builds a limit order with an undisclosed purpose for that contract, side, size and price in cents |
| CreateOrders.NewBid | src/ledgerx/json.rs:381-384 | a bid is priced at the cents of the price rounded down, and panics exactly as the corrected constructor does |
| CreateOrders.NewAsk | src/ledgerx/json.rs:394-397 | an ask is priced at the cents of the price rounded up, and panics exactly as the corrected constructor does |
| CreateOrders.NewAskExample | src/ledgerx/json.rs:437-455 | 100 contracts asked at $100 give the limit order of size 100 at 10000 cents that the source's test expects |
| CreateOrders.DisplayReadsBack | src/ledgerx/json.rs:421-429 | the display splits at spaces into its six words, and it fixes the contract id, size and price |
| CreateOrders.DisplayIsJoin | src/ledgerx/json.rs:421-429 | the display is its words joined by single spaces |
| LxJson.StatusTypeOf | src/ledgerx/json.rs:98-120 | a status code is accepted exactly when it is one of the fifteen known codes, and then it is that status's code; any other reports "unknown status type" with the number |
| LxJson.StatusTypeRoundTrip | src/ledgerx/json.rs:98-120 | every status reads back from its code, so no two statuses share a code |
| LxJson.StatusReasonOf | src/ledgerx/json.rs:130-140 | exactly 0, 52 and 53 are accepted, each as the reason with that code; any other reports "unknown status reason" with the number |
| LxJson.StatusReasonRoundTrip | src/ledgerx/json.rs:130-140 | every reason reads back from its code |
| Lots.LotIndex.constructor | src/ledgerx/history/lot.rs:30 | the process-wide lot counter starts at one |
| Lots.LotIndex.NextBtc | src/ledgerx/history/lot.rs:56-59 | a bitcoin id is "lx-btc-" and the counter padded to four digits, and the counter moves on by one |
| Lots.LotIndex.NextOpt | src/ledgerx/history/lot.rs:62-65 | an option id is "lx-opt-" and the same counter padded to four digits, and the counter moves on by one |
| Lots.GeneratedIdsDistinct | src/ledgerx/history/lot.rs:30-65 | two generated ids are equal only for the same prefix and counter value, so no two draws give the same id |
| Lots.FromOutpoint | src/ledgerx/history/lot.rs:73-75 | an outpoint id is never empty |
| Lots.OutpointIdsNotGenerated | src/ledgerx/history/lot.rs:56-75 | an id taken from an outpoint never equals a generated id |
| Lots.OutpointIdVout | src/ledgerx/history/lot.rs:73-75 | for the same txid, the outpoint id determines the output index |
| Lots.FromDeposit | src/ledgerx/history/lot.rs:121-135 | a deposit lot is bitcoin with the outpoint's id, its amount, price and date, sorted a hundred years of days later; an amount beyond the signed range panics |
| Feed.FromJson | src/ledgerx/datafeed.rs:46-73 | a non-object is an error; an object not marked as a customer limit order is no order; a missing or non-boolean `is_ask` is an error; a read order has the side `is_ask` names, the size and contract id read, and the price in cents divided by 100 |
| Feed.FromJsonComplete | src/ledgerx/datafeed.rs:46-73 | a limit order whose `is_ask` and three numbers read is always an order, and an error in any number or in `is_ask` is always an error |
| Feed.CancelledAskExample | src/ledgerx/datafeed.rs:80-95 | the feed's cancelled ask reads as an ask of size 0 at price 0 for contract 22256362 |
| Interesting.RankInjective | src/ledgerx/interesting.rs:90-109 | the derived order numbers the five levels without collisions |
| Interesting.InvertMeaning | src/ledgerx/interesting.rs:111-122 | inverting is an involution that mirrors the ranking about "not interesting", which is its only fixed point |
| Interesting.BidInterest | src/ledgerx/interesting.rs:273-299 | a bid is never matched; it is not interesting exactly when its loss80 is above 0.1, its volatility below 0.7 or, for a put, its return below 0.04; it is taken exactly when loss80 is below 0.05, volatility above 0.85 and, for a put, return above 0.05 |
| Interesting.AskInterest | src/ledgerx/interesting.rs:301-319 | an ask is the inverted verdict on the same figures read as a bid: never taken, and matched exactly when the bid would be taken |
| Interesting.BidInterestMonotone | src/ledgerx/interesting.rs:282-299 | lower loss80, higher volatility and higher return never lower a bid's verdict |
| CsvPrint.TupleIsJoin | src/csv.rs:159-176 | a tuple prints as its columns joined by single commas, with no comma before the first or after the last |
| CsvPrint.TupleColumns | src/csv.rs:159-176 | columns with no comma of their own are recovered exactly by splitting the printed tuple at commas |
| CsvPrint.PrintStringQuotes | src/csv.rs:141-153 | a string with a comma is wrapped in one pair of double quotes, two characters longer, with the string unchanged between them; one without a comma prints verbatim |
| CsvPrint.PrintOption | src/csv.rs:193-200 | an absent value prints as the empty column |
| CsvPrint.PrintIvColumns | src/csv.rs:57-67 | a failed implied-volatility computation prints as the quoted text free money; a successful one as its number |
| CsvPrint.BudgetAssetColumns | src/csv.rs:83-100 | a budget asset always fills three columns (empty, BTC/ETH/USD, empty for the coins; expiry, put-or-call letter and strike for a BTC option) and panics exactly for an option whose underlying is not BTC |
| CsvPrint.DateTimeNoComma | src/csv.rs:47-55 | the date-and-time column (`%FT%T.%fZ`) never holds a comma, so it is one column |
| CsvPrint.DayNoComma | src/csv.rs:36-45 | the date-only column (`%F`) never holds a comma |
| CsvPrint.DisplayNoComma | src/csv.rs:137 | a price prints without thousands separators, so it is one column |
| CsvPrint.PrintQuantity | src/csv.rs:102-112 | a cents quantity prints as text that reads back as exactly that many cents, negative amounts included (the corrected form, see Findings) |
| CsvPrint.CentsAgreeNonnegative | src/csv.rs:107 | the cents printer as written and the corrected one agree on every amount that is not negative |
| CsvPrint.CentsMinusTwice | src/csv.rs:107 | as written, -150 cents prints as -1.-50; the corrected printer gives -1.50 |
| CsvPrint.CentsTextReadsBack | src/csv.rs:107 | the corrected cents text parses back as a decimal equal to the cents at scale 2 |
| CsvPrint.PrintTaxAsset | src/csv.rs:114-120 | a tax asset prints as its display name in double quotes, and panics exactly where its name does |
| Assets.BitcoinLikeOr1256 | src/units/asset.rs:97-115 | every tax asset is exactly one of bitcoin-like (spot or day-ahead) and section 1256 (an option) |
| Assets.TaxConversionsCommute | src/units/asset.rs:117-228 | converting a tax asset to an asset directly or through the budget kinds agrees except for day-ahead swaps, which the budget kinds fold into bitcoin |
| Assets.DepositConversionsCommute | src/units/asset.rs:70-78 | the two conversions of a deposit kind disagree only on ether, which counts as bitcoin as an asset but as ether as a budget |
| Assets.ConversionsKeepOptions | src/units/asset.rs:117-125 | each conversion of an option keeps its underlying and its contract |
| Assets.UnderlyingNames | src/units/asset.rs:242-258 | the names of the underlyings tell them apart and agree with the asset each converts to |
| Assets.TaxAssetName | src/units/asset.rs:127-146 | the display of a tax asset panics exactly for an option whose strike is negative or above a billion dollars; its strike is printed with `{:#}` as written |
| Assets.TaxAssetNameIntended | src/units/asset.rs:127-146 | the same display with the padded strike panics in exactly the same cases |
| Assets.TaxAssetNamesAgree | src/units/asset.rs:127-146 | the written and padded names panic alike, share the underlying, expiry and put-or-call prefix and differ only in the strike text, and are equal for every asset but an option struck at a thousand dollars or more |
| Assets.TaxAssetNameRoundThousands | src/units/asset.rs:133-140 | a $25,000 bitcoin call is named ending in "Call $25,0.00" as written, where the padded name ends in "Call $25,000.00" |
| Assets.TaxAssetNameBtc | src/units/asset.rs:127-146 | a tax asset displays as "BTC" exactly when it is bitcoin-like, with the strike rendered as written or padded |
| Assets.MonthNames | src/units/asset.rs:158-175 | exactly months 1 to 12 have a name, each three letters, no two alike |
| Assets.TaxAssetName2022Total | src/units/asset.rs:149-181 | the 2022 display never reaches its invalid-month panic, and it is "BTC" exactly for bitcoin-like assets |
| Quantities.Abs | src/units/quantity.rs:43-50 | the absolute value is nonnegative |
| Quantities.FromAmount | src/units/quantity.rs:118-122 | an unsigned amount converts to that many satoshis exactly when it fits the signed 64-bit range, and panics otherwise |
| Quantities.NegInvolution | src/units/quantity.rs:124-136 | negation is an involution, fixes only zero, keeps the unit and the absolute value |
| Quantities.AbsIdempotent | src/units/quantity.rs:43-50 | the absolute value is idempotent, is the quantity or its negation, and keeps nonzero-ness |
| Quantities.SignPredicates | src/units/quantity.rs:52-79 | positive means nonzero and nonnegative; zero is nonnegative but neither positive nor nonzero; a quantity or its negation is nonnegative |
| Quantities.SameSignSymmetric | src/units/quantity.rs:81-100 | same-sign and same-unit are symmetric and zero agrees with everything on both |
| Quantities.AddAsWrittenAccepts | src/units/quantity.rs:138-155 | the written addition has zero as left identity and succeeds exactly on same-unit pairs whose right operand is not a lone zero |
| Quantities.AddZeroOnTheRight | src/units/quantity.rs:138-162 | an amount of bitcoin plus zero (and minus zero) panics as written, though the two share a unit; the intended addition returns the amount |
| Quantities.AddSameUnit | src/units/quantity.rs:92-155 | the intended addition is defined exactly on same-unit pairs, commutes, has zero as identity on both sides, and keeps the unit |
| Quantities.SubSelf | src/units/quantity.rs:157-162 | a quantity minus itself never panics and is not nonzero, both for the subtraction as written (the written `+` of the negation) and for the intended one |
| Quantities.AddRefinesAsWritten | src/units/quantity.rs:138-155 | wherever the written addition succeeds, the intended one gives the same result |
| Quantities.SumSmall | src/units/quantity.rs:176-190 | the sum of nothing is zero and the sum of one quantity is that quantity, for the fold of the written `+` and of the intended one |
| Quantities.SumOfContracts | src/units/quantity.rs:176-190 | a non-empty sum of contract counts, folding the written `+`, is the count of their total and never panics |
| Quantities.SumZeroAfterBitcoin | src/units/quantity.rs:140-183 | summing a bitcoin amount and then zero panics as written, while the fold of the intended addition gives the amount |
| Quantities.SumRefinesAsWritten | src/units/quantity.rs:176-183 | wherever the sum as written succeeds, the sum with the intended addition gives the same total |
| Quantities.SetAssetUnits | src/units/quantity.rs:194-205 | a bare number takes a unit exactly for bitcoin (non-negative) and options, as satoshis or contracts; dollars and ether panic |

## Left out

- Input and output are not modelled. That covers files, directories, JSON (de)serialisation, HTTP requests to the exchange, the Prowl notification and logging. Files appear as sequences of lines or lists of records; a directory is a list of (name, prices) pairs in listing order.
- The logging and printing functions are left out, since they only write to the log or the terminal: `log_interesting_orders`, `log_bid_if_interesting`, `log_ask_if_interesting`, `log_interesting_contracts`, `log_interesting_contract`, `log_open_orders`, `log_option_data`, `log_order_data`, `History::print_csv` and `print_tax_csv`.
- The history fetch functions are left out (`from_api`, `fetch_contract_ids`, `store_contract_ids`, `next_url`), because they are network paging.
- Floating point is not modelled: `arr`, `years_to_expiry`, the Black-Scholes functions, `scale_approx` and the float figures of the interestingness scale. The interestingness inputs are taken as reals, and NaN is not modelled. The ARR column printer is left out.
- `PriceRef2021` / `PriceRef2022` classify the line and return the texts an exercise is computed from; parsing those texts (quantity, strike, RFC 3339 date, basis) and the float arithmetic of the price reference are not modelled, so the parse errors after the classification are missing.
- SampledAreSlotStarts, Slot and Historic.ReadCsv follow a build without overflow checks, where the `u8` slot of `read_csv` wraps modulo 256; a debug build panics on that overflow instead, from 21:20 UTC on, and the model has no such panic.
- Other fixed-width integer overflow is not modelled. This covers i64 and u64 arithmetic on sizes, cents and sats, and the 96-bit mantissa and 28-digit limit of `rust_decimal` (an unbounded mantissa). The i64 range is modelled only where the source parses or converts: the CSV timestamp and `i64::try_from` of a close quantity.
- `lx_sort_events` is left out: its comparator is not a total order (unequal dates compare equal), so the result of the stable sort is unspecified.
- Running several threads is not modelled; the atomic counters are plain state.
- These are parameters whose results are not constrained: `Transaction::txid`, `Address::from_str`, `script_pubkey`, `unique_expiry_date`, `round_up`, `round_down`, `to_cents`, `Price::to_int`, `contracts_from_btc`, `contracts_from_ratio`, `times_option_qty`, the JSON number parser, the bitcoin library's amount display and Decimal division in `Lot::from_trade`.
- OwnOrders.Tracker.InsertOrder: `UnknownQuantity::with_asset_trade` (called at src/ledgerx/own_orders.rs:75, 95, 110 and 122, and at src/ledgerx/mod.rs:118) is not part of this model, since its definition is in none of the modelled files. The model takes it never to panic and to keep a zero size zero, so a fill is tested on the raw filled size, and the only panic is that of `contract.asset()` for a future. `LxState.InsertOrderMeaning` and `LxState.LedgerX.InsertOrder` inherit this assumption through the own-order update.
- Quantities.SetAsset: the `match` of `set_asset` (src/units/quantity.rs:195-204) names only `Btc`, `Eth`, `Usd` and `Option`, while the `Asset` enum of src/units/asset.rs:31-50 also has `NextDay` and `Future`; the model adds a panic for those two to make the match total.
- Decimals.Parse refuses `_`, which `rust_decimal`'s `from_str` skips as a digit separator; the model reads plain digits only, a simplification of the crate like the unbounded mantissa below.
- `max_sale`, as `BookState::clear_bids` calls it (src/ledgerx/book.rs:101), is a parameter returning a count: book.rs takes a `u64` from it, while the `max_sale` of src/option.rs:186-203 (modelled as `OptionSales.MaxSale`) returns a `Quantity`, so the two versions do not fit together and `Books.Step`, `Books.ClearFrom` and `Books.BookState.ClearBids` constrain the count only by its use.
- `OffsetDateTime` parsing and formatting are modelled only for the formats used (`%F`, `%FT%T.%fZ`, `%FT%H:%M:%S`, and the option expiry date read with `%F` and fixed at 21:00). The calendar uses the days-from-civil algorithm, proved in one direction only (`UtcTime.DaysFromCivilInverse`).
- LxCsv.PriceRef takes `char::is_numeric` as the ASCII digits, so a first field of other Unicode numerals is read in the 2021 format, where the source reads it in the 2022 format.
- Option construction (`new_call`, `new_put`) is covered through the contract `TryFrom` and option `FromStr` paths that call them.
- `BookState`s inside `LxState.LedgerX` are values in a map rather than shared objects. `initialize_orderbooks` takes its orders already converted to book records.
- `PriceTracker.Reference` keeps the last nonzero best bid and best ask, as the code does. Its documentation says an empty side counts as 0.
- `Books.BookState.ClearBids` walks the bids from the lowest key up, which is the order the code iterates in, not best price first.
- The own-order tracker's Prowl post is left out. Only its condition, a fill of a size-zero order, is modelled (`OwnOrders.Tracker.InsertOrder`).
- `Historic::len`, `Position::total_size` and the accessors carry no contract of their own. They feed the lemmas that use them (`PriceHistory.InsertOrdered`, `Tax.PushEventTotal`).
- `TimeMaps.TimeMap.MostRecent`: its own contract states only that the result is an entry before the time. `TimeMaps.LastBeforeIsGreatest` carries the rest: the greatest such time, and the last inserted entry at it.
- `Tax.Position.Holding` is a constructor of the model, not of the source. PushLot uses it to carry a label's queue, which the source keeps as a value in its map.

## Findings

The tax asset's name, `Sum`, the price reader's slot and the splitting of
`price_ref` keep the code as written, since they feed the tax report, the
totals, the price store and the price references. Their corrected forms,
`Assets.TaxAssetNameIntended`, `Quantities.SumIntended`,
`PriceHistory.SlotIntended` and `LxCsv.Fields`, sit beside them.

| source | as written | input that shows it | evidently intended | confidence | as-written member | corrected member |
|---|---|---|---|---|---|---|
| src/ledgerx/csv.rs:167-175 | the character count `n` of the separator is used as a byte offset into `remaining` | `éa,b` yields `é`, leaving `,b`; a `price_ref` line starting `€,` panics (`LxCsv.PriceRefPanicsOnEuro`) | split at the separator's character position: `éa`, then `b` | not executed | LxCsv.MisplacedCut | LxCsv.CsvIter.Next |
| src/units/price.rs:53-59 | the thousands groups after the first are printed with `{}`, not zero padded | 1005000 displays as `$1,5,0.00`; a $25,000 bitcoin call is named in the tax report with the strike `$25,0.00` | `$1,005,000.00` and `$25,000.00` | not executed | Prices.AltDisplayDropsZeros | Prices.AltDisplayMeaning |
| src/csv.rs:107 | `{}.{:02}` of `n / 100` and `n % 100` with truncating division puts a sign on both parts | -150 cents prints as `-1.-50` | `-1.50` | not executed | CsvPrint.CentsMinusTwice | CsvPrint.CentsTextReadsBack |
| src/units/quantity.rs:140-153 | only a zero on the left is an identity; `x + Zero` for nonzero `x` falls into the panic arm, and so does `x - Zero`; `Sum` folds this `+` | `Bitcoin(1) + Zero` panics, and so does the sum of `Bitcoin(1)` and `Zero` | `Bitcoin(1)`, as `has_same_unit` calls zero compatible with every unit | not executed | Quantities.AddZeroOnTheRight | Quantities.AddSameUnit |
| src/price.rs:123-124 | `12 * hour + minute / 5` is computed in `u8`, which passes 255 from 21:20 UTC | a file whose first line is at 21:22 UTC: its slot wraps to 0, the starting value, so the trade is not sampled (a debug build panics on the overflow) | the 5-minute slot 0..287 of the day | not executed | PriceHistory.SlotWrapsAtNight | PriceHistory.SlotIntendedMeaning |
| src/ledgerx/json.rs:399-409 | `new_internal` panics on any quantity but `Contracts(n)`, though the documentation of `new_bid` and `new_ask` accepts Zero | `new_bid(option, Zero, price)` panics | an order of size 0 | not executed | CreateOrders.ZeroQuantityPanics | CreateOrders.NewInternalMeaning |
