// ledgerx/price_tracker.rs: a bitcoin price reference kept from the best bid
// and ask of a day-ahead swap's book.
module PriceTracker {
  import opened Decimals
  import opened UtcTime
  import opened Feed
  import Books
  import PriceHistory

  /** `Reference`. */
  class Reference {
    var book: Books.BookState
    var lastBestBid: Decimal
    var lastBestAsk: Decimal
    var lastUpdate: Time

    ghost predicate Valid()
      reads this, book
    {
      book.Valid()
    }

    /** `Reference::new`: an empty book, both sides quoted at the starting price, updated at its time. */
    constructor (start: PriceHistory.BitcoinPrice)
      ensures Valid() && fresh(book) && book.bids == [] && book.asks == []
      ensures lastBestBid == start.btcPrice && lastBestAsk == start.btcPrice && lastUpdate == start.timestamp
    {
      book := new Books.BookState();
      lastBestBid := start.btcPrice;
      lastBestAsk := start.btcPrice;
      lastUpdate := start.timestamp;
    }

    /** `reference`: the midpoint of the last best bid and ask, and when they were last updated. */
    function Reference(): (r: (Decimal, Time))
      reads this
      ensures Value(r.0) == (Value(lastBestBid) + Value(lastBestAsk)) / 2.0 && r.1 == lastUpdate
    {
      (Half(Add(lastBestBid, lastBestAsk)), lastUpdate)
    }

    /**
     * `insert_order`: the order goes into the book; then a nonzero best bid
     * or best ask of the book becomes the last one, and `now` the update
     * time, while a side with no bids (or no asks) keeps its last quote.
     */
    method InsertOrder(o: LiveOrder, now: Time)
      requires Valid()
      modifies this, book
      ensures Valid() && book == old(book)
      ensures if o.bidAsk == Bid then book.bids == Books.InsertSide(old(book.bids), o) && book.asks == old(book.asks)
        else book.asks == Books.InsertSide(old(book.asks), o) && book.bids == old(book.bids)
      ensures var bid, ask := Books.TopBid(book.bids).0, Books.TopAsk(book.asks).0;
        lastBestBid == (if !IsZero(bid) then bid else old(lastBestBid)) &&
        lastBestAsk == (if !IsZero(ask) then ask else old(lastBestAsk)) &&
        lastUpdate == (if !IsZero(bid) || !IsZero(ask) then now else old(lastUpdate))
      ensures !IsZero(old(lastBestBid)) ==> !IsZero(lastBestBid)
      ensures !IsZero(old(lastBestAsk)) ==> !IsZero(lastBestAsk)
    {
      book.InsertOrder(o);
      var (bid, _) := book.BestBid();
      var (ask, _) := book.BestAsk();
      if !IsZero(bid) {
        lastBestBid := bid;
        lastUpdate := now;
      }
      if !IsZero(ask) {
        lastBestAsk := ask;
        lastUpdate := now;
      }
    }

    /** `clear_book`: a fresh empty book; the last quotes and their time are kept. */
    method ClearBook()
      modifies this
      ensures Valid() && fresh(book) && book.bids == [] && book.asks == []
      ensures lastBestBid == old(lastBestBid) && lastBestAsk == old(lastBestAsk) && lastUpdate == old(lastUpdate)
    {
      book := new Books.BookState();
    }
  }
}
