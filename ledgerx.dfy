// ledgerx/mod.rs: the tracker of every LedgerX contract and its book, our
// own orders and our balances, fed order by order.
module LxState {
  import opened Wrappers
  import opened Decimals
  import opened Feed
  import opened Books
  import opened Assets
  import opened Contracts
  import OwnOrders
  import PriceHistory

  datatype UpdateResponse = Accepted | UnknownContract(order: LiveOrder) | NonBtcOrder | AcceptedBtc

  /** The two sides of one book, as values. */
  datatype Sides = Sides(bids: seq<LiveOrder>, asks: seq<LiveOrder>)

  /** Everything `insert_order` reads or writes: contracts with their books, and our own orders. */
  datatype View = View(contracts: map<nat, (Contract, Sides)>, myId: Option<nat>, own: map<nat, LiveOrder>)

  function InsertSides(s: Sides, o: LiveOrder): Sides
  {
    if o.bidAsk == Bid then Sides(InsertSide(s.bids, o), s.asks) else Sides(s.bids, InsertSide(s.asks, o))
  }

  const FuturePanic := "not implemented: futures"

  /**
   * `LedgerX::insert_order` on values: an unknown contract and a non-bitcoin
   * underlying are reported and change nothing; an order with a customer id
   * is first given to the own-order tracker; then the order goes into its
   * contract's book, and the answer says whether that contract's asset is
   * bitcoin.  A future panics when its asset is asked for.
   */
  function InsertOrderSpec(v: View, o: LiveOrder): Checked<(View, UpdateResponse)>
  {
    if o.contractId !in v.contracts then Done((v, UnknownContract(o)))
    else
      var (c, sides) := v.contracts[o.contractId];
      if c.underlying != Underlying.Btc then Done((v, NonBtcOrder))
      else if c.ty.Future? then Panic(FuturePanic)
      else
        var own := if o.customerId.Some? then OwnOrders.NextMap(v.own, o) else v.own;
        var myId := if o.customerId.Some? then OwnOrders.NextMyId(v.myId, o) else v.myId;
        Done((View(v.contracts[o.contractId := (c, InsertSides(sides, o))], myId, own),
              if c.ty.NextDay? then AcceptedBtc else Accepted))
  }

  /**
   * What `insert_order` promises: unknown contracts and other underlyings are
   * no-ops; otherwise only the order's own contract's book changes, and only
   * as the book's `insert_order` says; our own orders change only for an
   * order with a customer id; the answer is `AcceptedBtc` exactly for a
   * day-ahead swap; and the contracts themselves are never added or removed.
   */
  lemma InsertOrderMeaning(v: View, o: LiveOrder)
    ensures o.contractId !in v.contracts ==> InsertOrderSpec(v, o) == Done((v, UnknownContract(o)))
    ensures o.contractId in v.contracts && v.contracts[o.contractId].0.underlying != Underlying.Btc ==>
      InsertOrderSpec(v, o) == Done((v, NonBtcOrder))
    ensures InsertOrderSpec(v, o).Panic? <==>
      o.contractId in v.contracts && v.contracts[o.contractId].0.underlying == Underlying.Btc &&
      v.contracts[o.contractId].0.ty.Future?
    ensures InsertOrderSpec(v, o).Done? ==>
      var (w, resp) := InsertOrderSpec(v, o).value;
      w.contracts.Keys == v.contracts.Keys &&
      (forall k :: k in v.contracts && k != o.contractId ==> w.contracts[k] == v.contracts[k]) &&
      (o.customerId.None? ==> w.own == v.own && w.myId == v.myId) &&
      (resp.Accepted? || resp.AcceptedBtc? ==>
         w.contracts[o.contractId] == (v.contracts[o.contractId].0, InsertSides(v.contracts[o.contractId].1, o)) &&
         (resp.AcceptedBtc? <==> v.contracts[o.contractId].0.ty.NextDay?))
  {
  }

  /** `initialize_orderbooks`' first step: the named contract's book is emptied (a future panics). */
  function ResetSpec(v: View, cid: nat): Checked<View>
  {
    if cid !in v.contracts then Done(v)
    else if v.contracts[cid].0.ty.Future? then Panic(FuturePanic)
    else Done(v.(contracts := v.contracts[cid := (v.contracts[cid].0, Sides([], []))]))
  }

  /** A run of `insert_order` calls, stopping at a panic. */
  function InsertAll(v: View, os: seq<LiveOrder>): Checked<View>
    decreases |os|
  {
    if os == [] then Done(v)
    else
      match InsertOrderSpec(v, os[0])
      case Panic(why) => Panic(why)
      case Done((w, _)) => InsertAll(w, os[1..])
  }

  /**
   * Feeding orders never adds or removes a contract, and leaves the book of
   * a contract none of the orders names exactly as it was.
   */
  lemma {:induction false} InsertAllKeepsOthers(v: View, os: seq<LiveOrder>, k: nat)
    requires InsertAll(v, os).Done?
    ensures InsertAll(v, os).value.contracts.Keys == v.contracts.Keys
    ensures k in v.contracts && (forall i :: 0 <= i < |os| ==> os[i].contractId != k) ==>
      InsertAll(v, os).value.contracts[k] == v.contracts[k]
    decreases |os|
  {
    if os != [] {
      InsertOrderMeaning(v, os[0]);
      var w := InsertOrderSpec(v, os[0]).value.0;
      assert forall i :: 0 <= i < |os[1..]| ==> os[1..][i] == os[i + 1];
      InsertAllKeepsOthers(w, os[1..], k);
    }
  }

  /** What `insert_order` keeps true of every book. */
  ghost predicate BookValid(s: Sides)
  {
    SideValid(s.bids, Bid) && SideValid(s.asks, Ask)
  }

  /**
   * `LedgerX`.  The map owns each contract's book by value, so a book is
   * kept here as its two sides and changed by the same `InsertSide` that
   * `BookState.InsertOrder` is proved against.
   */
  class LedgerX {
    var contracts: map<nat, (Contract, Sides)>
    var priceRef: PriceHistory.BitcoinPrice
    var ownOrders: OwnOrders.Tracker
    var availableUsd: Decimal
    var availableBtc: nat

    /** Each contract is stored under its own id, and every book is valid. */
    ghost predicate Valid()
      reads this, ownOrders
    {
      ownOrders.Valid() &&
      forall k :: k in contracts ==> contracts[k].0.id == k && BookValid(contracts[k].1)
    }

    function ViewOf(): View
      reads this, ownOrders
    {
      View(contracts, ownOrders.myId, ownOrders.orders)
    }

    /** `LedgerX::new`: no contracts, no own orders, zero balances. */
    constructor (price: PriceHistory.BitcoinPrice)
      ensures Valid() && ViewOf() == View(map[], None, map[]) && fresh(ownOrders)
      ensures priceRef == price && availableUsd == Zero && availableBtc == 0
    {
      contracts := map[];
      ownOrders := new OwnOrders.Tracker();
      priceRef := price;
      availableUsd := Zero;
      availableBtc := 0;
    }

    /** `set_balances`: both balances are overwritten, nothing else changes. */
    method SetBalances(usd: Decimal, btc: nat)
      modifies this
      ensures availableUsd == usd && availableBtc == btc
      ensures contracts == old(contracts) && ownOrders == old(ownOrders) && priceRef == old(priceRef)
    {
      availableUsd := usd;
      availableBtc := btc;
    }

    /** `set_current_price`: the price reference is overwritten, nothing else changes. */
    method SetCurrentPrice(price: PriceHistory.BitcoinPrice)
      modifies this
      ensures priceRef == price
      ensures contracts == old(contracts) && ownOrders == old(ownOrders)
      ensures availableUsd == old(availableUsd) && availableBtc == old(availableBtc)
    {
      priceRef := price;
    }

    /**
     * `add_contract`: the contract is stored under its id with an empty
     * book, replacing any previous entry and its book.  Asking a future for
     * its asset panics before anything is stored.
     */
    method AddContract(c: Contract) returns (r: Checked<()>)
      requires Valid()
      modifies this
      ensures Valid()
      ensures r.Panic? <==> c.ty.Future?
      ensures r.Done? ==> contracts == old(contracts)[c.id := (c, Sides([], []))]
      ensures availableUsd == old(availableUsd) && availableBtc == old(availableBtc) && ownOrders == old(ownOrders)
    {
      AssetViewsAgree(c);
      var asset := AssetOf(c);
      if asset.Panic? {
        return Panic(asset.reason);
      }
      contracts := contracts[c.id := (c, Sides([], []))];
      r := Done(());
    }

    /** `remove_contract`: the entry goes if present; an unknown id changes nothing. */
    method RemoveContract(id: nat)
      requires Valid()
      modifies this
      ensures Valid() && contracts == old(contracts) - {id}
      ensures availableUsd == old(availableUsd) && availableBtc == old(availableBtc) && ownOrders == old(ownOrders)
    {
      contracts := contracts - {id};
    }

    /** `insert_order`, as `InsertOrderSpec` says. */
    method InsertOrder(o: LiveOrder) returns (r: Checked<UpdateResponse>)
      requires Valid()
      modifies this, ownOrders
      ensures Valid()
      ensures InsertOrderSpec(old(ViewOf()), o).Done? ==>
        r == Done(InsertOrderSpec(old(ViewOf()), o).value.1) && ViewOf() == InsertOrderSpec(old(ViewOf()), o).value.0
      ensures InsertOrderSpec(old(ViewOf()), o).Panic? ==> r.Panic?
      ensures availableUsd == old(availableUsd) && availableBtc == old(availableBtc) && ownOrders == old(ownOrders)
    {
      if o.contractId !in contracts {
        return Done(UnknownContract(o));
      }
      var (c, sides) := contracts[o.contractId];
      if c.underlying != Underlying.Btc {
        return Done(NonBtcOrder);
      }
      AssetViewsAgree(c);
      if o.customerId.Some? {
        var tracked := ownOrders.InsertOrder(c, o);
        if tracked.Panic? {
          return Panic(tracked.reason);
        }
      }
      var asset := AssetOf(c);
      if asset.Panic? {
        return Panic(asset.reason);
      }
      InsertSideMeaning(if o.bidAsk == Bid then sides.bids else sides.asks, o);
      contracts := contracts[o.contractId := (c, InsertSides(sides, o))];
      r := Done(if asset.value == Asset.Btc then AcceptedBtc else Accepted);
    }

    /**
     * `initialize_orderbooks`: the contract's book is emptied, then every
     * order is inserted in turn, whichever contract it names.  The book-state
     * records arrive already converted to orders; logging is left out.
     */
    method InitializeOrderbooks(cid: nat, orders: seq<LiveOrder>) returns (r: Checked<()>)
      requires Valid()
      modifies this, ownOrders
      ensures Valid()
      ensures var spec := match ResetSpec(old(ViewOf()), cid)
                          case Panic(why) => Panic(why)
                          case Done(v) => InsertAll(v, orders);
        (spec.Done? ==> r.Done? && ViewOf() == spec.value) && (spec.Panic? ==> r.Panic?)
      ensures availableUsd == old(availableUsd) && availableBtc == old(availableBtc) && ownOrders == old(ownOrders)
    {
      if cid in contracts {
        var (c, _) := contracts[cid];
        AssetViewsAgree(c);
        var asset := AssetOf(c);
        if asset.Panic? {
          return Panic(asset.reason);
        }
        contracts := contracts[cid := (c, Sides([], []))];
      }
      ghost var start := ViewOf();
      assert ResetSpec(old(ViewOf()), cid) == Done(start);
      var i := 0;
      while i < |orders|
        invariant i <= |orders| && Valid()
        invariant availableUsd == old(availableUsd) && availableBtc == old(availableBtc) && ownOrders == old(ownOrders)
        invariant InsertAll(ViewOf(), orders[i..]) == InsertAll(start, orders)
      {
        assert orders[i..][0] == orders[i] && orders[i..][1..] == orders[i + 1..];
        var step := InsertOrder(orders[i]);
        if step.Panic? {
          return Panic(step.reason);
        }
        i := i + 1;
      }
      r := Done(());
    }
  }
}
