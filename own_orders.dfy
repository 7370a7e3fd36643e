// ledgerx/own_orders.rs: the orders of our own customer id, by message id.
module OwnOrders {
  import opened Wrappers
  import opened Feed
  import Contracts

  /** Our customer id after seeing `o`: the first id seen is kept for good. */
  function NextMyId(myId: Option<nat>, o: LiveOrder): Option<nat>
  {
    if myId.None? then o.customerId else myId
  }

  /** A size-zero order with a nonzero filled size reports a fill. */
  predicate IsFill(o: LiveOrder)
  {
    o.size == 0 && o.filledSize != 0
  }

  /**
   * The tracked orders after `insert_order`: a fill leaves them alone, any
   * other size-zero order deletes its message id, and an order of nonzero
   * size is stored under its message id, new or not.
   */
  function NextMap(m: map<nat, LiveOrder>, o: LiveOrder): map<nat, LiveOrder>
  {
    if o.size == 0 then (if IsFill(o) then m else m - {o.mid}) else m[o.mid := o]
  }

  /**
   * Whether `insert_order` asks the contract for its asset, which panics for
   * futures: for every size-zero order, for a new order, and for an update
   * whose timestamp differs from the tracked one.
   */
  predicate UsesAsset(m: map<nat, LiveOrder>, o: LiveOrder)
  {
    o.size == 0 || o.mid !in m || m[o.mid].updatedTimestamp != o.updatedTimestamp
  }

  /**
   * Only the order's own message id is touched: a nonzero-size order ends up
   * stored there, a size-zero non-fill removes it, a fill changes nothing.
   */
  lemma NextMapMeaning(m: map<nat, LiveOrder>, o: LiveOrder)
    ensures forall k :: k != o.mid ==> (k in NextMap(m, o) <==> k in m)
    ensures forall k :: k != o.mid && k in m ==> NextMap(m, o)[k] == m[k]
    ensures o.size != 0 ==> o.mid in NextMap(m, o) && NextMap(m, o)[o.mid] == o
    ensures IsFill(o) ==> NextMap(m, o) == m
    ensures o.size == 0 && !IsFill(o) ==> o.mid !in NextMap(m, o)
  {
  }

  /** Our id after a run of orders. */
  function MyIdAfter(myId: Option<nat>, os: seq<LiveOrder>): Option<nat>
    decreases |os|
  {
    if os == [] then myId else MyIdAfter(NextMyId(myId, os[0]), os[1..])
  }

  /** The customer id of the first order that carries one. */
  function FirstCustomerId(os: seq<LiveOrder>): Option<nat>
    decreases |os|
  {
    if os == [] then None else if os[0].customerId.Some? then os[0].customerId else FirstCustomerId(os[1..])
  }

  /**
   * `my_id` is the customer id of the first order that carries one, and,
   * once set, never changes.
   */
  lemma {:induction false} MyIdIsFirst(myId: Option<nat>, os: seq<LiveOrder>)
    ensures myId.None? ==> MyIdAfter(myId, os) == FirstCustomerId(os)
    ensures myId.Some? ==> MyIdAfter(myId, os) == myId
    decreases |os|
  {
    if os != [] {
      MyIdIsFirst(NextMyId(myId, os[0]), os[1..]);
    }
  }

  /** `Tracker`. */
  class Tracker {
    var myId: Option<nat>
    var orders: map<nat, LiveOrder>

    /** Every tracked order sits under its own message id and has a nonzero size. */
    ghost predicate Valid()
      reads this
    {
      forall k :: k in orders ==> orders[k].mid == k && orders[k].size != 0
    }

    /** `Tracker::new`. */
    constructor ()
      ensures Valid() && myId == None && orders == map[]
    {
      myId := None;
      orders := map[];
    }

    /**
     * `insert_order`: reports whether the order is a fill.  The customer id
     * is learnt first; asking `contract` for its asset panics for a future.
     * The fill notification and the log lines are left out.
     */
    method InsertOrder(contract: Contracts.Contract, o: LiveOrder) returns (r: Checked<bool>)
      requires Valid()
      modifies this
      ensures Valid()
      ensures myId == NextMyId(old(myId), o)
      ensures r.Panic? <==> UsesAsset(old(orders), o) && contract.ty.Future?
      ensures r.Done? ==> r.value == IsFill(o) && orders == NextMap(old(orders), o)
    {
      if myId.None? && o.customerId.Some? {
        myId := o.customerId;
      }
      Contracts.AssetViewsAgree(contract);
      var asset := Contracts.AssetOf(contract);
      if UsesAsset(orders, o) && asset.Panic? {
        return Panic(asset.reason);
      }
      if o.size == 0 {
        if o.filledSize != 0 {
          r := Done(true);
        } else {
          orders := orders - {o.mid};
          r := Done(false);
        }
      } else {
        orders := orders[o.mid := o];
        r := Done(false);
      }
    }

    /** `open_order_iter`: every tracked order, each once, all of nonzero size. */
    function OpenOrders(): (r: set<LiveOrder>)
      reads this
      requires Valid()
      ensures forall x :: x in r <==> x.mid in orders && orders[x.mid] == x
      ensures forall x :: x in r ==> x.size != 0
    {
      set k | k in orders :: orders[k]
    }
  }
}
