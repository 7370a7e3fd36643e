// ledgerx/book.rs: the bids and asks of one contract.  Each side is a map
// ordered by (price, manifest id); the model keeps each side as the sequence
// of its orders in that order, which is how the map iterates.
module Books {
  import opened Wrappers
  import opened Decimals
  import opened Feed
  import Options

  /** The map key of an order, compared as (price, mid), prices as numbers. */
  predicate KeyLt(a: LiveOrder, b: LiveOrder)
  {
    Value(a.price) < Value(b.price) || (Value(a.price) == Value(b.price) && a.mid < b.mid)
  }

  predicate SameKey(a: LiveOrder, b: LiveOrder)
  {
    Value(a.price) == Value(b.price) && a.mid == b.mid
  }

  predicate KeyLe(a: LiveOrder, b: LiveOrder)
  {
    KeyLt(a, b) || SameKey(a, b)
  }

  /** Strictly ascending keys: the iteration order of the map. */
  ghost predicate Sorted(s: seq<LiveOrder>)
  {
    forall i, j :: 0 <= i < j < |s| ==> KeyLt(s[i], s[j])
  }

  /**
   * What `insert_order` keeps true of a side: ascending keys, every order on
   * its own side and of positive size, and at most one order per mid.
   */
  ghost predicate SideValid(s: seq<LiveOrder>, side: BidAsk)
  {
    Sorted(s) &&
    (forall i :: 0 <= i < |s| ==> s[i].size > 0 && s[i].bidAsk == side) &&
    (forall i, j :: 0 <= i < |s| && 0 <= j < |s| && s[i].mid == s[j].mid ==> i == j)
  }

  /** `retain(|(_, mid), _| *mid != m)`: drop every order with that mid, whatever its price. */
  function Retain(s: seq<LiveOrder>, m: nat): (r: seq<LiveOrder>)
    ensures |r| <= |s|
    ensures forall x :: x in r <==> x in s && x.mid != m
  {
    if s == [] then [] else (if s[0].mid == m then [] else [s[0]]) + Retain(s[1..], m)
  }

  /** `BTreeMap::insert` at the order's key: in key order, replacing an order with an equal key. */
  function Insert(s: seq<LiveOrder>, o: LiveOrder): (r: seq<LiveOrder>)
    ensures o in r
    ensures forall x :: x in r ==> x == o || x in s
    ensures forall x :: x in s && !SameKey(x, o) ==> x in r
  {
    if s == [] then [o]
    else if KeyLt(o, s[0]) then [o] + s
    else if SameKey(o, s[0]) then [o] + s[1..]
    else [s[0]] + Insert(s[1..], o)
  }

  /** `BookState::insert_order` on one side: drop the mid, then add the order iff its size is positive. */
  function InsertSide(s: seq<LiveOrder>, o: LiveOrder): seq<LiveOrder>
  {
    var kept := Retain(s, o.mid);
    if o.size > 0 then Insert(kept, o) else kept
  }

  lemma {:induction false} RetainSorted(s: seq<LiveOrder>, m: nat)
    requires Sorted(s)
    ensures Sorted(Retain(s, m))
  {
    if s != [] {
      RetainSorted(s[1..], m);
      var t := Retain(s[1..], m);
      forall x | x in t ensures KeyLt(s[0], x) {
        var j :| 0 <= j < |s[1..]| && s[1..][j] == x;
        assert s[j + 1] == x;
      }
    }
  }

  lemma {:induction false} InsertSorted(s: seq<LiveOrder>, o: LiveOrder)
    requires Sorted(s)
    ensures Sorted(Insert(s, o))
  {
    if s == [] {
    } else if KeyLt(o, s[0]) {
      forall x | x in s ensures KeyLt(o, x) {
        var j :| 0 <= j < |s| && s[j] == x;
        if j > 0 { assert KeyLt(s[0], s[j]); }
      }
    } else if SameKey(o, s[0]) {
      forall x | x in s[1..] ensures KeyLt(o, x) {
        var j :| 0 <= j < |s[1..]| && s[1..][j] == x;
        assert KeyLt(s[0], s[j + 1]);
      }
      assert Insert(s, o) == [o] + s[1..];
    } else {
      InsertSorted(s[1..], o);
      var t := Insert(s[1..], o);
      forall x | x in t ensures KeyLt(s[0], x) {
        if x != o {
          var j :| 0 <= j < |s[1..]| && s[1..][j] == x;
          assert s[j + 1] == x;
        }
      }
    }
  }

  /**
   * `insert_order` keeps a side valid, and afterwards the side holds exactly
   * the orders it held for other mids, plus the new order when its size is
   * positive: a size-zero order is a deletion.
   */
  lemma InsertSideMeaning(s: seq<LiveOrder>, o: LiveOrder)
    requires SideValid(s, o.bidAsk)
    ensures SideValid(InsertSide(s, o), o.bidAsk)
    ensures forall x :: x in InsertSide(s, o) <==> (x == o && o.size > 0) || (x in s && x.mid != o.mid)
  {
    var kept := Retain(s, o.mid);
    RetainSorted(s, o.mid);
    UniqueMids(s);
    UniqueMidsRetain(kept, s, o.mid);
    if o.size > 0 {
      InsertSorted(kept, o);
      var r := Insert(kept, o);
      InsertMidsUnique(kept, o, r);
      assert forall i :: 0 <= i < |r| ==> r[i] in r;
      IndexedMidsUnique(r);
    } else {
      assert forall i :: 0 <= i < |kept| ==> kept[i] in kept;
      IndexedMidsUnique(kept);
    }
  }

  lemma InsertMidsUnique(kept: seq<LiveOrder>, o: LiveOrder, r: seq<LiveOrder>)
    requires MidsUnique(kept) && forall x :: x in kept ==> x.mid != o.mid
    requires forall x :: x in r ==> x == o || x in kept
    ensures MidsUnique(r)
  {
  }

  lemma IndexedMidsUnique(s: seq<LiveOrder>)
    requires Sorted(s) && MidsUnique(s)
    ensures forall i, j :: 0 <= i < |s| && 0 <= j < |s| && s[i].mid == s[j].mid ==> i == j
  {
    forall i, j | 0 <= i < |s| && 0 <= j < |s| && s[i].mid == s[j].mid ensures i == j {
      SortedDistinct(s, i, j);
    }
  }

  /** Orders of different mids in a side never share a mid: stated on the elements. */
  ghost predicate MidsUnique(s: seq<LiveOrder>)
  {
    forall x, y :: x in s && y in s && x.mid == y.mid ==> x == y
  }

  lemma UniqueMids(s: seq<LiveOrder>)
    requires forall i, j :: 0 <= i < |s| && 0 <= j < |s| && s[i].mid == s[j].mid ==> i == j
    ensures MidsUnique(s)
  {
    forall x, y | x in s && y in s && x.mid == y.mid ensures x == y {
      var i :| 0 <= i < |s| && s[i] == x;
      var j :| 0 <= j < |s| && s[j] == y;
    }
  }

  lemma UniqueMidsRetain(kept: seq<LiveOrder>, s: seq<LiveOrder>, m: nat)
    requires MidsUnique(s) && forall x :: x in kept <==> x in s && x.mid != m
    ensures MidsUnique(kept)
  {
  }

  /** In a sorted sequence whose elements have distinct mids, equal mids mean equal positions. */
  lemma SortedDistinct(s: seq<LiveOrder>, i: int, j: int)
    requires Sorted(s) && 0 <= i < |s| && 0 <= j < |s|
    requires forall x, y :: x in s && y in s && x.mid == y.mid ==> x == y
    requires s[i].mid == s[j].mid
    ensures i == j
  {
    assert s[i] in s && s[j] in s;
  }

  /** The sum of the sizes of a side, as `clear_asks` adds them in iteration order. */
  function SizeSum(s: seq<LiveOrder>): nat
  {
    if s == [] then 0 else SizeSum(s[..|s| - 1]) + s[|s| - 1].size
  }

  lemma {:induction false} SizeSumAppend(a: seq<LiveOrder>, b: seq<LiveOrder>)
    ensures SizeSum(a + b) == SizeSum(a) + SizeSum(b)
  {
    if b == [] {
      assert a + b == a;
    } else {
      assert (a + b)[..|a + b| - 1] == a + b[..|b| - 1];
      assert (a + b)[|a + b| - 1] == b[|b| - 1];
      SizeSumAppend(a, b[..|b| - 1]);
    }
  }

  lemma SizeSumCons(x: LiveOrder, s: seq<LiveOrder>)
    ensures SizeSum([x] + s) == x.size + SizeSum(s)
  {
    SizeSumAppend([x], s);
    assert [x][..0] == [];
  }

  /** The total size of the orders of one mid. */
  function MidSize(s: seq<LiveOrder>, m: nat): nat
  {
    if s == [] then 0 else (if s[0].mid == m then s[0].size else 0) + MidSize(s[1..], m)
  }

  lemma {:induction false} RetainSize(s: seq<LiveOrder>, m: nat)
    ensures SizeSum(Retain(s, m)) + MidSize(s, m) == SizeSum(s)
  {
    if s != [] {
      RetainSize(s[1..], m);
      assert s == [s[0]] + s[1..];
      SizeSumCons(s[0], s[1..]);
      if s[0].mid == m {
        assert Retain(s, m) == Retain(s[1..], m);
      } else {
        SizeSumCons(s[0], Retain(s[1..], m));
      }
    }
  }

  lemma {:induction false} InsertSize(s: seq<LiveOrder>, o: LiveOrder)
    requires forall x :: x in s ==> !SameKey(x, o)
    ensures SizeSum(Insert(s, o)) == SizeSum(s) + o.size
  {
    if s == [] {
      assert Insert(s, o) == [o];
      assert [o][..0] == [];
    } else if KeyLt(o, s[0]) {
      SizeSumCons(o, s);
    } else {
      assert s[0] in s;
      InsertSize(s[1..], o);
      assert s == [s[0]] + s[1..];
      SizeSumCons(s[0], s[1..]);
      SizeSumCons(s[0], Insert(s[1..], o));
    }
  }

  /**
   * The book's total size on a side moves by exactly the change the order
   * makes: the old size at its mid is dropped and its own size added.
   */
  lemma InsertSideSize(s: seq<LiveOrder>, o: LiveOrder)
    ensures SizeSum(InsertSide(s, o)) == SizeSum(s) - MidSize(s, o.mid) + o.size
  {
    RetainSize(s, o.mid);
    if o.size > 0 {
      InsertSize(Retain(s, o.mid), o);
    }
  }

  /** The cost of buying into every offer, added up in iteration order. */
  function CostSum(s: seq<LiveOrder>, timesQty: (Decimal, int) -> Decimal): Decimal
  {
    if s == [] then Zero else Add(CostSum(s[..|s| - 1], timesQty), timesQty(s[|s| - 1].price, s[|s| - 1].size))
  }

  /** The value of `CostSum` is the plain sum of the per-order costs, whatever their order. */
  function CostValue(s: seq<LiveOrder>, timesQty: (Decimal, int) -> Decimal): real
  {
    if s == [] then 0.0 else Value(timesQty(s[0].price, s[0].size)) + CostValue(s[1..], timesQty)
  }

  lemma {:induction false} CostValueAppend(a: seq<LiveOrder>, b: seq<LiveOrder>, timesQty: (Decimal, int) -> Decimal)
    ensures CostValue(a + b, timesQty) == CostValue(a, timesQty) + CostValue(b, timesQty)
  {
    if a == [] {
      assert a + b == b;
    } else {
      assert (a + b)[1..] == a[1..] + b;
      CostValueAppend(a[1..], b, timesQty);
    }
  }

  lemma {:induction false} CostSumValue(s: seq<LiveOrder>, timesQty: (Decimal, int) -> Decimal)
    ensures Value(CostSum(s, timesQty)) == CostValue(s, timesQty)
  {
    if s != [] {
      var init := s[..|s| - 1];
      CostSumValue(init, timesQty);
      assert s == init + [s[|s| - 1]];
      CostValueAppend(init, [s[|s| - 1]], timesQty);
    }
  }

  const SatsPerContract: nat := 1000000

  /** What `clear_bids` carries from one bid to the next: the budget left and the totals so far. */
  datatype Walk = Walk(usd: Decimal, btc: nat, contracts: nat, gained: Decimal)

  /**
   * One bid of `clear_bids`: it sells the lesser of what `maxSale` allows and
   * the bid's size; a zero sale stops the walk (`None`).  Otherwise the
   * budget is drawn down by 1,000,000 sat per contract for a call, and
   * taking more sats than remain panics as `bitcoin::Amount` subtraction
   * does, or by the cash locked per contract for a put.
   */
  function Step(o: LiveOrder, pc: Options.PutCall, w: Walk,
                maxSale: (Decimal, Decimal, nat) -> (nat, Decimal), timesQty: (Decimal, int) -> Decimal)
    : (r: Option<Checked<Walk>>)
    ensures r.Some? && r.value.Done? ==>
      w.contracts < r.value.value.contracts <= w.contracts + o.size &&
      (pc == Options.Call ==> r.value.value.btc + (r.value.value.contracts - w.contracts) * SatsPerContract == w.btc)
  {
    var (most, perContract) := maxSale(o.price, w.usd, w.btc);
    var sale := if most < o.size then most else o.size;
    if sale == 0 then None
    else
      var gained := Add(w.gained, timesQty(o.price, sale));
      match pc
      case Call =>
        if sale * SatsPerContract > w.btc then Some(Panic("Amount subtraction error"))
        else Some(Done(Walk(w.usd, w.btc - sale * SatsPerContract, w.contracts + sale, gained)))
      case Put =>
        Some(Done(Walk(Sub(w.usd, timesQty(perContract, sale)), w.btc, w.contracts + sale, gained)))
  }

  /** `clear_bids` as a walk over the bids from the lowest up. */
  function ClearFrom(s: seq<LiveOrder>, pc: Options.PutCall, w: Walk,
                     maxSale: (Decimal, Decimal, nat) -> (nat, Decimal), timesQty: (Decimal, int) -> Decimal)
    : Checked<Walk>
    decreases |s|
  {
    if s == [] then Done(w)
    else
      match Step(s[0], pc, w, maxSale, timesQty)
      case None => Done(w)
      case Some(Panic(why)) => Panic(why)
      case Some(Done(w')) => ClearFrom(s[1..], pc, w', maxSale, timesQty)
  }

  /**
   * The contracts sold never exceed the bids' total size, and for a call
   * the sats they tie up never exceed the sats available.
   */
  lemma {:induction false} ClearFromBounds(s: seq<LiveOrder>, pc: Options.PutCall, w: Walk,
                                           maxSale: (Decimal, Decimal, nat) -> (nat, Decimal),
                                           timesQty: (Decimal, int) -> Decimal)
    requires ClearFrom(s, pc, w, maxSale, timesQty).Done?
    ensures var c := ClearFrom(s, pc, w, maxSale, timesQty).value.contracts;
      w.contracts <= c <= w.contracts + SizeSum(s) &&
      (pc == Options.Call ==> (c - w.contracts) * SatsPerContract <= w.btc)
    decreases |s|
  {
    if s != [] {
      var st := Step(s[0], pc, w, maxSale, timesQty);
      if st.Some? {
        assert s == [s[0]] + s[1..];
        SizeSumCons(s[0], s[1..]);
        ClearFromBounds(s[1..], pc, st.value.value, maxSale, timesQty);
      }
    }
  }

  /** The price and size of the last order of a side kept in ascending order, or (0, 0) when it is empty. */
  function TopBid(bids: seq<LiveOrder>): (Decimal, nat)
  {
    if bids == [] then (Zero, 0) else (bids[|bids| - 1].price, bids[|bids| - 1].size)
  }

  /** The price and size of the first order of a side kept in ascending order, or (0, 0) when it is empty. */
  function TopAsk(asks: seq<LiveOrder>): (Decimal, nat)
  {
    if asks == [] then (Zero, 0) else (asks[0].price, asks[0].size)
  }

  /** `BookState`: the bids and asks of one contract. */
  class BookState {
    var bids: seq<LiveOrder>
    var asks: seq<LiveOrder>

    ghost predicate Valid()
      reads this
    {
      SideValid(bids, Bid) && SideValid(asks, Ask)
    }

    /** `BookState::new`: an empty book. */
    constructor ()
      ensures Valid() && bids == [] && asks == []
    {
      bids := [];
      asks := [];
    }

    /** `insert_order`: only the order's own side changes, as `InsertSide` says. */
    method InsertOrder(o: LiveOrder)
      requires Valid()
      modifies this
      ensures Valid()
      ensures o.bidAsk == Bid ==> bids == InsertSide(old(bids), o) && asks == old(asks)
      ensures o.bidAsk == Ask ==> asks == InsertSide(old(asks), o) && bids == old(bids)
    {
      if o.bidAsk == Bid {
        InsertSideMeaning(bids, o);
        bids := InsertSide(bids, o);
      } else {
        InsertSideMeaning(asks, o);
        asks := InsertSide(asks, o);
      }
    }

    /** `best_bid`: the price and size of the highest-keyed bid, or (0, 0) with no bids. */
    function BestBid(): (r: (Decimal, nat))
      reads this
      requires Valid()
      ensures bids == [] ==> r == (Zero, 0)
      ensures bids != [] ==> exists i :: (0 <= i < |bids| && r == (bids[i].price, bids[i].size) &&
                                         forall j :: 0 <= j < |bids| ==> KeyLe(bids[j], bids[i]))
    {
      assert bids != [] ==> forall j :: 0 <= j < |bids| - 1 ==> KeyLt(bids[j], bids[|bids| - 1]);
      TopBid(bids)
    }

    /** `best_ask`: the price and size of the lowest-keyed ask, or (0, 0) with no asks. */
    function BestAsk(): (r: (Decimal, nat))
      reads this
      requires Valid()
      ensures asks == [] ==> r == (Zero, 0)
      ensures asks != [] ==> exists i :: (0 <= i < |asks| && r == (asks[i].price, asks[i].size) &&
                                         forall j :: 0 <= j < |asks| ==> KeyLe(asks[i], asks[j]))
    {
      assert asks != [] ==> forall j :: 0 < j < |asks| ==> KeyLt(asks[0], asks[j]);
      TopAsk(asks)
    }

    /**
     * `clear_asks`: the contracts gained and the dollars paid by buying into
     * every offer; the book is left as it is.
     */
    method ClearAsks(timesQty: (Decimal, int) -> Decimal) returns (contracts: nat, usd: Decimal)
      ensures contracts == SizeSum(asks) && usd == CostSum(asks, timesQty)
    {
      usd := Zero;
      contracts := 0;
      var i := 0;
      while i < |asks|
        invariant i <= |asks|
        invariant contracts == SizeSum(asks[..i]) && usd == CostSum(asks[..i], timesQty)
      {
        assert asks[..i + 1][..i] == asks[..i];
        usd := Add(usd, timesQty(asks[i].price, asks[i].size));
        contracts := contracts + asks[i].size;
        i := i + 1;
      }
      assert asks[..i] == asks;
    }

    /**
     * `clear_bids`: the contracts sold and the dollars gained by selling
     * into the bids from the lowest up, within the given budget; the book
     * is left as it is.
     */
    method ClearBids(opt: Options.OptionContract, maxUsd: Decimal, maxBtc: nat,
                     maxSale: (Decimal, Decimal, nat) -> (nat, Decimal), timesQty: (Decimal, int) -> Decimal)
      returns (r: Checked<(nat, Decimal)>)
      ensures var spec := ClearFrom(bids, opt.pc, Walk(maxUsd, maxBtc, 0, Zero), maxSale, timesQty);
        (spec.Done? ==> r == Done((spec.value.contracts, spec.value.gained))) &&
        (spec.Panic? ==> r == Panic(spec.reason))
    {
      var w := Walk(maxUsd, maxBtc, 0, Zero);
      var i := 0;
      while i < |bids|
        invariant i <= |bids|
        invariant ClearFrom(bids[i..], opt.pc, w, maxSale, timesQty) ==
                  ClearFrom(bids, opt.pc, Walk(maxUsd, maxBtc, 0, Zero), maxSale, timesQty)
      {
        assert bids[i..][0] == bids[i] && bids[i..][1..] == bids[i + 1..];
        var step := Step(bids[i], opt.pc, w, maxSale, timesQty);
        if step.None? {
          return Done((w.contracts, w.gained));
        }
        if step.value.Panic? {
          return Panic(step.value.reason);
        }
        w := step.value.value;
        i := i + 1;
      }
      return Done((w.contracts, w.gained));
    }
  }
}
