// ledgerx/contract.rs: a tradeable contract as the program holds it, built
// and validated from the exchange's raw record.
module Contracts {
  import opened Wrappers
  import opened Prices
  import opened UtcTime
  import opened Options
  import opened Assets
  import LxJson

  /** The three kinds of contract. */
  datatype ContractType =
    | OptionType(exerciseDate: Time, opt: OptionContract)
    | NextDay(expiry: Time)
    | Future(expiry: Time)

  datatype Contract = Contract(
    id: nat,
    active: bool,
    ty: ContractType,
    underlying: Underlying,
    tag: string,
    multiplier: nat,
    lastLog: Option<Time>)

  /** `asset`: futures are not implemented and panic. */
  function AssetOf(c: Contract): Checked<Asset>
  {
    match c.ty
    case OptionType(_, opt) => Done(Asset.Option(c.underlying, opt))
    case NextDay(_) => Done(AssetOfUnderlying(c.underlying))
    case Future(_) => Panic("not implemented: futures")
  }

  /** `tax_asset`: only options and bitcoin day-ahead swaps are tracked for tax. */
  function TaxAssetOf(c: Contract): (r: Option<TaxAsset>)
    ensures r.None? <==> c.ty.Future? || (c.ty.NextDay? && c.underlying == Underlying.Eth)
  {
    match c.ty
    case OptionType(_, opt) => Some(TaxAsset.Option(c.underlying, opt))
    case NextDay(_) => (
      match c.underlying
      case Btc => Some(TaxAsset.Bitcoin)
      case Eth => None)
    case Future(_) => None
  }

  /** `budget_asset`: the same selection as for tax. */
  function BudgetAssetOf(c: Contract): (r: Option<BudgetAsset>)
    ensures r.None? <==> c.ty.Future? || (c.ty.NextDay? && c.underlying == Underlying.Eth)
  {
    match c.ty
    case OptionType(_, opt) => Some(BudgetAsset.Option(c.underlying, opt))
    case NextDay(_) => (
      match c.underlying
      case Btc => Some(BudgetAsset.Btc)
      case Eth => None)
    case Future(_) => None
  }

  /** `expiry`: an option expires with its option. */
  function Expiry(c: Contract): Time
  {
    match c.ty
    case OptionType(_, opt) => opt.expiry
    case NextDay(e) => e
    case Future(e) => e
  }

  /** `as_option`. */
  function AsOption(c: Contract): (r: Option<OptionContract>)
    ensures r.Some? <==> c.ty.OptionType?
    ensures r.Some? ==> r.value.expiry == Expiry(c)
  {
    match c.ty
    case OptionType(_, opt) => Some(opt)
    case _ => None
  }

  /**
   * The three asset views agree: `asset` panics exactly for futures; whenever
   * a tax asset exists, `asset` is its conversion to `Asset`; the budget asset
   * is the tax asset's conversion to `BudgetAsset`; and options keep their
   * option in every view.
   */
  lemma AssetViewsAgree(c: Contract)
    ensures AssetOf(c).Panic? <==> c.ty.Future?
    ensures TaxAssetOf(c).Some? ==> AssetOf(c) == Done(AssetOfTax(TaxAssetOf(c).value))
    ensures BudgetAssetOf(c) == (if TaxAssetOf(c).Some? then Some(BudgetOfTax(TaxAssetOf(c).value)) else None)
    ensures c.ty.NextDay? ==> AssetOf(c) == Done(AssetOfUnderlying(c.underlying))
  {
  }

  const MissingExpires := "missing field 'date_expires'"
  const MissingExercise := "missing field 'date_exercise'"
  const MissingStrike := "missing field 'strike_price'"
  const MissingType := "missing field 'type'"

  /** The kind of contract a record with expiry `expiry` describes, or the first missing field. */
  function TypeOf(js: LxJson.JsonContract, expiry: Time): Result<ContractType, string>
  {
    match js.derivativeType
    case OptionsContract =>
      if js.dateExercise.None? then Err(MissingExercise)
      else if js.ty.None? then Err(MissingType)
      else if js.strikePrice.None? then Err(MissingStrike)
      else
        var pc := if js.ty.value == LxJson.Call then Call else Put;
        Ok(OptionType(js.dateExercise.value, OptionContract(pc, js.strikePrice.value, expiry)))
    case FutureContract => Ok(ContractType.Future(expiry))
    case DayAheadSwap => Ok(ContractType.NextDay(expiry))
  }

  /** `TryFrom<json::Contract>`. */
  function TryFrom(js: LxJson.JsonContract): Result<Contract, string>
  {
    if js.dateExpires.None? then Err(MissingExpires)
    else
      match TypeOf(js, js.dateExpires.value)
      case Err(e) => Err(e)
      case Ok(ty) => Ok(Contract(js.id, js.active, ty, js.underlyingAsset, js.tag, js.multiplier, None))
  }

  /** An options record is complete when it carries an exercise date, a type and a strike. */
  predicate OptionFieldsPresent(js: LxJson.JsonContract)
  {
    js.dateExercise.Some? && js.ty.Some? && js.strikePrice.Some?
  }

  /**
   * Each missing field has its own error, checked in the order expiry,
   * exercise date, type, strike; a record missing none of the fields its kind
   * needs is accepted.
   */
  lemma TryFromErrors(js: LxJson.JsonContract)
    ensures TryFrom(js) == Err(MissingExpires) <==> js.dateExpires.None?
    ensures TryFrom(js) == Err(MissingExercise) <==>
      js.dateExpires.Some? && js.derivativeType == LxJson.OptionsContract && js.dateExercise.None?
    ensures TryFrom(js) == Err(MissingType) <==>
      js.dateExpires.Some? && js.derivativeType == LxJson.OptionsContract && js.dateExercise.Some? &&
      js.ty.None?
    ensures TryFrom(js) == Err(MissingStrike) <==>
      js.dateExpires.Some? && js.derivativeType == LxJson.OptionsContract && js.dateExercise.Some? &&
      js.ty.Some? && js.strikePrice.None?
    ensures TryFrom(js).Ok? <==>
      js.dateExpires.Some? && (js.derivativeType == LxJson.OptionsContract ==> OptionFieldsPresent(js))
  {
  }

  /**
   * An accepted record keeps its id, activity, underlying, label and
   * multiplier, has no log date yet, expires at `date_expires`, and has the
   * kind the record names: futures become futures and day-ahead swaps next-day
   * contracts; options take their exercise date, put or call and strike.
   */
  lemma TryFromFields(js: LxJson.JsonContract)
    requires TryFrom(js).Ok?
    ensures var c := TryFrom(js).value;
      c.id == js.id && c.active == js.active && c.underlying == js.underlyingAsset &&
      c.tag == js.tag && c.multiplier == js.multiplier && c.lastLog.None? &&
      Expiry(c) == js.dateExpires.value
    ensures var c := TryFrom(js).value;
      (c.ty.Future? <==> js.derivativeType == LxJson.FutureContract) &&
      (c.ty.NextDay? <==> js.derivativeType == LxJson.DayAheadSwap) &&
      (c.ty.OptionType? <==> js.derivativeType == LxJson.OptionsContract)
    ensures var c := TryFrom(js).value;
      c.ty.OptionType? ==>
        c.ty.exerciseDate == js.dateExercise.value && c.ty.opt.strike == js.strikePrice.value &&
        (c.ty.opt.pc == Call <==> js.ty == Some(LxJson.Call))
  {
  }
}

// ledgerx/json.rs: the "create order" call sent to the exchange.
module CreateOrders {
  import opened Strings
  import opened Wrappers
  import opened Prices
  import opened Quantities
  import opened Contracts

  datatype CreateOrder = CreateOrder(
    orderType: string,
    contractId: nat,
    isAsk: bool,
    swapPurpose: string,
    size: int,
    price: int)

  const NonOption := "Tried to create bid for non-option contract"
  const BadQuantity := "Tried to create option bid with invalid quantity type"

  /**
   * `new_internal` as written: a quantity other than `Contracts(n)` panics,
   * `Zero` included, though the documentation of `new_bid` and `new_ask`
   * names `Zero` as consistent with any contract.
   */
  function NewInternalAsWritten(contract: Contract, qty: Quantity, price: Price, isAsk: bool,
                                toCents: Price -> int): (r: Checked<CreateOrder>)
    ensures r.Done? <==> contract.ty.OptionType? && qty.Contracts?
  {
    if !contract.ty.OptionType? then Panic(NonOption)
    else
      match qty
      case Contracts(n) => Done(CreateOrder("limit", contract.id, isAsk, "undisclosed", n, toCents(price)))
      case _ => Panic(BadQuantity)
  }

  /** The documented sizes: a number of contracts, or `Zero` as size 0. */
  function OrderSize(qty: Quantity): Option<int>
  {
    match qty
    case Contracts(n) => Some(n)
    case Zero => Some(0)
    case Bitcoin(_) => None
  }

  /** `new_internal` as documented: `Zero` is accepted as an order of size 0. */
  function NewInternal(contract: Contract, qty: Quantity, price: Price, isAsk: bool,
                       toCents: Price -> int): (r: Checked<CreateOrder>)
  {
    if !contract.ty.OptionType? then Panic(NonOption)
    else
      match OrderSize(qty)
      case Some(n) => Done(CreateOrder("limit", contract.id, isAsk, "undisclosed", n, toCents(price)))
      case None => Panic(BadQuantity)
  }

  /** A zero quantity on an option contract: the documented case the code rejects. */
  lemma ZeroQuantityPanics(contract: Contract, price: Price, isAsk: bool, toCents: Price -> int)
    requires contract.ty.OptionType?
    ensures NewInternalAsWritten(contract, Zero, price, isAsk, toCents).Panic?
    ensures NewInternal(contract, Zero, price, isAsk, toCents).Done?
  {
  }

  /**
   * The corrected constructor panics exactly when the contract is not an
   * option or the quantity is bitcoin; it agrees with the code on every
   * quantity the code accepts; and a built order is a limit order with an
   * undisclosed purpose, for that contract, with the price in cents.
   */
  lemma NewInternalMeaning(contract: Contract, qty: Quantity, price: Price, isAsk: bool,
                           toCents: Price -> int)
    ensures NewInternal(contract, qty, price, isAsk, toCents).Panic? <==>
      !contract.ty.OptionType? || qty.Bitcoin?
    ensures NewInternalAsWritten(contract, qty, price, isAsk, toCents).Done? ==>
      NewInternal(contract, qty, price, isAsk, toCents) == NewInternalAsWritten(contract, qty, price, isAsk, toCents)
    ensures NewInternal(contract, qty, price, isAsk, toCents).Done? ==>
      var o := NewInternal(contract, qty, price, isAsk, toCents).value;
      o.orderType == "limit" && o.swapPurpose == "undisclosed" && o.contractId == contract.id &&
      o.isAsk == isAsk && o.price == toCents(price) &&
      o.size == (if qty.Contracts? then qty.n else 0)
  {
  }

  /** `new_bid`: the price is rounded down to a dollar first, and the order bids. */
  function NewBid(contract: Contract, qty: Quantity, price: Price,
                  roundDown: Price -> Price, toCents: Price -> int): (r: Checked<CreateOrder>)
    ensures r.Done? ==> !r.value.isAsk && r.value.price == toCents(roundDown(price))
    ensures r.Panic? <==> !contract.ty.OptionType? || qty.Bitcoin?
  {
    NewInternalMeaning(contract, qty, roundDown(price), false, toCents);
    NewInternal(contract, qty, roundDown(price), false, toCents)
  }

  /** `new_ask`: the price is rounded up to a dollar first, and the order asks. */
  function NewAsk(contract: Contract, qty: Quantity, price: Price,
                  roundUp: Price -> Price, toCents: Price -> int): (r: Checked<CreateOrder>)
    ensures r.Done? ==> r.value.isAsk && r.value.price == toCents(roundUp(price))
    ensures r.Panic? <==> !contract.ty.OptionType? || qty.Bitcoin?
  {
    NewInternalMeaning(contract, qty, roundUp(price), true, toCents);
    NewInternal(contract, qty, roundUp(price), true, toCents)
  }

  /**
   * The order of the source's test: 100 contracts asked at $100 on an option
   * contract give a limit order of size 100 at the cents of the rounded price.
   */
  lemma NewAskExample(contract: Contract, roundUp: Price -> Price, toCents: Price -> int)
    requires contract.ty.OptionType? && contract.id == 22256323
    requires toCents(roundUp(Decimals.FromInt(100))) == 10000
    ensures NewAsk(contract, Contracts(100), Decimals.FromInt(100), roundUp, toCents) ==
      Done(CreateOrder("limit", 22256323, true, "undisclosed", 100, 10000))
  {
  }

  /** `Display`: `[ id: size @ price ]`. */
  function Display(o: CreateOrder): string
  {
    "[ " + NatToString(o.contractId) + ": " + IntToString(o.size) + " @ " + IntToString(o.price) + " ]"
  }

  /** The words of the display, split at spaces. */
  function DisplayWords(o: CreateOrder): seq<string>
  {
    ["[", NatToString(o.contractId) + ":", IntToString(o.size), "@", IntToString(o.price), "]"]
  }

  lemma IntNoSpace(i: int)
    ensures ' ' !in IntToString(i)
  {
    DigitsHaveNo(NatToString(if i < 0 then -i else i), ' ');
    if i < 0 {
      assert IntToString(i) == "-" + NatToString(-i);
    }
  }

  /**
   * The display is the order's words joined by single spaces; it fixes the
   * contract id, the size and the price, so two orders that differ in any of
   * them display differently.
   */
  lemma DisplayReadsBack(o: CreateOrder, p: CreateOrder)
    ensures Split(Display(o), ' ') == DisplayWords(o)
    ensures Display(o) == Display(p) ==>
      o.contractId == p.contractId && o.size == p.size && o.price == p.price
  {
    WordsJoin(o);
    WordsJoin(p);
    if Display(o) == Display(p) {
      var a, b := DisplayWords(o), DisplayWords(p);
      assert a == b;
      var x, y := NatToString(o.contractId), NatToString(p.contractId);
      assert a[1] == x + ":" && b[1] == y + ":";
      assert x == (x + ":")[..|x|] && y == (y + ":")[..|y|];
      assert |x| == |y|;
      NatToStringInjective(o.contractId, p.contractId);
      IntToStringInjective(o.size, p.size);
      IntToStringInjective(o.price, p.price);
    }
  }

  lemma WordsJoin(o: CreateOrder)
    ensures Split(Display(o), ' ') == DisplayWords(o)
  {
    var w := DisplayWords(o);
    DigitsHaveNo(NatToString(o.contractId), ' ');
    IntNoSpace(o.size);
    IntNoSpace(o.price);
    assert ' ' !in w[1];
    assert forall p :: p in w ==> ' ' !in p;
    DisplayIsJoin(o);
    JoinSplit(w, ' ');
  }

  /** The display is its words joined by single spaces. */
  lemma DisplayIsJoin(o: CreateOrder)
    ensures Display(o) == Join(DisplayWords(o), [' '])
  {
    var w := DisplayWords(o);
    JoinSix(w[0], w[1], w[2], w[3], w[4], w[5]);
    assert Display(o) == w[0] + " " + w[1] + " " + w[2] + " " + w[3] + " " + w[4] + " " + w[5];
  }

  lemma JoinSix(a: string, b: string, c: string, d: string, e: string, f: string)
    ensures Join([a, b, c, d, e, f], " ") == a + " " + b + " " + c + " " + d + " " + e + " " + f
  {
    assert [a, b, c, d, e, f][1..] == [b, c, d, e, f];
    assert [b, c, d, e, f][1..] == [c, d, e, f];
    assert [c, d, e, f][1..] == [d, e, f];
    assert [d, e, f][1..] == [e, f];
    assert [e, f][1..] == [f];
    assert Join([f], " ") == f;
    var j4 := Join([e, f], " ");
    assert j4 == e + " " + f;
    var j3 := Join([d, e, f], " ");
    assert j3 == d + " " + j4;
    var j2 := Join([c, d, e, f], " ");
    assert j2 == c + " " + j3;
    var j1 := Join([b, c, d, e, f], " ");
    assert j1 == b + " " + j2;
    assert Join([a, b, c, d, e, f], " ") == a + " " + j1;
  }
}
