// units/asset.rs: the kinds of asset the program handles and the
// conversions and names between them.
module Assets {
  import opened Strings
  import opened Wrappers
  import opened Prices
  import opened UtcTime
  import opened Options

  /** A kind of asset which may underlie an option. */
  datatype Underlying = Btc | Eth

  /** Every kind of asset the program handles. */
  datatype Asset =
    | Btc
    | Eth
    | Usd
    | NextDay(underlying: Underlying, expiry: Time)
    | Option(underlying: Underlying, option: OptionContract)
    | Future(underlying: Underlying, expiry: Time)

  /** A kind of asset that can be deposited or withdrawn. */
  datatype DepositAsset = Btc | Eth | Usd

  /** A kind of asset reflected in the yearly tax reports. */
  datatype TaxAsset =
    | Bitcoin
    | NextDay(underlying: Underlying, expiry: Time)
    | Option(underlying: Underlying, option: OptionContract)

  /** A kind of asset reflected in the budget spreadsheet. */
  datatype BudgetAsset =
    | Btc
    | Eth
    | Usd
    | Option(underlying: Underlying, option: OptionContract)

  /** `From<DepositAsset> for Asset`: note that a deposit of ether becomes bitcoin. */
  function AssetOfDeposit(d: DepositAsset): Asset
  {
    match d
    case Btc => Asset.Btc
    case Eth => Asset.Btc
    case Usd => Asset.Usd
  }

  /** `From<TaxAsset> for Asset`. */
  function AssetOfTax(t: TaxAsset): Asset
  {
    match t
    case Bitcoin => Asset.Btc
    case NextDay(u, e) => Asset.NextDay(u, e)
    case Option(u, o) => Asset.Option(u, o)
  }

  /** `From<TaxAsset> for BudgetAsset`: a day-ahead swap counts as bitcoin. */
  function BudgetOfTax(t: TaxAsset): BudgetAsset
  {
    match t
    case Bitcoin => BudgetAsset.Btc
    case NextDay(_, _) => BudgetAsset.Btc
    case Option(u, o) => BudgetAsset.Option(u, o)
  }

  /** `From<DepositAsset> for BudgetAsset`. */
  function BudgetOfDeposit(d: DepositAsset): BudgetAsset
  {
    match d
    case Btc => BudgetAsset.Btc
    case Usd => BudgetAsset.Usd
    case Eth => BudgetAsset.Eth
  }

  /** `From<BudgetAsset> for Asset`. */
  function AssetOfBudget(b: BudgetAsset): Asset
  {
    match b
    case Btc => Asset.Btc
    case Eth => Asset.Eth
    case Usd => Asset.Usd
    case Option(u, o) => Asset.Option(u, o)
  }

  /** `From<Underlying> for Asset`. */
  function AssetOfUnderlying(u: Underlying): Asset
  {
    match u
    case Btc => Asset.Btc
    case Eth => Asset.Eth
  }

  /** `is_bitcoin_like`. */
  predicate IsBitcoinLike(t: TaxAsset)
  {
    match t
    case Bitcoin => true
    case NextDay(_, _) => true
    case Option(_, _) => false
  }

  /** `is_1256`: section 1256 contracts, i.e. the options. */
  predicate Is1256(t: TaxAsset)
  {
    match t
    case Bitcoin => false
    case NextDay(_, _) => false
    case Option(_, _) => true
  }

  /** Every tax asset is either bitcoin-like or a section 1256 option, never both. */
  lemma BitcoinLikeOr1256(t: TaxAsset)
    ensures Is1256(t) == !IsBitcoinLike(t)
    ensures IsBitcoinLike(t) <==> t.Bitcoin? || t.NextDay?
    ensures Is1256(t) <==> t.Option?
  {
  }

  /** Converting through the budget kinds agrees with the direct conversion except for day-ahead swaps. */
  lemma TaxConversionsCommute(t: TaxAsset)
    ensures AssetOfBudget(BudgetOfTax(t)) == AssetOfTax(t) <==> !t.NextDay?
  {
  }

  /** The two conversions of a deposit kind disagree exactly on ether. */
  lemma DepositConversionsCommute(d: DepositAsset)
    ensures AssetOfBudget(BudgetOfDeposit(d)) == AssetOfDeposit(d) <==> d != DepositAsset.Eth
  {
  }

  /** Each conversion keeps an option's underlying and contract. */
  lemma ConversionsKeepOptions(t: TaxAsset)
    requires t.Option?
    ensures AssetOfTax(t) == Asset.Option(t.underlying, t.option)
    ensures BudgetOfTax(t) == BudgetAsset.Option(t.underlying, t.option)
    ensures AssetOfBudget(BudgetOfTax(t)) == AssetOfTax(t)
  {
  }

  /** `Display for Underlying`. */
  function UnderlyingName(u: Underlying): string
  {
    match u
    case Btc => "BTC"
    case Eth => "ETH"
  }

  /** The name of an underlying tells it apart, and matches the asset it converts to. */
  lemma UnderlyingNames(u: Underlying, v: Underlying)
    ensures UnderlyingName(u) == UnderlyingName(v) <==> u == v
    ensures AssetOfUnderlying(u) == (if UnderlyingName(u) == "BTC" then Asset.Btc else Asset.Eth)
  {
  }

  /**
   * `Display for TaxAsset`: the strike is printed with `{:#}` as the source
   * writes it, so the zeros inside a thousands group are dropped.
   */
  function TaxAssetName(t: TaxAsset): (r: Checked<string>)
    ensures r.Panic? <==> t.Option? && AltDisplayPanics(t.option.strike)
  {
    match t
    case Bitcoin => Done("BTC")
    case NextDay(_, _) => Done("BTC")
    case Option(u, o) =>
      match AltDisplayAsWritten(o.strike)
      case Panic(why) => Panic(why)
      case Done(strike) => Done(OptionNamePrefix(u, o) + strike)
  }

  /** The name of an option up to its strike: underlying, "Mini", `%F` expiry date and put or call. */
  function OptionNamePrefix(u: Underlying, o: OptionContract): string
  {
    UnderlyingName(u) + " Mini " + FormatDay(o.expiry) + " " + AsStr(o.pc) + " "
  }

  /** The same name with the strike's thousands groups zero padded, as the display is meant to work. */
  function TaxAssetNameIntended(t: TaxAsset): (r: Checked<string>)
    ensures r.Panic? <==> t.Option? && AltDisplayPanics(t.option.strike)
  {
    match t
    case Bitcoin => Done("BTC")
    case NextDay(_, _) => Done("BTC")
    case Option(u, o) =>
      AltDisplayPanicsExactly(o.strike);
      match AltDisplay(o.strike)
      case Panic(why) => Panic(why)
      case Done(strike) => Done(OptionNamePrefix(u, o) + strike)
  }

  /**
   * The two names panic alike, differ only in the strike text, and agree on
   * every asset but an option struck at a thousand dollars or more.
   */
  lemma TaxAssetNamesAgree(t: TaxAsset)
    ensures TaxAssetName(t).Done? <==> TaxAssetNameIntended(t).Done?
    ensures t.Option? && TaxAssetName(t).Done? ==>
      TaxAssetName(t).value == OptionNamePrefix(t.underlying, t.option) + AltDisplayAsWritten(t.option.strike).value &&
      TaxAssetNameIntended(t).value == OptionNamePrefix(t.underlying, t.option) + AltDisplay(t.option.strike).value
    ensures !t.Option? || (t.option.strike.mantissa >= 0 && Decimals.Trunc(t.option.strike) < 1000) ==>
      TaxAssetName(t) == TaxAssetNameIntended(t)
  {
    if t.Option? {
      var o := t.option;
      AltDisplayPanicsExactly(o.strike);
      if o.strike.mantissa >= 0 && Decimals.Trunc(o.strike) < 1000 {
        AltDisplaysAgreeBelowThousand(o.strike);
      }
    }
  }

  /**
   * A $25,000 call on bitcoin is named with the strike "$25,0.00" as
   * written, where "$25,000.00" is meant.
   */
  lemma TaxAssetNameRoundThousands(o: OptionContract)
    requires o.strike == Decimals.Decimal(25000, 0) && o.pc == Call
    ensures TaxAssetName(TaxAsset.Option(Underlying.Btc, o)) == Done("BTC Mini " + FormatDay(o.expiry) + " Call " + "$25,0.00")
    ensures TaxAssetNameIntended(TaxAsset.Option(Underlying.Btc, o)) == Done("BTC Mini " + FormatDay(o.expiry) + " Call " + "$25,000.00")
  {
    AltDisplayOf25000(o.strike);
    BtcCallPrefix(o);
    assert TaxAssetName(TaxAsset.Option(Underlying.Btc, o)) == Done(OptionNamePrefix(Underlying.Btc, o) + "$25,0.00");
    assert TaxAssetNameIntended(TaxAsset.Option(Underlying.Btc, o)) == Done(OptionNamePrefix(Underlying.Btc, o) + "$25,000.00");
  }

  lemma BtcCallPrefix(o: OptionContract)
    requires o.pc == Call
    ensures OptionNamePrefix(Underlying.Btc, o) == "BTC Mini " + FormatDay(o.expiry) + " Call "
  {
  }

  /** Exactly the bitcoin-like tax assets are named "BTC", under either strike rendering. */
  lemma TaxAssetNameBtc(t: TaxAsset)
    ensures TaxAssetName(t) == Done("BTC") <==> IsBitcoinLike(t)
    ensures TaxAssetNameIntended(t) == Done("BTC") <==> IsBitcoinLike(t)
  {
    if t.Option? && TaxAssetName(t).Done? {
      assert |TaxAssetName(t).value| > 3;
      assert |TaxAssetNameIntended(t).value| > 3;
    }
  }

  /** The three-letter month names of the 2022 format. */
  function MonthName(m: int): Option<string>
  {
    if m == 1 then Some("JAN") else if m == 2 then Some("FEB") else if m == 3 then Some("MAR")
    else if m == 4 then Some("APR") else if m == 5 then Some("MAY") else if m == 6 then Some("JUN")
    else if m == 7 then Some("JUL") else if m == 8 then Some("AUG") else if m == 9 then Some("SEP")
    else if m == 10 then Some("OCT") else if m == 11 then Some("NOV") else if m == 12 then Some("DEC")
    else None
  }

  /** Every month has a name of three capital letters, no two alike; nothing else has one. */
  lemma MonthNames(m: int, n: int)
    ensures MonthName(m).Some? <==> 1 <= m <= 12
    ensures MonthName(m).Some? ==> |MonthName(m).value| == 3
    ensures MonthName(m).Some? && MonthName(n).Some? ==> (MonthName(m) == MonthName(n) <==> m == n)
  {
  }

  /**
   * `Display for TaxAsset2022`: `BTC-Mini-27JAN2023-10000-Call`.  `strikeInt`
   * stands for `Price::to_int`, which is not part of this model.
   */
  function TaxAssetName2022(t: TaxAsset, strikeInt: Price -> int): Checked<string>
  {
    match t
    case Bitcoin => Done("BTC")
    case NextDay(_, _) => Done("BTC")
    case Option(u, o) =>
      var d := DateOf(o.expiry);
      match MonthName(d.month)
      case None => Panic("invalid month")
      case Some(mon) =>
        Done(UnderlyingName(u) + "-Mini-" + ZeroPad(d.day, 2) + mon + IntToString(d.year)
             + "-" + IntToString(strikeInt(o.strike)) + "-" + AsStr(o.pc))
  }

  /** The month panic cannot happen: every calendar date has a month from 1 to 12. */
  lemma TaxAssetName2022Total(t: TaxAsset, strikeInt: Price -> int)
    ensures TaxAssetName2022(t, strikeInt).Done?
    ensures IsBitcoinLike(t) <==> TaxAssetName2022(t, strikeInt) == Done("BTC")
  {
    if t.Option? {
      MonthNames(DateOf(t.option.expiry).month, 1);
      assert |TaxAssetName2022(t, strikeInt).value| > 3;
    }
  }
}
