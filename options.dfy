// option.rs: a put or call option, its symbol (`2023-01-27C10000`),
// moneyness and intrinsic value.
module Options {
  import opened Strings
  import opened Wrappers
  import opened Decimals
  import opened Prices
  import opened UtcTime

  datatype PutCall = Call | Put

  /** `as_str`. */
  function AsStr(pc: PutCall): string
  {
    match pc
    case Call => "Call"
    case Put => "Put"
  }

  /** `to_char`. */
  function ToChar(pc: PutCall): char
  {
    match pc
    case Call => 'C'
    case Put => 'P'
  }

  /** The two spellings name the same choice: the character is the first letter of the word. */
  lemma SpellingsAgree(a: PutCall, b: PutCall)
    ensures ToChar(a) == AsStr(a)[0]
    ensures AsStr(a) == AsStr(b) <==> a == b
    ensures ToChar(a) == ToChar(b) <==> a == b
  {
  }

  datatype OptionContract = OptionContract(pc: PutCall, strike: Price, expiry: Time)

  /** `Display`: the `%F` expiry date, 'C' or 'P', then the strike in plain display. */
  function Display(o: OptionContract): string
  {
    FormatDay(o.expiry) + [ToChar(o.pc)] + Prices.Display(o.strike)
  }

  datatype SymbolError = NotAscii | TooShort | BadExpiry | BadPutCall(symbol: char) | BadStrike

  /** `from_str`. */
  function FromStr(s: string): Result<OptionContract, SymbolError>
  {
    if !IsAscii(s) then Err(NotAscii)
    else if |s| < 12 then Err(TooShort)
    else
      match ParseOptionExpiry(s[..10])
      case None => Err(BadExpiry)
      case Some(expiry) =>
        var c := s[10];
        if c != 'C' && c != 'c' && c != 'P' && c != 'p' then Err(BadPutCall(c))
        else
          var pc := if c == 'C' || c == 'c' then Call else Put;
          match Decimals.Parse(s[11..])
          case None => Err(BadStrike)
          case Some(strike) => Ok(OptionContract(pc, strike, expiry))
  }

  /** What `from_str` accepts, field by field, and which error it reports first. */
  lemma FromStrFields(s: string)
    ensures !IsAscii(s) ==> FromStr(s) == Err(NotAscii)
    ensures IsAscii(s) && |s| < 12 ==> FromStr(s) == Err(TooShort)
    ensures FromStr(s).Ok? <==>
              IsAscii(s) && |s| >= 12 && ParseOptionExpiry(s[..10]).Some? && s[10] in "CcPp"
              && Decimals.Parse(s[11..]).Some?
    ensures FromStr(s).Ok? ==>
              var o := FromStr(s).value;
              o.expiry == ParseOptionExpiry(s[..10]).value && o.strike == Decimals.Parse(s[11..]).value
              && (o.pc == Call <==> s[10] in "Cc")
  {
  }

  /**
   * A displayed option reads back with the same put/call and its strike
   * rounded to cents, whenever its `%F` date parses.
   */
  lemma FromStrDisplay(o: OptionContract)
    requires 0 <= DateOf(o.expiry).year <= 9999
    ensures var r := FromStr(Display(o));
            match ParseOptionExpiry(FormatDay(o.expiry))
            case None => r == Err(BadExpiry)
            case Some(e) => r == Ok(OptionContract(o.pc, Rounded(o.strike), e))
  {
    var f, c, p := FormatDay(o.expiry), ToChar(o.pc), Prices.Display(o.strike);
    assert |f| == 10 && IsAscii(f) by {
      FormatDayShape(o.expiry);
    }
    assert |p| >= 1 && IsAscii(p) && Decimals.Parse(p) == Some(Rounded(o.strike)) by {
      DisplayShape(o.strike);
      DisplayAscii(o.strike);
      DisplayReadsBack(o.strike);
    }
    assert (if c == 'C' then Call else Put) == o.pc;
    FromStrOfParts(f, c, p);
    assert Display(o) == f + [c] + p;
  }

  lemma FromStrOfParts(f: string, c: char, p: string)
    requires |f| == 10 && IsAscii(f) && (c == 'C' || c == 'P') && IsAscii(p) && |p| >= 1
    ensures FromStr(f + [c] + p) ==
              match ParseOptionExpiry(f)
              case None => Err(BadExpiry)
              case Some(e) =>
                match Decimals.Parse(p)
                case None => Err(BadStrike)
                case Some(x) => Ok(OptionContract(if c == 'C' then Call else Put, x, e))
  {
    SymbolParts(f, c, p);
  }

  /** A symbol put together from a ten-character date, one character and a strike. */
  lemma SymbolParts(f: string, c: char, p: string)
    requires |f| == 10 && IsAscii(f) && c < 128 as char && IsAscii(p) && |p| >= 1
    ensures var s := f + [c] + p;
            IsAscii(s) && |s| >= 12 && s[..10] == f && s[10] == c && s[11..] == p
  {
    var s := f + [c] + p;
    assert forall i :: 0 <= i < |s| ==> s[i] == (if i < 10 then f[i] else if i == 10 then c else p[i - 11]);
  }

  /** `in_the_money`: exactly at the money counts as in the money for both kinds. */
  predicate InTheMoney(o: OptionContract, price: Price)
  {
    match o.pc
    case Call => Value(o.strike) <= Value(price)
    case Put => Value(o.strike) >= Value(price)
  }

  /** `intrinsic_value`. */
  function IntrinsicValue(o: OptionContract, price: Price): Price
  {
    match o.pc
    case Call => Sub(price, o.strike)
    case Put => Sub(o.strike, price)
  }

  lemma InTheMoneyIffIntrinsicValue(o: OptionContract, price: Price)
    ensures InTheMoney(o, price) <==> Value(IntrinsicValue(o, price)) >= 0.0
    ensures Value(IntrinsicValue(o, price)) == if o.pc == Call then Value(price) - Value(o.strike) else Value(o.strike) - Value(price)
  {
  }

  /** A call and a put of the same strike are both in the money exactly at the strike. */
  lemma AtTheMoney(strike: Price, expiry: Time, price: Price)
    ensures InTheMoney(OptionContract(Call, strike, expiry), price) && InTheMoney(OptionContract(Put, strike, expiry), price)
            <==> Value(price) == Value(strike)
  {
  }
}

// `Option::max_sale` returns a `Quantity`, and quantities depend on assets,
// which hold options; so it sits in a module of its own.
module OptionSales {
  import opened Decimals
  import opened Prices
  import opened Options
  import Quantities

  /**
   * `max_sale`: how many of this option can be sold short with the given
   * cash and coins, and the cash locked per 100 contracts (with a $25 fee on
   * puts).  `fromBtc` and `fromRatio` stand for `Quantity::contracts_from_btc`
   * and `Quantity::contracts_from_ratio`, which are not part of this model.
   */
  function MaxSale(o: OptionContract, salePrice: Price, availableUsd: Price, availableBtc: nat,
                   fromBtc: nat -> Quantities.Quantity, fromRatio: (Price, Price) -> Quantities.Quantity): (Quantities.Quantity, Price)
  {
    match o.pc
    case Call => (fromBtc(availableBtc), Decimals.Zero)
    case Put =>
      if Value(salePrice) > Value(o.strike) then (Quantities.Zero, Decimals.Zero)
      else
        var locked := Decimals.Add(Decimals.Sub(o.strike, salePrice), FromInt(25));
        (fromRatio(availableUsd, locked), locked)
  }

  /** The cash locked per 100: nothing for calls, zero and no sale for an overpriced put, else strike - sale + $25. */
  lemma MaxSaleCost(o: OptionContract, salePrice: Price, availableUsd: Price, availableBtc: nat,
                    fromBtc: nat -> Quantities.Quantity, fromRatio: (Price, Price) -> Quantities.Quantity)
    ensures var (n, cost) := MaxSale(o, salePrice, availableUsd, availableBtc, fromBtc, fromRatio);
            Value(cost) >= 0.0
            && (o.pc == Call ==> Value(cost) == 0.0 && n == fromBtc(availableBtc))
            && (o.pc == Put && Value(salePrice) > Value(o.strike) ==> n == Quantities.Zero && Value(cost) == 0.0)
            && (o.pc == Put && Value(salePrice) <= Value(o.strike) ==>
                  Value(cost) == Value(o.strike) - Value(salePrice) + 25.0 && n == fromRatio(availableUsd, cost))
  {
  }
}
