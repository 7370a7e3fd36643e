// ledgerx/history/tax.rs: tax lots, the FIFO matching of opening lots against
// closing ones, and the lines of the end-of-year tax report.
module Tax {
  import opened Strings
  import opened Wrappers
  import opened Decimals
  import opened UtcTime
  import opened Options
  import Assets
  import Contracts
  import CsvPrint
  import Prices

  // ---- global counters -------------------------------------------------------

  /**
   * The two process-wide atomics: `LOT_INDEX`, which numbers the generated lot
   * ids, and `DATE_OFFSET`, which skews sort dates apart.  Both start at 0.
   */
  class Counters {
    var lotIndex: nat
    var dateOffset: int

    constructor ()
      ensures lotIndex == 0 && dateOffset == 0
    {
      lotIndex := 0;
      dateOffset := 0;
    }

    /** `LotId::next_btc`. */
    method NextBtc() returns (id: string)
      modifies this
      ensures id == GeneratedId(BtcPrefix, old(lotIndex))
      ensures lotIndex == old(lotIndex) + 1 && dateOffset == old(dateOffset)
    {
      id := GeneratedId(BtcPrefix, lotIndex);
      lotIndex := lotIndex + 1;
    }

    /** `LotId::next_opt`: the same counter as for bitcoin lots. */
    method NextOpt() returns (id: string)
      modifies this
      ensures id == GeneratedId(OptPrefix, old(lotIndex))
      ensures lotIndex == old(lotIndex) + 1 && dateOffset == old(dateOffset)
    {
      id := GeneratedId(OptPrefix, lotIndex);
      lotIndex := lotIndex + 1;
    }

    /** `DATE_OFFSET.fetch_add(1)`. */
    method NextDateOffset() returns (offset: int)
      modifies this
      ensures offset == old(dateOffset) && dateOffset == old(dateOffset) + 1
      ensures lotIndex == old(lotIndex)
    {
      offset := dateOffset;
      dateOffset := dateOffset + 1;
    }
  }

  // ---- lot ids ---------------------------------------------------------------

  const BtcPrefix := "lx-btc-"
  const OptPrefix := "lx-opt-"

  /** A generated id: the prefix, then the index padded to three digits. */
  function GeneratedId(prefix: string, idx: nat): string
  {
    prefix + ZeroPad(idx, 3)
  }

  /**
   * Ids generated from different counter values differ, whatever their
   * prefixes, and a bitcoin id never equals an option id; none is empty, the
   * invalid id.
   */
  lemma GeneratedIdsDistinct(p: string, q: string, a: nat, b: nat)
    requires p in {BtcPrefix, OptPrefix} && q in {BtcPrefix, OptPrefix}
    requires GeneratedId(p, a) == GeneratedId(q, b)
    ensures a == b && p == q
  {
    var x, y := GeneratedId(p, a), GeneratedId(q, b);
    assert x[..7] == p && y[..7] == q;
    assert x[7..] == ZeroPad(a, 3) && y[7..] == ZeroPad(b, 3);
    ZeroPadInjective(a, b, 3);
  }

  /** `LotId::from_outpoint`: the first six hex digits of the txid, a dash, then the output index. */
  function FromOutpoint(txidHex: string, vout: nat): string
  {
    (if |txidHex| <= 6 then txidHex else txidHex[..6]) + "-" + ZeroPad(vout, 3)
  }

  /** `LotId::invalid`. */
  const InvalidId := ""

  /** `LotId`'s CSV printer: the invalid id is unreachable. */
  function PrintLotId(id: string): (r: Checked<string>)
    ensures r.Panic? <==> id == InvalidId
    ensures r.Done? ==> r.value == CsvPrint.PrintString(id)
  {
    if id == "" then Panic("tried to print invalid lot ID") else Done(CsvPrint.PrintString(id))
  }

  // ---- dates -----------------------------------------------------------------

  /** The whole second the report shows for `t`: seconds are rounded up past 500,000 microseconds. */
  function ReportSecond(t: Time): int
  {
    UnixSeconds(t) + (if Microsecond(t) > 500_000 then 1 else 0)
  }

  /** `TaxDate`'s CSV printer: `%FT%H:%M:%SZ` after the rounding. */
  function PrintTaxDate(t: Time): string
  {
    FormatDateTimeSeconds(if Microsecond(t) > 500_000 then t + NanosPerSecond else t)
  }

  /**
   * `ReportSecond(t)` is the second of the shifted time the printer formats,
   * and lies within half a second (and one microsecond) of `t`:
   * nearest-second rounding.
   */
  lemma ReportSecondNearest(t: Time)
    ensures UnixSeconds(if Microsecond(t) > 500_000 then t + NanosPerSecond else t) == ReportSecond(t)
    ensures UnixSeconds(FromUnixSeconds(ReportSecond(t))) == ReportSecond(t)
    ensures -NanosPerSecond - 2000 <= 2 * (FromUnixSeconds(ReportSecond(t)) - t) <= NanosPerSecond
  {
    var s := ReportSecond(t);
    var n := Nanosecond(t);
    assert t == UnixSeconds(t) * NanosPerSecond + n;
    assert Microsecond(t) > 500_000 <==> n >= 500_001_000;
    DivModUnique(if Microsecond(t) > 500_000 then t + NanosPerSecond else t, s, n, NanosPerSecond);
    DivModUnique(FromUnixSeconds(s), s, 0, NanosPerSecond);
  }

  /** The printed date is that of the whole second `ReportSecond(t)`. */
  lemma PrintTaxDateRounds(t: Time)
    ensures PrintTaxDate(t) == FormatDateTimeSeconds(FromUnixSeconds(ReportSecond(t)))
  {
    ReportSecondNearest(t);
    FormatSameSecond(if Microsecond(t) > 500_000 then t + NanosPerSecond else t, FromUnixSeconds(ReportSecond(t)));
  }

  // ---- labels ----------------------------------------------------------------

  /** A contract label as the tax report writes it. */
  datatype Label = Label(text: string)

  /** `Label::btc`. */
  const BtcLabel := Label("BTC")

  /** `Label::is_btc`. */
  predicate IsBtc(l: Label)
  {
    l.text == "BTC"
  }

  const StrikeNotInteger := "assertion failed: the strike has no cents"
  const StrikeTooSmall := "assertion failed: strike_int >= 1000"
  const StrikeTooLarge := "assertion failed: strike_int < 1000000"

  /**
   * `Label::from_contract`.  The strike is taken as an `i64` (`to_i64`
   * truncates; `unwrap` panics outside the range) and must be a whole number
   * of dollars from 1,000 up to but excluding 1,000,000.
   */
  function FromContract(c: Contracts.Contract): Checked<Label>
  {
    match c.ty
    case OptionType(_, opt) =>
      var strikeInt := Trunc(opt.strike);
      if !(I64Min <= strikeInt <= I64Max) then Panic("called `Option::unwrap()` on a `None` value")
      else if !IsInteger(opt.strike) then Panic(StrikeNotInteger)
      else if strikeInt < 1000 then Panic(StrikeTooSmall)
      else if strikeInt >= 1000000 then Panic(StrikeTooLarge)
      else
        Done(Label(Assets.UnderlyingName(c.underlying) + " Mini " + FormatDay(opt.expiry) + " " + AsStr(opt.pc) +
                   " $" + StrikeText(strikeInt) + ".00"))
    case NextDay(_) => Done(BtcLabel)
    case Future(_) => Panic("not implemented: future tax label")
  }

  /** `${},{:03}.00` of the strike: thousands, a comma, the last three digits. */
  function StrikeText(s: nat): string
  {
    NatToString(s / 1000) + "," + ZeroPad(s % 1000, 3)
  }

  /** Removing the comma from the strike text leaves the strike's digits. */
  lemma StrikeTextDigits(s: nat)
    requires 1000 <= s
    ensures RemoveChar(StrikeText(s), ',') == NatToString(s)
  {
    Prices.GroupedDigitsThousands(s);
  }

  /**
   * A label exists exactly for next-day contracts and for options with a
   * whole-dollar strike in [1000, 1000000); an option's label names the
   * underlying, the expiry day and put or call, and writes the strike's
   * digits with a comma before the last three.
   */
  lemma FromContractMeaning(c: Contracts.Contract)
    ensures FromContract(c).Done? <==>
      c.ty.NextDay? ||
      (c.ty.OptionType? && IsInteger(c.ty.opt.strike) && 1000 <= Trunc(c.ty.opt.strike) < 1000000)
    ensures c.ty.NextDay? ==> FromContract(c) == Done(BtcLabel)
    ensures FromContract(c).Done? && c.ty.OptionType? ==>
      var opt := c.ty.opt;
      var s := Trunc(opt.strike);
      s >= 1000 &&
      FromContract(c).value.text ==
        Assets.UnderlyingName(c.underlying) + " Mini " + FormatDay(opt.expiry) + " " + AsStr(opt.pc) +
        " $" + StrikeText(s) + ".00" &&
      RemoveChar(StrikeText(s), ',') == NatToString(s) && Value(opt.strike) == s as real
  {
    if FromContract(c).Done? && c.ty.OptionType? {
      StrikeTextDigits(Trunc(c.ty.opt.strike));
      IntegerValue(c.ty.opt.strike);
    }
  }

  /** A decimal equal to its integer part has that integer as its value. */
  lemma IntegerValue(d: Decimal)
    requires IsInteger(d)
    ensures Value(d) == Trunc(d) as real
  {
    var p := Pow10(d.scale);
    assert d.mantissa == Trunc(d) * p;
    assert Value(d) == (Trunc(d) * p) as real / p as real;
    CastMul(Trunc(d), p);
  }

  // ---- lots ------------------------------------------------------------------

  /** Whether cap gains are short or long term, or under section 1256 (60% long, 40% short). */
  datatype GainType = ShortTerm | LongTerm | Option1256

  /** The nature of a taxable "close position" event. */
  datatype CloseType = BuyBack | Sell | Expiry | Exercise | TxFee

  /** The direction of an open position. */
  datatype Direction = Short | Long

  function GainText(g: GainType): string
  {
    match g
    case ShortTerm => "Short-term"
    case LongTerm => "Long-term"
    case Option1256 => "-1256-"
  }

  function CloseText(c: CloseType): string
  {
    match c
    case BuyBack => "Buy Back"
    case Sell => "Sell"
    case Expiry => "Expired"
    case Exercise => "Exercised"
    case TxFee => "Transaction Fee"
  }

  /** The report's words name the types one to one, and none holds a comma. */
  lemma TextsDistinct(g: GainType, h: GainType, c: CloseType, d: CloseType)
    ensures GainText(g) == GainText(h) ==> g == h
    ensures CloseText(c) == CloseText(d) ==> c == d
    ensures ',' !in GainText(g) && ',' !in CloseText(c)
  {
  }

  /** `Direction::from_size`: negative sizes are short, zero and positive ones long. */
  function FromSize(s: int): Direction
  {
    if s < 0 then Short else Long
  }

  /** An event that creates or enlarges a position (quantities are sats or contracts in hundredths). */
  datatype Lot = Lot(
    id: string,
    closeTy: CloseType,
    direction: Direction,
    quantity: nat,
    price: Decimal,
    date: Time)

  /** `Lot::from_deposit_utxo`: a long lot identified by its outpoint. */
  function FromDepositUtxo(txidHex: string, vout: nat, price: Decimal, sizeSat: nat, date: Time): Lot
  {
    Lot(FromOutpoint(txidHex, vout), TxFee, Long, sizeSat, price, date)
  }

  /** `Lot::from_tx_fee`: a short lot of price zero with the invalid id. */
  function FromTxFee(sizeSat: nat, date: Time): Lot
  {
    Lot(InvalidId, TxFee, Short, sizeSat, Zero, date)
  }

  /**
   * A deposit opens a long lot whose id can be printed in the report; a fee
   * closes as a short lot at price zero, whose id must never be printed.
   */
  lemma DepositAndFeeLots(txidHex: string, vout: nat, price: Decimal, sizeSat: nat, date: Time)
    ensures var d := FromDepositUtxo(txidHex, vout, price, sizeSat, date);
      d.direction == Long && d.quantity == sizeSat && d.date == date && PrintLotId(d.id).Done?
    ensures var f := FromTxFee(sizeSat, date);
      f.direction == Short && f.quantity == sizeSat && Value(f.price) == 0.0 && PrintLotId(f.id).Panic?
  {
    var id := FromOutpoint(txidHex, vout);
    assert |id| >= 1;
  }

  /** The day of an option's expiry at 22:00 UTC, the time the exchange reports. */
  function ExpiryAt22(opt: OptionContract): Time
  {
    At(Days(opt.expiry), 22, 0, 0)
  }

  /** `Lot::from_expiry`. */
  function FromExpiry(opt: OptionContract, nExpired: int): Lot
  {
    Lot(InvalidId, Expiry, FromSize(nExpired), Abs(nExpired), Zero, ExpiryAt22(opt))
  }

  /** `Lot::from_assignment`: priced at the option's intrinsic value. */
  function FromAssignment(opt: OptionContract, nAssigned: int, btcPrice: Decimal): Lot
  {
    Lot(InvalidId, Exercise, FromSize(nAssigned), Abs(nAssigned), IntrinsicValue(opt, btcPrice), ExpiryAt22(opt))
  }

  /**
   * Expiry and assignment lots are dated 22:00:00 UTC on the day of the
   * option's expiry, are short exactly for negative counts, hold the count's
   * magnitude and carry no id; an assignment lot's price is non-negative
   * exactly when the option is in the money.
   */
  lemma SettlementLots(opt: OptionContract, n: int, btcPrice: Decimal)
    ensures var e := FromExpiry(opt, n);
      Days(e.date) == Days(opt.expiry) && Hour(e.date) == 22 && Minute(e.date) == 0 && Second(e.date) == 0 &&
      Nanosecond(e.date) == 0 && e.quantity == Abs(n) && (e.direction == Short <==> n < 0) &&
      e.id == InvalidId && Value(e.price) == 0.0
    ensures var a := FromAssignment(opt, n, btcPrice);
      a.date == FromExpiry(opt, n).date && a.direction == FromExpiry(opt, n).direction &&
      a.quantity == Abs(n) && a.closeTy == Exercise &&
      (Value(a.price) >= 0.0 <==> InTheMoney(opt, btcPrice))
  {
    AtFields(Days(opt.expiry), 22, 0, 0);
    InTheMoneyIffIntrinsicValue(opt, btcPrice);
  }

  /** The lot a trade makes once its id is known; `div` is rust_decimal's division. */
  function TradeLot(id: string, price: Decimal, size: int, fee: Decimal, date: Time, isBtc: bool,
                    div: (Decimal, Decimal) -> Decimal): Lot
  {
    var unitFee := div(fee, Decimal(size, if isBtc then 8 else 2));
    Lot(id, if size > 0 then BuyBack else Sell, FromSize(size), Abs(size), Add(price, unitFee), date)
  }

  /**
   * A trade lot holds the size's magnitude; a buy (positive size) is long and
   * closes by buying back, a sale is short and closes by selling; its price
   * is the trade price plus the fee per unit, the size counted in 10^-8
   * (bitcoin) or 10^-2 (options).
   */
  lemma TradeLotMeaning(id: string, price: Decimal, size: int, fee: Decimal, date: Time, isBtc: bool,
                        div: (Decimal, Decimal) -> Decimal)
    requires size != 0
    ensures var l := TradeLot(id, price, size, fee, date, isBtc, div);
      l.quantity == Abs(size) && l.quantity > 0 && l.id == id && l.date == date &&
      (l.closeTy == BuyBack <==> l.direction == Long) && (l.direction == Long <==> size > 0) &&
      Value(l.price) == Value(price) + Value(div(fee, Decimal(size, if isBtc then 8 else 2)))
  {
  }

  /**
   * `Lot::from_trade`.  The per-unit fee is computed first, so a size of zero
   * divides by zero and panics before any id is drawn; otherwise the next
   * bitcoin or option id is taken.
   */
  method FromTrade(counters: Counters, price: Decimal, size: int, fee: Decimal, date: Time, isBtc: bool,
                   div: (Decimal, Decimal) -> Decimal) returns (r: Checked<Lot>)
    modifies counters
    ensures r.Panic? <==> size == 0
    ensures r.Panic? ==> counters.lotIndex == old(counters.lotIndex)
    ensures r.Done? ==>
      r.value == TradeLot(GeneratedId(if isBtc then BtcPrefix else OptPrefix, old(counters.lotIndex)),
                          price, size, fee, date, isBtc, div) &&
      counters.lotIndex == old(counters.lotIndex) + 1
    ensures counters.dateOffset == old(counters.dateOffset)
  {
    if size == 0 {
      return Panic("Division by zero");
    }
    var id;
    if isBtc {
      id := counters.NextBtc();
    } else {
      id := counters.NextOpt();
    }
    r := Done(TradeLot(id, price, size, fee, date, isBtc, div));
  }

  // ---- closes and their report line -----------------------------------------

  /** A taxable close of (part of) an open lot. */
  datatype Close = Close(
    ty: CloseType,
    gainTy: GainType,
    openId: string,
    openDirection: Direction,
    openPrice: Decimal,
    openDate: Time,
    closePrice: Decimal,
    closeDate: Time,
    quantity: nat)

  /** The amount of a close in units: sats or hundredths of a contract scaled down. */
  function RealAmount(lbl: Label, quantity: nat): Decimal
  {
    Decimal(quantity, if IsBtc(lbl) then 8 else 2)
  }

  /** The description column: the amount and the label. */
  function Description(lbl: Label, quantity: nat): string
  {
    var amount := RealAmount(lbl, quantity);
    if lbl.text == "BTC" then
      if Value(amount) == Value(RoundDp(amount, 2)) then ToString(Rescale(amount, 2)) + ", " + lbl.text
      else ToString(amount) + ", " + lbl.text
    else IntToString(quantity) + ", " + lbl.text
  }

  /**
   * The values of one report line before printing: the close type, the
   * description, the two dates, basis and proceeds, and the gain type.
   */
  datatype CloseRow = CloseRow(
    ty: CloseType,
    description: string,
    firstDate: Time,
    secondDate: Time,
    basis: Decimal,
    proceeds: Decimal,
    gainTy: GainType)

  /**
   * The row of a close: the proceeds are the amount at the close price and the
   * basis the amount at the open price, both to cents; for a long open the two
   * dates and the two amounts trade places.
   */
  function RowOf(lbl: Label, c: Close): CloseRow
  {
    var amount := RealAmount(lbl, c.quantity);
    var proceeds := Rescale(Mul(amount, c.closePrice), 2);
    var basis := Rescale(Mul(amount, c.openPrice), 2);
    if c.openDirection == Long then
      CloseRow(c.ty, Description(lbl, c.quantity), c.openDate, c.closeDate, proceeds, basis, c.gainTy)
    else
      CloseRow(c.ty, Description(lbl, c.quantity), c.closeDate, c.openDate, basis, proceeds, c.gainTy)
  }

  /** The eleven printed columns: the row's values, basis minus proceeds, and three empty columns. */
  function RowColumns(r: CloseRow): seq<string>
  {
    [CloseText(r.ty), CsvPrint.PrintString(r.description)] + DateColumns(r) + AmountColumns(r) +
    [GainText(r.gainTy), "", "", ""]
  }

  /** The two date columns. */
  function DateColumns(r: CloseRow): (cols: seq<string>)
    ensures |cols| == 2
  {
    [PrintTaxDate(r.firstDate), PrintTaxDate(r.secondDate)]
  }

  /** The basis, the proceeds and their difference. */
  function AmountColumns(r: CloseRow): (cols: seq<string>)
    ensures |cols| == 3 && cols[2] == ToString(Sub(r.basis, r.proceeds))
  {
    [ToString(r.basis), ToString(r.proceeds), ToString(Sub(r.basis, r.proceeds))]
  }

  /** `CloseCsv::print`: the quantity must fit an `i64`; the open lot's id may follow. */
  function PrintClose(lbl: Label, c: Close, printLotId: bool): Checked<string>
  {
    if c.quantity > I64Max then Panic("called `Result::unwrap()` on an `Err` value")
    else
      var line := CsvPrint.PrintTuple(RowColumns(RowOf(lbl, c)));
      if !printLotId then Done(line)
      else
        match PrintLotId(c.openId)
        case Panic(why) => Panic(why)
        case Done(id) => Done(line + "," + id)
  }

  /** The description always holds a comma (before the label), so it is printed quoted. */
  lemma DescriptionQuoted(lbl: Label, quantity: nat)
    ensures ',' in Description(lbl, quantity)
    ensures CsvPrint.PrintString(Description(lbl, quantity)) == "\"" + Description(lbl, quantity) + "\""
  {
    var d := Description(lbl, quantity);
    var amount := RealAmount(lbl, quantity);
    var tail := ", " + lbl.text;
    var head := if lbl.text == "BTC" then
        (if Value(amount) == Value(RoundDp(amount, 2)) then ToString(Rescale(amount, 2)) else ToString(amount))
      else IntToString(quantity);
    assert d == head + tail;
    assert (head + tail)[|head|] == ',';
  }

  /**
   * For a short open the first date is the closing one and the basis is the
   * amount at the open price; for a long open the first date is the opening
   * one and the basis is the amount at the close price, with the proceeds
   * the amount at the open price.
   */
  lemma RowOfMeaning(lbl: Label, c: Close)
    ensures var r := RowOf(lbl, c);
      var amount := RealAmount(lbl, c.quantity);
      var atOpen, atClose := Rescale(Mul(amount, c.openPrice), 2), Rescale(Mul(amount, c.closePrice), 2);
      r.ty == c.ty && r.gainTy == c.gainTy && r.description == Description(lbl, c.quantity) &&
      (c.openDirection == Short ==>
        r.firstDate == c.closeDate && r.secondDate == c.openDate && r.basis == atOpen && r.proceeds == atClose) &&
      (c.openDirection == Long ==>
        r.firstDate == c.openDate && r.secondDate == c.closeDate && r.basis == atClose && r.proceeds == atOpen)
  {
  }

  /** The description of a printed row holds a comma and is therefore quoted. */
  lemma RowColumnsDescription(r: CloseRow)
    requires ',' in r.description
    ensures RowColumns(r)[1] == "\"" + r.description + "\""
  {
    CsvPrint.PrintStringQuotes(r.description);
  }

  /** A printed row has eleven columns; the gain column is the exact difference of the basis and the proceeds. */
  lemma RowColumnsGain(r: CloseRow)
    ensures |RowColumns(r)| == 11
    ensures RowColumns(r)[6] == ToString(Sub(r.basis, r.proceeds))
    ensures Value(Sub(r.basis, r.proceeds)) == Value(r.basis) - Value(r.proceeds)
  {
    var head := [CloseText(r.ty), CsvPrint.PrintString(r.description)] + DateColumns(r);
    var amounts := AmountColumns(r);
    var tail := [GainText(r.gainTy), "", "", ""];
    assert RowColumns(r) == (head + amounts) + tail;
    assert (head + amounts)[6] == amounts[2];
  }

  /**
   * A close prints when its quantity fits an `i64` and, if the id is wanted,
   * the open lot has a valid id.
   */
  lemma PrintCloseMeaning(lbl: Label, c: Close, printLotId: bool)
    ensures PrintClose(lbl, c, printLotId).Done? <==>
      c.quantity <= I64Max && (printLotId ==> c.openId != InvalidId)
  {
  }

  /** The printed line is the columns joined by commas, followed by the id when wanted. */
  lemma PrintCloseLine(lbl: Label, c: Close, printLotId: bool)
    requires PrintClose(lbl, c, printLotId).Done?
    ensures PrintClose(lbl, c, printLotId).value ==
      Join(RowColumns(RowOf(lbl, c)), ",") + (if printLotId then "," + CsvPrint.PrintString(c.openId) else "")
  {
    var cols := RowColumns(RowOf(lbl, c));
    assert PrintClose(lbl, c, printLotId).value ==
      CsvPrint.PrintTuple(cols) + (if printLotId then "," + CsvPrint.PrintString(c.openId) else "");
    CsvPrint.TupleIsJoin(cols);
  }

  /**
   * A bitcoin close of a whole number of hundredths of a bitcoin is described
   * with exactly two decimals: 1,500,000 sats read "0.01"-style, not "0.01500000".
   */
  lemma BtcDescriptionTwoDecimals(k: nat)
    ensures Description(BtcLabel, k * 1_000_000) == ToString(Decimal(k, 2)) + ", BTC"
  {
    var amount := RealAmount(BtcLabel, k * 1_000_000);
    assert amount == Decimal(k * 1_000_000, 8);
    Pow10Small();
    assert RoundDp(amount, 2) == Decimal(k, 2);
    assert Rescale(amount, 2) == Decimal(k, 2);
  }

  // ---- positions -------------------------------------------------------------

  /** A position's FIFO: opening lots keyed by their sort date, in key order (the `BTreeMap`). */
  type Fifo = seq<(Time, Lot)>

  /** Keys strictly increase. */
  ghost predicate Ascending(f: Fifo)
  {
    forall i, j :: 0 <= i < j < |f| ==> f[i].0 < f[j].0
  }

  /** Every lot of the queue faces the same way as the first. */
  ghost predicate OneDirection(f: Fifo)
  {
    forall i :: 0 <= i < |f| ==> f[i].1.direction == f[0].1.direction
  }

  /** The lot stored under key `k`. */
  function FifoLookup(f: Fifo, k: Time): Option<Lot>
  {
    if f == [] then None else if f[0].0 == k then Some(f[0].1) else FifoLookup(f[1..], k)
  }

  /** `BTreeMap::insert`: a new key goes in order, an existing one has its lot replaced. */
  function FifoInsert(f: Fifo, k: Time, v: Lot): Fifo
  {
    if f == [] then [(k, v)]
    else if k < f[0].0 then [(k, v)] + f
    else if k == f[0].0 then [(k, v)] + f[1..]
    else [f[0]] + FifoInsert(f[1..], k, v)
  }

  /** After an insert the key holds the new lot and every other key what it held. */
  lemma {:induction false} FifoInsertLookup(f: Fifo, k: Time, v: Lot, t: Time)
    ensures FifoLookup(FifoInsert(f, k, v), t) == if t == k then Some(v) else FifoLookup(f, t)
  {
    if f != [] && k > f[0].0 {
      FifoInsertLookup(f[1..], k, v, t);
      assert FifoInsert(f, k, v)[1..] == FifoInsert(f[1..], k, v);
    } else if f != [] && k < f[0].0 {
      assert FifoInsert(f, k, v)[1..] == f;
    } else if f != [] {
      assert FifoInsert(f, k, v)[1..] == f[1..];
    }
  }

  lemma AscendingTail(f: Fifo)
    requires Ascending(f) && f != []
    ensures Ascending(f[1..])
    ensures forall i :: 0 < i < |f| ==> f[0].0 < f[i].0
  {
    forall i, j | 0 <= i < j < |f[1..]| ensures f[1..][i].0 < f[1..][j].0 {
      assert f[1..][i] == f[i + 1] && f[1..][j] == f[j + 1];
    }
  }

  /**
   * An insert keeps the keys ordered, adds no lot but the new one, and adds
   * an entry exactly when the key is new.
   */
  lemma {:induction false} FifoInsertOrdered(f: Fifo, k: Time, v: Lot)
    requires Ascending(f)
    ensures Ascending(FifoInsert(f, k, v))
    ensures forall e :: e in FifoInsert(f, k, v) ==> e == (k, v) || e in f
    ensures |FifoInsert(f, k, v)| == |f| + (if FifoLookup(f, k).Some? then 0 else 1)
  {
    if f != [] {
      AscendingTail(f);
      if k > f[0].0 {
        FifoInsertOrdered(f[1..], k, v);
        FifoInsertBehindFront(f, k, v, FifoInsert(f[1..], k, v));
      } else if k < f[0].0 {
        FifoLookupBelow(f, k);
        forall i, j | 0 <= i < j < |[(k, v)] + f| ensures ([(k, v)] + f)[i].0 < ([(k, v)] + f)[j].0 {
          assert ([(k, v)] + f)[j] == f[j - 1];
          if i > 0 {
            assert ([(k, v)] + f)[i] == f[i - 1];
          }
        }
      } else {
        forall i, j | 0 <= i < j < |[(k, v)] + f[1..]|
          ensures ([(k, v)] + f[1..])[i].0 < ([(k, v)] + f[1..])[j].0
        {
          assert ([(k, v)] + f[1..])[j] == f[j];
          if i > 0 {
            assert ([(k, v)] + f[1..])[i] == f[i];
          }
        }
        forall e | e in [(k, v)] + f[1..] ensures e == (k, v) || e in f {
          if e != (k, v) {
            assert e in f[1..];
          }
        }
      }
    }
  }

  /** The step of an insert behind the front key: the front entry stays ahead of the rest. */
  lemma FifoInsertBehindFront(f: Fifo, k: Time, v: Lot, r: Fifo)
    requires Ascending(f) && f != [] && k > f[0].0
    requires Ascending(r) && forall e :: e in r ==> e == (k, v) || e in f[1..]
    ensures Ascending([f[0]] + r)
    ensures forall e :: e in [f[0]] + r ==> e == (k, v) || e in f
  {
    AscendingTail(f);
    forall i | 0 <= i < |r| ensures f[0].0 < r[i].0 {
      if r[i] != (k, v) {
        assert r[i] in f[1..];
        var j :| 0 <= j < |f[1..]| && f[1..][j] == r[i];
        assert f[j + 1] == r[i];
      }
    }
    forall i, j | 0 <= i < j < |[f[0]] + r| ensures ([f[0]] + r)[i].0 < ([f[0]] + r)[j].0 {
      if i == 0 {
        assert ([f[0]] + r)[j] == r[j - 1];
      } else {
        assert ([f[0]] + r)[i] == r[i - 1] && ([f[0]] + r)[j] == r[j - 1];
      }
    }
    forall e | e in [f[0]] + r ensures e == (k, v) || e in f {
      if e != f[0] {
        assert e in r;
        if e != (k, v) {
          assert e in f[1..];
        }
      }
    }
  }

  lemma {:induction false} FifoLookupBelow(f: Fifo, k: Time)
    requires Ascending(f) && f != [] && k < f[0].0
    ensures FifoLookup(f, k) == None
  {
    if |f| > 1 {
      AscendingTail(f);
      FifoLookupBelow(f[1..], k);
    }
  }

  /** The queue's total open quantity (`total_size`). */
  function Total(f: Fifo): nat
  {
    if f == [] then 0 else f[0].1.quantity + Total(f[1..])
  }

  /** The total quantity of a list of closes. */
  function ClosedQty(cs: seq<Close>): nat
  {
    if cs == [] then 0 else cs[0].quantity + ClosedQty(cs[1..])
  }

  /** The quantity of a lot that was left open, if any. */
  function RemQty(o: Option<Lot>): nat
  {
    if o.Some? then o.value.quantity else 0
  }

  /** Short-term within 365 days of the open, long-term after; options are section-1256 contracts. */
  function GainOf(closeDate: Time, openDate: Time, is1256: bool): (g: GainType)
    ensures g == Option1256 <==> is1256
    ensures g == ShortTerm <==> !is1256 && closeDate - openDate <= DaysSpan(365)
  {
    if is1256 then Option1256
    else if closeDate - openDate <= DaysSpan(365) then ShortTerm
    else LongTerm
  }

  /** A close of `front` by the lot `open`, of the given quantity. */
  function MakeClose(open: Lot, front: Lot, is1256: bool, quantity: nat): Close
  {
    Close(open.closeTy, GainOf(open.date, front.date, is1256), front.id, front.direction, front.price,
          front.date, open.price, open.date, quantity)
  }

  /** The outcome of pushing a lot: the new queue, the closes made, and the lot left open. */
  datatype Pushed = Pushed(fifo: Fifo, closes: seq<Close>, open: Option<Lot>)

  /**
   * The closing loop of `push_event`: while the incoming lot has quantity
   * left, the front lot is taken off; a front larger than what is left is
   * partly closed and goes back under its own key, otherwise it is closed in
   * full; when the queue runs dry the rest of the incoming lot opens a new
   * position under `sortDate`.
   */
  function Consume(fifo: Fifo, open: Lot, is1256: bool, sortDate: Time): Pushed
    decreases |fifo|
  {
    if open.quantity == 0 then Pushed(fifo, [], None)
    else if fifo == [] then Pushed([(sortDate, open)], [], Some(open))
    else
      var front := fifo[0].1;
      if front.quantity > open.quantity then
        Pushed(FifoInsert(fifo[1..], fifo[0].0, front.(quantity := front.quantity - open.quantity)),
               [MakeClose(open, front, is1256, open.quantity)], None)
      else
        var rest := Consume(fifo[1..], open.(quantity := open.quantity - front.quantity), is1256, sortDate);
        Pushed(rest.fifo, [MakeClose(open, front, is1256, front.quantity)] + rest.closes, rest.open)
  }

  /**
   * `Position::push_event`: into an empty queue, or one facing the same way,
   * the lot is inserted and opens; otherwise it closes lots first in, first out.
   */
  function PushEventSpec(fifo: Fifo, open: Lot, sortDate: Time, is1256: bool): Pushed
  {
    if fifo == [] || fifo[0].1.direction == open.direction then
      Pushed(FifoInsert(fifo, sortDate, open), [], Some(open))
    else Consume(fifo, open, is1256, sortDate)
  }

  /**
   * Nothing is lost: what was closed plus what was left open is the incoming
   * quantity, and the queue's total changes by what was left open less what
   * was closed.
   */
  lemma {:induction false} ConsumeConserves(fifo: Fifo, open: Lot, is1256: bool, sortDate: Time)
    requires Ascending(fifo)
    ensures var r := Consume(fifo, open, is1256, sortDate);
      ClosedQty(r.closes) + RemQty(r.open) == open.quantity &&
      Total(r.fifo) + ClosedQty(r.closes) == Total(fifo) + RemQty(r.open)
    decreases |fifo|
  {
    var r := Consume(fifo, open, is1256, sortDate);
    if open.quantity > 0 && fifo != [] {
      var front := fifo[0].1;
      AscendingTail(fifo);
      if front.quantity > open.quantity {
        var front' := front.(quantity := front.quantity - open.quantity);
        assert r.fifo == [(fifo[0].0, front')] + fifo[1..];
        assert r.fifo[1..] == fifo[1..];
        assert r.closes[1..] == [];
      } else {
        var open' := open.(quantity := open.quantity - front.quantity);
        var rest := Consume(fifo[1..], open', is1256, sortDate);
        ConsumeConserves(fifo[1..], open', is1256, sortDate);
        assert r.closes[1..] == rest.closes;
      }
    } else if open.quantity > 0 {
      assert r.fifo[1..] == [];
    }
  }

  /**
   * Closes follow the queue's order: the `j`th close closes the `j`th lot,
   * never more than it holds, and each carries the incoming lot's close
   * type, price and date.
   */
  lemma {:induction false} ConsumeOrder(fifo: Fifo, open: Lot, is1256: bool, sortDate: Time)
    ensures var r := Consume(fifo, open, is1256, sortDate);
      |r.closes| <= |fifo| &&
      forall j :: 0 <= j < |r.closes| ==>
        r.closes[j] == MakeClose(open, fifo[j].1, is1256, r.closes[j].quantity) &&
        r.closes[j].quantity <= fifo[j].1.quantity && (r.closes[j].quantity == 0 ==> fifo[j].1.quantity == 0)
    decreases |fifo|
  {
    var r := Consume(fifo, open, is1256, sortDate);
    if open.quantity > 0 && fifo != [] && fifo[0].1.quantity <= open.quantity {
      var open' := open.(quantity := open.quantity - fifo[0].1.quantity);
      var rest := Consume(fifo[1..], open', is1256, sortDate);
      ConsumeOrder(fifo[1..], open', is1256, sortDate);
      forall j | 1 <= j < |r.closes|
        ensures r.closes[j] == MakeClose(open, fifo[j].1, is1256, r.closes[j].quantity)
        ensures r.closes[j].quantity <= fifo[j].1.quantity && (r.closes[j].quantity == 0 ==> fifo[j].1.quantity == 0)
      {
        assert r.closes[j] == rest.closes[j - 1] && fifo[j] == fifo[1..][j - 1];
      }
    }
  }

  /** Every close but the last closes its lot in full. */
  lemma {:induction false} ConsumeFull(fifo: Fifo, open: Lot, is1256: bool, sortDate: Time)
    ensures var r := Consume(fifo, open, is1256, sortDate);
      |r.closes| <= |fifo| && forall j :: 0 <= j < |r.closes| - 1 ==> r.closes[j].quantity == fifo[j].1.quantity
    decreases |fifo|
  {
    var r := Consume(fifo, open, is1256, sortDate);
    if open.quantity > 0 && fifo != [] && fifo[0].1.quantity <= open.quantity {
      var open' := open.(quantity := open.quantity - fifo[0].1.quantity);
      var rest := Consume(fifo[1..], open', is1256, sortDate);
      ConsumeFull(fifo[1..], open', is1256, sortDate);
      forall j | 1 <= j < |r.closes| - 1 ensures r.closes[j].quantity == fifo[j].1.quantity {
        assert r.closes[j] == rest.closes[j - 1] && fifo[j] == fifo[1..][j - 1];
      }
    }
  }

  /**
   * A lot left open means the whole queue was closed and the rest of the
   * incoming lot, under `sortDate`, is all that is queued.
   */
  lemma {:induction false} ConsumeOpened(fifo: Fifo, open: Lot, is1256: bool, sortDate: Time)
    ensures var r := Consume(fifo, open, is1256, sortDate);
      r.open.Some? ==>
        open.quantity > 0 && |r.closes| == |fifo| && r.fifo == [(sortDate, r.open.value)] &&
        r.open.value == open.(quantity := r.open.value.quantity) && r.open.value.quantity > 0
    decreases |fifo|
  {
    if open.quantity > 0 && fifo != [] && fifo[0].1.quantity <= open.quantity {
      ConsumeOpened(fifo[1..], open.(quantity := open.quantity - fifo[0].1.quantity), is1256, sortDate);
    }
  }

  /**
   * What the queue becomes when nothing is left open.  After `k` closes the
   * queue is its tail from `k`, behind which the `k`th lot stays, reduced,
   * under its own key, when it was only partly closed; an empty incoming lot
   * changes nothing.
   */
  lemma {:induction false} ConsumeRemainder(fifo: Fifo, open: Lot, is1256: bool, sortDate: Time)
    requires Ascending(fifo)
    ensures var r := Consume(fifo, open, is1256, sortDate);
      r.open.None? && open.quantity > 0 ==>
        var k := |r.closes|;
        1 <= k <= |fifo| &&
        (r.fifo == fifo[k..] ||
         (r.fifo != [] && r.fifo == [(fifo[k - 1].0, fifo[k - 1].1.(quantity := r.fifo[0].1.quantity))] + fifo[k..] &&
          0 < r.fifo[0].1.quantity < fifo[k - 1].1.quantity))
    ensures open.quantity == 0 ==> Consume(fifo, open, is1256, sortDate) == Pushed(fifo, [], None)
    decreases |fifo|
  {
    var r := Consume(fifo, open, is1256, sortDate);
    if open.quantity > 0 && fifo != [] {
      var front := fifo[0].1;
      AscendingTail(fifo);
      if front.quantity > open.quantity {
        FifoInsertFront(fifo, front.(quantity := front.quantity - open.quantity));
      } else {
        var open' := open.(quantity := open.quantity - front.quantity);
        var rest := Consume(fifo[1..], open', is1256, sortDate);
        ConsumeRemainder(fifo[1..], open', is1256, sortDate);
        var k := |rest.closes|;
        assert |r.closes| == k + 1;
        if rest.open.None? && open'.quantity > 0 {
          assert fifo[1..][k - 1] == fifo[k] && fifo[1..][k..] == fifo[k + 1..];
        } else if rest.open.None? {
          assert fifo[1..] == fifo[1..][0..];
        }
      }
    }
  }

  /** Re-inserting under the front key of an ordered queue replaces the front lot in place. */
  lemma FifoInsertFront(f: Fifo, v: Lot)
    requires Ascending(f) && f != []
    ensures FifoInsert(f[1..], f[0].0, v) == [(f[0].0, v)] + f[1..]
  {
    AscendingTail(f);
  }

  lemma AscendingSuffix(f: Fifo, k: nat)
    requires Ascending(f) && OneDirection(f) && k <= |f|
    ensures Ascending(f[k..]) && OneDirection(f[k..])
    ensures k < |f| ==> f[k..][0].1.direction == f[0].1.direction
  {
    forall i, j | 0 <= i < j < |f[k..]| ensures f[k..][i].0 < f[k..][j].0 {
      assert f[k..][i] == f[k + i] && f[k..][j] == f[k + j];
    }
    forall i | 0 <= i < |f[k..]| ensures f[k..][i].1.direction == f[k..][0].1.direction {
      assert f[k..][i] == f[k + i] && f[k..][0] == f[k];
    }
  }

  /** The closing loop keeps the queue ordered and facing one way. */
  lemma ConsumeValid(fifo: Fifo, open: Lot, is1256: bool, sortDate: Time)
    requires Ascending(fifo) && OneDirection(fifo)
    ensures var r := Consume(fifo, open, is1256, sortDate);
      Ascending(r.fifo) && OneDirection(r.fifo) &&
      (r.open.None? && r.fifo != [] && fifo != [] ==> r.fifo[0].1.direction == fifo[0].1.direction)
  {
    ConsumeOpened(fifo, open, is1256, sortDate);
    ConsumeRemainder(fifo, open, is1256, sortDate);
    var r := Consume(fifo, open, is1256, sortDate);
    if r.open.None? && open.quantity > 0 {
      var k := |r.closes|;
      if r.fifo == fifo[k..] {
        AscendingSuffix(fifo, k);
      } else {
        ReplacedFrontValid(fifo, k, r.fifo[0].1.quantity);
      }
    } else if open.quantity == 0 {
      assert r.fifo == fifo;
    }
  }

  /** A suffix of the queue whose first lot has a new quantity is still ordered and facing one way. */
  lemma ReplacedFrontValid(f: Fifo, k: nat, q: nat)
    requires Ascending(f) && OneDirection(f) && 1 <= k <= |f|
    ensures var g := [(f[k - 1].0, f[k - 1].1.(quantity := q))] + f[k..];
      Ascending(g) && OneDirection(g) && g[0].1.direction == f[0].1.direction
  {
    var g := [(f[k - 1].0, f[k - 1].1.(quantity := q))] + f[k..];
    assert forall i :: 0 < i < |g| ==> g[i] == f[k - 1 + i];
    forall i, j | 0 <= i < j < |g| ensures g[i].0 < g[j].0 {
      assert g[i].0 == f[k - 1 + i].0;
    }
    forall i | 0 <= i < |g| ensures g[i].1.direction == g[0].1.direction {
      assert g[i].1.direction == f[k - 1 + i].1.direction;
    }
  }

  /** A lot pushed into a queue keeps it ordered and facing one way. */
  lemma PushEventValid(fifo: Fifo, open: Lot, sortDate: Time, is1256: bool)
    requires Ascending(fifo) && OneDirection(fifo)
    ensures Ascending(PushEventSpec(fifo, open, sortDate, is1256).fifo)
    ensures OneDirection(PushEventSpec(fifo, open, sortDate, is1256).fifo)
  {
    if fifo == [] || fifo[0].1.direction == open.direction {
      FifoInsertOrdered(fifo, sortDate, open);
      var r := FifoInsert(fifo, sortDate, open);
      assert r != [] by {
        FifoInsertLookup(fifo, sortDate, open, sortDate);
      }
      forall i | 0 <= i < |r| ensures r[i].1.direction == open.direction {
        assert r[i] in r;
      }
    } else {
      ConsumeValid(fifo, open, is1256, sortDate);
    }
  }

  /**
   * A push either only opens, leaving the incoming lot whole, or closes lots
   * facing the other way, first in first out; in both cases nothing is lost.
   * A queue that is empty or faces the incoming lot's way takes the lot under
   * `sortDate`, replacing a lot already queued under that key.
   */
  lemma PushEventMeaning(fifo: Fifo, open: Lot, sortDate: Time, is1256: bool)
    requires Ascending(fifo) && OneDirection(fifo)
    ensures var r := PushEventSpec(fifo, open, sortDate, is1256);
      ClosedQty(r.closes) + RemQty(r.open) == open.quantity && |r.closes| <= |fifo| &&
      (forall j :: 0 <= j < |r.closes| ==>
        (r.closes[j].openDirection != open.direction &&
         r.closes[j] == MakeClose(open, fifo[j].1, is1256, r.closes[j].quantity))) &&
      ((fifo == [] || fifo[0].1.direction == open.direction) <==>
        (r.closes == [] && r.open == Some(open) && r.fifo == FifoInsert(fifo, sortDate, open)))
  {
    if !(fifo == [] || fifo[0].1.direction == open.direction) {
      ConsumeConserves(fifo, open, is1256, sortDate);
      ConsumeOrder(fifo, open, is1256, sortDate);
      ConsumeFull(fifo, open, is1256, sortDate);
      ConsumeOpened(fifo, open, is1256, sortDate);
      ConsumeRemainder(fifo, open, is1256, sortDate);
      var r := Consume(fifo, open, is1256, sortDate);
      forall j | 0 <= j < |r.closes| ensures r.closes[j].openDirection != open.direction {
        assert fifo[j].1.direction == fifo[0].1.direction;
      }
      if open.quantity > 0 {
        assert r.closes != [];
      }
    }
  }

  /** The quantity an insert under `k` overwrites: that of the lot already queued there. */
  function Overwritten(f: Fifo, k: Time): nat
  {
    match FifoLookup(f, k)
    case None => 0
    case Some(l) => l.quantity
  }

  /** An insert adds the new lot's quantity and drops that of the lot it replaces. */
  lemma {:induction false} FifoInsertTotal(f: Fifo, k: Time, v: Lot)
    requires Ascending(f)
    ensures Total(FifoInsert(f, k, v)) + Overwritten(f, k) == Total(f) + v.quantity
  {
    if f != [] {
      AscendingTail(f);
      if k > f[0].0 {
        FifoInsertTotal(f[1..], k, v);
        assert FifoInsert(f, k, v)[1..] == FifoInsert(f[1..], k, v);
      } else if k < f[0].0 {
        FifoLookupBelow(f, k);
        assert FifoInsert(f, k, v)[1..] == f;
      } else {
        assert FifoInsert(f, k, v)[1..] == f[1..];
      }
    }
  }

  /**
   * The queue's total after a push: it gains what was left open and loses
   * what was closed, and, when the lot is queued under a key already in use,
   * the quantity of the lot it replaces.
   */
  lemma PushEventTotal(fifo: Fifo, open: Lot, sortDate: Time, is1256: bool)
    requires Ascending(fifo)
    ensures var r := PushEventSpec(fifo, open, sortDate, is1256);
      var lost := if fifo == [] || fifo[0].1.direction == open.direction then Overwritten(fifo, sortDate) else 0;
      Total(r.fifo) + ClosedQty(r.closes) + lost == Total(fifo) + RemQty(r.open)
  {
    if fifo == [] || fifo[0].1.direction == open.direction {
      FifoInsertTotal(fifo, sortDate, open);
    } else {
      ConsumeConserves(fifo, open, is1256, sortDate);
    }
  }

  /** `Position`: the queue of open lots of one asset. */
  class Position {
    var fifo: Fifo

    ghost predicate Valid()
      reads this
    {
      Ascending(fifo) && OneDirection(fifo)
    }

    /** `Position::new`: no open lots. */
    constructor ()
      ensures Valid() && fifo == []
    {
      fifo := [];
    }

    /** A position holding the given queue (a clone out of a tracker's map). */
    constructor Holding(f: Fifo)
      requires Ascending(f) && OneDirection(f)
      ensures Valid() && fifo == f
    {
      fifo := f;
    }

    /** `total_size`: the sum of the open quantities. */
    function TotalSize(): nat
      reads this
    {
      Total(fifo)
    }

    /** `direction`: that of the first open lot, if any. */
    function Direction(): (d: Option<Direction>)
      reads this
      requires Valid()
      ensures d.None? <==> fifo == []
      ensures d.Some? ==> forall i :: 0 <= i < |fifo| ==> fifo[i].1.direction == d.value
    {
      if fifo == [] then None else Some(fifo[0].1.direction)
    }

    /**
     * `push_event`: the queue and the result are those of `PushEventSpec`.
     * The loop pops the front lot while the incoming lot has quantity left;
     * each front faces the other way, which the source asserts.
     */
    method PushEvent(lot: Lot, sortDate: Time, is1256: bool) returns (closes: seq<Close>, rem: Option<Lot>)
      requires Valid()
      modifies this
      ensures Valid()
      ensures Pushed(fifo, closes, rem) == PushEventSpec(old(fifo), lot, sortDate, is1256)
    {
      PushEventValid(fifo, lot, sortDate, is1256);
      if fifo == [] || fifo[0].1.direction == lot.direction {
        fifo := FifoInsert(fifo, sortDate, lot);
        return [], Some(lot);
      }
      ghost var goal := Consume(fifo, lot, is1256, sortDate);
      var open := lot;
      closes := [];
      assert closes + goal.closes == goal.closes;
      while open.quantity > 0
        invariant Closing(goal, fifo, open, closes, lot, is1256, sortDate)
        decreases open.quantity, |fifo|
      {
        if fifo == [] {
          fifo := [(sortDate, open)];
          assert closes + [] == closes;
          return closes, Some(open);
        }
        var frontDate, front := fifo[0].0, fifo[0].1;
        assert front.direction != open.direction;
        if front.quantity > open.quantity {
          var close := MakeClose(open, front, is1256, open.quantity);
          var rest := FifoInsert(fifo[1..], frontDate, front.(quantity := front.quantity - open.quantity));
          SplitStep(goal, fifo, open, closes, lot, is1256, sortDate);
          fifo := rest;
          open := open.(quantity := 0);
          closes := closes + [close];
        } else {
          var close := MakeClose(open, front, is1256, front.quantity);
          WholeStep(goal, fifo, open, closes, lot, is1256, sortDate);
          fifo := fifo[1..];
          open := open.(quantity := open.quantity - front.quantity);
          closes := closes + [close];
        }
      }
      assert closes + [] == closes;
      rem := None;
    }
  }

  /**
   * The invariant of the closing loop: the incoming lot keeps its direction,
   * the queue still faces the other way while quantity is left, and closing
   * what is left from here completes the closes made so far to the goal.
   */
  ghost predicate Closing(goal: Pushed, fifo: Fifo, open: Lot, closes: seq<Close>, lot: Lot, is1256: bool, sortDate: Time)
  {
    open.direction == lot.direction &&
    (open.quantity > 0 ==> OneDirection(fifo) && (fifo != [] ==> fifo[0].1.direction != open.direction)) &&
    var r := Consume(fifo, open, is1256, sortDate);
    goal == Pushed(r.fifo, closes + r.closes, r.open)
  }

  lemma SplitStep(goal: Pushed, fifo: Fifo, open: Lot, closes: seq<Close>, lot: Lot, is1256: bool, sortDate: Time)
    requires Closing(goal, fifo, open, closes, lot, is1256, sortDate)
    requires fifo != [] && open.quantity > 0 && fifo[0].1.quantity > open.quantity
    ensures Closing(goal, FifoInsert(fifo[1..], fifo[0].0, fifo[0].1.(quantity := fifo[0].1.quantity - open.quantity)),
                    open.(quantity := 0), closes + [MakeClose(open, fifo[0].1, is1256, open.quantity)], lot, is1256, sortDate)
  {
    ConsumeSplit(fifo, open, is1256, sortDate);
    var c := MakeClose(open, fifo[0].1, is1256, open.quantity);
    assert closes + [c] + [] == closes + [c];
  }

  lemma WholeStep(goal: Pushed, fifo: Fifo, open: Lot, closes: seq<Close>, lot: Lot, is1256: bool, sortDate: Time)
    requires Closing(goal, fifo, open, closes, lot, is1256, sortDate)
    requires fifo != [] && open.quantity > 0 && fifo[0].1.quantity <= open.quantity
    ensures Closing(goal, fifo[1..], open.(quantity := open.quantity - fifo[0].1.quantity),
                    closes + [MakeClose(open, fifo[0].1, is1256, fifo[0].1.quantity)], lot, is1256, sortDate)
  {
    ConsumeWhole(fifo, open, is1256, sortDate);
    OneDirectionTail(fifo);
    var c := MakeClose(open, fifo[0].1, is1256, fifo[0].1.quantity);
    var rest := Consume(fifo[1..], open.(quantity := open.quantity - fifo[0].1.quantity), is1256, sortDate);
    assert closes + ([c] + rest.closes) == closes + [c] + rest.closes;
  }

  /** One partial close: the front lot is bigger than what is left of the incoming one. */
  lemma ConsumeSplit(fifo: Fifo, open: Lot, is1256: bool, sortDate: Time)
    requires fifo != [] && open.quantity > 0 && fifo[0].1.quantity > open.quantity
    ensures Consume(fifo, open, is1256, sortDate) ==
      Pushed(FifoInsert(fifo[1..], fifo[0].0, fifo[0].1.(quantity := fifo[0].1.quantity - open.quantity)),
             [MakeClose(open, fifo[0].1, is1256, open.quantity)], None)
  {
  }

  /** One full close: the front lot is no bigger than what is left of the incoming one. */
  lemma ConsumeWhole(fifo: Fifo, open: Lot, is1256: bool, sortDate: Time)
    requires fifo != [] && open.quantity > 0 && fifo[0].1.quantity <= open.quantity
    ensures var rest := Consume(fifo[1..], open.(quantity := open.quantity - fifo[0].1.quantity), is1256, sortDate);
      Consume(fifo, open, is1256, sortDate) ==
        Pushed(rest.fifo, [MakeClose(open, fifo[0].1, is1256, fifo[0].1.quantity)] + rest.closes, rest.open)
  {
  }

  lemma OneDirectionTail(f: Fifo)
    requires OneDirection(f) && f != []
    ensures OneDirection(f[1..]) && (|f| > 1 ==> f[1..][0].1.direction == f[0].1.direction)
  {
    forall i | 0 <= i < |f[1..]| ensures f[1..][i].1.direction == f[1..][0].1.direction {
      assert f[1..][i] == f[i + 1];
    }
  }

  // ---- the tracker -------------------------------------------------------------

  /** An opening or a closing tax event. */
  datatype OpenClose = Opened(lot: Lot) | Closed(close: Close)

  /** A logged tax event: its date, the asset's label and what happened. */
  datatype Event = Event(date: Time, lbl: Label, openClose: OpenClose)

  /** The events a push logs: one per close, in order, then the lot left open, if any. */
  function EventsOf(date: Time, lbl: Label, closes: seq<Close>, open: Option<Lot>): (es: seq<Event>)
    ensures |es| == |closes| + (if open.Some? then 1 else 0)
    ensures forall j :: 0 <= j < |closes| ==> es[j] == Event(date, lbl, Closed(closes[j]))
    ensures open.Some? ==> es[|es| - 1] == Event(date, lbl, Opened(open.value))
  {
    ClosedEvents(date, lbl, closes) + (if open.Some? then [Event(date, lbl, Opened(open.value))] else [])
  }

  function ClosedEvents(date: Time, lbl: Label, cs: seq<Close>): (es: seq<Event>)
    ensures |es| == |cs| && forall j :: 0 <= j < |cs| ==> es[j] == Event(date, lbl, Closed(cs[j]))
  {
    seq(|cs|, j requires 0 <= j < |cs| => Event(date, lbl, Closed(cs[j])))
  }

  /**
   * `PositionTracker`: one position per label, and the log of tax events.
   * A position is a plain value in the source's map, so the map holds each
   * label's queue.
   */
  class PositionTracker {
    var positions: map<Label, Fifo>
    var events: seq<Event>

    ghost predicate Valid()
      reads this
    {
      forall l :: l in positions ==> Ascending(positions[l]) && OneDirection(positions[l])
    }

    /** The queue of a label; a label never seen has an empty one (`or_default`). */
    function FifoOf(l: Label): (f: Fifo)
      reads this
      requires Valid()
      ensures Ascending(f) && OneDirection(f)
      ensures l !in positions ==> f == []
    {
      if l in positions then positions[l] else []
    }

    /** `PositionTracker::new`: no positions, no events. */
    constructor ()
      ensures Valid() && positions == map[] && events == []
    {
      positions := map[];
      events := [];
    }

    /**
     * `push_lot`: the sort date is skewed by the next date offset, the lot is
     * pushed into its label's position (bitcoin lots are not section-1256
     * contracts), every close and then any lot left open is logged under the
     * lot's date, and the number of closes is returned.  Only that label's
     * position changes, and `r` is the outcome of the push.
     */
    method PushLot(counters: Counters, lbl: Label, lot: Lot, sortDate: Time) returns (n: nat, ghost r: Pushed)
      requires Valid()
      modifies this, counters
      ensures Valid()
      ensures counters.dateOffset == old(counters.dateOffset) + 1 && counters.lotIndex == old(counters.lotIndex)
      ensures r == PushEventSpec(old(FifoOf(lbl)), lot, sortDate + old(counters.dateOffset), !IsBtc(lbl))
      ensures positions == old(positions)[lbl := r.fifo]
      ensures n == |r.closes| && events == old(events) + EventsOf(lot.date, lbl, r.closes, r.open)
    {
      var offset := counters.NextDateOffset();
      var pos := new Position.Holding(FifoOf(lbl));
      var closes, open := pos.PushEvent(lot, sortDate + offset, !IsBtc(lbl));
      r := Pushed(pos.fifo, closes, open);
      positions := positions[lbl := pos.fifo];
      n := |closes|;
      Log(lbl, lot.date, closes, open);
    }

    /** The logging half of `push_lot`: every close, then any lot left open, under one date. */
    method Log(lbl: Label, date: Time, closes: seq<Close>, open: Option<Lot>)
      modifies this
      ensures positions == old(positions)
      ensures events == old(events) + EventsOf(date, lbl, closes, open)
    {
      var i := 0;
      ghost var start := events;
      while i < |closes|
        invariant i <= |closes| && positions == old(positions)
        invariant events == start + ClosedEvents(date, lbl, closes[..i])
      {
        assert closes[..i + 1] == closes[..i] + [closes[i]];
        events := events + [Event(date, lbl, Closed(closes[i]))];
        i := i + 1;
      }
      assert closes[..i] == closes;
      if open.Some? {
        events := events + [Event(date, lbl, Opened(open.value))];
      }
    }
  }
}
