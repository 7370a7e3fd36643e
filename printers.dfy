// csv.rs: the column printer of the CSV reports (`PrintCsv`).  Each
// printer is a function from a value to the text of its column(s).
module CsvPrint {
  import opened Strings
  import opened Wrappers
  import opened Decimals
  import opened Prices
  import opened UtcTime
  import opened Options
  import opened Assets

  /** A tuple: its columns in order, with a comma before every column but the first. */
  function PrintTuple(cols: seq<string>): string
  {
    TupleFrom(cols, false)
  }

  /** The tuple printer's loop, with `comma` saying whether a column has been printed. */
  function TupleFrom(cols: seq<string>, comma: bool): string
    decreases |cols|
  {
    if cols == [] then ""
    else (if comma then "," else "") + cols[0] + TupleFrom(cols[1..], true)
  }

  lemma {:induction false} TupleFromJoin(cols: seq<string>, comma: bool)
    requires |cols| >= 1
    ensures TupleFrom(cols, comma) == (if comma then "," else "") + Join(cols, ",")
    decreases |cols|
  {
    if |cols| > 1 {
      TupleFromJoin(cols[1..], true);
    } else {
      assert cols[1..] == [];
    }
  }

  /** The columns, separated by exactly one comma each. */
  lemma TupleIsJoin(cols: seq<string>)
    ensures PrintTuple(cols) == Join(cols, ",")
  {
    if |cols| >= 1 {
      TupleFromJoin(cols, false);
    }
  }

  /** Columns without commas of their own are read back by splitting the line at commas. */
  lemma TupleColumns(cols: seq<string>)
    requires |cols| >= 1 && forall c :: c in cols ==> ',' !in c
    ensures Split(PrintTuple(cols), ',') == cols
  {
    TupleIsJoin(cols);
    JoinSplit(cols, ',');
  }

  /** A string: wrapped in double quotes when it holds a comma, else verbatim; quotes inside are not escaped. */
  function PrintString(s: string): string
  {
    if ',' in s then "\"" + s + "\"" else s
  }

  lemma PrintStringQuotes(s: string)
    ensures ',' in s ==> PrintString(s) == "\"" + s + "\"" && |PrintString(s)| == |s| + 2
    ensures ',' !in s ==> PrintString(s) == s
    ensures PrintString(s) == s || PrintString(s)[1..|PrintString(s)| - 1] == s
  {
  }

  /** An absent value prints as nothing, i.e. as an empty column. */
  function PrintOption(o: Option<string>): (r: string)
    ensures o.None? ==> r == ""
  {
    match o
    case None => ""
    case Some(p) => p
  }

  /** An implied volatility; `floatText` stands for the display of a float (floating point is not modelled). */
  function PrintIv(iv: Result<real, real>, floatText: real -> string): string
  {
    match iv
    case Ok(v) => floatText(v)
    case Err(_) => "\"free money\""
  }

  lemma PrintIvColumns(iv: Result<real, real>, floatText: real -> string)
    ensures iv.Err? ==> PrintIv(iv, floatText) == "\"" + "free money" + "\""
    ensures iv.Ok? ==> PrintIv(iv, floatText) == floatText(iv.value)
  {
  }

  /** A budget asset in three columns; an option whose underlying is not BTC fails `assert_eq!`. */
  function PrintBudgetAsset(b: BudgetAsset): Checked<string>
  {
    match b
    case Btc => Done(",BTC,")
    case Eth => Done(",ETH,")
    case Usd => Done(",USD,")
    case Option(u, o) =>
      if u != Underlying.Btc then Panic("non-BTC budget asset ID")
      else Done(FormatDateTimeNanos(o.expiry) + "," + [ToChar(o.pc)] + "," + Prices.Display(o.strike))
  }

  /** Every budget asset prints exactly three columns, the middle one naming it. */
  lemma BudgetAssetColumns(b: BudgetAsset)
    ensures PrintBudgetAsset(b).Panic? <==> b.Option? && b.underlying != Underlying.Btc
    ensures PrintBudgetAsset(b).Done? ==> |Split(PrintBudgetAsset(b).value, ',')| == 3
    ensures b.Btc? ==> Split(PrintBudgetAsset(b).value, ',') == ["", "BTC", ""]
    ensures b.Option? && b.underlying == Underlying.Btc ==>
              Split(PrintBudgetAsset(b).value, ',')
              == [FormatDateTimeNanos(b.option.expiry), [ToChar(b.option.pc)], Prices.Display(b.option.strike)]
  {
    match b
    case Option(u, o) =>
      if u == Underlying.Btc {
        var t, c, p := FormatDateTimeNanos(o.expiry), [ToChar(o.pc)], Prices.Display(o.strike);
        assert ',' !in t by { DateTimeNoComma(o.expiry); }
        assert ',' !in p by { DisplayNoComma(o.strike); }
        ThreeColumns(t, c, p);
      }
    case _ =>
      var name := if b.Btc? then "BTC" else if b.Eth? then "ETH" else "USD";
      assert PrintBudgetAsset(b).value == "" + "," + name + "," + "";
      ThreeColumns("", name, "");
  }

  lemma ThreeColumns(a: string, b: string, c: string)
    requires ',' !in a && ',' !in b && ',' !in c
    ensures Split(a + "," + b + "," + c, ',') == [a, b, c]
  {
    assert Join([a, b, c], ",") == a + "," + b + "," + c by {
      assert [a, b, c][1..] == [b, c] && [b, c][1..] == [c];
      assert Join([c], ",") == c;
      assert Join([b, c], ",") == b + "," + c;
      assert Join([a, b, c], ",") == a + "," + (b + "," + c);
    }
    JoinSplit([a, b, c], ',');
  }

  lemma DateTimeNoComma(t: Time)
    ensures ',' !in FormatDateTimeNanos(t)
  {
    DayNoComma(t);
    ClockNoComma(t);
    DigitsHaveNo(ZeroPad(Nanosecond(t), 9), ',');
  }

  lemma ClockNoComma(t: Time)
    ensures ',' !in FormatClock(t)
  {
    DigitsHaveNo(ZeroPad(Hour(t), 2), ',');
    DigitsHaveNo(ZeroPad(Minute(t), 2), ',');
    DigitsHaveNo(ZeroPad(Second(t), 2), ',');
  }

  lemma DayNoComma(t: Time)
    ensures ',' !in FormatDay(t)
  {
    var d := DateOf(t);
    var y := FormatYear(d.year);
    assert ',' !in y by {
      if 0 <= d.year <= 9999 {
        DigitsHaveNo(ZeroPad(d.year, 4), ',');
      } else if d.year > 9999 {
        DigitsHaveNo(NatToString(d.year), ',');
      } else {
        DigitsHaveNo(ZeroPad(-d.year, 4), ',');
      }
    }
    DigitsHaveNo(ZeroPad(d.month, 2), ',');
    DigitsHaveNo(ZeroPad(d.day, 2), ',');
  }

  lemma DisplayNoComma(p: Price)
    ensures ',' !in Prices.Display(p)
  {
    var d := Rounded(p);
    var digits := Digits(d);
    var k := |digits| - 2;
    assert Body(d) == digits[..k] + "." + digits[k..];
    DigitsHaveNo(digits[..k], ',');
    DigitsHaveNo(digits[k..], ',');
  }

  /** The quantity type this printer was written against: it has a cents variant. */
  datatype CsvQuantity = Zero | Bitcoin(sat: int) | Cents(n: int) | Contracts(n: int)

  /**
   * A quantity.  `btcText` stands for the bitcoin library's `display_in(Bitcoin)`,
   * which is not part of this model.
   */
  function PrintQuantity(q: CsvQuantity, btcText: int -> string): (r: string)
    ensures q.Cents? ==> Decimals.Parse(r) == Some(Decimal(q.n, 2))
  {
    match q
    case Bitcoin(s) => btcText(s)
    case Cents(n) => CentsTextReadsBack(n); CentsText(n)
    case Contracts(n) => IntToString(n)
    case Zero => "0"
  }

  /** `{}.{:02}` of `n / 100` and `n % 100` exactly as written, with Rust's truncating division. */
  function CentsAsWritten(n: int): string
  {
    IntToString(TruncDiv(n, 100)) + "." + SignedZeroPad(TruncRem(n, 100), 2)
  }

  /** Cents as dollars and two-digit cents, with the sign in front of the whole amount. */
  function CentsText(n: int): string
  {
    (if n < 0 then "-" else "") + CentsBody(Decimals.Abs(n))
  }

  function CentsBody(a: nat): string
  {
    NatToString(a / 100) + "." + ZeroPad(a % 100, 2)
  }

  /** The written form and the intended one agree on every amount that is not negative. */
  lemma CentsAgreeNonnegative(n: int)
    requires n >= 0
    ensures CentsAsWritten(n) == CentsText(n)
  {
  }

  /** A negative amount with a nonzero cents part gets a second minus sign after the point. */
  lemma CentsMinusTwice(n: int)
    requires n == -150
    ensures CentsAsWritten(n) == "-1" + "." + "-50"
    ensures CentsText(n) == "-1" + "." + "50"
  {
    assert TruncDiv(n, 100) == -1 && TruncRem(n, 100) == -50;
    assert NatToString(1) == "1";
    assert ZeroPad(50, 1) == "50" && ZeroPad(50, 2) == "50" by {
      assert NatToString(5) == "5" && NatToString(50) == "50";
    }
  }

  /** The intended cents text reads back as the same number of cents. */
  lemma CentsTextReadsBack(n: int)
    ensures Decimals.Parse(CentsText(n)) == Some(Decimal(n, 2))
  {
    var a := Decimals.Abs(n);
    CentsBodyParses(a);
    Decimals.ParseSigned(CentsBody(a), Decimal(a, 2), n < 0);
  }

  lemma CentsBodyParses(a: nat)
    ensures ParseUnsigned(CentsBody(a)) == Some(Decimal(a, 2)) && IsDigit(CentsBody(a)[0])
  {
    var ip, fp := NatToString(a / 100), ZeroPad(a % 100, 2);
    assert |fp| == 2 by {
      SmallNatLength(a % 100, 2);
    }
    assert DigitsValue(ip + fp) == a by {
      DigitsValueAppend(ip, fp);
      NatToStringInverse(a / 100);
      ZeroPadInverse(a % 100, 2);
    }
    ParseUnsignedDigits(ip, fp);
    assert CentsBody(a) == ip + "." + fp;
    assert CentsBody(a)[0] == ip[0];
  }

  /** A tax asset: its name in double quotes. */
  function PrintTaxAsset(t: TaxAsset): (r: Checked<string>)
    ensures r.Panic? <==> TaxAssetName(t).Panic?
    ensures r.Done? ==>
      |r.value| >= 2 && r.value[0] == '"' && r.value[|r.value| - 1] == '"' &&
      r.value[1..|r.value| - 1] == TaxAssetName(t).value
  {
    match TaxAssetName(t)
    case Panic(why) => Panic(why)
    case Done(name) => Done("\"" + name + "\"")
  }
}
