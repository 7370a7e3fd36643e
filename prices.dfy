// units/price.rs: a price in dollars, its plain display (rounded to cents)
// and its alternate display (`{:#}`: dollar sign, thousands separators,
// truncated cents).
module Prices {
  import opened Strings
  import opened Wrappers
  import opened Decimals

  /** `Price` wraps a `Decimal`; prices compare and are equal by value. `FromStr` is `Decimals.Parse`. */
  type Price = Decimal

  /** The decimal the plain display prints: `round_dp(2)` (ties to even), then `rescale(2)`. */
  function Rounded(p: Price): (r: Decimal)
    ensures r.scale == 2
  {
    Rescale(RoundDp(p, 2), 2)
  }

  /** `{}`. */
  function Display(p: Price): string
  {
    ToString(Rounded(p))
  }

  /** The plain display always ends in a point and exactly two digits. */
  lemma DisplayShape(p: Price)
    ensures var s := Display(p);
            |s| >= 4 && s[|s| - 3] == '.' && IsDigit(s[|s| - 2]) && IsDigit(s[|s| - 1])
  {
    var d := Rounded(p);
    var digits := Digits(d);
    var k := |digits| - 2;
    assert Body(d) == digits[..k] + "." + digits[k..];
    assert |digits[k..]| == 2;
    assert IsDigit(digits[k..][0]) && IsDigit(digits[k..][1]);
  }

  /** The plain display is ASCII text. */
  lemma DisplayAscii(p: Price)
    ensures IsAscii(Display(p))
  {
    var d := Rounded(p);
    var digits := Digits(d);
    var k := |digits| - 2;
    assert Body(d) == digits[..k] + "." + digits[k..];
    DigitsAscii(digits);
    assert forall i :: 0 <= i < |Body(d)| ==> Body(d)[i] == '.' || IsDigit(Body(d)[i]);
  }

  /** The plain display reads back as the price rounded to cents. */
  lemma DisplayReadsBack(p: Price)
    ensures Decimals.Parse(Display(p)) == Some(Rounded(p))
  {
    ParseToString(Rounded(p));
  }

  /** A price with at most two decimals is displayed exactly. */
  lemma RoundedExact(p: Price)
    requires p.scale <= 2
    ensures Value(Rounded(p)) == Value(p)
  {
    RescaleExact(p, 2);
  }

  /** A price with more decimals is displayed within half a cent. */
  lemma RoundedClose(p: Price)
    requires p.scale > 2
    ensures var u := Pow10(p.scale - 2);
            -(u as int) <= 2 * (Rescaled(Rounded(p), p.scale) - p.mantissa) <= u
  {
    assert Pow10(0) == 1;
    assert Rounded(p) == RoundDp(p, 2);
    RoundDpClose(p, 2);
  }

  /** The plain display of a price of at least a dollar splits its cents digits off with a point. */
  lemma DisplayDigits(p: Price, digits: string)
    requires Rounded(p).mantissa >= 100 && NatToString(Rounded(p).mantissa) == digits
    ensures |digits| >= 3
    ensures Display(p) == digits[..|digits| - 2] + "." + digits[|digits| - 2..]
  {
    var m := Rounded(p).mantissa;
    SmallNatLength3(m);
    assert Digits(Rounded(p)) == digits;
  }

  lemma SmallNatLength3(m: nat)
    requires m >= 100
    ensures |NatToString(m)| >= 3
  {
    assert NatToString(m) == NatToString(m / 10) + [DigitChar(m % 10)];
    assert NatToString(m / 10) == NatToString(m / 100) + [DigitChar(m / 10 % 10)];
  }

  /** The unit-test vectors of the plain display: two decimals, always. */
  lemma DisplayExample1(p: Price)
    requires p == Decimal(123, 0)
    ensures Display(p) == "123" + "." + "00"
  {
    assert Pow10(2) == 100;
    assert Rounded(p) == Decimal(12300, 2);
    assert NatToString(12300) == "12300" by {
      assert NatToString(1) == "1";
      assert NatToString(12) == "12";
      assert NatToString(123) == "123";
      assert NatToString(1230) == "1230";
    }
    DisplayDigits(p, "12300");
  }

  lemma DisplayExample2(p: Price)
    requires p == Decimal(1234, 1)
    ensures Display(p) == "123" + "." + "40"
  {
    assert Pow10(1) == 10;
    assert Rounded(p) == Decimal(12340, 2);
    assert NatToString(12340) == "12340" by {
      assert NatToString(1) == "1";
      assert NatToString(12) == "12";
      assert NatToString(123) == "123";
      assert NatToString(1234) == "1234";
    }
    DisplayDigits(p, "12340");
  }

  lemma DisplayExample3(p: Price)
    requires p == Decimal(12304, 2)
    ensures Display(p) == "123" + "." + "04"
  {
    assert Pow10(0) == 1;
    assert Rounded(p) == Decimal(12304, 2);
    assert NatToString(12304) == "12304" by {
      assert NatToString(1) == "1";
      assert NatToString(12) == "12";
      assert NatToString(123) == "123";
      assert NatToString(1230) == "1230";
    }
    DisplayDigits(p, "12304");
  }

  /** `FromStr` accepts plain decimals and refuses what the unit tests refuse. */
  lemma ParseExamples()
    ensures Decimals.Parse("123") == Some(Decimal(123, 0))
    ensures Decimals.Parse("123.45") == Some(Decimal(12345, 2))
    ensures Decimals.Parse("123xy") == None
    ensures Decimals.Parse("$1000") == None
    ensures Decimals.Parse("$1,000") == None
    ensures Decimals.Parse("1,000") == None
  {
    ParseWhole("123");
    ParseCents("123.45");
    ParseRejects("123xy", 3);
    ParseRejects("$1000", 0);
    ParseRejects("$1,000", 0);
    ParseRejects("1,000", 1);
  }

  lemma ParseWhole(s: string)
    requires s == "123"
    ensures Decimals.Parse(s) == Some(Decimal(123, 0))
  {
    var d := Decimal(123, 0);
    WholeText(d, s);
    ParseToString(d);
  }

  lemma WholeText(d: Decimal, s: string)
    requires d == Decimal(123, 0) && s == "123"
    ensures ToString(d) == s
  {
    WholeDigits(d);
  }

  lemma WholeDigits(d: Decimal)
    requires d == Decimal(123, 0)
    ensures Digits(d) == "123"
  {
    assert NatToString(123) == "123" by {
      assert NatToString(1) == "1" && NatToString(12) == "12";
    }
  }

  lemma ParseCents(s: string)
    requires s == "123.45"
    ensures Decimals.Parse(s) == Some(Decimal(12345, 2))
  {
    var d := Decimal(12345, 2);
    CentsText(d, s);
    ParseToString(d);
  }

  lemma CentsText(d: Decimal, s: string)
    requires d == Decimal(12345, 2) && s == "123.45"
    ensures ToString(d) == s
  {
    CentsDigits(d);
  }

  lemma CentsDigits(d: Decimal)
    requires d == Decimal(12345, 2)
    ensures Digits(d) == "12345"
  {
    assert NatToString(12345) == "12345" by {
      assert NatToString(1) == "1" && NatToString(12) == "12" && NatToString(123) == "123";
      assert NatToString(1234) == "1234";
    }
  }

  // ---- alternate display ---------------------------------------------------

  /** The cents `{:#}` prints: `(fract * 100).to_u64()`, truncated. */
  function CentsOf(p: Price): (c: nat)
    requires p.mantissa >= 0
    ensures c < 100
  {
    var u := Pow10(p.scale);
    Percent(p.mantissa % u, u)
  }

  /** The whole percentage `r` is of `u`, rounded down. */
  function Percent(r: nat, u: nat): (c: nat)
    requires r < u
    ensures c < 100
  {
    assert 100 * r < 100 * u;
    assert (100 * r) / u * u <= 100 * r;
    (100 * r) / u
  }

  /** Dollars and cents together are the price truncated to whole cents. */
  lemma TruncatedToCents(p: Price)
    requires p.mantissa >= 0
    ensures var n := 100 * Trunc(p) + CentsOf(p);
            n * Pow10(p.scale) <= 100 * p.mantissa < (n + 1) * Pow10(p.scale)
  {
    var u := Pow10(p.scale);
    var t, r := p.mantissa / u, p.mantissa % u;
    assert p.mantissa == t * u + r;
    DivBounds(100 * r, u);
    CentsBracket(p.mantissa, u, t, r, (100 * r) / u);
  }

  lemma CentsBracket(m: int, u: int, t: int, r: int, c: int)
    requires u > 0 && m == t * u + r && c * u <= 100 * r < (c + 1) * u
    ensures (100 * t + c) * u <= 100 * m < (100 * t + c + 1) * u
  {
    assert (100 * t + c) * u == 100 * (t * u) + c * u;
    assert (100 * t + c + 1) * u == 100 * (t * u) + (c + 1) * u;
  }

  /** The integer part as the source groups it: groups after the first are not padded. */
  function GroupedAsWritten(t: nat): string
  {
    (if t >= 1_000_000 then NatToString(t / 1_000_000) + "," else "")
    + (if t >= 1_000 then NatToString(t / 1_000 % 1_000) + "," else "")
    + NatToString(t % 1_000)
  }

  /** The integer part with every group after the first padded to three digits. */
  function Grouped(t: nat): string
  {
    if t >= 1_000_000 then NatToString(t / 1_000_000) + "," + ZeroPad(t / 1_000 % 1_000, 3) + "," + ZeroPad(t % 1_000, 3)
    else if t >= 1_000 then NatToString(t / 1_000) + "," + ZeroPad(t % 1_000, 3)
    else NatToString(t)
  }

  /** Whether `{:#}` panics: above a billion dollars (`unimplemented!`) or negative (`to_u64().unwrap()`). */
  predicate AltDisplayPanics(p: Price)
  {
    p.mantissa > 1_000_000_000 * Pow10(p.scale) || p.mantissa < 0
  }

  /** `{:#}` exactly as written in the source. */
  function AltDisplayAsWritten(p: Price): Checked<string>
  {
    if p.mantissa > 1_000_000_000 * Pow10(p.scale) then Panic("billion-dollar amounts are not implemented")
    else if p.mantissa < 0 then Panic("to_u64 of a negative amount")
    else Done("$" + GroupedAsWritten(Trunc(p)) + "." + ZeroPad(CentsOf(p), 2))
  }

  /** `{:#}` with the thousands groups zero padded, as the separator is meant to work. */
  function AltDisplay(p: Price): Checked<string>
  {
    if p.mantissa > 1_000_000_000 * Pow10(p.scale) then Panic("billion-dollar amounts are not implemented")
    else if p.mantissa < 0 then Panic("to_u64 of a negative amount")
    else Done("$" + Grouped(Trunc(p)) + "." + ZeroPad(CentsOf(p), 2))
  }

  /** The panic condition is a billion dollars and up, or any negative amount. */
  lemma AltDisplayPanicsExactly(p: Price)
    ensures AltDisplay(p).Panic? <==> (Value(p) > 1_000_000_000.0 || Value(p) < 0.0)
    ensures AltDisplay(p).Panic? <==> AltDisplayPanics(p)
  {
    var u := Pow10(p.scale) as real;
    CastMul(1_000_000_000, Pow10(p.scale));
    assert Value(p) == p.mantissa as real / u;
    DivCompare(p.mantissa as real, u, 1_000_000_000.0);
  }

  lemma DivCompare(m: real, u: real, k: real)
    requires u > 0.0
    ensures (m / u > k) <==> (m > k * u)
    ensures (m / u < 0.0) <==> (m < 0.0)
  {
    assert m == (m / u) * u;
  }

  lemma RemoveSeparator(a: string, b: string)
    requires AllDigits(a) && AllDigits(b)
    ensures RemoveChar(a + "," + b, ',') == a + b
  {
    RemoveCharAround(a, b, ',');
    DigitsHaveNo(a, ',');
    DigitsHaveNo(b, ',');
    RemoveCharAbsent(a, ',');
    RemoveCharAbsent(b, ',');
  }

  /** Removing the separators leaves the digits of the integer part. */
  lemma GroupedDigits(t: nat)
    ensures RemoveChar(Grouped(t), ',') == NatToString(t)
  {
    if t >= 1_000_000 {
      GroupedDigitsMillions(t);
    } else if t >= 1_000 {
      GroupedDigitsThousands(t);
    } else {
      DigitsHaveNo(NatToString(t), ',');
      RemoveCharAbsent(NatToString(t), ',');
    }
  }

  lemma GroupedDigitsThousands(t: nat)
    requires 1_000 <= t
    ensures RemoveChar(NatToString(t / 1_000) + "," + ZeroPad(t % 1_000, 3), ',') == NatToString(t)
  {
    RemoveSeparator(NatToString(t / 1_000), ZeroPad(t % 1_000, 3));
    Thousands(t / 1_000, t % 1_000);
    ThousandsSplit(t);
  }

  lemma GroupedDigitsMillions(t: nat)
    requires 1_000_000 <= t
    ensures RemoveChar(Grouped(t), ',') == NatToString(t)
  {
    var a, b, c := NatToString(t / 1_000_000), ZeroPad(t / 1_000 % 1_000, 3), ZeroPad(t % 1_000, 3);
    assert Grouped(t) == a + "," + b + "," + c;
    RemoveSeparator(a, b);
    RemoveSeparatorAfter(a + "," + b, a + b, c);
    ThousandsSplit(t);
    ThousandsSplit(t / 1_000);
    Thousands(t / 1_000_000, t / 1_000 % 1_000);
    assert a + b == NatToString(t / 1_000);
    Thousands(t / 1_000, t % 1_000);
  }

  lemma ThousandsSplit(t: nat)
    ensures (t / 1_000) * 1000 + t % 1_000 == t
    ensures t / 1_000_000 == t / 1_000 / 1_000
  {
  }

  lemma RemoveSeparatorAfter(x: string, y: string, c: string)
    requires RemoveChar(x, ',') == y && AllDigits(c)
    ensures RemoveChar(x + "," + c, ',') == y + c
  {
    RemoveCharAround(x, c, ',');
    DigitsHaveNo(c, ',');
    RemoveCharAbsent(c, ',');
  }

  lemma ZeroPad3Length(b: nat)
    requires b < 1000
    ensures |ZeroPad(b, 3)| == 3
  {
    ZeroPad3(b);
  }

  /** Every group after the first has exactly three digits. */
  lemma GroupedGroups(t: nat)
    ensures var g := Split(Grouped(t), ',');
            (forall i :: 0 <= i < |g| ==> AllDigits(g[i]) && |g[i]| >= 1)
            && (forall i :: 1 <= i < |g| ==> |g[i]| == 3)
  {
    if t >= 1_000_000 {
      var a, b, c := NatToString(t / 1_000_000), ZeroPad(t / 1_000 % 1_000, 3), ZeroPad(t % 1_000, 3);
      DigitsHaveNo(a, ','); DigitsHaveNo(b, ','); DigitsHaveNo(c, ',');
      ZeroPad3Length(t / 1_000 % 1_000); ZeroPad3Length(t % 1_000);
      assert Join([a, b, c], [',']) == a + "," + b + "," + c by {
        assert Join([c], [',']) == c;
        assert [a, b, c][1..] == [b, c] && [b, c][1..] == [c];
      }
      JoinSplit([a, b, c], ',');
    } else if t >= 1_000 {
      var a, c := NatToString(t / 1_000), ZeroPad(t % 1_000, 3);
      DigitsHaveNo(a, ','); DigitsHaveNo(c, ',');
      ZeroPad3Length(t % 1_000);
      assert Join([a, c], [',']) == a + "," + c by {
        assert [a, c][1..] == [c];
      }
      JoinSplit([a, c], ',');
    } else {
      DigitsHaveNo(NatToString(t), ',');
      SplitNoSep(NatToString(t), ',');
    }
  }

  /**
   * What `{:#}` prints, separators aside: a dollar sign, the whole dollars and
   * two digits of cents, the price truncated (not rounded) to the cent.
   */
  lemma AltDisplayMeaning(p: Price)
    requires !AltDisplayPanics(p)
    ensures AltDisplay(p).Done?
    ensures RemoveChar(AltDisplay(p).value, ',') == "$" + NatToString(Trunc(p)) + "." + ZeroPad(CentsOf(p), 2)
  {
    var t := Trunc(p);
    var g := Grouped(t);
    GroupedDigits(t);
    var z := ZeroPad(CentsOf(p), 2);
    assert AltDisplay(p).value == "$" + g + "." + z;
    DigitsHaveNo(z, ',');
    RemoveCharAppend("$" + g + ".", z, ',');
    RemoveCharAppend("$" + g, ".", ',');
    RemoveCharAppend("$", g, ',');
    RemoveCharAbsent(z, ',');
    RemoveCharSingle('$', ',');
    RemoveCharSingle('.', ',');
  }



  /** The groups of an amount of at least a million dollars. */
  lemma GroupsOfMillions(t: nat, a: nat, b: nat, c: nat)
    requires 1 <= a < 1000 && b < 1000 && c < 1000 && t == a * 1_000_000 + b * 1_000 + c
    ensures GroupedAsWritten(t) == NatToString(a) + "," + NatToString(b) + "," + NatToString(c)
    ensures Grouped(t) == NatToString(a) + "," + ZeroPad(b, 3) + "," + ZeroPad(c, 3)
  {
    assert t / 1_000 == a * 1_000 + b && t % 1_000 == c by {
      DivModUnique(t, a * 1_000 + b, c, 1_000);
    }
    assert t / 1_000 % 1_000 == b by {
      DivModUnique(a * 1_000 + b, a, b, 1_000);
    }
    assert t / 1_000_000 == a by {
      DivModUnique(t, a, b * 1_000 + c, 1_000_000);
    }
    assert t >= 1_000_000;
  }

  /** The groups of an amount between a thousand and a million dollars. */
  lemma GroupsOfThousands(t: nat, b: nat, c: nat)
    requires 1 <= b < 1000 && c < 1000 && t == b * 1_000 + c
    ensures GroupedAsWritten(t) == NatToString(b) + "," + NatToString(c)
    ensures Grouped(t) == NatToString(b) + "," + ZeroPad(c, 3)
  {
    DivModUnique(t, b, c, 1_000);
    DivModUnique(b, 0, b, 1_000);
    assert t / 1_000 % 1_000 == b;
    assert t < 1_000_000;
  }

  /** A whole number of dollars below a billion renders its groups and ".00". */
  lemma WholeDollars(m: nat, g: string, gw: string)
    requires m <= 1_000_000_000 && Grouped(m) == g && GroupedAsWritten(m) == gw
    ensures AltDisplayAsWritten(Decimal(m, 0)) == Done("$" + gw + ".00")
    ensures AltDisplay(Decimal(m, 0)) == Done("$" + g + ".00")
  {
    assert Pow10(0) == 1;
    assert Trunc(Decimal(m, 0)) == m;
    assert CentsOf(Decimal(m, 0)) == 0;
    assert ZeroPad(0, 2) == "00" by {
      assert NatToString(0) == "0";
    }
    assert "$" + gw + "." + "00" == "$" + gw + ".00";
    assert "$" + g + "." + "00" == "$" + g + ".00";
  }

  /** An amount of `d` dollars and `c` cents renders its groups and its two-digit cents. */
  lemma CentsAmount(m: nat, d: nat, c: nat, g: string, gw: string, z: string)
    requires m == 100 * d + c && c < 100 && m <= 100_000_000_000
    requires Grouped(d) == g && GroupedAsWritten(d) == gw && ZeroPad(c, 2) == z
    ensures AltDisplayAsWritten(Decimal(m, 2)) == Done("$" + gw + "." + z)
    ensures AltDisplay(Decimal(m, 2)) == Done("$" + g + "." + z)
  {
    DivModUnique(m, d, c, 100);
    assert Pow10(2) == 100;
    assert Trunc(Decimal(m, 2)) == d;
    assert CentsOf(Decimal(m, 2)) == c;
  }

  // The examples below name the expected groups and cents separately, and
  // take the amount as a parameter fixed by their precondition; both keep the
  // verifier from comparing long literal strings symbol by symbol.

  /** The source drops the zeros inside a thousands group; the intended rendering keeps them. */
  lemma AltDisplayDropsZeros(p: Price, q: Price)
    requires p == Decimal(1005000, 0) && q == Decimal(1000, 0)
    ensures AltDisplayAsWritten(p) == Done("$" + "1,5,0" + ".00")
    ensures AltDisplay(p) == Done("$" + "1,005,000" + ".00")
    ensures AltDisplayAsWritten(q) == Done("$" + "1,0" + ".00")
    ensures AltDisplay(q) == Done("$" + "1,000" + ".00")
  {
    GroupsOf1005000(p.mantissa);
    WholeDollars(p.mantissa, "1,005,000", "1,5,0");
    GroupsOf1000(q.mantissa);
    WholeDollars(q.mantissa, "1,000", "1,0");
  }

  /** Below a thousand dollars there is no separator, and the two renderings agree. */
  lemma AltDisplaysAgreeBelowThousand(p: Price)
    requires p.mantissa >= 0 && Trunc(p) < 1000
    ensures AltDisplayAsWritten(p) == AltDisplay(p)
  {
    GroupedBelowThousand(Trunc(p));
  }

  lemma GroupedBelowThousand(t: nat)
    requires t < 1000
    ensures Grouped(t) == GroupedAsWritten(t)
  {
    assert t % 1_000 == t;
    assert GroupedAsWritten(t) == "" + "" + NatToString(t);
  }

  /** A round $25,000 loses the zeros of its last group as written. */
  lemma AltDisplayOf25000(p: Price)
    requires p == Decimal(25000, 0)
    ensures AltDisplayAsWritten(p) == Done("$25,0.00")
    ensures AltDisplay(p) == Done("$25,000.00")
  {
    GroupsOf25000(p.mantissa);
    WholeDollars(p.mantissa, "25,000", "25,0");
    Concat25000();
  }

  lemma Concat25000()
    ensures "$" + "25,0" + ".00" == "$25,0.00" && "$" + "25,000" + ".00" == "$25,000.00"
  {
  }

  lemma GroupsOf25000(t: nat)
    requires t == 25000
    ensures Grouped(t) == "25,000" && GroupedAsWritten(t) == "25,0"
  {
    GroupsOfThousands(t, 25, 0);
    assert NatToString(25) == "25" by {
      assert NatToString(2) == "2";
    }
    assert NatToString(0) == "0";
    assert ZeroPad(0, 3) == "000";
  }

  lemma GroupsOf1005000(t: nat)
    requires t == 1005000
    ensures Grouped(t) == "1,005,000" && GroupedAsWritten(t) == "1,5,0"
  {
    GroupsOfMillions(t, 1, 5, 0);
    assert NatToString(1) == "1" && NatToString(5) == "5" && NatToString(0) == "0";
    assert ZeroPad(5, 3) == "005" && ZeroPad(0, 3) == "000";
  }

  lemma GroupsOf1000(t: nat)
    requires t == 1000
    ensures Grouped(t) == "1,000" && GroupedAsWritten(t) == "1,0"
  {
    GroupsOfThousands(t, 1, 0);
    assert NatToString(1) == "1" && NatToString(0) == "0";
    assert ZeroPad(0, 3) == "000";
  }

  /** Both renderings agree on the unit tests of the source. */
  lemma AltDisplayExample1(p: Price)
    requires p == Decimal(123456789, 0)
    ensures AltDisplayAsWritten(p) == AltDisplay(p) == Done("$" + "123,456,789" + ".00")
  {
    GroupsOf123456789(p.mantissa);
    WholeDollars(p.mantissa, "123,456,789", "123,456,789");
  }

  lemma GroupsOf123456789(t: nat)
    requires t == 123456789
    ensures Grouped(t) == "123,456,789" && GroupedAsWritten(t) == "123,456,789"
  {
    GroupsOfMillions(t, 123, 456, 789);
    Digits123();
    Digits456();
    Digits789();
    Literal123456789();
  }

  lemma AltDisplayExample2(p: Price)
    requires p == Decimal(123456789, 2)
    ensures AltDisplayAsWritten(p) == AltDisplay(p) == Done("$" + "1,234,567" + "." + "89")
  {
    var t := p.mantissa / 100;
    GroupsOf1234567(t);
    assert ZeroPad(89, 2) == "89" by {
      assert NatToString(8) == "8" && NatToString(89) == "89";
    }
    CentsAmount(p.mantissa, t, 89, "1,234,567", "1,234,567", "89");
  }

  lemma GroupsOf1234567(t: nat)
    requires t == 1234567
    ensures Grouped(t) == "1,234,567" && GroupedAsWritten(t) == "1,234,567"
  {
    GroupsOfMillions(t, 1, 234, 567);
    assert NatToString(1) == "1";
    Digits234();
    Digits567();
    Literal1234567();
  }


  lemma AltDisplayExample3(p: Price)
    requires p == Decimal(3456709, 2)
    ensures AltDisplayAsWritten(p) == AltDisplay(p) == Done("$" + "34,567" + "." + "09")
  {
    var t := p.mantissa / 100;
    GroupsOf34567(t);
    assert ZeroPad(9, 2) == "09" by {
      assert NatToString(9) == "9";
    }
    CentsAmount(p.mantissa, t, 9, "34,567", "34,567", "09");
  }

  lemma GroupsOf34567(t: nat)
    requires t == 34567
    ensures Grouped(t) == "34,567" && GroupedAsWritten(t) == "34,567"
  {
    GroupsOfThousands(t, 34, 567);
    assert NatToString(34) == "34" by {
      assert NatToString(3) == "3";
    }
    Digits567();    Literal34567();
  }

  lemma Literal1234567() ensures "1" + "," + "234" + "," + "567" == "1,234,567" { }

  lemma Literal123456789() ensures "123" + "," + "456" + "," + "789" == "123,456,789" { }

  lemma Literal34567() ensures "34" + "," + "567" == "34,567" { }

  lemma Digits123() ensures NatToString(123) == "123" == ZeroPad(123, 3)
  {
    assert NatToString(1) == "1" && NatToString(12) == "12";
    Pad3(123);
  }

  lemma Digits234() ensures NatToString(234) == "234" == ZeroPad(234, 3)
  {
    assert NatToString(2) == "2" && NatToString(23) == "23";
    Pad3(234);
  }

  lemma Digits456() ensures NatToString(456) == "456" == ZeroPad(456, 3)
  {
    assert NatToString(4) == "4" && NatToString(45) == "45";
    Pad3(456);
  }

  lemma Digits567() ensures NatToString(567) == "567" == ZeroPad(567, 3)
  {
    assert NatToString(5) == "5" && NatToString(56) == "56";
    Pad3(567);
  }

  lemma Digits789() ensures NatToString(789) == "789" == ZeroPad(789, 3)
  {
    assert NatToString(7) == "7" && NatToString(78) == "78";
    Pad3(789);
  }

  /** A three-digit group prints the same padded or not. */
  lemma Pad3(n: nat)
    requires 100 <= n < 1000
    ensures ZeroPad(n, 3) == NatToString(n)
  {
    ZeroPad3(n);
    assert NatToString(n / 100) == [DigitChar(n / 100)];
    assert NatToString(n / 10) == [DigitChar(n / 100), DigitChar(n / 10 % 10)];
  }
}
