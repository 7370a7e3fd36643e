// rust_decimal's `Decimal` as the model uses it: a mantissa and a scale,
// `mantissa * 10^-scale`, with exact arithmetic, the rounding modes the
// program calls, `Display` and `FromStr`.
module Decimals {
  import opened Strings
  import opened Wrappers

  datatype Decimal = Decimal(mantissa: int, scale: nat)

  /** The number a decimal stands for; two decimals are equal as numbers when their values are. */
  function Value(d: Decimal): real
  {
    d.mantissa as real / Pow10(d.scale) as real
  }

  const Zero: Decimal := Decimal(0, 0)

  /** `d == Decimal::ZERO`: the comparison is by value, and only a zero mantissa has value zero. */
  predicate IsZero(d: Decimal)
  {
    d.mantissa == 0
  }

  lemma IsZeroValue(d: Decimal)
    ensures IsZero(d) <==> Value(d) == 0.0
  {
    QuotientZero(d.mantissa as real, Pow10(d.scale) as real);
  }

  lemma QuotientZero(m: real, p: real)
    requires p > 0.0
    ensures m / p == 0.0 <==> m == 0.0
  {
    if m != 0.0 {
      assert (m / p) * p == m;
    }
  }

  function Abs(n: int): nat { if n < 0 then -n else n }

  /** `Decimal::new(m, s)` and `Decimal::from(n)`. */
  function FromInt(n: int): (d: Decimal)
    ensures Value(d) == n as real
  {
    Decimal(n, 0)
  }

  lemma Cancel(m: real, p: real, q: real)
    requires p > 0.0 && q > 0.0
    ensures (m * q) / (p * q) == m / p
  {
  }

  /** The mantissa `d` has when written with `s >= d.scale` fractional digits. */
  function Rescaled(d: Decimal, s: nat): int
    requires d.scale <= s
  {
    d.mantissa * Pow10(s - d.scale)
  }

  lemma CastMul(x: int, y: int)
    ensures (x * y) as real == x as real * y as real
  {
  }

  lemma RescaledValue(d: Decimal, s: nat)
    requires d.scale <= s
    ensures Value(Decimal(Rescaled(d, s), s)) == Value(d)
  {
    var k := s - d.scale;
    Pow10Add(d.scale, k);
    ScaleBoth(d.mantissa, Pow10(d.scale), Pow10(k));
  }

  lemma ScaleBoth(m: int, p: int, q: int)
    requires p > 0 && q > 0
    ensures (m * q) as real / (p * q) as real == m as real / p as real
  {
    CastMul(m, q);
    CastMul(p, q);
    Cancel(m as real, p as real, q as real);
  }

  lemma ValueAdd(x: int, y: int, s: nat)
    ensures Value(Decimal(x + y, s)) == Value(Decimal(x, s)) + Value(Decimal(y, s))
  {
  }

  function Add(a: Decimal, b: Decimal): (r: Decimal)
    ensures Value(r) == Value(a) + Value(b)
  {
    var s := if a.scale < b.scale then b.scale else a.scale;
    RescaledValue(a, s);
    RescaledValue(b, s);
    ValueAdd(Rescaled(a, s), Rescaled(b, s), s);
    Decimal(Rescaled(a, s) + Rescaled(b, s), s)
  }

  function Neg(a: Decimal): (r: Decimal)
    ensures Value(r) == -Value(a)
  {
    Decimal(-a.mantissa, a.scale)
  }

  function Sub(a: Decimal, b: Decimal): (r: Decimal)
    ensures Value(r) == Value(a) - Value(b)
  {
    Add(a, Neg(b))
  }

  function Mul(a: Decimal, b: Decimal): (r: Decimal)
    ensures Value(r) == Value(a) * Value(b)
  {
    MulValue(a, b);
    Decimal(a.mantissa * b.mantissa, a.scale + b.scale)
  }

  lemma MulValue(a: Decimal, b: Decimal)
    ensures Value(Decimal(a.mantissa * b.mantissa, a.scale + b.scale)) == Value(a) * Value(b)
  {
    Pow10Add(a.scale, b.scale);
    ProductQuotient(a.mantissa, b.mantissa, Pow10(a.scale), Pow10(b.scale));
  }

  lemma ProductQuotient(m: int, n: int, p: int, q: int)
    requires p > 0 && q > 0
    ensures (m * n) as real / (p * q) as real == (m as real / p as real) * (n as real / q as real)
  {
    CastMul(m, n);
    CastMul(p, q);
    MulDiv(m as real, p as real, n as real, q as real);
  }

  lemma MulDiv(x: real, p: real, y: real, q: real)
    requires p > 0.0 && q > 0.0
    ensures (x * y) / (p * q) == (x / p) * (y / q)
  {
  }

  /** Exact halving (`a / 2` is always representable in decimal). */
  function Half(a: Decimal): (r: Decimal)
    ensures Value(r) == Value(a) / 2.0
  {
    assert Pow10(a.scale + 1) == 10 * Pow10(a.scale);
    Decimal(a.mantissa * 5, a.scale + 1)
  }

  /** `trunc().to_u64()` / `to_i64()`: the integer part, rounded toward zero. */
  function Trunc(d: Decimal): (r: int)
    ensures d.mantissa >= 0 ==> 0 <= r * Pow10(d.scale) <= d.mantissa < (r + 1) * Pow10(d.scale)
    ensures d.mantissa < 0 ==> (r - 1) * Pow10(d.scale) < d.mantissa <= r * Pow10(d.scale) <= 0
  {
    var p := Pow10(d.scale);
    DivBounds(Abs(d.mantissa), p);
    if d.mantissa >= 0 then d.mantissa / p
    else
      var q := (-d.mantissa) / p;
      assert (-q) * p == -(q * p) && (-q - 1) * p == -((q + 1) * p);
      -q
  }

  lemma DivBounds(a: nat, p: nat)
    requires p >= 1
    ensures 0 <= (a / p) * p <= a < (a / p + 1) * p
    ensures a % p == 0 ==> (a / p) * p == a
  {
    assert a == (a / p) * p + a % p;
    assert (a / p + 1) * p == (a / p) * p + p;
  }

  /** Whether the decimal equals its integer part (`Decimal::from(d.to_i64()) == d`). */
  predicate IsInteger(d: Decimal)
  {
    Trunc(d) * Pow10(d.scale) == d.mantissa
  }

  // ---- rounding ------------------------------------------------------------

  /** Rounds the magnitude `a` divided by `p`, halves going to the even neighbour. */
  function RoundHalfEven(a: nat, p: nat): nat
    requires p >= 1
  {
    var q: nat, rem: nat := a / p, a % p;
    if 2 * rem > p || (2 * rem == p && q % 2 == 1) then q + 1 else q
  }

  /** Rounds the magnitude `a` divided by `p`, halves going away from zero. */
  function RoundHalfAway(a: nat, p: nat): nat
    requires p >= 1
  {
    var q: nat, rem: nat := a / p, a % p;
    if 2 * rem >= p then q + 1 else q
  }

  /** Both rounding modes land within half a unit of the exact quotient. */
  lemma RoundingError(a: nat, p: nat)
    requires p >= 1
    ensures -(p as int) <= 2 * (RoundHalfEven(a, p) * p - a) <= p
    ensures -(p as int) <= 2 * (RoundHalfAway(a, p) * p - a) <= p
    ensures 2 * (a % p) == p ==> RoundHalfEven(a, p) % 2 == 0
    ensures 2 * (a % p) == p ==> RoundHalfAway(a, p) * p > a
  {
    var q, rem := a / p, a % p;
    assert a == q * p + rem;
    assert (q + 1) * p - a == p - rem;
  }

  /** `round_dp(dp)`: banker's rounding to at most `dp` fractional digits. */
  function RoundDp(d: Decimal, dp: nat): (r: Decimal)
    ensures r.scale == if d.scale <= dp then d.scale else dp
  {
    if d.scale <= dp then d
    else
      var q: int := RoundHalfEven(Abs(d.mantissa), Pow10(d.scale - dp));
      Decimal(if d.mantissa < 0 then -q else q, dp)
  }

  /** `rescale(s)`: pads with zeros, or rounds half away from zero, to exactly `s` fractional digits. */
  function Rescale(d: Decimal, s: nat): (r: Decimal)
    ensures r.scale == s
  {
    if d.scale <= s then Decimal(Rescaled(d, s), s)
    else
      var q: int := RoundHalfAway(Abs(d.mantissa), Pow10(d.scale - s));
      Decimal(if d.mantissa < 0 then -q else q, s)
  }

  /** Rounding to `dp` places stays within half a unit in the last place kept. */
  lemma RoundDpClose(d: Decimal, dp: nat)
    requires d.scale > dp
    ensures var p := Pow10(d.scale - dp);
            -(p as int) <= 2 * (Rescaled(RoundDp(d, dp), d.scale) - d.mantissa) <= p
  {
    var p := Pow10(d.scale - dp);
    RoundingError(Abs(d.mantissa), p);
    var q: int := RoundHalfEven(Abs(d.mantissa), p);
    assert Rescaled(RoundDp(d, dp), d.scale) == (if d.mantissa < 0 then -q else q) * p;
    SignedError(d.mantissa, q, p);
  }

  /** Rounding the magnitude and restoring the sign keeps the error bound. */
  lemma SignedError(m: int, q: int, p: int)
    requires p >= 1 && -p <= 2 * (q * p - Abs(m)) <= p
    ensures -p <= 2 * ((if m < 0 then -q else q) * p - m) <= p
  {
    if m < 0 {
      assert (-q) * p == -(q * p);
    }
  }

  lemma RescaleExact(d: Decimal, s: nat)
    requires d.scale <= s
    ensures Value(Rescale(d, s)) == Value(d)
  {
    RescaledValue(d, s);
  }

  // ---- Display and FromStr ------------------------------------------------

  /** The digits of the magnitude, padded so that at least one precedes the point. */
  function Digits(d: Decimal): (r: string)
    ensures AllDigits(r) && |r| > d.scale
  {
    ZeroPad(Abs(d.mantissa), d.scale + 1)
  }

  /** rust_decimal's `Display`: sign, integer digits and exactly `scale` fractional digits. */
  function ToString(d: Decimal): string
  {
    (if d.mantissa < 0 then "-" else "") + Body(d)
  }

  /** Digits with at most one point and at least one digit. */
  function ParseUnsigned(s: string): Option<Decimal>
  {
    var i := IndexOf(s, '.');
    var ip := s[..i];
    var fp := if i < |s| then s[i + 1..] else "";
    if AllDigits(ip) && AllDigits(fp) && |ip| + |fp| >= 1 then
      AllDigitsConcat(ip, fp);
      Some(Decimal(DigitsValue(ip + fp), |fp|))
    else None
  }

  /** rust_decimal's `FromStr` for plain decimal notation: an optional sign, then digits with an optional point. */
  function Parse(s: string): Option<Decimal>
  {
    if |s| > 0 && s[0] == '-' then
      match ParseUnsigned(s[1..])
      case None => None
      case Some(d) => Some(Decimal(-d.mantissa, d.scale))
    else if |s| > 0 && s[0] == '+' then ParseUnsigned(s[1..])
    else ParseUnsigned(s)
  }

  lemma ParseUnsignedDigits(ip: string, fp: string)
    requires |ip| >= 1 && AllDigits(ip) && AllDigits(fp)
    ensures AllDigits(ip + fp)
    ensures ParseUnsigned(if |fp| > 0 then ip + "." + fp else ip) == Some(Decimal(DigitsValue(ip + fp), |fp|))
  {
    AllDigitsConcat(ip, fp);
    var s := if |fp| > 0 then ip + "." + fp else ip;
    var i := IndexOf(s, '.');
    if |fp| > 0 {
      assert s[|ip|] == '.';
      assert forall j :: 0 <= j < |ip| ==> s[j] == ip[j];
      assert s[..i] == ip;
      assert s[i + 1..] == fp;
    } else {
      assert s[..i] == ip;
      assert ip + fp == ip;
    }
  }

  lemma ParseNegative(body: string, d: Decimal)
    requires ParseUnsigned(body) == Some(d)
    ensures Parse("-" + body) == Some(Decimal(-d.mantissa, d.scale))
  {
    assert ("-" + body)[1..] == body;
  }

  /** A parsable unsigned body starting with a digit parses with or without a minus sign. */
  lemma ParseSigned(body: string, d: Decimal, negative: bool)
    requires ParseUnsigned(body) == Some(d) && |body| > 0 && IsDigit(body[0])
    ensures Parse((if negative then "-" else "") + body) ==
      Some(if negative then Decimal(-d.mantissa, d.scale) else d)
  {
    if negative {
      ParseNegative(body, d);
    } else {
      assert (if negative then "-" else "") + body == body;
      ParseUnsignedStart(body);
    }
  }

  /** The unsigned part of `ToString(d)`: integer digits, then the point and `scale` digits. */
  function Body(d: Decimal): string
  {
    var digits := Digits(d);
    var k := |digits| - d.scale;
    digits[..k] + (if d.scale > 0 then "." + digits[k..] else "")
  }

  lemma DigitsSplit(s: string, k: nat)
    requires AllDigits(s) && 1 <= k <= |s|
    ensures AllDigits(s[..k]) && AllDigits(s[k..]) && s[..k] + s[k..] == s && |s[..k]| >= 1
  {
    assert forall i :: 0 <= i < k ==> s[..k][i] == s[i];
    assert forall i :: 0 <= i < |s| - k ==> s[k..][i] == s[k + i];
  }

  lemma BodyParses(d: Decimal)
    ensures ParseUnsigned(Body(d)) == Some(Decimal(Abs(d.mantissa), d.scale))
    ensures IsDigit(Body(d)[0])
  {
    var digits := Digits(d);
    var k := |digits| - d.scale;
    var ip, fp := digits[..k], digits[k..];
    DigitsSplit(digits, k);
    assert |fp| == d.scale;
    assert Body(d) == if |fp| > 0 then ip + "." + fp else ip;
    assert DigitsValue(ip + fp) == Abs(d.mantissa) by {
      ZeroPadInverse(Abs(d.mantissa), d.scale + 1);
    }
    ParseUnsignedDigits(ip, fp);
    assert Body(d)[0] == ip[0];
  }

  /** Printing and parsing back gives the same decimal, digit for digit. */
  lemma ParseToString(d: Decimal)
    ensures Parse(ToString(d)) == Some(d)
  {
    BodyParses(d);
    var body := Body(d);
    if d.mantissa < 0 {
      assert ToString(d) == "-" + body;
      ParseNegative(body, Decimal(Abs(d.mantissa), d.scale));
    } else {
      assert ToString(d) == body;
      ParseUnsignedStart(body);
    }
  }

  lemma ParseUnsignedStart(s: string)
    requires |s| > 0 && IsDigit(s[0])
    ensures Parse(s) == ParseUnsigned(s)
  {
  }

  /** A string holding anything but digits, one point and a leading sign is refused. */
  lemma ParseRejects(s: string, i: nat)
    requires i < |s| && !IsDigit(s[i]) && s[i] != '.'
    requires i > 0 || (s[i] != '-' && s[i] != '+')
    ensures Parse(s) == None
  {
    var t := if |s| > 0 && (s[0] == '-' || s[0] == '+') then s[1..] else s;
    var j := if t == s then i else i - 1;
    assert t[j] == s[i];
    var x := IndexOf(t, '.');
    if j < x {
      assert t[..x][j] == t[j];
    } else {
      assert j > x;
      assert t[x + 1..][j - x - 1] == t[j];
    }
  }
}
