// Text helpers: Rust's integer formatting (`{}`, `{:0w}`), `str::split`,
// substring search and the ordering of `str`.
module Strings {

  function Max(a: int, b: int): int { if a < b then b else a }

  function Pow10(n: nat): (r: nat)
    ensures r >= 1
  {
    if n == 0 then 1 else 10 * Pow10(n - 1)
  }

  lemma {:induction false} Pow10Add(a: nat, b: nat)
    ensures Pow10(a + b) == Pow10(a) * Pow10(b)
  {
    if b > 0 {
      Pow10Add(a, b - 1);
      assert Pow10(a + b) == 10 * Pow10(a + b - 1);
    }
  }

  lemma Pow10Small()
    ensures Pow10(2) == 100 && Pow10(6) == 1_000_000 && Pow10(8) == 100_000_000
  {
    assert Pow10(1) == 10 && Pow10(2) == 100 && Pow10(3) == 1000 && Pow10(4) == 10000;
    assert Pow10(5) == 100000 && Pow10(6) == 1000000 && Pow10(7) == 10000000;
  }

  /** Euclidean quotient and remainder are unique. */
  lemma DivModUnique(t: int, q: int, r: int, d: int)
    requires d > 0 && 0 <= r < d && t == q * d + r
    ensures t / d == q && t % d == r
  {
    var q', r' := t / d, t % d;
    assert (q' - q) * d == r - r';
    if q' - q >= 1 { MulMono(q' - q, d); }
    if q - q' >= 1 { MulMono(q - q', d); }
  }

  lemma MulMono(a: int, d: int)
    requires d > 0 && a >= 1
    ensures a * d >= d
  {
  }

  predicate IsDigit(c: char) { '0' <= c <= '9' }

  predicate AllDigits(s: string) { forall i :: 0 <= i < |s| ==> IsDigit(s[i]) }

  function DigitChar(d: nat): (c: char)
    requires d < 10
    ensures IsDigit(c)
  {
    ('0' as int + d) as char
  }

  function DigitValue(c: char): (d: nat)
    requires IsDigit(c)
    ensures d < 10 && DigitChar(d) == c
  {
    c as int - '0' as int
  }

  predicate IsAscii(s: string) { forall i :: 0 <= i < |s| ==> s[i] < 128 as char }

  lemma DigitsAscii(s: string)
    requires AllDigits(s)
    ensures IsAscii(s)
  {
  }

  /** Rust's `Display` for an unsigned integer: decimal digits without leading zeros. */
  function NatToString(n: nat): (r: string)
    ensures 1 <= |r| && AllDigits(r)
    ensures (r[0] == '0') == (n == 0)
    decreases n
  {
    if n < 10 then [DigitChar(n)] else NatToString(n / 10) + [DigitChar(n % 10)]
  }

  /** The number a string of decimal digits denotes (leading zeros allowed). */
  function DigitsValue(s: string): nat
    requires AllDigits(s)
    decreases |s|
  {
    if s == [] then 0 else 10 * DigitsValue(s[..|s| - 1]) + DigitValue(s[|s| - 1])
  }

  lemma {:induction false} NatToStringInverse(n: nat)
    ensures DigitsValue(NatToString(n)) == n
    decreases n
  {
    if n >= 10 {
      NatToStringInverse(n / 10);
      var s := NatToString(n);
      assert s[..|s| - 1] == NatToString(n / 10);
    }
  }

  lemma NatToStringInjective(a: nat, b: nat)
    requires NatToString(a) == NatToString(b)
    ensures a == b
  {
    NatToStringInverse(a);
    NatToStringInverse(b);
  }

  lemma AllDigitsConcat(a: string, b: string)
    requires AllDigits(a) && AllDigits(b)
    ensures AllDigits(a + b)
  {
    forall i | 0 <= i < |a + b| ensures IsDigit((a + b)[i]) {
      if i >= |a| { assert (a + b)[i] == b[i - |a|]; }
    }
  }

  lemma {:induction false} DigitsValueAppend(a: string, b: string)
    requires AllDigits(a) && AllDigits(b)
    ensures AllDigits(a + b)
    ensures DigitsValue(a + b) == DigitsValue(a) * Pow10(|b|) + DigitsValue(b)
    decreases |b|
  {
    AllDigitsConcat(a, b);
    if b == [] {
      assert a + b == a;
    } else {
      var b' := b[..|b| - 1];
      var ab := a + b;
      assert ab[..|ab| - 1] == a + b';
      assert ab[|ab| - 1] == b[|b| - 1];
      DigitsValueLast(ab);
      DigitsValueLast(b);
      DigitsValueAppend(a, b');
      ShiftDigit(DigitsValue(a), Pow10(|b'|), DigitsValue(b'), DigitValue(b[|b| - 1]));
    }
  }

  /** Peeling the last digit off a non-empty string of digits. */
  lemma DigitsValueLast(s: string)
    requires AllDigits(s) && |s| > 0
    ensures AllDigits(s[..|s| - 1])
    ensures DigitsValue(s) == 10 * DigitsValue(s[..|s| - 1]) + DigitValue(s[|s| - 1])
  {
  }

  lemma ShiftDigit(x: int, p: int, y: int, d: int)
    ensures 10 * (x * p + y) + d == x * (10 * p) + (10 * y + d)
  {
  }

  function Repeat(c: char, n: nat): (r: string)
    ensures |r| == n && forall i :: 0 <= i < n ==> r[i] == c
  {
    seq(n, _ => c)
  }

  lemma {:induction false} ZerosValue(n: nat)
    ensures AllDigits(Repeat('0', n)) && DigitsValue(Repeat('0', n)) == 0
  {
    if n > 0 {
      ZerosValue(n - 1);
      assert Repeat('0', n)[..n - 1] == Repeat('0', n - 1);
    }
  }

  /** Rust's `{:0w}` for an unsigned integer: zero padded to at least `width` digits. */
  function ZeroPad(n: nat, width: nat): (r: string)
    ensures AllDigits(r) && |r| == Max(width, |NatToString(n)|)
  {
    var d := NatToString(n);
    var z := if |d| < width then Repeat('0', width - |d|) else [];
    assert AllDigits(z);
    z + d
  }

  lemma ZeroPadInverse(n: nat, width: nat)
    ensures DigitsValue(ZeroPad(n, width)) == n
  {
    var d := NatToString(n);
    NatToStringInverse(n);
    if |d| < width {
      var z := Repeat('0', width - |d|);
      ZerosValue(|z|);
      DigitsValueAppend(z, d);
      assert ZeroPad(n, width) == z + d;
      assert DigitsValue(z) * Pow10(|d|) == 0;
    } else {
      assert ZeroPad(n, width) == [] + d == d;
    }
  }

  /** Different numbers never share a zero-padded rendering. */
  lemma ZeroPadInjective(a: nat, b: nat, width: nat)
    requires ZeroPad(a, width) == ZeroPad(b, width)
    ensures a == b
  {
    ZeroPadInverse(a, width);
    ZeroPadInverse(b, width);
  }

  /** Three digits of a number below 1000, as `{:03}` writes them. */
  lemma ZeroPad3(b: nat)
    requires b < 1000
    ensures ZeroPad(b, 3) == [DigitChar(b / 100), DigitChar(b / 10 % 10), DigitChar(b % 10)]
  {
    if b < 10 {
    } else if b < 100 {
      assert NatToString(b) == [DigitChar(b / 10), DigitChar(b % 10)];
    } else {
      assert NatToString(b / 10) == [DigitChar(b / 100), DigitChar(b / 10 % 10)];
    }
  }

  /** Writing a number as its thousands and a zero padded remainder gives its digits. */
  lemma Thousands(a: nat, b: nat)
    requires a >= 1 && b < 1000
    ensures NatToString(a * 1000 + b) == NatToString(a) + ZeroPad(b, 3)
  {
    var n := a * 1000 + b;
    var n1, n2 := a * 100 + b / 10, a * 10 + b / 100;
    assert n / 10 == n1 && n % 10 == b % 10;
    assert n1 / 10 == n2 && n1 % 10 == b / 10 % 10;
    assert n2 / 10 == a && n2 % 10 == b / 100;
    assert NatToString(n) == NatToString(n1) + [DigitChar(b % 10)];
    assert NatToString(n1) == NatToString(n2) + [DigitChar(b / 10 % 10)];
    assert NatToString(n2) == NatToString(a) + [DigitChar(b / 100)];
    ZeroPad3(b);
  }

  /** The range of Rust's `i64`. */
  const I64Min: int := -0x8000_0000_0000_0000
  const I64Max: int := 0x7fff_ffff_ffff_ffff

  /** Rust's `Display` for a signed integer. */
  function IntToString(i: int): (r: string)
    ensures |r| >= 1
  {
    if i < 0 then "-" + NatToString(-i) else NatToString(i)
  }

  /** Different integers are written differently: a sign is never a digit. */
  lemma IntToStringInjective(a: int, b: int)
    requires IntToString(a) == IntToString(b)
    ensures a == b
  {
    if a < 0 && b < 0 {
      assert IntToString(a)[1..] == NatToString(-a);
      assert IntToString(b)[1..] == NatToString(-b);
      NatToStringInjective(-a, -b);
    } else if a >= 0 && b >= 0 {
      NatToStringInjective(a, b);
    }
  }

  /** Rust's integer `/`: the quotient rounded toward zero. */
  function TruncDiv(n: int, d: int): int
    requires d > 0
  {
    if n >= 0 then n / d else -((-n) / d)
  }

  /** Rust's integer `%`: the remainder takes the sign of the dividend. */
  function TruncRem(n: int, d: int): (r: int)
    requires d > 0
    ensures n == TruncDiv(n, d) * d + r
    ensures -d < r < d && (n >= 0 ==> r >= 0) && (n < 0 ==> r <= 0)
  {
    if n >= 0 then n % d else -((-n) % d)
  }

  /** `{:0w}` of a signed integer: the sign counts toward the width and the zeros follow it. */
  function SignedZeroPad(i: int, width: nat): string
  {
    if i < 0 then "-" + ZeroPad(-i, if width > 0 then width - 1 else 0) else ZeroPad(i, width)
  }

  /** The parts written one after the other with `sep` between two neighbours. */
  function Join(parts: seq<string>, sep: string): string
  {
    if |parts| == 0 then "" else if |parts| == 1 then parts[0] else parts[0] + sep + Join(parts[1..], sep)
  }

  /** Rust's `str::split` on one character: always at least one piece. */
  function Split(s: string, sep: char): (r: seq<string>)
    ensures |r| >= 1
  {
    if s == [] then [""]
    else
      var t := Split(s[1..], sep);
      if s[0] == sep then [""] + t else [[s[0]] + t[0]] + t[1..]
  }

  /** Splitting loses nothing: joining the pieces again gives the input, and no piece holds the separator. */
  lemma {:induction false} SplitJoin(s: string, sep: char)
    ensures Join(Split(s, sep), [sep]) == s
    ensures forall p :: p in Split(s, sep) ==> sep !in p
  {
    if s != [] {
      var t := Split(s[1..], sep);
      SplitJoin(s[1..], sep);
      if s[0] == sep {
        assert Split(s, sep) == [""] + t;
        assert ([""] + t)[1..] == t;
      } else {
        var r := [[s[0]] + t[0]] + t[1..];
        assert Split(s, sep) == r;
        if |t| == 1 {
          assert Join(t, [sep]) == t[0];
        } else {
          assert r[1..] == t[1..];
          assert Join(t, [sep]) == t[0] + [sep] + Join(t[1..], [sep]);
        }
        forall p | p in r ensures sep !in p {
          if p == [s[0]] + t[0] {
            assert t[0] in t;
          } else {
            assert p in t;
          }
        }
      }
    }
  }

  /** Splitting what was joined gives back the parts, when no part holds the separator. */
  lemma NotInTail(p: string, c: char)
    requires |p| > 0 && c !in p
    ensures p[0] != c && c !in p[1..]
  {
    assert p[0] in p;
    forall i | 0 <= i < |p[1..]| ensures p[1..][i] != c {
      assert p[1..][i] == p[i + 1];
      assert p[i + 1] in p;
    }
  }

  lemma TailPartsSepFree(parts: seq<string>, sep: char)
    requires |parts| >= 2 && |parts[0]| > 0
    requires forall p :: p in parts ==> sep !in p
    ensures forall p :: p in [parts[0][1..]] + parts[1..] ==> sep !in p
  {
    NotInTail(parts[0], sep);
    forall p | p in [parts[0][1..]] + parts[1..] ensures sep !in p {
      if p != parts[0][1..] {
        assert p in parts[1..];
        var k :| 0 <= k < |parts[1..]| && parts[1..][k] == p;
        assert parts[k + 1] == p;
      }
    }
  }

  lemma JoinFirstChar(parts: seq<string>)
    requires |parts| >= 2 && |parts[0]| > 0
    ensures forall sep: string :: Join(parts, sep) == [parts[0][0]] + Join([parts[0][1..]] + parts[1..], sep)
  {
    var parts' := [parts[0][1..]] + parts[1..];
    assert parts'[1..] == parts[1..];
    assert parts[0] == [parts[0][0]] + parts[0][1..];
  }

  lemma {:induction false} JoinSplit(parts: seq<string>, sep: char)
    requires |parts| >= 1
    requires forall p :: p in parts ==> sep !in p
    ensures Split(Join(parts, [sep]), sep) == parts
    decreases |parts|, |parts[0]|
  {
    var p := parts[0];
    if |parts| == 1 {
      SplitNoSep(p, sep);
    } else if p == [] {
      JoinSplit(parts[1..], sep);
      assert Join(parts, [sep]) == [sep] + Join(parts[1..], [sep]);
      assert Join(parts, [sep])[1..] == Join(parts[1..], [sep]);
      assert [""] + parts[1..] == parts;
    } else {
      var parts' := [p[1..]] + parts[1..];
      NotInTail(p, sep);
      TailPartsSepFree(parts, sep);
      JoinSplit(parts', sep);
      JoinFirstChar(parts);
      assert Join(parts, [sep])[1..] == Join(parts', [sep]);
      assert [p[0]] + p[1..] == p;
      assert [[p[0]] + parts'[0]] + parts'[1..] == [p] + parts[1..];
      assert [p] + parts[1..] == parts;
    }
  }

  lemma {:induction false} SplitNoSep(s: string, sep: char)
    requires sep !in s
    ensures Split(s, sep) == [s]
  {
    if s != [] {
      assert s[0] in s;
      assert sep !in s[1..] by {
        forall i | 0 <= i < |s[1..]| ensures s[1..][i] != sep {
          assert s[1..][i] == s[i + 1];
          assert s[i + 1] in s;
        }
      }
      SplitNoSep(s[1..], sep);
      assert [s[0]] + s[1..] == s;
    }
  }

  /** `s` with every `c` taken out. */
  function RemoveChar(s: string, c: char): string
  {
    if s == [] then [] else (if s[0] == c then [] else [s[0]]) + RemoveChar(s[1..], c)
  }

  lemma {:induction false} RemoveCharAppend(a: string, b: string, c: char)
    ensures RemoveChar(a + b, c) == RemoveChar(a, c) + RemoveChar(b, c)
  {
    if a != [] {
      assert (a + b)[1..] == a[1..] + b;
      RemoveCharAppend(a[1..], b, c);
    } else {
      assert a + b == b;
    }
  }

  lemma {:induction false} RemoveCharAbsent(s: string, c: char)
    requires c !in s
    ensures RemoveChar(s, c) == s
  {
    if s != [] {
      assert s[0] in s;
      assert c !in s[1..] by {
        forall i | 0 <= i < |s[1..]| ensures s[1..][i] != c {
          assert s[1..][i] == s[i + 1];
          assert s[i + 1] in s;
        }
      }
      RemoveCharAbsent(s[1..], c);
      assert [s[0]] + s[1..] == s;
    }
  }

  lemma RemoveCharSingle(x: char, c: char)
    ensures RemoveChar([x], c) == if x == c then [] else [x]
  {
    assert [x][1..] == [];
  }

  /** Removing a separator from around it splits the work in two. */
  lemma RemoveCharAround(a: string, b: string, c: char)
    ensures RemoveChar(a + [c] + b, c) == RemoveChar(a, c) + RemoveChar(b, c)
  {
    RemoveCharAppend(a + [c], b, c);
    RemoveCharAppend(a, [c], c);
    RemoveCharSingle(c, c);
  }

  lemma DigitsHaveNo(s: string, c: char)
    requires AllDigits(s) && !IsDigit(c)
    ensures c !in s
  {
  }

  /** The position of the first `c` in `s`, or `|s|` when there is none. */
  function IndexOf(s: string, c: char): (r: nat)
    ensures r <= |s| && (r < |s| ==> s[r] == c)
    ensures forall j :: 0 <= j < r ==> s[j] != c
  {
    if s == [] then 0 else if s[0] == c then 0 else 1 + IndexOf(s[1..], c)
  }

  /** Rust's `str::contains` for a substring. */
  predicate Contains(s: string, sub: string)
    decreases |s|
  {
    if |sub| > |s| then false else s[..|sub|] == sub || Contains(s[1..], sub)
  }

  lemma {:induction false} ContainsAt(s: string, sub: string, i: nat)
    requires i + |sub| <= |s| && s[i..i + |sub|] == sub
    ensures Contains(s, sub)
    decreases i
  {
    if i > 0 {
      assert s[1..][i - 1..i - 1 + |sub|] == s[i..i + |sub|];
      ContainsAt(s[1..], sub, i - 1);
    }
  }

  /** Rust's `Ord` on `str`, which compares code point by code point. */
  predicate LexLessEq(a: string, b: string)
    decreases |a|
  {
    if a == [] then true
    else if b == [] then false
    else if a[0] != b[0] then a[0] < b[0]
    else LexLessEq(a[1..], b[1..])
  }

  /** The ordering of strings is total and antisymmetric. */
  lemma {:induction false} LexTotal(a: string, b: string)
    ensures LexLessEq(a, b) || LexLessEq(b, a)
    ensures LexLessEq(a, b) && LexLessEq(b, a) ==> a == b
    decreases |a|
  {
    if a != [] && b != [] && a[0] == b[0] {
      LexTotal(a[1..], b[1..]);
      assert a == [a[0]] + a[1..] && b == [b[0]] + b[1..];
    }
  }

  lemma {:induction false} LexTransitive(a: string, b: string, c: string)
    requires LexLessEq(a, b) && LexLessEq(b, c)
    ensures LexLessEq(a, c)
    decreases |a|
  {
    if a != [] && b != [] && c != [] && a[0] == b[0] && b[0] == c[0] {
      LexTransitive(a[1..], b[1..], c[1..]);
    }
  }
}
