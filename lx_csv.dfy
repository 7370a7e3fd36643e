// ledgerx/csv.rs: the field splitter for the CSV files LedgerX hands out with
// its 1099s, and the classification of their lines as price references.
module LxCsv {
  import opened Wrappers
  import opened Strings

  /** What the scan of one field knows: just after a backslash, and outside double quotes. */
  datatype Scan = Scan(escape: bool, scanning: bool)

  const Fresh := Scan(false, true)

  /** One character of the scan, for every character that does not end the field. */
  function Step(st: Scan, ch: char): Scan
  {
    if ch == '\\' then Scan(true, st.scanning)
    else if !st.escape && ch == '"' then Scan(false, !st.scanning)
    else if st.escape then Scan(false, st.scanning)
    else st
  }

  /** The scan state after reading `s` from the start of a field. */
  function After(s: string): Scan
  {
    if s == [] then Fresh else Step(After(s[..|s| - 1]), s[|s| - 1])
  }

  /**
   * The character at `n` is a separator that ends the field: outside quotes
   * and not escaped.  A backslash or a double quote never ends a field, even
   * when it is the separator, since those two are tested first.
   */
  predicate SplitsAt(s: string, n: nat, sep: char)
  {
    n < |s| && s[n] == sep && sep != '\\' && sep != '"' && !After(s[..n]).escape && After(s[..n]).scanning
  }

  lemma AfterNext(s: string, n: nat)
    requires n < |s|
    ensures After(s[..n + 1]) == Step(After(s[..n]), s[n])
  {
    assert s[..n + 1][..n] == s[..n];
  }

  /** The first position from `n` on where the field ends. */
  function FirstSplitFrom(s: string, n: nat, sep: char): (r: Option<nat>)
    requires n <= |s|
    ensures r.Some? ==> (n <= r.value && SplitsAt(s, r.value, sep) &&
      forall k: nat :: n <= k < r.value ==> !SplitsAt(s, k, sep))
    ensures r.None? ==> forall k: nat :: n <= k ==> !SplitsAt(s, k, sep)
    decreases |s| - n
  {
    if n == |s| then None
    else if SplitsAt(s, n, sep) then Some(n)
    else FirstSplitFrom(s, n + 1, sep)
  }

  function FirstSplit(s: string, sep: char): Option<nat>
  {
    FirstSplitFrom(s, 0, sep)
  }

  /**
   * What one call of `next` yields from `s`, and what remains: nothing from
   * an empty string; otherwise the text before the first separator that
   * ends a field and the text after it, or, with no such separator, all of
   * `s` and nothing.
   */
  function SplitNext(s: string, sep: char): (r: Option<(string, string)>)
    ensures r.None? <==> s == []
    ensures r.Some? ==> |r.value.1| < |s|
    ensures r.Some? ==> (s == r.value.0 + [sep] + r.value.1 || (s == r.value.0 && r.value.1 == []))
  {
    if s == [] then None
    else
      match FirstSplit(s, sep)
      case Some(n) =>
        assert s == s[..n] + [sep] + s[n + 1..];
        Some((s[..n], s[n + 1..]))
      case None => Some((s, []))
  }

  /** Every field the iterator yields from `s`, in order (its `collect`). */
  function Fields(s: string, sep: char): seq<string>
    decreases |s|
  {
    match SplitNext(s, sep)
    case None => []
    case Some((f, rest)) => [f] + Fields(rest, sep)
  }

  /** `CsvIter`. */
  class CsvIter {
    var remaining: string
    const sep: char

    /** `CsvIter::new`. */
    constructor (s: string, sep: char)
      ensures remaining == s && this.sep == sep
    {
      remaining := s;
      this.sep := sep;
    }

    /** `Iterator::next`: the next field, as `SplitNext` says. */
    method Next() returns (r: Option<string>)
      modifies this
      ensures old(remaining) == [] ==> r.None? && remaining == []
      ensures old(remaining) != [] ==>
        r == Some(SplitNext(old(remaining), sep).value.0) && remaining == SplitNext(old(remaining), sep).value.1
    {
      if remaining == [] {
        return None;
      }
      var s := remaining;
      var escape := false;
      var scanning := true;
      var n := 0;
      while n < |s|
        invariant n <= |s|
        invariant After(s[..n]) == Scan(escape, scanning)
        invariant forall k: nat :: k < n ==> !SplitsAt(s, k, sep)
      {
        var ch := s[n];
        AfterNext(s, n);
        if ch == '\\' {
          escape := true;
        } else if !escape && ch == '"' {
          scanning := !scanning;
        } else if !escape && scanning && ch == sep {
          FirstSplitUnique(s, n, sep);
          remaining := s[n + 1..];
          return Some(s[..n]);
        } else if escape {
          escape := false;
        }
        n := n + 1;
      }
      NoSplitNone(s, sep);
      remaining := [];
      r := Some(s);
    }
  }

  lemma FirstSplitUnique(s: string, n: nat, sep: char)
    requires SplitsAt(s, n, sep) && forall k: nat :: k < n ==> !SplitsAt(s, k, sep)
    ensures FirstSplitFrom(s, 0, sep) == Some(n)
  {
  }

  lemma NoSplitNone(s: string, sep: char)
    requires forall k: nat :: k < |s| ==> !SplitsAt(s, k, sep)
    ensures FirstSplitFrom(s, 0, sep).None?
  {
  }

  /**
   * A field holds no separator that would end it: splitting a yielded field
   * again yields just that field.
   */
  lemma FieldHasNoSplit(s: string, sep: char)
    requires s != []
    ensures FirstSplit(SplitNext(s, sep).value.0, sep).None?
  {
    var f := SplitNext(s, sep).value.0;
    match FirstSplit(s, sep)
    case None =>
    case Some(n) =>
      assert f == s[..n];
      forall k: nat | k < |f|
        ensures !SplitsAt(f, k, sep)
      {
        assert f[..k] == s[..k];
        assert !SplitsAt(s, k, sep);
      }
      NoSplitNone(f, sep);
  }

  /**
   * Splitting loses nothing but a trailing separator: joining the fields
   * with the separator gives back the input, or the input without its last
   * character, which is then the separator.
   */
  lemma {:induction false} JoinFields(s: string, sep: char)
    ensures Join(Fields(s, sep), [sep]) == s || Join(Fields(s, sep), [sep]) + [sep] == s
    decreases |s|
  {
    match SplitNext(s, sep)
    case None =>
    case Some((f, rest)) =>
      assert Fields(s, sep) == [f] + Fields(rest, sep);
      JoinFields(rest, sep);
      var fs := Fields(rest, sep);
      if fs == [] {
        assert Fields(s, sep) == [f];
      } else {
        assert ([f] + fs)[1..] == fs;
        assert Join([f] + fs, [sep]) == f + [sep] + Join(fs, [sep]);
      }
  }

  /**
   * A quoted comma stays inside its field, quotes and all, and of the two
   * trailing commas only the last is dropped.
   */
  lemma TrailingSeparatorDropped(s: string)
    requires s == "a,\"b,c\",,"
    ensures Fields(s, ',') == ["a", "\"b,c\"", ""]
  {
    assert SplitsAt(s, 1, ',');
    assert FirstSplit(s, ',') == Some(1);
    var t := s[2..];
    assert s[..1] == "a";
    assert t == "\"b,c\",,";
    assert t[..0] == [];
    AfterNext(t, 0);
    AfterNext(t, 1);
    AfterNext(t, 2);
    AfterNext(t, 3);
    AfterNext(t, 4);
    assert !SplitsAt(t, 2, ',');
    assert SplitsAt(t, 5, ',');
    assert FirstSplit(t, ',') == Some(5);
    var u := t[6..];
    assert u == ",";
    assert t[..5] == "\"b,c\"";
    assert FirstSplit(u, ',') == Some(0);
    assert SplitNext(u, ',') == Some(("", ""));
    assert Fields("", ',') == [];
    assert Fields(u, ',') == [""];
    assert Fields(t, ',') == ["\"b,c\"", ""];
  }

  // Where `next` cuts: the loop counts characters, but a `str` is sliced by
  // byte offset.  The model above cuts at the character position, as
  // intended; below, the cut as written, which `price_ref` uses.

  /** The number of bytes UTF-8 takes for `c`. */
  function Utf8Len(c: char): (r: nat)
    ensures 1 <= r <= 4 && (r == 1 <==> c < 128 as char)
  {
    if c < 128 as char then 1 else if c < 0x800 as char then 2 else if c < 0x1_0000 as char then 3 else 4
  }

  function ByteLen(s: string): nat
  {
    if s == [] then 0 else Utf8Len(s[0]) + ByteLen(s[1..])
  }

  /** How many characters of `s` take up its first `b` bytes; `None` when byte `b` is inside a character. */
  function CharsInBytes(s: string, b: nat): (r: Option<nat>)
    ensures r.Some? ==> r.value <= |s| && ByteLen(s[..r.value]) == b
  {
    if b == 0 then (assert s[..0] == []; Some(0))
    else if s == [] || Utf8Len(s[0]) > b then None
    else
      match CharsInBytes(s[1..], b - Utf8Len(s[0]))
      case None => None
      case Some(k) =>
        assert s[..k + 1][1..] == s[1..][..k];
        Some(k + 1)
  }

  /**
   * `next` as written: the character count `n` of the separator is used as
   * the byte offset of `&remaining[..n]` and `&remaining[n + 1..]`, which
   * panics when that offset falls inside a character.
   */
  function NextAsWritten(s: string, sep: char): (r: Checked<Option<(string, string)>>)
    ensures s == [] ==> r == Done(None)
    ensures r.Done? && r.value.Some? ==> |r.value.value.1| < |s|
  {
    if s == [] then Done(None)
    else
      match FirstSplit(s, sep)
      case None => Done(Some((s, [])))
      case Some(n) =>
        match (CharsInBytes(s, n), CharsInBytes(s, n + 1))
        case (Some(a), Some(b)) =>
          assert b != 0 by { assert s[..0] == []; }
          Done(Some((s[..a], s[b..])))
        case _ => Panic("byte index is not a char boundary")
  }

  /** `collect` over the iterator as written: every field, or the panic of the first cut inside a character. */
  function FieldsAsWritten(s: string, sep: char): Checked<seq<string>>
    decreases |s|
  {
    match NextAsWritten(s, sep)
    case Panic(m) => Panic(m)
    case Done(None) => Done([])
    case Done(Some((f, rest))) =>
      match FieldsAsWritten(rest, sep)
      case Panic(m) => Panic(m)
      case Done(fs) => Done([f] + fs)
  }

  /** `nth(k)` over the iterator as written: `k` fields are drawn and dropped, then one more is yielded. */
  function NthAsWritten(s: string, sep: char, k: nat): Checked<Option<string>>
    decreases |s|
  {
    match NextAsWritten(s, sep)
    case Panic(m) => Panic(m)
    case Done(None) => Done(None)
    case Done(Some((f, rest))) => if k == 0 then Done(Some(f)) else NthAsWritten(rest, sep, k - 1)
  }

  lemma AsciiSlice(s: string, i: nat, j: nat)
    requires IsAscii(s) && i <= j <= |s|
    ensures IsAscii(s[i..j])
  {
    forall x | 0 <= x < |s[i..j]|
      ensures s[i..j][x] < 128 as char
    {
      assert s[i..j][x] == s[i + x];
    }
  }

  /** On ASCII text the iterator as written yields the intended fields. */
  lemma {:induction false} AsciiFieldsAgree(s: string, sep: char)
    requires IsAscii(s)
    ensures FieldsAsWritten(s, sep) == Done(Fields(s, sep))
    decreases |s|
  {
    AsciiCutsAgree(s, sep);
    match SplitNext(s, sep)
    case None =>
    case Some((f, rest)) =>
      AsciiRest(s, sep);
      AsciiFieldsAgree(rest, sep);
  }

  /** On ASCII text `nth` as written is the intended field of that index. */
  lemma AsciiNthAgrees(s: string, sep: char, k: nat)
    requires IsAscii(s)
    ensures NthAsWritten(s, sep, k) == Done(if k < |Fields(s, sep)| then Some(Fields(s, sep)[k]) else None)
  {
    AsciiFieldsAgree(s, sep);
    NthOfFields(s, sep, k);
  }

  /** When collecting does not panic, `nth(k)` does not either, and yields the `k`-th collected field. */
  lemma {:induction false} NthOfFields(s: string, sep: char, k: nat)
    requires FieldsAsWritten(s, sep).Done?
    ensures var fs := FieldsAsWritten(s, sep).value;
      NthAsWritten(s, sep, k) == Done(if k < |fs| then Some(fs[k]) else None)
    decreases |s|
  {
    match NextAsWritten(s, sep)
    case Done(None) =>
    case Done(Some((f, rest))) =>
      if k > 0 {
        NthOfFields(rest, sep, k - 1);
      }
  }

  /** Every field of ASCII text is ASCII. */
  lemma {:induction false} AsciiFields(s: string, sep: char)
    requires IsAscii(s)
    ensures forall i :: 0 <= i < |Fields(s, sep)| ==> IsAscii(Fields(s, sep)[i])
    decreases |s|
  {
    match SplitNext(s, sep)
    case None =>
    case Some((f, rest)) =>
      assert f == s[..|f|];
      AsciiSlice(s, 0, |f|);
      AsciiRest(s, sep);
      AsciiFields(rest, sep);
      assert Fields(s, sep) == [f] + Fields(rest, sep);
  }

  /** What remains after one field of ASCII text is ASCII. */
  lemma AsciiRest(s: string, sep: char)
    requires IsAscii(s) && s != []
    ensures IsAscii(SplitNext(s, sep).value.1)
  {
    var rest := SplitNext(s, sep).value.1;
    assert rest == s[|s| - |rest|..];
    AsciiSlice(s, |s| - |rest|, |s|);
  }

  lemma {:induction false} AsciiBytes(s: string, b: nat)
    requires IsAscii(s) && b <= |s|
    ensures CharsInBytes(s, b) == Some(b)
    decreases b
  {
    if b > 0 {
      assert s[0] < 128 as char;
      assert IsAscii(s[1..]) by {
        forall i | 0 <= i < |s[1..]| ensures s[1..][i] < 128 as char {
          assert s[1..][i] == s[i + 1];
        }
      }
      AsciiBytes(s[1..], b - 1);
    }
  }

  /** On ASCII text, bytes and characters coincide, and `next` as written cuts where intended. */
  lemma AsciiCutsAgree(s: string, sep: char)
    requires IsAscii(s)
    ensures NextAsWritten(s, sep) == Done(SplitNext(s, sep))
  {
    if s != [] {
      match FirstSplit(s, sep)
      case None =>
      case Some(n) =>
        AsciiBytes(s, n);
        AsciiBytes(s, n + 1);
    }
  }

  /**
   * With one two-byte character before the separator, the cut lands one
   * character early: `é` and `,b` instead of `éa` and `b`.
   */
  lemma MisplacedCut(s: string)
    requires s == ['\U{E9}', 'a', ',', 'b']
    ensures SplitNext(s, ',') == Some((['\U{E9}', 'a'], ['b']))
    ensures NextAsWritten(s, ',') == Done(Some((['\U{E9}'], [',', 'b'])))
  {
    assert s[..0] == [];
    AfterNext(s, 0);
    AfterNext(s, 1);
    assert !SplitsAt(s, 0, ',') && !SplitsAt(s, 1, ',') && SplitsAt(s, 2, ',');
    assert FirstSplit(s, ',') == Some(2);
    assert s[..2] == ['\U{E9}', 'a'] && s[3..] == ['b'];
    assert s[1..] == ['a', ',', 'b'];
    assert CharsInBytes(s[1..], 0) == Some(0);
    assert CharsInBytes(s, 2) == Some(1);
    assert s[1..][1..] == [',', 'b'];
    assert CharsInBytes(s[1..][1..], 0) == Some(0);
    assert CharsInBytes(s[1..], 1) == Some(1);
    assert CharsInBytes(s, 3) == Some(2);
    assert s[..1] == ['\U{E9}'] && s[2..] == [',', 'b'];
  }

  // The classification of one line of a 1099 supporting CSV file.

  lemma {:induction false} AsciiByteLen(s: string)
    requires IsAscii(s)
    ensures ByteLen(s) == |s|
  {
    if s != [] {
      AsciiSlice(s, 1, |s|);
      AsciiByteLen(s[1..]);
    }
  }

  /**
   * `trim1`: the first and last characters dropped (the quotes around a
   * field), or the string as it is when shorter than two bytes.  Length and
   * slice bounds are byte offsets, so a string that starts or ends with a
   * character of more than one byte panics.
   */
  function Trim1(s: string): (r: Checked<string>)
    ensures ByteLen(s) < 2 ==> r == Done(s)
    ensures r.Done? && ByteLen(s) >= 2 ==> 2 <= |s| && s == [s[0]] + r.value + [s[|s| - 1]]
    ensures r.Panic? ==> s != [] && (Utf8Len(s[0]) > 1 || Utf8Len(s[|s| - 1]) > 1)
  {
    if ByteLen(s) < 2 then Done(s)
    else if |s| < 2 then
      assert s[1..] == [] && ByteLen(s) == Utf8Len(s[0]) + ByteLen(s[1..]);
      Panic("byte index is not a char boundary")
    else if Utf8Len(s[0]) != 1 || Utf8Len(s[|s| - 1]) != 1 then Panic("byte index is not a char boundary")
    else Done(s[1..|s| - 1])
  }

  /** On ASCII text `trim1` never panics and drops the first and last characters of two or more. */
  lemma Trim1Ascii(s: string)
    requires IsAscii(s)
    ensures Trim1(s) == Done(if |s| < 2 then s else s[1..|s| - 1])
    ensures IsAscii(Trim1(s).value)
  {
    AsciiByteLen(s);
    if |s| >= 2 {
      AsciiSlice(s, 1, |s| - 1);
    }
  }

  /**
   * The texts of an option exercise a price reference is computed from: the
   * quantity, the strike, the exercise date, the exercise basis, and whether
   * it is a call.  Their parsing and the price arithmetic are not part of
   * this model.
   */
  datatype Exercise = Exercise(quantity: string, strike: string, date: string, basis: string, call: bool)

  const Exercise1256 := "Exercise - 1256 Option -"

  lemma {:induction false} RemoveCharDrops(s: string, c: char)
    ensures c !in RemoveChar(s, c)
  {
    if s != [] {
      RemoveCharDrops(s[1..], c);
    }
  }

  lemma {:induction false} RemoveCharKeeps(s: string, c: char, d: char)
    requires d !in s
    ensures d !in RemoveChar(s, c)
  {
    if s != [] {
      assert s[0] in s;
      assert forall x :: x in s[1..] ==> x in s;
      RemoveCharKeeps(s[1..], c, d);
    }
  }

  /**
   * `price_ref_2021`.  The description is unquoted with `trim1` and split
   * at blanks, and its first word loses its last byte (the comma after the
   * quantity): an empty first word underflows the length, and one ending in
   * a character of more than one byte is cut inside it.
   */
  function PriceRef2021(fields: seq<string>): (r: Checked<Result<Option<Exercise>, string>>)
    requires |fields| == 10
  {
    if fields[0] != "Exercised" then Done(Ok(None))
    else
      match Trim1(fields[1])
      case Panic(m) => Panic(m)
      case Done(trimmed) =>
        match FieldsAsWritten(trimmed, ' ')
        case Panic(m) => Panic(m)
        case Done(desc) =>
          if |desc| != 6 then
            Done(Err("Description " + fields[1] + " has " + NatToString(|desc|) + " fields, cannot parse."))
          else if desc[0] == [] then Panic("attempt to subtract with overflow")
          else if Utf8Len(desc[0][|desc[0]| - 1]) != 1 then Panic("byte index is not a char boundary")
          else
            Done(Ok(Some(Exercise(desc[0][..|desc[0]| - 1], desc[5], fields[2], fields[5],
                                  Contains(fields[1], "Call")))))
  }

  /** `price_ref_2022`: the strike is the fourth dash-separated part of the contract name (`nth(3)`). */
  function PriceRef2022(fields: seq<string>): (r: Checked<Result<Option<Exercise>, string>>)
    requires |fields| == 10
  {
    if !Contains(fields[1], Exercise1256) || fields[3] == "BTC" then Done(Ok(None))
    else
      match NthAsWritten(fields[3], '-', 3)
      case Panic(m) => Panic(m)
      case Done(None) => Done(Err("[2021] no field 4 in contract " + fields[3]))
      case Done(Some(strike)) =>
        Done(Ok(Some(Exercise(RemoveChar(RemoveChar(fields[2], ','), '"'), strike, fields[4], fields[7],
                              Contains(fields[3], "Call")))))
  }

  /**
   * `price_ref`: the line is split at commas by the iterator as written; it
   * must have exactly ten fields; one whose first field is all digits (a
   * user id) is read as the 2022 format, any other as the 2021 format.
   */
  function PriceRef(line: string): (r: Checked<Result<Option<Exercise>, string>>)
  {
    match FieldsAsWritten(line, ',')
    case Panic(m) => Panic(m)
    case Done(fields) =>
      if |fields| != 10 then
        Done(Err("Not sure how to parse CSV line with " + NatToString(|fields|) + " fields (expected 10)"))
      else if AllDigits(fields[0]) then PriceRef2022(fields)
      else PriceRef2021(fields)
  }

  /**
   * What `price_ref` promises, over the fields the iterator as written
   * yields: a split that panics panics the call; a line without ten fields
   * is an error; a 2021 line that is not "Exercised", or a 2022 line that is
   * not a 1256-option exercise or is of plain bitcoin, is no price
   * reference; an exercise is taken from the fields and description words
   * its format puts it in.
   */
  lemma PriceRefMeaning(line: string)
    ensures var split := FieldsAsWritten(line, ',');
      var r := PriceRef(line);
      (split.Panic? ==> r.Panic?) &&
      (split.Done? ==>
        var fields := split.value;
        (|fields| != 10 ==> r.Done? && r.value.Err?) &&
        (r.Panic? ==> |fields| == 10 && (fields[0] == "Exercised" || AllDigits(fields[0]))) &&
        (|fields| == 10 && !AllDigits(fields[0]) && fields[0] != "Exercised" ==> r == Done(Ok(None))) &&
        (|fields| == 10 && AllDigits(fields[0]) && (!Contains(fields[1], Exercise1256) || fields[3] == "BTC") ==>
           r == Done(Ok(None))) &&
        (r.Done? && r.value.Ok? && r.value.value.Some? ==>
           var e := r.value.value.value;
           |fields| == 10 &&
           ((fields[0] == "Exercised" && Trim1(fields[1]).Done? &&
             FieldsAsWritten(Trim1(fields[1]).value, ' ').Done? &&
             var desc := FieldsAsWritten(Trim1(fields[1]).value, ' ').value;
             |desc| == 6 && desc[0] == e.quantity + [desc[0][|desc[0]| - 1]] && e.strike == desc[5] &&
             e.date == fields[2] && e.basis == fields[5] && e.call == Contains(fields[1], "Call")) ||
            (AllDigits(fields[0]) && Contains(fields[1], Exercise1256) && fields[3] != "BTC" &&
             NthAsWritten(fields[3], '-', 3) == Done(Some(e.strike)) &&
             e.date == fields[4] && e.basis == fields[7] && e.call == Contains(fields[3], "Call") &&
             ',' !in e.quantity && '"' !in e.quantity))))
  {
    match FieldsAsWritten(line, ',')
    case Panic(_) =>
    case Done(fields) =>
      if |fields| == 10 {
        if AllDigits(fields[0]) {
          PriceRef2022Meaning(fields);
        } else {
          PriceRef2021Meaning(fields);
        }
      }
  }

  /** The 2021 half of `PriceRefMeaning`. */
  lemma PriceRef2021Meaning(fields: seq<string>)
    requires |fields| == 10
    ensures var r := PriceRef2021(fields);
      (fields[0] != "Exercised" ==> r == Done(Ok(None))) &&
      (r.Done? && r.value.Ok? && r.value.value.Some? ==>
         var e := r.value.value.value;
         fields[0] == "Exercised" && Trim1(fields[1]).Done? &&
         FieldsAsWritten(Trim1(fields[1]).value, ' ').Done? &&
         var desc := FieldsAsWritten(Trim1(fields[1]).value, ' ').value;
         |desc| == 6 && desc[0] == e.quantity + [desc[0][|desc[0]| - 1]] && e.strike == desc[5] &&
         e.date == fields[2] && e.basis == fields[5] && e.call == Contains(fields[1], "Call"))
  {
  }

  /** The 2022 half of `PriceRefMeaning`: the quantity is stripped of commas and quotes. */
  lemma PriceRef2022Meaning(fields: seq<string>)
    requires |fields| == 10
    ensures var r := PriceRef2022(fields);
      (!Contains(fields[1], Exercise1256) || fields[3] == "BTC" ==> r == Done(Ok(None))) &&
      (r.Done? && r.value.Ok? && r.value.value.Some? ==>
         var e := r.value.value.value;
         Contains(fields[1], Exercise1256) && fields[3] != "BTC" &&
         NthAsWritten(fields[3], '-', 3) == Done(Some(e.strike)) &&
         e.date == fields[4] && e.basis == fields[7] && e.call == Contains(fields[3], "Call") &&
         ',' !in e.quantity && '"' !in e.quantity)
  {
    RemoveCharDrops(RemoveChar(fields[2], ','), '"');
    RemoveCharDrops(fields[2], ',');
    RemoveCharKeeps(RemoveChar(fields[2], ','), '"', ',');
  }

  /**
   * On an ASCII line every cut falls where intended: the line splits into
   * its `Fields`, and the only panic left is a 2021 description whose first
   * word is empty.
   */
  lemma PriceRefAscii(line: string)
    requires IsAscii(line)
    ensures var fields := Fields(line, ',');
      FieldsAsWritten(line, ',') == Done(fields) &&
      (PriceRef(line).Panic? <==>
         |fields| == 10 && fields[0] == "Exercised" && Trim1(fields[1]).Done? &&
         var desc := Fields(Trim1(fields[1]).value, ' ');
         |desc| == 6 && desc[0] == [])
  {
    var fields := Fields(line, ',');
    AsciiFieldsAgree(line, ',');
    AsciiFields(line, ',');
    if |fields| == 10 {
      if AllDigits(fields[0]) {
        assert !IsDigit("Exercised"[0]);
        PriceRef2022Ascii(fields);
      } else {
        PriceRef2021Ascii(fields);
      }
    }
  }

  lemma PriceRef2021Ascii(fields: seq<string>)
    requires |fields| == 10 && IsAscii(fields[1])
    ensures Trim1(fields[1]).Done?
    ensures PriceRef2021(fields).Panic? <==>
      fields[0] == "Exercised" && var desc := Fields(Trim1(fields[1]).value, ' '); |desc| == 6 && desc[0] == []
  {
    Trim1Ascii(fields[1]);
    var trimmed := Trim1(fields[1]).value;
    AsciiFieldsAgree(trimmed, ' ');
    AsciiFields(trimmed, ' ');
  }

  lemma PriceRef2022Ascii(fields: seq<string>)
    requires |fields| == 10 && IsAscii(fields[3])
    ensures PriceRef2022(fields).Done?
  {
    AsciiNthAgrees(fields[3], '-', 3);
  }

  /**
   * A line starting with a three-byte character and a comma panics: the
   * comma is the second character, so the cut is at byte 1, inside the `€`.
   */
  lemma PriceRefPanicsOnEuro(line: string)
    requires line == ['\U{20AC}', ','] + "b,c,d,e,f,g,h,i,j"
    ensures PriceRef(line).Panic?
  {
    assert line[..0] == [] && line[..1] == ['\U{20AC}'];
    AfterNext(line, 0);
    assert !SplitsAt(line, 0, ',') && SplitsAt(line, 1, ',');
    assert FirstSplit(line, ',') == Some(1);
    assert CharsInBytes(line, 1).None?;
  }
}
