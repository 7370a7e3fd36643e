// The bitcoin price history: CSV trade lines, the store of prices keyed by
// time, its sampling of a trade file, and its month-by-month JSON cache.
module PriceHistory {
  import opened Strings
  import opened Wrappers
  import opened Decimals
  import opened UtcTime

  /** A price observed at a point in time. */
  datatype BitcoinPrice = BitcoinPrice(timestamp: Time, btcPrice: Decimal)

  // ---- one CSV line ----------------------------------------------------------

  /** A non-empty string of decimal digits, read as a number. */
  function ParseDigits(s: string): Option<nat>
  {
    if |s| > 0 && AllDigits(s) then Some(DigitsValue(s)) else None
  }

  /** `i64::from_str`: an optional sign, at least one digit, and a value an `i64` holds. */
  function ParseI64(s: string): (r: Option<int>)
    ensures r.Some? ==> I64Min <= r.value <= I64Max
  {
    var v: Option<int> :=
      if |s| > 0 && s[0] == '-' then
        match ParseDigits(s[1..]) case None => None case Some(n) => Some(-(n as int))
      else if |s| > 0 && s[0] == '+' then
        match ParseDigits(s[1..]) case None => None case Some(n) => Some(n as int)
      else
        match ParseDigits(s) case None => None case Some(n) => Some(n as int);
    if v.Some? && I64Min <= v.value <= I64Max then v else None
  }

  /** Every `i64` displayed in decimal reads back as itself. */
  lemma ParseI64Display(i: int)
    requires I64Min <= i <= I64Max
    ensures ParseI64(IntToString(i)) == Some(i)
  {
    if i < 0 {
      ParseDigitsDisplay(-i);
      assert IntToString(i)[1..] == NatToString(-i);
    } else {
      ParseDigitsDisplay(i);
    }
  }

  lemma ParseDigitsDisplay(n: nat)
    ensures ParseDigits(NatToString(n)) == Some(n) && NatToString(n)[0] != '-' && NatToString(n)[0] != '+'
  {
    NatToStringInverse(n);
  }

  /** Why a CSV line is not a price. */
  datatype CsvError = BadTimestamp | NoPrice | BadPrice | NoVolume | ExtraData

  /**
   * `BitcoinPrice::from_csv`: `seconds,price,volume`.  The seconds are an
   * `i64`, the price a decimal; the volume must be there but is not read.
   */
  function FromCsv(line: string): (r: Result<BitcoinPrice, CsvError>)
    ensures r.Ok? <==>
      var f := Split(line, ',');
      |f| == 3 && ParseI64(f[0]).Some? && Decimals.Parse(f[1]).Some?
    ensures r.Ok? ==>
      var f := Split(line, ',');
      r.value == BitcoinPrice(FromUnixSeconds(ParseI64(f[0]).value), Decimals.Parse(f[1]).value)
    ensures r == Err(NoVolume) ==> |Split(line, ',')| == 2
    ensures r == Err(ExtraData) ==> |Split(line, ',')| > 3
  {
    var f := Split(line, ',');
    match ParseI64(f[0])
    case None => Err(BadTimestamp)
    case Some(secs) =>
      if |f| < 2 then Err(NoPrice)
      else
        match Decimals.Parse(f[1])
        case None => Err(BadPrice)
        case Some(p) =>
          if |f| < 3 then Err(NoVolume)
          else if |f| > 3 then Err(ExtraData)
          else Ok(BitcoinPrice(FromUnixSeconds(secs), p))
  }

  lemma IntNoComma(i: int)
    ensures ',' !in IntToString(i)
  {
    if i < 0 {
      DigitsHaveNo(NatToString(-i), ',');
    } else {
      DigitsHaveNo(NatToString(i), ',');
    }
  }

  lemma DecimalNoComma(d: Decimal)
    ensures ',' !in Decimals.ToString(d)
  {
    var digits := Digits(d);
    var k := |digits| - d.scale;
    DigitsHaveNo(digits[..k], ',');
    DigitsHaveNo(digits[k..], ',');
  }

  /**
   * A line written from a whole number of seconds and a decimal price, with any
   * comma-free volume, reads back as that price at that second.
   */
  lemma FromCsvOfFields(secs: int, p: Decimal, volume: string)
    requires I64Min <= secs <= I64Max
    requires ',' !in volume
    ensures FromCsv(IntToString(secs) + "," + Decimals.ToString(p) + "," + volume)
         == Ok(BitcoinPrice(FromUnixSeconds(secs), p))
  {
    var a, b := IntToString(secs), Decimals.ToString(p);
    assert ',' !in a by { IntNoComma(secs); }
    assert ',' !in b by { DecimalNoComma(p); }
    ThreeFields(a, b, volume);
    ParseI64Display(secs);
    ParseToString(p);
  }

  lemma ThreeFields(a: string, b: string, c: string)
    requires ',' !in a && ',' !in b && ',' !in c
    ensures Split(a + "," + b + "," + c, ',') == [a, b, c]
  {
    assert Join([c], ",") == c;
    assert Join([b, c], ",") == b + "," + c;
    assert Join([a, b, c], ",") == a + "," + (b + "," + c);
    assert a + "," + b + "," + c == a + "," + (b + "," + c);
    JoinSplit([a, b, c], ',');
  }

  // ---- the store ---------------------------------------------------------------

  /** Timestamps strictly increase along the sequence: the order of a `BTreeMap`'s entries. */
  ghost predicate Ascending(s: seq<BitcoinPrice>)
  {
    forall i, j :: 0 <= i < j < |s| ==> s[i].timestamp < s[j].timestamp
  }

  /** The entry stored under `t`, if any. */
  function Lookup(s: seq<BitcoinPrice>, t: Time): Option<BitcoinPrice>
  {
    if s == [] then None else if s[0].timestamp == t then Some(s[0]) else Lookup(s[1..], t)
  }

  /** `BTreeMap::insert` keyed by the timestamp: a new key is placed in order, an old one replaced. */
  function Insert(s: seq<BitcoinPrice>, p: BitcoinPrice): seq<BitcoinPrice>
  {
    if s == [] then [p]
    else if p.timestamp < s[0].timestamp then [p] + s
    else if p.timestamp == s[0].timestamp then [p] + s[1..]
    else [s[0]] + Insert(s[1..], p)
  }

  /** After an insert the key holds the new price and every other key what it held. */
  lemma {:induction false} InsertLookup(s: seq<BitcoinPrice>, p: BitcoinPrice, t: Time)
    ensures Lookup(Insert(s, p), t) == if t == p.timestamp then Some(p) else Lookup(s, t)
  {
    if s != [] && p.timestamp > s[0].timestamp {
      InsertLookup(s[1..], p, t);
      assert Insert(s, p)[1..] == Insert(s[1..], p);
    } else if s != [] && p.timestamp < s[0].timestamp {
      assert Insert(s, p)[1..] == s;
    } else if s != [] {
      assert Insert(s, p)[1..] == s[1..];
    }
  }

  lemma AscendingTail(s: seq<BitcoinPrice>)
    requires Ascending(s) && s != []
    ensures Ascending(s[1..])
  {
    forall i, j | 0 <= i < j < |s[1..]| ensures s[1..][i].timestamp < s[1..][j].timestamp {
      assert s[1..][i] == s[i + 1] && s[1..][j] == s[j + 1];
    }
  }

  lemma {:induction false} LookupBelow(s: seq<BitcoinPrice>, t: Time)
    requires Ascending(s) && s != [] && t < s[0].timestamp
    ensures Lookup(s, t) == None
  {
    if |s| > 1 {
      assert s[0].timestamp < s[1].timestamp;
      AscendingTail(s);
      LookupBelow(s[1..], t);
    }
  }

  /** An insert adds no entry but the new one. */
  lemma {:induction false} InsertElements(s: seq<BitcoinPrice>, p: BitcoinPrice)
    ensures forall e :: e in Insert(s, p) ==> e == p || e in s
  {
    if s != [] && p.timestamp > s[0].timestamp {
      InsertElements(s[1..], p);
      assert Insert(s, p) == [s[0]] + Insert(s[1..], p);
    }
  }

  /** An insert adds an entry exactly when the key is new. */
  lemma {:induction false} InsertLength(s: seq<BitcoinPrice>, p: BitcoinPrice)
    requires Ascending(s)
    ensures |Insert(s, p)| == |s| + (if Lookup(s, p.timestamp).Some? then 0 else 1)
  {
    if s != [] && p.timestamp > s[0].timestamp {
      AscendingTail(s);
      InsertLength(s[1..], p);
    } else if s != [] && p.timestamp < s[0].timestamp {
      LookupBelow(s, p.timestamp);
    }
  }

  /** An insert keeps the entries ordered, and adds an entry exactly when the key is new. */
  lemma {:induction false} InsertOrdered(s: seq<BitcoinPrice>, p: BitcoinPrice)
    requires Ascending(s)
    ensures Ascending(Insert(s, p))
    ensures |Insert(s, p)| == |s| + (if Lookup(s, p.timestamp).Some? then 0 else 1)
    ensures forall e :: e in Insert(s, p) ==> e == p || e in s
  {
    InsertElements(s, p);
    InsertLength(s, p);
    if s != [] && p.timestamp > s[0].timestamp {
      AscendingTail(s);
      InsertOrdered(s[1..], p);
      InsertAbove(s, p, Insert(s[1..], p));
    } else if s != [] && p.timestamp < s[0].timestamp {
      forall i, j | 0 <= i < j < |[p] + s|
        ensures ([p] + s)[i].timestamp < ([p] + s)[j].timestamp
      {
        if i == 0 && j > 1 {
          assert s[0].timestamp < s[j - 1].timestamp;
        }
      }
    } else if s != [] {
      AscendingTail(s);
    }
  }

  /** The first entry stays in front of an ordered insert into the rest. */
  lemma InsertAbove(s: seq<BitcoinPrice>, p: BitcoinPrice, r: seq<BitcoinPrice>)
    requires Ascending(s) && s != [] && p.timestamp > s[0].timestamp
    requires Ascending(r) && forall e :: e in r ==> e == p || e in s[1..]
    ensures Ascending([s[0]] + r)
  {
    forall e | e in r ensures s[0].timestamp < e.timestamp {
      if e != p {
        var j :| 0 <= j < |s[1..]| && s[1..][j] == e;
        assert s[j + 1] == e;
      }
    }
    forall i, j | 0 <= i < j < |[s[0]] + r|
      ensures ([s[0]] + r)[i].timestamp < ([s[0]] + r)[j].timestamp
    {
      if i == 0 {
        assert ([s[0]] + r)[j] == r[j - 1];
        assert r[j - 1] in r;
      } else {
        assert ([s[0]] + r)[i] == r[i - 1] && ([s[0]] + r)[j] == r[j - 1];
      }
    }
  }

  /** Inserting every price of `ps` in turn. */
  function InsertAll(s: seq<BitcoinPrice>, ps: seq<BitcoinPrice>): seq<BitcoinPrice>
  {
    if ps == [] then s else Insert(InsertAll(s, ps[..|ps| - 1]), ps[|ps| - 1])
  }

  lemma InsertAllSnoc(s: seq<BitcoinPrice>, ps: seq<BitcoinPrice>, p: BitcoinPrice)
    ensures InsertAll(s, ps + [p]) == Insert(InsertAll(s, ps), p)
  {
    assert (ps + [p])[..|ps|] == ps;
  }

  /** After a run of inserts each key holds the LAST price given for it, or what it held before. */
  lemma {:induction false} InsertAllLookup(s: seq<BitcoinPrice>, ps: seq<BitcoinPrice>, t: Time)
    ensures Lookup(InsertAll(s, ps), t) ==
      if exists i :: 0 <= i < |ps| && ps[i].timestamp == t
      then Some(ps[LastWith(ps, t)]) else Lookup(s, t)
  {
    if ps != [] {
      var n := |ps| - 1;
      InsertAllLookup(s, ps[..n], t);
      InsertLookup(InsertAll(s, ps[..n]), ps[n], t);
      if ps[n].timestamp != t {
        if exists i :: 0 <= i < |ps| && ps[i].timestamp == t {
          var i :| 0 <= i < |ps| && ps[i].timestamp == t;
          assert ps[..n][i].timestamp == t;
        }
        if exists i :: 0 <= i < n && ps[..n][i].timestamp == t {
          var i :| 0 <= i < n && ps[..n][i].timestamp == t;
          assert ps[i].timestamp == t;
          assert LastWith(ps, t) == LastWith(ps[..n], t);
        }
      }
    }
  }

  /** The last index of `ps` whose timestamp is `t`. */
  function LastWith(ps: seq<BitcoinPrice>, t: Time): (i: nat)
    requires exists i :: 0 <= i < |ps| && ps[i].timestamp == t
    ensures i < |ps| && ps[i].timestamp == t
    ensures forall j :: i < j < |ps| ==> ps[j].timestamp != t
  {
    var n := |ps| - 1;
    if ps[n].timestamp == t then n
    else
      assert exists i :: 0 <= i < n && ps[..n][i].timestamp == t by {
        var i :| 0 <= i < |ps| && ps[i].timestamp == t;
        assert ps[..n][i] == ps[i];
      }
      LastWith(ps[..n], t)
  }

  /**
   * The query of `price_at`: the entry with the latest timestamp strictly
   * before `t`, if there is one.
   */
  function LatestBefore(s: seq<BitcoinPrice>, t: Time): (r: Option<BitcoinPrice>)
    ensures r.None? <==> forall e :: e in s ==> e.timestamp >= t
    ensures r.Some? ==> r.value in s && r.value.timestamp < t
    ensures r.Some? ==> forall e :: e in s && e.timestamp < t ==> e.timestamp <= r.value.timestamp
  {
    if s == [] then None
    else
      var rest := LatestBefore(s[1..], t);
      assert forall e :: e in s ==> e == s[0] || e in s[1..];
      if s[0].timestamp >= t then rest
      else if rest.Some? && rest.value.timestamp >= s[0].timestamp then rest
      else Some(s[0])
  }

  /** The history of prices, as a `BTreeMap` from timestamp to price. */
  class Historic {
    var data: seq<BitcoinPrice>

    ghost predicate Valid()
      reads this
    {
      Ascending(data)
    }

    /** `Historic::default`: no prices. */
    constructor ()
      ensures Valid() && data == []
    {
      data := [];
    }

    /** `record`: the price is stored under its timestamp, replacing any there. */
    method Record(p: BitcoinPrice)
      requires Valid()
      modifies this
      ensures Valid() && data == Insert(old(data), p)
    {
      InsertOrdered(data, p);
      data := Insert(data, p);
    }

    /** `for price in prices { record(price) }`: each price in turn. */
    method RecordAll(prices: seq<BitcoinPrice>)
      requires Valid()
      modifies this
      ensures Valid() && data == InsertAll(old(data), prices)
    {
      var j := 0;
      while j < |prices|
        invariant j <= |prices|
        invariant Valid() && data == InsertAll(old(data), prices[..j])
      {
        InsertAllSnoc(old(data), prices[..j], prices[j]);
        assert prices[..j + 1] == prices[..j] + [prices[j]];
        Record(prices[j]);
        j := j + 1;
      }
      assert prices[..j] == prices;
    }

    /** `len`: the number of timestamps stored. */
    function Len(): nat
      reads this
    {
      |data|
    }

    /**
     * `price_at`: the latest price recorded strictly before `t`; it panics when
     * there is none (the `unwrap` of an empty range).
     */
    function PriceAt(t: Time): (r: Checked<BitcoinPrice>)
      reads this
      ensures r.Panic? <==> forall i :: 0 <= i < |data| ==> data[i].timestamp >= t
      ensures r.Done? ==> r.value in data && r.value.timestamp < t
      ensures r.Done? ==> forall i :: 0 <= i < |data| && data[i].timestamp < t ==> data[i].timestamp <= r.value.timestamp
    {
      match LatestBefore(data, t)
      case None => Panic("no price recorded before the time")
      case Some(p) => Done(p)
    }

    /**
     * `read_csv`: the lines are parsed in order and the first trade of each
     * 5-minute slot is recorded; after the last line the last trade is recorded
     * too.  A line that does not parse stops the reading with an error, and
     * what was recorded before it stays.
     */
    method ReadCsv(lines: seq<string>) returns (r: Result<(), ReadError>)
      requires Valid()
      modifies this
      ensures Valid()
      ensures var rs := ParseLines(lines); var k := FirstBad(rs);
        if k < |lines| then
          r == Err(ReadError(k, rs[k].error)) &&
          data == InsertAll(old(data), Sampled(Trades(rs, k)))
        else
          r == Ok(()) &&
          data == InsertAll(old(data), Sampled(Trades(rs, k)) + LastOf(Trades(rs, k)))
    {
      var lastSlot := 0;
      var lastPrice: Option<BitcoinPrice> := None;
      var i := 0;
      ghost var rs := ParseLines(lines);
      ghost var ps: seq<BitcoinPrice> := [];
      while i < |lines|
        invariant Valid() && Reading(old(data), rs, i, ps, lastSlot, lastPrice, data)
      {
        var parsed := FromCsv(lines[i]);
        ParseLinesAt(lines, i);
        if parsed.Err? {
          ReadStop(old(data), rs, i, ps, lastSlot, lastPrice, data);
          return Err(ReadError(i, parsed.error));
        }
        var price := parsed.value;
        var slot := Slot(price.timestamp);
        if lastSlot != slot {
          ReadRecord(old(data), rs, i, ps, lastSlot, lastPrice, data);
          lastSlot := slot;
          Record(price);
        } else {
          ReadSkip(old(data), rs, i, ps, lastSlot, lastPrice, data);
        }
        lastPrice := Some(price);
        ps := ps + [price];
        i := i + 1;
      }
      ReadEnd(old(data), rs, ps, lastSlot, lastPrice, data);
      if lastPrice.Some? {
        Record(lastPrice.value);
      }
      return Ok(());
    }

    /**
     * `write_out`: the prices in time order, cut into one file per month.  The
     * files come out in the order they are written.
     */
    method WriteOut() returns (files: seq<MonthFile>)
      ensures files == MonthFiles(data)
    {
      var lastYearMonth := 0;
      var entries: seq<BitcoinPrice> := [];
      files := [];
      var i := 0;
      while i < |data|
        invariant i <= |data|
        invariant Scan(data[..i], MonthKey) == Buffer(files, lastYearMonth, entries)
      {
        var e := data[i];
        assert data[..i + 1][..i] == data[..i];
        var yearMonth := YearMonth(e.timestamp);
        if lastYearMonth != yearMonth {
          if lastYearMonth > 0 {
            files := files + [MonthFile(lastYearMonth, entries)];
          }
          entries := [];
          lastYearMonth := yearMonth;
        }
        entries := entries + [e];
        i := i + 1;
      }
      assert data[..i] == data;
      if lastYearMonth > 0 {
        files := files + [MonthFile(lastYearMonth, entries)];
      }
    }
  }

  // ---- sampling a trade file ---------------------------------------------------

  /** The line number and reason of a line that does not parse. */
  datatype ReadError = ReadError(line: nat, reason: CsvError)

  /** Every line parsed on its own. */
  function ParseLines(lines: seq<string>): (rs: seq<Result<BitcoinPrice, CsvError>>)
    ensures |rs| == |lines|
  {
    if lines == [] then [] else [FromCsv(lines[0])] + ParseLines(lines[1..])
  }

  lemma {:induction false} ParseLinesAt(lines: seq<string>, i: nat)
    requires i < |lines|
    ensures ParseLines(lines)[i] == FromCsv(lines[i])
  {
    if i > 0 {
      ParseLinesAt(lines[1..], i - 1);
    }
  }

  /** The index of the first parse that failed, or the number of lines. */
  function FirstBad(rs: seq<Result<BitcoinPrice, CsvError>>): (k: nat)
    ensures k <= |rs|
    ensures forall i :: 0 <= i < k ==> rs[i].Ok?
    ensures k < |rs| ==> rs[k].Err?
  {
    if rs == [] then 0
    else if rs[0].Err? then 0
    else
      var k := FirstBad(rs[1..]);
      assert forall i :: 1 <= i < k + 1 ==> rs[i] == rs[1..][i - 1];
      1 + k
  }

  /** The trades of the first `k` lines, all of which parse. */
  function Trades(rs: seq<Result<BitcoinPrice, CsvError>>, k: nat): (ps: seq<BitcoinPrice>)
    requires k <= |rs| && forall i :: 0 <= i < k ==> rs[i].Ok?
    ensures |ps| == k
  {
    seq(k, i requires 0 <= i < k => rs[i].value)
  }

  /**
   * The slot `read_csv` compares: `12 * hour + minute / 5` evaluated in `u8`,
   * as `hour()` and `minute()` return `u8`.  The model follows a build without
   * overflow checks, where the value wraps modulo 256 from 21:20 UTC on.
   */
  function Slot(t: Time): (r: nat)
    ensures r < 256
  {
    WrapU8(12 * Hour(t) + Minute(t) / 5)
  }

  /** A `u8` result of arithmetic without overflow checks. */
  function WrapU8(n: nat): (r: nat)
    ensures r < 256
  {
    n % 256
  }

  /** The `u8` slot is the intended one modulo 256, and the same before 21:20 UTC. */
  lemma SlotOfIntended(t: Time)
    ensures Slot(t) == SlotIntended(t) % 256
    ensures SlotIntended(t) < 256 <==> Slot(t) == SlotIntended(t)
    ensures SlotIntended(t) < 256 <==> Hour(t) < 21 || (Hour(t) == 21 && Minute(t) < 20)
  {
  }

  /** The 5-minute slot of the day a time falls in, without the wrap-around. */
  function SlotIntended(t: Time): (r: nat)
    ensures r < 288
  {
    12 * Hour(t) + Minute(t) / 5
  }

  /** Two times share an intended slot exactly when they share the hour and the five minutes. */
  lemma SlotIntendedMeaning(t: Time, u: Time)
    ensures SlotIntended(t) == SlotIntended(u) <==> Hour(t) == Hour(u) && Minute(t) / 5 == Minute(u) / 5
  {
    var a, b := Minute(t) / 5, Minute(u) / 5;
    assert a < 12 && b < 12;
    if SlotIntended(t) == SlotIntended(u) {
      SlotDigits(Hour(t), a, Hour(u), b);
    }
  }

  lemma SlotDigits(h: nat, a: nat, k: nat, b: nat)
    requires a < 12 && b < 12 && 12 * h + a == 12 * k + b
    ensures h == k && a == b
  {
  }

  /**
   * The wrapped slot confuses exactly the intended slots 256 apart: from
   * 21:20 UTC on, a time shares its slot with one 21 hours 20 minutes earlier.
   */
  lemma SlotCollisions(t: Time, u: Time)
    ensures Slot(t) == Slot(u) <==>
      SlotIntended(t) == SlotIntended(u) || SlotIntended(t) == SlotIntended(u) + 256 || SlotIntended(u) == SlotIntended(t) + 256
  {
    WrapCollisions(SlotIntended(t), SlotIntended(u));
  }

  lemma WrapCollisions(a: nat, b: nat)
    requires a < 512 && b < 512
    ensures WrapU8(a) == WrapU8(b) <==> a == b || a == b + 256 || b == a + 256
  {
    if a < 256 { assert WrapU8(a) == a; } else { assert WrapU8(a) == a - 256; }
    if b < 256 { assert WrapU8(b) == b; } else { assert WrapU8(b) == b - 256; }
  }

  /**
   * A file whose only line is a trade at 21:22 UTC: its wrapped slot is 0, the
   * slot the reader starts from, so the trade is not sampled, although its
   * intended slot, 256, is not 0.
   */
  lemma SlotWrapsAtNight(p: BitcoinPrice)
    requires p.timestamp == At(0, 21, 22, 0)
    ensures SlotIntended(p.timestamp) == 256 && Slot(p.timestamp) == 0
    ensures Sampled([p]) == []
  {
    AtFields(0, 21, 22, 0);
    assert [p][..0] == [];
  }

  /**
   * A trade at 21:20 UTC followed by one at 00:02 on a later day, after any
   * earlier trades: the second is not sampled, since both wrapped slots are 0,
   * although the intended slots, 256 and 0, differ.
   */
  lemma SlotWrapsOverMidnight(ps: seq<BitcoinPrice>, p: BitcoinPrice, q: BitcoinPrice, day: nat)
    requires p.timestamp == At(0, 21, 20, 0) && q.timestamp == At(day + 1, 0, 2, 0)
    ensures SlotIntended(p.timestamp) == 256 && SlotIntended(q.timestamp) == 0
    ensures Sampled(ps + [p, q]) == Sampled(ps + [p])
  {
    AtFields(0, 21, 20, 0);
    AtFields(day + 1, 0, 2, 0);
    SampledSnoc(ps, p);
    SampledSnoc(ps + [p], q);
    assert ps + [p, q] == (ps + [p]) + [q];
  }

  /** The slot the reader remembers before trade `i`: the previous trade's, or 0 at the start. */
  function SlotBefore(ps: seq<BitcoinPrice>, i: nat): nat
    requires i <= |ps|
  {
    if i == 0 then 0 else Slot(ps[i - 1].timestamp)
  }

  /** Trade `i` is recorded: its slot differs from the one before. */
  predicate StartsSlot(ps: seq<BitcoinPrice>, i: nat)
    requires i < |ps|
  {
    Slot(ps[i].timestamp) != SlotBefore(ps, i)
  }

  /** The trades recorded from the lines, in order. */
  function Sampled(ps: seq<BitcoinPrice>): seq<BitcoinPrice>
  {
    if ps == [] then []
    else Sampled(ps[..|ps| - 1]) + (if StartsSlot(ps, |ps| - 1) then [ps[|ps| - 1]] else [])
  }

  /** The indices of the trades recorded from the lines. */
  function SampledIndices(ps: seq<BitcoinPrice>): seq<nat>
  {
    if ps == [] then []
    else SampledIndices(ps[..|ps| - 1]) + (if StartsSlot(ps, |ps| - 1) then [|ps| - 1] else [])
  }

  function LastOf(ps: seq<BitcoinPrice>): seq<BitcoinPrice>
  {
    if ps == [] then [] else [ps[|ps| - 1]]
  }

  function LastTrade(ps: seq<BitcoinPrice>): Option<BitcoinPrice>
  {
    if ps == [] then None else Some(ps[|ps| - 1])
  }

  /** What `read_csv` knows after `i` lines: all parsed, and the trades so far sampled into `data`. */
  ghost predicate Reading(start: seq<BitcoinPrice>, rs: seq<Result<BitcoinPrice, CsvError>>, i: nat,
                          ps: seq<BitcoinPrice>, lastSlot: nat, lastPrice: Option<BitcoinPrice>, data: seq<BitcoinPrice>)
  {
    i <= |rs| && i <= FirstBad(rs) && ps == Trades(rs, i) &&
    data == InsertAll(start, Sampled(ps)) && lastSlot == SlotBefore(ps, i) && lastPrice == LastTrade(ps)
  }

  /** One more line that parses and starts a slot: its trade is recorded. */
  lemma ReadRecord(start: seq<BitcoinPrice>, rs: seq<Result<BitcoinPrice, CsvError>>, i: nat,
                   ps: seq<BitcoinPrice>, lastSlot: nat, lastPrice: Option<BitcoinPrice>, data: seq<BitcoinPrice>)
    requires Reading(start, rs, i, ps, lastSlot, lastPrice, data) && i < |rs| && rs[i].Ok?
    requires lastSlot != Slot(rs[i].value.timestamp)
    ensures var p := rs[i].value;
      Reading(start, rs, i + 1, ps + [p], Slot(p.timestamp), Some(p), Insert(data, p))
  {
    var p := rs[i].value;
    TradesSnoc(rs, i);
    SampledSnoc(ps, p);
    InsertAllSnoc(start, Sampled(ps), p);
  }

  /** One more line that parses in the slot of the one before: nothing is recorded. */
  lemma ReadSkip(start: seq<BitcoinPrice>, rs: seq<Result<BitcoinPrice, CsvError>>, i: nat,
                 ps: seq<BitcoinPrice>, lastSlot: nat, lastPrice: Option<BitcoinPrice>, data: seq<BitcoinPrice>)
    requires Reading(start, rs, i, ps, lastSlot, lastPrice, data) && i < |rs| && rs[i].Ok?
    requires lastSlot == Slot(rs[i].value.timestamp)
    ensures var p := rs[i].value;
      Reading(start, rs, i + 1, ps + [p], lastSlot, Some(p), data)
  {
    var p := rs[i].value;
    TradesSnoc(rs, i);
    SampledSnoc(ps, p);
    assert Sampled(ps) + [] == Sampled(ps);
  }

  /** A line that does not parse is the first bad one, and what was sampled before it stays. */
  lemma ReadStop(start: seq<BitcoinPrice>, rs: seq<Result<BitcoinPrice, CsvError>>, i: nat,
                 ps: seq<BitcoinPrice>, lastSlot: nat, lastPrice: Option<BitcoinPrice>, data: seq<BitcoinPrice>)
    requires Reading(start, rs, i, ps, lastSlot, lastPrice, data) && i < |rs| && rs[i].Err?
    ensures FirstBad(rs) == i && data == InsertAll(start, Sampled(Trades(rs, i)))
  {
  }

  /** After the last line every line parsed, and the last trade is recorded. */
  lemma ReadEnd(start: seq<BitcoinPrice>, rs: seq<Result<BitcoinPrice, CsvError>>,
                ps: seq<BitcoinPrice>, lastSlot: nat, lastPrice: Option<BitcoinPrice>, data: seq<BitcoinPrice>)
    requires Reading(start, rs, |rs|, ps, lastSlot, lastPrice, data)
    ensures FirstBad(rs) == |rs|
    ensures (if lastPrice.Some? then Insert(data, lastPrice.value) else data) ==
      InsertAll(start, Sampled(Trades(rs, |rs|)) + LastOf(Trades(rs, |rs|)))
  {
    if lastPrice.Some? {
      InsertAllSnoc(start, Sampled(ps), lastPrice.value);
    } else {
      assert Sampled(ps) + [] == Sampled(ps);
    }
  }

  lemma TradesSnoc(rs: seq<Result<BitcoinPrice, CsvError>>, i: nat)
    requires i < |rs| && forall j :: 0 <= j <= i ==> rs[j].Ok?
    ensures Trades(rs, i + 1) == Trades(rs, i) + [rs[i].value]
  {
  }

  lemma SampledSnoc(ps: seq<BitcoinPrice>, p: BitcoinPrice)
    ensures Sampled(ps + [p]) == Sampled(ps) + (if Slot(p.timestamp) != SlotBefore(ps, |ps|) then [p] else [])
    ensures SlotBefore(ps + [p], |ps| + 1) == Slot(p.timestamp)
    ensures LastTrade(ps + [p]) == Some(p) && LastOf(ps + [p]) == [p]
  {
    assert (ps + [p])[..|ps|] == ps;
  }

  /**
   * The trades recorded are exactly those that open a new slot, in the order
   * of the lines: trade `i` is kept iff its slot differs from trade `i - 1`'s
   * (for the first trade: from slot 0, so a file that starts at midnight
   * loses its first trade).
   */
  lemma {:induction false} SampledAreSlotStarts(ps: seq<BitcoinPrice>)
    ensures |Sampled(ps)| == |SampledIndices(ps)|
    ensures forall j :: 0 <= j < |SampledIndices(ps)| ==>
      SampledIndices(ps)[j] < |ps| && Sampled(ps)[j] == ps[SampledIndices(ps)[j]]
    ensures forall j, k :: 0 <= j < k < |SampledIndices(ps)| ==> SampledIndices(ps)[j] < SampledIndices(ps)[k]
    ensures forall i :: 0 <= i < |ps| ==> (i in SampledIndices(ps) <==> StartsSlot(ps, i))
  {
    if ps != [] {
      var n := |ps| - 1;
      var q := ps[..n];
      SampledAreSlotStarts(q);
      assert forall i :: 0 <= i < n ==> StartsSlot(q, i) == StartsSlot(ps, i) by {
        forall i | 0 <= i < n ensures StartsSlot(q, i) == StartsSlot(ps, i) {
          assert q[i] == ps[i];
          if i > 0 { assert q[i - 1] == ps[i - 1]; }
        }
      }
    }
  }

  /** After a whole file has been read, the store holds its last trade under that trade's time. */
  lemma LastTradeRecorded(s: seq<BitcoinPrice>, ps: seq<BitcoinPrice>)
    requires ps != []
    ensures Lookup(InsertAll(s, Sampled(ps) + LastOf(ps)), ps[|ps| - 1].timestamp) == Some(ps[|ps| - 1])
  {
    var last := ps[|ps| - 1];
    InsertAllSnoc(s, Sampled(ps), last);
    InsertLookup(InsertAll(s, Sampled(ps)), last, last.timestamp);
  }

  // ---- the JSON cache ------------------------------------------------------------

  /** The key of a month, `100 * year + month`. */
  function YearMonth(t: Time): int
  {
    100 * DateOf(t).year + DateOf(t).month
  }

  /** One cache file: the month's key and its prices in time order. */
  datatype MonthFile = MonthFile(yearMonth: int, entries: seq<BitcoinPrice>)

  /** The name a file is written under, `{:06}.json`. */
  function FileName(yearMonth: nat): string
  {
    ZeroPad(yearMonth, 6) + ".json"
  }

  /** The writer's state: files written, the current month's key (0 at the start) and its prices. */
  datatype Buffer = Buffer(files: seq<MonthFile>, lastYearMonth: int, entries: seq<BitcoinPrice>)

  /** One price fed to the writer: a new key writes the buffered month (if its key is positive). */
  function Step(b: Buffer, e: BitcoinPrice, key: BitcoinPrice -> int): Buffer
  {
    var yearMonth := key(e);
    if b.lastYearMonth != yearMonth then
      Buffer(if b.lastYearMonth > 0 then b.files + [MonthFile(b.lastYearMonth, b.entries)] else b.files,
             yearMonth, [e])
    else Buffer(b.files, b.lastYearMonth, b.entries + [e])
  }

  function Scan(ps: seq<BitcoinPrice>, key: BitcoinPrice -> int): Buffer
  {
    if ps == [] then Buffer([], 0, []) else Step(Scan(ps[..|ps| - 1], key), ps[|ps| - 1], key)
  }

  /** Everything written: the files written on the way and the last one. */
  function Groups(ps: seq<BitcoinPrice>, key: BitcoinPrice -> int): seq<MonthFile>
  {
    var b := Scan(ps, key);
    if b.lastYearMonth > 0 then b.files + [MonthFile(b.lastYearMonth, b.entries)] else b.files
  }

  /** The key `write_out` groups by. */
  function MonthKey(e: BitcoinPrice): int
  {
    YearMonth(e.timestamp)
  }

  /** The files `write_out` writes, in order. */
  function MonthFiles(ps: seq<BitcoinPrice>): seq<MonthFile>
  {
    Groups(ps, MonthKey)
  }

  function Flatten(files: seq<MonthFile>): seq<BitcoinPrice>
  {
    if files == [] then [] else Flatten(files[..|files| - 1]) + files[|files| - 1].entries
  }

  /** Each file is non-empty and holds prices of its own month only. */
  ghost predicate Uniform(files: seq<MonthFile>, key: BitcoinPrice -> int)
  {
    forall k :: 0 <= k < |files| ==>
      files[k].entries != [] &&
      forall e :: e in files[k].entries ==> key(e) == files[k].yearMonth
  }

  /** Neighbouring files are of different months. */
  ghost predicate Distinct(files: seq<MonthFile>)
  {
    forall k :: 0 < k < |files| ==> files[k - 1].yearMonth != files[k].yearMonth
  }

  ghost predicate AllPositive(ps: seq<BitcoinPrice>, key: BitcoinPrice -> int)
  {
    forall i :: 0 <= i < |ps| ==> key(ps[i]) > 0
  }

  lemma AllPositivePrefix(ps: seq<BitcoinPrice>, n: nat, key: BitcoinPrice -> int)
    requires AllPositive(ps, key) && n <= |ps|
    ensures AllPositive(ps[..n], key)
  {
    assert forall i :: 0 <= i < n ==> ps[..n][i] == ps[i];
  }

  /** The buffer holds the latest month's prices, under that month's key. */
  lemma {:induction false} ScanBuffer(ps: seq<BitcoinPrice>, key: BitcoinPrice -> int)
    requires AllPositive(ps, key)
    ensures ps == [] ==> Scan(ps, key) == Buffer([], 0, [])
    ensures ps != [] ==>
      Scan(ps, key).lastYearMonth == key(ps[|ps| - 1]) && Scan(ps, key).entries != [] &&
      forall e :: e in Scan(ps, key).entries ==> key(e) == Scan(ps, key).lastYearMonth
  {
    if ps != [] {
      AllPositivePrefix(ps, |ps| - 1, key);
      ScanBuffer(ps[..|ps| - 1], key);
    }
  }

  lemma FlattenSnoc(files: seq<MonthFile>, f: MonthFile)
    ensures Flatten(files + [f]) == Flatten(files) + f.entries
  {
    assert (files + [f])[..|files|] == files;
  }

  /** A file of one month, after files of other months, keeps the files well formed. */
  lemma FilesSnoc(files: seq<MonthFile>, f: MonthFile, key: BitcoinPrice -> int)
    requires Uniform(files, key) && Distinct(files)
    requires f.entries != [] && forall e :: e in f.entries ==> key(e) == f.yearMonth
    requires files != [] ==> files[|files| - 1].yearMonth != f.yearMonth
    ensures Uniform(files + [f], key) && Distinct(files + [f])
  {
    var g := files + [f];
    forall k | 0 <= k < |g|
      ensures g[k].entries != [] && forall e :: e in g[k].entries ==> key(e) == g[k].yearMonth
    {
      if k < |files| { assert g[k] == files[k]; }
    }
  }

  /** The files written so far and the buffer, one after the other, are the prices seen. */
  lemma {:induction false} ScanFlatten(ps: seq<BitcoinPrice>, key: BitcoinPrice -> int)
    requires AllPositive(ps, key)
    ensures Flatten(Scan(ps, key).files) + Scan(ps, key).entries == ps
  {
    if ps != [] {
      var n := |ps| - 1;
      AllPositivePrefix(ps, n, key);
      ScanFlatten(ps[..n], key);
      ScanStarted(ps[..n], key);
      StepFlatten(Scan(ps[..n], key), ps[n], key);
      assert ps == ps[..n] + [ps[n]];
    }
  }

  /** Once a price is seen the buffer has a positive key. */
  lemma ScanStarted(ps: seq<BitcoinPrice>, key: BitcoinPrice -> int)
    requires AllPositive(ps, key)
    ensures Scan(ps, key).lastYearMonth > 0 || Scan(ps, key).entries == []
  {
  }

  /** A step loses the buffered prices only when their key is not positive. */
  lemma StepFlatten(b: Buffer, e: BitcoinPrice, key: BitcoinPrice -> int)
    requires b.lastYearMonth > 0 || b.entries == []
    ensures Flatten(Step(b, e, key).files) + Step(b, e, key).entries == Flatten(b.files) + b.entries + [e]
  {
    if b.lastYearMonth != key(e) && b.lastYearMonth > 0 {
      FlattenSnoc(b.files, MonthFile(b.lastYearMonth, b.entries));
    }
  }

  /** Every file written is non-empty and of one month, and its neighbours are of other months. */
  lemma {:induction false} ScanFiles(ps: seq<BitcoinPrice>, key: BitcoinPrice -> int)
    requires AllPositive(ps, key)
    ensures Uniform(Scan(ps, key).files, key) && Distinct(Scan(ps, key).files)
    ensures Scan(ps, key).files != [] ==>
      Scan(ps, key).files[|Scan(ps, key).files| - 1].yearMonth != Scan(ps, key).lastYearMonth
  {
    if ps != [] {
      var n := |ps| - 1;
      var q := ps[..n];
      var e := ps[n];
      assert AllPositive(q, key) by { AllPositivePrefix(ps, n, key); }
      ScanFiles(q, key);
      var b := Scan(q, key);
      assert Scan(ps, key) == Step(b, e, key);
      if b.lastYearMonth != key(e) && b.lastYearMonth > 0 {
        assert q != [] by { ScanBuffer(q, key); }
        assert b.entries != [] && forall x :: x in b.entries ==> key(x) == b.lastYearMonth by {
          ScanBuffer(q, key);
        }
        FilesSnoc(b.files, MonthFile(b.lastYearMonth, b.entries), key);
      }
    }
  }

  /**
   * Grouping by a positive key loses no price and invents none: the groups,
   * read one after the other, give the prices back in order; each group is
   * non-empty and of one key; neighbouring groups have different keys.  For
   * `write_out` the key is the month, positive for every date from year 1 on.
   */
  lemma GroupsPartition(ps: seq<BitcoinPrice>, key: BitcoinPrice -> int)
    requires AllPositive(ps, key)
    ensures Flatten(Groups(ps, key)) == ps
    ensures Uniform(Groups(ps, key), key) && Distinct(Groups(ps, key))
  {
    ScanBuffer(ps, key);
    ScanFlatten(ps, key);
    ScanFiles(ps, key);
    var b := Scan(ps, key);
    if b.lastYearMonth > 0 {
      FlattenSnoc(b.files, MonthFile(b.lastYearMonth, b.entries));
      FilesSnoc(b.files, MonthFile(b.lastYearMonth, b.entries), key);
    }
  }

  // ---- reading the cache -----------------------------------------------------------

  /** The last component of a path: the first piece of `rsplit('/')`. */
  function LastComponent(path: string): (r: string)
    ensures '/' !in r
  {
    var parts := Split(path, '/');
    SplitJoin(path, '/');
    parts[|parts| - 1]
  }

  /** `read_json_from` reads a file iff its name is at least `minDate`, as strings. */
  predicate IsRead(path: string, minDate: string)
  {
    LexLessEq(minDate, LastComponent(path))
  }

  /** The prices of the files read, in the order the directory lists them. */
  function ReadPrices(dir: seq<(string, seq<BitcoinPrice>)>, minDate: string): seq<BitcoinPrice>
  {
    if dir == [] then []
    else
      var n := |dir| - 1;
      ReadPrices(dir[..n], minDate) + (if IsRead(dir[n].0, minDate) then dir[n].1 else [])
  }

  /**
   * `read_json_from`: every price of every file read is recorded, file by
   * file.  `dir` stands for the directory listing, each path with the prices
   * its JSON holds.
   */
  method ReadJsonFrom(dir: seq<(string, seq<BitcoinPrice>)>, minDate: string) returns (h: Historic)
    ensures fresh(h) && h.Valid()
    ensures h.data == InsertAll([], ReadPrices(dir, minDate))
  {
    h := new Historic();
    var i := 0;
    while i < |dir|
      invariant i <= |dir|
      invariant fresh(h) && h.Valid()
      invariant h.data == InsertAll([], ReadPrices(dir[..i], minDate))
    {
      ghost var before := ReadPrices(dir[..i], minDate);
      ReadPricesSnoc(dir, i, minDate);
      var path := dir[i].0;
      var prices := dir[i].1;
      if IsRead(path, minDate) {
        InsertAllAppend([], before, prices);
        h.RecordAll(prices);
      } else {
        assert before + [] == before;
      }
      i := i + 1;
    }
    assert dir[..i] == dir;
  }

  /** Inserting two runs one after the other is inserting their concatenation. */
  lemma {:induction false} InsertAllAppend(s: seq<BitcoinPrice>, xs: seq<BitcoinPrice>, ys: seq<BitcoinPrice>)
    ensures InsertAll(s, xs + ys) == InsertAll(InsertAll(s, xs), ys)
  {
    if ys == [] {
      assert xs + ys == xs;
    } else {
      var n := |ys| - 1;
      InsertAllAppend(s, xs, ys[..n]);
      assert (xs + ys)[..|xs + ys| - 1] == xs + ys[..n];
    }
  }

  lemma ReadPricesSnoc(dir: seq<(string, seq<BitcoinPrice>)>, i: nat, minDate: string)
    requires i < |dir|
    ensures ReadPrices(dir[..i + 1], minDate)
         == ReadPrices(dir[..i], minDate) + (if IsRead(dir[i].0, minDate) then dir[i].1 else [])
  {
    assert dir[..i + 1][..i] == dir[..i];
  }

  /** With no lower bound (`read_json`) every file is read. */
  lemma {:induction false} ReadJsonReadsAll(dir: seq<(string, seq<BitcoinPrice>)>)
    ensures ReadPrices(dir, "") == FlattenDir(dir)
  {
    if dir != [] {
      ReadJsonReadsAll(dir[..|dir| - 1]);
    }
  }

  function FlattenDir(dir: seq<(string, seq<BitcoinPrice>)>): seq<BitcoinPrice>
  {
    if dir == [] then [] else FlattenDir(dir[..|dir| - 1]) + dir[|dir| - 1].1
  }
}
