// A multimap indexed by time: entries are kept in order of `(time, insertion
// index)`, so equal times come out in the order they went in.
module TimeMaps {
  import opened Wrappers
  import opened UtcTime

  /** One stored value with its key `(time, idx)`. */
  datatype Entry<V> = Entry(time: Time, idx: nat, value: V)

  /** The order of keys: by time, then by insertion index. */
  predicate KeyLess<V>(a: Entry<V>, b: Entry<V>)
  {
    a.time < b.time || (a.time == b.time && a.idx < b.idx)
  }

  /** Keys strictly increase along the sequence: the order of the underlying `BTreeMap`. */
  ghost predicate Sorted<V>(s: seq<Entry<V>>)
  {
    forall i, j :: 0 <= i < j < |s| ==> KeyLess(s[i], s[j])
  }

  /** The number of leading entries whose time is at most `t`. */
  function Position<V>(s: seq<Entry<V>>, t: Time): (k: nat)
    ensures k <= |s|
  {
    if s == [] || s[0].time > t then 0 else 1 + Position(s[1..], t)
  }

  /** `BTreeMap::insert` of a key larger than every key of an equal or earlier time. */
  function Inserted<V>(s: seq<Entry<V>>, e: Entry<V>): seq<Entry<V>>
  {
    var k := Position(s, e.time);
    s[..k] + [e] + s[k..]
  }

  lemma {:induction false} PositionSplits<V>(s: seq<Entry<V>>, t: Time)
    requires Sorted(s)
    ensures forall i :: 0 <= i < Position(s, t) ==> s[i].time <= t
    ensures forall i :: Position(s, t) <= i < |s| ==> s[i].time > t
  {
    if s != [] && s[0].time <= t {
      assert Sorted(s[1..]) by {
        forall i, j | 0 <= i < j < |s[1..]| ensures KeyLess(s[1..][i], s[1..][j]) {
          assert s[1..][i] == s[i + 1] && s[1..][j] == s[j + 1];
        }
      }
      PositionSplits(s[1..], t);
      forall i | 1 <= i < Position(s, t) ensures s[i].time <= t {
        assert s[i] == s[1..][i - 1];
      }
      forall i | Position(s, t) <= i < |s| ensures s[i].time > t {
        assert s[i] == s[1..][i - 1];
      }
    } else if s != [] {
      forall i | 0 < i < |s| ensures s[i].time > t {
        assert KeyLess(s[0], s[i]);
      }
    }
  }

  /**
   * Inserting an entry whose index is larger than any stored keeps the keys
   * ordered: it goes after every entry of an equal or earlier time and before
   * every later one, and nothing is replaced.
   */
  lemma InsertedSorted<V>(s: seq<Entry<V>>, e: Entry<V>)
    requires Sorted(s) && forall i :: 0 <= i < |s| ==> s[i].idx < e.idx
    ensures Sorted(Inserted(s, e)) && |Inserted(s, e)| == |s| + 1
    ensures var k := Position(s, e.time);
      Inserted(s, e)[k] == e &&
      (forall i :: 0 <= i < k ==> s[i].time <= e.time) &&
      (forall i :: k <= i < |s| ==> s[i].time > e.time)
  {
    PositionSplits(s, e.time);
    var k := Position(s, e.time);
    var r := Inserted(s, e);
    forall i, j | 0 <= i < j < |r| ensures KeyLess(r[i], r[j]) {
      if j < k {
        assert r[i] == s[i] && r[j] == s[j];
      } else if j == k {
        assert r[i] == s[i];
      } else if i < k {
        assert r[i] == s[i] && r[j] == s[j - 1];
      } else if i == k {
        assert r[j] == s[j - 1];
      } else {
        assert r[i] == s[i - 1] && r[j] == s[j - 1];
      }
    }
  }

  /** The first entry of a sorted sequence has the smallest key. */
  lemma FirstIsMinimum<V>(s: seq<Entry<V>>)
    requires Sorted(s) && s != []
    ensures forall i :: 0 < i < |s| ==> KeyLess(s[0], s[i])
  {
  }

  /** The index of the last entry with a time before `asOf`. */
  function LastBefore<V>(s: seq<Entry<V>>, asOf: Time): (r: Option<nat>)
    ensures r.None? <==> forall i :: 0 <= i < |s| ==> s[i].time >= asOf
    ensures r.Some? ==> r.value < |s| && s[r.value].time < asOf
    ensures r.Some? ==> forall j :: r.value < j < |s| ==> s[j].time >= asOf
  {
    if s == [] then None
    else if s[|s| - 1].time < asOf then Some(|s| - 1)
    else
      var r := LastBefore(s[..|s| - 1], asOf);
      assert forall i :: 0 <= i < |s| - 1 ==> s[..|s| - 1][i] == s[i];
      r
  }

  /**
   * In a sorted map the entry found is the greatest key below `(asOf, 0)`:
   * the latest time before `asOf` and, among entries of that time, the last
   * inserted.  Entries at exactly `asOf` are not found.
   */
  lemma LastBeforeIsGreatest<V>(s: seq<Entry<V>>, asOf: Time)
    requires Sorted(s) && LastBefore(s, asOf).Some?
    ensures forall j :: 0 <= j < |s| && s[j].time < asOf && j != LastBefore(s, asOf).value ==>
      KeyLess(s[j], s[LastBefore(s, asOf).value])
  {
  }

  /** Every entry's insertion index is below `n`. */
  ghost predicate IdxBelow<V>(s: seq<Entry<V>>, n: nat)
  {
    forall i :: 0 <= i < |s| ==> s[i].idx < n
  }

  /** Taking one entry out keeps the rest sorted and under the index counter. */
  lemma RemovedValid<V>(s: seq<Entry<V>>, k: nat, nextIdx: nat)
    requires Sorted(s) && k < |s| && IdxBelow(s, nextIdx)
    ensures Sorted(s[..k] + s[k + 1..]) && IdxBelow(s[..k] + s[k + 1..], nextIdx)
  {
    var r := s[..k] + s[k + 1..];
    forall a, b | 0 <= a < b < |r| ensures KeyLess(r[a], r[b]) {
      var a', b' := if a < k then a else a + 1, if b < k then b else b + 1;
      assert r[a] == s[a'] && r[b] == s[b'];
    }
    forall a | 0 <= a < |r| ensures r[a].idx < nextIdx {
      assert r[a] == s[if a < k then a else a + 1];
    }
  }

  /**
   * The index `pop_max` picks: scanning in key order, a new value replaces the
   * current maximum only when strictly greater.
   */
  function FirstMax<V>(s: seq<Entry<V>>, f: V -> int): (k: nat)
    requires s != []
    ensures k < |s|
  {
    if |s| == 1 then 0
    else
      var k := FirstMax(s[..|s| - 1], f);
      if f(s[|s| - 1].value) > f(s[k].value) then |s| - 1 else k
  }

  /** The entry picked has a maximal value, and every earlier entry a strictly smaller one. */
  lemma {:induction false} FirstMaxIsFirstMaximum<V>(s: seq<Entry<V>>, f: V -> int)
    requires s != []
    ensures forall j :: 0 <= j < |s| ==> f(s[j].value) <= f(s[FirstMax(s, f)].value)
    ensures forall j :: 0 <= j < FirstMax(s, f) ==> f(s[j].value) < f(s[FirstMax(s, f)].value)
  {
    if |s| > 1 {
      var q := s[..|s| - 1];
      FirstMaxIsFirstMaximum(q, f);
      assert forall j :: 0 <= j < |q| ==> q[j] == s[j];
    }
  }

  function Pairs<V>(s: seq<Entry<V>>): (r: seq<(Time, V)>)
    ensures |r| == |s| && forall i :: 0 <= i < |s| ==> r[i] == (s[i].time, s[i].value)
  {
    if s == [] then [] else [(s[0].time, s[0].value)] + Pairs(s[1..])
  }

  /** A `TimeMap`: the entries in key order and the next insertion index. */
  class TimeMap<V> {
    var entries: seq<Entry<V>>
    var nextIdx: nat

    ghost predicate Valid()
      reads this
    {
      Sorted(entries) && forall i :: 0 <= i < |entries| ==> entries[i].idx < nextIdx
    }

    /** `new`: no entries, the index counter at 0. */
    constructor ()
      ensures Valid() && entries == [] && nextIdx == 0
    {
      entries := [];
      nextIdx := 0;
    }

    /** `len`: the number of entries. */
    function Len(): nat
      reads this
    {
      |entries|
    }

    /** `is_empty`. */
    function IsEmpty(): (r: bool)
      reads this
      ensures r <==> Len() == 0
    {
      entries == []
    }

    /**
     * `insert`: the value is stored under `(time, nextIdx)`, a key not yet
     * present, so nothing is replaced; the counter moves on by one.
     */
    method Insert(time: Time, item: V)
      requires Valid()
      modifies this
      ensures Valid()
      ensures entries == Inserted(old(entries), Entry(time, old(nextIdx), item))
      ensures |entries| == |old(entries)| + 1 && nextIdx == old(nextIdx) + 1
    {
      var idx := nextIdx;
      InsertedSorted(entries, Entry(time, idx, item));
      entries := Inserted(entries, Entry(time, idx, item));
      nextIdx := nextIdx + 1;
    }

    /** `pop_first`: the entry with the smallest key is removed and returned. */
    method PopFirst() returns (r: Option<(Time, V)>)
      requires Valid()
      modifies this
      ensures Valid() && nextIdx == old(nextIdx)
      ensures old(entries) == [] ==> r == None && entries == old(entries)
      ensures old(entries) != [] ==>
        r == Some((old(entries)[0].time, old(entries)[0].value)) && entries == old(entries)[1..]
    {
      if entries == [] {
        return None;
      }
      var first := entries[0];
      entries := entries[1..];
      return Some((first.time, first.value));
    }

    /**
     * `pop_max`: the first entry, in key order, whose `maxfn` value is
     * maximal is removed and returned.
     */
    method PopMax(maxfn: V -> int) returns (r: Option<(Time, V)>)
      requires Valid()
      modifies this
      ensures Valid() && nextIdx == old(nextIdx)
      ensures old(entries) == [] ==> r == None && entries == old(entries)
      ensures old(entries) != [] ==>
        var k := FirstMax(old(entries), maxfn);
        r == Some((old(entries)[k].time, old(entries)[k].value)) &&
        entries == old(entries)[..k] + old(entries)[k + 1..]
    {
      var s := entries;
      var found := false;
      var key := 0;
      var max := 0;
      var i := 0;
      while i < |s|
        invariant i <= |s|
        invariant found <==> i > 0
        invariant found ==> key < i && key == FirstMax(s[..i], maxfn) && max == maxfn(s[key].value)
      {
        assert s[..i + 1][..i] == s[..i];
        var newMax := maxfn(s[i].value);
        if found {
          if newMax > max {
            key := i;
            max := newMax;
          }
        } else {
          found := true;
          key := i;
          max := newMax;
        }
        i := i + 1;
      }
      if !found {
        return None;
      }
      assert s[..i] == s;
      RemovedValid(s, key, nextIdx);
      entries := s[..key] + s[key + 1..];
      return Some((s[key].time, s[key].value));
    }

    /** `most_recent`: the last-inserted entry of the latest time strictly before `asOf`. */
    function MostRecent(asOf: Time): (r: Option<(Time, V)>)
      reads this
      ensures r.None? <==> forall i :: 0 <= i < |entries| ==> entries[i].time >= asOf
      ensures r.Some? ==> r.value.0 < asOf
    {
      match LastBefore(entries, asOf)
      case None => None
      case Some(i) => Some((entries[i].time, entries[i].value))
    }

    /** `iter`: the `(time, value)` pairs in key order. */
    function Iter(): (r: seq<(Time, V)>)
      reads this
      ensures |r| == |entries|
      ensures forall i :: 0 <= i < |r| ==> r[i] == (entries[i].time, entries[i].value)
    {
      Pairs(entries)
    }

    /** `values`: the values alone, in the order `iter` gives them. */
    function Values(): (r: seq<V>)
      reads this
      ensures |r| == |Iter()| && forall i :: 0 <= i < |r| ==> r[i] == Iter()[i].1
    {
      seq(|entries|, i requires 0 <= i < |entries| reads this => entries[i].value)
    }
  }

  /**
   * Iteration is by time, and entries of equal time come in insertion order
   * (the order of their indices).
   */
  lemma IterOrder<V>(m: TimeMap<V>, i: nat, j: nat)
    requires m.Valid() && i < j < |m.entries|
    ensures m.Iter()[i].0 <= m.Iter()[j].0
    ensures m.Iter()[i].0 == m.Iter()[j].0 ==> m.entries[i].idx < m.entries[j].idx
  {
    assert KeyLess(m.entries[i], m.entries[j]);
  }
}
