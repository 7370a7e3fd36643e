// ledgerx/history/lot.rs: lot ids drawn from a process-wide counter or taken
// from a deposit's outpoint, and the tax lot of a deposit.
module Lots {
  import opened Strings
  import opened Wrappers
  import opened UtcTime
  import opened Prices
  import Assets
  import Quantities

  const BtcPrefix := "lx-btc-"
  const OptPrefix := "lx-opt-"

  /** A generated id: the prefix, then the counter value padded to four digits. */
  function GeneratedId(prefix: string, idx: nat): string
  {
    prefix + ZeroPad(idx, 4)
  }

  /** `LOT_INDEX`: the counter behind the generated lot ids; it starts at 1. */
  class LotIndex {
    var next: nat

    constructor ()
      ensures next == 1
    {
      next := 1;
    }

    /** `Id::next_btc`, and `From<UnknownBtcId>`, which calls it. */
    method NextBtc() returns (id: string)
      modifies this
      ensures id == GeneratedId(BtcPrefix, old(next)) && next == old(next) + 1
    {
      id := GeneratedId(BtcPrefix, next);
      next := next + 1;
    }

    /** `Id::next_opt`, and `From<UnknownOptId>`, which calls it: the same counter as for bitcoin. */
    method NextOpt() returns (id: string)
      modifies this
      ensures id == GeneratedId(OptPrefix, old(next)) && next == old(next) + 1
    {
      id := GeneratedId(OptPrefix, next);
      next := next + 1;
    }
  }

  /**
   * Generated ids are equal only when drawn with the same prefix at the same
   * counter value; since every draw moves the counter on, no two draws give
   * the same id.
   */
  lemma GeneratedIdsDistinct(p: string, q: string, a: nat, b: nat)
    requires p in {BtcPrefix, OptPrefix} && q in {BtcPrefix, OptPrefix}
    requires GeneratedId(p, a) == GeneratedId(q, b)
    ensures a == b && p == q
  {
    var x, y := GeneratedId(p, a), GeneratedId(q, b);
    assert x[..7] == p && y[..7] == q;
    assert x[7..] == ZeroPad(a, 4) && y[7..] == ZeroPad(b, 4);
    ZeroPadInjective(a, b, 4);
  }

  predicate IsHexDigit(c: char) { '0' <= c <= '9' || 'a' <= c <= 'f' }

  /**
   * `Id::from_outpoint`: `{:.8}-{:02}`, the first eight characters of the
   * txid's hex form, a dash, and the output index padded to two digits.
   */
  function FromOutpoint(txidHex: string, vout: nat): (id: string)
    ensures |id| >= 1
  {
    (if |txidHex| <= 8 then txidHex else txidHex[..8]) + "-" + ZeroPad(vout, 2)
  }

  /**
   * An id taken from an outpoint starts with a hex digit or the dash, never
   * with the `l` of a generated id, so the two kinds never collide.
   */
  lemma OutpointIdsNotGenerated(txidHex: string, vout: nat, p: string, idx: nat)
    requires forall i :: 0 <= i < |txidHex| ==> IsHexDigit(txidHex[i])
    requires p in {BtcPrefix, OptPrefix}
    ensures FromOutpoint(txidHex, vout) != GeneratedId(p, idx)
  {
    var id := FromOutpoint(txidHex, vout);
    assert GeneratedId(p, idx)[0] == 'l';
    if |txidHex| > 0 {
      assert id[0] == txidHex[0];
    } else {
      assert id[0] == '-';
    }
  }

  /** Outpoint ids determine the output index, for txids of the same prefix. */
  lemma OutpointIdVout(txidHex: string, a: nat, b: nat)
    requires FromOutpoint(txidHex, a) == FromOutpoint(txidHex, b)
    ensures a == b
  {
    var h := if |txidHex| <= 8 then txidHex else txidHex[..8];
    assert FromOutpoint(txidHex, a)[|h| + 1..] == ZeroPad(a, 2);
    assert FromOutpoint(txidHex, b)[|h| + 1..] == ZeroPad(b, 2);
    ZeroPadInjective(a, b, 2);
  }

  /** The `Display` texts of the two "no lot id" markers. */
  const UnknownOptText := "<lx-option>"
  const UnknownBtcText := "<lx-btc>"

  /** A tax lot; the fields are its accessors. */
  datatype Lot = Lot(
    id: string,
    asset: Assets.TaxAsset,
    quantity: Quantities.Quantity,
    price: Price,
    date: Time,
    sortDate: Time)

  /** A hundred years of 365 days: how much later than its date a deposit is sorted. */
  const DepositBump: int := DaysSpan(365 * 100)

  /**
   * `Lot::from_deposit`: a bitcoin lot with the outpoint's id, the amount in
   * sats, the given price and date, sorted a hundred years late so that the
   * queue uses it after every other lot.  An amount beyond the signed range
   * panics in the conversion to a quantity.
   */
  function FromDeposit(txidHex: string, vout: nat, price: Price, sat: nat, date: Time): (r: Checked<Lot>)
    ensures r.Done? <==> sat <= I64Max
    ensures r.Done? ==>
      r.value.id == FromOutpoint(txidHex, vout) && r.value.asset == Assets.TaxAsset.Bitcoin &&
      r.value.quantity == Quantities.Bitcoin(sat) && r.value.price == price && r.value.date == date &&
      r.value.sortDate == date + DepositBump
  {
    match Quantities.FromAmount(sat)
    case Panic(why) => Panic(why)
    case Done(q) => Done(Lot(FromOutpoint(txidHex, vout), Assets.TaxAsset.Bitcoin, q, price, date, date + DepositBump))
  }
}
