// transaction.rs: the database of known bitcoin transactions, by txid.
module Transactions {
  import opened Wrappers
  import opened UtcTime

  /** A transaction output: its value in sats and its locking script. */
  datatype TxOut = TxOut(value: nat, script: seq<int>)

  /** A transaction, as far as the lookups read one: its outputs. */
  datatype Transaction = Transaction(output: seq<TxOut>)

  /** Output `n` pays `amount` sats to `script`. */
  predicate Pays(tx: Transaction, n: nat, script: seq<int>, amount: nat)
  {
    n < |tx.output| && tx.output[n].value == amount && tx.output[n].script == script
  }

  /** The index of the first output of `tx` from `n` on that pays `amount` to `script`. */
  function FirstPaying(tx: Transaction, n: nat, script: seq<int>, amount: nat): (r: Option<nat>)
    ensures r.Some? ==> (n <= r.value && Pays(tx, r.value, script, amount) &&
      forall k: nat :: n <= k < r.value ==> !Pays(tx, k, script, amount))
    ensures r.None? ==> forall k: nat :: n <= k ==> !Pays(tx, k, script, amount)
    decreases |tx.output| - n
  {
    if n >= |tx.output| then None
    else if Pays(tx, n, script, amount) then Some(n)
    else FirstPaying(tx, n + 1, script, amount)
  }

  /** The first transaction in `order` with an output paying `amount` to `script`, and that output. */
  function ScanFor(db: map<string, (Transaction, int)>, order: seq<string>, script: seq<int>, amount: nat)
    : (r: Option<(Transaction, nat)>)
    requires forall t :: t in order ==> t in db
    ensures r.Some? ==> ((exists t :: t in order && db[t].0 == r.value.0) &&
      Pays(r.value.0, r.value.1, script, amount) &&
      forall k: nat :: k < r.value.1 ==> !Pays(r.value.0, k, script, amount))
    ensures r.None? ==> forall t, k: nat :: t in order ==> !Pays(db[t].0, k, script, amount)
    decreases |order|
  {
    if order == [] then None
    else
      match FirstPaying(db[order[0]].0, 0, script, amount)
      case Some(n) => Some((db[order[0]].0, n))
      case None =>
        assert forall t :: t in order ==> t == order[0] || t in order[1..];
        ScanFor(db, order[1..], script, amount)
  }

  /** `Database`. */
  class Database {
    var txs: map<string, (Transaction, int)>

    /** `Database::new`. */
    constructor ()
      ensures txs == map[]
    {
      txs := map[];
    }

    /**
     * `insert_tx`: the transaction and its timestamp are stored under its
     * txid, replacing any earlier entry, whose timestamp is returned.
     * `txid` stands for `Transaction::txid`, which is not part of this model.
     */
    method InsertTx(tx: Transaction, timestamp: int, txid: Transaction -> string) returns (prev: Option<int>)
      modifies this
      ensures txs == old(txs)[txid(tx) := (tx, timestamp)]
      ensures prev.Some? <==> txid(tx) in old(txs)
      ensures prev.Some? ==> prev.value == old(txs)[txid(tx)].1
    {
      var id := txid(tx);
      prev := if id in txs then Some(txs[id].1) else None;
      txs := txs[id := (tx, timestamp)];
    }

    /**
     * `find_tx_for_deposit`: a stored transaction with an output of exactly
     * `amount` sats to the address's script, and the first such output of
     * it; `None` exactly when no stored transaction has one.  `order` is the
     * order in which the hash map yields its transactions, any listing of
     * its keys; `script` is the address's `script_pubkey`.
     */
    method FindTxForDeposit(order: seq<string>, script: seq<int>, amount: nat) returns (r: Option<(Transaction, nat)>)
      requires forall t :: t in order <==> t in txs
      ensures r == ScanFor(txs, order, script, amount)
      ensures r.Some? ==> ((exists t :: t in txs && txs[t].0 == r.value.0) &&
        Pays(r.value.0, r.value.1, script, amount) &&
        forall k: nat :: k < r.value.1 ==> !Pays(r.value.0, k, script, amount))
      ensures r.None? <==> forall t, k: nat :: t in txs ==> !Pays(txs[t].0, k, script, amount)
    {
      var i := 0;
      while i < |order|
        invariant i <= |order|
        invariant ScanFor(txs, order, script, amount) == ScanFor(txs, order[i..], script, amount)
      {
        var tx := txs[order[i]].0;
        assert order[i..][0] == order[i] && order[i..][1..] == order[i + 1..];
        var n := 0;
        while n < |tx.output|
          invariant n <= |tx.output|
          invariant FirstPaying(tx, 0, script, amount) == FirstPaying(tx, n, script, amount)
        {
          if tx.output[n].value == amount && tx.output[n].script == script {
            return Some((tx, n));
          }
          n := n + 1;
        }
        i := i + 1;
      }
      r := None;
    }

    /**
     * `find_txout`: output `vout` of the stored transaction and its
     * timestamp as a time; `None` for an unknown txid or an index past the
     * last output.
     */
    function FindTxout(txid: string, vout: nat): (r: Option<(TxOut, Time)>)
      reads this
      ensures r.Some? <==> txid in txs && vout < |txs[txid].0.output|
      ensures r.Some? ==> (r.value.0 == txs[txid].0.output[vout] &&
        UnixSeconds(r.value.1) == txs[txid].1)
    {
      if txid in txs && |txs[txid].0.output| > vout then
        Some((txs[txid].0.output[vout], FromUnixSeconds(txs[txid].1)))
      else None
    }
  }
}
