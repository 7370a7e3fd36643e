// ledgerx/history/mod.rs: the account history fetched from LedgerX, as a
// map from time to event, filled by one import per kind of record.
module LxHistory {
  import opened Wrappers
  import opened Decimals
  import opened UtcTime
  import opened Assets
  import opened Contracts

  // What every import shares: each record becomes at most one entry, the
  // entries go into the map one by one, and a later entry at the same time
  // replaces an earlier one.

  /** What one record does: add an entry, be skipped, or stop the import. */
  datatype Outcome<E> = Insert(time: Time, event: E) | Skip | Stop(why: string)

  /**
   * A loop over the records: the entries of the records before the first
   * stop, in order, and the reason of that stop if there is one.
   */
  function Run<T, E>(xs: seq<T>, f: T -> Outcome<E>): (r: (seq<(Time, E)>, Option<string>))
    decreases |xs|
  {
    if xs == [] then ([], None)
    else
      var (es, stop) := Run(xs[..|xs| - 1], f);
      if stop.Some? then (es, stop)
      else
        match f(xs[|xs| - 1])
        case Insert(t, e) => (es + [(t, e)], None)
        case Skip => (es, None)
        case Stop(why) => (es, Some(why))
  }

  /** `BTreeMap::insert` of each entry in turn. */
  function Absorb<E>(m: map<Time, E>, es: seq<(Time, E)>): map<Time, E>
    decreases |es|
  {
    if es == [] then m else Absorb(m, es[..|es| - 1])[es[|es| - 1].0 := es[|es| - 1].1]
  }

  /**
   * An import stops exactly at its first stopping record, with that
   * record's reason; with no stopping record it runs to the end.
   */
  lemma {:induction false} RunStops<T, E>(xs: seq<T>, f: T -> Outcome<E>)
    ensures Run(xs, f).1.None? <==> forall i :: 0 <= i < |xs| ==> !f(xs[i]).Stop?
    ensures Run(xs, f).1.Some? ==>
      exists i :: 0 <= i < |xs| && f(xs[i]) == Stop(Run(xs, f).1.value) &&
        forall j :: 0 <= j < i ==> !f(xs[j]).Stop?
    decreases |xs|
  {
    if xs != [] {
      var p := xs[..|xs| - 1];
      RunStops(p, f);
      assert forall i :: 0 <= i < |p| ==> p[i] == xs[i];
      var (es, stop) := Run(p, f);
      if stop.Some? {
        var i :| 0 <= i < |p| && f(p[i]) == Stop(stop.value) && forall j :: 0 <= j < i ==> !f(p[j]).Stop?;
        assert f(xs[i]) == Stop(Run(xs, f).1.value);
      }
    }
  }

  /** Every entry comes from a record whose outcome is to insert it. */
  lemma {:induction false} RunEntries<T, E>(xs: seq<T>, f: T -> Outcome<E>)
    ensures forall k :: 0 <= k < |Run(xs, f).0| ==>
      exists i :: 0 <= i < |xs| && f(xs[i]) == Insert(Run(xs, f).0[k].0, Run(xs, f).0[k].1)
    ensures |Run(xs, f).0| <= |xs|
    decreases |xs|
  {
    if xs != [] {
      var p := xs[..|xs| - 1];
      RunEntries(p, f);
      assert forall i :: 0 <= i < |p| ==> p[i] == xs[i];
      var (es, stop) := Run(p, f);
      var r := Run(xs, f).0;
      assert r == es || (stop.None? && f(xs[|xs| - 1]).Insert? &&
                         r == es + [(f(xs[|xs| - 1]).time, f(xs[|xs| - 1]).event)]);
      forall k | 0 <= k < |r|
        ensures exists i :: 0 <= i < |xs| && f(xs[i]) == Insert(r[k].0, r[k].1)
      {
        if k < |es| {
          assert r[k] == es[k];
          var i :| 0 <= i < |p| && f(p[i]) == Insert(es[k].0, es[k].1);
          assert f(xs[i]) == Insert(r[k].0, r[k].1);
        } else {
          assert f(xs[|xs| - 1]) == Insert(r[k].0, r[k].1);
        }
      }
      assert |r| <= |xs|;
    } else {
      assert Run(xs, f).0 == [];
    }
  }

  /**
   * After the inserts, the map holds the old times and every inserted time;
   * at an inserted time it holds the last entry for that time, elsewhere
   * the old event.
   */
  lemma {:induction false} AbsorbMeaning<E>(m: map<Time, E>, es: seq<(Time, E)>, t: Time)
    ensures t in Absorb(m, es) <==> t in m || exists k :: 0 <= k < |es| && es[k].0 == t
    ensures (forall k :: 0 <= k < |es| ==> es[k].0 != t) && t in m ==> Absorb(m, es)[t] == m[t]
    ensures forall k :: 0 <= k < |es| && es[k].0 == t && (forall j :: k < j < |es| ==> es[j].0 != t) ==>
      Absorb(m, es)[t] == es[k].1
    decreases |es|
  {
    if es != [] {
      var p := es[..|es| - 1];
      AbsorbMeaning(m, p, t);
      assert forall k :: 0 <= k < |p| ==> p[k] == es[k];
    }
  }

  lemma AbsorbSnoc<E>(m: map<Time, E>, es: seq<(Time, E)>, e: (Time, E))
    ensures Absorb(m, es + [e]) == Absorb(m, es)[e.0 := e.1]
  {
    assert (es + [e])[..|es|] == es;
  }

  lemma RunStep<T, E>(xs: seq<T>, i: nat, f: T -> Outcome<E>)
    requires i < |xs| && Run(xs[..i], f).1.None?
    ensures Run(xs[..i + 1], f) == match f(xs[i])
      case Insert(t, e) => (Run(xs[..i], f).0 + [(t, e)], None)
      case Skip => (Run(xs[..i], f).0, None)
      case Stop(why) => (Run(xs[..i], f).0, Some(why))
  {
    assert xs[..i + 1][..i] == xs[..i];
  }

  /** `Decimal::new(amount, 8)` for bitcoin (sats) and `Decimal::new(amount, 2)` for dollars (cents). */
  function Amount(amount: int, asset: DepositAsset, what: string): (r: Checked<Decimal>)
    ensures r.Panic? <==> asset == DepositAsset.Eth
    ensures asset == DepositAsset.Btc ==> r.Done? && Value(r.value) == amount as real / 100000000.0
    ensures asset == DepositAsset.Usd ==> r.Done? && Value(r.value) == amount as real / 100.0
  {
    match asset
    case Btc => Done(Decimal(amount, 8))
    case Usd => Done(Decimal(amount, 2))
    case Eth => Panic("not implemented: ethereum " + what)
  }

  /**
   * The assigned and expired sizes of a settled position: the net changes
   * of the number of contracts held, negative for a long position.
   */
  function ExpirySizes(size: int, assignedSize: int): (r: (int, int))
    ensures r.0 + r.1 == -size
    ensures size > 0 ==> r.0 == -assignedSize
    ensures size <= 0 ==> r.0 == assignedSize
  {
    if size > 0 then (-assignedSize, -size + assignedSize) else (assignedSize, -size - assignedSize)
  }

  // The records, as far as the imports read them.

  datatype Deposit = Deposit(amount: int, asset: DepositAsset, address: string, addressAsset: DepositAsset, createdAt: Time)
  datatype Withdrawal = Withdrawal(amount: int, asset: DepositAsset, createdAt: Time)
  datatype Side = Bid | Ask
  datatype Trade = Trade(contractId: string, executionTime: Time, filledPrice: int, filledSize: int, side: Side, fee: int)
  datatype Position = Position(size: int, assignedSize: int, contract: Contract, hasSettled: bool)

  datatype Event =
    | DepositEvent(amount: Decimal, address: string, asset: DepositAsset)
    | WithdrawalEvent(amount: Decimal, asset: DepositAsset)
    | TradeEvent(contract: Contract, price: Decimal, size: int, fee: Decimal)
    | ExpiryEvent(contract: Contract, assignedSize: int, expiredSize: int)

  const AssetMismatch := "lol lx fucked up here pretty good"
  const BadAddress := "bitcoin address from LX was not a valid BTC address"

  /**
   * One deposit: the record's two assets must agree, ether is not
   * implemented, and the address must parse.  `validAddress` stands for
   * `bitcoin::Address::from_str`, which is not part of this model.
   */
  function DepositOutcome(d: Deposit, validAddress: string -> bool): (r: Outcome<Event>)
    ensures r.Skip? == false
    ensures r.Stop? <==> d.asset != d.addressAsset || d.asset == DepositAsset.Eth || !validAddress(d.address)
    ensures r.Insert? ==> (r.time == d.createdAt && r.event.DepositEvent? &&
      r.event.address == d.address && r.event.asset == d.asset && Amount(d.amount, d.asset, "deposits") == Done(r.event.amount))
  {
    if d.asset != d.addressAsset then Stop(AssetMismatch)
    else
      match Amount(d.amount, d.asset, "deposits")
      case Panic(why) => Stop(why)
      case Done(amount) =>
        if !validAddress(d.address) then Stop(BadAddress)
        else Insert(d.createdAt, DepositEvent(amount, d.address, d.asset))
  }

  /** One withdrawal: ether is not implemented. */
  function WithdrawalOutcome(w: Withdrawal): (r: Outcome<Event>)
    ensures r.Skip? == false
    ensures r.Stop? <==> w.asset == DepositAsset.Eth
    ensures r.Insert? ==> (r.time == w.createdAt && r.event.WithdrawalEvent? &&
      r.event.asset == w.asset && Amount(w.amount, w.asset, "withdrawals") == Done(r.event.amount))
  {
    match Amount(w.amount, w.asset, "withdrawals")
    case Panic(why) => Stop(why)
    case Done(amount) => Insert(w.createdAt, WithdrawalEvent(amount, w.asset))
  }

  /**
   * One trade: its contract must be known; a bid adds and an ask takes
   * away the filled size; price and fee are in cents.
   */
  function TradeOutcome(t: Trade, contracts: map<string, Contract>): (r: Outcome<Event>)
    ensures r.Skip? == false
    ensures r.Stop? <==> t.contractId !in contracts
    ensures r.Insert? ==> (r.time == t.executionTime && r.event.TradeEvent? &&
      r.event.contract == contracts[t.contractId] &&
      r.event.size == (if t.side == Bid then t.filledSize else -t.filledSize) &&
      Value(r.event.price) == t.filledPrice as real / 100.0 && Value(r.event.fee) == t.fee as real / 100.0)
  {
    if t.contractId !in contracts then Stop("Unknown contract ID " + t.contractId)
    else
      Insert(t.executionTime, TradeEvent(contracts[t.contractId], Decimal(t.filledPrice, 2),
                                         if t.side == Bid then t.filledSize else -t.filledSize, Decimal(t.fee, 2)))
  }

  /**
   * One position: an unsettled one is skipped; a settled one becomes an
   * expiry at its contract's expiry time whose sizes net out the position.
   * `expiryOf` stands for `unique_expiry_date`, which is not part of this
   * model.
   */
  function PositionOutcome(p: Position, expiryOf: Contract -> Time): (r: Outcome<Event>)
    ensures r.Stop? == false
    ensures r.Skip? <==> !p.hasSettled
    ensures r.Insert? ==> (r.time == expiryOf(p.contract) && r.event.ExpiryEvent? &&
      r.event.contract == p.contract && r.event.assignedSize + r.event.expiredSize == -p.size &&
      (r.event.assignedSize, r.event.expiredSize) == ExpirySizes(p.size, p.assignedSize))
  {
    if !p.hasSettled then Skip
    else
      var (netAssigned, netExpired) := ExpirySizes(p.size, p.assignedSize);
      Insert(expiryOf(p.contract), ExpiryEvent(p.contract, netAssigned, netExpired))
  }

  /** `History`. */
  class History {
    var events: map<Time, Event>

    /** `History::new`. */
    constructor ()
      ensures events == map[]
    {
      events := map[];
    }

    /** `import_deposits`: a mismatched asset, ether or a bad address panics. */
    method ImportDeposits(deposits: seq<Deposit>, validAddress: string -> bool) returns (r: Checked<()>)
      modifies this
      ensures var (es, stop) := Run(deposits, d => DepositOutcome(d, validAddress));
        events == Absorb(old(events), es) && (r.Done? <==> stop.None?) && (r.Panic? ==> r.reason == stop.value)
    {
      ghost var f := d => DepositOutcome(d, validAddress);
      var i := 0;
      while i < |deposits|
        invariant i <= |deposits| && Run(deposits[..i], f).1.None?
        invariant events == Absorb(old(events), Run(deposits[..i], f).0)
      {
        RunStep(deposits, i, f);
        var dep := deposits[i];
        if dep.asset != dep.addressAsset {
          RunPrefixStopped(deposits, i + 1, f);
          return Panic(AssetMismatch);
        }
        var amount := Amount(dep.amount, dep.asset, "deposits");
        if amount.Panic? {
          RunPrefixStopped(deposits, i + 1, f);
          return Panic(amount.reason);
        }
        if !validAddress(dep.address) {
          RunPrefixStopped(deposits, i + 1, f);
          return Panic(BadAddress);
        }
        AbsorbSnoc(old(events), Run(deposits[..i], f).0, (dep.createdAt, DepositEvent(amount.value, dep.address, dep.asset)));
        events := events[dep.createdAt := DepositEvent(amount.value, dep.address, dep.asset)];
        i := i + 1;
      }
      assert deposits[..i] == deposits;
      r := Done(());
    }

    /** `import_withdrawals`: ether panics. */
    method ImportWithdrawals(withdrawals: seq<Withdrawal>) returns (r: Checked<()>)
      modifies this
      ensures var (es, stop) := Run(withdrawals, WithdrawalOutcome);
        events == Absorb(old(events), es) && (r.Done? <==> stop.None?) && (r.Panic? ==> r.reason == stop.value)
    {
      var i := 0;
      while i < |withdrawals|
        invariant i <= |withdrawals| && Run(withdrawals[..i], WithdrawalOutcome).1.None?
        invariant events == Absorb(old(events), Run(withdrawals[..i], WithdrawalOutcome).0)
      {
        RunStep(withdrawals, i, WithdrawalOutcome);
        var withd := withdrawals[i];
        var amount := Amount(withd.amount, withd.asset, "withdrawals");
        if amount.Panic? {
          RunPrefixStopped(withdrawals, i + 1, WithdrawalOutcome);
          return Panic(amount.reason);
        }
        AbsorbSnoc(old(events), Run(withdrawals[..i], WithdrawalOutcome).0, (withd.createdAt, WithdrawalEvent(amount.value, withd.asset)));
        events := events[withd.createdAt := WithdrawalEvent(amount.value, withd.asset)];
        i := i + 1;
      }
      assert withdrawals[..i] == withdrawals;
      r := Done(());
    }

    /**
     * `import_trades`: an unknown contract id returns an error, keeping the
     * trades inserted before it.
     */
    method ImportTrades(trades: seq<Trade>, contracts: map<string, Contract>) returns (r: Result<(), string>)
      modifies this
      ensures var (es, stop) := Run(trades, t => TradeOutcome(t, contracts));
        events == Absorb(old(events), es) && (r.Ok? <==> stop.None?) && (r.Err? ==> r.error == stop.value)
    {
      ghost var f := t => TradeOutcome(t, contracts);
      var i := 0;
      while i < |trades|
        invariant i <= |trades| && Run(trades[..i], f).1.None?
        invariant events == Absorb(old(events), Run(trades[..i], f).0)
      {
        RunStep(trades, i, f);
        var trade := trades[i];
        if trade.contractId !in contracts {
          RunPrefixStopped(trades, i + 1, f);
          return Err("Unknown contract ID " + trade.contractId);
        }
        var e := TradeEvent(contracts[trade.contractId], Decimal(trade.filledPrice, 2),
                            if trade.side == Bid then trade.filledSize else -trade.filledSize, Decimal(trade.fee, 2));
        AbsorbSnoc(old(events), Run(trades[..i], f).0, (trade.executionTime, e));
        events := events[trade.executionTime := e];
        i := i + 1;
      }
      assert trades[..i] == trades;
      r := Ok(());
    }

    /**
     * `import_positions`: unsettled positions are skipped, and the source's
     * check that the two sizes net out the position always holds.
     */
    method ImportPositions(positions: seq<Position>, expiryOf: Contract -> Time)
      modifies this
      ensures Run(positions, p => PositionOutcome(p, expiryOf)).1.None?
      ensures events == Absorb(old(events), Run(positions, p => PositionOutcome(p, expiryOf)).0)
    {
      ghost var f := p => PositionOutcome(p, expiryOf);
      var i := 0;
      while i < |positions|
        invariant i <= |positions| && Run(positions[..i], f).1.None?
        invariant events == Absorb(old(events), Run(positions[..i], f).0)
      {
        RunStep(positions, i, f);
        var pos := positions[i];
        if pos.hasSettled {
          var (netAssigned, netExpired) := if pos.size > 0 then (-pos.assignedSize, -pos.size + pos.assignedSize)
                                     else (pos.assignedSize, -pos.size - pos.assignedSize);
          assert netAssigned + netExpired == -pos.size;
          AbsorbSnoc(old(events), Run(positions[..i], f).0, (expiryOf(pos.contract), ExpiryEvent(pos.contract, netAssigned, netExpired)));
          events := events[expiryOf(pos.contract) := ExpiryEvent(pos.contract, netAssigned, netExpired)];
        }
        i := i + 1;
      }
      assert positions[..i] == positions;
    }
  }

  /** Once a prefix has stopped, the whole run stops with the same entries and reason. */
  lemma {:induction false} RunPrefixStopped<T, E>(xs: seq<T>, i: nat, f: T -> Outcome<E>)
    requires i <= |xs| && Run(xs[..i], f).1.Some?
    ensures Run(xs, f) == Run(xs[..i], f)
    decreases |xs| - i
  {
    if i < |xs| {
      assert xs[..i + 1][..i] == xs[..i];
      RunPrefixStopped(xs, i + 1, f);
    } else {
      assert xs[..i] == xs;
    }
  }
}
