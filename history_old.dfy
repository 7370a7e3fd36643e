// ledgerx/history.rs: the earlier version of the account history, whose
// deposits carry no address and whose trades carry no fee.
module LxHistoryOld {
  import opened Wrappers
  import opened Decimals
  import opened UtcTime
  import opened Assets
  import opened Contracts
  import H = LxHistory

  datatype Deposit = Deposit(amount: int, asset: DepositAsset, createdAt: Time)
  datatype Trade = Trade(contractId: string, executionTime: Time, filledPrice: int, filledSize: int, side: H.Side)

  datatype Event =
    | DepositEvent(amount: Decimal, asset: DepositAsset)
    | WithdrawalEvent(amount: Decimal, asset: DepositAsset)
    | TradeEvent(contract: Contract, price: Decimal, size: int)
    | ExpiryEvent(contract: Contract, assignedSize: int, expiredSize: int)

  /** One deposit: ether is not implemented; nothing else is checked. */
  function DepositOutcome(d: Deposit): (r: H.Outcome<Event>)
    ensures r.Skip? == false
    ensures r.Stop? <==> d.asset == DepositAsset.Eth
    ensures r.Insert? ==> (r.time == d.createdAt && r.event.DepositEvent? &&
      r.event.asset == d.asset && H.Amount(d.amount, d.asset, "deposits") == Done(r.event.amount))
  {
    match H.Amount(d.amount, d.asset, "deposits")
    case Panic(why) => H.Stop(why)
    case Done(amount) => H.Insert(d.createdAt, DepositEvent(amount, d.asset))
  }

  function WithdrawalOutcome(w: H.Withdrawal): (r: H.Outcome<Event>)
    ensures r.Skip? == false
    ensures r.Stop? <==> w.asset == DepositAsset.Eth
    ensures r.Insert? ==> (r.time == w.createdAt && r.event.WithdrawalEvent? &&
      r.event.asset == w.asset && H.Amount(w.amount, w.asset, "withdrawals") == Done(r.event.amount))
  {
    match H.Amount(w.amount, w.asset, "withdrawals")
    case Panic(why) => H.Stop(why)
    case Done(amount) => H.Insert(w.createdAt, WithdrawalEvent(amount, w.asset))
  }

  /** One trade: its contract must be known; a bid adds and an ask takes away the filled size. */
  function TradeOutcome(t: Trade, contracts: map<string, Contract>): (r: H.Outcome<Event>)
    ensures r.Skip? == false
    ensures r.Stop? <==> t.contractId !in contracts
    ensures r.Insert? ==> (r.time == t.executionTime && r.event.TradeEvent? &&
      r.event.contract == contracts[t.contractId] &&
      r.event.size == (if t.side == H.Bid then t.filledSize else -t.filledSize) &&
      Value(r.event.price) == t.filledPrice as real / 100.0)
  {
    if t.contractId !in contracts then H.Stop("Unknown contract ID " + t.contractId)
    else
      H.Insert(t.executionTime, TradeEvent(contracts[t.contractId], Decimal(t.filledPrice, 2),
                                           if t.side == H.Bid then t.filledSize else -t.filledSize))
  }

  function PositionOutcome(p: H.Position, expiryOf: Contract -> Time): (r: H.Outcome<Event>)
    ensures r.Stop? == false
    ensures r.Skip? <==> !p.hasSettled
    ensures r.Insert? ==> (r.time == expiryOf(p.contract) && r.event.ExpiryEvent? &&
      r.event.contract == p.contract && r.event.assignedSize + r.event.expiredSize == -p.size &&
      (r.event.assignedSize, r.event.expiredSize) == H.ExpirySizes(p.size, p.assignedSize))
  {
    if !p.hasSettled then H.Skip
    else
      var (netAssigned, netExpired) := H.ExpirySizes(p.size, p.assignedSize);
      H.Insert(expiryOf(p.contract), ExpiryEvent(p.contract, netAssigned, netExpired))
  }

  /** `History`, earlier version. */
  class History {
    var events: map<Time, Event>

    constructor ()
      ensures events == map[]
    {
      events := map[];
    }

    /** `import_deposits`: ether panics. */
    method ImportDeposits(deposits: seq<Deposit>) returns (r: Checked<()>)
      modifies this
      ensures var (es, stop) := H.Run(deposits, DepositOutcome);
        events == H.Absorb(old(events), es) && (r.Done? <==> stop.None?) && (r.Panic? ==> r.reason == stop.value)
    {
      var i := 0;
      while i < |deposits|
        invariant i <= |deposits| && H.Run(deposits[..i], DepositOutcome).1.None?
        invariant events == H.Absorb(old(events), H.Run(deposits[..i], DepositOutcome).0)
      {
        H.RunStep(deposits, i, DepositOutcome);
        var dep := deposits[i];
        var amount := H.Amount(dep.amount, dep.asset, "deposits");
        if amount.Panic? {
          H.RunPrefixStopped(deposits, i + 1, DepositOutcome);
          return Panic(amount.reason);
        }
        H.AbsorbSnoc(old(events), H.Run(deposits[..i], DepositOutcome).0, (dep.createdAt, DepositEvent(amount.value, dep.asset)));
        events := events[dep.createdAt := DepositEvent(amount.value, dep.asset)];
        i := i + 1;
      }
      assert deposits[..i] == deposits;
      r := Done(());
    }

    /** `import_withdrawals`: ether panics. */
    method ImportWithdrawals(withdrawals: seq<H.Withdrawal>) returns (r: Checked<()>)
      modifies this
      ensures var (es, stop) := H.Run(withdrawals, WithdrawalOutcome);
        events == H.Absorb(old(events), es) && (r.Done? <==> stop.None?) && (r.Panic? ==> r.reason == stop.value)
    {
      var i := 0;
      while i < |withdrawals|
        invariant i <= |withdrawals| && H.Run(withdrawals[..i], WithdrawalOutcome).1.None?
        invariant events == H.Absorb(old(events), H.Run(withdrawals[..i], WithdrawalOutcome).0)
      {
        H.RunStep(withdrawals, i, WithdrawalOutcome);
        var withd := withdrawals[i];
        var amount := H.Amount(withd.amount, withd.asset, "withdrawals");
        if amount.Panic? {
          H.RunPrefixStopped(withdrawals, i + 1, WithdrawalOutcome);
          return Panic(amount.reason);
        }
        H.AbsorbSnoc(old(events), H.Run(withdrawals[..i], WithdrawalOutcome).0, (withd.createdAt, WithdrawalEvent(amount.value, withd.asset)));
        events := events[withd.createdAt := WithdrawalEvent(amount.value, withd.asset)];
        i := i + 1;
      }
      assert withdrawals[..i] == withdrawals;
      r := Done(());
    }

    /** `import_trades`: an unknown contract id returns an error, keeping the trades inserted before it. */
    method ImportTrades(trades: seq<Trade>, contracts: map<string, Contract>) returns (r: Result<(), string>)
      modifies this
      ensures var (es, stop) := H.Run(trades, t => TradeOutcome(t, contracts));
        events == H.Absorb(old(events), es) && (r.Ok? <==> stop.None?) && (r.Err? ==> r.error == stop.value)
    {
      ghost var f := t => TradeOutcome(t, contracts);
      var i := 0;
      while i < |trades|
        invariant i <= |trades| && H.Run(trades[..i], f).1.None?
        invariant events == H.Absorb(old(events), H.Run(trades[..i], f).0)
      {
        H.RunStep(trades, i, f);
        var trade := trades[i];
        if trade.contractId !in contracts {
          H.RunPrefixStopped(trades, i + 1, f);
          return Err("Unknown contract ID " + trade.contractId);
        }
        var e := TradeEvent(contracts[trade.contractId], Decimal(trade.filledPrice, 2),
                            if trade.side == H.Bid then trade.filledSize else -trade.filledSize);
        H.AbsorbSnoc(old(events), H.Run(trades[..i], f).0, (trade.executionTime, e));
        events := events[trade.executionTime := e];
        i := i + 1;
      }
      assert trades[..i] == trades;
      r := Ok(());
    }

    /** `import_positions`: unsettled positions are skipped; the sizes always net out. */
    method ImportPositions(positions: seq<H.Position>, expiryOf: Contract -> Time)
      modifies this
      ensures H.Run(positions, p => PositionOutcome(p, expiryOf)).1.None?
      ensures events == H.Absorb(old(events), H.Run(positions, p => PositionOutcome(p, expiryOf)).0)
    {
      ghost var f := p => PositionOutcome(p, expiryOf);
      var i := 0;
      while i < |positions|
        invariant i <= |positions| && H.Run(positions[..i], f).1.None?
        invariant events == H.Absorb(old(events), H.Run(positions[..i], f).0)
      {
        H.RunStep(positions, i, f);
        var pos := positions[i];
        if pos.hasSettled {
          var (netAssigned, netExpired) := if pos.size > 0 then (-pos.assignedSize, -pos.size + pos.assignedSize)
                                           else (pos.assignedSize, -pos.size - pos.assignedSize);
          assert netAssigned + netExpired == -pos.size;
          H.AbsorbSnoc(old(events), H.Run(positions[..i], f).0, (expiryOf(pos.contract), ExpiryEvent(pos.contract, netAssigned, netExpired)));
          events := events[expiryOf(pos.contract) := ExpiryEvent(pos.contract, netAssigned, netExpired)];
        }
        i := i + 1;
      }
      assert positions[..i] == positions;
    }
  }

  /**
   * The two versions agree on what they keep: a deposit the newer one
   * accepts is the same amount and asset in the older one, and a trade's
   * contract, price and size are the same in both.
   */
  lemma VersionsAgree(d: H.Deposit, validAddress: string -> bool, t: H.Trade, contracts: map<string, Contract>)
    ensures H.DepositOutcome(d, validAddress).Insert? ==>
      DepositOutcome(Deposit(d.amount, d.asset, d.createdAt)) ==
        H.Insert(d.createdAt, DepositEvent(H.DepositOutcome(d, validAddress).event.amount, d.asset))
    ensures H.TradeOutcome(t, contracts).Stop? <==>
      TradeOutcome(Trade(t.contractId, t.executionTime, t.filledPrice, t.filledSize, t.side), contracts).Stop?
    ensures H.TradeOutcome(t, contracts).Insert? ==>
      var e := H.TradeOutcome(t, contracts).event;
      TradeOutcome(Trade(t.contractId, t.executionTime, t.filledPrice, t.filledSize, t.side), contracts) ==
        H.Insert(t.executionTime, TradeEvent(e.contract, e.price, e.size))
  {
  }
}
