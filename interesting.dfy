// ledgerx/interesting.rs: how much we want to be the counterparty of an order.
module Interesting {
  /** Ranked from "open a matching order" up to "take it". */
  datatype Interestingness = Match | LogMatch | No | LogTake | Take

  /** The derived order: declaration order. */
  function Rank(i: Interestingness): (r: nat)
    ensures r < 5
  {
    match i
    case Match => 0
    case LogMatch => 1
    case No => 2
    case LogTake => 3
    case Take => 4
  }

  predicate Below(a: Interestingness, b: Interestingness)
  {
    Rank(a) < Rank(b)
  }

  /** `invert`: swaps taking and matching. */
  function Invert(i: Interestingness): Interestingness
  {
    match i
    case Match => Take
    case LogMatch => LogTake
    case No => No
    case LogTake => LogMatch
    case Take => Match
  }

  /** The rank is a faithful numbering: distinct levels have distinct ranks. */
  lemma RankInjective(a: Interestingness, b: Interestingness)
    requires Rank(a) == Rank(b)
    ensures a == b
  {
  }

  /**
   * `invert` is an involution, reverses the order (it mirrors the rank
   * about `No`), and `No` is its only fixed point.
   */
  lemma InvertMeaning(a: Interestingness, b: Interestingness)
    ensures Invert(Invert(a)) == a
    ensures Rank(Invert(a)) == 4 - Rank(a)
    ensures Below(a, b) <==> Below(Invert(b), Invert(a))
    ensures Invert(a) == a <==> a == No
  {
  }

  /**
   * `OrderStats<Bid>::interestingness`, given the order's loss80, implied
   * volatility and annualised return.  Those figures come from
   * floating-point option pricing that is not part of this model; here they
   * are reals, compared exactly as the source compares them.
   */
  function BidInterest(isPut: bool, loss80: real, iv: real, arr: real): (r: Interestingness)
    ensures Rank(No) <= Rank(r)
    ensures r == No <==> loss80 > 0.1 || iv < 0.7 || (isPut && arr < 0.04)
    ensures r == Take <==> loss80 < 0.05 && iv > 0.85 && (!isPut || arr > 0.05)
  {
    if loss80 > 0.1 || iv < 0.7 then No
    else if isPut && arr < 0.04 then No
    else if loss80 < 0.05 && iv > 0.85 && (!isPut || arr > 0.05) then Take
    else LogTake
  }

  /**
   * `OrderStats<Ask>::interestingness`: the same figures read as a bid, and
   * the verdict inverted; an ask ranges from `Match` to `No` and is never
   * taken.
   */
  function AskInterest(isPut: bool, loss80: real, iv: real, arr: real): (r: Interestingness)
    ensures Invert(r) == BidInterest(isPut, loss80, iv, arr)
    ensures Rank(r) <= Rank(No)
    ensures r == Match <==> loss80 < 0.05 && iv > 0.85 && (!isPut || arr > 0.05)
  {
    InvertMeaning(BidInterest(isPut, loss80, iv, arr), No);
    Invert(BidInterest(isPut, loss80, iv, arr))
  }

  /** Worse figures never make an order more interesting to take: the verdict is monotone in each figure. */
  lemma BidInterestMonotone(isPut: bool, loss80: real, iv: real, arr: real, loss80b: real, ivb: real, arrb: real)
    requires loss80b <= loss80 && iv <= ivb && arr <= arrb
    ensures Rank(BidInterest(isPut, loss80, iv, arr)) <= Rank(BidInterest(isPut, loss80b, ivb, arrb))
  {
  }
}
