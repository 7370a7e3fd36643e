// units/quantity.rs: a signed amount of bitcoin (in satoshis), a signed
// number of contracts, or a unitless zero.
module Quantities {
  import opened Wrappers
  import opened Strings
  import Assets

  datatype Quantity = Zero | Bitcoin(sat: int) | Contracts(n: int)

  /** `abs`. */
  function Abs(q: Quantity): (r: Quantity)
    ensures IsNonnegative(r)
  {
    match q
    case Bitcoin(s) => Bitcoin(if s < 0 then -s else s)
    case Contracts(n) => Contracts(if n < 0 then -n else n)
    case Zero => Zero
  }

  /** `is_nonnegative`. */
  predicate IsNonnegative(q: Quantity)
  {
    match q
    case Bitcoin(s) => s >= 0
    case Contracts(n) => n >= 0
    case Zero => true
  }

  /** `is_positive`. */
  predicate IsPositive(q: Quantity)
  {
    match q
    case Bitcoin(s) => s > 0
    case Contracts(n) => n > 0
    case Zero => false
  }

  /** `is_nonzero`. */
  predicate IsNonzero(q: Quantity)
  {
    match q
    case Bitcoin(s) => s != 0
    case Contracts(n) => n != 0
    case Zero => false
  }

  /** `has_same_sign`: zero has either sign. */
  predicate HasSameSign(a: Quantity, b: Quantity)
  {
    if a == Zero || b == Zero then true else IsNonnegative(a) == IsNonnegative(b)
  }

  /** `has_same_unit`: zero has any unit. */
  predicate HasSameUnit(a: Quantity, b: Quantity)
  {
    a == Zero || b == Zero || (a.Bitcoin? && b.Bitcoin?) || (a.Contracts? && b.Contracts?)
  }

  /** `Neg`. */
  function Neg(q: Quantity): Quantity
  {
    match q
    case Zero => Zero
    case Bitcoin(s) => Bitcoin(-s)
    case Contracts(n) => Contracts(-n)
  }

  /** `From<Amount>`: an unsigned amount above the signed range makes `to_signed` fail. */
  function FromAmount(sat: nat): (r: Checked<Quantity>)
    ensures r.Done? <==> sat <= I64Max
    ensures r.Done? ==> r.value == Bitcoin(sat)
  {
    if sat > I64Max then Panic("can this overflow even happen") else Done(Bitcoin(sat))
  }

  /** `Add` exactly as written: only a zero on the LEFT is recognised. */
  function AddAsWritten(a: Quantity, b: Quantity): Checked<Quantity>
  {
    if a == Zero then Done(b)
    else if a.Bitcoin? && b.Bitcoin? then Done(Bitcoin(a.sat + b.sat))
    else if a.Contracts? && b.Contracts? then Done(Contracts(a.n + b.n))
    else Panic("Cannot add")
  }

  /** `Add` as its unit rule intends: zero on either side is the identity. */
  function Add(a: Quantity, b: Quantity): Checked<Quantity>
  {
    if a == Zero then Done(b)
    else if b == Zero then Done(a)
    else if a.Bitcoin? && b.Bitcoin? then Done(Bitcoin(a.sat + b.sat))
    else if a.Contracts? && b.Contracts? then Done(Contracts(a.n + b.n))
    else Panic("Cannot add")
  }

  /** `Sub`: `a + -b`. */
  function Sub(a: Quantity, b: Quantity): Checked<Quantity>
  {
    Add(a, Neg(b))
  }

  function SubAsWritten(a: Quantity, b: Quantity): Checked<Quantity>
  {
    AddAsWritten(a, Neg(b))
  }

  /** `Neg` is an involution that fixes zero and keeps the unit. */
  lemma NegInvolution(q: Quantity)
    ensures Neg(Neg(q)) == q
    ensures Neg(q) == Zero <==> q == Zero
    ensures HasSameUnit(q, Neg(q)) && Abs(Neg(q)) == Abs(q)
  {
  }

  /** `abs` is idempotent and removes only the sign. */
  lemma AbsIdempotent(q: Quantity)
    ensures Abs(Abs(q)) == Abs(q)
    ensures Abs(q) == q || Abs(q) == Neg(q)
    ensures IsNonzero(Abs(q)) == IsNonzero(q)
  {
  }

  /** How the sign predicates relate, and what zero satisfies. */
  lemma SignPredicates(q: Quantity)
    ensures IsPositive(q) <==> IsNonzero(q) && IsNonnegative(q)
    ensures q == Zero ==> IsNonnegative(q) && !IsPositive(q) && !IsNonzero(q)
    ensures IsNonnegative(q) || IsPositive(Neg(q))
  {
  }

  lemma SameSignSymmetric(a: Quantity, b: Quantity)
    ensures HasSameSign(a, b) == HasSameSign(b, a)
    ensures HasSameUnit(a, b) == HasSameUnit(b, a)
    ensures HasSameSign(Zero, a) && HasSameUnit(Zero, a)
  {
  }

  /** Zero is a left identity of the written `Add`, and it accepts exactly these pairs. */
  lemma AddAsWrittenAccepts(a: Quantity, b: Quantity)
    ensures AddAsWritten(Zero, b) == Done(b)
    ensures AddAsWritten(a, b).Done? <==> HasSameUnit(a, b) && (a == Zero || b != Zero)
  {
  }

  /** A bitcoin amount plus zero panics, although the two have the same unit. */
  lemma AddZeroOnTheRight(s: int)
    ensures HasSameUnit(Bitcoin(s), Zero)
    ensures AddAsWritten(Bitcoin(s), Zero).Panic?
    ensures SubAsWritten(Bitcoin(s), Zero).Panic?
    ensures Add(Bitcoin(s), Zero) == Done(Bitcoin(s))
  {
  }

  /** The intended `Add`: defined exactly on same-unit pairs, commutative, with zero as identity. */
  lemma AddSameUnit(a: Quantity, b: Quantity)
    ensures Add(a, b).Done? <==> HasSameUnit(a, b)
    ensures Add(a, b) == Add(b, a)
    ensures Add(a, Zero) == Done(a) && Add(Zero, a) == Done(a)
    ensures Add(a, b).Done? && a != Zero && b != Zero ==> HasSameUnit(Add(a, b).value, a)
  {
  }

  /** Subtracting a quantity from itself leaves nothing of it. */
  lemma SubSelf(a: Quantity)
    ensures Sub(a, a).Done? && !IsNonzero(Sub(a, a).value)
    ensures SubAsWritten(a, a).Done? && !IsNonzero(SubAsWritten(a, a).value)
  {
  }

  /** The two `Add`s agree wherever the written one does not panic. */
  lemma AddRefinesAsWritten(a: Quantity, b: Quantity)
    ensures AddAsWritten(a, b).Done? ==> Add(a, b) == AddAsWritten(a, b)
  {
  }

  /** `Sum`: a left fold of the written `+` from zero, as the source's `fold` does. */
  function Sum(qs: seq<Quantity>): Checked<Quantity>
  {
    SumFrom(AddAsWritten, Zero, qs)
  }

  /** The same fold over the intended `Add`. */
  function SumIntended(qs: seq<Quantity>): Checked<Quantity>
  {
    SumFrom(Add, Zero, qs)
  }

  /** Folding `qs` into `acc` with `add`, stopping at the first panic. */
  function SumFrom(add: (Quantity, Quantity) -> Checked<Quantity>, acc: Quantity, qs: seq<Quantity>): Checked<Quantity>
    decreases |qs|
  {
    if qs == [] then Done(acc)
    else
      match add(acc, qs[0])
      case Panic(why) => Panic(why)
      case Done(a) => SumFrom(add, a, qs[1..])
  }

  lemma SumSmall(q: Quantity)
    ensures Sum([]) == Done(Zero) && SumIntended([]) == Done(Zero)
    ensures Sum([q]) == Done(q) && SumIntended([q]) == Done(q)
  {
    assert [q][1..] == [];
    assert SumFrom(AddAsWritten, q, []) == Done(q);
    assert SumFrom(Add, q, []) == Done(q);
  }

  /**
   * A zero after a bitcoin amount makes the written sum panic, while the
   * intended sum skips it.
   */
  lemma SumZeroAfterBitcoin(s: int)
    ensures Sum([Bitcoin(s), Zero]).Panic?
    ensures SumIntended([Bitcoin(s), Zero]) == Done(Bitcoin(s))
  {
    var qs := [Bitcoin(s), Zero];
    assert qs[1..] == [Zero] && [Zero][1..] == [];
    assert SumFrom(AddAsWritten, Bitcoin(s), [Zero]).Panic?;
    assert SumFrom(Add, Bitcoin(s), [Zero]) == SumFrom(Add, Bitcoin(s), []);
    assert SumFrom(Add, Zero, qs) == SumFrom(Add, Bitcoin(s), [Zero]);
    assert SumFrom(AddAsWritten, Zero, qs) == SumFrom(AddAsWritten, Bitcoin(s), [Zero]);
  }

  /** Wherever the written sum succeeds, the intended sum gives the same total. */
  lemma SumRefinesAsWritten(qs: seq<Quantity>)
    ensures Sum(qs).Done? ==> SumIntended(qs) == Sum(qs)
  {
    SumFromRefines(Zero, qs);
  }

  lemma {:induction false} SumFromRefines(acc: Quantity, qs: seq<Quantity>)
    ensures SumFrom(AddAsWritten, acc, qs).Done? ==> SumFrom(Add, acc, qs) == SumFrom(AddAsWritten, acc, qs)
    decreases |qs|
  {
    if qs != [] {
      AddRefinesAsWritten(acc, qs[0]);
      if AddAsWritten(acc, qs[0]).Done? {
        SumFromRefines(AddAsWritten(acc, qs[0]).value, qs[1..]);
      }
    }
  }

  function TotalContracts(ns: seq<int>): int
  {
    if ns == [] then 0 else ns[0] + TotalContracts(ns[1..])
  }

  function ContractsOf(ns: seq<int>): (qs: seq<Quantity>)
    ensures |qs| == |ns| && forall i :: 0 <= i < |ns| ==> qs[i] == Contracts(ns[i])
  {
    seq(|ns|, i requires 0 <= i < |ns| => Contracts(ns[i]))
  }

  /** A non-empty sum of contract counts adds them up, and never panics. */
  lemma SumOfContracts(ns: seq<int>)
    requires |ns| > 0
    ensures Sum(ContractsOf(ns)) == Done(Contracts(TotalContracts(ns)))
  {
    assert ContractsOf(ns)[1..] == ContractsOf(ns[1..]);
    SumFromContracts(ns[0], ns[1..]);
  }

  lemma {:induction false} SumFromContracts(a: int, ns: seq<int>)
    ensures SumFrom(AddAsWritten, Contracts(a), ContractsOf(ns)) == Done(Contracts(a + TotalContracts(ns)))
    decreases |ns|
  {
    if ns != [] {
      assert ContractsOf(ns)[1..] == ContractsOf(ns[1..]);
      SumFromContracts(a + ns[0], ns[1..]);
    }
  }

  /** `UnknownQuantity::set_asset`: give a bare integer its unit. */
  function SetAsset(inner: int, asset: Assets.Asset): (r: Checked<Quantity>)
  {
    match asset
    case Btc => if inner >= 0 then Done(Bitcoin(inner)) else Panic("negative quantity of Bitcoins")
    case Eth => Panic("ethereum quantity")
    case Usd => Panic("tried to interpret 'quantity' of dollars")
    case Option(_, _) => Done(Contracts(inner))
    case NextDay(_, _) => Panic("not covered by set_asset")
    case Future(_, _) => Panic("not covered by set_asset")
  }

  /** Which assets `set_asset` accepts, and the unit it assigns. */
  lemma SetAssetUnits(inner: int, asset: Assets.Asset)
    ensures SetAsset(inner, asset).Done? <==> (asset.Btc? && inner >= 0) || asset.Option?
    ensures asset.Btc? && inner >= 0 ==> SetAsset(inner, asset) == Done(Bitcoin(inner))
    ensures asset.Option? ==> SetAsset(inner, asset) == Done(Contracts(inner))
  {
  }
}
