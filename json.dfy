// ledgerx/json.rs: the exchange's JSON vocabulary — status codes and reasons
// of order reports, the raw contract record of the /contracts endpoint.
module LxJson {
  import opened Strings
  import opened Wrappers
  import opened Prices
  import opened UtcTime
  import Assets

  /** The status of an action report. */
  datatype StatusType =
    | Inserted
    | CrossTrade
    | NotFilled
    | Cancelled
    | CancelledAndReplaced
    | MessageAcknowledged
    | ContractNotFound
    | OrderIdNotFound
    | OrderIdInvalid
    | OrderRejected
    | InsufficientCollateral
    | ContractExpired
    | PriceThresholdExceeded
    | ContractNotActive
    | InvalidBlockSize

  /** The numeric code the exchange sends for each status. */
  function StatusCode(s: StatusType): nat
  {
    match s
    case Inserted => 200
    case CrossTrade => 201
    case NotFilled => 202
    case Cancelled => 203
    case CancelledAndReplaced => 204
    case MessageAcknowledged => 300
    case ContractNotFound => 600
    case OrderIdNotFound => 601
    case OrderIdInvalid => 602
    case OrderRejected => 607
    case InsufficientCollateral => 609
    case ContractExpired => 610
    case PriceThresholdExceeded => 613
    case ContractNotActive => 614
    case InvalidBlockSize => 616
  }

  const StatusCodes: set<nat> := {200, 201, 202, 203, 204, 300, 600, 601, 602, 607, 609, 610, 613, 614, 616}

  /**
   * `StatusType::try_from`: exactly the fifteen listed codes are accepted,
   * each as the status whose code it is; every other number is an error
   * naming it.
   */
  function StatusTypeOf(x: nat): (r: Result<StatusType, string>)
    ensures r.Ok? <==> x in StatusCodes
    ensures r.Ok? ==> StatusCode(r.value) == x
    ensures r.Err? ==> r.error == "unknown status type " + NatToString(x)
  {
    match x
    case 200 => Ok(Inserted)
    case 201 => Ok(CrossTrade)
    case 202 => Ok(NotFilled)
    case 203 => Ok(Cancelled)
    case 204 => Ok(CancelledAndReplaced)
    case 300 => Ok(MessageAcknowledged)
    case 600 => Ok(ContractNotFound)
    case 601 => Ok(OrderIdNotFound)
    case 602 => Ok(OrderIdInvalid)
    case 607 => Ok(OrderRejected)
    case 609 => Ok(InsufficientCollateral)
    case 610 => Ok(ContractExpired)
    case 613 => Ok(PriceThresholdExceeded)
    case 614 => Ok(ContractNotActive)
    case 616 => Ok(InvalidBlockSize)
    case _ => Err("unknown status type " + NatToString(x))
  }

  /** Every status reads back from its code, so distinct statuses have distinct codes. */
  lemma StatusTypeRoundTrip(s: StatusType)
    ensures StatusTypeOf(StatusCode(s)) == Ok(s)
    ensures StatusCode(s) in StatusCodes
  {
  }

  /** The reason attached to a status. */
  datatype StatusReason = NoReason | FullFill | CancelledByExchange

  function ReasonCode(r: StatusReason): nat
  {
    match r
    case NoReason => 0
    case FullFill => 52
    case CancelledByExchange => 53
  }

  /** `StatusReason::try_from`: exactly 0, 52 and 53 are accepted, each as the reason whose code it is. */
  function StatusReasonOf(x: nat): (r: Result<StatusReason, string>)
    ensures r.Ok? <==> x == 0 || x == 52 || x == 53
    ensures r.Ok? ==> ReasonCode(r.value) == x
    ensures r.Err? ==> r.error == "unknown status reason " + NatToString(x)
  {
    match x
    case 0 => Ok(NoReason)
    case 52 => Ok(FullFill)
    case 53 => Ok(CancelledByExchange)
    case _ => Err("unknown status reason " + NatToString(x))
  }

  /** Every reason reads back from its code. */
  lemma StatusReasonRoundTrip(r: StatusReason)
    ensures StatusReasonOf(ReasonCode(r)) == Ok(r)
  {
  }

  /** The kind of derivative a contract record describes. */
  datatype DerivativeType = DayAheadSwap | FutureContract | OptionsContract

  /** The `type` field of an options contract. */
  datatype JsonType = Put | Call

  /**
   * The contract record as the /contracts endpoint returns it, after
   * deserialisation (the strike already converted from cents); the fields
   * that `TryFrom` ignores are not kept.
   */
  datatype JsonContract = JsonContract(
    id: nat,
    active: bool,
    underlyingAsset: Assets.Underlying,
    dateExercise: Option<Time>,
    dateExpires: Option<Time>,
    derivativeType: DerivativeType,
    strikePrice: Option<Price>,
    multiplier: nat,
    tag: string,
    ty: Option<JsonType>)
}
