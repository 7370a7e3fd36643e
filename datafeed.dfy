// ledgerx/datafeed.rs: orders as they arrive on the LedgerX data feed.
module Feed {
  import opened Wrappers
  import opened Decimals
  import opened UtcTime

  datatype BidAsk = Bid | Ask

  /** `datafeed::Order` as datafeed.rs defines it. */
  datatype Order = Order(bidAsk: BidAsk, size: nat, price: Decimal, contractId: nat)

  /**
   * The order record that book.rs, own_orders.rs, price_tracker.rs and mod.rs
   * read.  Its definition is not part of this model (datafeed.rs at this
   * version has only the four fields above), so it carries exactly the fields
   * those files use: `mid` is book.rs's `manifest_id` and the other files'
   * `message_id`.
   */
  datatype LiveOrder = LiveOrder(
    bidAsk: BidAsk,
    size: nat,
    price: Decimal,
    contractId: nat,
    mid: nat,
    customerId: Option<nat>,
    filledSize: nat,
    filledPrice: Decimal,
    updatedTimestamp: Time,
    timestamp: Time)

  /** A JSON value, as far as `from_json` looks into one. */
  datatype Json =
    | JObject(fields: map<string, Json>)
    | JBool(b: bool)
    | JString(s: string)
    | JNumber(n: int)
    | JNull
    | JArray(items: seq<Json>)

  const LimitOrderType := "customer_limit_order"

  /** The `is_ask` member of an order object; `None` when it is not a boolean. */
  function IsAskField(fields: map<string, Json>): Option<bool>
  {
    if "is_ask" in fields && fields["is_ask"].JBool? then Some(fields["is_ask"].b) else None
  }

  /**
   * `Order::from_json`: a non-object is an error; an object is an order only
   * when its `order_type` is the string "customer_limit_order"; `is_ask`
   * must be present and boolean; then size, price (in cents, divided by 100)
   * and contract id are read in that order, the first failure being the
   * error.  `parseNum` stands for `json::parse_num`, which is not part of
   * this model.
   */
  function FromJson(js: Json, parseNum: (map<string, Json>, string) -> Result<nat, string>): (r: Result<Option<Order>, string>)
    ensures !js.JObject? ==> r.Err?
    ensures js.JObject? && !("order_type" in js.fields && js.fields["order_type"] == JString(LimitOrderType)) ==>
      r == Ok(None)
    ensures (js.JObject? && "order_type" in js.fields && js.fields["order_type"] == JString(LimitOrderType) &&
             IsAskField(js.fields).None?) ==> r.Err?
    ensures r.Ok? && r.value.Some? ==>
      js.JObject? && IsAskField(js.fields).Some? &&
      r.value.value.bidAsk == (if IsAskField(js.fields).value then Ask else Bid) &&
      parseNum(js.fields, "size") == Ok(r.value.value.size) &&
      parseNum(js.fields, "contract_id") == Ok(r.value.value.contractId) &&
      parseNum(js.fields, "price").Ok? &&
      Value(r.value.value.price) == parseNum(js.fields, "price").value as real / 100.0
  {
    if !js.JObject? then Err("order json was not an object")
    else
      var fields := js.fields;
      if !("order_type" in fields && fields["order_type"] == JString(LimitOrderType)) then Ok(None)
      else if "is_ask" !in fields then Err("No `is_ask` field in order stream")
      else if !fields["is_ask"].JBool? then Err("Could not parse `is_ask` field in order stream")
      else
        var ba := if fields["is_ask"].b then Ask else Bid;
        match parseNum(fields, "size")
        case Err(e) => Err(e)
        case Ok(size) =>
          match parseNum(fields, "price")
          case Err(e) => Err(e)
          case Ok(cents) =>
            match parseNum(fields, "contract_id")
            case Err(e) => Err(e)
            case Ok(cid) => Ok(Some(Order(ba, size, Decimal(cents, 2), cid)))
  }

  /**
   * A well-formed order is read whenever the three numbers are: the result
   * is fixed by `is_ask` and the numbers alone, an error in any number is
   * the result, and an `is_ask` that is not a boolean is an error.
   */
  lemma FromJsonComplete(fields: map<string, Json>, parseNum: (map<string, Json>, string) -> Result<nat, string>)
    requires "order_type" in fields && fields["order_type"] == JString(LimitOrderType)
    ensures (IsAskField(fields).Some? && parseNum(fields, "size").Ok? && parseNum(fields, "price").Ok? &&
             parseNum(fields, "contract_id").Ok?) ==>
      FromJson(JObject(fields), parseNum).Ok? && FromJson(JObject(fields), parseNum).value.Some?
    ensures parseNum(fields, "size").Err? ==> FromJson(JObject(fields), parseNum).Err?
    ensures parseNum(fields, "price").Err? ==> FromJson(JObject(fields), parseNum).Err?
    ensures parseNum(fields, "contract_id").Err? ==> FromJson(JObject(fields), parseNum).Err?
    ensures "is_ask" in fields && !fields["is_ask"].JBool? ==> FromJson(JObject(fields), parseNum).Err?
  {
  }

  /** The feed's own example: a cancelled ask reads as size 0 at price 0. */
  lemma CancelledAskExample(fields: map<string, Json>, parseNum: (map<string, Json>, string) -> Result<nat, string>)
    requires "order_type" in fields && fields["order_type"] == JString(LimitOrderType)
    requires "is_ask" in fields && fields["is_ask"] == JBool(true)
    requires parseNum(fields, "size") == Ok(0) && parseNum(fields, "price") == Ok(0)
    requires parseNum(fields, "contract_id") == Ok(22256362)
    ensures var r := FromJson(JObject(fields), parseNum);
      r.Ok? && r.value.Some? && r.value.value.bidAsk == Ask && r.value.value.size == 0 &&
      Value(r.value.value.price) == 0.0 && r.value.value.contractId == 22256362
  {
  }
}
