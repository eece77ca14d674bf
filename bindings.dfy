// The string conversions of the Python bindings
// (src/orderbook_py/bindings.cpp): side names both ways, the order-type
// field of an order dictionary, and the orders `create_order` and
// `add_orders_batch` build from dictionaries.
//
// A dictionary maps key strings to Python values. Reading a key it lacks
// raises `KeyError`; converting a value of the wrong kind raises
// `cast_error`; the `std::invalid_argument` that `string_to_side` throws
// carries its message. A `double` price is taken in ticks.

module Bindings {
  import opened Common
  import opened Orders

  /**
   * A Python value, told apart only as far as the casts here tell them
   * apart: an `int`, a `float` (in price ticks), a `str`, or anything else.
   */
  datatype PyValue = PyInt(n: int) | PyFloat(ticks: int) | PyStr(s: string) | PyOther

  /** An order dictionary. */
  type Dict = map<string, PyValue>

  /** A side, or the message of the `invalid_argument` thrown for an unknown name. */
  datatype SideOrError = Parsed(side: Side) | InvalidArgument(message: string)

  /** The exceptions building an order can raise. */
  datatype PyError = KeyError(key: string) | CastError | SideError(message: string)

  /** An order, or the exception that stopped building it. */
  datatype OrderOrError = Built(order: Order) | Raised(error: PyError)

  /** The C++ types values are cast to. */
  datatype CastTo = ToDouble | ToU64 | ToString

  /** `cast<double>` accepts any number, `cast<uint64_t>` an `int` in range, `cast<std::string>` a `str`. */
  predicate Fits(v: PyValue, t: CastTo) {
    match t
    case ToDouble => v.PyInt? || v.PyFloat?
    case ToU64 => v.PyInt? && 0 <= v.n < 0x1_0000_0000_0000_0000
    case ToString => v.PyStr?
  }

  /** `d[key].cast<T>()` succeeds. */
  predicate Reads(d: Dict, key: string, t: CastTo) {
    key in d && Fits(d[key], t)
  }

  /** `d.contains(key) ? d[key].cast<T>() : …` succeeds. */
  predicate ReadsIfPresent(d: Dict, key: string, t: CastTo) {
    key in d ==> Fits(d[key], t)
  }

  /** The exception of a failed `d[key].cast<T>()`: `KeyError` for a missing key, else `cast_error`. */
  function ReadError(d: Dict, key: string): PyError {
    if key in d then CastError else KeyError(key)
  }

  /** The three required keys read, in order: `price`, `qty` and `side`. */
  predicate Required(d: Dict) {
    Reads(d, "price", ToDouble) && Reads(d, "qty", ToU64) && Reads(d, "side", ToString)
  }

  /** The price a read `price` value stands for. */
  function PriceOf(v: PyValue): int
    requires Fits(v, ToDouble)
  {
    if v.PyInt? then v.n else v.ticks
  }

  /** `side_to_string`. */
  function SideToString(side: Side): (s: string)
    ensures side == Buy ==> s == "buy"
    ensures side == Sell ==> s == "sell"
  {
    if side == Buy then "buy" else "sell"
  }

  /** The names `string_to_side` accepts for each side. */
  predicate BuyName(s: string) {
    s == "buy" || s == "BUY" || s == "Buy"
  }

  predicate SellName(s: string) {
    s == "sell" || s == "SELL" || s == "Sell"
  }

  /**
   * `string_to_side`: three spellings of each side are accepted; any other
   * string throws, naming the string.
   */
  function StringToSide(s: string): (r: SideOrError)
    ensures r == Parsed(Buy) <==> BuyName(s)
    ensures r == Parsed(Sell) <==> SellName(s)
    ensures r.InvalidArgument? <==> !BuyName(s) && !SellName(s)
    ensures r.InvalidArgument? ==> r.message == "Invalid side: " + s + " (must be 'buy' or 'sell')"
  {
    if BuyName(s) then Parsed(Buy)
    else if SellName(s) then Parsed(Sell)
    else InvalidArgument("Invalid side: " + s + " (must be 'buy' or 'sell')")
  }

  /** Printing a side and parsing the name back gives the side. */
  lemma SideRoundTrip(side: Side)
    ensures StringToSide(SideToString(side)) == Parsed(side)
  {
  }

  /** The upper-case spelling is a side name but not an order-type name. */
  lemma UpperCaseNames()
    ensures StringToSide("SELL") == Parsed(Sell)
    ensures TypeOf(Some("MARKET")) == Limit
  {
    var upper: string := "MARKET";
    assert upper[1] != "market"[1] && upper[1] != "Market"[1];
  }

  /** The order type of a dictionary: "market" or "Market" give Market; any other string, or no key, Limit. */
  function TypeOf(t: Option<string>): (r: OrderType)
    ensures r == Market <==> t == Some("market") || t == Some("Market")
  {
    if t.Some? && (t.value == "market" || t.value == "Market") then Market else Limit
  }

  /**
   * `create_order` (`readId`) and the body of `add_orders_batch`'s loop
   * (not `readId`, the id then 0 whatever the dictionary holds): `price`,
   * `qty` and `side` are read and the side parsed, then `order_id` when
   * `readId` and the key is present, then `type` when present; the first
   * read or parse that fails raises.
   */
  function CreateOrder(d: Dict, readId: bool, now: U64): (r: OrderOrError)
    ensures r.Built? <==> (Required(d) && StringToSide(d["side"].s).Parsed? &&
      (readId ==> ReadsIfPresent(d, "order_id", ToU64)) && ReadsIfPresent(d, "type", ToString))
    ensures !Reads(d, "price", ToDouble) ==> r == Raised(ReadError(d, "price"))
    ensures Reads(d, "price", ToDouble) && !Reads(d, "qty", ToU64) ==> r == Raised(ReadError(d, "qty"))
    ensures (Reads(d, "price", ToDouble) && Reads(d, "qty", ToU64) && !Reads(d, "side", ToString)) ==>
      r == Raised(ReadError(d, "side"))
    ensures (Required(d) && StringToSide(d["side"].s).InvalidArgument?) ==>
      r == Raised(SideError(StringToSide(d["side"].s).message))
    ensures (Required(d) && StringToSide(d["side"].s).Parsed? && !(readId ==> ReadsIfPresent(d, "order_id", ToU64))) ==>
      r == Raised(CastError)
    ensures (Required(d) && StringToSide(d["side"].s).Parsed? && (readId ==> ReadsIfPresent(d, "order_id", ToU64)) &&
      !ReadsIfPresent(d, "type", ToString)) ==> r == Raised(CastError)
    ensures r.Built? ==> (r.order.price == PriceOf(d["price"]) && r.order.quantity == d["qty"].n &&
      r.order.filled == 0 && r.order.status == New && r.order.timestampNs == now)
    ensures r.Built? ==> r.order.id == (if readId && "order_id" in d then d["order_id"].n else 0)
    ensures r.Built? ==> (r.order.side == Buy <==> BuyName(d["side"].s)) && (r.order.side == Sell <==> SellName(d["side"].s))
    ensures r.Built? ==> (r.order.orderType == Market <==> "type" in d && (d["type"].s == "market" || d["type"].s == "Market"))
  {
    if !Reads(d, "price", ToDouble) then Raised(ReadError(d, "price"))
    else if !Reads(d, "qty", ToU64) then Raised(ReadError(d, "qty"))
    else if !Reads(d, "side", ToString) then Raised(ReadError(d, "side"))
    else
      match StringToSide(d["side"].s)
      case InvalidArgument(message) => Raised(SideError(message))
      case Parsed(side) =>
        if readId && !ReadsIfPresent(d, "order_id", ToU64) then Raised(CastError)
        else if !ReadsIfPresent(d, "type", ToString) then Raised(CastError)
        else
          var id := if readId && "order_id" in d then d["order_id"].n else 0;
          var t := if "type" in d then TypeOf(Some(d["type"].s)) else TypeOf(None);
          Built(NewOrder(id, PriceOf(d["price"]), d["qty"].n, side, t, now))
  }

  /** The orders `add_orders_batch` builds, or the exception of the first dictionary that raises. */
  datatype BatchOrError = BatchBuilt(orders: seq<Order>) | BatchRaised(error: PyError)

  /**
   * The dictionary loop of `add_orders_batch`: every order gets id 0 (the
   * book assigns ids), whatever `order_id` the dictionary holds; all
   * clock readings are `now`.
   */
  method BatchOrders(ds: seq<Dict>, now: U64) returns (r: BatchOrError)
    ensures r.BatchBuilt? <==> forall i :: 0 <= i < |ds| ==> CreateOrder(ds[i], false, now).Built?
    ensures r.BatchBuilt? ==> |r.orders| == |ds|
    ensures r.BatchBuilt? ==> forall i :: 0 <= i < |ds| ==> r.orders[i] == CreateOrder(ds[i], false, now).order
    ensures r.BatchRaised? ==>
      exists i :: 0 <= i < |ds| && CreateOrder(ds[i], false, now) == Raised(r.error) &&
        forall j :: 0 <= j < i ==> CreateOrder(ds[j], false, now).Built?
  {
    var orders: seq<Order> := [];
    for i := 0 to |ds|
      invariant |orders| == i
      invariant forall j :: 0 <= j < i ==> CreateOrder(ds[j], false, now).Built?
      invariant forall j :: 0 <= j < i ==> orders[j] == CreateOrder(ds[j], false, now).order
    {
      match CreateOrder(ds[i], false, now)
      case Raised(e) =>
        return BatchRaised(e);
      case Built(o) =>
        orders := orders + [o];
    }
    r := BatchBuilt(orders);
  }

  /** A batch dictionary's `order_id` is never read: a mistyped one does not raise, and the id is 0. */
  lemma BatchIgnoresOrderId(d: Dict, now: U64)
    requires Required(d) && StringToSide(d["side"].s).Parsed? && ReadsIfPresent(d, "type", ToString)
    ensures CreateOrder(d, false, now).Built? && CreateOrder(d, false, now).order.id == 0
    ensures CreateOrder(d["order_id" := PyOther], false, now) == CreateOrder(d, false, now)
  {
    var d' := d["order_id" := PyOther];
    assert Required(d') && d'["side"] == d["side"] && d'["price"] == d["price"] && d'["qty"] == d["qty"];
    assert ("type" in d') == ("type" in d);
  }

  /** A negative `qty` raises `cast_error`, as does a `price` given as a string. */
  lemma CastErrors(now: U64)
    ensures CreateOrder(map["price" := PyInt(100), "qty" := PyInt(-1), "side" := PyStr("buy")], true, now) == Raised(CastError)
    ensures CreateOrder(map["price" := PyStr("100"), "qty" := PyInt(5), "side" := PyStr("buy")], true, now) == Raised(CastError)
    ensures CreateOrder(map["price" := PyInt(100), "side" := PyStr("buy")], true, now) == Raised(KeyError("qty"))
  {
  }
}
