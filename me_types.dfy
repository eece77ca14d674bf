// The value types of the fixed-point engine (namespace `matching_engine`,
// src/matching_engine/core/types.hpp): strong wrappers around one integer,
// the order and event records, and the `Result` wrapper.
//
// `int64_t` prices are unbounded integers here; `uint64_t` fields are `U64`.

module MeTypes {
  import opened Common

  datatype OrderId = OrderId(value: U64)
  datatype Timestamp = Timestamp(nanoseconds: U64)
  /** A price in ticks of 0.01. */
  datatype Price = Price(ticks: int)
  datatype Quantity = Quantity(value: U64)

  /** `Price::TICK_SIZE`: ticks per currency unit. */
  const TICK_SIZE: int := 100

  datatype Side = Buy | Sell
  datatype OrderType = Limit | Market
  datatype OrderEventType = New | Cancel | Fill | Reject

  // ---------------------------------------------------------------------
  // Defaulted three-way comparison

  /** The sign of a defaulted `operator<=>` over one integer field. */
  function Compare(a: int, b: int): (c: int)
    ensures c < 0 <==> a < b
    ensures c == 0 <==> a == b
    ensures c > 0 <==> a > b
  {
    if a < b then -1 else if a == b then 0 else 1
  }

  /** `Price <=> Price` orders by ticks, and reports equal exactly for equal prices. */
  function ComparePrice(a: Price, b: Price): (c: int)
    ensures c == 0 <==> a == b
    ensures c < 0 <==> a.ticks < b.ticks
  {
    Compare(a.ticks, b.ticks)
  }

  function CompareQuantity(a: Quantity, b: Quantity): (c: int)
    ensures c == 0 <==> a == b
    ensures c < 0 <==> a.value < b.value
  {
    Compare(a.value, b.value)
  }

  function CompareOrderId(a: OrderId, b: OrderId): (c: int)
    ensures c == 0 <==> a == b
    ensures c < 0 <==> a.value < b.value
  {
    Compare(a.value, b.value)
  }

  function CompareTimestamp(a: Timestamp, b: Timestamp): (c: int)
    ensures c == 0 <==> a == b
    ensures c < 0 <==> a.nanoseconds < b.nanoseconds
  {
    Compare(a.nanoseconds, b.nanoseconds)
  }

  // ---------------------------------------------------------------------
  // Quantity arithmetic on `uint64_t`

  /** `Quantity + Quantity` (and `+=`): wraps modulo 2^64. */
  function Plus(a: Quantity, b: Quantity): Quantity {
    Quantity(Add64(a.value, b.value))
  }

  /** `Quantity - Quantity` (and `-=`): wraps modulo 2^64 when `b` exceeds `a`. */
  function Minus(a: Quantity, b: Quantity): Quantity {
    Quantity(Sub64(a.value, b.value))
  }

  /**
   * Adding and subtracting the same quantity undo each other, wrap-around
   * included; without wrap-around they are the integer operations.
   */
  lemma PlusMinus(a: Quantity, b: Quantity)
    ensures Minus(Plus(a, b), b) == a
    ensures Plus(Minus(a, b), b) == a
    ensures a.value + b.value < U64_MOD ==> Plus(a, b).value == a.value + b.value
    ensures b.value <= a.value ==> Minus(a, b).value == a.value - b.value
  {
    var s := Plus(a, b).value;
    if a.value + b.value >= U64_MOD {
      assert s == a.value + b.value - U64_MOD;
    }
    var d := Minus(a, b).value;
    assert (d + b.value) % U64_MOD == a.value;
    if d + b.value >= U64_MOD {
      assert d + b.value - U64_MOD == a.value;
    }
  }

  // ---------------------------------------------------------------------
  // Records

  /** `FillInfo`, with its defaults. */
  datatype FillInfo = FillInfo(filledQuantity: Quantity, remainingQuantity: Quantity, fillPrice: Price, fillTime: Timestamp)

  function DefaultFillInfo(): (f: FillInfo)
    ensures f.filledQuantity.value == 0 && f.remainingQuantity.value == 0
    ensures f.fillPrice.ticks == 0 && f.fillTime.nanoseconds == 0
  {
    FillInfo(Quantity(0), Quantity(0), Price(0), Timestamp(0))
  }

  /** `OrderEvent`: submissions and fills share one record. */
  datatype OrderEvent = OrderEvent(
    eventType: OrderEventType,
    orderId: OrderId,
    price: Price,
    quantity: Quantity,
    side: Side,
    orderType: OrderType,
    timestamp: Timestamp,
    fillInfo: FillInfo,
    rejectReason: Option<string>)

  // ---------------------------------------------------------------------
  // Result

  /** `Result<T>`: a success flag and a value (`T{}` on failure). */
  datatype Result<T> = Result(success: bool, value: T)

  /** `Result<void>`: a success flag only. */
  datatype VoidResult = VoidResult(success: bool)

  predicate IsOk<T>(r: Result<T>) {
    r.success
  }

  function IsErr<T>(r: Result<T>): (b: bool)
    ensures b <==> !IsOk(r)
  {
    !r.success
  }

  function Ok<T>(v: T): (r: Result<T>)
    ensures IsOk(r) && r.value == v
  {
    Result(true, v)
  }

  /** `Result::Err()`, carrying `T{}`, which is passed in as `zero`. */
  function Err<T>(zero: T): (r: Result<T>)
    ensures IsErr(r) && r.value == zero
  {
    Result(false, zero)
  }

  predicate VoidIsOk(r: VoidResult) {
    r.success
  }

  function VoidIsErr(r: VoidResult): (b: bool)
    ensures b <==> !VoidIsOk(r)
  {
    !r.success
  }

  function VoidOk(): (r: VoidResult)
    ensures VoidIsOk(r)
  {
    VoidResult(true)
  }

  function VoidErr(): (r: VoidResult)
    ensures VoidIsErr(r)
  {
    VoidResult(false)
  }
}
