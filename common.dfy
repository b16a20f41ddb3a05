/** Value types shared by the trading engine: points in time, currencies,
    assets, monetary amounts, and the outcome of an operation that may throw. */
module Common {

  /** Bounds of java.time.Instant, in nanoseconds since the epoch
      (Instant.MIN is -31557014167219200 s, Instant.MAX is 31556889864403199 s
      plus 999999999 ns). */
  const INSTANT_MIN: int := -31557014167219200_000000000
  const INSTANT_MAX: int := 31556889864403199_999999999

  /** A point in time, in nanoseconds since the epoch. */
  type Instant = t: int | INSTANT_MIN <= t <= INSTANT_MAX witness 0

  /** Bounds of a Kotlin `Int`. */
  const INT_MIN: int := -0x8000_0000
  const INT_MAX: int := 0x7fff_ffff
  const INT_RANGE: int := 0x1_0000_0000

  /** The exceptions the modelled code can raise. */
  datatype Error =
    | IllegalArgument   // a `require(...)` that failed
    | Unsupported       // UnsupportedException
    | NoSuchElement     // `first()` / `last()` of an empty list
    | NumberFormat      // BigDecimal built from an infinite or NaN double
    | InsufficientData  // a Pearson correlation of fewer than two values

  /** The result of an operation that either returns a value or throws. */
  datatype Result<+T> = Ok(value: T) | Err(error: Error)

  /** A value that may be null. */
  datatype Option<+T> = None | Some(value: T)

  /** Currencies are identified by their ISO code. */
  type Currency = string

  /** A tradable instrument and the currency it is priced in. */
  datatype Asset = Asset(symbol: string, currency: Currency)

  /** A monetary value tagged with its currency. */
  datatype Amount = Amount(currency: Currency, value: real)

  /** The sign of `Instant.compareTo`: negative, zero or positive. */
  function CompareInstants(a: Instant, b: Instant): (c: int)
    ensures c < 0 <==> a < b
    ensures c == 0 <==> a == b
    ensures c > 0 <==> b < a
  {
    if a < b then -1 else if a == b then 0 else 1
  }

  function Abs(x: real): (r: real)
    ensures 0.0 <= r && (r == x || r == -x)
  {
    if x < 0.0 then -x else x
  }
}
