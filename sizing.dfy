/** Turning an amount of money into an order size: the signals and positions
    a policy looks at, truncation toward zero, and the two ways of computing
    a size (whole contracts, or a fixed number of decimals). */
module Sizing {
  import opened Common

  /** The strength of a signal: positive ratings ask to buy, negative ones
      to sell. */
  datatype Rating = Rating(value: int)
  {
    predicate IsPositive()
    {
      value > 0
    }

    predicate IsNegative()
    {
      value < 0
    }

    /** +1 for a positive rating, -1 for a negative one. */
    function Direction(): (d: int)
      ensures d == 1 <==> IsPositive()
      ensures d == -1 <==> IsNegative()
      ensures -1 <= d <= 1
    {
      if value > 0 then 1 else if value < 0 then -1 else 0
    }
  }

  /** A strategy's trading interest in an asset; `entry` allows it to open a
      position and `exit` to reduce one. */
  datatype Signal = Signal(asset: Asset, rating: Rating, entry: bool := true, exit: bool := true)

  /** The signed number of contracts held in an asset. */
  datatype Position = Position(size: real)
  {
    predicate Open()
    {
      size != 0.0
    }

    predicate Long()
    {
      size > 0.0
    }

    predicate Short()
    {
      size < 0.0
    }
  }

  /** `positions.getPosition(asset)`: an asset that is not held has an empty position. */
  function GetPosition(positions: map<Asset, Position>, asset: Asset): (p: Position)
    ensures asset !in positions ==> !p.Open()
    ensures asset in positions ==> p == positions[asset]
  {
    if asset in positions then positions[asset] else Position(0.0)
  }

  /** `FlexPolicy.reducedPositionSignal`: the signal may exit the position and
      points against it. */
  function ReducedPositionSignal(position: Position, signal: Signal): (b: bool)
    ensures b <==> (position.Open() && signal.exit && position.size * (signal.rating.Direction() as real) < 0.0)
  {
    if position.Open() && signal.exit then
      if position.Long() && signal.rating.IsNegative() then true
      else if position.Short() && signal.rating.IsPositive() then true
      else false
    else false
  }

  /** Truncation toward zero, like a cast of a double to an integer before any clamping. */
  function Trunc(x: real): (n: int)
  {
    if x >= 0.0 then x.Floor else -((-x).Floor)
  }

  /** The integer part of `x` is no larger than `x` in magnitude, misses it by
      less than one, and has the sign of `x`. */
  lemma TruncBounds(x: real)
    ensures x >= 0.0 ==> 0.0 <= Trunc(x) as real <= x < Trunc(x) as real + 1.0
    ensures x < 0.0 ==> Trunc(x) as real - 1.0 < x <= Trunc(x) as real <= 0.0
  {
  }

  function Pow10(n: nat): (p: nat)
    ensures p >= 1
  {
    if n == 0 then 1 else 10 * Pow10(n - 1)
  }

  /** 10^fractions, for a `fractions` of either sign. */
  function Scale(fractions: int): (s: real)
    ensures s > 0.0
  {
    if fractions >= 0 then Pow10(fractions) as real else 1.0 / (Pow10(-fractions) as real)
  }

  /** The spacing of the decimal grid at `fractions` decimals: 10^-fractions. */
  function Step(fractions: int): (u: real)
    ensures u > 0.0
  {
    1.0 / Scale(fractions)
  }

  /** `x` cut toward zero to a whole multiple of 1 / s. */
  function Cut(x: real, s: real): real
    requires s > 0.0
  {
    (Trunc(x * s) as real) / s
  }

  /** `BigDecimal(x).setScale(fractions, RoundingMode.DOWN)`: `x` cut to
      `fractions` decimals toward zero (a negative `fractions` cuts to tens,
      hundreds, ...). */
  function TruncateDecimals(x: real, fractions: int): (r: real)
    ensures OnGrid(r, fractions)
    ensures x >= 0.0 ==> 0.0 <= r <= x
    ensures x <= 0.0 ==> x <= r <= 0.0
  {
    CutBounds(x, Scale(fractions));
    Cut(x, Scale(fractions))
  }

  /** `t` is a whole multiple of 1 / s. */
  predicate Whole(t: real, s: real)
  {
    (t * s).Floor as real == t * s
  }

  /** `t` is a whole number of grid steps at `fractions` decimals. */
  predicate OnGrid(t: real, fractions: int)
  {
    Whole(t, Scale(fractions))
  }

  /** The truncated value lies on the grid of `fractions` decimals, between
      zero and `x`, less than one grid step away from `x`. */
  lemma TruncateDecimalsBounds(x: real, fractions: int)
    ensures OnGrid(TruncateDecimals(x, fractions), fractions)
    ensures x >= 0.0 ==> 0.0 <= TruncateDecimals(x, fractions) <= x < TruncateDecimals(x, fractions) + Step(fractions)
    ensures x < 0.0 ==> TruncateDecimals(x, fractions) - Step(fractions) < x <= TruncateDecimals(x, fractions) <= 0.0
  {
    CutBounds(x, Scale(fractions));
  }

  lemma CutBounds(x: real, s: real)
    requires s > 0.0
    ensures Whole(Cut(x, s), s)
    ensures x >= 0.0 ==> 0.0 <= Cut(x, s) <= x < Cut(x, s) + 1.0 / s
    ensures x < 0.0 ==> Cut(x, s) - 1.0 / s < x <= Cut(x, s) <= 0.0
  {
    var k := Trunc(x * s);
    assert Cut(x, s) == k as real / s;
    TruncBounds(x * s);
    DivBracket(x, k, s);
  }

  /** Dividing the bracket n <= x * s < n + 1 (or its mirror image below
      zero) by a positive scale s. */
  lemma DivBracket(x: real, k: int, s: real)
    requires s > 0.0
    requires x * s >= 0.0 ==> 0.0 <= k as real <= x * s < k as real + 1.0
    requires x * s < 0.0 ==> k as real - 1.0 < x * s <= k as real <= 0.0
    ensures Whole(k as real / s, s)
    ensures x >= 0.0 ==> 0.0 <= k as real / s <= x < k as real / s + 1.0 / s
    ensures x < 0.0 ==> k as real / s - 1.0 / s < x <= k as real / s <= 0.0
  {
    var n := k as real;
    assert (n / s) * s == n;
    assert n.Floor == k;
    assert x * s / s == x;
    assert (n + 1.0) / s == n / s + 1.0 / s;
    assert (n - 1.0) / s == n / s - 1.0 / s;
    if x >= 0.0 {
      MulMono(0.0, x, s);
      DivMono(0.0, n, s);
      DivMono(n, x * s, s);
      DivMono(x * s, n + 1.0, s);
    } else {
      MulMono(x, 0.0, s);
      DivMono(n - 1.0, x * s, s);
      DivMono(x * s, n, s);
      DivMono(n, 0.0, s);
    }
  }

  lemma DivMono(a: real, b: real, c: real)
    requires c > 0.0
    ensures a <= b ==> a / c <= b / c
    ensures a < b ==> a / c < b / c
  {
    MulMono(a / c, b / c, c);
    assert (a / c) * c == a && (b / c) * c == b;
  }

  lemma MulMono(a: real, b: real, c: real)
    requires c > 0.0
    ensures a <= b ==> a * c <= b * c
    ensures a < b ==> a * c < b * c
  {
  }

  /** `Asset.value(size, price)`: the value of `size` contracts at `price`,
      which is not part of this model. */
  type AssetValue = (Asset, real, real) -> Amount

  /** `FlexPolicy.calcSize(amount, signal, price)`: the number of contracts
      `amount` buys at the price of one contract, cut to `fractions`
      decimals toward zero and signed by the rating's direction. A contract
      price of zero makes the quotient infinite or NaN, which `BigDecimal`
      rejects with a NumberFormatException. */
  function FlexCalcSize(amount: real, signal: Signal, price: real, fractions: int, value: AssetValue): (r: Result<real>)
    ensures r.Err? <==> value(signal.asset, 1.0, price).value == 0.0
    ensures r.Err? ==> r.error == NumberFormat
  {
    var singleContractPrice := value(signal.asset, 1.0, price).value;
    if singleContractPrice == 0.0 then Err(NumberFormat)
    else Ok(TruncateDecimals(amount / singleContractPrice, fractions) * (signal.rating.Direction() as real))
  }

  /** The size is the quotient amount / contract price cut toward zero to
      the decimal grid: never larger in magnitude, less than one grid step
      short of it (for a signal with a direction), on the grid, and signed by
      the direction times the sign of the quotient: a negative amount, as
      from a negative equity, gives a size against the rating. */
  lemma FlexCalcSizeBounds(amount: real, signal: Signal, price: real, fractions: int, value: AssetValue)
    requires FlexCalcSize(amount, signal, price, fractions, value).Ok?
    ensures var size := FlexCalcSize(amount, signal, price, fractions, value).value;
      var q := amount / value(signal.asset, 1.0, price).value;
      && Abs(size) <= Abs(q)
      && (signal.rating.Direction() != 0 ==> Abs(q) < Abs(size) + Step(fractions))
      && OnGrid(size, fractions)
      && (signal.rating.Direction() == 0 ==> size == 0.0)
      && (q >= 0.0 && signal.rating.IsPositive() ==> size >= 0.0)
      && (q >= 0.0 && signal.rating.IsNegative() ==> size <= 0.0)
      && (q < 0.0 && signal.rating.IsPositive() ==> size <= 0.0)
      && (q < 0.0 && signal.rating.IsNegative() ==> size >= 0.0)
  {
    var q := amount / value(signal.asset, 1.0, price).value;
    var t := TruncateDecimals(q, fractions);
    TruncateDecimalsBounds(q, fractions);
    OnGridNegate(t, fractions);
    OnGridZero(fractions);
    var d := signal.rating.Direction();
    if d == 1 {
      assert t * (d as real) == t;
    } else if d == -1 {
      assert t * (d as real) == -t;
    } else {
      assert t * (d as real) == 0.0;
    }
  }

  lemma OnGridNegate(t: real, fractions: int)
    requires OnGrid(t, fractions)
    ensures OnGrid(-t, fractions)
  {
    WholeNegate(t, Scale(fractions));
  }

  lemma WholeNegate(t: real, s: real)
    requires Whole(t, s)
    ensures Whole(-t, s)
  {
    NegateProduct(t, s);
    var k := (t * s).Floor;
    assert (-(k as real)).Floor == -k;
  }

  lemma NegateProduct(t: real, s: real)
    ensures (-t) * s == -(t * s)
  {
  }

  lemma OnGridZero(fractions: int)
    ensures OnGrid(0.0, fractions)
  {
    var s := Scale(fractions);
    assert 0.0 * s == 0.0;
  }

  /** With a positive amount and contract price, the cost of the size, at
      the price of one contract, is at most the amount. */
  lemma FlexCalcSizeAffordable(amount: real, signal: Signal, price: real, fractions: int, value: AssetValue)
    requires amount >= 0.0 && value(signal.asset, 1.0, price).value > 0.0
    ensures FlexCalcSize(amount, signal, price, fractions, value).Ok?
    ensures Abs(FlexCalcSize(amount, signal, price, fractions, value).value) * value(signal.asset, 1.0, price).value <= amount
  {
    var scp := value(signal.asset, 1.0, price).value;
    var size := FlexCalcSize(amount, signal, price, fractions, value).value;
    FlexCalcSizeBounds(amount, signal, price, fractions, value);
    CostBound(Abs(size), amount, scp);
  }

  /** `a` at most amount / price costs at most the amount. */
  lemma CostBound(a: real, amount: real, price: real)
    requires price > 0.0 && amount >= 0.0 && a <= Abs(amount / price)
    ensures a * price <= amount
  {
    MulMono(0.0, amount / price, price);
    MulMono(a, amount / price, price);
    assert (amount / price) * price == amount;
  }

  /** Kotlin's `Double.toInt()`: truncation toward zero, clamped to the range
      of `Int` (NaN, which a real cannot be, would give 0). */
  function ToInt(x: real): (n: int)
    ensures INT_MIN <= n <= INT_MAX
    ensures 0.0 <= x ==> 0 <= n && n as real <= x && (n < INT_MAX ==> x < n as real + 1.0)
    ensures x <= 0.0 ==> n <= 0 && x <= n as real && (n > INT_MIN ==> n as real - 1.0 < x)
    ensures x >= INT_MAX as real ==> n == INT_MAX
    ensures x <= INT_MIN as real ==> n == INT_MIN
  {
    if x >= INT_MAX as real then INT_MAX
    else if x <= INT_MIN as real then INT_MIN
    else Trunc(x)
  }

  /** `Amount.convert(currency, time).value`: the value of an amount in
      another currency, which can fail (an unsupported conversion); the
      exchange rates are not part of this model. */
  type Convert = (Amount, Currency, Instant) -> Result<real>

  /** `BasePolicy.calcSize(amount, signal, price, time)`: the whole number of
      contracts the amount buys in the asset's currency, negated for a
      negative rating, and zero when there is no cash to spend. A contract
      price of zero makes the quotient +Infinity, which `toInt` clamps to
      Int.MAX_VALUE. */
  function BaseCalcSize(amount: Amount, signal: Signal, price: real, time: Instant,
                        value: AssetValue, convert: Convert): (r: Result<int>)
    ensures r.Err? <==> convert(amount, signal.asset.currency, time).Err?
  {
    var singleContractPrice := value(signal.asset, 1.0, price).value;
    match convert(amount, signal.asset.currency, time)
    case Err(e) => Err(e)
    case Ok(availableAssetCash) =>
      if availableAssetCash <= 0.0 then Ok(0)
      else
        var direction := if signal.rating.IsNegative() then -1 else 1;
        var contracts := if singleContractPrice == 0.0 then INT_MAX else ToInt(availableAssetCash / singleContractPrice);
        Ok(contracts * direction)
  }

  /** No cash gives no contracts; otherwise, at a positive contract price,
      the size is the largest whole number of contracts the cash pays for
      (up to Int.MAX_VALUE), negative exactly for a negative rating. */
  lemma BaseCalcSizeBounds(amount: Amount, signal: Signal, price: real, time: Instant,
                           value: AssetValue, convert: Convert)
    requires convert(amount, signal.asset.currency, time).Ok?
    ensures var size := BaseCalcSize(amount, signal, price, time, value, convert).value;
      var cash := convert(amount, signal.asset.currency, time).value;
      var scp := value(signal.asset, 1.0, price).value;
      && (cash <= 0.0 ==> size == 0)
      && (cash > 0.0 && scp == 0.0 ==> Abs(size as real) == INT_MAX as real)
      && (cash > 0.0 && scp > 0.0 ==>
            && (signal.rating.IsNegative() ==> size <= 0)
            && (!signal.rating.IsNegative() ==> size >= 0)
            && Abs(size as real) <= cash / scp
            && (Abs(size as real) < INT_MAX as real ==> cash / scp < Abs(size as real) + 1.0)
            && Abs(size as real) * scp <= cash)
  {
    var cash := convert(amount, signal.asset.currency, time).value;
    var scp := value(signal.asset, 1.0, price).value;
    if cash > 0.0 && scp > 0.0 {
      var q := cash / scp;
      assert q > 0.0 by {
        MulMono(0.0, q, scp);
        assert q * scp == cash;
      }
      TruncBounds(q);
      var n := ToInt(q);
      assert Abs(BaseCalcSize(amount, signal, price, time, value, convert).value as real) == n as real;
      CostBound(n as real, cash, scp);
    }
  }
}
