/** Policies turn the signals of a strategy into orders. `BasePolicy` keeps
    a map of recorded metrics; `FlexPolicy` sizes orders as a percentage of
    the account's equity, walking the signals in order with a running
    buying power and skipping a signal by a fixed list of rules.

    `Act` is the loop of `FlexPolicy.act`; `ActSpec` is what it computes,
    a left fold of `ActStep` over the signals, and the lemmas about
    `Run` and `ActSpec` are what the policy promises. */
module Policies {
  import opened Common
  import opened Orders
  import opened OrderStates
  import opened Events
  import opened Sizing

  /** The metrics store of `BasePolicy`. */
  class BasePolicy {
    const prefix: string
    var recording: bool
    var metrics: map<string, real>

    /** A new policy records nothing unless asked to, under the prefix "policy." by default. */
    constructor (prefix: string := "policy.", recording: bool := false)
      ensures this.prefix == prefix && this.recording == recording && metrics == map[]
    {
      this.prefix := prefix;
      this.recording := recording;
      metrics := map[];
    }

    /** `record(key, value)`: nothing happens unless recording is on; then the
        value is stored under the prefixed key, replacing an earlier one. */
    method Record(key: string, value: real)
      modifies this
      ensures recording == old(recording)
      ensures recording ==> metrics == old(metrics)[prefix + key := value]
      ensures !recording ==> metrics == old(metrics)
    {
      if !recording {
        return;
      }
      metrics := metrics[prefix + key := value];
    }

    /** `getMetrics()`: the metrics recorded so far, which are then forgotten. */
    method GetMetrics() returns (result: map<string, real>)
      modifies this
      ensures result == old(metrics) && metrics == map[]
      ensures recording == old(recording)
    {
      result := metrics;
      metrics := map[];
    }

    /** `reset()`: forgets every recorded metric. */
    method Reset()
      modifies this
      ensures metrics == map[] && recording == old(recording)
    {
      metrics := map[];
    }
  }

  /** Taking the metrics twice in a row gives an empty map the second time,
      and recording while not recording changes nothing. */
  method MetricsAreTakenOnce(policy: BasePolicy, key: string, value: real) returns (first: map<string, real>, second: map<string, real>)
    modifies policy
    ensures second == map[]
    ensures !old(policy.recording) ==> first == old(policy.metrics)
    ensures old(policy.recording) ==> first == old(policy.metrics)[policy.prefix + key := value]
  {
    policy.Record(key, value);
    first := policy.GetMetrics();
    second := policy.GetMetrics();
  }

  /** What a call of `createOrder` gives: the order, or `None` for no order
      at all, and the value of the order-id counter after the call. */
  datatype Created = Created(order: Option<Order>, nextId: int)

  /** The hook `FlexPolicy.createOrder(signal, size, price)`, which a
      subclass may override. The order-id counter `Order.ID` that the hook
      may draw ids from is passed in (its value before the call) and
      handed back (its value after). */
  type CreateOrder = (Signal, real, real, int) -> Created

  /** The default hook builds a market order for the signal's asset and the
      given size; the order's constructor draws its id with `nextId()`, so
      the id is the counter's value and the counter moves to its successor. */
  function DefaultCreateOrder(signal: Signal, size: real, price: real, nextId: int): (c: Created)
    ensures c.order.Some? && c.order.value.MarketOrder?
    ensures c.order.value.asset == signal.asset && c.order.value.size == size && c.order.value.tag == ""
    ensures c.order.value.id == nextId
    ensures INT_MIN <= nextId <= INT_MAX ==> c.nextId == IdsFrom(nextId, 2)[1]
  {
    Created(Some(MarketOrder(signal.asset, size, nextId)), Successor(nextId))
  }

  /** A hook that only ever creates orders for the signal's own asset. */
  ghost predicate KeepsAsset(hook: CreateOrder)
  {
    forall signal, size, price, id :: hook(signal, size, price, id).order.Some? ==> hook(signal, size, price, id).order.value.asset == signal.asset
  }

  /** A hook that, like the default one, always creates an order and draws
      exactly one id for it from the counter. */
  ghost predicate DrawsOneId(hook: CreateOrder)
  {
    forall signal, size, price, id :: hook(signal, size, price, id).order.Some? &&
      hook(signal, size, price, id).order.value.id == id && hook(signal, size, price, id).nextId == Successor(id)
  }

  lemma DefaultHookProperties()
    ensures KeepsAsset(DefaultCreateOrder)
    ensures DrawsOneId(DefaultCreateOrder)
  {
  }

  /** The configuration of a `FlexPolicy`: the `createOrder` hook (the
      default one unless a subclass overrides it) and the constructor's
      parameters; the safety margin defaults to the order percentage. */
  datatype FlexConfig = FlexConfig(
    createOrder: CreateOrder := DefaultCreateOrder,
    orderPercentage: real := 0.01,
    shorting: bool := false,
    priceType: string := "DEFAULT",
    fractions: int := 0,
    oneOrderOnly: bool := true,
    safetyMargin: real := orderPercentage)

  /** What `act` asks of other parts of the system: the value of a number of
      contracts, currency conversion and reading a price from a price action. */
  datatype Market = Market(value: AssetValue, convert: Convert, read: PriceReader)

  /** The part of the account snapshot the policy looks at. */
  datatype Account = Account(
    equityAmount: Amount,
    buyingPower: Amount,
    positions: map<Asset, Position>,
    openOrders: seq<OrderState>)

  function OrdersOf(states: seq<OrderState>): (orders: seq<Order>)
    ensures |orders| == |states|
    ensures forall i :: 0 <= i < |states| ==> orders[i] == states[i].order
  {
    seq(|states|, i requires 0 <= i < |states| => states[i].order)
  }

  /** `orders.addNotNull(order)`. */
  function AddNotNull(orders: seq<Order>, order: Option<Order>): (r: seq<Order>)
    ensures order.None? ==> r == orders
    ensures order.Some? ==> r == orders + [order.value]
  {
    if order.Some? then orders + [order.value] else orders
  }

  /** Everything `act` fixes before its loop. */
  datatype Context = Context(cfg: FlexConfig, market: Market, account: Account, event: Event, amountPerOrder: Amount)

  /** The variables of the loop: the orders so far, the running buying
      power, and the value of the order-id counter. */
  datatype Acc = Acc(orders: seq<Order>, buyingPower: Amount, nextId: int)

  /** `amountPerOrder`: the order percentage of the equity, in its currency. */
  function AmountPerOrder(cfg: FlexConfig, account: Account): (a: Amount)
    ensures a.currency == account.equityAmount.currency
    ensures account.equityAmount.value >= 0.0 && cfg.orderPercentage >= 0.0 ==> a.value >= 0.0
    ensures account.equityAmount.value < 0.0 && cfg.orderPercentage > 0.0 ==> a.value < 0.0
  {
    Amount(account.equityAmount.currency, account.equityAmount.value * cfg.orderPercentage)
  }

  /** The buying power at the start: the account's, less the safety margin
      of the equity. */
  function InitialBuyingPower(cfg: FlexConfig, account: Account): (bp: Amount)
    ensures bp.currency == account.buyingPower.currency
    ensures account.buyingPower.value >= account.equityAmount.value * cfg.safetyMargin <==> bp.value >= 0.0
    ensures account.equityAmount.value >= 0.0 && cfg.safetyMargin >= 0.0 ==> bp.value <= account.buyingPower.value
  {
    Amount(account.buyingPower.currency, account.buyingPower.value - account.equityAmount.value * cfg.safetyMargin)
  }

  /** One pass of the loop body of `act`, for one signal. */
  function ActStep(ctx: Context, acc: Acc, signal: Signal): (r: Result<Acc>)
    ensures r.Ok? ==> acc.orders <= r.value.orders && |r.value.orders| <= |acc.orders| + 1
    ensures r.Ok? ==> r.value.buyingPower.currency == acc.buyingPower.currency
  {
    var cfg := ctx.cfg;
    var asset := signal.asset;
    if cfg.oneOrderOnly && (Contains(OrdersOf(ctx.account.openOrders), asset) || Contains(acc.orders, asset)) then Ok(acc)
    else
      match GetPrice(ctx.event, asset, ctx.market.read, cfg.priceType)
      case None => Ok(acc)
      case Some(price) =>
        var position := GetPosition(ctx.account.positions, asset);
        if ReducedPositionSignal(position, signal) then
          var created := cfg.createOrder(signal, -position.size, price, acc.nextId);
          Ok(acc.(orders := AddNotNull(acc.orders, created.order), nextId := created.nextId))
        else if position.Open() || !signal.entry || ctx.amountPerOrder.value > acc.buyingPower.value then Ok(acc)
        else
          match ctx.market.convert(ctx.amountPerOrder, asset.currency, ctx.event.time)
          case Err(e) => Err(e)
          case Ok(assetAmount) =>
            match FlexCalcSize(assetAmount, signal, price, cfg.fractions, ctx.market.value)
            case Err(e) => Err(e)
            case Ok(size) =>
              if size == 0.0 || (size < 0.0 && !cfg.shorting) then Ok(acc)
              else
                var created := cfg.createOrder(signal, size, price, acc.nextId);
                match created.order
                case None => Ok(acc.(nextId := created.nextId))
                case Some(order) =>
                  var assetValue := ctx.market.value(asset, size, price);
                  match ctx.market.convert(Amount(assetValue.currency, Abs(assetValue.value)), acc.buyingPower.currency, ctx.event.time)
                  case Err(e) => Err(e)
                  case Ok(exposure) =>
                    Ok(Acc(acc.orders + [order], Amount(acc.buyingPower.currency, acc.buyingPower.value - exposure), created.nextId))
  }

  /** The loop of `act` over `signals`, from the state `start`; the first
      exception ends it. */
  function Run(ctx: Context, start: Acc, signals: seq<Signal>): (r: Result<Acc>)
    ensures r.Ok? ==> start.orders <= r.value.orders && |r.value.orders| <= |start.orders| + |signals|
    ensures r.Ok? ==> r.value.buyingPower.currency == start.buyingPower.currency
    decreases |signals|
  {
    if signals == [] then Ok(start)
    else
      match Run(ctx, start, signals[..|signals| - 1])
      case Err(e) => Err(e)
      case Ok(acc) => ActStep(ctx, acc, signals[|signals| - 1])
  }

  /** The context `act` fixes for the account and the event. */
  function ActContext(cfg: FlexConfig, market: Market, account: Account, event: Event): Context
  {
    Context(cfg, market, account, event, AmountPerOrder(cfg, account))
  }

  /** The state the loop of `act` starts from, with the counter at `startId`. */
  function ActStart(cfg: FlexConfig, account: Account, startId: int): Acc
  {
    Acc([], InitialBuyingPower(cfg, account), startId)
  }

  /** `FlexPolicy.act(signals, account, event)`, with the order-id counter at
      `startId`: the orders for the signals. */
  function ActSpec(cfg: FlexConfig, market: Market, signals: seq<Signal>, account: Account, event: Event, startId: int): (r: Result<seq<Order>>)
    ensures |signals| == 0 ==> r == Ok([])
  {
    if |signals| == 0 then Ok([])
    else
      match Run(ActContext(cfg, market, account, event), ActStart(cfg, account, startId), signals)
      case Err(e) => Err(e)
      case Ok(acc) => Ok(acc.orders)
  }

  /** The value of the order-id counter after a call of `act` that returns
      normally. */
  function ActCounter(cfg: FlexConfig, market: Market, signals: seq<Signal>, account: Account, event: Event, startId: int): int
    requires ActSpec(cfg, market, signals, account, event, startId).Ok?
  {
    if |signals| == 0 then startId
    else Run(ActContext(cfg, market, account, event), ActStart(cfg, account, startId), signals).value.nextId
  }

  /** Running over one more signal is one more step. */
  lemma RunNext(ctx: Context, start: Acc, signals: seq<Signal>, i: int)
    requires 0 <= i < |signals|
    ensures Run(ctx, start, signals[..i + 1]) ==
      match Run(ctx, start, signals[..i])
      case Err(e) => Err(e)
      case Ok(acc) => ActStep(ctx, acc, signals[i])
  {
    assert signals[..i + 1][..i] == signals[..i];
  }

  /** An exception on a prefix of the signals is the exception of the whole call. */
  lemma {:induction false} RunErrPropagates(ctx: Context, start: Acc, signals: seq<Signal>, i: int)
    requires 0 <= i <= |signals|
    requires Run(ctx, start, signals[..i]).Err?
    ensures Run(ctx, start, signals) == Run(ctx, start, signals[..i])
    decreases |signals| - i
  {
    if i == |signals| {
      assert signals[..i] == signals;
    } else {
      RunNext(ctx, start, signals, i);
      RunErrPropagates(ctx, start, signals, i + 1);
    }
  }

  /** Orders appear in signal order: the orders made for a prefix of the
      signals are a prefix of the orders made for all of them, and the
      loop only ever appends. */
  lemma {:induction false} RunPrefix(ctx: Context, start: Acc, signals: seq<Signal>, i: int)
    requires 0 <= i <= |signals|
    requires Run(ctx, start, signals).Ok?
    ensures Run(ctx, start, signals[..i]).Ok?
    ensures start.orders <= Run(ctx, start, signals[..i]).value.orders <= Run(ctx, start, signals).value.orders
    ensures |Run(ctx, start, signals).value.orders| <= |start.orders| + |signals|
    decreases |signals|
  {
    if signals == [] {
      assert signals[..i] == signals;
    } else {
      var n := |signals| - 1;
      var init := signals[..n];
      if Run(ctx, start, init).Err? {
        assert false;
      }
      RunPrefix(ctx, start, init, if i <= n then i else n);
      var acc := Run(ctx, start, init).value;
      assert Run(ctx, start, signals) == ActStep(ctx, acc, signals[n]);
      if i <= n {
        assert init[..i] == signals[..i];
      } else {
        assert signals[..i] == signals;
      }
    }
  }

  /** No two orders are for the same asset. */
  ghost predicate DistinctAssets(orders: seq<Order>)
  {
    forall i, j :: 0 <= i < j < |orders| ==> orders[i].asset != orders[j].asset
  }

  /** No order is for an asset that already has an open order. */
  ghost predicate NoneOpen(orders: seq<Order>, open: seq<Order>)
  {
    forall i :: 0 <= i < |orders| ==> !Contains(open, orders[i].asset)
  }

  /** With `oneOrderOnly` and a hook that keeps the signal's asset, a step
      adds no order for an asset that already has one. */
  lemma StepOneOrderPerAsset(ctx: Context, acc: Acc, signal: Signal)
    requires ctx.cfg.oneOrderOnly && KeepsAsset(ctx.cfg.createOrder)
    requires DistinctAssets(acc.orders) && NoneOpen(acc.orders, OrdersOf(ctx.account.openOrders))
    requires ActStep(ctx, acc, signal).Ok?
    ensures DistinctAssets(ActStep(ctx, acc, signal).value.orders)
    ensures NoneOpen(ActStep(ctx, acc, signal).value.orders, OrdersOf(ctx.account.openOrders))
  {
    var r := ActStep(ctx, acc, signal).value;
    if |r.orders| > |acc.orders| {
      assert r.orders == acc.orders + [r.orders[|acc.orders|]];
      assert r.orders[|acc.orders|].asset == signal.asset;
      assert !Contains(acc.orders, signal.asset);
      assert !Contains(OrdersOf(ctx.account.openOrders), signal.asset);
    } else {
      assert r.orders == acc.orders;
    }
  }

  lemma {:induction false} RunOneOrderPerAsset(ctx: Context, start: Acc, signals: seq<Signal>)
    requires ctx.cfg.oneOrderOnly && KeepsAsset(ctx.cfg.createOrder)
    requires DistinctAssets(start.orders) && NoneOpen(start.orders, OrdersOf(ctx.account.openOrders))
    requires Run(ctx, start, signals).Ok?
    ensures DistinctAssets(Run(ctx, start, signals).value.orders)
    ensures NoneOpen(Run(ctx, start, signals).value.orders, OrdersOf(ctx.account.openOrders))
    decreases |signals|
  {
    if signals != [] {
      var init := signals[..|signals| - 1];
      if Run(ctx, start, init).Err? {
        assert false;
      }
      RunOneOrderPerAsset(ctx, start, init);
      StepOneOrderPerAsset(ctx, Run(ctx, start, init).value, signals[|signals| - 1]);
    }
  }

  /** With `oneOrderOnly` and a hook that keeps the signal's asset, `act`
      makes at most one order per asset, and none for an asset that already
      has an open order. */
  lemma ActOneOrderPerAsset(cfg: FlexConfig, market: Market, signals: seq<Signal>, account: Account, event: Event, startId: int)
    requires cfg.oneOrderOnly && KeepsAsset(cfg.createOrder)
    requires ActSpec(cfg, market, signals, account, event, startId).Ok?
    ensures DistinctAssets(ActSpec(cfg, market, signals, account, event, startId).value)
    ensures forall i :: 0 <= i < |ActSpec(cfg, market, signals, account, event, startId).value| ==>
      !Contains(OrdersOf(account.openOrders), ActSpec(cfg, market, signals, account, event, startId).value[i].asset)
  {
    if |signals| > 0 {
      RunOneOrderPerAsset(ActContext(cfg, market, account, event), ActStart(cfg, account, startId), signals);
    }
  }

  /** Every order from position `from` on is for the asset of one of the
      `signals`, and that asset has a price in the event. */
  ghost predicate PricedFrom(ctx: Context, orders: seq<Order>, from: int, signals: seq<Signal>)
  {
    forall k :: 0 <= k < |orders| && from <= k ==>
      && GetPrice(ctx.event, orders[k].asset, ctx.market.read, ctx.cfg.priceType).Some?
      && exists j :: 0 <= j < |signals| && signals[j].asset == orders[k].asset
  }

  lemma {:induction false} RunOrdersPriced(ctx: Context, start: Acc, signals: seq<Signal>)
    requires KeepsAsset(ctx.cfg.createOrder)
    requires Run(ctx, start, signals).Ok?
    ensures PricedFrom(ctx, Run(ctx, start, signals).value.orders, |start.orders|, signals)
    decreases |signals|
  {
    if signals != [] {
      var n := |signals| - 1;
      var init := signals[..n];
      if Run(ctx, start, init).Err? {
        assert false;
      }
      RunOrdersPriced(ctx, start, init);
      RunPrefix(ctx, start, init, 0);
      var acc := Run(ctx, start, init).value;
      var r := Run(ctx, start, signals).value;
      assert r == ActStep(ctx, acc, signals[n]).value;
      forall k | |start.orders| <= k < |r.orders|
        ensures GetPrice(ctx.event, r.orders[k].asset, ctx.market.read, ctx.cfg.priceType).Some?
        ensures exists j :: 0 <= j < |signals| && signals[j].asset == r.orders[k].asset
      {
        if k < |acc.orders| {
          assert r.orders[k] == acc.orders[k];
          var j :| 0 <= j < |init| && init[j].asset == acc.orders[k].asset;
          assert signals[j] == init[j];
        } else {
          assert r.orders[k].asset == signals[n].asset;
        }
      }
    }
  }

  /** With a hook that keeps the signal's asset, every order `act` makes is
      for the asset of one of the signals, and that asset has a price in
      the event: a signal without a price gives no order. */
  lemma ActOrdersPriced(cfg: FlexConfig, market: Market, signals: seq<Signal>, account: Account, event: Event, startId: int)
    requires KeepsAsset(cfg.createOrder)
    requires ActSpec(cfg, market, signals, account, event, startId).Ok?
    ensures var orders := ActSpec(cfg, market, signals, account, event, startId).value;
      forall k :: 0 <= k < |orders| ==>
        && GetPrice(event, orders[k].asset, market.read, cfg.priceType).Some?
        && exists j :: 0 <= j < |signals| && signals[j].asset == orders[k].asset
  {
    if |signals| > 0 {
      RunOrdersPriced(ActContext(cfg, market, account, event), ActStart(cfg, account, startId), signals);
    }
  }

  /** The orders `act` makes for the first signals are the first of the
      orders it makes for all of them, and there is at most one per signal. */
  lemma ActInSignalOrder(cfg: FlexConfig, market: Market, signals: seq<Signal>, account: Account, event: Event, startId: int, i: int)
    requires 0 <= i <= |signals|
    requires ActSpec(cfg, market, signals, account, event, startId).Ok?
    ensures ActSpec(cfg, market, signals[..i], account, event, startId).Ok?
    ensures ActSpec(cfg, market, signals[..i], account, event, startId).value <= ActSpec(cfg, market, signals, account, event, startId).value
    ensures |ActSpec(cfg, market, signals, account, event, startId).value| <= |signals|
  {
    if |signals| > 0 {
      RunPrefix(ActContext(cfg, market, account, event), ActStart(cfg, account, startId), signals, i);
    }
  }

  /** A conversion that keeps non-negative amounts non-negative. */
  ghost predicate NonNegativeConversion(convert: Convert)
  {
    forall a: Amount, c: Currency, t: Instant :: a.value >= 0.0 && convert(a, c, t).Ok? ==> convert(a, c, t).value >= 0.0
  }

  /** Buying power is only ever spent: when conversion keeps non-negative
      amounts non-negative, the running buying power never grows and stays
      in its currency. */
  lemma {:induction false} RunBuyingPowerNonIncreasing(ctx: Context, start: Acc, signals: seq<Signal>)
    requires NonNegativeConversion(ctx.market.convert)
    requires Run(ctx, start, signals).Ok?
    ensures Run(ctx, start, signals).value.buyingPower.currency == start.buyingPower.currency
    ensures Run(ctx, start, signals).value.buyingPower.value <= start.buyingPower.value
    decreases |signals|
  {
    if signals != [] {
      var init := signals[..|signals| - 1];
      if Run(ctx, start, init).Err? {
        assert false;
      }
      RunBuyingPowerNonIncreasing(ctx, start, init);
      var acc := Run(ctx, start, init).value;
      var signal := signals[|signals| - 1];
      var r := ActStep(ctx, acc, signal).value;
      if r.buyingPower != acc.buyingPower {
        var price := GetPrice(ctx.event, signal.asset, ctx.market.read, ctx.cfg.priceType).value;
        var assetAmount := ctx.market.convert(ctx.amountPerOrder, signal.asset.currency, ctx.event.time).value;
        var size := FlexCalcSize(assetAmount, signal, price, ctx.cfg.fractions, ctx.market.value).value;
        var v := ctx.market.value(signal.asset, size, price);
        var exposure := Amount(v.currency, Abs(v.value));
        assert exposure.value >= 0.0;
        assert ctx.market.convert(exposure, acc.buyingPower.currency, ctx.event.time).Ok?;
      }
    }
  }

  /** A conversion that hands back the amount's own value, as the
      single-currency exchange rates do for an account in one currency. */
  ghost predicate KeepsValue(convert: Convert)
  {
    forall a: Amount, c: Currency, t: Instant :: convert(a, c, t) == Ok(a.value)
  }

  /** An asset valuation that is linear in the size, as `Asset.value` is for
      the contract-based assets: size times the value of one contract. */
  ghost predicate LinearValue(value: AssetValue)
  {
    forall asset: Asset, size: real, price: real :: value(asset, size, price).value == size * value(asset, 1.0, price).value
  }

  /** Every asset with a price in the event has a positive contract value. */
  ghost predicate PricedPositively(ctx: Context)
  {
    forall asset: Asset :: GetPrice(ctx.event, asset, ctx.market.read, ctx.cfg.priceType).Some? ==>
      ctx.market.value(asset, 1.0, GetPrice(ctx.event, asset, ctx.market.read, ctx.cfg.priceType).value).value > 0.0
  }

  /** The magnitude of a size times a positive contract value. */
  lemma AbsScaled(size: real, scp: real)
    requires scp > 0.0
    ensures Abs(size * scp) == Abs(size) * scp
  {
    if size < 0.0 {
      assert size * scp < 0.0;
    } else {
      assert size * scp >= 0.0;
    }
  }

  /** One step never takes a non-negative buying power below zero when the
      amount per order is non-negative: an entry order needs the amount per
      order within the buying power, and its size is cut so that its
      exposure is within that amount. */
  lemma StepKeepsBuyingPowerNonNegative(ctx: Context, acc: Acc, signal: Signal)
    requires KeepsValue(ctx.market.convert) && LinearValue(ctx.market.value) && PricedPositively(ctx)
    requires ctx.amountPerOrder.value >= 0.0 && acc.buyingPower.value >= 0.0
    requires ActStep(ctx, acc, signal).Ok?
    ensures ActStep(ctx, acc, signal).value.buyingPower.value >= 0.0
  {
    var r := ActStep(ctx, acc, signal).value;
    if r.buyingPower != acc.buyingPower {
      var price := GetPrice(ctx.event, signal.asset, ctx.market.read, ctx.cfg.priceType).value;
      var scp := ctx.market.value(signal.asset, 1.0, price).value;
      assert scp > 0.0;
      var assetAmount := ctx.market.convert(ctx.amountPerOrder, signal.asset.currency, ctx.event.time).value;
      assert assetAmount == ctx.amountPerOrder.value;
      FlexCalcSizeAffordable(assetAmount, signal, price, ctx.cfg.fractions, ctx.market.value);
      var size := FlexCalcSize(assetAmount, signal, price, ctx.cfg.fractions, ctx.market.value).value;
      var v := ctx.market.value(signal.asset, size, price);
      assert v.value == size * scp;
      AbsScaled(size, scp);
      var exposure := Amount(v.currency, Abs(v.value));
      assert ctx.market.convert(exposure, acc.buyingPower.currency, ctx.event.time) == Ok(exposure.value);
      assert exposure.value <= ctx.amountPerOrder.value <= acc.buyingPower.value;
    }
  }

  /** The running buying power stays non-negative over a run that starts
      from a non-negative one. */
  lemma {:induction false} RunKeepsBuyingPowerNonNegative(ctx: Context, start: Acc, signals: seq<Signal>)
    requires KeepsValue(ctx.market.convert) && LinearValue(ctx.market.value) && PricedPositively(ctx)
    requires ctx.amountPerOrder.value >= 0.0 && start.buyingPower.value >= 0.0
    requires Run(ctx, start, signals).Ok?
    ensures Run(ctx, start, signals).value.buyingPower.value >= 0.0
    decreases |signals|
  {
    if signals != [] {
      var init := signals[..|signals| - 1];
      if Run(ctx, start, init).Err? {
        assert false;
      }
      RunKeepsBuyingPowerNonNegative(ctx, start, init);
      StepKeepsBuyingPowerNonNegative(ctx, Run(ctx, start, init).value, signals[|signals| - 1]);
    }
  }

  /** `act` never spends more than the account's buying power less the
      safety margin: for an account whose buying power covers the margin
      and whose equity is non-negative, the buying power left after the
      last signal is non-negative. */
  lemma ActBuyingPowerNonNegative(cfg: FlexConfig, market: Market, signals: seq<Signal>, account: Account, event: Event, startId: int)
    requires KeepsValue(market.convert) && LinearValue(market.value) && PricedPositively(ActContext(cfg, market, account, event))
    requires account.equityAmount.value >= 0.0 && cfg.orderPercentage >= 0.0
    requires account.buyingPower.value >= account.equityAmount.value * cfg.safetyMargin
    requires |signals| > 0 && ActSpec(cfg, market, signals, account, event, startId).Ok?
    ensures Run(ActContext(cfg, market, account, event), ActStart(cfg, account, startId), signals).Ok?
    ensures Run(ActContext(cfg, market, account, event), ActStart(cfg, account, startId), signals).value.buyingPower.value >= 0.0
  {
    var ctx := ActContext(cfg, market, account, event);
    var start := ActStart(cfg, account, startId);
    var initial := InitialBuyingPower(cfg, account);
    assert initial.value >= 0.0;
    assert start.buyingPower == initial;
    RunKeepsBuyingPowerNonNegative(ctx, start, signals);
  }

  /** With a hook that draws one id per order, a step either leaves the
      orders and the counter alone, or appends one order whose id is the
      counter's value and advances the counter once. */
  lemma StepDrawsIds(ctx: Context, acc: Acc, signal: Signal)
    requires DrawsOneId(ctx.cfg.createOrder)
    requires ActStep(ctx, acc, signal).Ok?
    ensures var r := ActStep(ctx, acc, signal).value;
      || (r.orders == acc.orders && r.nextId == acc.nextId)
      || (|r.orders| == |acc.orders| + 1 && r.orders == acc.orders + [r.orders[|acc.orders|]] && r.orders[|acc.orders|].id == acc.nextId && r.nextId == Successor(acc.nextId))
  {
  }

  /** The orders one run of the loop appends carry successive ids, and the
      counter ends one id past the last of them. */
  ghost predicate IdsFollow(orders: seq<Order>, from: int, startId: int, endId: int)
    requires 0 <= from <= |orders|
  {
    && (forall k :: from <= k < |orders| ==> orders[k].id == WrapInt(startId + (k - from)))
    && endId == WrapInt(startId + (|orders| - from))
  }

  lemma {:induction false} RunOrderIds(ctx: Context, start: Acc, signals: seq<Signal>)
    requires DrawsOneId(ctx.cfg.createOrder)
    requires INT_MIN <= start.nextId <= INT_MAX
    requires Run(ctx, start, signals).Ok?
    ensures |start.orders| <= |Run(ctx, start, signals).value.orders|
    ensures IdsFollow(Run(ctx, start, signals).value.orders, |start.orders|, start.nextId, Run(ctx, start, signals).value.nextId)
    decreases |signals|
  {
    if signals == [] {
      assert start.nextId + 0 == start.nextId;
    } else {
      var init := signals[..|signals| - 1];
      if Run(ctx, start, init).Err? {
        assert false;
      }
      RunOrderIds(ctx, start, init);
      var acc := Run(ctx, start, init).value;
      var signal := signals[|signals| - 1];
      assert Run(ctx, start, signals) == ActStep(ctx, acc, signal);
      StepDrawsIds(ctx, acc, signal);
      IdsFollowStep(acc, ActStep(ctx, acc, signal).value, |start.orders|, start.nextId);
    }
  }

  /** Keeping the orders and the counter, or appending one order with the
      counter's id and advancing the counter, keeps the ids successive. */
  lemma IdsFollowStep(acc: Acc, r: Acc, from: int, startId: int)
    requires 0 <= from <= |acc.orders|
    requires IdsFollow(acc.orders, from, startId, acc.nextId)
    requires || (r.orders == acc.orders && r.nextId == acc.nextId)
             || (|r.orders| == |acc.orders| + 1 && r.orders == acc.orders + [r.orders[|acc.orders|]] && r.orders[|acc.orders|].id == acc.nextId && r.nextId == Successor(acc.nextId))
    ensures IdsFollow(r.orders, from, startId, r.nextId)
  {
    if r.orders != acc.orders {
      WrapShift(startId + (|acc.orders| - from), 1);
      assert startId + (|acc.orders| - from) + 1 == startId + (|r.orders| - from);
    }
  }

  /** With a hook that draws one id per order, as the default one does,
      the orders of one `act` call carry the ids that successive calls of
      `nextId()` hand out, the counter advances once per order, and so no
      two of the orders share an id. */
  lemma ActOrderIds(cfg: FlexConfig, market: Market, signals: seq<Signal>, account: Account, event: Event, startId: int)
    requires DrawsOneId(cfg.createOrder)
    requires INT_MIN <= startId <= INT_MAX
    requires ActSpec(cfg, market, signals, account, event, startId).Ok?
    ensures var orders := ActSpec(cfg, market, signals, account, event, startId).value;
      forall k :: 0 <= k < |orders| ==> orders[k].id == IdsFrom(startId, |orders|)[k]
    ensures var orders := ActSpec(cfg, market, signals, account, event, startId).value;
      ActCounter(cfg, market, signals, account, event, startId) == WrapInt(startId + |orders|)
    ensures var orders := ActSpec(cfg, market, signals, account, event, startId).value;
      |orders| <= INT_RANGE ==> forall i, j :: 0 <= i < j < |orders| ==> orders[i].id != orders[j].id
  {
    if |signals| > 0 {
      RunOrderIds(ActContext(cfg, market, account, event), ActStart(cfg, account, startId), signals);
    } else {
      assert startId + 0 == startId;
    }
    IdsFollowCounter(ActSpec(cfg, market, signals, account, event, startId).value, startId);
  }

  /** Orders with successive ids from `startId` carry the ids `nextId()`
      hands out from there, which are distinct for up to 2^32 orders. */
  lemma IdsFollowCounter(orders: seq<Order>, startId: int)
    requires INT_MIN <= startId <= INT_MAX
    requires forall k :: 0 <= k < |orders| ==> orders[k].id == WrapInt(startId + k)
    ensures forall k :: 0 <= k < |orders| ==> orders[k].id == IdsFrom(startId, |orders|)[k]
    ensures |orders| <= INT_RANGE ==> forall i, j :: 0 <= i < j < |orders| ==> orders[i].id != orders[j].id
  {
    forall k | 0 <= k < |orders|
      ensures orders[k].id == IdsFrom(startId, |orders|)[k]
    {
      IdsFromAt(startId, |orders|, k);
    }
    if |orders| <= INT_RANGE {
      IdsDistinct(startId, |orders|);
    }
  }

  /** A step that adds no order spends no buying power. */
  lemma StepNoOrderNoSpend(ctx: Context, acc: Acc, signal: Signal)
    requires ActStep(ctx, acc, signal).Ok?
    requires |ActStep(ctx, acc, signal).value.orders| == |acc.orders|
    ensures ActStep(ctx, acc, signal).value.buyingPower == acc.buyingPower
  {
  }

  /** The skip rules for a signal that gets past the one-order check, has a
      price and does not reduce its position: it is skipped when the
      position is already open, when it may not enter, when the amount per
      order exceeds the running buying power, when its size is zero, and
      when its size is negative while shorting is off. */
  lemma StepSkipRules(ctx: Context, acc: Acc, signal: Signal)
    requires !(ctx.cfg.oneOrderOnly && (Contains(OrdersOf(ctx.account.openOrders), signal.asset) || Contains(acc.orders, signal.asset)))
    requires GetPrice(ctx.event, signal.asset, ctx.market.read, ctx.cfg.priceType).Some?
    requires !ReducedPositionSignal(GetPosition(ctx.account.positions, signal.asset), signal)
    ensures var position := GetPosition(ctx.account.positions, signal.asset);
      position.Open() || !signal.entry || ctx.amountPerOrder.value > acc.buyingPower.value ==>
        ActStep(ctx, acc, signal) == Ok(acc)
    ensures var price := GetPrice(ctx.event, signal.asset, ctx.market.read, ctx.cfg.priceType).value;
      var assetAmount := ctx.market.convert(ctx.amountPerOrder, signal.asset.currency, ctx.event.time);
      var size := if assetAmount.Ok? then FlexCalcSize(assetAmount.value, signal, price, ctx.cfg.fractions, ctx.market.value) else Err(assetAmount.error);
      size.Ok? && (size.value == 0.0 || (size.value < 0.0 && !ctx.cfg.shorting)) ==>
        ActStep(ctx, acc, signal) == Ok(acc)
  {
  }

  /** An order for a signal that does not reduce its position is only made
      when the position is flat, the signal may enter, the amount per order
      is within the running buying power and the size is allowed; the
      buying power then drops by the converted exposure. */
  lemma StepEntryOrder(ctx: Context, acc: Acc, signal: Signal)
    requires ActStep(ctx, acc, signal).Ok?
    requires |ActStep(ctx, acc, signal).value.orders| > |acc.orders|
    requires !ReducedPositionSignal(GetPosition(ctx.account.positions, signal.asset), signal)
    ensures !GetPosition(ctx.account.positions, signal.asset).Open() && signal.entry
    ensures ctx.amountPerOrder.value <= acc.buyingPower.value
    ensures var price := GetPrice(ctx.event, signal.asset, ctx.market.read, ctx.cfg.priceType).value;
      var assetAmount := ctx.market.convert(ctx.amountPerOrder, signal.asset.currency, ctx.event.time).value;
      var size := FlexCalcSize(assetAmount, signal, price, ctx.cfg.fractions, ctx.market.value).value;
      var v := ctx.market.value(signal.asset, size, price);
      var exposure := ctx.market.convert(Amount(v.currency, Abs(v.value)), acc.buyingPower.currency, ctx.event.time).value;
      var created := ctx.cfg.createOrder(signal, size, price, acc.nextId);
      && size != 0.0 && (size > 0.0 || ctx.cfg.shorting)
      && ActStep(ctx, acc, signal).value ==
           Acc(acc.orders + [created.order.value],
               Amount(acc.buyingPower.currency, acc.buyingPower.value - exposure),
               created.nextId)
  {
  }

  /** A signal that reduces its position (and gets past the one-order
      check, with a price) closes the position whatever the buying power:
      the order is the hook's order for minus the position's size, and the
      buying power does not change. */
  lemma StepReducing(ctx: Context, acc: Acc, signal: Signal)
    requires !(ctx.cfg.oneOrderOnly && (Contains(OrdersOf(ctx.account.openOrders), signal.asset) || Contains(acc.orders, signal.asset)))
    requires GetPrice(ctx.event, signal.asset, ctx.market.read, ctx.cfg.priceType).Some?
    requires ReducedPositionSignal(GetPosition(ctx.account.positions, signal.asset), signal)
    ensures var price := GetPrice(ctx.event, signal.asset, ctx.market.read, ctx.cfg.priceType).value;
      var position := GetPosition(ctx.account.positions, signal.asset);
      var created := ctx.cfg.createOrder(signal, -position.size, price, acc.nextId);
      ActStep(ctx, acc, signal) ==
        Ok(Acc(AddNotNull(acc.orders, created.order), acc.buyingPower, created.nextId))
    ensures var position := GetPosition(ctx.account.positions, signal.asset);
      position.Open() && position.size * (signal.rating.Direction() as real) < 0.0
  {
  }

  /** A signal for an asset without a price in the event, or one stopped by
      the one-order check, leaves everything as it was. */
  lemma StepWithoutPrice(ctx: Context, acc: Acc, signal: Signal)
    requires GetPrice(ctx.event, signal.asset, ctx.market.read, ctx.cfg.priceType).None? ||
      (ctx.cfg.oneOrderOnly && (Contains(OrdersOf(ctx.account.openOrders), signal.asset) || Contains(acc.orders, signal.asset)))
    ensures ActStep(ctx, acc, signal) == Ok(acc)
  {
  }

  /** `FlexPolicy`: the sizing configuration and, as its base, the metrics store. */
  class FlexPolicy {
    const config: FlexConfig
    const base: BasePolicy

    constructor (config: FlexConfig, recording: bool := false)
      ensures this.config == config && fresh(base)
      ensures base.prefix == "policy." && base.recording == recording && base.metrics == map[]
    {
      this.config := config;
      base := new BasePolicy("policy.", recording);
    }

    /** The body of the loop of `act` for one signal: the orders and the
        buying power after it, or the exception it raises. Each early
        return is a `continue` of the loop. */
    method ActOnSignal(signal: Signal, account: Account, event: Event, market: Market, amountPerOrder: Amount,
                       orders: seq<Order>, buyingPower: Amount, nextId: int) returns (r: Result<Acc>)
      ensures r == ActStep(Context(config, market, account, event, amountPerOrder), Acc(orders, buyingPower, nextId), signal)
    {
      var asset := signal.asset;
      if config.oneOrderOnly && (Contains(OrdersOf(account.openOrders), asset) || Contains(orders, asset)) {
        return Ok(Acc(orders, buyingPower, nextId));
      }
      var price := GetPrice(event, asset, market.read, config.priceType);
      if price.None? {
        return Ok(Acc(orders, buyingPower, nextId));
      }
      var position := GetPosition(account.positions, asset);
      if ReducedPositionSignal(position, signal) {
        var created := config.createOrder(signal, -position.size, price.value, nextId);
        return Ok(Acc(AddNotNull(orders, created.order), buyingPower, created.nextId));
      }
      if position.Open() {
        return Ok(Acc(orders, buyingPower, nextId));
      }
      if !signal.entry {
        return Ok(Acc(orders, buyingPower, nextId));
      }
      if amountPerOrder.value > buyingPower.value {
        return Ok(Acc(orders, buyingPower, nextId));
      }
      var assetAmount := market.convert(amountPerOrder, asset.currency, event.time);
      if assetAmount.Err? {
        return Err(assetAmount.error);
      }
      var size := FlexCalcSize(assetAmount.value, signal, price.value, config.fractions, market.value);
      if size.Err? {
        return Err(size.error);
      }
      if size.value == 0.0 {
        return Ok(Acc(orders, buyingPower, nextId));
      }
      if size.value < 0.0 && !config.shorting {
        return Ok(Acc(orders, buyingPower, nextId));
      }
      var created := config.createOrder(signal, size.value, price.value, nextId);
      if created.order.None? {
        return Ok(Acc(orders, buyingPower, created.nextId));
      }
      var assetExposure := market.value(asset, size.value, price.value);
      var exposure := market.convert(Amount(assetExposure.currency, Abs(assetExposure.value)), buyingPower.currency, event.time);
      if exposure.Err? {
        return Err(exposure.error);
      }
      return Ok(Acc(orders + [created.order.value], Amount(buyingPower.currency, buyingPower.value - exposure.value), created.nextId));
    }

    /** `act(signals, account, event)`: the orders for the signals, as
        `ActSpec` says, with `counter` the companion object's order-id
        counter that `createOrder` draws ids from. After a normal return the
        counter has the value `ActCounter` gives; with a hook that draws one
        id per order, the counter stays an `Int` whatever happens. After a call with signals
        that returns normally, the number of signals and of orders are
        recorded (under the keys "policy.signals" and "policy.orders", which
        `record` prefixes once more). */
    method Act(signals: seq<Signal>, account: Account, event: Event, market: Market, counter: IdCounter) returns (r: Result<seq<Order>>)
      requires counter.Valid()
      modifies base, counter
      ensures DrawsOneId(config.createOrder) ==> counter.Valid()
      ensures r == ActSpec(config, market, signals, account, event, old(counter.id))
      ensures r.Ok? ==> counter.id == ActCounter(config, market, signals, account, event, old(counter.id))
      ensures base.recording == old(base.recording)
      ensures base.recording && |signals| > 0 && r.Ok? ==>
        base.metrics == old(base.metrics)[base.prefix + "policy.signals" := |signals| as real]
                                         [base.prefix + "policy.orders" := |r.value| as real]
      ensures !(base.recording && |signals| > 0 && r.Ok?) ==> base.metrics == old(base.metrics)
    {
      if |signals| == 0 {
        return Ok([]);
      }
      var orders: seq<Order> := [];
      var equityAmount := account.equityAmount;
      var amountPerOrder := Amount(equityAmount.currency, equityAmount.value * config.orderPercentage);
      var safetyAmount := Amount(equityAmount.currency, equityAmount.value * config.safetyMargin);
      var buyingPower := Amount(account.buyingPower.currency, account.buyingPower.value - safetyAmount.value);
      ghost var ctx := Context(config, market, account, event, amountPerOrder);
      ghost var start := Acc([], buyingPower, counter.id);
      assert ctx == ActContext(config, market, account, event);
      assert start == ActStart(config, account, old(counter.id));

      for i := 0 to |signals|
        invariant Run(ctx, start, signals[..i]) == Ok(Acc(orders, buyingPower, counter.id))
        invariant base.recording == old(base.recording) && base.metrics == old(base.metrics)
        invariant DrawsOneId(config.createOrder) ==> counter.Valid()
      {
        RunNext(ctx, start, signals, i);
        var next := ActOnSignal(signals[i], account, event, market, amountPerOrder, orders, buyingPower, counter.id);
        if DrawsOneId(config.createOrder) && next.Ok? {
          StepDrawsIds(ctx, Acc(orders, buyingPower, counter.id), signals[i]);
        }
        if next.Err? {
          RunErrPropagates(ctx, start, signals, i + 1);
          return Err(next.error);
        }
        orders, buyingPower := next.value.orders, next.value.buyingPower;
        counter.id := next.value.nextId;
      }
      assert signals[..|signals|] == signals;
      base.Record("policy.signals", |signals| as real);
      base.Record("policy.orders", |orders| as real);
      r := Ok(orders);
    }
  }
}
