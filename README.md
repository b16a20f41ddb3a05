# roboquant trading-engine core in Dafny

This project models the decision-making core of roboquant, an algorithmic
trading engine. It covers these parts:

- **Order lifecycle** (`OrderStates`). An order state pairs an order with its
  status and with the times its execution opened and closed. `Copy` makes a
  transition (initial to accepted, open to closed) or returns the state
  unchanged. The status predicates are open, closed and aborted.
- **Order identity** (`Orders`). A process-wide id counter whose `NextId` is a
  post-increment of a 32-bit Kotlin `Int`, with the wrap-around written out.
  The module also has the query "does this collection hold an order for this
  asset".
- **Exchange rates** (`ExchangeRates`). The single-currency rate provider
  gives a rate of 1.0 for an amount in the target currency or of zero, and
  throws otherwise.
- **Events** (`Events`). An event holds a list of actions at one time. Its
  price map keeps the last price action per asset, price lookup goes through
  it, and events are ordered by time.
- **Timelines** (`Timelines`). Kotlin's `binarySearch` gives "latest not after"
  and "earliest not before". A timeline has a timeframe and can be split into
  chunks.
- **Timeseries** (`Timeseries`).
  - `correlation` aligns two timeseries with a two-pointer merge on equal
    timestamps.
  - The map variant computes one correlation per unordered pair of entries.
  - The Pearson coefficient itself is a parameter.
- **Sizing** (`Sizing`). Signals, ratings and positions.
  - The "reduced position" test.
  - `FlexPolicy.calcSize`: the quotient of amount and contract price, cut to
    a number of decimals toward zero and signed by the rating.
  - `BasePolicy.calcSize`: whole contracts, clamped like `Double.toInt()`.
- **Policies** (`Policies`).
  - `BasePolicy` is a class with a mutable metrics map. Its methods are
    record, get-and-clear and reset.
  - `FlexPolicy.act` is an imperative loop over the signals with a running
    buying power. The `createOrder` hook draws order ids from the shared
    counter, which the loop threads through.
  - The loop is proved equal to `ActSpec`, a left fold of `ActStep`. The
    promises of the policy are lemmas about that fold:
    - one order per asset;
    - only priced assets;
    - signal order;
    - the skip rules;
    - reducing signals;
    - buying power that only decreases;
    - successive, distinct order ids under the default hook.

Prices, amounts and sizes are real numbers. Instants are integer nanoseconds
within the bounds of `java.time.Instant`. Where the code throws, the model
returns `Err` of a `Result`.

Collaborators whose code is not part of this model are function-typed
parameters:
- the value of a number of contracts (`Asset.value`);
- currency conversion (`Amount.convert`);
- reading a price from a price action;
- the `createOrder` hook, by default `Policies.DefaultCreateOrder`;
- the Pearson computation.

`FlexPolicy.act` records its metrics under the keys "policy.signals" and
"policy.orders", which `record` prefixes once more with "policy.". The model
keeps this as written: the metrics end up under "policy.policy.signals" and
"policy.policy.orders".

## Model

| member | source | states |
|---|---|---|
| Orders.IdCounter.constructor | roboquant/src/main/kotlin/org/roboquant/orders/Order.kt:48 | the order id counter starts at 0 |
| Orders.IdCounter.NextId | roboquant/src/main/kotlin/org/roboquant/orders/Order.kt:53-56 | returns the counter's current value and advances it by one, wrapping like a Kotlin `Int` |
| Orders.WrapInt | roboquant/src/main/kotlin/org/roboquant/orders/Order.kt:55 | 32-bit wrap-around: the result is an `Int`, in-range values are unchanged, and Int.MAX_VALUE + 1 becomes Int.MIN_VALUE |
| Orders.IdsFrom | roboquant/src/main/kotlin/org/roboquant/orders/Order.kt:53-56 | n successive calls of `nextId()` give n ids, the first being the counter's value, all within the range of `Int` |
| Orders.IdsFromAt | roboquant/src/main/kotlin/org/roboquant/orders/Order.kt:53-56 | the k-th id handed out is the starting counter plus k, wrapped to 32 bits |
| Orders.IdsIncreasing | roboquant/src/main/kotlin/org/roboquant/orders/Order.kt:53-56 | successive ids strictly increase as long as the counter does not pass Int.MAX_VALUE |
| Orders.IdsDistinct | roboquant/src/main/kotlin/org/roboquant/orders/Order.kt:53-56 | any 2^32 successive ids are pairwise distinct, even across the wrap-around |
| Orders.Contains | roboquant/src/main/kotlin/org/roboquant/orders/Order.kt:84 | true exactly when some order in the collection is for the asset |
| Orders.ContainsAppend | roboquant/src/main/kotlin/org/roboquant/orders/Order.kt:84 | no empty collection contains an order for any asset; appending an order adds exactly its asset |
| OrderStates.StatusClassification | roboquant/src/main/kotlin/org/roboquant/orders/OrderState.kt:136-150 | every status is open or closed but never both; aborted implies closed; closed means aborted or completed; open means initial or accepted |
| OrderStates.OrderStatus.Aborted | roboquant/src/main/kotlin/org/roboquant/orders/OrderState.kt:136-137 | an aborted status is neither initial, accepted nor completed |
| OrderStates.OrderStatus.Closed | roboquant/src/main/kotlin/org/roboquant/orders/OrderState.kt:143-144 | a status is closed exactly when it is aborted or completed |
| OrderStates.OrderStatus.Open | roboquant/src/main/kotlin/org/roboquant/orders/OrderState.kt:149-150 | a status is open exactly when it is not closed |
| OrderStates.NewStateIsInitial | roboquant/src/main/kotlin/org/roboquant/orders/OrderState.kt:37-42 | a new state is initial and open, with openedAt = Instant.MIN and closedAt = Instant.MAX, and its timestamps are consistent |
| OrderStates.OrderState.Copy | roboquant/src/main/kotlin/org/roboquant/orders/OrderState.kt:71-80 | keeps the order, so also its asset and id; the result has the requested status or is the state itself |
| OrderStates.CopyAccepts | roboquant/src/main/kotlin/org/roboquant/orders/OrderState.kt:72-73 | accepting an initial state gives Accepted, opened at t and not yet closed; Accepted is the default request |
| OrderStates.CopyCloses | roboquant/src/main/kotlin/org/roboquant/orders/OrderState.kt:74-76 | closing an open state gives the closed status with closedAt = t; openedAt becomes t only if it was still Instant.MIN, otherwise it stays |
| OrderStates.CopyOtherwiseUnchanged | roboquant/src/main/kotlin/org/roboquant/orders/OrderState.kt:77-78 | every other request returns the same state |
| OrderStates.ClosedIsAbsorbing | roboquant/src/main/kotlin/org/roboquant/orders/OrderState.kt:74-78 | no request changes a closed state |
| OrderStates.CopyFollowsLifecycle | roboquant/src/main/kotlin/org/roboquant/orders/OrderState.kt:84-92 | the status after `Copy` is the old status, Accepted after Initial, or a closed status after an open one |
| OrderStates.CopyIdempotent | roboquant/src/main/kotlin/org/roboquant/orders/OrderState.kt:71-80 | making the same request twice gives the same state as making it once |
| OrderStates.CopyValid | roboquant/src/main/kotlin/org/roboquant/orders/OrderState.kt:71-80 | `Copy` keeps the timestamps consistent with the status and never overwrites a recorded opening or closing time |
| OrderStates.ReplayInTimeOrder | roboquant/src/main/kotlin/org/roboquant/orders/OrderState.kt:71-80 | under updates in time order the state stays consistent, keeps its order, and never closes before it opened |
| OrderStates.FreshReplayInTimeOrder | roboquant/src/main/kotlin/org/roboquant/orders/OrderState.kt:37-80 | from a new state, updates in time order never give a closing time before the opening time |
| ExchangeRates.GetRate | roboquant/src/main/kotlin/org/roboquant/brokers/SingleCurrencyExchangeRates.kt:40-43 | a rate exists exactly when the amount is already in the target currency or is zero, and it is then 1.0; otherwise UnsupportedException |
| ExchangeRates.RateIsTimeless | roboquant/src/main/kotlin/org/roboquant/brokers/SingleCurrencyExchangeRates.kt:40-43 | the outcome does not depend on the time, and a returned rate leaves the amount's value unchanged |
| Events.Empty | roboquant/src/main/kotlin/org/roboquant/feeds/Event.kt:40 | an empty event has no actions and the given time |
| Events.Prices | roboquant/src/main/kotlin/org/roboquant/feeds/Event.kt:49-51 | every entry of the price map is a price action for its own key |
| Events.PricesLastWins | roboquant/src/main/kotlin/org/roboquant/feeds/Event.kt:47-51 | the price map has a key exactly for the assets with a price action, and each key maps to the last price action for that asset |
| Events.GetPrice | roboquant/src/main/kotlin/org/roboquant/feeds/Event.kt:59-61 | a price, when there is one, is read from some price action of the event for that asset |
| Events.GetPriceFromLastAction | roboquant/src/main/kotlin/org/roboquant/feeds/Event.kt:59-61 | `getPrice` is null exactly when no price action is for the asset, and otherwise reads the price from the last one |
| Events.EmptyHasNoPrice | roboquant/src/main/kotlin/org/roboquant/feeds/Event.kt:59-61 | an empty event has no price for any asset |
| Events.Compare | roboquant/src/main/kotlin/org/roboquant/feeds/Event.kt:67 | the sign of the comparison is the order of the two event times |
| Timelines.BinarySearchIn | roboquant-core/src/common/Timeline.kt:24 | the halving search over [low, high]: a non-negative result is an index in the range holding the time; a negative result r encodes an insertion point -r - 1 in [low, high + 1] |
| Timelines.BinarySearchInCorrect | roboquant-core/src/common/Timeline.kt:24-25 | on a sorted timeline, the halving search returns the index of an entry equal to the time, or minus one minus the insertion point, with every entry before that point earlier and every entry from it on later |
| Timelines.BinarySearchCorrect | roboquant-core/src/common/Timeline.kt:30-31 | the same, for a search over the whole timeline |
| Timelines.LatestNotAfter | roboquant-core/src/common/Timeline.kt:23-27 | a returned index is an index of the timeline |
| Timelines.EarliestNotBefore | roboquant-core/src/common/Timeline.kt:29-33 | a returned index is an index of the timeline |
| Timelines.LatestNotAfterCorrect | roboquant-core/src/common/Timeline.kt:23-27 | on a strictly increasing timeline, the result is the largest index whose entry is not after the time; it is null exactly when the timeline is empty or starts after the time |
| Timelines.EarliestNotBeforeCorrect | roboquant-core/src/common/Timeline.kt:29-33 | the result is the smallest index whose entry is not before the time; it is null exactly when the timeline is empty or ends before the time |
| Timelines.SearchesFindExactTime | roboquant-core/src/common/Timeline.kt:23-33 | a time on the timeline at index k is found at k by both searches |
| Timelines.TimeframeOf | roboquant-core/src/common/Timeline.kt:38-39 | throws exactly on an empty timeline |
| Timelines.TimeframeCoversTimeline | roboquant-core/src/common/Timeline.kt:38-39 | on a sorted non-empty timeline, every entry lies within the timeframe |
| Timelines.Split | roboquant-core/src/common/Timeline.kt:44-46 | throws exactly when the chunk size is not positive |
| Timelines.ChunksFrom | roboquant-core/src/common/Timeline.kt:44-46 | the entries from `from` on give no frames exactly when there are none |
| Timelines.ChunksFromEnds | roboquant-core/src/common/Timeline.kt:44-46 | the frames of the entries from `from` on start at that entry and end at the last entry |
| Timelines.Chunks | roboquant-core/src/common/Timeline.kt:44-46 | an empty timeline gives no frames; otherwise the frames run from the first entry to the last |
| Timelines.ChunksShape | roboquant-core/src/common/Timeline.kt:44-46 | a split gives ceil(len / size) frames; frame k runs from entry k*size to entry min(k*size + size, len) - 1 |
| Timelines.ChunksOrdered | roboquant-core/src/common/Timeline.kt:44-46 | on a strictly increasing timeline, each frame starts no later than it ends and ends before the next one starts |
| Timeseries.CompareObservations | roboquant/src/main/kotlin/org/roboquant/common/Timeserie.kt:34 | observations are compared by time only |
| Timeseries.ToDoubleArray | roboquant/src/main/kotlin/org/roboquant/common/Timeserie.kt:46 | the values of the timeserie, of the same length and in the same order |
| Timeseries.TimelineOf | roboquant/src/main/kotlin/org/roboquant/common/Timeserie.kt:107 | the times of the timeserie, of the same length and in the same order |
| Timeseries.TimelineOfOrdered | roboquant/src/main/kotlin/org/roboquant/common/Timeserie.kt:37-41 | the timeline of a well-formed timeserie is strictly increasing |
| Timeseries.MatchesFrom | roboquant/src/main/kotlin/org/roboquant/common/Timeserie.kt:58-72 | the alignment pairs lie within both series at or after the offsets, are pairs of observations at the same time, and are no more than the observations left in either series |
| Timeseries.MatchesFromIncreasing | roboquant/src/main/kotlin/org/roboquant/common/Timeserie.kt:58-72 | both indices of the aligned pairs strictly increase |
| Timeseries.MatchesFromComplete | roboquant/src/main/kotlin/org/roboquant/common/Timeserie.kt:58-72 | on well-formed series, every pair of observations at a common time at or after the offsets is aligned |
| Timeseries.MatchesExactlyCommonTimes | roboquant/src/main/kotlin/org/roboquant/common/Timeserie.kt:49-72 | on well-formed series, a pair is aligned exactly when both observations are at the same time, and the aligned pairs come in time order |
| Timeseries.AlignedValuesLengths | roboquant/src/main/kotlin/org/roboquant/common/Timeserie.kt:64-70 | the two collected value lists are equally long and no longer than either series |
| Timeseries.PearsonsCorrelation | roboquant/src/main/kotlin/org/roboquant/common/Timeserie.kt:74-76 | Commons Math's `correlation` throws exactly when given fewer than two values |
| Timeseries.CorrelationOf | roboquant/src/main/kotlin/org/roboquant/common/Timeserie.kt:52-80 | with `minObservations` 3 by default: IllegalArgument exactly when a series is empty; otherwise an exception exactly when at least minObservations but fewer than two times are aligned; NaN exactly when fewer than minObservations times are aligned |
| Timeseries.AlignValues | roboquant/src/main/kotlin/org/roboquant/common/Timeserie.kt:54-72 | the merge loop collects, in order, the values of both series at exactly the aligned pairs of equal times |
| Timeseries.Correlation | roboquant/src/main/kotlin/org/roboquant/common/Timeserie.kt:52-80 | the function computes `CorrelationOf`: it hands the Pearson computation the values at the aligned pairs, in order |
| Timeseries.MapCorrelation | roboquant/src/main/kotlin/org/roboquant/common/Timeserie.kt:86-102 | one key (x, y) for each pair of entries with x not after y in iteration order, and no (x, x) under excludeSame; each value is the correlation of the two timeseries; with the defaults 3 and true; throws exactly when the correlation of some needed pair throws, with that pair's exception; for `minObservations` of at least 2, throws exactly when a needed pair has an empty series, and then with IllegalArgument |
| Timeseries.FailingPairs | roboquant/src/main/kotlin/org/roboquant/common/Timeserie.kt:53 | for `minObservations` of at least 2, a needed pair fails exactly when one of its series is empty, and then with IllegalArgument |
| Timeseries.PairsDone | roboquant/src/main/kotlin/org/roboquant/common/Timeserie.kt:91-99 | when the loops finish, every needed pair has its key and so no needed pair failed |
| Timeseries.PairsAreUnordered | roboquant/src/main/kotlin/org/roboquant/common/Timeserie.kt:93-97 | no key (x, x) under excludeSame, and never both (x, y) and (y, x) |
| Sizing.Rating.Direction | roboquant/src/main/kotlin/org/roboquant/policies/FlexPolicy.kt:87 | +1 exactly for a positive rating, -1 exactly for a negative one |
| Sizing.GetPosition | roboquant/src/main/kotlin/org/roboquant/policies/FlexPolicy.kt:125 | the held position, or a closed position for an asset not held |
| Sizing.ReducedPositionSignal | roboquant/src/main/kotlin/org/roboquant/policies/FlexPolicy.kt:67-75 | true exactly when the position is open, the signal may exit, and the rating points against the position |
| Sizing.TruncateDecimals | roboquant/src/main/kotlin/org/roboquant/policies/FlexPolicy.kt:86 | the cut value is on the decimal grid and lies between zero and x |
| Sizing.TruncateDecimalsBounds | roboquant/src/main/kotlin/org/roboquant/policies/FlexPolicy.kt:86 | cutting to `fractions` decimals toward zero lands on the decimal grid, between zero and x, less than one step from x |
| Sizing.FlexCalcSize | roboquant/src/main/kotlin/org/roboquant/policies/FlexPolicy.kt:84-88 | NumberFormatException exactly when a single contract is worth zero |
| Sizing.FlexCalcSizeBounds | roboquant/src/main/kotlin/org/roboquant/policies/FlexPolicy.kt:84-88 | the size is on the grid and no larger in magnitude than q = amount / contract price; for a rated signal it is less than one grid step short of q; an unrated signal gives zero; the sign of the size is the rating's sign times the sign of q, so a negative amount (from a negative equity) gives a size against the rating |
| Sizing.FlexCalcSizeAffordable | roboquant/src/main/kotlin/org/roboquant/policies/FlexPolicy.kt:84-88 | for a non-negative amount and a positive contract price, the size costs at most the amount |
| Sizing.ToInt | roboquant/src/main/kotlin/org/roboquant/policies/BasePolicy.kt:78 | `Double.toInt()` truncates toward zero (never larger in magnitude, less than one short) and clamps to Int.MIN_VALUE and Int.MAX_VALUE |
| Sizing.BaseCalcSize | roboquant/src/main/kotlin/org/roboquant/policies/BasePolicy.kt:70-80 | throws exactly when converting the amount to the asset's currency throws |
| Sizing.BaseCalcSizeBounds | roboquant/src/main/kotlin/org/roboquant/policies/BasePolicy.kt:70-80 | no cash gives zero; a zero contract price gives Int.MAX_VALUE contracts; otherwise the size is the whole number of contracts the cash pays for, at most cash / price and (below Int.MAX_VALUE) less than one short of it, and negative only for a negative rating |
| Policies.BasePolicy.constructor | roboquant/src/main/kotlin/org/roboquant/policies/BasePolicy.kt:34-36 | by default the prefix is "policy.", recording is off, and there are no metrics |
| Policies.BasePolicy.Record | roboquant/src/main/kotlin/org/roboquant/policies/BasePolicy.kt:44-47 | with recording off, nothing changes; with it on, the value is stored under prefix + key, replacing any earlier value |
| Policies.BasePolicy.GetMetrics | roboquant/src/main/kotlin/org/roboquant/policies/BasePolicy.kt:52-56 | returns the recorded metrics and leaves none behind |
| Policies.BasePolicy.Reset | roboquant/src/main/kotlin/org/roboquant/policies/BasePolicy.kt:62-64 | forgets every metric |
| Policies.MetricsAreTakenOnce | roboquant/src/main/kotlin/org/roboquant/policies/BasePolicy.kt:44-56 | a second `getMetrics` right after the first returns an empty map; recording with recording off leaves the snapshot as it was |
| Policies.DefaultCreateOrder | roboquant/src/main/kotlin/org/roboquant/policies/FlexPolicy.kt:95-97 | the default hook makes a market order for the signal's asset with the given size and an empty tag; its id is the counter's value, and the counter moves on to the next id `nextId()` hands out |
| Policies.DefaultHookProperties | roboquant/src/main/kotlin/org/roboquant/policies/FlexPolicy.kt:95-97 | the default hook only makes orders for the signal's own asset, always makes one, and draws exactly one id for it |
| Policies.AddNotNull | roboquant/src/main/kotlin/org/roboquant/policies/FlexPolicy.kt:128 | a null order leaves the list as it is; an order is appended |
| Policies.AmountPerOrder | roboquant/src/main/kotlin/org/roboquant/policies/FlexPolicy.kt:108-109 | the amount per order is in the equity's currency; it is non-negative for a non-negative equity and percentage, and negative for a negative equity and a positive percentage |
| Policies.InitialBuyingPower | roboquant/src/main/kotlin/org/roboquant/policies/FlexPolicy.kt:108-111 | the starting buying power is in the account's buying-power currency; it is non-negative exactly when the account's buying power covers the safety margin of the equity, and it is no more than the account's buying power for a non-negative equity and margin |
| Policies.ActStep | roboquant/src/main/kotlin/org/roboquant/policies/FlexPolicy.kt:114-150 | one signal only appends, at most one order, and keeps the buying power's currency; the order-id counter goes through each `createOrder` call |
| Policies.ActSpec | roboquant/src/main/kotlin/org/roboquant/policies/FlexPolicy.kt:104-105 | no signals give no orders |
| Policies.Run | roboquant/src/main/kotlin/org/roboquant/policies/FlexPolicy.kt:114-150 | the loop only appends to the orders, at most one per signal, and keeps the buying power's currency |
| Policies.RunErrPropagates | roboquant/src/main/kotlin/org/roboquant/policies/FlexPolicy.kt:114-150 | an exception on some prefix of the signals is the exception of the whole call |
| Policies.RunPrefix | roboquant/src/main/kotlin/org/roboquant/policies/FlexPolicy.kt:114-150 | the orders for a prefix of the signals are a prefix of the orders for all of them, and there are at most as many new orders as signals |
| Policies.StepOneOrderPerAsset | roboquant/src/main/kotlin/org/roboquant/policies/FlexPolicy.kt:117 | with oneOrderOnly, a step adds no order for an asset that already has an order in this call or an open order |
| Policies.RunOneOrderPerAsset | roboquant/src/main/kotlin/org/roboquant/policies/FlexPolicy.kt:114-117 | the loop keeps the orders free of duplicate assets and of assets with open orders |
| Policies.ActOneOrderPerAsset | roboquant/src/main/kotlin/org/roboquant/policies/FlexPolicy.kt:117 | with oneOrderOnly, `act` makes at most one order per asset and none for an asset with an open order |
| Policies.RunOrdersPriced | roboquant/src/main/kotlin/org/roboquant/policies/FlexPolicy.kt:119-123 | every order the loop adds is for a signal's asset that has a price in the event |
| Policies.ActOrdersPriced | roboquant/src/main/kotlin/org/roboquant/policies/FlexPolicy.kt:119-123 | every order of `act` is for the asset of one of the signals, and that asset has a price in the event |
| Policies.ActInSignalOrder | roboquant/src/main/kotlin/org/roboquant/policies/FlexPolicy.kt:114-143 | orders come in signal order: the orders for the first signals are a prefix of the result, and there is at most one order per signal |
| Policies.StepKeepsBuyingPowerNonNegative | roboquant/src/main/kotlin/org/roboquant/policies/FlexPolicy.kt:131-144 | with conversion that keeps values, a value linear in the size, positive contract values and a non-negative amount per order, one signal never takes a non-negative buying power below zero: an order needs the amount per order within the buying power, and its exposure is within that amount |
| Policies.RunKeepsBuyingPowerNonNegative | roboquant/src/main/kotlin/org/roboquant/policies/FlexPolicy.kt:114-150 | under the same conditions, the loop keeps a non-negative buying power non-negative |
| Policies.ActBuyingPowerNonNegative | roboquant/src/main/kotlin/org/roboquant/policies/FlexPolicy.kt:104-154 | under the same conditions, for a non-negative equity and percentage and an account whose buying power covers the safety margin, `act` never spends more than the buying power less the margin: the buying power after the last signal is non-negative |
| Policies.RunBuyingPowerNonIncreasing | roboquant/src/main/kotlin/org/roboquant/policies/FlexPolicy.kt:139-144 | when conversion keeps non-negative amounts non-negative, the running buying power never grows and keeps its currency |
| Policies.StepSkipRules | roboquant/src/main/kotlin/org/roboquant/policies/FlexPolicy.kt:130-137 | a non-reducing signal changes nothing when any of these holds: the position is open, entry is off, the amount per order exceeds the buying power, the size is zero, or the size is negative with shorting off |
| Policies.StepEntryOrder | roboquant/src/main/kotlin/org/roboquant/policies/FlexPolicy.kt:130-146 | a non-reducing signal gets an order only when its position is flat, entry is on, the buying power covers the amount per order, and the size is allowed; the hook's order is appended and the buying power drops by the converted exposure |
| Policies.StepReducing | roboquant/src/main/kotlin/org/roboquant/policies/FlexPolicy.kt:125-128 | a reducing signal appends the hook's order for minus the position's size whatever the buying power, and leaves the buying power as it is |
| Policies.StepNoOrderNoSpend | roboquant/src/main/kotlin/org/roboquant/policies/FlexPolicy.kt:126-147 | a signal that adds no order leaves the buying power unchanged |
| Policies.StepDrawsIds | roboquant/src/main/kotlin/org/roboquant/policies/FlexPolicy.kt:127-143 | with a hook that draws one id per order, a step either leaves the orders and the counter alone, or appends one order carrying the counter's value and advances the counter once |
| Policies.IdsFollowStep | roboquant/src/main/kotlin/org/roboquant/policies/FlexPolicy.kt:139-144 | one such step keeps the appended orders' ids successive and the counter one past the last of them |
| Policies.RunOrderIds | roboquant/src/main/kotlin/org/roboquant/policies/FlexPolicy.kt:114-150 | the orders the loop appends carry successive ids from the counter's starting value, and the counter ends one past the last of them |
| Policies.IdsFollowCounter | roboquant/src/main/kotlin/org/roboquant/orders/Order.kt:53-56 | orders with successive ids from the counter carry the ids `nextId()` hands out, which are distinct for up to 2^32 orders |
| Policies.ActOrderIds | roboquant/src/main/kotlin/org/roboquant/policies/FlexPolicy.kt:95-97 | with a hook that draws one id per order, as the default one does, the orders of one `act` call carry the ids successive `nextId()` calls hand out, the counter advances once per order, and no two orders share an id |
| Policies.StepWithoutPrice | roboquant/src/main/kotlin/org/roboquant/policies/FlexPolicy.kt:117-123 | a signal with no price, or one stopped by the one-order rule, changes nothing |
| Policies.FlexPolicy.constructor | roboquant/src/main/kotlin/org/roboquant/policies/FlexPolicy.kt:49-56 | a policy with the given configuration and a new, empty metrics store under the "policy." prefix |
| Policies.FlexPolicy.ActOnSignal | roboquant/src/main/kotlin/org/roboquant/policies/FlexPolicy.kt:115-149 | the loop body for one signal computes `ActStep`, with each `continue` as an early return and the counter's value passed through `createOrder` |
| Policies.FlexPolicy.Act | roboquant/src/main/kotlin/org/roboquant/policies/FlexPolicy.kt:104-154 | returns `ActSpec`, the fold of the step over the signals, and after a normal return leaves the order-id counter at the value of the fold; with a hook that draws one id per order the counter stays an `Int`; after a call with signals that returns normally, the numbers of signals and orders are recorded if recording is on, and otherwise the metrics are unchanged |

## Left out

- Logging, `@Synchronized` on `nextId` (the counter is sequential here), and the lazy caching of `Event.prices`. They do not change any result.
- `Instant.now()` as the default time of `Event.empty`: the clock is left out, so `Events.Empty` takes the time as a parameter.
- Collaborators whose code is not part of this model are parameters with no properties assumed unless a lemma states one:
  - `Asset.value`;
  - `Amount.convert`;
  - `PriceAction.getPrice`;
  - the Pearson coefficient of Apache Commons Math. Its refusal of fewer than two values is modelled by `Timeseries.PearsonsCorrelation`.
- `Rating` and `Signal` are not part of this model. A rating is an integer whose sign gives `isPositive`, `isNegative` and `direction`.
- `Position` and `Account` are reduced to what the policy reads. `Account.openOrders` is a list of order states, and `contains` is asked of their orders.
- The `createOrder` hook is a function of the counter's value that returns the new value, rather than code that calls `Order.nextId()` itself. The order types other than market orders carry no size.
- `Policies.FlexPolicy.Act`: after an exception, the counter's value is not stated. The model keeps the advances of the signals before the failing one and drops the failing signal's own `createOrder` call, which in the code can happen before its exposure conversion throws.
- `Policies.ActOneOrderPerAsset` and `Policies.ActOrdersPriced` hold for a `createOrder` hook that builds orders for the signal's own asset, as the default one does. An overriding hook that switches assets can defeat the one-order rule.
- `Policies.RunBuyingPowerNonIncreasing` holds for a conversion that keeps non-negative amounts non-negative. The conversion itself is a parameter.
- `Policies.ActBuyingPowerNonNegative` holds for a single-currency conversion, a contract value linear in the size and positive for priced assets, and a non-negative equity. With a negative equity the amount per order is negative, so `amountPerOrder > buyingPower` lets it through at any buying power, even zero. The size then has the sign opposite to the rating's direction. When that size is allowed (a positive size for a selling signal, or a negative one with shorting on), the order's exposure can drive the buying power below zero (FlexPolicy.kt:120-144).
- `calcSize` is an open function that a subclass may override, like `createOrder`. The model fixes it to `FlexPolicy.calcSize`.
- `Double` and `BigDecimal` arithmetic is exact real arithmetic here, so rounding and overflow to infinity are not captured.
  - A zero contract price is the one non-finite case modelled.
  - In `FlexPolicy.calcSize` it raises `NumberFormatException` from `BigDecimal`.
  - In `BasePolicy.calcSize` it gives `+Infinity`, which `toInt()` clamps to Int.MAX_VALUE.
  - NaN cannot arise from reals.
- The comparison of `Amount`s is not part of this model. `amountPerOrder > buyingPower` compares their values and does not check the currencies.
- `===` on instants, statuses and currencies is modelled as equality, and `compareTo` only by its sign.
- `Order.toString`, `Order.type` and `Order.info`: string formatting and reflection.
- CSV feeds and price charts: file I/O, concurrency and rendering.
