/** A market event: the actions (prices and other information) that became
    available at one moment in time. */
module Events {
  import opened Common

  /** A price action carries the price data of one asset; how a price of a
      given type is read from that data is the `PriceReader` collaborator.
      Any other kind of action carries no price. */
  datatype Action =
    | PriceAction(asset: Asset, data: seq<real>)
    | OtherAction(info: string)

  /** `PriceAction.getPrice(type)`, which is not part of this model. */
  type PriceReader = (Action, string) -> real

  datatype Event = Event(actions: seq<Action>, time: Instant)

  /** An event without actions. */
  function Empty(time: Instant): (e: Event)
    ensures e.time == time && |e.actions| == 0
  {
    Event([], time)
  }

  /** The price actions of `actions` keyed by asset, built in order so that a
      later price action for an asset replaces an earlier one
      (`filterIsInstance<PriceAction>().associateBy { it.asset }`). */
  function Prices(actions: seq<Action>): (m: map<Asset, Action>)
    ensures forall a :: a in m ==> m[a].PriceAction? && m[a].asset == a
    decreases |actions|
  {
    if actions == [] then map[]
    else
      var m := Prices(actions[..|actions| - 1]);
      var last := actions[|actions| - 1];
      if last.PriceAction? then m[last.asset := last] else m
  }

  /** `actions[i]` is a price action for `asset`. */
  ghost predicate PriceFor(actions: seq<Action>, i: int, asset: Asset)
  {
    0 <= i < |actions| && actions[i].PriceAction? && actions[i].asset == asset
  }

  /** An asset has an entry exactly when some price action is for it, and the
      entry is the last price action for that asset. */
  lemma {:induction false} PricesLastWins(actions: seq<Action>, asset: Asset)
    ensures asset in Prices(actions) <==> exists i :: PriceFor(actions, i, asset)
    ensures asset in Prices(actions) ==>
      exists i :: PriceFor(actions, i, asset) && Prices(actions)[asset] == actions[i] &&
        forall j :: i < j < |actions| ==> !PriceFor(actions, j, asset)
    decreases |actions|
  {
    if actions != [] {
      var n := |actions| - 1;
      var init := actions[..n];
      PricesLastWins(init, asset);
      forall i | PriceFor(init, i, asset) ensures PriceFor(actions, i, asset) {
      }
      forall i | PriceFor(actions, i, asset) && i < n ensures PriceFor(init, i, asset) {
      }
      if PriceFor(actions, n, asset) {
        assert Prices(actions)[asset] == actions[n];
      } else if asset in Prices(init) {
        var i :| PriceFor(init, i, asset) && Prices(init)[asset] == init[i] &&
          forall j :: i < j < |init| ==> !PriceFor(init, j, asset);
        assert PriceFor(actions, i, asset) && Prices(actions)[asset] == actions[i];
      }
    }
  }

  /** `Event.getPrice(asset, type)`: null when the event has no price action
      for the asset, otherwise the price of the given type (by default
      "DEFAULT") read from the last such action. */
  function GetPrice(e: Event, asset: Asset, read: PriceReader, priceType: string := "DEFAULT"): (p: Option<real>)
    ensures p.Some? ==> exists i :: PriceFor(e.actions, i, asset) && p.value == read(e.actions[i], priceType)
  {
    PricesLastWins(e.actions, asset);
    var prices := Prices(e.actions);
    if asset in prices then Some(read(prices[asset], priceType)) else None
  }

  lemma GetPriceFromLastAction(e: Event, asset: Asset, read: PriceReader, priceType: string)
    ensures GetPrice(e, asset, read, priceType).None? <==> forall i :: !PriceFor(e.actions, i, asset)
    ensures GetPrice(e, asset, read, priceType).Some? ==>
      exists i :: PriceFor(e.actions, i, asset) &&
        GetPrice(e, asset, read, priceType).value == read(e.actions[i], priceType) &&
        forall j :: i < j < |e.actions| ==> !PriceFor(e.actions, j, asset)
  {
    PricesLastWins(e.actions, asset);
  }

  /** An empty event has no price for any asset. */
  lemma EmptyHasNoPrice(time: Instant, asset: Asset, read: PriceReader, priceType: string)
    ensures GetPrice(Empty(time), asset, read, priceType) == None
  {
  }

  /** `Event.compareTo`: events are ordered by time only. */
  function Compare(a: Event, b: Event): (c: int)
    ensures c < 0 <==> a.time < b.time
    ensures c == 0 <==> a.time == b.time
    ensures c > 0 <==> b.time < a.time
  {
    CompareInstants(a.time, b.time)
  }
}
