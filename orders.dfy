/** Orders: the immutable instruction to trade an asset, the process-wide
    counter that hands out order ids, and the "is there an order for this
    asset" query over a collection of orders. */
module Orders {
  import opened Common

  /** An order always names one asset and carries a unique id and a free-form
      tag (empty by default). A market order also carries the size to trade;
      other kinds of order (a cancellation, for one) have no size. */
  datatype Order =
    | MarketOrder(asset: Asset, size: real, id: int, tag: string := "")
    | OtherOrder(asset: Asset, id: int, tag: string := "")

  /** Kotlin `Int` arithmetic: `x` reduced into the 32-bit range, two's complement. */
  function WrapInt(x: int): (r: int)
    ensures INT_MIN <= r <= INT_MAX
    ensures INT_MIN <= x <= INT_MAX ==> r == x
    ensures x == INT_MAX + 1 ==> r == INT_MIN
  {
    (x - INT_MIN) % INT_RANGE + INT_MIN
  }

  /** The value of the counter after `ID++`. */
  function Successor(id: int): int
  {
    WrapInt(id + 1)
  }

  /** The companion object's counter `ID`; `NextId` is `ID++`. */
  class IdCounter {
    var id: int

    ghost predicate Valid()
      reads this
    {
      INT_MIN <= id <= INT_MAX
    }

    /** The counter starts at 0. */
    constructor ()
      ensures Valid() && id == 0
    {
      id := 0;
    }

    /** Returns the current value and then increments it, wrapping at
        Int.MAX_VALUE like Kotlin's `Int`. */
    method NextId() returns (r: int)
      requires Valid()
      modifies this
      ensures Valid()
      ensures r == old(id) && id == Successor(old(id))
    {
      r := id;
      id := WrapInt(id + 1);
    }
  }

  /** The ids that `n` successive calls of `NextId` return, starting from a
      counter whose value is `start`. */
  function IdsFrom(start: int, n: nat): (ids: seq<int>)
    ensures |ids| == n
    ensures n > 0 ==> ids[0] == start
    ensures INT_MIN <= start <= INT_MAX ==> forall i :: 0 <= i < n ==> INT_MIN <= ids[i] <= INT_MAX
    decreases n
  {
    if n == 0 then [] else [start] + IdsFrom(Successor(start), n - 1)
  }

  /** The k-th id handed out is the start value plus k, wrapped to 32 bits. */
  lemma {:induction false} IdsFromAt(start: int, n: nat, k: nat)
    requires INT_MIN <= start <= INT_MAX
    requires k < n
    ensures IdsFrom(start, n)[k] == WrapInt(start + k)
    decreases k
  {
    if k > 0 {
      IdsFromTail(start, n, k);
      IdsFromAt(Successor(start), n - 1, k - 1);
      SuccessorShift(start, k);
    }
  }

  /** After the first id, the ids continue from the successor. */
  lemma IdsFromTail(start: int, n: nat, k: nat)
    requires 0 < k < n
    ensures IdsFrom(start, n)[k] == IdsFrom(Successor(start), n - 1)[k - 1]
  {
  }

  /** k steps from the successor of `start` are k + 1 steps from `start`. */
  lemma SuccessorShift(start: int, k: int)
    ensures WrapInt(Successor(start) + (k - 1)) == WrapInt(start + k)
  {
    WrapShift(start + 1, k - 1);
    assert start + 1 + (k - 1) == start + k;
  }

  /** Wrapping twice is wrapping once. */
  lemma WrapShift(x: int, d: int)
    ensures WrapInt(WrapInt(x) + d) == WrapInt(x + d)
  {
    var a := x - INT_MIN;
    var q := a / INT_RANGE;
    assert a == q * INT_RANGE + a % INT_RANGE;
    assert WrapInt(x) + d - INT_MIN == (x + d - INT_MIN) - q * INT_RANGE;
    ModShift(x + d - INT_MIN, q);
  }

  lemma ModShift(a: int, q: int)
    ensures (a - q * INT_RANGE) % INT_RANGE == a % INT_RANGE
  {
    var b := a - q * INT_RANGE;
    assert a == (a / INT_RANGE) * INT_RANGE + a % INT_RANGE;
    assert b == (b / INT_RANGE) * INT_RANGE + b % INT_RANGE;
    var d := a / INT_RANGE - q - b / INT_RANGE;
    assert d * INT_RANGE == b % INT_RANGE - a % INT_RANGE;
    MultipleOfRange(d);
  }

  /** A non-zero multiple of 2^32 is at least 2^32 away from zero. */
  lemma MultipleOfRange(d: int)
    ensures d >= 1 ==> d * INT_RANGE >= INT_RANGE
    ensures d <= -1 ==> d * INT_RANGE <= -INT_RANGE
  {
  }

  /** Until the counter passes Int.MAX_VALUE, successive ids strictly increase. */
  lemma IdsIncreasing(start: int, n: nat)
    requires INT_MIN <= start && start + n - 1 <= INT_MAX
    ensures forall i, j :: 0 <= i < j < n ==> IdsFrom(start, n)[i] < IdsFrom(start, n)[j]
  {
    forall i, j | 0 <= i < j < n
      ensures IdsFrom(start, n)[i] < IdsFrom(start, n)[j]
    {
      IdsFromAt(start, n, i);
      IdsFromAt(start, n, j);
    }
  }

  /** Even across the wrap-around, no two of the first 2^32 ids coincide. */
  lemma IdsDistinct(start: int, n: nat)
    requires INT_MIN <= start <= INT_MAX
    requires n <= INT_RANGE
    ensures forall i, j :: 0 <= i < j < n ==> IdsFrom(start, n)[i] != IdsFrom(start, n)[j]
  {
    forall i, j | 0 <= i < j < n
      ensures IdsFrom(start, n)[i] != IdsFrom(start, n)[j]
    {
      IdsFromAt(start, n, i);
      IdsFromAt(start, n, j);
      WrapInjective(start + i, start + j);
    }
  }

  /** Two values less than 2^32 apart wrap to different values. */
  lemma WrapInjective(x: int, y: int)
    requires x < y < x + INT_RANGE
    ensures WrapInt(x) != WrapInt(y)
  {
    var a, b := x - INT_MIN, y - INT_MIN;
    assert a == (a / INT_RANGE) * INT_RANGE + a % INT_RANGE;
    assert b == (b / INT_RANGE) * INT_RANGE + b % INT_RANGE;
    MultipleOfRange(b / INT_RANGE - a / INT_RANGE);
  }

  /** `Collection<Order>.contains(asset)`: some order is for `asset`. */
  function Contains(orders: seq<Order>, asset: Asset): (b: bool)
    ensures b <==> exists i :: 0 <= i < |orders| && orders[i].asset == asset
  {
    if orders == [] then false
    else orders[0].asset == asset || Contains(orders[1..], asset)
  }

  /** No order in an empty collection, and appending one order adds exactly its asset. */
  lemma ContainsAppend(orders: seq<Order>, o: Order, asset: Asset)
    ensures !Contains([], asset)
    ensures Contains(orders + [o], asset) <==> Contains(orders, asset) || o.asset == asset
  {
    assert (orders + [o])[|orders|] == o;
    if Contains(orders, asset) {
      var i :| 0 <= i < |orders| && orders[i].asset == asset;
      assert (orders + [o])[i] == orders[i];
    }
  }
}
