/** The order lifecycle: an order's status, when its execution opened and
    when it closed.

      Initial -> Accepted -> Completed | Cancelled | Expired
      Initial -> Rejected

    An order state is immutable; `Copy` returns the state after a requested
    transition, or the same state when the transition does not apply. */
module OrderStates {
  import opened Common
  import opened Orders

  datatype OrderStatus = Initial | Accepted | Completed | Cancelled | Expired | Rejected
  {
    /** One of the three "error" end-states. */
    predicate Aborted()
      ensures Aborted() ==> this != Initial && this != Accepted && this != Completed
    {
      this == Cancelled || this == Expired || this == Rejected
    }

    /** An end-state: no more trading happens for the order. */
    predicate Closed()
      ensures Closed() <==> Aborted() || this == Completed
    {
      this == Completed || this == Cancelled || this == Expired || this == Rejected
    }

    /** Still being processed. */
    predicate Open()
      ensures Open() <==> !Closed()
    {
      this == Initial || this == Accepted
    }
  }

  /** Every status is either open or closed, never both; an aborted order is
      closed, and a completed one is closed without being aborted. */
  lemma StatusClassification(s: OrderStatus)
    ensures s.Open() <==> !s.Closed()
    ensures s.Aborted() ==> s.Closed()
    ensures s.Closed() <==> s.Aborted() || s == Completed
    ensures s.Open() <==> s == Initial || s == Accepted
  {
  }

  datatype OrderState = OrderState(
    order: Order,
    status: OrderStatus := Initial,
    openedAt: Instant := INSTANT_MIN,
    closedAt: Instant := INSTANT_MAX)
  {
    predicate Open()
    {
      status.Open()
    }

    predicate Closed()
    {
      status.Closed()
    }

    function Asset(): Asset
    {
      order.asset
    }

    function Id(): int
    {
      order.id
    }

    /** The state after asking for status `newStatus` at `time`. */
    function Copy(time: Instant, newStatus: OrderStatus := Accepted): (r: OrderState)
      ensures r.order == order && r.Asset() == Asset() && r.Id() == Id()
      ensures r.status == newStatus || r == this
    {
      if newStatus == Accepted && status == Initial then
        OrderState(order, newStatus, time)
      else if newStatus.Closed() && status.Open() then
        var openTime := if openedAt == INSTANT_MIN then time else openedAt;
        OrderState(order, newStatus, openTime, time)
      else
        this
    }

    /** The timestamps are consistent with the status: an initial order has
        not opened yet, and an order that is still open has not closed. */
    ghost predicate Valid()
    {
      && (status == Initial ==> openedAt == INSTANT_MIN)
      && (status.Open() ==> closedAt == INSTANT_MAX)
    }
  }

  /** A state created from an order alone is initial, not yet opened and not yet closed. */
  lemma NewStateIsInitial(o: Order)
    ensures OrderState(o).status == Initial && OrderState(o).Open()
    ensures OrderState(o).openedAt == INSTANT_MIN && OrderState(o).closedAt == INSTANT_MAX
    ensures OrderState(o).Valid()
  {
  }

  /** Accepting an initial order opens it at `t` and leaves it unclosed. */
  lemma CopyAccepts(st: OrderState, t: Instant)
    requires st.status == Initial
    ensures st.Copy(t) == OrderState(st.order, Accepted, t, INSTANT_MAX)
    ensures st.Copy(t, Accepted) == st.Copy(t)
  {
  }

  /** Closing an open order records `t` as its closing time, and as its opening
      time when it had not been opened before; otherwise the opening time stays. */
  lemma CopyCloses(st: OrderState, t: Instant, s: OrderStatus)
    requires st.Open() && s.Closed()
    ensures st.Copy(t, s).status == s && st.Copy(t, s).closedAt == t
    ensures st.openedAt == INSTANT_MIN ==> st.Copy(t, s).openedAt == t
    ensures st.openedAt != INSTANT_MIN ==> st.Copy(t, s).openedAt == st.openedAt
  {
  }

  /** Every other request leaves the state as it is; in particular a closed
      state is absorbing and nothing returns an order to Initial. */
  lemma CopyOtherwiseUnchanged(st: OrderState, t: Instant, s: OrderStatus)
    requires !(s == Accepted && st.status == Initial)
    requires !(s.Closed() && st.Open())
    ensures st.Copy(t, s) == st
  {
  }

  lemma ClosedIsAbsorbing(st: OrderState, t: Instant, s: OrderStatus)
    requires st.Closed()
    ensures st.Copy(t, s) == st
  {
  }

  /** A status only moves from initial to accepted, or from an open status
      to a closed one. This is wider than the lifecycle diagram, which lists
      only accepted to completed, cancelled or expired and initial to
      rejected: `copy` also closes an initial order as completed, cancelled
      or expired, and rejects an accepted one. */
  lemma CopyFollowsLifecycle(st: OrderState, t: Instant, s: OrderStatus)
    ensures var r := st.Copy(t, s).status;
      || r == st.status
      || (st.status == Initial && r == Accepted)
      || (st.status.Open() && r.Closed())
  {
  }

  /** Asking for the same transition twice is the same as asking once. */
  lemma CopyIdempotent(st: OrderState, t: Instant, s: OrderStatus)
    ensures st.Copy(t, s).Copy(t, s) == st.Copy(t, s)
  {
  }

  /** `Copy` keeps the timestamps consistent with the status, and sets each
      timestamp at most once: a recorded opening time is never overwritten,
      nor is a recorded closing time. */
  lemma CopyValid(st: OrderState, t: Instant, s: OrderStatus)
    requires st.Valid()
    ensures st.Copy(t, s).Valid()
    ensures st.openedAt != INSTANT_MIN ==> st.Copy(t, s).openedAt == st.openedAt
    ensures st.closedAt != INSTANT_MAX ==> st.Copy(t, s) == st
  {
  }

  /** The state after a sequence of (time, requested status) updates. */
  function Replay(st: OrderState, updates: seq<(Instant, OrderStatus)>): OrderState
    decreases |updates|
  {
    if updates == [] then st
    else Replay(st.Copy(updates[0].0, updates[0].1), updates[1..])
  }

  /** The state is consistent and every timestamp it records is no later than `last`. */
  ghost predicate SettledBy(st: OrderState, last: Instant)
  {
    && st.Valid()
    && st.openedAt <= last
    && (st.Closed() ==> st.openedAt <= st.closedAt <= last)
  }

  ghost predicate NonDecreasingFrom(last: Instant, updates: seq<(Instant, OrderStatus)>)
  {
    && (forall i :: 0 <= i < |updates| ==> last <= updates[i].0)
    && (forall i, j :: 0 <= i < j < |updates| ==> updates[i].0 <= updates[j].0)
  }

  /** When the updates come in time order, an order never closes before it opened. */
  lemma {:induction false} ReplayInTimeOrder(st: OrderState, last: Instant, updates: seq<(Instant, OrderStatus)>)
    requires SettledBy(st, last)
    requires NonDecreasingFrom(last, updates)
    ensures Replay(st, updates).Valid()
    ensures Replay(st, updates).Closed() ==> Replay(st, updates).openedAt <= Replay(st, updates).closedAt
    ensures Replay(st, updates).order == st.order
    decreases |updates|
  {
    if updates != [] {
      var (t, s) := updates[0];
      var next := st.Copy(t, s);
      assert SettledBy(next, t);
      ReplayInTimeOrder(next, t, updates[1..]);
    }
  }

  /** From a fresh order, updates in time order keep opening before closing. */
  lemma FreshReplayInTimeOrder(o: Order, updates: seq<(Instant, OrderStatus)>)
    requires forall i, j :: 0 <= i < j < |updates| ==> updates[i].0 <= updates[j].0
    ensures Replay(OrderState(o), updates).Closed() ==>
      Replay(OrderState(o), updates).openedAt <= Replay(OrderState(o), updates).closedAt
  {
    ReplayInTimeOrder(OrderState(o), INSTANT_MIN, updates);
  }
}
