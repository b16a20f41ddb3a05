/** A timeline is a list of instants sorted from old to new. This module
    finds, by binary search, the entries nearest to a given time, and cuts a
    timeline into timeframes. */
module Timelines {
  import opened Common

  type Timeline = seq<Instant>

  /** An interval of time from `start` to `end`. */
  datatype Timeframe = Timeframe(start: Instant, end: Instant)

  ghost predicate Sorted(tl: Timeline)
  {
    forall i, j :: 0 <= i < j < |tl| ==> tl[i] <= tl[j]
  }

  ghost predicate StrictlyIncreasing(tl: Timeline)
  {
    forall i, j :: 0 <= i < j < |tl| ==> tl[i] < tl[j]
  }

  /** Kotlin's `List.binarySearch` on the index range [low, high]: the index
      of an element equal to `t`, or `-(insertion point) - 1`. */
  function BinarySearchIn(tl: Timeline, t: Instant, low: int, high: int): (r: int)
    requires 0 <= low <= high + 1 <= |tl|
    ensures r >= 0 ==> low <= r <= high && tl[r] == t
    ensures r < 0 ==> low <= -r - 1 <= high + 1
    decreases high - low + 1
  {
    if low > high then -(low + 1)
    else
      var mid := (low + high) / 2;
      if tl[mid] < t then BinarySearchIn(tl, t, mid + 1, high)
      else if t < tl[mid] then BinarySearchIn(tl, t, low, mid - 1)
      else mid
  }

  function BinarySearch(tl: Timeline, t: Instant): int
  {
    BinarySearchIn(tl, t, 0, |tl| - 1)
  }

  /** The first `n` entries are earlier than `t`. */
  ghost predicate Below(tl: Timeline, t: Instant, n: int)
  {
    0 <= n <= |tl| && forall i :: 0 <= i < n ==> tl[i] < t
  }

  /** The entries from index `n` on are later than `t`. */
  ghost predicate Above(tl: Timeline, t: Instant, n: int)
  {
    0 <= n <= |tl| && forall i :: n <= i < |tl| ==> t < tl[i]
  }

  /** On a sorted timeline, a non-negative result is the index of an entry
      equal to `t`, and a negative result encodes the insertion point `p`:
      everything before `p` is earlier than `t`, everything from `p` on later. */
  lemma {:induction false} BinarySearchInCorrect(tl: Timeline, t: Instant, low: int, high: int)
    requires Sorted(tl)
    requires 0 <= low <= high + 1 <= |tl|
    requires Below(tl, t, low) && Above(tl, t, high + 1)
    ensures var r := BinarySearchIn(tl, t, low, high);
      && (r >= 0 ==> r < |tl| && tl[r] == t)
      && (r < 0 ==> Below(tl, t, -r - 1) && Above(tl, t, -r - 1))
    decreases high - low + 1, 1
  {
    if low <= high {
      var mid := (low + high) / 2;
      MidBounds(low, high);
      if tl[mid] < t {
        SearchRight(tl, t, low, high, mid);
      } else if t < tl[mid] {
        SearchLeft(tl, t, low, high, mid);
      }
    }
  }

  /** The search continues above an entry earlier than `t`. */
  lemma {:induction false} SearchRight(tl: Timeline, t: Instant, low: int, high: int, mid: int)
    requires Sorted(tl)
    requires 0 <= low <= mid <= high < |tl| && mid == (low + high) / 2 && tl[mid] < t
    requires Below(tl, t, low) && Above(tl, t, high + 1)
    ensures var r := BinarySearchIn(tl, t, low, high);
      && (r >= 0 ==> r < |tl| && tl[r] == t)
      && (r < 0 ==> Below(tl, t, -r - 1) && Above(tl, t, -r - 1))
    decreases high - low + 1, 0
  {
    SortedBelow(tl, mid, t);
    SearchStep(tl, t, low, high);
    BinarySearchInCorrect(tl, t, mid + 1, high);
  }

  /** The search continues below an entry later than `t`. */
  lemma {:induction false} SearchLeft(tl: Timeline, t: Instant, low: int, high: int, mid: int)
    requires Sorted(tl)
    requires 0 <= low <= mid <= high < |tl| && mid == (low + high) / 2 && t < tl[mid]
    requires Below(tl, t, low) && Above(tl, t, high + 1)
    ensures var r := BinarySearchIn(tl, t, low, high);
      && (r >= 0 ==> r < |tl| && tl[r] == t)
      && (r < 0 ==> Below(tl, t, -r - 1) && Above(tl, t, -r - 1))
    decreases high - low + 1, 0
  {
    SortedAbove(tl, mid, t);
    SearchStep(tl, t, low, high);
    BinarySearchInCorrect(tl, t, low, mid - 1);
  }

  /** One halving step of the search. */
  lemma SearchStep(tl: Timeline, t: Instant, low: int, high: int)
    requires 0 <= low <= high < |tl|
    ensures var mid := (low + high) / 2;
      && (tl[mid] < t ==> BinarySearchIn(tl, t, low, high) == BinarySearchIn(tl, t, mid + 1, high))
      && (t < tl[mid] ==> BinarySearchIn(tl, t, low, high) == BinarySearchIn(tl, t, low, mid - 1))
  {
  }

  lemma SortedBelow(tl: Timeline, mid: int, t: Instant)
    requires Sorted(tl) && 0 <= mid < |tl| && tl[mid] < t
    ensures Below(tl, t, mid + 1)
  {
  }

  lemma SortedAbove(tl: Timeline, mid: int, t: Instant)
    requires Sorted(tl) && 0 <= mid < |tl| && t < tl[mid]
    ensures Above(tl, t, mid)
  {
  }

  lemma MidBounds(low: int, high: int)
    requires low <= high
    ensures low <= (low + high) / 2 <= high
  {
  }

  lemma BinarySearchCorrect(tl: Timeline, t: Instant)
    requires Sorted(tl)
    ensures var r := BinarySearch(tl, t);
      && (r >= 0 ==> r < |tl| && tl[r] == t)
      && (r < 0 ==>
            && -r - 1 <= |tl|
            && (forall i :: 0 <= i < -r - 1 ==> tl[i] < t)
            && (forall i :: -r - 1 <= i < |tl| ==> t < tl[i]))
  {
    assert Below(tl, t, 0) && Above(tl, t, |tl|);
    BinarySearchInCorrect(tl, t, 0, |tl| - 1);
  }

  /** The index of the most recent entry that is not after `time`, if any. */
  function LatestNotAfter(tl: Timeline, time: Instant): (r: Option<int>)
    ensures r.Some? ==> 0 <= r.value < |tl|
  {
    var found := BinarySearch(tl, time);
    var idx := if found < 0 then -found - 2 else found;
    if idx >= 0 then Some(idx) else None
  }

  /** The index of the oldest entry that is not before `time`, if any. */
  function EarliestNotBefore(tl: Timeline, time: Instant): (r: Option<int>)
    ensures r.Some? ==> 0 <= r.value < |tl|
  {
    var found := BinarySearch(tl, time);
    var idx := if found < 0 then -found - 1 else found;
    if idx < |tl| then Some(idx) else None
  }

  /** On a strictly increasing timeline, `LatestNotAfter` finds the largest
      index whose entry is at or before `time`, and is None exactly when the
      timeline is empty or starts after `time`. */
  lemma LatestNotAfterCorrect(tl: Timeline, time: Instant)
    requires StrictlyIncreasing(tl)
    ensures LatestNotAfter(tl, time).None? <==> |tl| == 0 || time < tl[0]
    ensures LatestNotAfter(tl, time).Some? ==>
      var i := LatestNotAfter(tl, time).value;
      0 <= i < |tl| && tl[i] <= time && forall j :: i < j < |tl| ==> time < tl[j]
  {
    BinarySearchCorrect(tl, time);
  }

  /** On a strictly increasing timeline, `EarliestNotBefore` finds the
      smallest index whose entry is at or after `time`, and is None exactly
      when the timeline is empty or ends before `time`. */
  lemma EarliestNotBeforeCorrect(tl: Timeline, time: Instant)
    requires StrictlyIncreasing(tl)
    ensures EarliestNotBefore(tl, time).None? <==> |tl| == 0 || tl[|tl| - 1] < time
    ensures EarliestNotBefore(tl, time).Some? ==>
      var i := EarliestNotBefore(tl, time).value;
      0 <= i < |tl| && time <= tl[i] && forall j :: 0 <= j < i ==> tl[j] < time
  {
    BinarySearchCorrect(tl, time);
  }

  /** A time that is on the timeline is found by both searches at its own index. */
  lemma SearchesFindExactTime(tl: Timeline, k: int)
    requires StrictlyIncreasing(tl)
    requires 0 <= k < |tl|
    ensures LatestNotAfter(tl, tl[k]) == Some(k)
    ensures EarliestNotBefore(tl, tl[k]) == Some(k)
  {
    LatestNotAfterCorrect(tl, tl[k]);
    EarliestNotBeforeCorrect(tl, tl[k]);
  }

  /** `Timeline.timeframe`: from the first to the last entry; `first()`
      throws on an empty timeline. */
  function TimeframeOf(tl: Timeline): (r: Result<Timeframe>)
    ensures r.Err? <==> |tl| == 0
  {
    if |tl| == 0 then Err(NoSuchElement) else Ok(Timeframe(tl[0], tl[|tl| - 1]))
  }

  /** On a sorted timeline the timeframe spans every entry. */
  lemma TimeframeCoversTimeline(tl: Timeline)
    requires Sorted(tl) && |tl| > 0
    ensures TimeframeOf(tl).Ok?
    ensures forall i :: 0 <= i < |tl| ==>
      TimeframeOf(tl).value.start <= tl[i] <= TimeframeOf(tl).value.end
  {
  }

  /** `chunked(size).map { Timeframe(it.first(), it.last()) }` on the
      entries from index `from` on. */
  function ChunksFrom(tl: Timeline, size: int, from: nat): (r: seq<Timeframe>)
    requires size > 0
    ensures |r| == 0 <==> from >= |tl|
    decreases |tl| - from
  {
    if from >= |tl| then []
    else if |tl| - from <= size then [Timeframe(tl[from], tl[|tl| - 1])]
    else [Timeframe(tl[from], tl[from + size - 1])] + ChunksFrom(tl, size, from + size)
  }

  /** The frames run from the first entry to the last; an empty timeline
      has none. */
  function Chunks(tl: Timeline, size: int): (r: seq<Timeframe>)
    requires size > 0
    ensures |r| == 0 <==> |tl| == 0
    ensures |tl| > 0 ==> r[0].start == tl[0] && r[|r| - 1].end == tl[|tl| - 1]
  {
    ChunksFromEnds(tl, size, 0);
    ChunksFrom(tl, size, 0)
  }

  /** The frames of the entries from `from` on start at that entry and end
      at the last entry. */
  lemma ChunksFromEnds(tl: Timeline, size: int, from: nat)
    requires size > 0
    ensures var r := ChunksFrom(tl, size, from);
      from < |tl| ==> r[0].start == tl[from] && r[|r| - 1].end == tl[|tl| - 1]
  {
    if from < |tl| {
      ChunksFromHead(tl, size, from);
      ChunksFromLast(tl, size, from);
    }
  }

  /** The last frame ends at the last entry. */
  lemma {:induction false} ChunksFromLast(tl: Timeline, size: int, from: nat)
    requires size > 0 && from < |tl|
    ensures var r := ChunksFrom(tl, size, from); r[|r| - 1].end == tl[|tl| - 1]
    decreases |tl| - from
  {
    if |tl| - from > size {
      ChunksFromLast(tl, size, from + size);
    }
  }

  /** `Timeline.split(size)`: `chunked` rejects a size that is not positive. */
  function Split(tl: Timeline, size: int): (r: Result<seq<Timeframe>>)
    ensures r.Err? <==> size <= 0
  {
    if size <= 0 then Err(IllegalArgument) else Ok(Chunks(tl, size))
  }

  function Min(a: int, b: int): int
  {
    if a < b then a else b
  }

  /** Splitting gives ceil(len / size) frames, in order; frame k runs from
      entry k * size to entry min(k * size + size, len) - 1. */
  lemma ChunksShape(tl: Timeline, size: int)
    requires size > 0
    ensures |Chunks(tl, size)| == (|tl| + size - 1) / size
    ensures forall k :: 0 <= k < |Chunks(tl, size)| ==>
      k * size < |tl| &&
      Chunks(tl, size)[k] == Timeframe(tl[k * size], tl[Min(k * size + size, |tl|) - 1])
  {
    ChunksFromCount(tl, size, 0);
    forall k | 0 <= k < |Chunks(tl, size)|
      ensures k * size < |tl| &&
        Chunks(tl, size)[k] == Timeframe(tl[k * size], tl[Min(k * size + size, |tl|) - 1])
    {
      ChunksFromAt(tl, size, 0, k, k * size);
    }
  }

  /** The entries from `from` on make ceil((len - from) / size) frames. */
  lemma {:induction false} ChunksFromCount(tl: Timeline, size: int, from: nat)
    requires size > 0 && from <= |tl|
    ensures |ChunksFrom(tl, size, from)| == (|tl| - from + size - 1) / size
    decreases |tl| - from
  {
    var a := |tl| - from - 1;
    if |tl| - from > size {
      ChunksFromCount(tl, size, from + size);
      assert |tl| - (from + size) + size - 1 == a;
      DivShift(a, size);
    } else if from < |tl| {
      DivShift(a, size);
      DivUnique(a, size, 0, a);
    } else {
      DivUnique(size - 1, size, 0, size - 1);
    }
  }

  /** Frame k of the entries from `from` on starts at entry `start`, which is
      from + k * size, and ends one chunk later or at the last entry. */
  lemma {:induction false} ChunksFromAt(tl: Timeline, size: int, from: nat, k: int, start: int)
    requires size > 0 && 0 <= k < |ChunksFrom(tl, size, from)|
    requires start == from + k * size
    ensures start < |tl|
    ensures ChunksFrom(tl, size, from)[k] == Timeframe(tl[start], tl[Min(start + size, |tl|) - 1])
    decreases k
  {
    if k == 0 {
      ChunksFromHead(tl, size, from);
    } else {
      ChunksFromTail(tl, size, from, k);
      MulStep(k, size);
      ChunksFromAt(tl, size, from + size, k - 1, start);
    }
  }

  /** The first frame from `from` on starts there and ends one chunk later
      or at the last entry. */
  lemma ChunksFromHead(tl: Timeline, size: int, from: nat)
    requires size > 0 && from < |tl|
    ensures ChunksFrom(tl, size, from)[0] == Timeframe(tl[from], tl[Min(from + size, |tl|) - 1])
  {
  }

  /** The later frames are the frames of the entries one chunk further on. */
  lemma ChunksFromTail(tl: Timeline, size: int, from: nat, k: int)
    requires size > 0 && 0 < k < |ChunksFrom(tl, size, from)|
    ensures from + size < |tl|
    ensures ChunksFrom(tl, size, from)[k] == ChunksFrom(tl, size, from + size)[k - 1]
  {
  }

  lemma MulStep(k: int, size: int)
    ensures k * size == (k - 1) * size + size
  {
  }

  lemma DivShift(a: int, size: int)
    requires a >= 0 && size > 0
    ensures (a + size) / size == a / size + 1
  {
    var q, r := a / size, a % size;
    assert a + size == (q + 1) * size + r;
    DivUnique(a + size, size, q + 1, r);
  }

  /** Division is determined by a quotient and a remainder in range. */
  lemma DivUnique(n: int, d: int, q: int, r: int)
    requires d > 0 && 0 <= r < d && n == q * d + r
    ensures n / d == q
  {
    var q', r' := n / d, n % d;
    assert (q - q') * d == r' - r;
    MultipleBound(q - q', d);
  }

  lemma MultipleBound(k: int, d: int)
    requires d > 0
    ensures k >= 1 ==> k * d >= d
    ensures k <= -1 ==> k * d <= -d
  {
  }

  /** On a strictly increasing timeline the frames are themselves ordered:
      each starts no later than it ends and ends before the next one starts. */
  lemma ChunksOrdered(tl: Timeline, size: int)
    requires size > 0 && StrictlyIncreasing(tl)
    ensures forall k :: 0 <= k < |Chunks(tl, size)| ==> Chunks(tl, size)[k].start <= Chunks(tl, size)[k].end
    ensures forall k :: 0 <= k < |Chunks(tl, size)| - 1 ==> Chunks(tl, size)[k].end < Chunks(tl, size)[k + 1].start
  {
    var c := Chunks(tl, size);
    forall k | 0 <= k < |c|
      ensures c[k].start <= c[k].end
    {
      ChunksFromAt(tl, size, 0, k, k * size);
    }
    forall k | 0 <= k < |c| - 1
      ensures c[k].end < c[k + 1].start
    {
      MulStep(k + 1, size);
      ChunksFromAt(tl, size, 0, k, k * size);
      ChunksFromAt(tl, size, 0, k + 1, (k + 1) * size);
    }
  }
}
