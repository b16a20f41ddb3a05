/** Timeseries: observations of a value over time, and the alignment of two
    timeseries on their common timestamps that the correlation between them
    is computed from. The Pearson coefficient itself is a parameter. */
module Timeseries {
  import opened Common
  import opened Timelines

  /** A value observed at a moment in time. */
  datatype Observation = Observation(time: Instant, value: real)

  /** `Observation.compareTo`: observations are ordered by time only. */
  function CompareObservations(x: Observation, y: Observation): (c: int)
    ensures c < 0 <==> x.time < y.time
    ensures c == 0 <==> x.time == y.time
    ensures c > 0 <==> y.time < x.time
  {
    CompareInstants(x.time, y.time)
  }

  /** A timeserie is sorted from oldest to newest, with no two observations
      at the same time. */
  type Timeserie = seq<Observation>

  ghost predicate Ordered(ts: Timeserie)
  {
    forall i, j :: 0 <= i < j < |ts| ==> ts[i].time < ts[j].time
  }

  /** `Timeserie.toDoubleArray`: the values, in order. */
  function ToDoubleArray(ts: Timeserie): (values: seq<real>)
    ensures |values| == |ts|
    ensures forall i :: 0 <= i < |ts| ==> values[i] == ts[i].value
  {
    seq(|ts|, i requires 0 <= i < |ts| => ts[i].value)
  }

  /** `Timeserie.timeline`: the times, in order. */
  function TimelineOf(ts: Timeserie): (tl: Timeline)
    ensures |tl| == |ts|
    ensures forall i :: 0 <= i < |ts| ==> tl[i] == ts[i].time
  {
    seq(|ts|, i requires 0 <= i < |ts| => ts[i].time)
  }

  /** The timeline of a well-formed timeserie is strictly increasing, so the
      timeline searches apply to it. */
  lemma TimelineOfOrdered(ts: Timeserie)
    requires Ordered(ts)
    ensures StrictlyIncreasing(TimelineOf(ts))
  {
  }

  /** The index pairs that the alignment loop of `correlation` matches when it
      starts at offsets `i` and `j`: the later of the two observations waits
      while the other series advances, and equal times are matched. */
  function MatchesFrom(a: Timeserie, b: Timeserie, i: int, j: int): (m: seq<(int, int)>)
    requires 0 <= i <= |a| && 0 <= j <= |b|
    ensures |m| <= |a| - i && |m| <= |b| - j
    ensures forall k :: 0 <= k < |m| ==>
      i <= m[k].0 < |a| && j <= m[k].1 < |b| && a[m[k].0].time == b[m[k].1].time
    decreases |a| - i + |b| - j
  {
    if i == |a| || j == |b| then []
    else if b[j].time < a[i].time then MatchesFrom(a, b, i, j + 1)
    else if a[i].time < b[j].time then MatchesFrom(a, b, i + 1, j)
    else [(i, j)] + MatchesFrom(a, b, i + 1, j + 1)
  }

  function Matches(a: Timeserie, b: Timeserie): seq<(int, int)>
  {
    MatchesFrom(a, b, 0, 0)
  }

  /** One step of the alignment loop. */
  lemma MatchesStep(a: Timeserie, b: Timeserie, i: int, j: int)
    requires 0 <= i < |a| && 0 <= j < |b|
    ensures b[j].time < a[i].time ==> MatchesFrom(a, b, i, j) == MatchesFrom(a, b, i, j + 1)
    ensures a[i].time < b[j].time ==> MatchesFrom(a, b, i, j) == MatchesFrom(a, b, i + 1, j)
    ensures a[i].time == b[j].time ==> MatchesFrom(a, b, i, j) == [(i, j)] + MatchesFrom(a, b, i + 1, j + 1)
  {
  }

  /** Both coordinates of the pairs increase along the sequence. */
  ghost predicate Increasing(m: seq<(int, int)>)
  {
    forall k, l :: 0 <= k < l < |m| ==> m[k].0 < m[l].0 && m[k].1 < m[l].1
  }

  /** The matched pairs advance in both series. */
  lemma {:induction false} MatchesFromIncreasing(a: Timeserie, b: Timeserie, i: int, j: int)
    requires 0 <= i <= |a| && 0 <= j <= |b|
    ensures Increasing(MatchesFrom(a, b, i, j))
    decreases |a| - i + |b| - j
  {
    if i < |a| && j < |b| {
      MatchesStep(a, b, i, j);
      if b[j].time < a[i].time {
        MatchesFromIncreasing(a, b, i, j + 1);
      } else if a[i].time < b[j].time {
        MatchesFromIncreasing(a, b, i + 1, j);
      } else {
        MatchesFromIncreasing(a, b, i + 1, j + 1);
        IncreasingCons(i, j, MatchesFrom(a, b, i + 1, j + 1));
      }
    }
  }

  /** A pair below every pair of an increasing sequence can be put in front. */
  lemma IncreasingCons(i: int, j: int, rest: seq<(int, int)>)
    requires Increasing(rest)
    requires forall k :: 0 <= k < |rest| ==> i < rest[k].0 && j < rest[k].1
    ensures Increasing([(i, j)] + rest)
  {
    var m := [(i, j)] + rest;
    forall k, l | 0 <= k < l < |m|
      ensures m[k].0 < m[l].0 && m[k].1 < m[l].1
    {
      assert m[l] == rest[l - 1];
      if k > 0 {
        assert m[k] == rest[k - 1];
      }
    }
  }

  /** On well-formed timeseries every pair of observations at a common time,
      at or after the offsets, is matched. */
  lemma {:induction false} MatchesFromComplete(a: Timeserie, b: Timeserie, i: int, j: int, p: int, q: int)
    requires Ordered(a) && Ordered(b)
    requires 0 <= i <= |a| && 0 <= j <= |b|
    requires i <= p < |a| && j <= q < |b| && a[p].time == b[q].time
    ensures (p, q) in MatchesFrom(a, b, i, j)
    decreases |a| - i + |b| - j
  {
    if b[j].time < a[i].time {
      MatchesFromComplete(a, b, i, j + 1, p, q);
    } else if a[i].time < b[j].time {
      MatchesFromComplete(a, b, i + 1, j, p, q);
    } else if p != i || q != j {
      MatchesFromComplete(a, b, i + 1, j + 1, p, q);
    }
  }

  /** For well-formed timeseries the alignment holds exactly the pairs of
      observations at the common timestamps, in time order. */
  lemma MatchesExactlyCommonTimes(a: Timeserie, b: Timeserie)
    requires Ordered(a) && Ordered(b)
    ensures forall p, q :: 0 <= p < |a| && 0 <= q < |b| ==>
      ((p, q) in Matches(a, b) <==> a[p].time == b[q].time)
    ensures forall k, l :: 0 <= k < l < |Matches(a, b)| ==>
      a[Matches(a, b)[k].0].time < a[Matches(a, b)[l].0].time
  {
    MatchesFromIncreasing(a, b, 0, 0);
    var m := Matches(a, b);
    assert Increasing(m);
    forall k, l | 0 <= k < l < |m| ensures a[m[k].0].time < a[m[l].0].time {
      assert m[k].0 < m[l].0;
    }
    forall p, q | 0 <= p < |a| && 0 <= q < |b| && a[p].time == b[q].time
      ensures (p, q) in Matches(a, b)
    {
      MatchesFromComplete(a, b, 0, 0, p, q);
    }
  }

  /** The values of `a` at the first indices of the matched pairs. */
  function FirstValues(a: Timeserie, m: seq<(int, int)>): (values: seq<real>)
    requires forall k :: 0 <= k < |m| ==> 0 <= m[k].0 < |a|
    ensures |values| == |m|
  {
    seq(|m|, k requires 0 <= k < |m| => a[m[k].0].value)
  }

  /** The values of `b` at the second indices of the matched pairs. */
  function SecondValues(b: Timeserie, m: seq<(int, int)>): (values: seq<real>)
    requires forall k :: 0 <= k < |m| ==> 0 <= m[k].1 < |b|
    ensures |values| == |m|
  {
    seq(|m|, k requires 0 <= k < |m| => b[m[k].1].value)
  }

  /** The two lists of aligned values are equally long, and no longer than
      either timeserie. */
  lemma AlignedValuesLengths(a: Timeserie, b: Timeserie)
    ensures |FirstValues(a, Matches(a, b))| == |SecondValues(b, Matches(a, b))|
    ensures |FirstValues(a, Matches(a, b))| <= |a| && |FirstValues(a, Matches(a, b))| <= |b|
  {
  }

  /** The state of the alignment loop at offsets (i, j): `done` holds the
      pairs matched so far, the rest of the alignment is still to come, and
      `data1`, `data2` hold the values at the matched pairs. */
  ghost predicate AlignedUpTo(a: Timeserie, b: Timeserie, i: int, j: int,
                              done: seq<(int, int)>, data1: seq<real>, data2: seq<real>)
  {
    && 0 <= i <= |a| && 0 <= j <= |b|
    && Matches(a, b) == done + MatchesFrom(a, b, i, j)
    && (forall k :: 0 <= k < |done| ==> 0 <= done[k].0 < |a| && 0 <= done[k].1 < |b|)
    && data1 == FirstValues(a, done) && data2 == SecondValues(b, done)
  }

  lemma AlignedStart(a: Timeserie, b: Timeserie)
    ensures AlignedUpTo(a, b, 0, 0, [], [], [])
  {
  }

  /** One step of the alignment loop at offsets (i, j) keeps the loop state. */
  lemma AlignedStep(a: Timeserie, b: Timeserie, i: int, j: int,
                    done: seq<(int, int)>, data1: seq<real>, data2: seq<real>)
    requires i < |a| && j < |b|
    requires AlignedUpTo(a, b, i, j, done, data1, data2)
    ensures b[j].time < a[i].time ==> AlignedUpTo(a, b, i, j + 1, done, data1, data2)
    ensures a[i].time < b[j].time ==> AlignedUpTo(a, b, i + 1, j, done, data1, data2)
    ensures a[i].time == b[j].time ==>
      AlignedUpTo(a, b, i + 1, j + 1, done + [(i, j)], data1 + [a[i].value], data2 + [b[j].value])
  {
    MatchesStep(a, b, i, j);
    if a[i].time == b[j].time {
      var done' := done + [(i, j)];
      assert done + MatchesFrom(a, b, i, j) == done' + MatchesFrom(a, b, i + 1, j + 1);
      assert FirstValues(a, done') == data1 + [a[i].value];
      assert SecondValues(b, done') == data2 + [b[j].value];
    }
  }

  /** When one series is exhausted, everything matched has been collected. */
  lemma AlignedEnd(a: Timeserie, b: Timeserie, i: int, j: int,
                   done: seq<(int, int)>, data1: seq<real>, data2: seq<real>)
    requires AlignedUpTo(a, b, i, j, done, data1, data2)
    requires i == |a| || j == |b|
    ensures done == Matches(a, b)
    ensures data1 == FirstValues(a, Matches(a, b)) && data2 == SecondValues(b, Matches(a, b))
  {
    assert MatchesFrom(a, b, i, j) == [];
  }

  /** A correlation coefficient, or NaN when there are too few observations. */
  datatype Coefficient = NaN | Coefficient(value: real)

  /** The Pearson coefficient of two equally long lists of at least two
      values, which is not part of this model. */
  type Pearson = (seq<real>, seq<real>) -> real

  /** `PearsonsCorrelation().correlation(x, y)` of Apache Commons Math for
      two equally long lists: it rejects fewer than two values with a
      `MathIllegalArgumentException`, and otherwise computes the coefficient. */
  function PearsonsCorrelation(x: seq<real>, y: seq<real>, pearson: Pearson): (r: Result<real>)
    ensures r.Err? <==> |x| < 2
    ensures r.Err? ==> r.error == InsufficientData
  {
    if |x| < 2 then Err(InsufficientData) else Ok(pearson(x, y))
  }

  /** What `correlation(a, b, minObservations)` computes: an exception for an
      empty series, NaN for fewer than `minObservations` aligned
      observations, and otherwise the Pearson coefficient of the aligned
      values, which Commons Math refuses for fewer than two of them. */
  function CorrelationOf(a: Timeserie, b: Timeserie, minObservations: int := 3, pearson: Pearson): (r: Result<Coefficient>)
    ensures r.Err? <==> |a| == 0 || |b| == 0 || minObservations <= |Matches(a, b)| < 2
    ensures |a| == 0 || |b| == 0 ==> r == Err(IllegalArgument)
    ensures |a| > 0 && |b| > 0 && r.Err? ==> r.error == InsufficientData
    ensures r.Ok? ==> (r.value.NaN? <==> |Matches(a, b)| < minObservations)
  {
    if |a| == 0 || |b| == 0 then Err(IllegalArgument)
    else
      var m := Matches(a, b);
      if |m| >= minObservations then
        match PearsonsCorrelation(FirstValues(a, m), SecondValues(b, m), pearson)
        case Err(e) => Err(e)
        case Ok(c) => Ok(Coefficient(c))
      else Ok(NaN)
  }

  /** The merge loop of `correlation(a, b, minObservations)`: walks both
      non-empty timeseries at once and collects the values at equal times. */
  method AlignValues(a: Timeserie, b: Timeserie) returns (data1: seq<real>, data2: seq<real>)
    requires |a| > 0 && |b| > 0
    ensures data1 == FirstValues(a, Matches(a, b)) && data2 == SecondValues(b, Matches(a, b))
  {
    var offset1, offset2 := 0, 0;
    data1, data2 := [], [];
    ghost var done: seq<(int, int)> := [];
    AlignedStart(a, b);
    while true
      invariant offset1 < |a| && offset2 < |b|
      invariant AlignedUpTo(a, b, offset1, offset2, done, data1, data2)
      decreases |a| - offset1 + |b| - offset2
    {
      var obs1, obs2 := a[offset1], b[offset2];
      AlignedStep(a, b, offset1, offset2, done, data1, data2);
      if CompareObservations(obs1, obs2) > 0 {
        offset2 := offset2 + 1;
      } else if CompareObservations(obs2, obs1) > 0 {
        offset1 := offset1 + 1;
      } else {
        data1 := data1 + [obs1.value];
        data2 := data2 + [obs2.value];
        done := done + [(offset1, offset2)];
        offset1 := offset1 + 1;
        offset2 := offset2 + 1;
      }
      if offset1 > |a| - 1 || offset2 > |b| - 1 {
        break;
      }
    }
    AlignedEnd(a, b, offset1, offset2, done, data1, data2);
  }

  /** `correlation(a, b, minObservations)`: the values at equal times go to
      the Pearson computation when there are at least `minObservations` of
      them. */
  method Correlation(a: Timeserie, b: Timeserie, minObservations: int := 3, pearson: Pearson) returns (r: Result<Coefficient>)
    ensures r == CorrelationOf(a, b, minObservations, pearson)
  {
    if !(|a| > 0 && |b| > 0) {
      return Err(IllegalArgument);
    }
    var data1, data2 := AlignValues(a, b);
    if |data1| >= minObservations {
      var c := PearsonsCorrelation(data1, data2, pearson);
      if c.Err? {
        return Err(c.error);
      }
      r := Ok(Coefficient(c.value));
    } else {
      r := Ok(NaN);
    }
  }

  /** The keys of a map of timeseries, each key appearing once. */
  ghost predicate DistinctKeys<K>(entries: seq<(K, Timeserie)>)
  {
    forall u, v :: 0 <= u < v < |entries| ==> entries[u].0 != entries[v].0
  }

  ghost function Keys<K>(entries: seq<(K, Timeserie)>): set<K>
  {
    set u | 0 <= u < |entries| :: entries[u].0
  }

  /** The key of the result for entry positions u and v. */
  function PairOf<K>(entries: seq<(K, Timeserie)>, u: int, v: int): (K, K)
    requires 0 <= u < |entries| && 0 <= v < |entries|
  {
    (entries[u].0, entries[v].0)
  }

  /** The pairs (u, v) of entry positions that the nested loops have visited
      before reaching (p, q). */
  ghost predicate Visited(u: int, v: int, p: int, q: int)
  {
    u < p || (u == p && v < q)
  }

  /** What the nested loops of `Map.correlation` have built after visiting
      every pair before (p, q): one key for every visited pair whose mirror
      image has no key yet, that is, for every visited (u, v) with u <= v. */
  ghost predicate PairsSoFar<K>(entries: seq<(K, Timeserie)>, result: map<(K, K), Coefficient>,
                               p: int, q: int, minObservations: int, excludeSame: bool, pearson: Pearson)
  {
    && (forall key :: key in result ==> key.0 in Keys(entries) && key.1 in Keys(entries))
    && (forall u, v :: 0 <= u < |entries| && 0 <= v < |entries| ==>
         (PairOf(entries, u, v) in result <==>
           Visited(u, v, p, q) && u <= v && !(excludeSame && u == v)))
    && (forall u, v :: 0 <= u < |entries| && 0 <= v < |entries| && PairOf(entries, u, v) in result ==>
         CorrelationOf(entries[u].1, entries[v].1, minObservations, pearson) ==
           Ok(result[PairOf(entries, u, v)]))
  }

  /** Before visiting (p, q), the mirror pair (q, p) has a key exactly when
      it was visited earlier, that is, when q < p. */
  lemma PairsMirror<K>(entries: seq<(K, Timeserie)>, result: map<(K, K), Coefficient>,
                       p: int, q: int, minObservations: int, excludeSame: bool, pearson: Pearson)
    requires DistinctKeys(entries)
    requires 0 <= p < |entries| && 0 <= q < |entries|
    requires PairsSoFar(entries, result, p, q, minObservations, excludeSame, pearson)
    ensures PairOf(entries, q, p) in result <==> q < p
    ensures entries[p].0 == entries[q].0 <==> p == q
  {
  }

  /** Visiting (p, q) without adding a key keeps the picture when (p, q) is
      excluded or comes after its mirror image. */
  lemma PairsSkip<K>(entries: seq<(K, Timeserie)>, result: map<(K, K), Coefficient>,
                     p: int, q: int, minObservations: int, excludeSame: bool, pearson: Pearson)
    requires DistinctKeys(entries)
    requires 0 <= p < |entries| && 0 <= q < |entries|
    requires (excludeSame && p == q) || q < p
    requires PairsSoFar(entries, result, p, q, minObservations, excludeSame, pearson)
    ensures PairsSoFar(entries, result, p, q + 1, minObservations, excludeSame, pearson)
  {
  }

  /** Visiting (p, q) with p <= q adds the key (p, q) with its correlation. */
  lemma PairsAdd<K>(entries: seq<(K, Timeserie)>, result: map<(K, K), Coefficient>,
                    p: int, q: int, minObservations: int, excludeSame: bool, pearson: Pearson, c: Coefficient)
    requires DistinctKeys(entries)
    requires 0 <= p <= q < |entries|
    requires !(excludeSame && p == q)
    requires CorrelationOf(entries[p].1, entries[q].1, minObservations, pearson) == Ok(c)
    requires PairsSoFar(entries, result, p, q, minObservations, excludeSame, pearson)
    ensures PairsSoFar(entries, result[PairOf(entries, p, q) := c], p, q + 1, minObservations, excludeSame, pearson)
  {
    var key := PairOf(entries, p, q);
    var result' := result[key := c];
    forall u, v | 0 <= u < |entries| && 0 <= v < |entries|
      ensures PairOf(entries, u, v) in result' <==> Visited(u, v, p, q + 1) && u <= v && !(excludeSame && u == v)
      ensures PairOf(entries, u, v) in result' ==>
        CorrelationOf(entries[u].1, entries[v].1, minObservations, pearson) == Ok(result'[PairOf(entries, u, v)])
    {
      if u != p || v != q {
        assert PairOf(entries, u, v) != key by {
          assert u != p ==> entries[u].0 != entries[p].0;
          assert v != q ==> entries[v].0 != entries[q].0;
        }
      }
    }
    assert forall key' :: key' in result' ==> key' == key || key' in result;
  }

  /** Finishing row p is starting row p + 1. */
  lemma PairsNextRow<K>(entries: seq<(K, Timeserie)>, result: map<(K, K), Coefficient>,
                        p: int, minObservations: int, excludeSame: bool, pearson: Pearson)
    requires 0 <= p < |entries|
    requires PairsSoFar(entries, result, p, |entries|, minObservations, excludeSame, pearson)
    ensures PairsSoFar(entries, result, p + 1, 0, minObservations, excludeSame, pearson)
  {
  }

  /** The pairs (u, v) of entry positions whose correlation the map gets:
      u <= v, and u != v under `excludeSame`. */
  ghost predicate Needed<K>(entries: seq<(K, Timeserie)>, u: int, v: int, excludeSame: bool)
  {
    0 <= u <= v < |entries| && !(excludeSame && u == v)
  }

  /** Some needed pair has a correlation that throws. */
  ghost predicate SomePairFails<K>(entries: seq<(K, Timeserie)>, minObservations: int, excludeSame: bool, pearson: Pearson)
  {
    exists u, v :: Needed(entries, u, v, excludeSame) && CorrelationOf(entries[u].1, entries[v].1, minObservations, pearson).Err?
  }

  /** Some needed pair has an empty series. */
  ghost predicate SomeNeededEmpty<K>(entries: seq<(K, Timeserie)>, excludeSame: bool)
  {
    exists u, v :: Needed(entries, u, v, excludeSame) && (|entries[u].1| == 0 || |entries[v].1| == 0)
  }

  /** With at least two observations required, a needed pair fails exactly
      when one of its series is empty, and then with `IllegalArgument`. */
  lemma FailingPairs<K>(entries: seq<(K, Timeserie)>, minObservations: int, excludeSame: bool, pearson: Pearson)
    ensures minObservations >= 2 ==> (SomePairFails(entries, minObservations, excludeSame, pearson) <==> SomeNeededEmpty(entries, excludeSame))
    ensures minObservations >= 2 ==> forall u, v :: Needed(entries, u, v, excludeSame) && CorrelationOf(entries[u].1, entries[v].1, minObservations, pearson).Err? ==>
      CorrelationOf(entries[u].1, entries[v].1, minObservations, pearson).error == IllegalArgument
  {
    if minObservations >= 2 && SomeNeededEmpty(entries, excludeSame) {
      var u, v :| Needed(entries, u, v, excludeSame) && (|entries[u].1| == 0 || |entries[v].1| == 0);
      assert CorrelationOf(entries[u].1, entries[v].1, minObservations, pearson).Err?;
    }
  }

  /** After the last row every needed pair has its key, so none failed. */
  lemma PairsDone<K>(entries: seq<(K, Timeserie)>, result: map<(K, K), Coefficient>,
                     minObservations: int, excludeSame: bool, pearson: Pearson)
    requires PairsSoFar(entries, result, |entries|, 0, minObservations, excludeSame, pearson)
    ensures !SomePairFails(entries, minObservations, excludeSame, pearson)
  {
    forall u, v | Needed(entries, u, v, excludeSame)
      ensures CorrelationOf(entries[u].1, entries[v].1, minObservations, pearson).Ok?
    {
      assert PairOf(entries, u, v) in result;
    }
  }

  /** `Map<Asset, Timeserie>.correlation`: the correlation of every pair of
      entries, each unordered pair once, and without an entry with itself when
      `excludeSame` holds. The map is given as its entries in iteration order. */
  method MapCorrelation<K(==)>(entries: seq<(K, Timeserie)>, minObservations: int := 3, excludeSame: bool := true, pearson: Pearson)
    returns (r: Result<map<(K, K), Coefficient>>)
    requires DistinctKeys(entries)
    ensures r.Ok? ==> forall key :: key in r.value ==> key.0 in Keys(entries) && key.1 in Keys(entries)
    ensures r.Ok? ==> forall u, v :: 0 <= u < |entries| && 0 <= v < |entries| ==>
      (PairOf(entries, u, v) in r.value <==> u <= v && !(excludeSame && u == v))
    ensures r.Ok? ==> forall u, v :: 0 <= u < |entries| && 0 <= v < |entries| && PairOf(entries, u, v) in r.value ==>
      CorrelationOf(entries[u].1, entries[v].1, minObservations, pearson) == Ok(r.value[PairOf(entries, u, v)])
    ensures r.Ok? && excludeSame ==> forall x :: (x, x) !in r.value
    ensures r.Ok? ==> forall x, y :: x != y && (x, y) in r.value ==> (y, x) !in r.value
    ensures r.Err? <==> SomePairFails(entries, minObservations, excludeSame, pearson)
    ensures r.Err? ==>
      exists u, v :: Needed(entries, u, v, excludeSame) &&
        CorrelationOf(entries[u].1, entries[v].1, minObservations, pearson) == Err(r.error)
    ensures minObservations >= 2 ==> (r.Err? <==> SomeNeededEmpty(entries, excludeSame))
    ensures minObservations >= 2 && r.Err? ==> r.error == IllegalArgument
  {
    var result: map<(K, K), Coefficient> := map[];
    var p := 0;
    while p < |entries|
      invariant 0 <= p <= |entries|
      invariant PairsSoFar(entries, result, p, 0, minObservations, excludeSame, pearson)
    {
      var q := 0;
      while q < |entries|
        invariant 0 <= q <= |entries|
        invariant PairsSoFar(entries, result, p, q, minObservations, excludeSame, pearson)
      {
        var (asset1, timeserie1) := entries[p];
        var (asset2, timeserie2) := entries[q];
        PairsMirror(entries, result, p, q, minObservations, excludeSame, pearson);
        if excludeSame && asset1 == asset2 {
          PairsSkip(entries, result, p, q, minObservations, excludeSame, pearson);
        } else if (asset2, asset1) in result {
          PairsSkip(entries, result, p, q, minObservations, excludeSame, pearson);
        } else {
          var corr := Correlation(timeserie1, timeserie2, minObservations, pearson);
          if corr.Err? {
            r := Err(corr.error);
            assert Needed(entries, p, q, excludeSame);
            FailingPairs(entries, minObservations, excludeSame, pearson);
            return;
          }
          PairsAdd(entries, result, p, q, minObservations, excludeSame, pearson, corr.value);
          result := result[(asset1, asset2) := corr.value];
        }
        q := q + 1;
      }
      PairsNextRow(entries, result, p, minObservations, excludeSame, pearson);
      p := p + 1;
    }
    r := Ok(result);
    PairsAreUnordered(entries, result, excludeSame);
    PairsDone(entries, result, minObservations, excludeSame, pearson);
    FailingPairs(entries, minObservations, excludeSame, pearson);
  }

  /** A result shaped like the one `MapCorrelation` builds has no key (x, x)
      under `excludeSame`, and never both (x, y) and (y, x). */
  lemma PairsAreUnordered<K>(entries: seq<(K, Timeserie)>, result: map<(K, K), Coefficient>, excludeSame: bool)
    requires DistinctKeys(entries)
    requires forall key :: key in result ==> key.0 in Keys(entries) && key.1 in Keys(entries)
    requires forall u, v :: 0 <= u < |entries| && 0 <= v < |entries| ==>
      (PairOf(entries, u, v) in result <==> u <= v && !(excludeSame && u == v))
    ensures excludeSame ==> forall x :: (x, x) !in result
    ensures forall x, y :: x != y && (x, y) in result ==> (y, x) !in result
  {
    forall x, y | (x, y) in result
      ensures excludeSame ==> x != y
      ensures x != y ==> (y, x) !in result
    {
      var u :| 0 <= u < |entries| && entries[u].0 == x;
      var v :| 0 <= v < |entries| && entries[v].0 == y;
      assert PairOf(entries, u, v) == (x, y);
      assert PairOf(entries, v, u) == (y, x);
    }
  }
}
