/**
  The centroid initialisers of src/extractor/kmeans/initializer.ts.

  `Math.random` is an explicit oracle: a stream of draws and a read position,
  threaded through every call that draws. The distance function of the
  K-means++ initialiser is any non-negative function on two points. The
  `Map<number, P>` of chosen centroids is the class `IndexMap`, whose keys
  keep JavaScript's insertion order.
*/
module Initializer {
  import opened Js

  /** A point of any dimension. */
  type Point = seq<real>

  /** A distance is never negative. */
  type Distance = d: real | d >= 0.0

  /** The `compute` of a `DistanceFunction`. */
  type DistanceFunction = (Point, Point) -> Distance

  /** `Number.MAX_VALUE`, the largest finite double. */
  const MAX_VALUE: real := 179769313486231570814527423731704356798070567525844996598917476803157260780028538760589558632766878171540458953514382464234321326889464182768467546703537516986049910576551282076245490090389328944075868508455133942304583236903222948165808559332123348274797826204144723168738177180919299881250404026184124858368.0

  /** What `findIndex` returns when no element qualifies. */
  const NO_INDEX: int := -1

  // ---------------------------------------------------------------------------
  // The random source

  /** The draws `Math.random` would return, and how many have been used. */
  datatype Random = Random(stream: nat -> real, pos: nat)
  {
    /** The next value `Math.random()` returns. */
    function Draw(): real {
      stream(pos)
    }

    /** The source after one draw. */
    function Advance(): Random {
      Random(stream, pos + 1)
    }
  }

  /** Every draw lies in [0, 1), as `Math.random` promises. */
  ghost predicate Uniform(stream: nat -> real) {
    forall k: nat :: 0.0 <= stream(k) < 1.0
  }

  /** `Math.floor(u * n)`, the index a draw `u` picks among `n` elements. */
  function DrawIndex(u: real, n: nat): int {
    (u * n as real).Floor
  }

  /** Index `i` is drawn again at some position from `pos` on. */
  ghost predicate Reaches(stream: nat -> real, n: nat, pos: nat, i: nat) {
    exists k: nat :: k >= pos && DrawIndex(stream(k), n) == i
  }

  /**
    Every index below `n` keeps coming back. It is what makes the rejection
    loops stop: a loop waiting for an index it has not picked yet will see one.
  */
  ghost predicate Fair(stream: nat -> real, n: nat) {
    forall pos: nat, i: nat :: i < n ==> Reaches(stream, n, pos, i)
  }

  /** A draw from [0, 1) picks an index among the `n` elements. */
  lemma DrawIndexInRange(u: real, n: nat)
    requires 0.0 <= u < 1.0 && n > 0
    ensures 0 <= DrawIndex(u, n) < n
  {
    var nr := n as real;
    MulMonotone(0.0, u, nr);
    MulMonotoneStrict(u, 1.0, nr);
    assert 0.0 <= nr * u < nr;
    assert u * nr == nr * u;
  }

  /** `k` reduced below `n` by repeated subtraction. */
  function Wrap(k: nat, n: nat): (r: nat)
    requires n > 0
    ensures r < n
  {
    if k < n then k else Wrap(k - n, n)
  }

  /** A source that cycles through the `n` indices in turn. */
  function Cycle(n: nat): nat -> real {
    (k: nat) => if n == 0 then 0.0 else Wrap(k, n) as real / n as real
  }

  /** A cycling source is uniform and fair, so the initialisers' demands can be met. */
  lemma CycleIsFair(n: nat)
    ensures Uniform(Cycle(n)) && Fair(Cycle(n), n)
  {
    var s := Cycle(n);
    forall k: nat ensures 0.0 <= s(k) < 1.0 {
      if n > 0 {
        FractionBelowOne(Wrap(k, n) as real, n as real);
      }
    }
    forall pos: nat, i: nat | i < n ensures Reaches(s, n, pos, i) {
      var k := WrapReaches(n, pos, i);
      CycleDraw(n, k);
    }
  }

  lemma FractionBelowOne(v: real, d: real)
    requires 0.0 <= v < d
    ensures 0.0 <= v / d < 1.0
  {
    DivMul(v, d);
    if v / d >= 1.0 {
      MulMonotone(1.0, v / d, d);
    }
  }

  /** Every residue below `n` comes back at or after any position. */
  lemma {:induction false} WrapReaches(n: nat, pos: nat, i: nat) returns (k: nat)
    requires i < n
    ensures k >= pos && Wrap(k, n) == i
  {
    if pos == 0 {
      k := i;
    } else {
      var k0 := WrapReaches(n, pos - 1, i);
      k := k0 + n;
    }
  }

  /** The draw at `k` of a cycling source picks index `Wrap(k, n)`. */
  lemma CycleDraw(n: nat, k: nat)
    requires n > 0
    ensures DrawIndex(Cycle(n)(k), n) == Wrap(k, n)
  {
    var nr := n as real;
    var v := Wrap(k, n) as real;
    DivMul(v, nr);
    assert v / nr * nr == v;
  }

  // ---------------------------------------------------------------------------
  // Sets of indices

  /** No index occurs twice. */
  predicate Distinct(s: seq<nat>) {
    forall i, j :: 0 <= i < j < |s| ==> s[i] != s[j]
  }

  /** Fewer than `n` distinct indices below `n` leave some index below `n` out. */
  lemma {:induction false} Missing(keys: seq<nat>, n: nat)
    requires Distinct(keys) && |keys| < n
    requires forall j :: 0 <= j < |keys| ==> keys[j] < n
    ensures exists i: nat :: i < n && i !in keys
  {
    if n - 1 in keys {
      var p :| 0 <= p < |keys| && keys[p] == n - 1;
      var rest := keys[..p] + keys[p + 1..];
      assert forall j :: 0 <= j < |rest| ==> rest[j] == if j < p then keys[j] else keys[j + 1];
      assert forall j :: 0 <= j < |rest| ==> rest[j] < n - 1;
      Missing(rest, n - 1);
      var i: nat :| i < n - 1 && i !in rest;
      assert i !in keys;
    }
  }

  // ---------------------------------------------------------------------------
  // The Map of chosen centroids

  /**
    A JavaScript `Map<number, P>` from point indices to points: `keys` in
    insertion order and `vals` beside them.
  */
  class IndexMap {
    var keys: seq<nat>
    var vals: seq<Point>

    ghost predicate Valid()
      reads this
    {
      |keys| == |vals| && Distinct(keys)
    }

    /** Every entry maps an index of `data` to the point at that index. */
    ghost predicate Holds(data: seq<Point>)
      reads this
    {
      |keys| == |vals| &&
      forall j :: 0 <= j < |keys| ==> keys[j] < |data| && vals[j] == data[keys[j]]
    }

    /** `new Map()` */
    constructor ()
      ensures Valid() && keys == [] && vals == []
    {
      keys := [];
      vals := [];
    }

    /** `size` */
    function Size(): nat
      reads this
    {
      |keys|
    }

    /** `has(index)` */
    function Has(index: nat): bool
      reads this
    {
      index in keys
    }

    /** `values()`, in insertion order. */
    function Values(): seq<Point>
      reads this
    {
      vals
    }

    /** `set(index, point)`: a new key goes last; a present key keeps its place. */
    method Set(index: nat, point: Point)
      requires Valid()
      modifies this
      ensures Valid()
      ensures old(index in keys) ==>
        keys == old(keys) &&
        exists p :: 0 <= p < |keys| && keys[p] == index && vals == old(vals)[p := point]
      ensures old(index !in keys) ==> keys == old(keys) + [index] && vals == old(vals) + [point]
    {
      if index in keys {
        var p :| 0 <= p < |keys| && keys[p] == index;
        vals := vals[p := point];
      } else {
        keys := keys + [index];
        vals := vals + [point];
      }
    }
  }

  // ---------------------------------------------------------------------------
  // RandomInitializer

  /** The checks both initialisers make before choosing anything. */
  predicate IsPositiveInteger(count: Number) {
    IsInteger(count) && count.value > 0.0
  }

  /** The chosen points are the points at `chosen`, in that order. */
  ghost predicate PicksOf(points: seq<Point>, chosen: seq<nat>, r: seq<Point>) {
    |r| == |chosen| && Distinct(chosen) &&
    forall j :: 0 <= j < |chosen| ==> chosen[j] < |points| && r[j] == points[chosen[j]]
  }

  /**
    The keys the loop of `RandomInitializer` holds once the draws at positions
    `from` up to `stop` are used: each draw adds its index, unless the index is
    already present.
  */
  ghost function Collected(stream: nat -> real, n: nat, from: nat, stop: nat): seq<nat>
    requires Uniform(stream) && n > 0
    decreases stop
  {
    if stop <= from then []
    else
      var prev := Collected(stream, n, from, stop - 1);
      DrawIndexInRange(stream(stop - 1), n);
      var index: nat := DrawIndex(stream(stop - 1), n);
      if index in prev then prev else prev + [index]
  }

  /** The collected keys are distinct indices below `n`, each of them a draw. */
  lemma {:induction false} CollectedShape(stream: nat -> real, n: nat, from: nat, stop: nat)
    requires Uniform(stream) && n > 0
    decreases stop
    ensures var keys := Collected(stream, n, from, stop);
      Distinct(keys) &&
      forall j :: 0 <= j < |keys| ==>
        keys[j] < n && exists p: nat :: from <= p < stop && keys[j] == DrawIndex(stream(p), n)
  {
    if stop > from {
      CollectedShape(stream, n, from, stop - 1);
      DrawIndexInRange(stream(stop - 1), n);
    }
  }

  /** Chooses `count` distinct points uniformly at random. */
  class RandomInitializer {
    constructor () {}

    /**
      `initialize(points, count)`: a `TypeError` unless `count` is a positive
      integer; all points when there are no more than `count`; otherwise
      `count` points at distinct indices, in the order they were drawn. The
      loop draws until `count` indices are collected and stops at the draw
      that completes them.
    */
    method Initialize(points: seq<Point>, count: Number, rng: Random)
      returns (r: Result<seq<Point>>, rng': Random, ghost chosen: seq<nat>)
      requires Uniform(rng.stream) && Fair(rng.stream, |points|)
      ensures r.Err? <==> !IsPositiveInteger(count)
      ensures r.Err? ==> r.error == TypeError
      ensures rng'.stream == rng.stream
      ensures !(IsPositiveInteger(count) && count.value < |points| as real) ==> rng' == rng
      ensures IsPositiveInteger(count) && |points| as real <= count.value ==> r == Ok(points)
      ensures IsPositiveInteger(count) && count.value < |points| as real ==>
        r.Ok? && |r.value| as real == count.value && PicksOf(points, chosen, r.value) &&
        rng.pos < rng'.pos &&
        chosen == Collected(rng.stream, |points|, rng.pos, rng'.pos) &&
        (|Collected(rng.stream, |points|, rng.pos, rng'.pos - 1)| as real) < count.value
    {
      chosen := [];
      rng' := rng;
      if !IsPositiveInteger(count) {
        return Err(TypeError), rng', chosen;
      }
      if |points| as real <= count.value {
        return Ok(points), rng', chosen;
      }
      var k: nat := count.value.Floor;
      assert k as real == count.value;
      var centroids;
      centroids, rng' := Collect(points, k, rng);
      chosen := centroids.keys;
      r := Ok(centroids.Values());
    }
  }

  /**
    The loop of `RandomInitializer.initialize`: draws an index per turn and
    adds it to a new `Map` unless it is already there, until there are `k`.
  */
  method Collect(points: seq<Point>, k: nat, rng: Random) returns (centroids: IndexMap, rng': Random)
    requires Uniform(rng.stream) && Fair(rng.stream, |points|) && 0 < k < |points|
    ensures fresh(centroids)
    ensures centroids.Valid() && centroids.Holds(points) && |centroids.keys| == k
    ensures rng'.stream == rng.stream && rng.pos < rng'.pos
    ensures centroids.keys == Collected(rng.stream, |points|, rng.pos, rng'.pos)
    ensures |Collected(rng.stream, |points|, rng.pos, rng'.pos - 1)| < k
  {
    rng' := rng;
    var n := |points|;
    centroids := new IndexMap();
    ghost var target := NextFreeDraw(rng'.stream, n, centroids.keys, rng'.pos);
    while centroids.Size() < k
      invariant centroids.Valid() && centroids.Holds(points) && |centroids.keys| <= k
      invariant rng'.stream == rng.stream && rng.pos <= rng'.pos
      invariant centroids.keys == Collected(rng.stream, n, rng.pos, rng'.pos)
      invariant rng.pos < rng'.pos ==> |Collected(rng.stream, n, rng.pos, rng'.pos - 1)| < k
      invariant |centroids.keys| < k ==>
        rng'.pos <= target && DrawIndex(rng.stream(target), n) !in centroids.keys
      decreases k - |centroids.keys|, target - rng'.pos
    {
      ghost var before := centroids.keys;
      var index := DrawIndex(rng'.Draw(), n);
      DrawIndexInRange(rng'.Draw(), n);
      rng' := rng'.Advance();
      assert Collected(rng.stream, n, rng.pos, rng'.pos) ==
        if index in before then before else before + [index];
      if centroids.Has(index) {
        continue;
      }
      ghost var vals := centroids.vals;
      centroids.Set(index, points[index]);
      assert centroids.keys == before + [index] && centroids.vals == vals + [points[index]];
      if centroids.Size() < k {
        target := NextFreeDraw(rng'.stream, n, centroids.keys, rng'.pos);
      }
    }
  }

  /**
    A position from `pos` on whose draw is an index not yet in `keys`; there
    is one when `keys` leaves an index out and the source is fair.
  */
  lemma NextFreeDraw(stream: nat -> real, n: nat, keys: seq<nat>, pos: nat) returns (k: nat)
    requires Fair(stream, n) && Distinct(keys) && |keys| < n
    requires forall j :: 0 <= j < |keys| ==> keys[j] < n
    ensures k >= pos && DrawIndex(stream(k), n) !in keys
  {
    Missing(keys, n);
    var i: nat :| i < n && i !in keys;
    assert Reaches(stream, n, pos, i);
    k :| k >= pos && DrawIndex(stream(k), n) == i;
  }

  // ---------------------------------------------------------------------------
  // KmeansPlusPlusInitializer: the specification of one selection step

  /**
    The result of `computeNearestDistance`: the loop starts from `MAX_VALUE`
    and keeps a distance only when it is strictly smaller.
  */
  function NearestDistance(p: Point, selected: seq<Point>, distance: DistanceFunction): Distance
    decreases |selected|
  {
    if selected == [] then MAX_VALUE
    else
      var d := distance(p, selected[|selected| - 1]);
      var rest := NearestDistance(p, selected[..|selected| - 1], distance);
      if d < rest then d else rest
  }

  /**
    The nearest distance is the minimum over the selected points: at most
    each of their distances and equal to one of them, or `MAX_VALUE` when
    none is smaller.
  */
  lemma {:induction false} NearestDistanceIsMinimum(p: Point, selected: seq<Point>, distance: DistanceFunction)
    decreases |selected|
    ensures var r := NearestDistance(p, selected, distance);
      r <= MAX_VALUE &&
      (forall j :: 0 <= j < |selected| ==> r <= distance(p, selected[j])) &&
      (r == MAX_VALUE || exists j :: 0 <= j < |selected| && r == distance(p, selected[j]))
  {
    if selected != [] {
      var last := |selected| - 1;
      NearestDistanceIsMinimum(p, selected[..last], distance);
      var rest := NearestDistance(p, selected[..last], distance);
      assert forall j :: 0 <= j < last ==> selected[..last][j] == selected[j];
      if rest != MAX_VALUE && rest <= distance(p, selected[last]) {
        var j :| 0 <= j < last && rest == distance(p, selected[..last][j]);
        assert rest == distance(p, selected[j]);
      }
    }
  }

  /** The distance each index adds to the running total: 0 for a selected index. */
  function Weights(data: seq<Point>, keys: seq<nat>, vals: seq<Point>, distance: DistanceFunction): seq<real> {
    seq(|data|, i requires 0 <= i < |data| =>
      if i in keys then 0.0 else NearestDistance(data[i], vals, distance))
  }

  /** The sum of a sequence, taken from the front as the loop adds. */
  function Sum(s: seq<real>): real {
    if s == [] then 0.0 else Sum(s[..|s| - 1]) + s[|s| - 1]
  }

  predicate NonNegative(w: seq<real>) {
    forall i :: 0 <= i < |w| ==> w[i] >= 0.0
  }

  /** A selected index adds nothing. */
  predicate ZeroOnKeys(w: seq<real>, keys: seq<nat>) {
    forall i :: 0 <= i < |w| && i in keys ==> w[i] == 0.0
  }

  /** `totalDistanceCache` after the loop: the running total at each unselected index. */
  function Cache(w: seq<real>, keys: seq<nat>): seq<real> {
    seq(|w|, j requires 0 <= j < |w| => if j in keys then 0.0 else Sum(w[..j + 1]))
  }

  /** The test of the `findIndex` callback. */
  predicate Qualifies(cache: seq<real>, keys: seq<nat>, target: real, j: int) {
    0 <= j < |cache| && j !in keys && cache[j] != 0.0 && cache[j] > target
  }

  /** `findIndex`: the first index that qualifies, or `NO_INDEX`. */
  function FindIndex(cache: seq<real>, keys: seq<nat>, target: real): (r: int)
    ensures r == NO_INDEX || Qualifies(cache, keys, target, r)
    ensures forall j :: 0 <= j < |cache| && (r == NO_INDEX || j < r) ==> !Qualifies(cache, keys, target, j)
  {
    FindIndexFrom(cache, keys, target, 0)
  }

  function FindIndexFrom(cache: seq<real>, keys: seq<nat>, target: real, from: nat): (r: int)
    requires from <= |cache|
    ensures r == NO_INDEX || (from <= r && Qualifies(cache, keys, target, r))
    ensures forall j :: from <= j < |cache| && (r == NO_INDEX || j < r) ==> !Qualifies(cache, keys, target, j)
    decreases |cache| - from
  {
    if from == |cache| then NO_INDEX
    else if Qualifies(cache, keys, target, from) then from
    else FindIndexFrom(cache, keys, target, from + 1)
  }

  /**
    The rejection loop of `selectRandomly`: the draws from `from` up to `to`
    are used, the last of them picks an index not in `keys`, and every
    earlier one picked an index already in `keys`.
  */
  ghost predicate FirstFreeDraw(stream: nat -> real, n: nat, keys: seq<nat>, from: nat, to: nat) {
    from < to &&
    DrawIndex(stream(to - 1), n) !in keys &&
    forall p :: from <= p < to - 1 ==> DrawIndex(stream(p), n) in keys
  }

  /**
    One step of `selectBest`, from the selection `keys`/`vals` and the source
    `rng` to the new keys `keys'` with the source read up to `to`: the
    roulette pick when there is one, otherwise the first free draw after the
    one spent on the target.
  */
  ghost predicate BestStep(data: seq<Point>, keys: seq<nat>, vals: seq<Point>, distance: DistanceFunction,
                           rng: Random, to: nat, keys': seq<nat>)
  {
    var w := Weights(data, keys, vals, distance);
    var pick := FindIndex(Cache(w, keys), keys, TargetDistance(rng.Draw(), Sum(w)));
    if pick != NO_INDEX then
      keys' == keys + [pick] && to == rng.pos + 1
    else
      FirstFreeDraw(rng.stream, |data|, keys, rng.pos + 1, to) &&
      keys' == keys + [DrawIndex(rng.stream(to - 1), |data|)]
  }

  // ---------------------------------------------------------------------------
  // Properties of the cumulative cache and the roulette pick

  lemma {:induction false} SumNonNegative(s: seq<real>)
    requires NonNegative(s)
    ensures Sum(s) >= 0.0
  {
    if s != [] {
      SumNonNegative(s[..|s| - 1]);
    }
  }

  /** One more element adds its value to the sum of a prefix. */
  lemma SumPrefixStep(w: seq<real>, i: nat)
    requires i < |w|
    ensures Sum(w[..i + 1]) == Sum(w[..i]) + w[i]
  {
    assert w[..i + 1][..i] == w[..i];
  }

  /** The weight and the cache entry at one index, as one turn of the loop sees them. */
  lemma CacheEntry(data: seq<Point>, keys: seq<nat>, vals: seq<Point>, distance: DistanceFunction, i: nat)
    requires i < |data|
    ensures var w := Weights(data, keys, vals, distance);
      |w| == |Cache(w, keys)| == |data| &&
      w[i] == (if i in keys then 0.0 else NearestDistance(data[i], vals, distance)) &&
      Sum(w[..i + 1]) == Sum(w[..i]) + w[i] &&
      Cache(w, keys)[i] == (if i in keys then 0.0 else Sum(w[..i]) + w[i])
  {
    SumPrefixStep(Weights(data, keys, vals, distance), i);
  }

  /** The running total never falls along the data. */
  lemma {:induction false} SumPrefixMonotone(w: seq<real>, i: nat, j: nat)
    requires NonNegative(w) && i <= j <= |w|
    ensures Sum(w[..i]) <= Sum(w[..j])
    decreases j - i
  {
    if i < j {
      SumPrefixMonotone(w, i, j - 1);
      SumPrefixStep(w, j - 1);
    }
  }

  /**
    The cache is non-decreasing along unselected indices and is 0 at every
    selected one.
  */
  lemma CacheMonotone(w: seq<real>, keys: seq<nat>, i: nat, j: nat)
    requires NonNegative(w) && i <= j < |w| && i !in keys && j !in keys
    ensures Cache(w, keys)[i] <= Cache(w, keys)[j]
    ensures forall k :: 0 <= k < |w| && k in keys ==> Cache(w, keys)[k] == 0.0
  {
    SumPrefixMonotone(w, i + 1, j + 1);
  }

  /** A prefix whose total exceeds a non-negative target holds an index that qualifies. */
  lemma {:induction false} ExistsQualifier(w: seq<real>, keys: seq<nat>, target: real, n: nat)
    requires NonNegative(w) && ZeroOnKeys(w, keys) && 0.0 <= target
    requires n <= |w| && Sum(w[..n]) > target
    ensures exists j :: 0 <= j < n && Qualifies(Cache(w, keys), keys, target, j)
  {
    if n > 0 && w[n - 1] > 0.0 {
      SumPrefixStep(w, n - 1);
      assert Qualifies(Cache(w, keys), keys, target, n - 1);
    } else if n > 0 {
      SumPrefixStep(w, n - 1);
      ExistsQualifier(w, keys, target, n - 1);
    }
  }

  /** `targetDistance`: a draw scaled to the total distance. */
  function TargetDistance(u: real, total: real): real {
    u * total
  }

  /** The target lies in [0, total) for a draw `u` and a positive `total`. */
  lemma TargetBelowTotal(u: real, total: real)
    requires 0.0 <= u < 1.0 && total >= 0.0
    ensures 0.0 <= TargetDistance(u, total)
    ensures total > 0.0 ==> TargetDistance(u, total) < total
  {
    if total > 0.0 {
      MulMonotone(0.0, u, total);
      MulMonotoneStrict(u, 1.0, total);
      assert total * u == u * total;
    }
  }

  /**
    With exact arithmetic the roulette finds no index exactly when the total
    distance is 0, e.g. when every unselected point coincides with a centroid.
  */
  lemma FallbackIffNoDistance(w: seq<real>, keys: seq<nat>, u: real)
    requires NonNegative(w) && ZeroOnKeys(w, keys) && 0.0 <= u < 1.0
    ensures FindIndex(Cache(w, keys), keys, TargetDistance(u, Sum(w))) == NO_INDEX <==> Sum(w) == 0.0
  {
    SumNonNegative(w);
    TargetBelowTotal(u, Sum(w));
    FallbackIffNoTotal(w, keys, TargetDistance(u, Sum(w)));
  }

  lemma FallbackIffNoTotal(w: seq<real>, keys: seq<nat>, t: real)
    requires NonNegative(w) && ZeroOnKeys(w, keys) && 0.0 <= t
    requires Sum(w) > 0.0 ==> t < Sum(w)
    ensures FindIndex(Cache(w, keys), keys, t) == NO_INDEX <==> Sum(w) == 0.0
  {
    var cache := Cache(w, keys);
    SumNonNegative(w);
    assert w[..|w|] == w;
    if Sum(w) > 0.0 {
      ExistsQualifier(w, keys, t, |w|);
    } else {
      forall j | 0 <= j < |w| && j !in keys
        ensures cache[j] == 0.0
      {
        SumPrefixMonotone(w, j + 1, |w|);
        SumNonNegative(w[..j + 1]);
      }
    }
  }

  /**
    The roulette pick is an unselected index with a positive weight, and the
    target falls in its slice [Sum(w[..j]), Sum(w[..j + 1])) of the running
    total, so each index is picked with probability proportional to its weight.
  */
  lemma RouletteInterval(w: seq<real>, keys: seq<nat>, u: real)
    requires NonNegative(w) && ZeroOnKeys(w, keys) && 0.0 <= u < 1.0
    ensures var j := FindIndex(Cache(w, keys), keys, TargetDistance(u, Sum(w)));
      j != NO_INDEX ==>
        0 <= j < |w| && j !in keys && w[j] > 0.0 &&
        Sum(w[..j]) <= TargetDistance(u, Sum(w)) < Sum(w[..j + 1])
  {
    SumNonNegative(w);
    TargetBelowTotal(u, Sum(w));
    RouletteSlice(w, keys, TargetDistance(u, Sum(w)));
  }

  lemma RouletteSlice(w: seq<real>, keys: seq<nat>, t: real)
    requires NonNegative(w) && ZeroOnKeys(w, keys) && 0.0 <= t
    ensures var j := FindIndex(Cache(w, keys), keys, t);
      j != NO_INDEX ==>
        0 <= j < |w| && j !in keys && w[j] > 0.0 &&
        Sum(w[..j]) <= t < Sum(w[..j + 1])
  {
    var j := FindIndex(Cache(w, keys), keys, t);
    if j != NO_INDEX {
      SumPrefixStep(w, j);
      if Sum(w[..j]) > t {
        ExistsQualifier(w, keys, t, j);
      }
    }
  }

  /**
    What one step of `selectBest` does: it adds exactly one index not yet
    selected; when the total distance is positive that index is the roulette
    pick, whose slice of the running total holds the target, and the fallback
    to rejection sampling happens only when the total is 0.
  */
  lemma BestStepOutcome(data: seq<Point>, keys: seq<nat>, vals: seq<Point>, distance: DistanceFunction,
                        rng: Random, to: nat, keys': seq<nat>)
    requires BestStep(data, keys, vals, distance, rng, to, keys') && Uniform(rng.stream)
    ensures |keys'| == |keys| + 1 && keys'[..|keys|] == keys && keys'[|keys|] !in keys
    ensures var w := Weights(data, keys, vals, distance);
      var j := keys'[|keys|];
      Sum(w) > 0.0 ==>
        j < |data| && to == rng.pos + 1 && w[j] > 0.0 &&
        Sum(w[..j]) <= TargetDistance(rng.Draw(), Sum(w)) < Sum(w[..j + 1])
    ensures var w := Weights(data, keys, vals, distance);
      Sum(w) == 0.0 ==> FirstFreeDraw(rng.stream, |data|, keys, rng.pos + 1, to)
  {
    var w := Weights(data, keys, vals, distance);
    WeightsShape(data, keys, vals, distance);
    FallbackIffNoDistance(w, keys, rng.Draw());
    RouletteInterval(w, keys, rng.Draw());
    assert keys'[..|keys|] == keys;
  }

  /** The weights of a selection step are non-negative and 0 at selected indices. */
  lemma WeightsShape(data: seq<Point>, keys: seq<nat>, vals: seq<Point>, distance: DistanceFunction)
    ensures NonNegative(Weights(data, keys, vals, distance))
    ensures ZeroOnKeys(Weights(data, keys, vals, distance), keys)
  {
  }

  /** The points of `data` at `keys`, as the `Map` of a selection holds them. */
  ghost function ValuesAt(data: seq<Point>, keys: seq<nat>): (vals: seq<Point>)
    requires forall j :: 0 <= j < |keys| ==> keys[j] < |data|
    ensures |vals| == |keys| && forall j :: 0 <= j < |keys| ==> vals[j] == data[keys[j]]
  {
    seq(|keys|, j requires 0 <= j < |keys| => data[keys[j]])
  }

  /**
    One step of `selectRecursively` from the selection `keys` with the source
    at `pos`, to the selection `keys'` with the source at `pos'`: the first
    centroid is the first free draw, every later one a `selectBest` step.
  */
  ghost predicate PlusPlusStep(data: seq<Point>, distance: DistanceFunction, stream: nat -> real,
                               keys: seq<nat>, pos: nat, keys': seq<nat>, pos': nat)
  {
    (forall j :: 0 <= j < |keys| ==> keys[j] < |data|) &&
    if keys == [] then
      FirstFreeDraw(stream, |data|, keys, pos, pos') &&
      keys' == [DrawIndex(stream(pos' - 1), |data|)]
    else
      BestStep(data, keys, ValuesAt(data, keys), distance, Random(stream, pos), pos', keys')
  }

  /**
    The steps of `selectRecursively` lead from `keys` with the source at
    `pos` to `final` with the source at `stop`, one new centroid at a time.
  */
  ghost predicate PlusPlusSteps(data: seq<Point>, distance: DistanceFunction, stream: nat -> real,
                                keys: seq<nat>, pos: nat, final: seq<nat>, stop: nat)
    decreases |final| - |keys|
  {
    if |final| <= |keys| then keys == final && pos == stop
    else exists keys': seq<nat>, pos': nat ::
      |keys'| == |keys| + 1 &&
      PlusPlusStep(data, distance, stream, keys, pos, keys', pos') &&
      PlusPlusSteps(data, distance, stream, keys', pos', final, stop)
  }

  /** `selectRandomly` on an empty selection is a step, and uses exactly one draw. */
  lemma FirstStep(data: seq<Point>, distance: DistanceFunction, stream: nat -> real,
                  pos: nat, keys': seq<nat>, pos': nat)
    requires FirstFreeDraw(stream, |data|, [], pos, pos')
    requires keys' == [] + [DrawIndex(stream(pos' - 1), |data|)]
    ensures PlusPlusStep(data, distance, stream, [], pos, keys', pos')
    ensures pos' == pos + 1
  {
    var first := DrawIndex(stream(pos), |data|);
    assert pos' > pos + 1 ==> first in [];
  }

  /** `selectBest` on the values the `Map` holds for `keys` is a step. */
  lemma LaterStep(data: seq<Point>, distance: DistanceFunction, stream: nat -> real,
                  keys: seq<nat>, vals: seq<Point>, pos: nat, keys': seq<nat>, pos': nat)
    requires keys != [] && |vals| == |keys|
    requires forall j :: 0 <= j < |keys| ==> keys[j] < |data| && vals[j] == data[keys[j]]
    requires BestStep(data, keys, vals, distance, Random(stream, pos), pos', keys')
    ensures PlusPlusStep(data, distance, stream, keys, pos, keys', pos')
  {
    assert vals == ValuesAt(data, keys);
  }

  /** A step appends exactly one centroid that was not chosen before. */
  lemma StepAppendsFresh(data: seq<Point>, distance: DistanceFunction, stream: nat -> real,
                         keys: seq<nat>, pos: nat, keys': seq<nat>, pos': nat)
    requires Uniform(stream)
    requires PlusPlusStep(data, distance, stream, keys, pos, keys', pos')
    ensures |keys'| == |keys| + 1 && keys' == keys + [keys'[|keys|]] && keys'[|keys|] !in keys
  {
    if keys != [] {
      BestStepOutcome(data, keys, ValuesAt(data, keys), distance, Random(stream, pos), pos', keys');
    }
    assert keys' == keys'[..|keys|] + [keys'[|keys|]];
  }

  /** A step followed by a chain of steps is a chain of steps. */
  lemma StepsCons(data: seq<Point>, distance: DistanceFunction, stream: nat -> real,
                  keys: seq<nat>, pos: nat, keys': seq<nat>, pos': nat, final: seq<nat>, stop: nat)
    requires |keys'| == |keys| + 1 && |keys'| <= |final|
    requires PlusPlusStep(data, distance, stream, keys, pos, keys', pos')
    requires PlusPlusSteps(data, distance, stream, keys', pos', final, stop)
    ensures PlusPlusSteps(data, distance, stream, keys, pos, final, stop)
  {
  }

  /**
    The steps only ever append centroids not chosen before, so a chain that
    starts from distinct keys ends with distinct keys extending them.
  */
  lemma {:induction false} PlusPlusStepsDistinct(data: seq<Point>, distance: DistanceFunction,
                                                 stream: nat -> real, keys: seq<nat>, pos: nat,
                                                 final: seq<nat>, stop: nat)
    requires Uniform(stream) && Distinct(keys)
    requires PlusPlusSteps(data, distance, stream, keys, pos, final, stop)
    decreases |final| - |keys|
    ensures keys <= final && Distinct(final)
  {
    if |final| > |keys| {
      var keys': seq<nat>, pos': nat :|
        |keys'| == |keys| + 1 &&
        PlusPlusStep(data, distance, stream, keys, pos, keys', pos') &&
        PlusPlusSteps(data, distance, stream, keys', pos', final, stop);
      StepAppendsFresh(data, distance, stream, keys, pos, keys', pos');
      DistinctAppend(keys, keys'[|keys|]);
      PlusPlusStepsDistinct(data, distance, stream, keys', pos', final, stop);
    }
  }

  lemma DistinctAppend(keys: seq<nat>, x: nat)
    requires Distinct(keys) && x !in keys
    ensures Distinct(keys + [x])
  {
  }

  // ---------------------------------------------------------------------------
  // KmeansPlusPlusInitializer

  /** Chooses the first centroid at random and each further one by its distance. */
  class KmeansPlusPlusInitializer {
    const distance: DistanceFunction

    constructor (distance: DistanceFunction)
      ensures this.distance == distance
    {
      this.distance := distance;
    }

    /**
      `initialize(points, count)`: the same checks and result shape as the
      random initialiser; the first centroid is the point at the first draw,
      and each later one the outcome of a `selectBest` step on the centroids
      chosen so far.
    */
    method Initialize(points: seq<Point>, count: Number, rng: Random)
      returns (r: Result<seq<Point>>, rng': Random, ghost chosen: seq<nat>)
      requires Uniform(rng.stream) && Fair(rng.stream, |points|)
      ensures r.Err? <==> !IsPositiveInteger(count)
      ensures r.Err? ==> r.error == TypeError
      ensures IsPositiveInteger(count) && |points| as real <= count.value ==> r == Ok(points)
      ensures rng'.stream == rng.stream
      ensures !(IsPositiveInteger(count) && count.value < |points| as real) ==> rng' == rng
      ensures IsPositiveInteger(count) && count.value < |points| as real ==>
        r.Ok? && |r.value| as real == count.value && PicksOf(points, chosen, r.value) &&
        chosen[0] == DrawIndex(rng.Draw(), |points|) &&
        PlusPlusSteps(points, distance, rng.stream, [], rng.pos, chosen, rng'.pos)
    {
      chosen := [];
      rng' := rng;
      if !IsPositiveInteger(count) {
        return Err(TypeError), rng', chosen;
      }
      if |points| as real <= count.value {
        return Ok(points), rng', chosen;
      }
      var k: nat := count.value.Floor;
      var selected := new IndexMap();
      rng' := SelectRecursively(points, k, selected, rng);
      chosen := selected.keys;
      r := Ok(selected.Values());
    }

    /** `selectRecursively`: each step adds one new index until there are `k`. */
    method SelectRecursively(data: seq<Point>, k: nat, selected: IndexMap, rng: Random) returns (rng': Random)
      requires selected.Valid() && selected.Holds(data) && selected.Size() <= k <= |data|
      requires Uniform(rng.stream) && Fair(rng.stream, |data|)
      modifies selected
      ensures selected.Valid() && selected.Holds(data) && |selected.keys| == k
      ensures old(selected.keys) <= selected.keys
      ensures rng'.stream == rng.stream
      ensures old(|selected.keys|) == 0 < k ==> selected.keys[0] == DrawIndex(rng.Draw(), |data|)
      ensures PlusPlusSteps(data, distance, rng.stream, old(selected.keys), rng.pos, selected.keys, rng'.pos)
      decreases k - selected.Size()
    {
      if selected.Size() == k {
        return rng;
      }
      ghost var keys0 := selected.keys;
      var rng1 := SelectNext(data, selected, rng);
      ghost var keys1 := selected.keys;
      StepAppendsFresh(data, distance, rng.stream, keys0, rng.pos, keys1, rng1.pos);
      rng' := SelectRecursively(data, k, selected, rng1);
      assert keys1 <= selected.keys && keys1[0] == selected.keys[0];
      StepsCons(data, distance, rng.stream, keys0, rng.pos, keys1, rng1.pos, selected.keys, rng'.pos);
    }

    /** The step of `selectRecursively`: `selectRandomly` on an empty selection, `selectBest` otherwise. */
    method SelectNext(data: seq<Point>, selected: IndexMap, rng: Random) returns (rng': Random)
      requires selected.Valid() && selected.Holds(data) && selected.Size() < |data|
      requires Uniform(rng.stream) && Fair(rng.stream, |data|)
      modifies selected
      ensures selected.Valid() && selected.Holds(data)
      ensures rng'.stream == rng.stream
      ensures old(selected.keys) == [] ==> selected.keys == [DrawIndex(rng.Draw(), |data|)]
      ensures PlusPlusStep(data, distance, rng.stream, old(selected.keys), rng.pos, selected.keys, rng'.pos)
    {
      if selected.Size() == 0 {
        rng' := SelectRandomly(data, selected, rng);
        FirstStep(data, distance, rng.stream, rng.pos, selected.keys, rng'.pos);
      } else {
        ghost var keys0, vals0 := selected.keys, selected.vals;
        rng' := SelectBest(data, selected, rng);
        LaterStep(data, distance, rng.stream, keys0, vals0, rng.pos, selected.keys, rng'.pos);
      }
    }

    /**
      `selectBest`: fills the cache with the running total of nearest
      distances over the unselected indices, then adds the first unselected
      index whose cached total exceeds the target, or falls back to
      `selectRandomly` when there is none.
    */
    method SelectBest(data: seq<Point>, selected: IndexMap, rng: Random) returns (rng': Random)
      requires selected.Valid() && selected.Holds(data) && 0 < selected.Size() < |data|
      requires Uniform(rng.stream) && Fair(rng.stream, |data|)
      modifies selected
      ensures selected.Valid() && selected.Holds(data)
      ensures rng'.stream == rng.stream
      ensures BestStep(data, old(selected.keys), old(selected.vals), distance, rng, rng'.pos, selected.keys)
    {
      var cache, totalDistance := FillCache(data, selected);
      var targetDistance := TargetDistance(rng.Draw(), totalDistance);
      var rng1 := rng.Advance();
      var targetIndex := FindIndex(cache[..], selected.keys, targetDistance);
      if targetIndex == NO_INDEX {
        rng' := SelectRandomly(data, selected, rng1);
        return;
      }
      selected.Set(targetIndex, data[targetIndex]);
      rng' := rng1;
    }

    /**
      The loop of `selectBest`: the running total of nearest distances,
      stored at each unselected index of a fresh `Float32Array`.
    */
    method FillCache(data: seq<Point>, selected: IndexMap) returns (cache: array<real>, totalDistance: real)
      ensures fresh(cache)
      ensures var w := Weights(data, selected.keys, selected.vals, distance);
        cache[..] == Cache(w, selected.keys) && totalDistance == Sum(w)
    {
      var n := |data|;
      cache := new real[n](_ => 0.0);
      totalDistance := 0.0;
      ghost var w := Weights(data, selected.keys, selected.vals, distance);
      ghost var c := Cache(w, selected.keys);
      for i := 0 to n
        invariant totalDistance == Sum(w[..i])
        invariant forall j :: 0 <= j < n ==> cache[j] == if j < i then c[j] else 0.0
      {
        CacheEntry(data, selected.keys, selected.vals, distance, i);
        if selected.Has(i) {
          continue;
        }
        var nearestDistance := ComputeNearestDistance(data[i], selected);
        totalDistance := totalDistance + nearestDistance;
        cache[i] := totalDistance;
      }
      assert w[..n] == w;
    }

    /** `computeNearestDistance`: the smallest distance to a selected point. */
    method ComputeNearestDistance(point: Point, selected: IndexMap) returns (r: Distance)
      ensures r == NearestDistance(point, selected.Values(), distance)
    {
      var values := selected.Values();
      r := MAX_VALUE;
      for i := 0 to |values|
        invariant r == NearestDistance(point, values[..i], distance)
      {
        assert values[..i + 1][..i] == values[..i];
        var d := distance(point, values[i]);
        if d < r {
          r := d;
        }
      }
      assert values[..|values|] == values;
    }

    /** `selectRandomly`: draws until an index not yet selected comes up, and adds it. */
    static method SelectRandomly(data: seq<Point>, selected: IndexMap, rng: Random) returns (rng': Random)
      requires selected.Valid() && selected.Holds(data) && selected.Size() < |data|
      requires Uniform(rng.stream) && Fair(rng.stream, |data|)
      modifies selected
      ensures selected.Valid() && selected.Holds(data)
      ensures rng'.stream == rng.stream
      ensures FirstFreeDraw(rng.stream, |data|, old(selected.keys), rng.pos, rng'.pos)
      ensures selected.keys == old(selected.keys) + [DrawIndex(rng.stream(rng'.pos - 1), |data|)]
    {
      var n := |data|;
      ghost var target := NextFreeDraw(rng.stream, n, selected.keys, rng.pos);
      var index := DrawIndex(rng.Draw(), n);
      DrawIndexInRange(rng.Draw(), n);
      rng' := rng.Advance();
      while selected.Has(index)
        invariant rng'.stream == rng.stream && rng.pos < rng'.pos <= target + 1
        invariant index == DrawIndex(rng.stream(rng'.pos - 1), n) && 0 <= index < n
        invariant forall p :: rng.pos <= p < rng'.pos - 1 ==> DrawIndex(rng.stream(p), n) in selected.keys
        invariant unchanged(selected)
        decreases target + 1 - rng'.pos
      {
        index := DrawIndex(rng'.Draw(), n);
        DrawIndexInRange(rng'.Draw(), n);
        rng' := rng'.Advance();
      }
      selected.Set(index, data[index]);
    }
  }
}
