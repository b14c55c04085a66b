/** The nonparametric bootstrap interval: resample means drawn with the generator, sorted, and read
    off at two percentiles. `f64` is modelled by `real`. */
module Bootstrap {
  import opened Wrappers
  import opened Sorting
  import opened Reals
  import opened SplitMix

  datatype Interval = Interval(point: real, lower: real, upper: real, level: real, resamples: nat)

  function MeanOf(xs: seq<real>): real {
    if xs == [] then 0.0 else Sum(xs) / |xs| as real
  }

  // ---- percentiles ----

  function Clamp(q: real): real { if q < 0.0 then 0.0 else if 1.0 < q then 1.0 else q }

  /** The value at fractional position `pos`: linear between the neighbours. */
  function Interpolate(sorted: seq<real>, pos: real): real
    requires 0.0 <= pos <= (|sorted| - 1) as real
  {
    var lo, hi := pos.Floor, Ceil(pos);
    if lo == hi then sorted[lo]
    else
      var frac := pos - lo as real;
      sorted[lo] * (1.0 - frac) + sorted[hi] * frac
  }

  function Scaled(q: real, m: nat): real { q * m as real }

  function Position(n: nat, q: real): (pos: real)
    requires 0 < n
    ensures 0.0 <= pos <= (n - 1) as real
  {
    ScaledMonotone(0.0, Clamp(q), n - 1);
    ScaledMonotone(Clamp(q), 1.0, n - 1);
    Scaled(Clamp(q), n - 1)
  }

  lemma ScaledMonotone(a: real, b: real, m: nat)
    requires a <= b
    ensures Scaled(a, m) <= Scaled(b, m)
    ensures Scaled(0.0, m) == 0.0 && Scaled(1.0, m) == m as real
  {
    MulMonotone(a, b, m as real);
  }

  function PercentileSorted(sorted: seq<real>, q: real): real {
    if sorted == [] then 0.0
    else if |sorted| == 1 then sorted[0]
    else Interpolate(sorted, Position(|sorted|, q))
  }

  ghost predicate Within(xs: seq<real>, lo: real, hi: real) {
    forall i :: 0 <= i < |xs| ==> lo <= xs[i] <= hi
  }

  /** A weighted average of two values lies between them. */
  lemma Between(a: real, b: real, t: real)
    requires a <= b && 0.0 <= t <= 1.0
    ensures a <= a * (1.0 - t) + b * t <= b
  {
    MulMonotone(a, b, t);
    ShrinkDifference(a, b, t);
    assert a * (1.0 - t) == a - a * t;
  }

  lemma ShrinkDifference(a: real, b: real, t: real)
    requires a <= b && t <= 1.0
    ensures b * t - a * t <= b - a
  {
    var d, rest := b - a, 1.0 - t;
    TimesNonNegative(d, rest);
    assert d * rest == d - (b * t - a * t);
  }

  lemma BetweenMonotone(a: real, b: real, s: real, t: real)
    requires a <= b && s <= t
    ensures a * (1.0 - s) + b * s <= a * (1.0 - t) + b * t
  {
    MulMonotone(s, t, b - a);
    assert a * (1.0 - s) + b * s == a + s * (b - a);
    assert a * (1.0 - t) + b * t == a + t * (b - a);
  }

  /** The interpolated value lies between the two samples around its position. */
  lemma InterpolateBetween(sorted: seq<real>, pos: real)
    requires Sorted(AtMost, sorted) && 0.0 <= pos <= (|sorted| - 1) as real
    ensures sorted[pos.Floor] <= Interpolate(sorted, pos) <= sorted[Ceil(pos)]
  {
    var lo, hi := pos.Floor, Ceil(pos);
    if lo != hi {
      assert AtMost(sorted[lo], sorted[hi]);
      Between(sorted[lo], sorted[hi], pos - lo as real);
    }
  }

  lemma InterpolateMonotone(sorted: seq<real>, p: real, q: real)
    requires Sorted(AtMost, sorted) && 0.0 <= p <= q <= (|sorted| - 1) as real
    ensures Interpolate(sorted, p) <= Interpolate(sorted, q)
  {
    InterpolateBetween(sorted, p);
    InterpolateBetween(sorted, q);
    if Ceil(p) < q.Floor {
      assert AtMost(sorted[Ceil(p)], sorted[q.Floor]);
    } else if p.Floor == q.Floor && Ceil(p) == Ceil(q) && p.Floor != Ceil(p) {
      assert AtMost(sorted[p.Floor], sorted[Ceil(p)]);
      BetweenMonotone(sorted[p.Floor], sorted[Ceil(p)], p - p.Floor as real, q - q.Floor as real);
    }
  }

  /** The percentile of a sorted sample does not fall as `q` grows. */
  lemma PercentileMonotone(sorted: seq<real>, p: real, q: real)
    requires Sorted(AtMost, sorted) && p <= q
    ensures PercentileSorted(sorted, p) <= PercentileSorted(sorted, q)
  {
    if 2 <= |sorted| {
      ScaledMonotone(Clamp(p), Clamp(q), |sorted| - 1);
      InterpolateMonotone(sorted, Position(|sorted|, p), Position(|sorted|, q));
    }
  }

  lemma PercentileWithin(sorted: seq<real>, q: real, lo: real, hi: real)
    requires Sorted(AtMost, sorted) && sorted != [] && Within(sorted, lo, hi)
    ensures lo <= PercentileSorted(sorted, q) <= hi
  {
    if 2 <= |sorted| {
      InterpolateBetween(sorted, Position(|sorted|, q));
    }
  }

  // ---- resampling ----

  /** `(rng.next_u64() % n) as usize`. */
  function IndexOf(draw: bv64, n: nat): (i: nat)
    requires 0 < n
    ensures i < n
  {
    (draw as int) % n
  }

  lemma Division(x: nat, n: nat) returns (q: nat)
    requires 0 < n
    ensures x == q * n + x % n
  {
    q := x / n;
  }

  /** The index is what is left of the draw after whole multiples of `n`. */
  lemma IndexIsRemainder(draw: bv64, n: nat) returns (q: nat)
    requires 0 < n
    ensures draw as int == q * n + IndexOf(draw, n)
  {
    q := Division(draw as int, n);
  }

  /** Which element draw number `k` picks. */
  type Picker = nat -> nat

  function PickerOf(seed: bv64, n: nat): Picker
    requires 0 < n
  {
    (k: nat) => IndexOf(Draw(seed, k), n)
  }

  /** `pick` chooses among `n` elements by the draws of the generator seeded with `seed`. */
  ghost predicate DrivenBy(pick: Picker, seed: bv64, n: nat)
    requires 0 < n
  {
    forall k: nat {:trigger Draw(seed, k)} :: pick(k) == IndexOf(Draw(seed, k), n)
  }

  lemma PickerIsDriven(seed: bv64, n: nat)
    requires 0 < n
    ensures DrivenBy(PickerOf(seed, n), seed, n) && PicksFrom(PickerOf(seed, n), n)
  {
  }

  ghost predicate PicksFrom(pick: Picker, n: nat) { forall k: nat :: pick(k) < n }

  /** The sum of `m` elements picked by the draws from number `first` on. */
  function PickedSum(sample: seq<real>, pick: Picker, first: nat, m: nat): real
    requires PicksFrom(pick, |sample|)
  {
    if m == 0 then 0.0
    else PickedSum(sample, pick, first, m - 1) + sample[pick(first + m - 1)]
  }

  function ResampleMean(sample: seq<real>, pick: Picker, j: nat): real
    requires sample != [] && PicksFrom(pick, |sample|)
  {
    PickedSum(sample, pick, j * |sample|, |sample|) / |sample| as real
  }

  function ResampleMeans(sample: seq<real>, pick: Picker, resamples: nat): (means: seq<real>)
    requires sample != [] && PicksFrom(pick, |sample|)
    ensures |means| == resamples
  {
    if resamples == 0 then []
    else ResampleMeans(sample, pick, resamples - 1) + [ResampleMean(sample, pick, resamples - 1)]
  }

  /** The interval read off the sorted resample means. */
  function ReadOff(sorted: seq<real>, point: real, level: real, resamples: nat): Interval {
    var tail := (1.0 - level) / 2.0;
    Interval(point, PercentileSorted(sorted, tail), PercentileSorted(sorted, 1.0 - tail), level, resamples)
  }

  /** The whole computation as a function of the sample, the level, the count and the seed. */
  function IntervalFor(sample: seq<real>, level: real, resamples: nat, seed: bv64): Option<Interval> {
    if sample == [] || resamples == 0 || !(0.0 <= level < 1.0) then None
    else if |sample| == 1 then Some(Interval(MeanOf(sample), MeanOf(sample), MeanOf(sample), level, resamples))
    else
      var means := ResampleMeans(sample, PickerOf(seed, |sample|), resamples);
      Some(ReadOff(Sort(means, AtMost), MeanOf(sample), level, resamples))
  }

  // ---- the pieces, by what they come to ----

  /** The elements that `m` draws from number `first` on choose: each draw, modulo the length. */
  function Drawn(sample: seq<real>, seed: bv64, first: nat, m: nat): (d: seq<real>)
    requires sample != []
    ensures |d| == m && forall i :: 0 <= i < m ==> d[i] == sample[(Draw(seed, first + i) as int) % |sample|]
  {
    seq(m, i requires 0 <= i < m => sample[(Draw(seed, first + i) as int) % |sample|])
  }

  /** Resample `j` takes the draws from `j` times the length on. */
  function Resample(sample: seq<real>, seed: bv64, j: nat): (d: seq<real>)
    requires sample != []
    ensures |d| == |sample|
  {
    Drawn(sample, seed, j * |sample|, |sample|)
  }

  ghost predicate IsMean(mean: real, xs: seq<real>) { mean * |xs| as real == Sum(xs) }

  lemma DrawnNext(sample: seq<real>, seed: bv64, first: nat, m: nat)
    requires sample != []
    ensures Sum(Drawn(sample, seed, first, m + 1)) ==
            Sum(Drawn(sample, seed, first, m)) + sample[(Draw(seed, first + m) as int) % |sample|]
  {
    var all := Drawn(sample, seed, first, m + 1);
    assert all[..m] == Drawn(sample, seed, first, m);
  }

  lemma {:induction false} PickedAreDrawn(sample: seq<real>, pick: Picker, seed: bv64, first: nat, m: nat)
    requires sample != [] && DrivenBy(pick, seed, |sample|) && PicksFrom(pick, |sample|)
    ensures PickedSum(sample, pick, first, m) == Sum(Drawn(sample, seed, first, m))
  {
    if 0 < m {
      PickedAreDrawn(sample, pick, seed, first, m - 1);
      DrawnNext(sample, seed, first, m - 1);
      assert pick(first + m - 1) == IndexOf(Draw(seed, first + m - 1), |sample|);
    }
  }

  lemma QuotientIsMean(total: real, n: nat, xs: seq<real>)
    requires |xs| == n && 0 < n && Sum(xs) == total
    ensures IsMean(total / n as real, xs)
  {
  }

  lemma ResampleIsOfDraws(sample: seq<real>, pick: Picker, seed: bv64, j: nat)
    requires sample != [] && DrivenBy(pick, seed, |sample|) && PicksFrom(pick, |sample|)
    ensures IsMean(ResampleMean(sample, pick, j), Resample(sample, seed, j))
  {
    var n := |sample|;
    PickedAreDrawn(sample, pick, seed, j * n, n);
    QuotientIsMean(PickedSum(sample, pick, j * n, n), n, Resample(sample, seed, j));
  }

  lemma {:induction false} ResampleMeansAt(sample: seq<real>, pick: Picker, resamples: nat, j: nat)
    requires sample != [] && PicksFrom(pick, |sample|) && j < resamples
    ensures ResampleMeans(sample, pick, resamples)[j] == ResampleMean(sample, pick, j)
  {
    if j < resamples - 1 {
      ResampleMeansAt(sample, pick, resamples - 1, j);
    }
  }

  /** Each mean is that of its resample. */
  lemma MeansAreOfDraws(sample: seq<real>, pick: Picker, seed: bv64, resamples: nat)
    requires sample != [] && DrivenBy(pick, seed, |sample|) && PicksFrom(pick, |sample|)
    ensures forall j :: 0 <= j < resamples ==>
              IsMean(ResampleMeans(sample, pick, resamples)[j], Resample(sample, seed, j))
  {
    forall j | 0 <= j < resamples
      ensures IsMean(ResampleMeans(sample, pick, resamples)[j], Resample(sample, seed, j))
    {
      ResampleMeansAt(sample, pick, resamples, j);
      ResampleIsOfDraws(sample, pick, seed, j);
    }
  }

  lemma AllOrNothing(a: real, b: real, t: real)
    ensures t == 0.0 ==> a + t * (b - a) == a
    ensures t == 1.0 ==> a + t * (b - a) == b
  {
  }

  /** Between two neighbours the value moves linearly. */
  lemma InterpolateIsLinear(sorted: seq<real>, i: nat, t: real)
    requires i + 1 < |sorted| && 0.0 <= t <= 1.0
    ensures Interpolate(sorted, i as real + t) == sorted[i] + t * (sorted[i + 1] - sorted[i])
  {
    var pos := i as real + t;
    if t == 0.0 {
      assert pos.Floor == i && Ceil(pos) == i;
      AllOrNothing(sorted[i], sorted[i + 1], t);
    } else if t == 1.0 {
      assert pos.Floor == i + 1 && Ceil(pos) == i + 1;
      AllOrNothing(sorted[i], sorted[i + 1], t);
    } else {
      assert pos.Floor == i && Ceil(pos) == i + 1;
      LinearForm(sorted[i], sorted[i + 1], t);
    }
  }

  lemma LinearForm(a: real, b: real, t: real)
    ensures a * (1.0 - t) + b * t == a + t * (b - a)
  {
  }

  /** The percentile at `q` is `q` of the way from the first value to the last, counted in neighbours. */
  lemma PercentileIsLinear(sorted: seq<real>, q: real, i: nat, t: real)
    requires i + 1 < |sorted| && 0.0 <= t <= 1.0 && 0.0 <= q <= 1.0
    requires q * (|sorted| - 1) as real == i as real + t
    ensures PercentileSorted(sorted, q) == sorted[i] + t * (sorted[i + 1] - sorted[i])
  {
    assert Scaled(Clamp(q), |sorted| - 1) == i as real + t;
    assert Position(|sorted|, q) == i as real + t;
    InterpolateIsLinear(sorted, i, t);
  }

  /** The two percentiles an interval is read off at. */
  lemma ReadOffIs(sorted: seq<real>, point: real, level: real, resamples: nat)
    ensures ReadOff(sorted, point, level, resamples) ==
            Interval(point, PercentileSorted(sorted, (1.0 - level) / 2.0),
              PercentileSorted(sorted, (1.0 + level) / 2.0),
                     level, resamples)
  {
    assert 1.0 - (1.0 - level) / 2.0 == (1.0 + level) / 2.0;
  }

  /** What the interval is: the mean of the sample, and the percentiles at `(1 - level) / 2` and
      `(1 + level) / 2` of the sorted means of the resamples. */
  lemma IntervalIs(sample: seq<real>, level: real, resamples: nat, seed: bv64) returns (means: seq<real>)
    requires 2 <= |sample| && 0 < resamples && 0.0 <= level < 1.0
    ensures |means| == resamples && forall j :: 0 <= j < resamples ==> IsMean(means[j], Resample(sample, seed, j))
    ensures IsIntervalOf(IntervalFor(sample, level, resamples, seed), sample, means, level)
  {
    var pick := PickerOf(seed, |sample|);
    PickerIsDriven(seed, |sample|);
    MeansAreOfDraws(sample, pick, seed, resamples);
    means := ResampleMeans(sample, pick, resamples);
    IntervalOfMeans(sample, level, resamples, seed);
  }

  ghost predicate IsIntervalOf(ci: Option<Interval>, sample: seq<real>, means: seq<real>, level: real) {
    && ci.Some? && IsMean(ci.value.point, sample)
    && ci.value.lower == PercentileSorted(Sort(means, AtMost), (1.0 - level) / 2.0)
    && ci.value.upper == PercentileSorted(Sort(means, AtMost), (1.0 + level) / 2.0)
    && ci.value.level == level && ci.value.resamples == |means|
  }

  lemma IntervalOfMeans(sample: seq<real>, level: real, resamples: nat, seed: bv64)
    requires 2 <= |sample| && 0 < resamples && 0.0 <= level < 1.0
    requires PicksFrom(PickerOf(seed, |sample|), |sample|)
    ensures IsIntervalOf(IntervalFor(sample, level, resamples, seed), sample,
                         ResampleMeans(sample, PickerOf(seed, |sample|), resamples), level)
  {
    var means := ResampleMeans(sample, PickerOf(seed, |sample|), resamples);
    QuotientIsMean(Sum(sample), |sample|, sample);
    ReadOffIs(Sort(means, AtMost), MeanOf(sample), level, resamples);
  }

  /** At the level 0.95 those are the percentiles at 0.025 and 0.975. */
  lemma NinetyFive(sorted: seq<real>, point: real, resamples: nat)
    ensures ReadOff(sorted, point, 0.95, resamples) ==
            Interval(point, PercentileSorted(sorted, 0.025), PercentileSorted(sorted, 0.975), 0.95, resamples)
  {
    ReadOffIs(sorted, point, 0.95, resamples);
  }

  /** Level 0 is accepted, and both ends of its interval are the median of the resample means. */
  lemma LevelZeroIsMedian(sample: seq<real>, resamples: nat, seed: bv64)
    requires sample != [] && 0 < resamples
    ensures var ci := IntervalFor(sample, 0.0, resamples, seed);
            && ci.Some? && ci.value.lower == ci.value.upper
            && (2 <= |sample| ==>
                  var means := ResampleMeans(sample, PickerOf(seed, |sample|), resamples);
                  ci.value.lower == PercentileSorted(Sort(means, AtMost), 0.5))
  {
  }

  method NextIndex(rng: SplitMix64, n: nat, ghost pick: Picker, ghost seed: bv64, ghost k: nat) returns (i: nat)
    requires 0 < n && DrivenBy(pick, seed, n) && rng.state == StateAfter(seed, k)
    modifies rng
    ensures rng.state == StateAfter(seed, k + 1) && i == pick(k) && i < n
  {
    var z := rng.NextU64();
    assert z == Draw(seed, k);
    i := IndexOf(z, n);
  }

  lemma NextResample(j: nat, n: nat)
    ensures (j + 1) * n == j * n + n
  {
  }

  /** The inner loop: one draw from the sample per element of the sample. */
  method SumPicked(sample: seq<real>, rng: SplitMix64, ghost seed: bv64, ghost pick: Picker, ghost first: nat)
    returns (acc: real)
    requires sample != [] && DrivenBy(pick, seed, |sample|) && PicksFrom(pick, |sample|)
    requires rng.state == StateAfter(seed, first)
    modifies rng
    ensures rng.state == StateAfter(seed, first + |sample|)
    ensures acc == PickedSum(sample, pick, first, |sample|)
  {
    acc := 0.0;
    for i := 0 to |sample|
      invariant rng.state == StateAfter(seed, first + i)
      invariant acc == PickedSum(sample, pick, first, i)
    {
      var idx := NextIndex(rng, |sample|, pick, seed, first + i);
      acc := acc + sample[idx];
    }
  }

  method ResampleOnce(sample: seq<real>, rng: SplitMix64, ghost seed: bv64, ghost pick: Picker, ghost j: nat)
    returns (mean: real)
    requires sample != [] && DrivenBy(pick, seed, |sample|) && PicksFrom(pick, |sample|)
    requires rng.state == StateAfter(seed, j * |sample|)
    modifies rng
    ensures rng.state == StateAfter(seed, (j + 1) * |sample|)
    ensures mean == ResampleMean(sample, pick, j)
  {
    var acc := SumPicked(sample, rng, seed, pick, j * |sample|);
    NextResample(j, |sample|);
    mean := acc / |sample| as real;
  }

  method BootstrapCiWith(sample: seq<real>, level: real, resamples: nat, seed: bv64) returns (ci: Option<Interval>)
    ensures ci == IntervalFor(sample, level, resamples, seed)
  {
    if sample == [] || resamples == 0 || !(0.0 <= level < 1.0) {
      return None;
    }
    var point := MeanOf(sample);
    if |sample| == 1 {
      return Some(Interval(point, point, point, level, resamples));
    }
    var rng := new SplitMix64(seed);
    var means: seq<real> := [];
    ghost var pick := PickerOf(seed, |sample|);
    PickerIsDriven(seed, |sample|);
    for j := 0 to resamples
      invariant rng.state == StateAfter(seed, j * |sample|) && fresh(rng)
      invariant means == ResampleMeans(sample, pick, j)
    {
      var mean := ResampleOnce(sample, rng, seed, pick, j);
      means := means + [mean];
    }
    return Some(ReadOff(Sort(means, AtMost), point, level, resamples));
  }

  // ---- what the interval is worth ----

  lemma OneMore(x: real, m: nat)
    requires 0 < m
    ensures x * m as real == x * (m - 1) as real + x
  {
  }

  lemma {:induction false} SumWithin(xs: seq<real>, lo: real, hi: real)
    requires Within(xs, lo, hi)
    ensures lo * |xs| as real <= Sum(xs) <= hi * |xs| as real
  {
    if xs != [] {
      SumWithin(xs[..|xs| - 1], lo, hi);
      OneMore(lo, |xs|);
      OneMore(hi, |xs|);
    }
  }

  lemma {:induction false} PickedWithin(sample: seq<real>, pick: Picker, first: nat, m: nat, lo: real, hi: real)
    requires PicksFrom(pick, |sample|) && Within(sample, lo, hi)
    ensures lo * m as real <= PickedSum(sample, pick, first, m) <= hi * m as real
  {
    if m > 0 {
      PickedWithin(sample, pick, first, m - 1, lo, hi);
      OneMore(lo, m);
      OneMore(hi, m);
    }
  }

  /** A resample mean lies between the sample's bounds. */
  lemma ResampleMeanWithin(sample: seq<real>, pick: Picker, j: nat, lo: real, hi: real)
    requires sample != [] && PicksFrom(pick, |sample|) && Within(sample, lo, hi)
    ensures lo <= ResampleMean(sample, pick, j) <= hi
  {
    var total := PickedSum(sample, pick, j * |sample|, |sample|);
    PickedWithin(sample, pick, j * |sample|, |sample|, lo, hi);
    QuotientWithin(total, |sample| as real, lo, hi);
  }

  lemma {:induction false} ResampleMeansWithin(sample: seq<real>, pick: Picker, resamples: nat, lo: real, hi: real)
    requires sample != [] && PicksFrom(pick, |sample|) && Within(sample, lo, hi)
    ensures Within(ResampleMeans(sample, pick, resamples), lo, hi)
  {
    if resamples > 0 {
      ResampleMeansWithin(sample, pick, resamples - 1, lo, hi);
      ResampleMeanWithin(sample, pick, resamples - 1, lo, hi);
    }
  }

  lemma AtMostIsOrder()
    ensures TotalPreorder(AtMost)
  {
  }

  lemma SortWithin(xs: seq<real>, lo: real, hi: real)
    requires Within(xs, lo, hi)
    ensures Sorted(AtMost, Sort(xs, AtMost)) && Within(Sort(xs, AtMost), lo, hi)
  {
    var sorted := Sort(xs, AtMost);
    AtMostIsOrder();
    SortSorts(xs, AtMost);
    SortPermutes(xs, AtMost);
    SameElements(xs, sorted);
    forall i | 0 <= i < |sorted| ensures lo <= sorted[i] <= hi {
      assert sorted[i] in xs;
    }
  }

  lemma ReadOffWithin(sorted: seq<real>, point: real, level: real, resamples: nat, lo: real, hi: real)
    requires sorted != [] && Sorted(AtMost, sorted) && Within(sorted, lo, hi) && 0.0 <= level < 1.0
    ensures var ci := ReadOff(sorted, point, level, resamples); lo <= ci.lower <= ci.upper <= hi
  {
    var tail := (1.0 - level) / 2.0;
    PercentileWithin(sorted, tail, lo, hi);
    PercentileWithin(sorted, 1.0 - tail, lo, hi);
    PercentileMonotone(sorted, tail, 1.0 - tail);
  }

  lemma MeanWithin(xs: seq<real>, lo: real, hi: real)
    requires xs != [] && Within(xs, lo, hi)
    ensures lo <= MeanOf(xs) <= hi
  {
    SumWithin(xs, lo, hi);
    QuotientWithin(Sum(xs), |xs| as real, lo, hi);
  }

  /** For every sample, level, resample count and seed: the interval and the point stay within any
      bounds of the sample — its minimum and maximum in particular — and the interval is not
      inverted. A constant sample therefore has a point interval. */
  lemma IntervalWithinSample(sample: seq<real>, level: real, resamples: nat, seed: bv64, lo: real, hi: real)
    requires IntervalFor(sample, level, resamples, seed).Some? && Within(sample, lo, hi)
    ensures var ci := IntervalFor(sample, level, resamples, seed).value;
            lo <= ci.lower <= ci.upper <= hi && lo <= ci.point <= hi
  {
    MeanWithin(sample, lo, hi);
    if 2 <= |sample| {
      var means := ResampleMeans(sample, PickerOf(seed, |sample|), resamples);
      ResampleMeansWithin(sample, PickerOf(seed, |sample|), resamples, lo, hi);
      SortWithin(means, lo, hi);
      ReadOffWithin(Sort(means, AtMost), MeanOf(sample), level, resamples, lo, hi);
    }
  }

  lemma ConstantSampleIsPoint(sample: seq<real>, c: real, level: real, resamples: nat, seed: bv64)
    requires IntervalFor(sample, level, resamples, seed).Some? && Within(sample, c, c)
    ensures IntervalFor(sample, level, resamples, seed) == Some(Interval(c, c, c, level, resamples))
  {
    IntervalWithinSample(sample, level, resamples, seed, c, c);
  }

  lemma ReadOffWidens(sorted: seq<real>, point: real, level: real, level': real, resamples: nat)
    requires Sorted(AtMost, sorted) && level <= level'
    ensures ReadOff(sorted, point, level', resamples).lower <= ReadOff(sorted, point, level, resamples).lower
    ensures ReadOff(sorted, point, level, resamples).upper <= ReadOff(sorted, point, level', resamples).upper
  {
    var tail, tail' := (1.0 - level) / 2.0, (1.0 - level') / 2.0;
    PercentileMonotone(sorted, tail', tail);
    PercentileMonotone(sorted, 1.0 - tail, 1.0 - tail');
  }

  /** Asking for more confidence never narrows the interval, on either side. */
  lemma HigherLevelWidens(sample: seq<real>, level: real, level': real, resamples: nat, seed: bv64)
    requires IntervalFor(sample, level, resamples, seed).Some? && IntervalFor(sample, level', resamples, seed).Some?
    requires level <= level'
    ensures IntervalFor(sample, level', resamples, seed).value.lower <=
            IntervalFor(sample, level, resamples, seed).value.lower
    ensures IntervalFor(sample, level, resamples, seed).value.upper <=
            IntervalFor(sample, level', resamples, seed).value.upper
  {
    if 2 <= |sample| {
      var means := ResampleMeans(sample, PickerOf(seed, |sample|), resamples);
      AtMostIsOrder();
      SortSorts(means, AtMost);
      ReadOffWidens(Sort(means, AtMost), MeanOf(sample), level, level', resamples);
    }
  }
}
