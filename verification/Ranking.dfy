/** Rank-quality metrics of the known-answer probe: DCG, nDCG and reciprocal rank. The logarithmic
    discount is a parameter; all that is used of it is that it is 1 at the first position, positive
    and strictly decreasing. Scores are reals. */
module Ranking {
  import opened Wrappers
  import opened Sorting
  import opened Reals
  import opened Tallies

  /** What position `i` is worth: `1 / log2(i + 2)` in the source. */
  type Discount = nat -> real

  ghost predicate IsDiscount(w: Discount) {
    && w(0) == 1.0
    && (forall i: nat :: 0.0 < w(i))
    && (forall i: nat, j: nat :: i < j ==> w(j) < w(i))
  }

  /** Positions from `k` on are cut off. */
  function Weight(w: Discount, k: nat, i: nat): real { if i < k then w(i) else 0.0 }

  /** What a gain contributes at a position. */
  type Contribution = (real, nat) -> real

  function Discounted(w: Discount, k: nat): Contribution { (g: real, i: nat) => g * Weight(w, k, i) }

  /** The contributions of `gains` placed from position `at` on. */
  function SumFrom(c: Contribution, gains: seq<real>, at: nat): real {
    if gains == [] then 0.0 else c(gains[0], at) + SumFrom(c, gains[1..], at + 1)
  }

  function Dcg(w: Discount, gains: seq<real>, k: nat): real { SumFrom(Discounted(w, k), gains, 0) }

  function Ideal(gains: seq<real>): seq<real> { Sort(gains, AtLeast) }

  function Ndcg(w: Discount, gains: seq<real>, k: nat): real {
    var idcg := Dcg(w, Ideal(gains), k);
    if idcg == 0.0 then 0.0 else Dcg(w, gains, k) / idcg
  }

  predicate NonNegative(gains: seq<real>) { forall i :: 0 <= i < |gains| ==> 0.0 <= gains[i] }

  /** How many of `n` positions from `at` on are above the cut. */
  function Kept(n: nat, k: nat, at: nat): nat {
    if k <= at then 0 else if n <= k - at then n else k - at
  }

  /** Swapping a smaller gain at `i` with the larger one behind it does not lose, and above the cut
      it wins. */
  ghost predicate SwapPays(c: Contribution, k: nat, x: real, y: real, i: nat) {
    && c(x, i) + c(y, i + 1) <= c(y, i) + c(x, i + 1)
    && (i < k ==> c(x, i) + c(y, i + 1) < c(y, i) + c(x, i + 1))
  }

  ghost predicate SwapsPay(c: Contribution, k: nat) {
    forall x, y, i: nat :: x < y ==> SwapPays(c, k, x, y, i)
  }

  lemma ProductsDiffer(x: real, y: real, a: real, b: real)
    requires x < y && b <= a
    ensures x * a + y * b <= y * a + x * b
    ensures b < a ==> x * a + y * b < y * a + x * b
  {
    assert (y - x) * (a - b) == y * a + x * b - (x * a + y * b);
    assert 0.0 <= (y - x) * (a - b) && (b < a ==> 0.0 < (y - x) * (a - b));
  }

  lemma DiscountSwapsPay(w: Discount, k: nat)
    requires IsDiscount(w)
    ensures SwapsPay(Discounted(w, k), k)
  {
    forall x: real, y: real, i: nat | x < y ensures SwapPays(Discounted(w, k), k, x, y, i) {
      var a, b := Weight(w, k, i), Weight(w, k, i + 1);
      assert b <= a && (i < k ==> b < a);
      ProductsDiffer(x, y, a, b);
    }
  }

  lemma SumFromPush(c: Contribution, x: real, rest: seq<real>, at: nat)
    ensures SumFrom(c, [x] + rest, at) == c(x, at) + SumFrom(c, rest, at + 1)
  {
    assert ([x] + rest)[1..] == rest;
  }

  /** Sorting one element into place never lowers the sum, and keeps it equal only if nothing above
      the cut moved. */
  lemma {:induction false} InsertRaises(c: Contribution, k: nat, x: real, rest: seq<real>, at: nat)
    requires SwapsPay(c, k)
    ensures SumFrom(c, [x] + rest, at) <= SumFrom(c, Insert(x, rest, AtLeast), at)
    ensures SumFrom(c, [x] + rest, at) == SumFrom(c, Insert(x, rest, AtLeast), at) ==>
              SameAbove([x] + rest, Insert(x, rest, AtLeast), k, at)
  {
    if rest != [] && x < rest[0] {
      var y, tail := rest[0], rest[1..];
      InsertRaises(c, k, x, tail, at + 1);
      assert SwapPays(c, k, x, y, at);
      SumFromPush(c, x, rest, at);
      SumFromPush(c, x, tail, at + 1);
      SumFromPush(c, y, Insert(x, tail, AtLeast), at);
    }
  }

  /** `s` and `t` agree on the positions above the cut, `at` being that of their first element. */
  predicate SameAbove(s: seq<real>, t: seq<real>, k: nat, at: nat) {
    |s| == |t| && s[..Kept(|s|, k, at)] == t[..Kept(|t|, k, at)]
  }

  lemma SameAbovePush(x: real, s: seq<real>, t: seq<real>, k: nat, at: nat)
    requires SameAbove(s, t, k, at + 1)
    ensures SameAbove([x] + s, [x] + t, k, at)
  {
    var m := Kept(|s| + 1, k, at);
    if 0 < m {
      assert ([x] + s)[..m] == [x] + s[..m - 1] && ([x] + t)[..m] == [x] + t[..m - 1];
    }
  }

  /** The rearrangement inequality with a cut, and its equality case: no order of the gains beats the
      descending one, and an order matches it only when it agrees with it above the cut. */
  lemma {:induction false} RearrangementFrom(c: Contribution, k: nat, gains: seq<real>, at: nat)
    requires SwapsPay(c, k)
    ensures SumFrom(c, gains, at) <= SumFrom(c, Ideal(gains), at)
    ensures SumFrom(c, gains, at) == SumFrom(c, Ideal(gains), at) ==> SameAbove(gains, Ideal(gains), k, at)
  {
    if gains != [] {
      var x, rest := gains[0], gains[1..];
      assert gains == [x] + rest;
      RearrangementFrom(c, k, rest, at + 1);
      InsertRaises(c, k, x, Ideal(rest), at);
      SumFromPush(c, x, Ideal(rest), at);
      if SumFrom(c, gains, at) == SumFrom(c, Ideal(gains), at) {
        SameAbovePush(x, rest, Ideal(rest), k, at);
      }
    }
  }

  /** Only what is above the cut counts. */
  lemma {:induction false} SameAboveSameSum(w: Discount, k: nat, s: seq<real>, t: seq<real>, at: nat)
    requires SameAbove(s, t, k, at)
    ensures SumFrom(Discounted(w, k), s, at) == SumFrom(Discounted(w, k), t, at)
  {
    if s != [] {
      var m := Kept(|s|, k, at);
      if 0 < m {
        assert s[..m][0] == t[..m][0] && s[..m][1..] == s[1..][..m - 1] && t[..m][1..] == t[1..][..m - 1];
      } else {
        assert Weight(w, k, at) == 0.0;
      }
      SameAboveSameSum(w, k, s[1..], t[1..], at + 1);
    }
  }

  /** No order of the gains has a larger DCG than the descending one, and the DCGs are equal exactly
      when the two orders agree above the cut. */
  lemma Rearrangement(w: Discount, gains: seq<real>, k: nat)
    requires IsDiscount(w)
    ensures Dcg(w, gains, k) <= Dcg(w, Ideal(gains), k)
    ensures Dcg(w, gains, k) == Dcg(w, Ideal(gains), k) <==> SameAbove(gains, Ideal(gains), k, 0)
  {
    DiscountSwapsPay(w, k);
    RearrangementFrom(Discounted(w, k), k, gains, 0);
    if SameAbove(gains, Ideal(gains), k, 0) {
      SameAboveSameSum(w, k, gains, Ideal(gains), 0);
    }
  }

  /** A non-negative gain contributes something exactly when it is positive and above the cut. */
  ghost predicate GainPays(c: Contribution, k: nat, g: real, i: nat) {
    0.0 <= c(g, i) && (c(g, i) == 0.0 <==> g == 0.0 || k <= i)
  }

  predicate ZeroAbove(gains: seq<real>, k: nat, at: nat) {
    forall i :: 0 <= i < |gains| && at + i < k ==> gains[i] == 0.0
  }

  lemma {:induction false} SumOfPays(c: Contribution, k: nat, gains: seq<real>, at: nat)
    requires forall g, i: nat :: 0.0 <= g ==> GainPays(c, k, g, i)
    requires NonNegative(gains)
    ensures 0.0 <= SumFrom(c, gains, at)
    ensures SumFrom(c, gains, at) == 0.0 <==> ZeroAbove(gains, k, at)
  {
    if gains != [] {
      var rest := gains[1..];
      assert forall i :: 0 <= i < |rest| ==> rest[i] == gains[i + 1];
      SumOfPays(c, k, rest, at + 1);
      assert GainPays(c, k, gains[0], at);
      assert ZeroAbove(gains, k, at) <==> (gains[0] == 0.0 || k <= at) && ZeroAbove(rest, k, at + 1) by {
        assert forall i :: 0 < i < |gains| ==> gains[i] == rest[i - 1];
      }
    }
  }

  lemma SumNonNegative(w: Discount, k: nat, gains: seq<real>)
    requires IsDiscount(w) && NonNegative(gains)
    ensures 0.0 <= Dcg(w, gains, k)
    ensures Dcg(w, gains, k) == 0.0 <==> ZeroAbove(gains, k, 0)
  {
    forall g: real, i: nat | 0.0 <= g ensures GainPays(Discounted(w, k), k, g, i) {
      if i < k && 0.0 < g {
        assert 0.0 < g * w(i);
      }
    }
    SumOfPays(Discounted(w, k), k, gains, 0);
  }

  lemma PermutedNonNegative(gains: seq<real>)
    requires NonNegative(gains)
    ensures NonNegative(Ideal(gains))
  {
    SortPermutes(gains, AtLeast);
    SameElements(gains, Ideal(gains));
    forall i | 0 <= i < |Ideal(gains)| ensures 0.0 <= Ideal(gains)[i] {
      assert Ideal(gains)[i] in gains;
    }
  }

  /** nDCG at k lies in [0, 1]. It is 1 exactly when some gain above the cut of the ideal order is
      positive and the returned order agrees with the ideal one above the cut. */
  lemma NdcgBounds(w: Discount, gains: seq<real>, k: nat)
    requires IsDiscount(w) && NonNegative(gains)
    ensures 0.0 <= Ndcg(w, gains, k) <= 1.0
    ensures Ndcg(w, gains, k) == 1.0 <==> Dcg(w, Ideal(gains), k) != 0.0 && SameAbove(gains, Ideal(gains), k, 0)
  {
    Rearrangement(w, gains, k);
    PermutedNonNegative(gains);
    SumNonNegative(w, k, gains);
    SumNonNegative(w, k, Ideal(gains));
    var dcg, idcg := Dcg(w, gains, k), Dcg(w, Ideal(gains), k);
    if idcg != 0.0 {
      QuotientBounds(dcg, idcg);
    }
  }

  lemma QuotientBounds(a: real, b: real)
    requires 0.0 <= a <= b && 0.0 < b
    ensures 0.0 <= a / b <= 1.0
    ensures a / b == 1.0 <==> a == b
  {
    assert (a / b) * b == a;
  }

  lemma AtLeastIsOrder()
    ensures TotalPreorder(AtLeast)
  {
  }

  /** Gains that come back in descending order score 1, unless everything above the cut is zero. */
  lemma DescendingIsPerfect(w: Discount, gains: seq<real>, k: nat)
    requires IsDiscount(w) && NonNegative(gains) && Sorted(AtLeast, gains)
    ensures Ndcg(w, gains, k) == if gains == [] || k == 0 || gains[0] == 0.0 then 0.0 else 1.0
  {
    AtLeastIsOrder();
    SortOfSorted(gains, AtLeast);
    SumNonNegative(w, k, gains);
    var dcg := Dcg(w, gains, k);
    if gains != [] && k != 0 && gains[0] == 0.0 {
      assert forall i :: 0 < i < |gains| ==> AtLeast(gains[0], gains[i]);
    } else if dcg != 0.0 {
      QuotientBounds(dcg, dcg);
    }
  }

  // ---- one relevant memory ----

  /** `n` returned memories, the one at `r` relevant. */
  function OneHit(n: nat, r: nat): seq<real> { seq(n, i => if i == r then 1.0 else 0.0) }

  lemma {:induction false} OneHitSum(w: Discount, k: nat, n: nat, r: nat, at: nat)
    requires r < n
    ensures SumFrom(Discounted(w, k), OneHit(n, r), at) == Weight(w, k, at + r)
  {
    if r == 0 {
      assert OneHit(n, 0)[1..] == OneHit(n - 1, n);
      ZerosSum(w, k, n - 1, at + 1);
    } else {
      assert OneHit(n, r)[1..] == OneHit(n - 1, r - 1);
      OneHitSum(w, k, n - 1, r - 1, at + 1);
    }
  }

  lemma {:induction false} ZerosSum(w: Discount, k: nat, n: nat, at: nat)
    ensures SumFrom(Discounted(w, k), OneHit(n, n + 1), at) == 0.0
    ensures OneHit(n, n + 1) == OneHit(n, n)
  {
    if n > 0 {
      assert OneHit(n, n + 1)[1..] == OneHit(n - 1, n);
      ZerosSum(w, k, n - 1, at + 1);
    }
  }

  lemma InsertMiss(n: nat)
    requires 0 < n
    ensures Insert(0.0, OneHit(n, 0), AtLeast) == OneHit(n + 1, 0)
  {
    var misses := OneHit(n, 0)[1..];
    assert Insert(0.0, misses, AtLeast) == [0.0] + misses;
    assert OneHit(n + 1, 0) == [1.0] + ([0.0] + misses);
  }

  lemma MissFirst(s: seq<real>, n: nat)
    requires s != [] && s[0] == 0.0 && 0 < n && Ideal(s[1..]) == OneHit(n, 0)
    ensures Ideal(s) == OneHit(n + 1, 0)
  {
    InsertMiss(n);
  }

  lemma OneHitSplit(n: nat, r: nat)
    requires 0 < r < n
    ensures OneHit(n, r)[0] == 0.0 && OneHit(n, r)[1..] == OneHit(n - 1, r - 1)
  {
  }

  lemma {:induction false} OneHitIdeal(n: nat, r: nat)
    requires r < n
    ensures Ideal(OneHit(n, r)) == OneHit(n, 0)
  {
    if r == 0 {
      AtLeastIsOrder();
      SortOfSorted(OneHit(n, 0), AtLeast);
    } else {
      OneHitIdeal(n - 1, r - 1);
      OneHitSplit(n, r);
      MissFirst(OneHit(n, r), n - 1);
    }
  }

  /** With one relevant memory, at rank `r`, nDCG is the discount at `r`, or 0 below the cut. */
  lemma SingleHitIsItsDiscount(w: Discount, n: nat, r: nat, k: nat)
    requires IsDiscount(w) && r < n
    ensures Ndcg(w, OneHit(n, r), k) == Weight(w, k, r)
  {
    OneHitIdeal(n, r);
    OneHitSum(w, k, n, r, 0);
    OneHitSum(w, k, n, 0, 0);
  }

  // ---- the probe ----

  /** Reciprocal of the 1-based rank; a miss scores 0. */
  function ReciprocalRank(rank: Option<nat>): real {
    match rank
    case Some(r) => 1.0 / (r as real + 1.0)
    case None => 0.0
  }

  /** `position`: the first relevant hit. */
  function Position(hits: seq<bool>): (r: Option<nat>)
    ensures r.Some? ==> r.value < |hits| && hits[r.value] && forall i :: 0 <= i < r.value ==> !hits[i]
    ensures r.None? ==> forall i :: 0 <= i < |hits| ==> !hits[i]
  {
    if hits == [] then None
    else if hits[0] then Some(0)
    else
      match Position(hits[1..])
      case None => None
      case Some(i) => Some(i + 1)
  }

  function Gains(hits: seq<bool>): (g: seq<real>)
    ensures |g| == |hits| && forall i :: 0 <= i < |hits| ==> g[i] == if hits[i] then 1.0 else 0.0
  {
    seq(|hits|, i requires 0 <= i < |hits| => if hits[i] then 1.0 else 0.0)
  }

  function First(hits: seq<bool>): real { if Position(hits) == Some(0) then 1.0 else 0.0 }

  function Found(hits: seq<bool>): real { if Position(hits).Some? then 1.0 else 0.0 }

  function Reciprocal(hits: seq<bool>): real { ReciprocalRank(Position(hits)) }

  function Quality(w: Discount, k: nat): seq<bool> -> real { (hits: seq<bool>) => Ndcg(w, Gains(hits), k) }

  function Mean(score: seq<bool> -> real, queries: seq<seq<bool>>): real {
    Total(score, queries) / (if |queries| == 0 then 1.0 else |queries| as real)
  }

  ghost predicate IsFirstHit(hits: seq<bool>, r: nat) {
    r < |hits| && hits[r] && forall i :: 0 <= i < r ==> !hits[i]
  }

  /** `x` is the inverse of the 1-based rank of the first hit, or zero without one. */
  ghost predicate IsInverseRank(x: real, hits: seq<bool>) {
    && (forall r: nat :: IsFirstHit(hits, r) ==> x * (r + 1) as real == 1.0)
    && ((forall r: nat :: !IsFirstHit(hits, r)) ==> x == 0.0)
  }

  lemma FirstHitIsPosition(hits: seq<bool>, r: nat)
    ensures IsFirstHit(hits, r) <==> Position(hits) == Some(r)
  {
  }

  lemma InverseIs(x: real, d: real)
    requires 0.0 < d
    ensures x * d == 1.0 <==> x == 1.0 / d
  {
    assert (1.0 / d) * d == 1.0;
    if x * d == 1.0 {
      Cancel(x, 1.0 / d, d);
      Cancel(1.0 / d, x, d);
    }
  }

  lemma ReciprocalExactly(x: real, hits: seq<bool>)
    ensures IsInverseRank(x, hits) <==> x == Reciprocal(hits)
  {
    forall r: nat ensures IsFirstHit(hits, r) <==> Position(hits) == Some(r) {
      FirstHitIsPosition(hits, r);
    }
    if Position(hits).Some? {
      var r := Position(hits).value;
      assert IsFirstHit(hits, r);
      InverseIs(x, (r + 1) as real);
      assert (r + 1) as real == r as real + 1.0;
    }
  }

  /** `mean`, times `n`, is `total`. */
  ghost predicate Averages(mean: real, n: nat, total: real) { mean * n as real == total }

  lemma QuotientAverages(total: real, n: nat)
    requires 0 < n
    ensures Averages(total / n as real, n, total)
  {
  }

  /** A mean over a run, times the number of queries, is what the queries add up to; over none it is 0. */
  lemma MeanAverages(score: seq<bool> -> real, queries: seq<seq<bool>>)
    ensures Averages(Mean(score, queries), |queries|, Total(score, queries))
    ensures queries == [] ==> Mean(score, queries) == 0.0
  {
    if queries != [] {
      QuotientAverages(Total(score, queries), |queries|);
    }
  }

  lemma {:induction false} TotalIsSum(score: seq<bool> -> real, queries: seq<seq<bool>>, values: seq<real>)
    requires |values| == |queries| && forall q :: 0 <= q < |queries| ==> values[q] == score(queries[q])
    ensures Total(score, queries) == Sum(values)
  {
    if queries != [] {
      var n := |queries| - 1;
      TotalIsSum(score, queries[..n], values[..n]);
    }
  }

  /** MRR times the number of queries is the sum of the inverse ranks of the first hits. */
  lemma MrrIsSumOfInverses(queries: seq<seq<bool>>, inverse: seq<real>)
    requires |inverse| == |queries| && forall q :: 0 <= q < |queries| ==> IsInverseRank(inverse[q], queries[q])
    ensures Averages(Mean(Reciprocal, queries), |queries|, Sum(inverse))
  {
    forall q | 0 <= q < |queries| ensures inverse[q] == Reciprocal(queries[q]) {
      ReciprocalExactly(inverse[q], queries[q]);
    }
    TotalIsSum(Reciprocal, queries, inverse);
    MeanAverages(Reciprocal, queries);
  }

  lemma {:induction false} TotalIsTally(score: seq<bool> -> real, p: seq<bool> -> bool, queries: seq<seq<bool>>)
    requires forall h :: score(h) == if p(h) then 1.0 else 0.0
    ensures Total(score, queries) == Tally(p, queries) as real
  {
    if queries != [] {
      TotalIsTally(score, p, queries[..|queries| - 1]);
      assert score(queries[|queries| - 1]) == if p(queries[|queries| - 1]) then 1.0 else 0.0;
    }
  }

  predicate HitFirst(hits: seq<bool>) { hits != [] && hits[0] }

  predicate HitAnywhere(hits: seq<bool>) { exists i :: 0 <= i < |hits| && hits[i] }

  /** The two recalls, times the number of queries, count the queries with a hit in first place and those
      with a hit in any. */
  lemma RecallsCount(queries: seq<seq<bool>>)
    ensures Averages(Mean(First, queries), |queries|, Tally(HitFirst, queries) as real)
    ensures Averages(Mean(Found, queries), |queries|, Tally(HitAnywhere, queries) as real)
  {
    TotalIsTally(First, HitFirst, queries);
    TotalIsTally(Found, HitAnywhere, queries);
    MeanAverages(First, queries);
    MeanAverages(Found, queries);
  }

  datatype RecallReport = RecallReport(queries: nat, recallAt1: real, recallAtK: real, mrr: real, ndcgAtK: real)

  /** The accumulation loop of `run_recall_quality`, over each query's returned memories marked by
      whether they carry its nonce. */
  method RunRecallQuality(w: Discount, queries: seq<seq<bool>>, topK: nat) returns (report: RecallReport)
    ensures report ==
            RecallReport(|queries|, Mean(First, queries), Mean(Found, queries), Mean(Reciprocal, queries),
              Mean(Quality(w, topK), queries))
  {
    var hitAt1, hitAtK := 0, 0;
    var sumRr, sumNdcg := 0.0, 0.0;
    for i := 0 to |queries|
      invariant hitAt1 as real == Total(First, queries[..i]) && hitAtK as real == Total(Found, queries[..i])
      invariant sumRr == Total(Reciprocal, queries[..i]) && sumNdcg == Total(Quality(w, topK), queries[..i])
    {
      assert queries[..i + 1][..i] == queries[..i];
      var hits := queries[i];
      var rank := Position(hits);
      if rank.Some? {
        hitAtK := hitAtK + 1;
        if rank.value == 0 {
          hitAt1 := hitAt1 + 1;
        }
      }
      sumRr := sumRr + ReciprocalRank(rank);
      sumNdcg := sumNdcg + Ndcg(w, Gains(hits), topK);
    }
    assert queries[..|queries|] == queries;
    var denom := if |queries| == 0 then 1.0 else |queries| as real;
    report := RecallReport(|queries|, hitAt1 as real / denom, hitAtK as real / denom, sumRr / denom, sumNdcg / denom);
  }

  /** A weighted comparison that holds per query holds of the means. */
  lemma {:induction false} TotalsCompare(f: seq<bool> -> real, g: seq<bool> -> real, queries: seq<seq<bool>>)
    requires forall h :: h in queries ==> f(h) <= g(h)
    ensures Total(f, queries) <= Total(g, queries)
  {
    if queries != [] {
      var n := |queries| - 1;
      assert forall h :: h in queries[..n] ==> h in queries;
      assert queries[n] in queries;
      TotalsCompare(f, g, queries[..n]);
    }
  }

  lemma MeansCompare(f: seq<bool> -> real, g: seq<bool> -> real, queries: seq<seq<bool>>)
    requires forall h :: h in queries ==> f(h) <= g(h)
    ensures Mean(f, queries) <= Mean(g, queries)
  {
    TotalsCompare(f, g, queries);
    var d := if |queries| == 0 then 1.0 else |queries| as real;
    QuotientMonotone(Total(f, queries), Total(g, queries), d);
  }

  predicate AtMostOneHit(hits: seq<bool>) {
    forall i, j :: 0 <= i < j < |hits| ==> !(hits[i] && hits[j])
  }

  lemma RankBounds(hits: seq<bool>)
    ensures 0.0 <= First(hits) <= Reciprocal(hits) <= Middle(hits) <= Found(hits) <= 1.0
  {
    var rank := Position(hits);
    if rank.Some? && 1 <= rank.value {
      HalfAtMost(rank.value);
    }
  }

  lemma HalfAtMost(r: nat)
    requires 1 <= r
    ensures 0.0 <= 1.0 / (r as real + 1.0) <= 0.5
  {
    var d := r as real + 1.0;
    assert (1.0 / d) * d == 1.0 && 2.0 <= d;
  }

  lemma LoneHitQuality(w: Discount, k: nat, hits: seq<bool>)
    requires IsDiscount(w) && AtMostOneHit(hits) && Position(hits).Some?
    ensures Quality(w, k)(hits) == Weight(w, k, Position(hits).value)
  {
    var r := Position(hits).value;
    assert Gains(hits) == OneHit(|hits|, r);
    SingleHitIsItsDiscount(w, |hits|, r, k);
  }

  lemma MissQuality(w: Discount, k: nat, hits: seq<bool>)
    requires IsDiscount(w) && Position(hits).None?
    ensures Quality(w, k)(hits) == 0.0
  {
    SumNonNegative(w, k, Gains(hits));
  }

  lemma QualityBounds(w: Discount, k: nat, hits: seq<bool>)
    requires IsDiscount(w)
    ensures 0.0 <= Quality(w, k)(hits) <= Found(hits)
    ensures AtMostOneHit(hits) && 1 <= k ==> First(hits) <= Quality(w, k)(hits)
  {
    assert 0.0 <= Quality(w, k)(hits) <= 1.0 by { NdcgBounds(w, Gains(hits), k); }
    if Position(hits).None? {
      MissQuality(w, k, hits);
    } else if AtMostOneHit(hits) {
      LoneHitQuality(w, k, hits);
    }
  }

  function Zero(hits: seq<bool>): real { 0.0 }

  function One(hits: seq<bool>): real { 1.0 }

  function Middle(hits: seq<bool>): real { (First(hits) + Found(hits)) / 2.0 }

  lemma {:induction false} TotalOfConstants(queries: seq<seq<bool>>)
    ensures Total(Zero, queries) == 0.0 && Total(One, queries) == |queries| as real
    ensures Total(Middle, queries) == (Total(First, queries) + Total(Found, queries)) / 2.0
  {
    if queries != [] {
      TotalOfConstants(queries[..|queries| - 1]);
    }
  }

  type Score = seq<bool> -> real

  lemma MeansChain(zero: Score, first: Score, reciprocal: Score, middle: Score, found: Score, one: Score,
                   queries: seq<seq<bool>>)
    requires forall h {:trigger zero(h)} :: zero(h) <= first(h) <= reciprocal(h) <= middle(h) <= found(h) <= one(h)
    ensures Mean(zero, queries) <= Mean(first, queries) <= Mean(reciprocal, queries)
    ensures Mean(reciprocal, queries) <= Mean(middle, queries) <= Mean(found, queries) <= Mean(one, queries)
  {
    assert forall h :: zero(h) <= zero(h);
    MeansCompare(zero, first, queries);
    MeansCompare(first, reciprocal, queries);
    MeansCompare(reciprocal, middle, queries);
    MeansCompare(middle, found, queries);
    MeansCompare(found, one, queries);
  }

  lemma ConstantMeans(queries: seq<seq<bool>>)
    ensures Mean(Zero, queries) == 0.0 && Mean(One, queries) <= 1.0
    ensures Mean(Middle, queries) == (Mean(First, queries) + Mean(Found, queries)) / 2.0
  {
    TotalOfConstants(queries);
  }

  /** For any answers: recall@1 <= MRR <= the midpoint of recall@1 and recall@K <= recall@K <= 1. */
  lemma ProbeRankBounds(queries: seq<seq<bool>>)
    ensures 0.0 <= Mean(First, queries) <= Mean(Reciprocal, queries)
    ensures Mean(Reciprocal, queries) <=
            (Mean(First, queries) + Mean(Found, queries)) / 2.0 <= Mean(Found, queries) <= 1.0
  {
    forall h {:trigger Zero(h)} ensures Zero(h) <= First(h) <= Reciprocal(h) <= Middle(h) <= Found(h) <= One(h) {
      RankBounds(h);
    }
    MeansChain(Zero, First, Reciprocal, Middle, Found, One, queries);
    ConstantMeans(queries);
  }

  /** And 0 <= nDCG <= recall@K; when no query has two relevant hits, recall@1 <= nDCG as well. */
  lemma ProbeNdcgBounds(w: Discount, queries: seq<seq<bool>>, topK: nat)
    requires IsDiscount(w)
    ensures 0.0 <= Mean(Quality(w, topK), queries) <= Mean(Found, queries)
    ensures 1 <= topK && (forall h :: h in queries ==> AtMostOneHit(h)) ==>
            Mean(First, queries) <= Mean(Quality(w, topK), queries)
  {
    var quality := Quality(w, topK);
    forall h | h in queries
      ensures Zero(h) <= quality(h) && quality(h) <= Found(h)
      ensures AtMostOneHit(h) && 1 <= topK ==> First(h) <= quality(h)
    {
      QualityBounds(w, topK, h);
    }
    ConstantMeans(queries);
    MeansCompare(Zero, quality, queries);
    MeansCompare(quality, Found, queries);
    if 1 <= topK && forall h :: h in queries ==> AtMostOneHit(h) {
      MeansCompare(First, quality, queries);
    }
  }

  /** Below the cut-off length, gains out of order cost something. */
  lemma UnsortedIsImperfect(w: Discount, gains: seq<real>, k: nat)
    requires IsDiscount(w) && NonNegative(gains) && |gains| <= k && !Sorted(AtLeast, gains)
    ensures Ndcg(w, gains, k) < 1.0
  {
    NdcgBounds(w, gains, k);
    AtLeastIsOrder();
    SortSorts(gains, AtLeast);
    assert gains[..|gains|] == gains && Ideal(gains)[..|gains|] == Ideal(gains);
  }
}
