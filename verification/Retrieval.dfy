/** Retrieval quality over a benchmark run: recall@K, MRR and NDCG@K, all scored over the questions
    that produced a ranked list and carry a ground truth. Relevance of a memory is a substring test
    on lowered text. */
module Retrieval {
  import opened Wrappers
  import opened Sorting
  import opened Tallies
  import opened Reals
  import opened Text
  import opened Ranking

  datatype Reading = Reading(groundTruth: string, contents: seq<string>, retrievalFailed: bool, ingestionFailed: bool)

  /** Unicode `to_lowercase`. */
  type Lowering = string -> string

  predicate Counted(lower: Lowering, r: Reading) {
    !r.retrievalFailed && !r.ingestionFailed && r.contents != [] && lower(r.groundTruth) != ""
  }

  /** Which of the returned memories are relevant, in rank order. */
  function Relevance(lower: Lowering, r: Reading): (rel: seq<bool>)
    ensures |rel| == |r.contents|
  {
    seq(|r.contents|, i requires 0 <= i < |r.contents| => Contains(lower(r.contents[i]), lower(r.groundTruth)))
  }

  /** The rank lists every mean is taken over. */
  function Population(lower: Lowering, results: seq<Reading>): seq<seq<bool>> {
    if results == [] then []
    else
      var n := |results| - 1;
      Population(lower, results[..n]) + (if Counted(lower, results[n]) then [Relevance(lower, results[n])] else [])
  }

  function RecallAt(k: nat): Score {
    (rel: seq<bool>) => if Position(rel).Some? && Position(rel).value < k then 1.0 else 0.0
  }

  // ---- NDCG over strings ----

  /** The discounts of the first `n` positions. */
  function IdealDcg(w: Discount, n: nat): real {
    if n == 0 then 0.0 else IdealDcg(w, n - 1) + w(n - 1)
  }

  function Marks(retrieved: seq<string>, relevant: seq<string>): (rel: seq<bool>)
    ensures |rel| == |retrieved| && forall i :: 0 <= i < |rel| ==> rel[i] == (retrieved[i] in relevant)
  {
    seq(|retrieved|, i requires 0 <= i < |retrieved| => retrieved[i] in relevant)
  }

  function Min(a: nat, b: nat): nat { if a <= b then a else b }

  /** The public `ndcg_at_k`. */
  function NdcgAtK(w: Discount, retrieved: seq<string>, relevant: seq<string>, k: nat): real {
    if relevant == [] then 1.0
    else
      var idcg := IdealDcg(w, Min(k, |relevant|));
      if idcg == 0.0 then 0.0 else Dcg(w, Gains(Marks(retrieved, relevant)), k) / idcg
  }

  function RelevantOnes(retrieved: seq<string>, ground: string): seq<string> {
    if retrieved == [] then []
    else (if Contains(retrieved[0], ground) then [retrieved[0]] else []) + RelevantOnes(retrieved[1..], ground)
  }

  function LoweredAll(lower: Lowering, r: Reading): (l: seq<string>)
    ensures |l| == |r.contents|
  {
    seq(|r.contents|, i requires 0 <= i < |r.contents| => lower(r.contents[i]))
  }

  function Count(rel: seq<bool>): nat {
    if rel == [] then 0 else (if rel[0] then 1 else 0) + Count(rel[1..])
  }

  /** NDCG of one question, on its relevance marks alone. */
  function NdcgOfMarks(w: Discount, k: nat): Score {
    (rel: seq<bool>) => if Count(rel) == 0 then 1.0 else Ndcg(w, Gains(rel), k)
  }

  lemma {:induction false} RelevantOnesAre(retrieved: seq<string>, ground: string, id: string)
    ensures id in RelevantOnes(retrieved, ground) <==> id in retrieved && Contains(id, ground)
  {
    if retrieved != [] {
      RelevantOnesAre(retrieved[1..], ground, id);
      assert id in retrieved <==> id == retrieved[0] || id in retrieved[1..];
    }
  }

  lemma {:induction false} RelevantOnesCount(retrieved: seq<string>, ground: string, rel: seq<bool>)
    requires |rel| == |retrieved| && forall i :: 0 <= i < |rel| ==> rel[i] == Contains(retrieved[i], ground)
    ensures |RelevantOnes(retrieved, ground)| == Count(rel)
  {
    if retrieved != [] {
      RelevantOnesCount(retrieved[1..], ground, rel[1..]);
    }
  }

  // ---- the ideal order of 0/1 gains ----

  function OnesThenZeros(ones: nat, zeros: nat): (s: seq<real>)
    ensures |s| == ones + zeros
  {
    if 0 < ones then [1.0] + OnesThenZeros(ones - 1, zeros)
    else if 0 < zeros then [0.0] + OnesThenZeros(0, zeros - 1)
    else []
  }

  lemma {:induction false} OnesThenZerosAt(ones: nat, zeros: nat, i: nat)
    requires i < ones + zeros
    ensures OnesThenZeros(ones, zeros)[i] == if i < ones then 1.0 else 0.0
  {
    if 0 < i {
      OnesThenZerosAt(if 0 < ones then ones - 1 else 0, if 0 < ones then zeros else zeros - 1, i - 1);
    }
  }

  lemma InsertPast(x: real, y: real, s: seq<real>)
    requires x < y
    ensures Insert(x, [y] + s, AtLeast) == [y] + Insert(x, s, AtLeast)
  {
    assert ([y] + s)[1..] == s;
  }

  lemma {:induction false} InsertZero(ones: nat, zeros: nat)
    ensures Insert(0.0, OnesThenZeros(ones, zeros), AtLeast) == OnesThenZeros(ones, zeros + 1)
  {
    if 0 < ones {
      InsertPast(0.0, 1.0, OnesThenZeros(ones - 1, zeros));
      InsertZero(ones - 1, zeros);
    }
  }

  lemma InsertOne(ones: nat, zeros: nat)
    ensures Insert(1.0, OnesThenZeros(ones, zeros), AtLeast) == OnesThenZeros(ones + 1, zeros)
  {
  }

  lemma GainsSplit(rel: seq<bool>)
    requires rel != []
    ensures Gains(rel)[0] == (if rel[0] then 1.0 else 0.0) && Gains(rel)[1..] == Gains(rel[1..])
  {
  }

  predicate Bits(s: seq<real>) { forall i :: 0 <= i < |s| ==> s[i] == 0.0 || s[i] == 1.0 }

  function Ones(s: seq<real>): (n: nat)
    ensures n <= |s|
  {
    if s == [] then 0 else (if s[0] == 1.0 then 1 else 0) + Ones(s[1..])
  }

  /** The ideal order of 0/1 gains puts the ones first. */
  lemma {:induction false} IdealOfBits(s: seq<real>)
    requires Bits(s)
    ensures Ideal(s) == OnesThenZeros(Ones(s), |s| - Ones(s))
  {
    if s != [] {
      assert Bits(s[1..]);
      IdealOfBits(s[1..]);
      InsertOne(Ones(s[1..]), |s| - 1 - Ones(s[1..]));
      InsertZero(Ones(s[1..]), |s| - 1 - Ones(s[1..]));
    }
  }

  lemma {:induction false} OnesOfGains(rel: seq<bool>)
    ensures Ones(Gains(rel)) == Count(rel)
  {
    if rel != [] {
      OnesOfGains(rel[1..]);
      GainsSplit(rel);
    }
  }

  lemma {:induction false} SumOfNothing(w: Discount, k: nat, zeros: nat, at: nat)
    ensures SumFrom(Discounted(w, k), OnesThenZeros(0, zeros), at) == 0.0
  {
    if 0 < zeros {
      SumFromPush(Discounted(w, k), 0.0, OnesThenZeros(0, zeros - 1), at);
      SumOfNothing(w, k, zeros - 1, at + 1);
    }
  }

  lemma {:induction false} SumOfOnes(w: Discount, k: nat, ones: nat, zeros: nat, at: nat)
    ensures SumFrom(Discounted(w, k), OnesThenZeros(ones, zeros), at) ==
            IdealDcg(w, Min(k, at + ones)) - IdealDcg(w, Min(k, at))
  {
    if ones == 0 {
      SumOfNothing(w, k, zeros, at);
    } else {
      SumFromPush(Discounted(w, k), 1.0, OnesThenZeros(ones - 1, zeros), at);
      SumOfOnes(w, k, ones - 1, zeros, at + 1);
    }
  }

  lemma IdealDcgOfBits(w: Discount, k: nat, g: seq<real>)
    requires Bits(g)
    ensures Dcg(w, Ideal(g), k) == IdealDcg(w, Min(k, Ones(g)))
  {
    IdealOfBits(g);
    SumOfOnes(w, k, Ones(g), |g| - Ones(g), 0);
  }

  lemma IdealDcgIsIdeal(w: Discount, k: nat, rel: seq<bool>)
    ensures Dcg(w, Ideal(Gains(rel)), k) == IdealDcg(w, Min(k, Count(rel)))
  {
    IdealDcgOfBits(w, k, Gains(rel));
    OnesOfGains(rel);
  }

  /** The two nDCGs of the repository agree on every ranking with something relevant in it; with
      nothing relevant this one is 1 and the probe's is 0. The string form depends only on which
      ranks are relevant. */
  lemma NdcgFormsAgree(w: Discount, lower: Lowering, r: Reading, k: nat)
    ensures var rel := Relevance(lower, r);
            NdcgAtK(w, LoweredAll(lower, r), RelevantOnes(LoweredAll(lower, r), lower(r.groundTruth)), k) ==
              NdcgOfMarks(w, k)(rel)
  {
    var ids, ground, rel := LoweredAll(lower, r), lower(r.groundTruth), Relevance(lower, r);
    var relevant := RelevantOnes(ids, ground);
    RelevantOnesCount(ids, ground, rel);
    forall i | 0 <= i < |rel| ensures Marks(ids, relevant)[i] == rel[i] {
      RelevantOnesAre(ids, ground, ids[i]);
    }
    assert Marks(ids, relevant) == rel;
    IdealDcgIsIdeal(w, k, rel);
  }

  // ---- bounds per question ----

  predicate TopAreRelevant(rel: seq<bool>, n: nat) {
    forall i :: 0 <= i < n && i < |rel| ==> rel[i]
  }

  lemma {:induction false} LeadingOnes(rel: seq<bool>, i: nat)
    requires TopAreRelevant(rel, Count(rel)) && i < |rel|
    ensures rel[i] <==> i < Count(rel)
  {
    if rel[0] {
      assert forall j :: 0 <= j < |rel[1..]| ==> rel[1..][j] == rel[j + 1];
      if 0 < i {
        LeadingOnes(rel[1..], i - 1);
      }
    } else if Count(rel[1..]) == 0 {
      NoneRelevant(rel[1..]);
      assert i == 0 || !rel[1..][i - 1];
    }
  }

  lemma {:induction false} NoneRelevant(rel: seq<bool>)
    ensures Count(rel) == 0 <==> forall i :: 0 <= i < |rel| ==> !rel[i]
  {
    if rel != [] {
      NoneRelevant(rel[1..]);
      assert forall i :: 0 < i < |rel| ==> rel[i] == rel[1..][i - 1];
      assert forall i :: 0 <= i < |rel[1..]| ==> rel[1..][i] == rel[i + 1];
    }
  }

  ghost predicate OnesFirst(s: seq<real>, ones: nat) {
    forall i :: 0 <= i < |s| ==> s[i] == if i < ones then 1.0 else 0.0
  }

  lemma OnesThenZerosAreFirst(ones: nat, zeros: nat)
    ensures OnesFirst(OnesThenZeros(ones, zeros), ones)
  {
    forall i | 0 <= i < ones + zeros ensures OnesThenZeros(ones, zeros)[i] == if i < ones then 1.0 else 0.0 {
      OnesThenZerosAt(ones, zeros, i);
    }
  }

  lemma IdealOnesFirst(g: seq<real>)
    requires Bits(g)
    ensures OnesFirst(Ideal(g), Ones(g))
  {
    IdealOfBits(g);
    OnesThenZerosAreFirst(Ones(g), |g| - Ones(g));
  }

  lemma AgreesWithIdeal(rel: seq<bool>, k: nat)
    ensures SameAbove(Gains(rel), Ideal(Gains(rel)), k, 0) <==> TopAreRelevant(rel, Min(k, Count(rel)))
  {
    var g, n, m := Gains(rel), Count(rel), Min(k, |rel|);
    var ideal := Ideal(g);
    OnesOfGains(rel);
    IdealOnesFirst(g);
    assert Kept(|rel|, k, 0) == m;
    if g[..m] == ideal[..m] {
      forall i | 0 <= i < Min(k, n) && i < |rel| ensures rel[i] {
        assert g[..m][i] == ideal[..m][i];
      }
    }
    if TopAreRelevant(rel, Min(k, n)) {
      forall i | 0 <= i < m ensures g[i] == ideal[i] {
        if n < k {
          LeadingOnes(rel, i);
        }
      }
      assert g[..m] == ideal[..m];
    }
  }

  /** NDCG@K of a question is 1 exactly when nothing returned is relevant, or K is at least 1 and the
      top min(K, number relevant) are all relevant. */
  lemma NdcgIsOneExactly(w: Discount, k: nat, rel: seq<bool>)
    requires IsDiscount(w)
    ensures 0.0 <= NdcgOfMarks(w, k)(rel) <= 1.0
    ensures NdcgOfMarks(w, k)(rel) == 1.0 <==> Count(rel) == 0 || (1 <= k && TopAreRelevant(rel, Min(k, Count(rel))))
  {
    NdcgBounds(w, Gains(rel), k);
    AgreesWithIdeal(rel, k);
    IdealDcgIsIdeal(w, k, rel);
    IdealDcgPositive(w, Min(k, Count(rel)));
  }

  lemma {:induction false} IdealDcgPositive(w: Discount, n: nat)
    requires IsDiscount(w)
    ensures IdealDcg(w, n) == 0.0 <==> n == 0
    ensures 0.0 <= IdealDcg(w, n)
  {
    if n > 0 {
      IdealDcgPositive(w, n - 1);
    }
  }

  /** The discounts of the hits in the top `k`. */
  function HitDiscounts(w: Discount, rel: seq<bool>, k: nat): seq<real> {
    seq(Min(k, |rel|), i requires 0 <= i < Min(k, |rel|) => if rel[i] then w(i) else 0.0)
  }

  lemma {:induction false} DcgFrom(w: Discount, k: nat, rel: seq<bool>, at: nat, worth: seq<real>)
    requires |worth| == |rel|
    requires forall i :: 0 <= i < |rel| ==> worth[i] == if rel[i] && at + i < k then w(at + i) else 0.0
    ensures SumFrom(Discounted(w, k), Gains(rel), at) == Sum(worth)
  {
    if rel == [] {
    } else {
      var rest, tail := rel[1..], worth[1..];
      GainsSplit(rel);
      assert forall i :: 0 <= i < |rest| ==> rest[i] == rel[i + 1] && tail[i] == worth[i + 1];
      DcgFrom(w, k, rest, at + 1, tail);
      SumHead(worth);
    }
  }

  lemma {:induction false} SumHead(xs: seq<real>)
    requires xs != []
    ensures Sum(xs) == xs[0] + Sum(xs[1..])
  {
    if |xs| > 1 {
      var init := xs[..|xs| - 1];
      SumHead(init);
      assert init[1..] == xs[1..][..|xs| - 2];
    } else {
      assert xs[..0] == [] && xs[1..] == [];
    }
  }

  lemma {:induction false} SumOfZeros(xs: seq<real>, zeros: seq<real>)
    requires forall i :: 0 <= i < |zeros| ==> zeros[i] == 0.0
    ensures Sum(xs + zeros) == Sum(xs)
  {
    if zeros == [] {
      assert xs + zeros == xs;
    } else {
      SumOfZeros(xs, zeros[..|zeros| - 1]);
      assert (xs + zeros)[..|xs + zeros| - 1] == xs + zeros[..|zeros| - 1];
    }
  }

  /** DCG of a ranking is the sum of the discounts of its hits in the top `k`. */
  lemma DcgIsSum(w: Discount, rel: seq<bool>, k: nat)
    ensures Dcg(w, Gains(rel), k) == Sum(HitDiscounts(w, rel, k))
  {
    var m := Min(k, |rel|);
    var zeros := seq(|rel| - m, i requires 0 <= i < |rel| - m => 0.0);
    DcgFrom(w, k, rel, 0, HitDiscounts(w, rel, k) + zeros);
    SumOfZeros(HitDiscounts(w, rel, k), zeros);
  }

  /** `share` of `whole` is `part`. */
  ghost predicate IsShareOf(share: real, whole: real, part: real) { share * whole == part }

  lemma QuotientIsShare(part: real, whole: real)
    requires whole != 0.0
    ensures IsShareOf(part / whole, whole, part)
  {
  }

  /** NDCG, times what as many hits at the top are worth, is what the hits are worth where they stand. */
  lemma NdcgTimesIdeal(w: Discount, rel: seq<bool>, k: nat)
    requires IsDiscount(w) && 1 <= k && Count(rel) != 0
    ensures IsShareOf(NdcgOfMarks(w, k)(rel), IdealDcg(w, Min(k, Count(rel))), Sum(HitDiscounts(w, rel, k)))
    ensures NdcgOfMarks(w, k)(rel) == Quality(w, k)(rel)
  {
    DcgIsSum(w, rel, k);
    IdealDcgIsIdeal(w, k, rel);
    IdealDcgPositive(w, Min(k, Count(rel)));
    QuotientIsShare(Dcg(w, Gains(rel), k), IdealDcg(w, Min(k, Count(rel))));
  }

  // ---- which questions count ----

  ghost predicate IsCounted(lower: Lowering, r: Reading) {
    !r.retrievalFailed && !r.ingestionFailed && |r.contents| >= 1 && |lower(r.groundTruth)| >= 1
  }

  /** A returned memory is relevant when its lowered text contains the lowered ground truth. */
  lemma RelevanceExactly(lower: Lowering, r: Reading, i: nat)
    requires i < |r.contents|
    ensures Relevance(lower, r)[i] <==> Occurs(lower(r.contents[i]), lower(r.groundTruth))
  {
  }

  /** The means are over the rank lists of exactly the questions that count, in order. */
  lemma PopulationNextExactly(lower: Lowering, results: seq<Reading>, r: Reading)
    ensures Population(lower, []) == []
    ensures Population(lower, results + [r]) ==
            if IsCounted(lower, r) then Population(lower, results) + [Relevance(lower, r)]
            else Population(lower, results)
  {
    assert (results + [r])[..|results|] == results;
    assert Population(lower, results) + [] == Population(lower, results);
  }

  /** Recall@K, times the population, counts the questions with a hit in the top K. */
  lemma RecallCounts(pop: seq<seq<bool>>, k: nat, hitsTop: seq<bool> -> bool)
    requires forall rel :: hitsTop(rel) <==> exists i :: 0 <= i < k && i < |rel| && rel[i]
    ensures Averages(Mean(RecallAt(k), pop), |pop|, Tally(hitsTop, pop) as real)
  {
    TotalIsTally(RecallAt(k), hitsTop, pop);
    MeanAverages(RecallAt(k), pop);
  }

  // ---- the string form called on its own ----

  /** How many of the first `k` positions are marked. */
  function CountTop(rel: seq<bool>, k: nat): nat { Count(rel[..Min(k, |rel|)]) }

  /** The marks with everything below the cut taken off. */
  function Masked(rel: seq<bool>, k: nat): (m: seq<bool>)
    ensures |m| == |rel| && forall i :: 0 <= i < |m| ==> m[i] == (i < k && rel[i])
  {
    seq(|rel|, i requires 0 <= i < |rel| => i < k && rel[i])
  }

  lemma {:induction false} CountMasked(rel: seq<bool>, k: nat)
    ensures Count(Masked(rel, k)) == CountTop(rel, k)
  {
    if rel != [] {
      if k == 0 {
        NoneRelevant(Masked(rel, 0));
        assert rel[..0] == [];
      } else {
        CountMasked(rel[1..], k - 1);
        assert Masked(rel, k)[1..] == Masked(rel[1..], k - 1);
        assert rel[..Min(k, |rel|)][1..] == rel[1..][..Min(k - 1, |rel| - 1)];
      }
    }
  }

  lemma DcgOfMasked(w: Discount, rel: seq<bool>, k: nat)
    ensures Dcg(w, Gains(rel), k) == Dcg(w, Gains(Masked(rel, k)), k)
  {
    var s, t := Gains(rel), Gains(Masked(rel, k));
    assert SameAbove(s, t, k, 0) by { assert s[..Kept(|s|, k, 0)] == t[..Kept(|s|, k, 0)]; }
    SameAboveSameSum(w, k, s, t, 0);
  }

  lemma {:induction false} IdealDcgGrows(w: Discount, m: nat, n: nat)
    requires IsDiscount(w) && m <= n
    ensures IdealDcg(w, m) <= IdealDcg(w, n)
  {
    if m < n {
      IdealDcgGrows(w, m, n - 1);
    }
  }

  /** While no more of the top `k` is marked than there are relevant ids, the string form stays in
      [0, 1], for every discount. */
  lemma NdcgAtKBounded(w: Discount, retrieved: seq<string>, relevant: seq<string>, k: nat)
    requires IsDiscount(w) && CountTop(Marks(retrieved, relevant), k) <= |relevant|
    ensures 0.0 <= NdcgAtK(w, retrieved, relevant, k) <= 1.0
  {
    var rel := Marks(retrieved, relevant);
    var masked, most := Masked(rel, k), Min(k, |relevant|);
    DcgOfMasked(w, rel, k);
    CountMasked(rel, k);
    Rearrangement(w, Gains(masked), k);
    SumNonNegative(w, k, Gains(masked));
    IdealDcgIsIdeal(w, k, masked);
    IdealDcgGrows(w, Min(k, Count(masked)), most);
    IdealDcgPositive(w, most);
    if IdealDcg(w, most) != 0.0 {
      QuotientBounds(Dcg(w, Gains(rel), k), IdealDcg(w, most));
    }
  }

  /** A discount as flat as one likes: `n / (n + i)`. */
  function Flat(n: real, i: nat): real
    requires 0.0 < n
  {
    n / (n + i as real)
  }

  lemma FlatFalls(n: real, i: nat, j: nat)
    requires 0.0 < n && i < j
    ensures Flat(n, j) < Flat(n, i)
  {
    QuotientFalls(n, n + i as real, n + j as real);
  }

  lemma FlatWithin(n: real, i: nat)
    requires 0.0 < n
    ensures 0.0 < Flat(n, i) <= 1.0 && (i == 0 ==> Flat(n, i) == 1.0)
  {
    QuotientPositive(n, n + i as real);
  }

  lemma FlatDiscount(n: real) returns (w: Discount)
    requires 0.0 < n
    ensures IsDiscount(w) && forall i: nat :: w(i) == Flat(n, i) && w(i) <= 1.0
  {
    w := (i: nat) => Flat(n, i);
    forall i: nat ensures 0.0 < w(i) <= 1.0 && (i == 0 ==> w(i) == 1.0) {
      FlatWithin(n, i);
    }
    forall i: nat, j: nat | i < j ensures w(j) < w(i) {
      FlatFalls(n, i, j);
    }
  }

  lemma QuotientPositive(n: real, a: real)
    requires 0.0 < n <= a
    ensures 0.0 < n / a <= 1.0 && (n / a) * a == n
  {
    var x := n / a;
    assert x * a == n;
    CancelStrict(0.0, x, a);
    Cancel(x, 1.0, a);
  }

  lemma QuotientFalls(n: real, a: real, b: real)
    requires 0.0 < n <= a < b
    ensures n / b < n / a
  {
    var x, y, d := n / a, n / b, b - a;
    QuotientPositive(n, a);
    QuotientPositive(n, b);
    Positive(y, d);
    assert y * d == y * b - y * a;
    CancelStrict(y, x, a);
  }

  lemma {:induction false} IdealDcgAtMost(w: Discount, n: nat)
    requires forall i: nat :: w(i) <= 1.0
    ensures IdealDcg(w, n) <= n as real
  {
    if n > 0 {
      IdealDcgAtMost(w, n - 1);
    }
  }

  lemma {:induction false} DcgAtLeast(w: Discount, k: nat, rel: seq<bool>, at: nat, least: real)
    requires 0.0 <= least && forall i: nat :: i < k ==> least <= w(i)
    requires forall i :: 0 <= i < |rel| && rel[i] ==> at + i < k
    ensures Count(rel) as real * least <= SumFrom(Discounted(w, k), Gains(rel), at)
  {
    if rel != [] {
      var rest := rel[1..];
      GainsSplit(rel);
      forall i | 0 <= i < |rest| && rest[i] ensures at + 1 + i < k {
        assert rel[i + 1];
      }
      DcgAtLeast(w, k, rest, at + 1, least);
      OneMoreTimes(Count(rest), least);
    }
  }

  lemma OneMoreTimes(n: nat, x: real)
    ensures (n + 1) as real * x == n as real * x + x
  {
  }

  /** `(r + 1) / (1 + m / (r * m + 1))` exceeds `r`. */
  lemma FlatEnough(r: real, m: real, n: real, least: real)
    requires 0.0 <= r && 0.0 <= m && n == r * m + 1.0 && least == n / (n + m)
    ensures r < (r + 1.0) * least
  {
    var d, q := n + m, r * m;
    TimesNonNegative(r, m);
    assert least * d == n;
    var rn := r * n;
    assert r * d == rn + q;
    assert ((r + 1.0) * least) * d == (r + 1.0) * (least * d);
    assert (r + 1.0) * n == rn + n;
    CancelStrict(r, (r + 1.0) * least, d);
  }

  /** With more of the top `k` marked than there are relevant ids, a flat enough discount gives more
      than 1. */
  lemma NdcgAtKExceeds(retrieved: seq<string>, relevant: seq<string>, k: nat) returns (w: Discount)
    requires CountTop(Marks(retrieved, relevant), k) > |relevant|
    ensures IsDiscount(w) && NdcgAtK(w, retrieved, relevant, k) > 1.0
  {
    var rel, r := Marks(retrieved, relevant), |relevant|;
    CountMasked(rel, k);
    CountAtMost(Masked(rel, k), k);
    NothingMarked(retrieved, relevant, k);
    assert relevant != [] && r < CountTop(rel, k) <= k;
    var least;
    w, least := FlatEnoughDiscount(r, k - 1);
    DcgOfTop(w, rel, k, least);
    IdealDcgAtMost(w, r);
    IdealDcgPositive(w, r);
    ExceedsIdeal(r as real, CountTop(rel, k) as real, least, Dcg(w, Gains(rel), k), IdealDcg(w, r));
  }

  lemma ExceedsIdeal(r: real, count: real, least: real, dcg: real, idcg: real)
    requires r + 1.0 <= count && r < (r + 1.0) * least && 0.0 <= least
    requires count * least <= dcg && 0.0 < idcg <= r
    ensures dcg / idcg > 1.0
  {
    MulMonotone(r + 1.0, count, least);
    QuotientAboveOne(dcg, idcg);
  }

  lemma FlatEnoughDiscount(r: nat, m: nat) returns (w: Discount, least: real)
    ensures IsDiscount(w) && w(m) == least && r as real < (r as real + 1.0) * least
    ensures forall i: nat :: w(i) <= 1.0
  {
    TimesNonNegative(r as real, m as real);
    var n := r as real * m as real + 1.0;
    w := FlatDiscount(n);
    least := w(m);
    FlatEnough(r as real, m as real, n, least);
  }

  /** Every marked position above the cut is worth at least the last weight above it. */
  lemma DcgOfTop(w: Discount, rel: seq<bool>, k: nat, least: real)
    requires IsDiscount(w) && 0 < k && w(k - 1) == least
    ensures CountTop(rel, k) as real * least <= Dcg(w, Gains(rel), k)
  {
    CountMasked(rel, k);
    DcgOfMasked(w, rel, k);
    assert forall i: nat :: i < k - 1 ==> w(k - 1) < w(i);
    DcgAtLeast(w, k, Masked(rel, k), 0, least);
  }

  lemma QuotientAboveOne(a: real, b: real)
    requires 0.0 < b < a
    ensures a / b > 1.0
  {
    assert (a / b) * b == a;
    CancelStrict(1.0, a / b, b);
  }

  lemma {:induction false} CountAtMost(rel: seq<bool>, k: nat)
    requires forall i :: 0 <= i < |rel| && rel[i] ==> i < k
    ensures Count(rel) <= k
  {
    if rel != [] {
      var rest := rel[1..];
      forall i | 0 <= i < |rest| && rest[i] ensures 0 < k && i < k - 1 {
        assert rel[i + 1];
      }
      if k == 0 {
        NoneRelevant(rest);
      } else {
        CountAtMost(rest, k - 1);
      }
    }
  }

  lemma NothingMarked(retrieved: seq<string>, relevant: seq<string>, k: nat)
    ensures relevant == [] ==> CountTop(Marks(retrieved, relevant), k) == 0
  {
    var rel := Marks(retrieved, relevant);
    if relevant == [] {
      NoneRelevant(rel[..Min(k, |rel|)]);
    }
  }

  /** The string form called on its own stays in [0, 1], whatever the discount, exactly when no more
      of the top `k` is marked than there are relevant ids. A list that repeats an id can break it. */
  lemma NdcgAtKBoundedExactly(retrieved: seq<string>, relevant: seq<string>, k: nat)
    ensures (forall w: Discount :: IsDiscount(w) ==> 0.0 <= NdcgAtK(w, retrieved, relevant, k) <= 1.0) <==>
            CountTop(Marks(retrieved, relevant), k) <= |relevant|
  {
    if CountTop(Marks(retrieved, relevant), k) <= |relevant| {
      forall w: Discount | IsDiscount(w) ensures 0.0 <= NdcgAtK(w, retrieved, relevant, k) <= 1.0 {
        NdcgAtKBounded(w, retrieved, relevant, k);
      }
    } else {
      var w := NdcgAtKExceeds(retrieved, relevant, k);
      assert IsDiscount(w);
    }
  }

  /** Every discount breaks it when the one relevant id comes back twice. */
  lemma DuplicatesExceedOne(w: Discount)
    requires IsDiscount(w)
    ensures NdcgAtK(w, ["a", "a"], ["a"], 2) > 1.0
  {
    var rel := Marks(["a", "a"], ["a"]);
    assert Gains(rel) == [1.0] + ([1.0] + []);
    SumFromPush(Discounted(w, 2), 1.0, [1.0] + [], 0);
    SumFromPush(Discounted(w, 2), 1.0, [], 1);
    assert IdealDcg(w, 1) == IdealDcg(w, 0) + w(0);
  }

  // ---- recall@1 against nDCG ----

  lemma FirstHitCounts(rel: seq<bool>)
    ensures First(rel) == 1.0 ==> Count(rel) != 0
  {
  }

  /** The first memory is not relevant, or the top min(K, number relevant) all are, K being at least 1. */
  predicate TopIsFilled(k: nat, rel: seq<bool>) {
    First(rel) == 0.0 || (1 <= k && TopAreRelevant(rel, Min(k, Count(rel))))
  }

  /** Exactly then is a query's recall@1 at most its nDCG. */
  lemma FirstWithinQualityExactly(w: Discount, k: nat, rel: seq<bool>)
    requires IsDiscount(w)
    ensures First(rel) <= Quality(w, k)(rel) <==> TopIsFilled(k, rel)
  {
    NdcgBounds(w, Gains(rel), k);
    NdcgIsOneExactly(w, k, rel);
    FirstHitCounts(rel);
  }

  /** Recall@1 is at most nDCG over every run made of the given answers exactly when each of them is
      like that. */
  lemma RecallWithinNdcg(w: Discount, answers: set<seq<bool>>, k: nat)
    requires IsDiscount(w)
    ensures (forall queries {:trigger Mean(First, queries)} ::
               (forall h :: h in queries ==> h in answers) ==>
                 Mean(First, queries) <= Mean(Quality(w, k), queries)) <==>
            (forall h :: h in answers ==> TopIsFilled(k, h))
  {
    forall h ensures First(h) <= Quality(w, k)(h) <==> TopIsFilled(k, h) {
      FirstWithinQualityExactly(w, k, h);
    }
    if forall h :: h in answers ==> TopIsFilled(k, h) {
      forall queries: seq<seq<bool>> | forall h :: h in queries ==> h in answers
        ensures Mean(First, queries) <= Mean(Quality(w, k), queries)
      {
        MeansCompare(First, Quality(w, k), queries);
      }
    } else {
      var h :| h in answers && !TopIsFilled(k, h);
      MeanOfOne(First, [h]);
      MeanOfOne(Quality(w, k), [h]);
      assert !(Mean(First, [h]) <= Mean(Quality(w, k), [h]));
    }
  }

  /** A miss between two hits, under any discount. */
  lemma MissBetweenHits(w: Discount)
    requires IsDiscount(w)
    ensures Quality(w, 3)([true, false, true]) < First([true, false, true])
  {
    var rel := [true, false, true];
    assert Count(rel) == 1 + Count(rel[1..]) && Count(rel[1..]) == Count(rel[1..][1..]);
    assert rel[1..][1..] == [true] && Count([true]) == 1 + Count([true][1..]);
    assert !rel[1];
    FirstWithinQualityExactly(w, 3, rel);
  }

  lemma MeanOfOne(score: Score, queries: seq<seq<bool>>)
    requires |queries| == 1
    ensures Mean(score, queries) == score(queries[0])
  {
    assert queries[..0] == [];
    assert Total(score, queries) == Total(score, queries[..0]) + score(queries[0]);
    OverOne(Total(score, queries), |queries| as real);
  }

  lemma OverOne(x: real, d: real)
    requires d == 1.0
    ensures x / d == x
  {
  }

  // ---- three readings of recall@K ----

  /** Of two scores, one at most the other on every query, the totals agree only when the scores do. */
  lemma {:induction false} TotalsAgreeExactly(f: Score, g: Score, queries: seq<seq<bool>>)
    requires forall h :: h in queries ==> f(h) <= g(h)
    ensures Total(f, queries) == Total(g, queries) <==> forall h :: h in queries ==> f(h) == g(h)
  {
    if queries != [] {
      var n := |queries| - 1;
      assert queries == queries[..n] + [queries[n]];
      TotalsAgreeExactly(f, g, queries[..n]);
      TotalsCompare(f, g, queries[..n]);
    }
  }

  lemma MeansAgreeExactly(f: Score, g: Score, queries: seq<seq<bool>>)
    ensures Mean(f, queries) == Mean(g, queries) <==> Total(f, queries) == Total(g, queries)
  {
    QuotientsAgree(Total(f, queries), Total(g, queries), if |queries| == 0 then 1.0 else |queries| as real);
  }

  lemma QuotientsAgree(a: real, b: real, d: real)
    requires 0.0 < d
    ensures a / d == b / d <==> a == b
  {
    var x, y := a / d, b / d;
    assert x * d == a && y * d == b;
  }

  /** The probe's recall@K, which takes a hit at any rank, is the share of queries with a hit in the
      top K exactly when no query's first hit lies further down. */
  lemma FoundIsRecallExactly(queries: seq<seq<bool>>, k: nat)
    ensures Mean(RecallAt(k), queries) <= Mean(Found, queries)
    ensures Mean(RecallAt(k), queries) == Mean(Found, queries) <==>
            forall h :: h in queries && Position(h).Some? ==> Position(h).value < k
  {
    MeansCompare(RecallAt(k), Found, queries);
    TotalsAgreeExactly(RecallAt(k), Found, queries);
    MeansAgreeExactly(RecallAt(k), Found, queries);
    assert forall h :: RecallAt(k)(h) == Found(h) <==> (Position(h).Some? ==> Position(h).value < k);
  }

  /** One query answered by `k` misses and then a hit: the two differ by all there is. */
  lemma LateHit(k: nat)
    ensures var queries := [seq(k, _ => false) + [true]];
            Mean(RecallAt(k), queries) == 0.0 && Mean(Found, queries) == 1.0
  {
    var hits := seq(k, _ => false) + [true];
    assert hits[k];
    assert Position(hits) == Some(k);
    MeanOfOne(RecallAt(k), [hits]);
    MeanOfOne(Found, [hits]);
  }

  /** The fraction of the relevant memories that are in the top `k`. */
  function Fraction(k: nat): Score {
    (rel: seq<bool>) => Average(CountTop(rel, k) as real, Count(rel))
  }

  lemma FractionWithin(part: real, whole: nat)
    requires 0.0 <= part <= whole as real
    ensures 0.0 <= Average(part, whole) <= 1.0
    ensures Average(part, whole) == 0.0 <==> part == 0.0
    ensures Average(part, whole) == 1.0 <==> part == whole as real && whole != 0
  {
    if whole != 0 {
      QuotientBounds(part, whole as real);
      assert (part / whole as real) * whole as real == part;
    }
  }

  lemma {:induction false} CountSplits(a: seq<bool>, b: seq<bool>)
    ensures Count(a + b) == Count(a) + Count(b)
  {
    if a == [] {
      assert a + b == b;
    } else {
      assert (a + b)[1..] == a[1..] + b;
      CountSplits(a[1..], b);
    }
  }

  lemma CountOfTop(k: nat, rel: seq<bool>)
    ensures CountTop(rel, k) <= Count(rel)
    ensures RecallAt(k)(rel) == if CountTop(rel, k) == 0 then 0.0 else 1.0
  {
    var m := Min(k, |rel|);
    assert rel == rel[..m] + rel[m..];
    CountSplits(rel[..m], rel[m..]);
    NoneRelevant(rel[..m]);
    if RecallAt(k)(rel) == 1.0 {
      assert rel[..m][Position(rel).value];
    }
  }

  lemma RecallAgainstFraction(k: nat, rel: seq<bool>)
    ensures Fraction(k)(rel) <= RecallAt(k)(rel)
    ensures Fraction(k)(rel) == RecallAt(k)(rel) <==> CountTop(rel, k) == 0 || CountTop(rel, k) == Count(rel)
  {
    CountOfTop(k, rel);
    FractionWithin(CountTop(rel, k) as real, Count(rel));
  }

  /** The report's recall@K is never below the mean fraction of relevant memories in the top K, and
      equals it exactly when every question has none or all of its relevant memories there. */
  lemma RecallIsFractionExactly(pop: seq<seq<bool>>, k: nat)
    ensures Mean(Fraction(k), pop) <= Mean(RecallAt(k), pop)
    ensures Mean(Fraction(k), pop) == Mean(RecallAt(k), pop) <==>
            forall rel :: rel in pop ==> CountTop(rel, k) == 0 || CountTop(rel, k) == Count(rel)
  {
    forall rel ensures Fraction(k)(rel) <= RecallAt(k)(rel)
      ensures Fraction(k)(rel) == RecallAt(k)(rel) <==> CountTop(rel, k) == 0 || CountTop(rel, k) == Count(rel)
    {
      RecallAgainstFraction(k, rel);
    }
    MeansCompare(Fraction(k), RecallAt(k), pop);
    TotalsAgreeExactly(Fraction(k), RecallAt(k), pop);
    MeansAgreeExactly(Fraction(k), RecallAt(k), pop);
  }

  /** Two relevant memories and a cut after the first: recall@1 is 1, the fraction one half. */
  lemma HalfTheRelevant()
    ensures Mean(RecallAt(1), [[true, true]]) == 1.0 && Mean(Fraction(1), [[true, true]]) == 0.5
  {
    TwoMarks([true, true]);
    MeanOfOne(RecallAt(1), [[true, true]]);
    MeanOfOne(Fraction(1), [[true, true]]);
  }

  lemma TwoMarks(rel: seq<bool>)
    requires rel == [true, true]
    ensures RecallAt(1)(rel) == 1.0 && Fraction(1)(rel) == 0.5
  {
    assert rel[1..] == [true] && Count([true]) == 1 + Count([true][1..]);
    assert rel[..1] == [true];
  }

  lemma RecallGrows(k: nat, l: nat, rel: seq<bool>)
    requires k <= l
    ensures 0.0 <= RecallAt(k)(rel) <= RecallAt(l)(rel) <= 1.0
  {
  }

  /** What the reciprocal rank can be at most, given whether the top K has a hit. */
  function MrrCeiling(k: nat): Score {
    (rel: seq<bool>) => RecallAt(k)(rel) + (1.0 - RecallAt(k)(rel)) / (k as real + 1.0)
  }

  lemma CeilingValue(k: nat, rel: seq<bool>)
    ensures MrrCeiling(k)(rel) == if RecallAt(k)(rel) == 1.0 then 1.0 else 1.0 / (k as real + 1.0)
  {
    assert 0.0 / (k as real + 1.0) == 0.0;
  }

  lemma ReciprocalBounds(k: nat, rel: seq<bool>)
    ensures RecallAt(1)(rel) <= Reciprocal(rel) <= MrrCeiling(k)(rel)
  {
    CeilingValue(k, rel);
    ReciprocalShrinks(k, k);
    if Position(rel).Some? {
      var r := Position(rel).value;
      ReciprocalShrinks(0, r);
      if k <= r {
        ReciprocalShrinks(k, r);
      }
    }
  }

  lemma ReciprocalShrinks(a: nat, b: nat)
    requires a <= b
    ensures 0.0 < 1.0 / (b as real + 1.0) <= 1.0 / (a as real + 1.0) <= 1.0
  {
    InverseAntitone(a as real + 1.0, b as real + 1.0);
    InverseAntitone(1.0, a as real + 1.0);
  }

  lemma InverseAntitone(x: real, y: real)
    requires 0.0 < x <= y
    ensures 0.0 < 1.0 / y <= 1.0 / x
  {
    var p, q := 1.0 / y, 1.0 / x;
    assert p * y == 1.0 && q * x == 1.0;
    assert 0.0 < p && 0.0 < q;
    assert p * (y - x) >= 0.0;
    assert p * x <= q * x;
    assert (q - p) * x >= 0.0;
  }

  // ---- the run ----

  lemma PopulationNext(lower: Lowering, results: seq<Reading>, i: nat)
    requires i < |results|
    ensures Population(lower, results[..i + 1]) ==
              if Counted(lower, results[i]) then Population(lower, results[..i]) + [Relevance(lower, results[i])]
              else Population(lower, results[..i])
  {
    assert results[..i + 1][..i] == results[..i];
  }

  /** The mean of a per-question score over the population, 0 when there is none. */
  method MeanOver(score: Score, lower: Lowering, results: seq<Reading>) returns (mean: real)
    ensures mean == Mean(score, Population(lower, results))
  {
    var total, count := 0.0, 0;
    for i := 0 to |results|
      invariant total == Total(score, Population(lower, results[..i])) && count == |Population(lower, results[..i])|
    {
      var r := results[i];
      ghost var before := Population(lower, results[..i]);
      PopulationNext(lower, results, i);
      if Counted(lower, r) {
        var rel := Relevance(lower, r);
        assert (before + [rel])[..|before|] == before;
        total := total + score(rel);
        count := count + 1;
      }
    }
    assert results[..|results|] == results;
    mean := if count == 0 then 0.0 else total / count as real;
    if count == 0 {
      assert Population(lower, results) == [];
    }
  }

  datatype RetrievalStats = RetrievalStats(recallAt1: real, recallAt5: real, recallAt10: real, ndcgAt5: real,
    ndcgAt10: real, mrr: real)

  predicate AnyRetrieved(results: seq<Reading>) { exists i :: 0 <= i < |results| && results[i].contents != [] }

  /** `compute_retrieval_stats`: nothing to report when no question returned a memory. */
  method ComputeRetrievalStats(w: Discount, lower: Lowering, results: seq<Reading>)
    returns (stats: Option<RetrievalStats>)
    ensures stats.Some? <==> exists i :: 0 <= i < |results| && 0 < |results[i].contents|
    ensures stats.Some? ==>
              var pop := Population(lower, results);
              stats.value == RetrievalStats(Mean(RecallAt(1), pop), Mean(RecallAt(5), pop), Mean(RecallAt(10), pop),
                                            Mean(NdcgOfMarks(w, 5), pop), Mean(NdcgOfMarks(w, 10), pop),
                                              Mean(Reciprocal, pop))
  {
    if !AnyRetrieved(results) {
      return None;
    }
    var r1 := MeanOver(RecallAt(1), lower, results);
    var r5 := MeanOver(RecallAt(5), lower, results);
    var r10 := MeanOver(RecallAt(10), lower, results);
    var n5 := MeanOver(NdcgOfMarks(w, 5), lower, results);
    var n10 := MeanOver(NdcgOfMarks(w, 10), lower, results);
    var mrr := MeanOver(Reciprocal, lower, results);
    return Some(RetrievalStats(r1, r5, r10, n5, n10, mrr));
  }

  /** Over any population, recall does not fall as K grows, and is between 0 and 1. */
  lemma RecallGrowsWithK(pop: seq<seq<bool>>, k: nat, l: nat)
    requires k <= l
    ensures 0.0 <= Mean(RecallAt(k), pop) <= Mean(RecallAt(l), pop) <= 1.0
  {
    forall rel | rel in pop
      ensures Zero(rel) <= RecallAt(k)(rel) && RecallAt(k)(rel) <= RecallAt(l)(rel) && RecallAt(l)(rel) <= One(rel)
    {
      RecallGrows(k, l, rel);
    }
    ConstantMeans(pop);
    MeansCompare(Zero, RecallAt(k), pop);
    MeansCompare(RecallAt(k), RecallAt(l), pop);
    MeansCompare(RecallAt(l), One, pop);
  }

  lemma {:induction false} CeilingTotal(pop: seq<seq<bool>>, k: nat)
    ensures Total(MrrCeiling(k), pop) ==
            Total(RecallAt(k), pop) + (|pop| as real - Total(RecallAt(k), pop)) / (k as real + 1.0)
  {
    if pop != [] {
      var n := |pop| - 1;
      CeilingTotal(pop[..n], k);
      AddFractions(n as real - Total(RecallAt(k), pop[..n]), 1.0 - RecallAt(k)(pop[n]), k as real + 1.0);
    }
  }

  lemma AddFractions(a: real, b: real, d: real)
    requires d != 0.0
    ensures a / d + b / d == (a + b) / d
  {
  }

  lemma CeilingMean(total: real, n: real, d: real)
    requires 0.0 < n && 0.0 < d
    ensures (total + (n - total) / d) / n == total / n + (1.0 - total / n) / d
  {
    var m := total / n;
    assert total == m * n;
    assert (n - total) / d == n * ((1.0 - m) / d);
  }

  /** MRR sits between recall@1 and what recall@K leaves possible: a miss in the top K is worth at
      most 1 / (K + 1). */
  lemma MrrBetweenRecalls(pop: seq<seq<bool>>, k: nat)
    ensures Mean(RecallAt(1), pop) <= Mean(Reciprocal, pop)
    ensures Mean(Reciprocal, pop) <= Mean(RecallAt(k), pop) + (1.0 - Mean(RecallAt(k), pop)) / (k as real + 1.0)
  {
    forall rel | rel in pop ensures RecallAt(1)(rel) <= Reciprocal(rel) && Reciprocal(rel) <= MrrCeiling(k)(rel) {
      ReciprocalBounds(k, rel);
    }
    MeansCompare(RecallAt(1), Reciprocal, pop);
    MeansCompare(Reciprocal, MrrCeiling(k), pop);
    CeilingTotal(pop, k);
    if pop != [] {
      CeilingMean(Total(RecallAt(k), pop), |pop| as real, k as real + 1.0);
    } else {
      ReciprocalShrinks(k, k);
    }
  }

  lemma NdcgMeanInRange(w: Discount, pop: seq<seq<bool>>, k: nat)
    requires IsDiscount(w)
    ensures 0.0 <= Mean(NdcgOfMarks(w, k), pop) <= 1.0
  {
    forall rel | rel in pop ensures Zero(rel) <= NdcgOfMarks(w, k)(rel) && NdcgOfMarks(w, k)(rel) <= One(rel) {
      NdcgIsOneExactly(w, k, rel);
    }
    ConstantMeans(pop);
    MeansCompare(Zero, NdcgOfMarks(w, k), pop);
    MeansCompare(NdcgOfMarks(w, k), One, pop);
  }
}
