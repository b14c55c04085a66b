/** Meta-evaluation of a judge against gold labels: agreement rates, bias, and Cohen's kappa over the
    3x3 confusion matrix. `f64` is modelled by `real`; `f64::EPSILON` keeps its value. */
module MetaJudge {
  import opened Wrappers
  import opened Verdicts
  import opened Tallies
  import opened Reals

  datatype LabeledVerdict = LabeledVerdict(gold: Verdict, judge: Verdict)

  predicate IsSquare(m: seq<seq<nat>>) { |m| == 3 && |m[0]| == 3 && |m[1]| == 3 && |m[2]| == 3 }

  /** Counts indexed `[gold][judge]`, in the order Correct, Partial, Incorrect. */
  type Matrix = m: seq<seq<nat>> | IsSquare(m) witness [[0, 0, 0], [0, 0, 0], [0, 0, 0]]

  datatype JudgeMetaReport = JudgeMetaReport(
    n: nat, exactAgreement: real, adjacentAgreement: real, cohensKappa: real,
    scoreBias: real, scoreMae: real, confusion: Matrix)

  function VerdictIndex(v: Verdict): Option<nat> {
    match v
    case Correct => Some(0)
    case Partial => Some(1)
    case Incorrect => Some(2)
    case NotJudged => None
  }

  // ---- the specification: tallies over the labels ----

  predicate IsGraded(l: LabeledVerdict) { l.gold.IsGraded() && l.judge.IsGraded() }

  predicate Agrees(l: LabeledVerdict) { IsGraded(l) && l.gold == l.judge }

  /** Anything but Correct against Incorrect. */
  predicate IsAdjacent(l: LabeledVerdict) {
    IsGraded(l) && l != LabeledVerdict(Correct, Incorrect) && l != LabeledVerdict(Incorrect, Correct)
  }

  function Signed(l: LabeledVerdict): real {
    if IsGraded(l) then l.judge.Score() - l.gold.Score() else 0.0
  }

  function Abs(x: real): real { if x < 0.0 then -x else x }

  function Magnitude(l: LabeledVerdict): real { Abs(Signed(l)) }

  function InCell(g: nat, j: nat): LabeledVerdict -> bool {
    (l: LabeledVerdict) => VerdictIndex(l.gold) == Some(g) && VerdictIndex(l.judge) == Some(j)
  }

  function Count(labels: seq<LabeledVerdict>, g: nat, j: nat): nat { Tally(InCell(g, j), labels) }

  function Confusion(labels: seq<LabeledVerdict>): Matrix {
    [[Count(labels, 0, 0), Count(labels, 0, 1), Count(labels, 0, 2)],
     [Count(labels, 1, 0), Count(labels, 1, 1), Count(labels, 1, 2)],
     [Count(labels, 2, 0), Count(labels, 2, 1), Count(labels, 2, 2)]]
  }

  // ---- kappa ----

  const TWO_52: nat := 4503599627370496

  function Row(m: Matrix, i: nat): nat
    requires i < 3
  {
    m[i][0] + m[i][1] + m[i][2]
  }

  function Col(m: Matrix, j: nat): nat
    requires j < 3
  {
    m[0][j] + m[1][j] + m[2][j]
  }

  function Diagonal(m: Matrix): nat { m[0][0] + m[1][1] + m[2][2] }

  function Size(m: Matrix): nat { Row(m, 0) + Row(m, 1) + Row(m, 2) }

  /** Agreement expected by chance, from the shares of pairs in each row and each column. */
  function Chance(rows: seq<real>, cols: seq<real>): real
    requires |rows| == 3 && |cols| == 3
  {
    rows[0] * cols[0] + rows[1] * cols[1] + rows[2] * cols[2]
  }

  function Share(count: nat, n: nat): real
    requires 0 < n
  {
    count as real / n as real
  }

  function Rows(m: Matrix, n: nat): seq<real>
    requires 0 < n
  {
    [Share(Row(m, 0), n), Share(Row(m, 1), n), Share(Row(m, 2), n)]
  }

  function Cols(m: Matrix, n: nat): seq<real>
    requires 0 < n
  {
    [Share(Col(m, 0), n), Share(Col(m, 1), n), Share(Col(m, 2), n)]
  }

  function ByChance(m: Matrix, n: nat): real
    requires 0 < n
  {
    Chance(Rows(m, n), Cols(m, n))
  }

  function Observed(m: Matrix, n: nat): real
    requires 0 < n
  {
    Share(Diagonal(m), n)
  }

  function Kappa(m: Matrix, n: nat): real {
    if n == 0 then 0.0
    else KappaOf(Observed(m, n), ByChance(m, n))
  }

  function KappaOf(po: real, pe: real): real {
    if Abs(1.0 - pe) < EPSILON then (if Abs(po - 1.0) < EPSILON then 1.0 else 0.0)
    else (po - pe) / (1.0 - pe)
  }

  function ReportOf(labels: seq<LabeledVerdict>): Option<JudgeMetaReport> {
    var n := Tally(IsGraded, labels);
    if n == 0 then None
    else Some(JudgeMetaReport(
      n, Tally(Agrees, labels) as real / n as real, Tally(IsAdjacent, labels) as real / n as real,
      Kappa(Confusion(labels), n), Total(Signed, labels) / n as real, Total(Magnitude, labels) / n as real,
      Confusion(labels)))
  }

  // ---- the loops ----

  ghost predicate Holds(a: array2<nat>, m: Matrix)
    reads a
  {
    a.Length0 == 3 && a.Length1 == 3 && forall i, j :: 0 <= i < 3 && 0 <= j < 3 ==> a[i, j] == m[i][j]
  }

  method CohensKappa(confusion: array2<nat>, n: nat, ghost m: Matrix) returns (kappa: real)
    requires Holds(confusion, m)
    ensures kappa == Kappa(m, n)
  {
    if n == 0 {
      return 0.0;
    }
    var agree, rowTot, colTot := Marginals(confusion, m);
    var rows := [Share(rowTot[0], n), Share(rowTot[1], n), Share(rowTot[2], n)];
    var cols := [Share(colTot[0], n), Share(colTot[1], n), Share(colTot[2], n)];
    assert rows == Rows(m, n) && cols == Cols(m, n);
    var po := Share(agree, n);
    var pe := Chance(rows, cols);
    kappa := KappaOf(po, pe);
  }

  method Marginals(confusion: array2<nat>, ghost m: Matrix) returns (agree: nat, rowTot: array<nat>, colTot: array<nat>)
    requires Holds(confusion, m)
    ensures agree == Diagonal(m) && rowTot.Length == 3 && colTot.Length == 3
    ensures forall i :: 0 <= i < 3 ==> rowTot[i] == Row(m, i) && colTot[i] == Col(m, i)
  {
    agree, rowTot, colTot := 0, new nat[3](_ => 0), new nat[3](_ => 0);
    for gi := 0 to 3
      invariant rowTot != colTot && fresh(rowTot) && fresh(colTot)
      invariant agree ==
                (if gi > 0 then m[0][0] else 0) + (if gi > 1 then m[1][1] else 0) + if gi > 2 then m[2][2] else 0
      invariant forall i :: 0 <= i < 3 ==> rowTot[i] == if i < gi then Row(m, i) else 0
      invariant forall j :: 0 <= j < 3 ==>
                colTot[j] ==
                  (if gi > 0 then m[0][j] else 0) + (if gi > 1 then m[1][j] else 0) + if gi > 2 then m[2][j] else 0
    {
      agree := AddRow(confusion, m, gi, rowTot, colTot, agree);
    }
  }

  /** The inner loop of `cohens_kappa`: row `gi` into the marginals. */
  method AddRow(confusion: array2<nat>, ghost m: Matrix, gi: nat, rowTot: array<nat>, colTot: array<nat>, agree0: nat)
    returns (agree: nat)
    requires Holds(confusion, m) && gi < 3 && rowTot.Length == 3 && colTot.Length == 3 && rowTot != colTot
    requires rowTot[gi] == 0
    modifies rowTot, colTot
    ensures agree == agree0 + m[gi][gi]
    ensures forall i :: 0 <= i < 3 ==> rowTot[i] == if i == gi then Row(m, gi) else old(rowTot[i])
    ensures forall j :: 0 <= j < 3 ==> colTot[j] == old(colTot[j]) + m[gi][j]
  {
    agree := agree0;
    for ji := 0 to 3
      invariant agree == agree0 + if gi < ji then m[gi][gi] else 0
      invariant forall i :: 0 <= i < 3 && i != gi ==> rowTot[i] == old(rowTot[i])
      invariant rowTot[gi] ==
                (if ji > 0 then m[gi][0] else 0) + (if ji > 1 then m[gi][1] else 0) + if ji > 2 then m[gi][2] else 0
      invariant forall j :: 0 <= j < 3 ==> colTot[j] == old(colTot[j]) + if j < ji then m[gi][j] else 0
    {
      var c := confusion[gi, ji];
      rowTot[gi] := rowTot[gi] + c;
      colTot[ji] := colTot[ji] + c;
      if gi == ji {
        agree := agree + c;
      }
    }
  }

  lemma ConfusionNext(labels: seq<LabeledVerdict>, i: nat, g: nat, j: nat)
    requires i < |labels| && g < 3 && j < 3
    ensures Confusion(labels[..i + 1])[g][j] == Confusion(labels[..i])[g][j] + if InCell(g, j)(labels[i]) then 1 else 0
  {
    TallyNext(InCell(g, j), labels, i);
  }

  lemma SumsNext(labels: seq<LabeledVerdict>, i: nat)
    requires i < |labels|
    ensures Tally(IsGraded, labels[..i + 1]) == Tally(IsGraded, labels[..i]) + if IsGraded(labels[i]) then 1 else 0
    ensures Tally(Agrees, labels[..i + 1]) == Tally(Agrees, labels[..i]) + if Agrees(labels[i]) then 1 else 0
    ensures Tally(IsAdjacent, labels[..i + 1]) ==
            Tally(IsAdjacent, labels[..i]) + if IsAdjacent(labels[i]) then 1 else 0
    ensures Total(Signed, labels[..i + 1]) == Total(Signed, labels[..i]) + Signed(labels[i])
    ensures Total(Magnitude, labels[..i + 1]) == Total(Magnitude, labels[..i]) + Magnitude(labels[i])
    ensures forall g, j :: 0 <= g < 3 && 0 <= j < 3 ==>
              Confusion(labels[..i + 1])[g][j] ==
                Confusion(labels[..i])[g][j] + if InCell(g, j)(labels[i]) then 1 else 0
  {
    TallyNext(IsGraded, labels, i);
    TallyNext(Agrees, labels, i);
    TallyNext(IsAdjacent, labels, i);
    TotalNext(Signed, labels, i);
    TotalNext(Magnitude, labels, i);
    forall g, j | 0 <= g < 3 && 0 <= j < 3
      ensures Confusion(labels[..i + 1])[g][j] ==
              Confusion(labels[..i])[g][j] + if InCell(g, j)(labels[i]) then 1 else 0
    {
      ConfusionNext(labels, i, g, j);
    }
  }

  /** One iteration of the evaluation loop: an ungraded pair is skipped, a graded one enters the
      matrix and the five sums. */
  method AddLabel(confusion: array2<nat>, l: LabeledVerdict, graded0: nat, exact0: nat, adjacent0: nat, signed0: real,
                  abs0: real)
    returns (graded: nat, exact: nat, adjacent: nat, signed: real, abs: real)
    requires confusion.Length0 == 3 && confusion.Length1 == 3
    modifies confusion
    ensures graded == graded0 + (if IsGraded(l) then 1 else 0)
    ensures exact == exact0 + (if Agrees(l) then 1 else 0)
    ensures adjacent == adjacent0 + (if IsAdjacent(l) then 1 else 0)
    ensures signed == signed0 + Signed(l) && abs == abs0 + Magnitude(l)
    ensures forall g, j :: 0 <= g < 3 && 0 <= j < 3 ==>
            confusion[g, j] == old(confusion[g, j]) + if InCell(g, j)(l) then 1 else 0
  {
    graded, exact, adjacent, signed, abs := graded0, exact0, adjacent0, signed0, abs0;
    if VerdictIndex(l.gold).None? || VerdictIndex(l.judge).None? {
      return;
    }
    var gi, ji := VerdictIndex(l.gold).value, VerdictIndex(l.judge).value;
    confusion[gi, ji] := confusion[gi, ji] + 1;
    graded := graded + 1;
    if gi == ji {
      exact := exact + 1;
    }
    if (if gi < ji then ji - gi else gi - ji) <= 1 {
      adjacent := adjacent + 1;
    }
    var d := l.judge.Score() - l.gold.Score();
    signed := signed + d;
    abs := abs + Abs(d);
  }

  method Table(a: array2<nat>, ghost m: Matrix) returns (table: Matrix)
    requires Holds(a, m)
    ensures table == m
  {
    table := [[a[0, 0], a[0, 1], a[0, 2]], [a[1, 0], a[1, 1], a[1, 2]], [a[2, 0], a[2, 1], a[2, 2]]];
    assert table[0] == m[0] && table[1] == m[1] && table[2] == m[2];
  }

  /** The loop over the labels. */
  method Accumulate(labels: seq<LabeledVerdict>, confusion: array2<nat>)
    returns (graded: nat, exact: nat, adjacent: nat, signed: real, abs: real)
    requires Holds(confusion, Confusion([]))
    modifies confusion
    ensures Holds(confusion, Confusion(labels))
    ensures graded == Tally(IsGraded, labels) && exact == Tally(Agrees, labels) && adjacent == Tally(IsAdjacent, labels)
    ensures signed == Total(Signed, labels) && abs == Total(Magnitude, labels)
  {
    graded, exact, adjacent, signed, abs := 0, 0, 0, 0.0, 0.0;
    for i := 0 to |labels|
      invariant Holds(confusion, Confusion(labels[..i]))
      invariant graded == Tally(IsGraded, labels[..i]) && exact == Tally(Agrees, labels[..i])
      invariant adjacent == Tally(IsAdjacent, labels[..i])
      invariant signed == Total(Signed, labels[..i]) && abs == Total(Magnitude, labels[..i])
    {
      SumsNext(labels, i);
      graded, exact, adjacent, signed, abs := AddLabel(confusion, labels[i], graded, exact, adjacent, signed, abs);
    }
    assert labels[..|labels|] == labels;
  }

  method MetaEvaluate(labels: seq<LabeledVerdict>) returns (r: Option<JudgeMetaReport>)
    ensures r == ReportOf(labels)
  {
    var confusion := new nat[3, 3]((_, _) => 0);
    var graded, exact, adjacent, signed, abs := Accumulate(labels, confusion);
    if graded == 0 {
      return None;
    }
    var kappa := CohensKappa(confusion, graded, Confusion(labels));
    var table := Table(confusion, Confusion(labels));
    return Some(JudgeMetaReport(
      graded, exact as real / graded as real, adjacent as real / graded as real, kappa,
      signed / graded as real, abs / graded as real, table));
  }

  // ---- everything is determined by the matrix ----

  /** Signed and absolute distance in index steps; each step is worth half a point of score. */
  function Steps(m: Matrix): int {
    var above: int, below: int := m[1][0] + m[2][1] + 2 * m[2][0], m[0][1] + m[1][2] + 2 * m[0][2];
    above - below
  }

  function AbsSteps(m: Matrix): int { m[1][0] + m[2][1] + 2 * m[2][0] + m[0][1] + m[1][2] + 2 * m[0][2] }

  /** `m'` is `m` with the pair `l` entered. */
  ghost predicate Entered(m: Matrix, m': Matrix, l: LabeledVerdict) {
    forall g: nat, j: nat :: g < 3 && j < 3 ==> m'[g][j] == m[g][j] + if InCell(g, j)(l) then 1 else 0
  }

  lemma EnteredKeeps(m: Matrix, m': Matrix, l: LabeledVerdict)
    requires Entered(m, m', l)
    ensures Size(m') == Size(m) + if IsGraded(l) then 1 else 0
    ensures Diagonal(m') == Diagonal(m) + if Agrees(l) then 1 else 0
    ensures m'[0][2] + m'[2][0] == m[0][2] + m[2][0] + if IsGraded(l) && !IsAdjacent(l) then 1 else 0
    ensures Steps(m') as real / 2.0 == Steps(m) as real / 2.0 + Signed(l)
    ensures AbsSteps(m') as real / 2.0 == AbsSteps(m) as real / 2.0 + Magnitude(l)
  {
  }

  ghost predicate Determined(labels: seq<LabeledVerdict>, m: Matrix) {
    && Tally(IsGraded, labels) == Size(m) && Tally(Agrees, labels) == Diagonal(m)
    && Tally(IsAdjacent, labels) == Size(m) - m[0][2] - m[2][0]
    && Total(Signed, labels) == Steps(m) as real / 2.0 && Total(Magnitude, labels) == AbsSteps(m) as real / 2.0
  }

  lemma DeterminedNext(labels: seq<LabeledVerdict>, i: nat, m: Matrix, m': Matrix)
    requires i < |labels| && m == Confusion(labels[..i]) && m' == Confusion(labels[..i + 1])
    requires Determined(labels[..i], m)
    ensures Determined(labels[..i + 1], m')
  {
    SumsNext(labels, i);
    EnteredKeeps(m, m', labels[i]);
  }

  /** The counters and sums the loop keeps are all functions of its confusion matrix. */
  lemma {:induction false} MatrixDetermines(labels: seq<LabeledVerdict>)
    ensures Determined(labels, Confusion(labels))
  {
    if labels != [] {
      var i := |labels| - 1;
      MatrixDetermines(labels[..i]);
      DeterminedNext(labels, i, Confusion(labels[..i]), Confusion(labels[..i + 1]));
      assert labels[..i + 1] == labels;
    }
  }

  function FromMatrix(m: Matrix): JudgeMetaReport
    requires 0 < Size(m)
  {
    var nf := Size(m) as real;
    JudgeMetaReport(
      Size(m), Diagonal(m) as real / nf, (Size(m) - m[0][2] - m[2][0]) as real / nf, Kappa(m, Size(m)),
      Steps(m) as real / 2.0 / nf, AbsSteps(m) as real / 2.0 / nf, m)
  }

  /** The whole report is a function of the nine counts. */
  lemma ReportIsFromMatrix(labels: seq<LabeledVerdict>)
    ensures var m := Confusion(labels);
            ReportOf(labels) == if Size(m) == 0 then None else Some(FromMatrix(m))
  {
    MatrixDetermines(labels);
  }

  /** Reordering the labels changes nothing in the report. */
  lemma ReportForgetsOrder(s: seq<LabeledVerdict>, t: seq<LabeledVerdict>)
    requires multiset(s) == multiset(t)
    ensures ReportOf(s) == ReportOf(t)
  {
    assert Confusion(s) == Confusion(t) by {
      forall g: nat, j: nat ensures Count(s, g, j) == Count(t, g, j) {
        TallyForgetsOrder(InCell(g, j), s, t);
      }
    }
    ReportIsFromMatrix(s);
    ReportIsFromMatrix(t);
  }

  /** Two views of the same error: the mean absolute error is one minus the mean of the two agreement
      rates, and never smaller than the bias. */
  lemma ErrorFromAgreement(labels: seq<LabeledVerdict>)
    requires ReportOf(labels).Some?
    ensures var r := ReportOf(labels).value;
            && r.scoreMae == 1.0 - (r.exactAgreement + r.adjacentAgreement) / 2.0
            && -r.scoreMae <= r.scoreBias <= r.scoreMae
            && 0.0 <= r.exactAgreement <= r.adjacentAgreement <= 1.0
  {
    ReportIsFromMatrix(labels);
    var m := Confusion(labels);
    var far := m[0][2] + m[2][0];
    assert AbsSteps(m) == 2 * Size(m) - Diagonal(m) - (Size(m) - far);
    RatesOf(Size(m) as real, Diagonal(m) as real, (Size(m) - far) as real, AbsSteps(m) as real / 2.0,
      Steps(m) as real / 2.0);
  }

  lemma RatesOf(n: real, e: real, a: real, mag: real, sig: real)
    requires 0.0 < n && 0.0 <= e <= a <= n && mag == n - (e + a) / 2.0 && -mag <= sig <= mag
    ensures mag / n == 1.0 - (e / n + a / n) / 2.0
    ensures -(mag / n) <= sig / n <= mag / n && 0.0 <= e / n <= a / n <= 1.0
  {
    QuotientMonotone(e, a, n);
    QuotientMonotone(0.0, e, n);
    QuotientMonotone(a, n, n);
    QuotientMonotone(sig, mag, n);
    QuotientMonotone(-mag, sig, n);
    Negated(mag, n);
    var p, q := e / n, a / n;
    assert p * n == e && q * n == a;
    var x := 1.0 - (p + q) / 2.0;
    assert x * n == n - (p * n + q * n) / 2.0;
    QuotientIs(mag, x, n);
  }

  lemma QuotientIs(y: real, x: real, n: real)
    requires 0.0 < n && x * n == y
    ensures y / n == x
  {
  }

  function Labelled(gold: Verdict, judge: Verdict): LabeledVerdict -> bool {
    (l: LabeledVerdict) => l.gold == gold && l.judge == judge
  }

  /** The matrix counts, row by gold verdict and column by the judge's, in the order Correct, Partial,
      Incorrect. */
  lemma CellsCount(labels: seq<LabeledVerdict>, g: nat, j: nat)
    requires g < 3 && j < 3
    ensures Confusion(labels)[g][j] ==
            Tally(Labelled([Correct, Partial, Incorrect][g], [Correct, Partial, Incorrect][j]), labels)
  {
    TallySame(InCell(g, j), Labelled([Correct, Partial, Incorrect][g], [Correct, Partial, Incorrect][j]), labels);
  }

  /** The points the judge gave beyond the gold labels. */
  function PointsBeyond(m: Matrix): real {
    (Col(m, 0) as real + Col(m, 1) as real * 0.5) - (Row(m, 0) as real + Row(m, 1) as real * 0.5)
  }

  lemma StepsArePoints(m: Matrix)
    ensures Steps(m) as real / 2.0 == PointsBeyond(m)
  {
  }

  /** The rates of a report in the counts of its matrix: over the graded pairs, those on the diagonal, those
      not in the two far corners, and what the judge gave beyond the gold labels. */
  lemma RatesInMatrix(labels: seq<LabeledVerdict>)
    requires ReportOf(labels).Some?
    ensures var r := ReportOf(labels).value;
            var m, n := r.confusion, r.n as real;
            && m == Confusion(labels) && r.n == Size(m)
            && r.exactAgreement == (m[0][0] + m[1][1] + m[2][2]) as real / n
            && r.adjacentAgreement == (r.n - m[0][2] - m[2][0]) as real / n
            && r.scoreBias == PointsBeyond(m) / n
  {
    ReportIsFromMatrix(labels);
    StepsArePoints(Confusion(labels));
  }

  // ---- swapping gold and judge ----

  function Swap(l: LabeledVerdict): LabeledVerdict { LabeledVerdict(l.judge, l.gold) }

  function Swapped(labels: seq<LabeledVerdict>): seq<LabeledVerdict> {
    seq(|labels|, i requires 0 <= i < |labels| => Swap(labels[i]))
  }

  function Transposed(m: Matrix): Matrix {
    [[m[0][0], m[1][0], m[2][0]], [m[0][1], m[1][1], m[2][1]], [m[0][2], m[1][2], m[2][2]]]
  }

  lemma {:induction false} CountSwapped(labels: seq<LabeledVerdict>, g: nat, j: nat)
    ensures Count(Swapped(labels), g, j) == Count(labels, j, g)
  {
    if labels != [] {
      CountSwapped(labels[..|labels| - 1], g, j);
      assert Swapped(labels)[..|labels| - 1] == Swapped(labels[..|labels| - 1]);
    }
  }

  lemma TransposedReport(m: Matrix)
    requires 0 < Size(m)
    ensures Size(Transposed(m)) == Size(m)
    ensures FromMatrix(Transposed(m)) ==
            FromMatrix(m).(scoreBias := -FromMatrix(m).scoreBias, confusion := Transposed(m))
  {
    TransposeNegates(m);
    TransposeKeeps(m, Size(m));
    Negated(Steps(m) as real / 2.0, Size(m) as real);
  }

  /** Exchanging the roles of gold and judge keeps kappa, the agreement rates and the absolute error,
      negates the bias and transposes the matrix. */
  lemma SwapNegatesBias(labels: seq<LabeledVerdict>)
    requires ReportOf(labels).Some?
    ensures ReportOf(Swapped(labels)) ==
            var r := ReportOf(labels).value;
            Some(r.(scoreBias := -r.scoreBias, confusion := Transposed(r.confusion)))
  {
    var m, m' := Confusion(labels), Confusion(Swapped(labels));
    assert m' == Transposed(m) by {
      forall g: nat, j: nat ensures Count(Swapped(labels), g, j) == Count(labels, j, g) {
        CountSwapped(labels, g, j);
      }
    }
    ReportIsFromMatrix(labels);
    ReportIsFromMatrix(Swapped(labels));
    TransposedReport(m);
  }

  lemma TransposeNegates(m: Matrix)
    ensures var t := Transposed(m);
            && Size(t) == Size(m) && Diagonal(t) == Diagonal(m) && t[0][2] + t[2][0] == m[0][2] + m[2][0]
            && AbsSteps(t) == AbsSteps(m) && Steps(t) as real / 2.0 == -(Steps(m) as real / 2.0)
  {
  }

  lemma Negated(x: real, n: real)
    requires 0.0 < n
    ensures (-x) / n == -(x / n)
  {
  }

  lemma TransposeKeeps(m: Matrix, n: nat)
    requires 0 < n
    ensures Kappa(Transposed(m), n) == Kappa(m, n)
  {
    assert Rows(Transposed(m), n) == Cols(m, n) && Cols(Transposed(m), n) == Rows(m, n);
    ChanceCommutes(Rows(m, n), Cols(m, n));
  }

  lemma ChanceCommutes(rows: seq<real>, cols: seq<real>)
    requires |rows| == 3 && |cols| == 3
    ensures Chance(rows, cols) == Chance(cols, rows)
  {
  }

  // ---- what kappa can be ----

  lemma SquareNonNegative(g: real)
    ensures 0.0 <= g * g
  {
    if g < 0.0 {
      var h := -g;
      Positive(h, h);
      assert h * h == g * g;
    } else if 0.0 < g {
      Positive(g, g);
    }
  }

  lemma DifferenceOfSquares(x: real, y: real, s: real)
    requires s == x + y
    ensures 4.0 * (x * y) <= s * s
  {
    var g := x - y;
    SquareNonNegative(g);
    assert s * s == g * g + 4.0 * (x * y);
  }

  /** The share of pairs in one row, the share in the column of the same verdict, and the share in
      both; shares are multiples of `unit`. */
  ghost predicate Corner(x: real, y: real, e: real, unit: real) {
    && 0.0 <= e <= x <= 1.0 && e <= y <= 1.0 && x + y <= 1.0 + e
    && (x == 1.0 || x <= 1.0 - unit) && (y == 1.0 || y <= 1.0 - unit)
  }

  lemma CornerBound(x: real, y: real, e: real, unit: real)
    requires Corner(x, y, e, unit)
    ensures 4.0 * (x * y) <= x + y + 2.0 * e
  {
    CornerOf(x, y, x + y, e);
  }

  lemma CornerOf(x: real, y: real, s: real, e: real)
    requires s == x + y && 0.0 <= e && 0.0 <= s <= 1.0 + e && s <= 2.0
    ensures 4.0 * (x * y) <= s + 2.0 * e
  {
    DifferenceOfSquares(x, y, s);
    var q := s * e;
    TimesItself(s, e, q);
    AtMostTwice(s, e);
  }

  lemma AtMostTwice(s: real, e: real)
    requires s <= 2.0 && 0.0 <= e
    ensures s * e <= 2.0 * e
  {
    var g := 2.0 - s;
    MulMonotone(0.0, g, e);
    assert g * e == 2.0 * e - s * e;
  }

  lemma TimesItself(s: real, e: real, q: real)
    requires 0.0 <= s <= 1.0 + e && q == s * e
    ensures s * s <= s + q
  {
    var top := 1.0 + e;
    MulMonotone(s, top, s);
    assert top * s == s + q;
  }

  /** The shares of a whole matrix. */
  ghost predicate Shares(r: seq<real>, c: seq<real>, d: seq<real>, unit: real) {
    && |r| == 3 && |c| == 3 && |d| == 3 && 0.0 < unit
    && r[0] + r[1] + r[2] == 1.0 && c[0] + c[1] + c[2] == 1.0
    && Corner(r[0], c[0], d[0], unit) && Corner(r[1], c[1], d[1], unit) && Corner(r[2], c[2], d[2], unit)
  }

  /** Chance agreement is at most halfway between the observed agreement and one. */
  lemma ChanceIsAtMostHalfway(r: seq<real>, c: seq<real>, d: seq<real>, unit: real)
    requires Shares(r, c, d, unit)
    ensures 2.0 * Chance(r, c) <= 1.0 + (d[0] + d[1] + d[2])
  {
    CornerBound(r[0], c[0], d[0], unit);
    CornerBound(r[1], c[1], d[1], unit);
    CornerBound(r[2], c[2], d[2], unit);
  }

  lemma ShortProduct(x: real, y: real, unit: real, p: real)
    requires 0.0 <= x && y <= 1.0 - unit && p == x * unit
    ensures x * y <= x - p
  {
    var k := 1.0 - unit;
    MulMonotone(y, k, x);
    assert k * x == x - p;
  }

  lemma SpreadColumns(r: seq<real>, c: seq<real>, d: seq<real>, unit: real)
    requires Shares(r, c, d, unit) && c[0] < 1.0 && c[1] < 1.0 && c[2] < 1.0
    ensures Chance(r, c) <= 1.0 - unit
  {
    ShortSum(r[0], c[0], r[1], c[1], r[2], c[2], unit);
  }

  lemma ShortSum(x: real, y: real, x1: real, y1: real, x2: real, y2: real, unit: real)
    requires 0.0 <= x && 0.0 <= x1 && 0.0 <= x2 && x + x1 + x2 == 1.0
    requires y <= 1.0 - unit && y1 <= 1.0 - unit && y2 <= 1.0 - unit
    ensures x * y + x1 * y1 + x2 * y2 <= 1.0 - unit
  {
    var p, p1, p2 := x * unit, x1 * unit, x2 * unit;
    ShortProduct(x, y, unit, p);
    ShortProduct(x1, y1, unit, p1);
    ShortProduct(x2, y2, unit, p2);
    assert p + p1 + p2 == (x + x1 + x2) * unit;
  }

  lemma OneColumn(r: seq<real>, c: seq<real>, d: seq<real>, unit: real)
    requires Shares(r, c, d, unit) && (c[0] == 1.0 || c[1] == 1.0 || c[2] == 1.0)
    ensures Chance(r, c) <= 1.0 - unit || (Chance(r, c) == 1.0 && d[0] + d[1] + d[2] == 1.0)
  {
    if c[0] == 1.0 {
      OneTerm(r[0], c[0], r[1], c[1], r[2], c[2]);
    } else if c[1] == 1.0 {
      OneTerm(r[1], c[1], r[0], c[0], r[2], c[2]);
    } else {
      OneTerm(r[2], c[2], r[0], c[0], r[1], c[1]);
    }
  }

  lemma OneTerm(x: real, y: real, x1: real, y1: real, x2: real, y2: real)
    requires y == 1.0 && y1 == 0.0 && y2 == 0.0
    ensures x * y + x1 * y1 + x2 * y2 == x
  {
    TimesUnit(x, y);
    TimesUnit(x1, y1);
    TimesUnit(x2, y2);
  }

  lemma TimesUnit(x: real, y: real)
    ensures (y == 0.0 ==> x * y == 0.0) && (y == 1.0 ==> x * y == x)
  {
  }

  /** What the two rates of a matrix satisfy: both at most one, observed agreement not far below
      chance, and chance agreement a whole unit short of one unless agreement is complete. */
  ghost predicate Rates(po: real, pe: real, unit: real) {
    && 0.0 <= po <= 1.0 && pe <= 1.0 && 2.0 * pe <= 1.0 + po
    && ((pe == 1.0 && po == 1.0) || pe <= 1.0 - unit)
  }

  lemma RatesFrom(r: seq<real>, c: seq<real>, d: seq<real>, unit: real)
    requires Shares(r, c, d, unit)
    ensures Rates(d[0] + d[1] + d[2], Chance(r, c), unit)
  {
    ChanceIsAtMostHalfway(r, c, d, unit);
    if c[0] < 1.0 && c[1] < 1.0 && c[2] < 1.0 {
      SpreadColumns(r, c, d, unit);
    } else {
      OneColumn(r, c, d, unit);
    }
  }

  lemma QuotientInRange(x: real, w: real)
    requires 0.0 < w && -w <= x <= w
    ensures -1.0 <= x / w <= 1.0 && (x / w == 1.0 <==> x == w)
  {
    var k := x / w;
    assert k * w == x;
    Cancel(k, 1.0, w);
    var j := -1.0;
    assert j * w == -w;
    Cancel(j, k, w);
  }

  lemma KappaOfInRange(po: real, pe: real, unit: real)
    requires Rates(po, pe, unit)
    ensures -1.0 <= KappaOf(po, pe) <= 1.0
    ensures KappaOf(po, pe) == 1.0 <==> po == 1.0 || (1.0 - pe < EPSILON && 1.0 - po < EPSILON)
  {
    if EPSILON <= 1.0 - pe {
      QuotientInRange(po - pe, 1.0 - pe);
    }
  }

  // ---- main results on kappa ----

  function Corners(m: Matrix, n: nat): seq<real>
    requires 0 < n
  {
    [Share(m[0][0], n), Share(m[1][1], n), Share(m[2][2], n)]
  }

  /** Dividing three counts that sum to `total`. */
  lemma SharesSum(a: nat, b: nat, c: nat, total: nat, n: nat)
    requires 0 < n && a + b + c == total
    ensures Share(a, n) + Share(b, n) + Share(c, n) == Share(total, n)
    ensures Share(n, n) == 1.0
  {
  }

  lemma ShareMonotone(a: nat, b: nat, n: nat)
    requires 0 < n && a <= b
    ensures 0.0 <= Share(a, n) <= Share(b, n)
  {
    var x, y, w := Share(a, n), Share(b, n), n as real;
    assert x * w == a as real && y * w == b as real;
    Cancel(x, y, w);
    Cancel(0.0, x, w);
  }

  lemma ShareIsFullOrShort(a: nat, n: nat)
    requires 0 < n && a <= n
    ensures Share(a, n) <= 1.0 && (Share(a, n) == 1.0 || Share(a, n) <= 1.0 - Share(1, n))
  {
    SharesSum(a, 1, 0, a + 1, n);
    ShareMonotone(a, n, n);
    if a < n {
      ShareMonotone(a + 1, n, n);
    }
  }

  lemma SharesOverlap(r: nat, c: nat, d: nat, n: nat)
    requires 0 < n && r + c <= n + d
    ensures Share(r, n) + Share(c, n) <= 1.0 + Share(d, n)
  {
    SharesSum(r, c, 0, r + c, n);
    SharesSum(n, d, 0, n + d, n);
    ShareMonotone(r + c, n + d, n);
  }

  lemma CornerHolds(r: nat, c: nat, d: nat, n: nat)
    requires 0 < n && d <= r <= n && d <= c <= n && r + c <= n + d
    ensures Corner(Share(r, n), Share(c, n), Share(d, n), Share(1, n))
  {
    ShareMonotone(d, r, n);
    ShareMonotone(d, c, n);
    ShareIsFullOrShort(r, n);
    ShareIsFullOrShort(c, n);
    SharesOverlap(r, c, d, n);
  }

  lemma SharesHold(m: Matrix, n: nat)
    requires 0 < n == Size(m)
    ensures Shares(Rows(m, n), Cols(m, n), Corners(m, n), Share(1, n))
  {
    CornerHolds(Row(m, 0), Col(m, 0), m[0][0], n);
    CornerHolds(Row(m, 1), Col(m, 1), m[1][1], n);
    CornerHolds(Row(m, 2), Col(m, 2), m[2][2], n);
    SharesSum(Row(m, 0), Row(m, 1), Row(m, 2), n, n);
    SharesSum(Col(m, 0), Col(m, 1), Col(m, 2), n, n);
    ShareMonotone(0, 1, n);
  }

  lemma RatesHold(m: Matrix)
    requires 0 < Size(m)
    ensures Rates(Observed(m, Size(m)), ByChance(m, Size(m)), Share(1, Size(m)))
  {
    var n := Size(m);
    SharesHold(m, n);
    SharesSum(m[0][0], m[1][1], m[2][2], Diagonal(m), n);
    RatesFrom(Rows(m, n), Cols(m, n), Corners(m, n), Share(1, n));
  }

  /** Kappa is never outside `[-1, 1]`, for any matrix. */
  lemma KappaInRange(m: Matrix)
    requires 0 < Size(m)
    ensures -1.0 <= Kappa(m, Size(m)) <= 1.0
  {
    RatesHold(m);
    KappaOfInRange(Observed(m, Size(m)), ByChance(m, Size(m)), Share(1, Size(m)));
  }

  lemma ObservedIsOne(m: Matrix)
    requires 0 < Size(m)
    ensures Observed(m, Size(m)) == 1.0 <==> Diagonal(m) == Size(m)
  {
    QuotientInRange(Diagonal(m) as real, Size(m) as real);
  }

  /** Exactly which matrices get `1.0`: full agreement, and those where both rates fall within
      `EPSILON` of one. */
  lemma KappaIsOneExactly(m: Matrix)
    requires 0 < Size(m)
    ensures Kappa(m, Size(m)) == 1.0 <==>
            Diagonal(m) == Size(m) || (1.0 - ByChance(m, Size(m)) < EPSILON && 1.0 - Observed(m, Size(m)) < EPSILON)
  {
    RatesHold(m);
    ObservedIsOne(m);
    KappaOfInRange(Observed(m, Size(m)), ByChance(m, Size(m)), Share(1, Size(m)));
  }

  /** The arm that returns `0.0` because there is no expected disagreement and yet some was seen. */
  ghost predicate ZeroArm(m: Matrix)
    requires 0 < Size(m)
  {
    1.0 - ByChance(m, Size(m)) < EPSILON <= 1.0 - Observed(m, Size(m))
  }

  /** Up to `2^52` pairs the guard on `p_e` fires only when every pair sits in one cell of the
      diagonal, so the `0.0` arm is never taken and `1.0` means agreement throughout. */
  lemma GuardIsExact(m: Matrix)
    requires 0 < Size(m) <= TWO_52
    ensures 1.0 - ByChance(m, Size(m)) < EPSILON ==> Diagonal(m) == Size(m)
    ensures !ZeroArm(m)
    ensures Kappa(m, Size(m)) == 1.0 <==> Diagonal(m) == Size(m)
  {
    RatesHold(m);
    ObservedIsOne(m);
    KappaIsOneExactly(m);
    ShareAtLeast(Size(m));
  }

  lemma ShareAtLeast(n: nat)
    requires 0 < n <= TWO_52
    ensures EPSILON <= Share(1, n)
  {
  }

  /** All pairs agree but one, which the judge graded Partial and the gold Correct. */
  function AllButOne(n: nat): Matrix
    requires 0 < n
  {
    [[n - 1, 1, 0], [0, 0, 0], [0, 0, 0]]
  }

  lemma AllButOneRates(n: nat)
    requires TWO_52 < n
    ensures Kappa(AllButOne(n), n) == 1.0 && Diagonal(AllButOne(n)) == n - 1 && Size(AllButOne(n)) == n
  {
  }

  /** `1.0` means agreement throughout for every matrix of `n` pairs exactly when `n <= 2^52`. */
  lemma PerfectMeansAgreementUpTo(n: nat)
    requires 0 < n
    ensures (forall m: Matrix :: Size(m) == n && Kappa(m, n) == 1.0 ==> Diagonal(m) == n) <==> n <= TWO_52
  {
    if n <= TWO_52 {
      forall m: Matrix | Size(m) == n && Kappa(m, n) == 1.0 ensures Diagonal(m) == n {
        GuardIsExact(m);
      }
    } else {
      AllButOneRates(n);
    }
  }

  // ---- kappa in the counts ----

  /** What chance accounts for, `n * n` times over. */
  function ByChanceCount(m: Matrix): nat {
    Product(Row(m, 0), Col(m, 0)) + Product(Row(m, 1), Col(m, 1)) + Product(Row(m, 2), Col(m, 2))
  }

  function Product(a: nat, b: nat): nat { a * b }

  lemma ShareTimes(a: nat, n: nat, nn: nat)
    requires 0 < n && nn == n * n
    ensures Share(a, n) * nn as real == (n * a) as real
  {
    var x, w := Share(a, n), n as real;
    assert x * w == a as real;
    assert nn as real == w * w;
    assert x * (w * w) == (x * w) * w;
  }

  function ShareProduct(a: nat, b: nat, n: nat): real
    requires 0 < n
  {
    Share(a, n) * Share(b, n)
  }

  lemma ProductTimes(a: nat, b: nat, n: nat, w: real)
    requires 0 < n && w == n as real * n as real
    ensures ShareProduct(a, b, n) * w == a as real * b as real
  {
    var x, y, v := Share(a, n), Share(b, n), n as real;
    assert x * v == a as real && y * v == b as real;
    ProductOfProducts(x, y, v);
  }

  lemma ChanceIsProducts(m: Matrix, n: nat)
    requires 0 < n
    ensures ByChance(m, n) ==
            ShareProduct(Row(m, 0), Col(m, 0), n) + ShareProduct(Row(m, 1), Col(m, 1), n) +
              ShareProduct(Row(m, 2), Col(m, 2), n)
  {
  }

  lemma ProductAsReal(a: nat, b: nat)
    ensures a as real * b as real == Product(a, b) as real
  {
  }

  lemma ProductOfProducts(x: real, y: real, w: real)
    ensures (x * y) * (w * w) == (x * w) * (y * w)
  {
  }

  lemma ThreeTimes(p: real, q: real, r: real, w: real)
    ensures (p + q + r) * w == p * w + q * w + r * w
  {
  }

  /** The rates as counts over the square of the size. */
  ghost predicate InCounts(po: real, pe: real, square: nat, agree: nat, chance: nat) {
    Scaled(pe, square) == chance as real && Scaled(po, square) == agree as real
  }

  function Scaled(rate: real, square: nat): real { rate * square as real }

  lemma SumAsReal(a: nat, b: nat, c: nat)
    ensures a as real + b as real + c as real == (a + b + c) as real
  {
  }

  lemma ChanceInCounts(m: Matrix, n: nat, w: real)
    requires 0 < n && w == n as real * n as real
    ensures ByChance(m, n) * w == ByChanceCount(m) as real
  {
    ChanceIsProducts(m, n);
    ThreeTimes(ShareProduct(Row(m, 0), Col(m, 0), n), ShareProduct(Row(m, 1), Col(m, 1), n),
               ShareProduct(Row(m, 2), Col(m, 2), n), w);
    ProductTimes(Row(m, 0), Col(m, 0), n, w);
    ProductTimes(Row(m, 1), Col(m, 1), n, w);
    ProductTimes(Row(m, 2), Col(m, 2), n, w);
    ChanceAsReal(m);
  }

  lemma ChanceAsReal(m: Matrix)
    ensures Row(m, 0) as real * Col(m, 0) as real + Row(m, 1) as real * Col(m, 1) as real
            + Row(m, 2) as real * Col(m, 2) as real == ByChanceCount(m) as real
  {
    ProductAsReal(Row(m, 0), Col(m, 0));
    ProductAsReal(Row(m, 1), Col(m, 1));
    ProductAsReal(Row(m, 2), Col(m, 2));
    SumAsReal(Product(Row(m, 0), Col(m, 0)), Product(Row(m, 1), Col(m, 1)), Product(Row(m, 2), Col(m, 2)));
  }

  /** The rates, as counts over `square`. */
  lemma QuotientInCounts(po: real, pe: real, square: real, agree: real, chance: real, k: real)
    requires pe * square == chance && po * square == agree && pe != 1.0 && k == (po - pe) / (1.0 - pe)
    ensures k * (square - chance) == agree - chance
  {
    assert k * (1.0 - pe) == po - pe;
    assert square - chance == (1.0 - pe) * square;
    assert k * ((1.0 - pe) * square) == (k * (1.0 - pe)) * square;
  }

  lemma GapInCounts(rate: real, square: real, count: real)
    requires rate * square == count && 0.0 < square
    ensures 1.0 - rate < EPSILON <==> TWO_52 as real * (square - count) < square
  {
    var gap := 1.0 - rate;
    assert gap * square == square - count;
    if gap < EPSILON {
      var d := EPSILON - gap;
      Positive(d, square);
      assert d * square == EPSILON * square - gap * square;
    } else {
      MulMonotone(EPSILON, gap, square);
    }
  }

  /** One or zero when chance alone comes within `EPSILON` of agreement throughout; otherwise the
      agreement beyond chance over what is beyond chance. */
  ghost predicate KappaIs(k: real, square: nat, agree: nat, chance: nat) {
    if TWO_52 * (square - chance) < square then k == if TWO_52 * (square - agree) < square then 1.0 else 0.0
    else chance < square && k * (square - chance) as real == (agree - chance) as real
  }

  lemma KappaOfInCounts(po: real, pe: real, unit: real, square: nat, agree: nat, chance: nat)
    requires Rates(po, pe, unit) && InCounts(po, pe, square, agree, chance) && 0 < square
    ensures KappaIs(KappaOf(po, pe), square, agree, chance)
  {
    GapInCounts(pe, square as real, chance as real);
    GapInCounts(po, square as real, agree as real);
    if EPSILON <= 1.0 - pe {
      QuotientInCounts(po, pe, square as real, agree as real, chance as real, KappaOf(po, pe));
    }
  }

  lemma ChanceScaled(m: Matrix, n: nat, square: nat)
    requires 0 < n && square == n * n
    ensures Scaled(ByChance(m, n), square) == ByChanceCount(m) as real
  {
    ProductAsReal(n, n);
    ChanceInCounts(m, n, square as real);
  }

  lemma ObservedScaled(m: Matrix, n: nat, square: nat, agree: nat)
    requires 0 < n && square == n * n && agree == n * Diagonal(m)
    ensures Scaled(Observed(m, n), square) == agree as real
  {
    ShareTimes(Diagonal(m), n, square);
  }

  lemma CountsOfRates(m: Matrix, n: nat, square: nat, agree: nat, chance: nat)
    requires 0 < n == Size(m) && square == n * n && agree == n * Diagonal(m) && chance == ByChanceCount(m)
    ensures InCounts(Observed(m, n), ByChance(m, n), square, agree, chance) && 0 < square
  {
    ChanceScaled(m, n, square);
    ObservedScaled(m, n, square, agree);
    Positively(n);
  }

  /** What kappa is, in the counts. */
  lemma KappaInCounts(m: Matrix, n: nat, square: nat, agree: nat, chance: nat)
    requires 0 < n == Size(m) && square == n * n && agree == n * Diagonal(m) && chance == ByChanceCount(m)
    ensures KappaIs(Kappa(m, n), square, agree, chance)
  {
    RatesHold(m);
    CountsOfRates(m, n, square, agree, chance);
    KappaOfInCounts(Observed(m, n), ByChance(m, n), Share(1, n), square, agree, chance);
  }

  lemma Positively(n: nat)
    requires 0 < n
    ensures 0 < n * n
  {
  }

  lemma SignOfFactor(k: real, w: real, d: real)
    requires k * w == d && 0.0 < w
    ensures (k == 0.0 <==> d == 0.0) && (k < 0.0 <==> d < 0.0)
  {
    if 0.0 < k {
      Positive(k, w);
    } else if k < 0.0 {
      var l := -k;
      Positive(l, w);
      assert l * w == -d;
    }
  }

  lemma SignInCounts(k: real, square: nat, agree: nat, chance: nat)
    requires KappaIs(k, square, agree, chance) && square <= TWO_52 * (square - chance)
    ensures (k == 0.0 <==> agree == chance) && (k < 0.0 <==> agree < chance)
  {
    SignOfFactor(k, (square - chance) as real, (agree - chance) as real);
  }

  /** Outside that case kappa is zero exactly when agreement is what chance gives, and negative exactly
      when it is less. */
  lemma KappaSignExactly(m: Matrix, n: nat, square: nat, agree: nat, chance: nat)
    requires 0 < n == Size(m) && square == n * n && agree == n * Diagonal(m) && chance == ByChanceCount(m)
    requires square <= TWO_52 * (square - chance)
    ensures Kappa(m, n) == 0.0 <==> agree == chance
    ensures Kappa(m, n) < 0.0 <==> agree < chance
  {
    KappaInCounts(m, n, square, agree, chance);
    SignInCounts(Kappa(m, n), square, agree, chance);
  }

  /** A judge whose grades do not depend on the gold ones. */
  ghost predicate IsIndependent(m: Matrix) {
    forall i, j :: 0 <= i < 3 && 0 <= j < 3 ==> m[i][j] * Size(m) == Row(m, i) * Col(m, j)
  }

  lemma IndependentDiagonal(m: Matrix, n: nat)
    requires IsIndependent(m) && n == Size(m)
    ensures n * Diagonal(m) == ByChanceCount(m)
  {
    var a, b, c := m[0][0], m[1][1], m[2][2];
    assert a * n == Row(m, 0) * Col(m, 0);
    assert b * n == Row(m, 1) * Col(m, 1);
    assert c * n == Row(m, 2) * Col(m, 2);
    Distributes(a, b, c, n);
  }

  lemma Distributes(a: nat, b: nat, c: nat, n: nat)
    ensures n * (a + b + c) == a * n + b * n + c * n
  {
  }

  /** Such a judge scores zero, unless everything is all but in one cell. */
  lemma IndependentScoresZero(m: Matrix, n: nat, square: nat, chance: nat)
    requires 0 < n == Size(m) && square == n * n && chance == ByChanceCount(m) && IsIndependent(m)
    requires square <= TWO_52 * (square - chance)
    ensures Kappa(m, n) == 0.0
  {
    IndependentDiagonal(m, n);
    KappaSignExactly(m, n, square, chance, chance);
  }

  // ---- when the zero arm can be taken ----

  /** What chance agreement can be at most when no share is above `1 - u`. */
  function Cap(u: real): real { 1.0 - 2.0 * u + 2.0 * (u * u) }

  /** Two shares `a` and `b` short of one. */
  lemma TwoApart(a: real, b: real, u: real, ab: real)
    requires 0.0 < u <= a && u <= b <= 0.5 && ab == a * b
    ensures 1.0 - a - b + 2.0 * ab <= Cap(u)
  {
    var ub, uu := u * b, u * u;
    var p, q := 1.0 - 2.0 * b, 1.0 - 2.0 * u;
    MulMonotone(u, a, p);
    assert u * p == u - 2.0 * ub && a * p == a - 2.0 * ab;
    MulMonotone(u, b, q);
    assert u * q == u - 2.0 * uu && b * q == b - 2.0 * ub;
  }

  lemma Complements(x: real, y: real, a: real, b: real)
    requires a == 1.0 - x && b == 1.0 - y
    ensures x * y + a * b == 1.0 - a - b + 2.0 * (a * b)
  {
    var xy := x * y;
    assert a * b == 1.0 - x - y + xy;
  }

  lemma CapAtLeastHalf(u: real)
    ensures 0.5 <= Cap(u)
  {
    var g := 1.0 - 2.0 * u;
    SquareNonNegative(g);
    assert g * g == 1.0 - 4.0 * u + 4.0 * (u * u);
  }

  lemma Weighted(x: real, y: real, top: real)
    requires 0.0 <= x && y <= top
    ensures x * y <= x * top
  {
    MulMonotone(y, top, x);
  }

  lemma BothWeighted(x1: real, y1: real, x2: real, y2: real, rest: real, top: real)
    requires 0.0 <= x1 && 0.0 <= x2 && x1 + x2 == rest && y1 <= top && y2 <= top
    ensures x1 * y1 + x2 * y2 <= rest * top
  {
    Weighted(x1, y1, top);
    Weighted(x2, y2, top);
    assert x1 * top + x2 * top == (x1 + x2) * top;
  }

  lemma HalvesOf(x: real, rest: real, y: real)
    requires x + rest == 1.0
    ensures x * y + rest * y == y
  {
    assert (x + rest) * y == x * y + rest * y;
  }

  /** `y` is the largest column share. */
  lemma SpreadFrom(x: real, y: real, x1: real, y1: real, x2: real, y2: real, u: real)
    requires x <= 1.0 - u && 0.0 <= x1 && 0.0 <= x2 && x + x1 + x2 == 1.0
    requires 0.0 <= y1 <= y <= 1.0 - u && 0.0 <= y2 <= y && y + y1 + y2 == 1.0 && 0.0 < u
    ensures x * y + x1 * y1 + x2 * y2 <= Cap(u)
  {
    var rest := 1.0 - x;
    if 0.5 <= y {
      var b := 1.0 - y;
      BothWeighted(x1, y1, x2, y2, rest, b);
      Complements(x, y, rest, b);
      TwoApart(rest, b, u, rest * b);
    } else {
      BothWeighted(x1, y1, x2, y2, rest, y);
      HalvesOf(x, rest, y);
      CapAtLeastHalf(u);
    }
  }

  /** Shares of one side, none of them full. */
  ghost predicate Spread(x: real, x1: real, x2: real, u: real) {
    0.0 <= x <= 1.0 - u && 0.0 <= x1 <= 1.0 - u && 0.0 <= x2 <= 1.0 - u && x + x1 + x2 == 1.0
  }

  lemma SpreadOf(x: real, y: real, x1: real, y1: real, x2: real, y2: real, u: real, pe: real)
    requires Spread(x, x1, x2, u) && Spread(y, y1, y2, u) && 0.0 < u
    requires pe == x * y + x1 * y1 + x2 * y2
    ensures pe <= Cap(u)
  {
    if y1 <= y && y2 <= y {
      SpreadFrom(x, y, x1, y1, x2, y2, u);
    } else if y <= y1 && y2 <= y1 {
      SpreadFrom(x1, y1, x, y, x2, y2, u);
    } else {
      SpreadFrom(x2, y2, x, y, x1, y1, u);
    }
  }

  predicate NoneFull(r: seq<real>)
    requires |r| == 3
  {
    r[0] < 1.0 && r[1] < 1.0 && r[2] < 1.0
  }

  lemma SpreadBothWays(r: seq<real>, c: seq<real>, d: seq<real>, u: real)
    requires Shares(r, c, d, u) && NoneFull(r) && NoneFull(c)
    ensures Chance(r, c) <= Cap(u)
  {
    SpreadOf(r[0], c[0], r[1], c[1], r[2], c[2], u, Chance(r, c));
  }

  /** When one side gives every pair the same verdict, the two rates are equal. */
  lemma FullColumn(r: seq<real>, c: seq<real>, d: seq<real>, u: real)
    requires Shares(r, c, d, u) && !NoneFull(c)
    ensures Chance(r, c) == d[0] + d[1] + d[2]
  {
    if c[0] == 1.0 {
      OneTerm(r[0], c[0], r[1], c[1], r[2], c[2]);
    } else if c[1] == 1.0 {
      OneTerm(r[1], c[1], r[0], c[0], r[2], c[2]);
    } else {
      OneTerm(r[2], c[2], r[0], c[0], r[1], c[1]);
    }
  }

  lemma EqualOrApart(r: seq<real>, c: seq<real>, d: seq<real>, u: real)
    requires Shares(r, c, d, u)
    ensures Chance(r, c) == d[0] + d[1] + d[2] || Chance(r, c) <= Cap(u)
  {
    if !NoneFull(c) {
      FullColumn(r, c, d, u);
    } else if !NoneFull(r) {
      FullColumn(c, r, d, u);
      ChanceCommutes(r, c);
    } else {
      SpreadBothWays(r, c, d, u);
    }
  }

  lemma SquareWithin(n: nat)
    requires TWO_52 <= n <= 2 * TWO_52 - 2
    ensures n * n <= TWO_52 * (2 * n - 2)
  {
    var t := 2 * TWO_52 - 2 - n;
    var nt: nat := n * t;
    assert n * n == n * (2 * TWO_52 - 2) - nt;
  }

  /** `2 u (1 - u)` against `EPSILON`, for `u = 1 / n`. */
  lemma GapIsWide(n: real, u: real, square: real)
    requires 0.0 < n && u * n == 1.0 && square == n * n && square <= TWO_52 as real * (2.0 * n - 2.0)
    ensures Cap(u) <= 1.0 - EPSILON
  {
    var uu := u * u;
    var q := 2.0 * u - 2.0 * uu;
    Positive(n, n);
    UnitSquared(n, u);
    assert q * square == 2.0 * (u * square) - 2.0 * (uu * square);
    Cancel(EPSILON, q, square);
  }

  lemma UnitSquared(n: real, u: real)
    requires u * n == 1.0
    ensures u * (n * n) == n && (u * u) * (n * n) == 1.0
  {
    assert u * (n * n) == (u * n) * n;
    assert (u * u) * (n * n) == (u * n) * (u * n);
  }

  /** With up to `2^53 - 2` pairs the `0.0` arm is never taken. */
  lemma NoZeroArm(m: Matrix)
    requires 0 < Size(m) <= 2 * TWO_52 - 2
    ensures !ZeroArm(m)
  {
    var n := Size(m);
    if n <= TWO_52 {
      GuardIsExact(m);
    } else {
      CapOfShare(n);
      EqualOrCapped(m, n);
    }
  }

  lemma EqualOrCapped(m: Matrix, n: nat)
    requires 0 < n == Size(m)
    ensures ByChance(m, n) == Observed(m, n) || ByChance(m, n) <= Cap(Share(1, n))
  {
    SharesHold(m, n);
    SharesSum(m[0][0], m[1][1], m[2][2], Diagonal(m), n);
    EqualOrApart(Rows(m, n), Cols(m, n), Corners(m, n), Share(1, n));
  }

  lemma CapOfShare(n: nat)
    requires TWO_52 <= n <= 2 * TWO_52 - 2
    ensures Cap(Share(1, n)) <= 1.0 - EPSILON
  {
    SquareWithin(n);
    UnitShare(n);
    SquareAsReal(n);
    GapIsWide(n as real, Share(1, n), n as real * n as real);
  }

  lemma SquareAsReal(n: nat)
    ensures n as real * n as real == (n * n) as real
  {
  }

  lemma UnitShare(n: nat)
    requires 0 < n
    ensures Share(1, n) * n as real == 1.0
  {
  }

  /** All pairs agree but two that cancel out. */
  const CANCELLING: Matrix := [[2 * TWO_52 - 3, 1, 0], [1, 0, 0], [0, 0, 0]]

  lemma ZeroArmIsReachable()
    ensures Size(CANCELLING) == 2 * TWO_52 - 1 && ZeroArm(CANCELLING) && Kappa(CANCELLING, Size(CANCELLING)) == 0.0
  {
  }

  /** No matrix of at most `n` pairs takes the `0.0` arm exactly when `n <= 2^53 - 2`. */
  lemma ZeroArmUnreachableUpTo(n: nat)
    ensures (forall m: Matrix :: 0 < Size(m) <= n ==> !ZeroArm(m)) <==> n <= 2 * TWO_52 - 2
  {
    if n <= 2 * TWO_52 - 2 {
      forall m: Matrix | 0 < Size(m) <= n ensures !ZeroArm(m) {
        NoZeroArm(m);
      }
    } else {
      ZeroArmIsReachable();
    }
  }

  lemma {:induction false} FewerAgree(labels: seq<LabeledVerdict>)
    ensures Tally(Agrees, labels) <= Tally(IsGraded, labels)
    ensures Tally(Agrees, labels) == Tally(IsGraded, labels) <==>
            forall i :: 0 <= i < |labels| && IsGraded(labels[i]) ==> labels[i].gold == labels[i].judge
  {
    if labels != [] {
      FewerAgree(labels[..|labels| - 1]);
    }
  }

  /** Over any labels: kappa stays in `[-1, 1]`, and up to `2^52` graded pairs it is `1.0` exactly when
      the judge agrees with the gold label on every graded pair. */
  lemma KappaOverLabels(labels: seq<LabeledVerdict>)
    requires ReportOf(labels).Some?
    ensures var r := ReportOf(labels).value;
            && -1.0 <= r.cohensKappa <= 1.0
            && (r.n <= TWO_52 ==>
                  (r.cohensKappa == 1.0 <==>
                   forall i :: 0 <= i < |labels| && IsGraded(labels[i]) ==> labels[i].gold == labels[i].judge))
  {
    var m := Confusion(labels);
    MatrixDetermines(labels);
    KappaInRange(m);
    FewerAgree(labels);
    if Size(m) <= TWO_52 {
      GuardIsExact(m);
    }
  }
}
