/** The aggregate scores of a run: accuracy over graded questions, the split by answer shape, and the
    split by question type. `f64` is modelled by `real`. */
module Scoring {
  import opened Wrappers
  import opened Text
  import opened Verdicts
  import opened Judge
  import opened Tallies
  import opened Reals

  datatype AnswerKind = Single | Many | NoAnswer | Error

  datatype Question = Question(qtype: QuestionType, verdict: Verdict, score: real, answer: string, kind: AnswerKind)

  // ---- counting ----

  type Test = Question -> bool

  /** The scores of the questions that pass a test, in order. */
  function ScoresOf(p: Test, qs: seq<Question>): (scores: seq<real>)
    ensures |scores| == Tally(p, qs)
  {
    if qs == [] then []
    else ScoresOf(p, qs[..|qs| - 1]) + if p(qs[|qs| - 1]) then [qs[|qs| - 1].score] else []
  }

  function SumOf(p: Test, qs: seq<Question>): real { Sum(ScoresOf(p, qs)) }

  predicate Passing(s: real) { s == 1.0 }

  predicate Halfway(s: real) { (if s - 0.5 < 0.0 then 0.5 - s else s - 0.5) < EPSILON }

  function Monus(a: nat, b: nat): nat { if a <= b then 0 else a - b }

  /** How a list of scores is summarised, overall and for each question type. */
  datatype Summary = Summary(accuracy: real, count: nat, correct: nat, partial: nat, incorrect: nat)

  function Summarize(scores: seq<real>): Summary {
    var correct, partial := Tally(Passing, scores), Tally(Halfway, scores);
    Summary(Average(Sum(scores), |scores|), |scores|, correct, partial, Monus(|scores|, correct + partial))
  }

  predicate Graded(q: Question) { q.verdict.IsGraded() }

  function OfType(t: QuestionType): Test { (q: Question) => q.qtype == t }

  // ---- the answer shapes ----

  predicate IsDecline(answer: string) { SaysDontKnow(Trim(answer)) }

  function OfKind(k: AnswerKind): Test { (q: Question) => q.kind == k }

  function GradedOfKind(k: AnswerKind): Test { (q: Question) => q.kind == k && Graded(q) }

  /** An assertion made to the user. */
  predicate Committed(q: Question) { (q.kind == Single || q.kind == Many) && !IsDecline(q.answer) }

  predicate CommittedGraded(q: Question) { Committed(q) && Graded(q) }

  predicate CommittedNotWrong(q: Question) { CommittedGraded(q) && q.verdict != Incorrect }

  datatype AnswerShape = AnswerShape(
    single: nat, many: nat, abstained: nat, errored: nat, committed: nat,
    singleAccuracy: real, manyAccuracy: real, abstainedAccuracy: real, committedPrecision: real)

  function ShapeOf(qs: seq<Question>): AnswerShape {
    AnswerShape(
      Tally(OfKind(Single), qs), Tally(OfKind(Many), qs), Tally(OfKind(NoAnswer), qs), Tally(OfKind(Error), qs),
        Tally(Committed, qs),
      AccuracyOfKind(Single, qs), AccuracyOfKind(Many, qs), AccuracyOfKind(NoAnswer, qs),
      Average(Tally(CommittedNotWrong, qs) as real, Tally(CommittedGraded, qs)))
  }

  function AccuracyOfKind(k: AnswerKind, qs: seq<Question>): real {
    Average(SumOf(GradedOfKind(k), qs), Tally(GradedOfKind(k), qs))
  }

  lemma TestNext(p: Test, qs: seq<Question>, i: nat)
    requires i < |qs|
    ensures Tally(p, qs[..i + 1]) == Tally(p, qs[..i]) + if p(qs[i]) then 1 else 0
    ensures ScoresOf(p, qs[..i + 1]) == ScoresOf(p, qs[..i]) + if p(qs[i]) then [qs[i].score] else []
    ensures SumOf(p, qs[..i + 1]) == SumOf(p, qs[..i]) + if p(qs[i]) then qs[i].score else 0.0
  {
    assert qs[..i + 1][..i] == qs[..i];
    var before := ScoresOf(p, qs[..i]);
    if p(qs[i]) {
      assert (before + [qs[i].score])[..|before|] == before;
    } else {
      assert before + [] == before;
    }
  }

  /** The loop's counters and sums for one kind of answer. */
  datatype KindSums = KindSums(count: nat, graded: nat, sum: real)

  function SumsOfKind(k: AnswerKind, qs: seq<Question>): KindSums {
    KindSums(Tally(OfKind(k), qs), Tally(GradedOfKind(k), qs), SumOf(GradedOfKind(k), qs))
  }

  function AddTo(s: KindSums, k: AnswerKind, q: Question): KindSums {
    if q.kind != k then s
    else if !Graded(q) then s.(count := s.count + 1)
    else KindSums(s.count + 1, s.graded + 1, s.sum + q.score)
  }

  lemma SumsOfKindNext(k: AnswerKind, qs: seq<Question>, i: nat)
    requires i < |qs|
    ensures SumsOfKind(k, qs[..i + 1]) == AddTo(SumsOfKind(k, qs[..i]), k, qs[i])
  {
    TestNext(OfKind(k), qs, i);
    TestNext(GradedOfKind(k), qs, i);
  }

  method ComputeAnswerShape(qs: seq<Question>) returns (m: AnswerShape)
    ensures m == ShapeOf(qs)
  {
    var single, many, abstained := KindSums(0, 0, 0.0), KindSums(0, 0, 0.0), KindSums(0, 0, 0.0);
    var errored, committed, committedGraded, committedNotWrong := 0, 0, 0, 0;
    for i := 0 to |qs|
      invariant single == SumsOfKind(Single, qs[..i]) && many == SumsOfKind(Many, qs[..i])
      invariant abstained == SumsOfKind(NoAnswer, qs[..i]) && errored == Tally(OfKind(Error), qs[..i])
      invariant committed == Tally(Committed, qs[..i])
      invariant committedGraded == Tally(CommittedGraded, qs[..i])
      invariant committedNotWrong == Tally(CommittedNotWrong, qs[..i])
    {
      ShapeNext(qs, i);
      var q := qs[i];
      match q.kind {
      case Single => single := AddTo(single, Single, q);
      case Many => many := AddTo(many, Many, q);
      case NoAnswer => abstained := AddTo(abstained, NoAnswer, q);
      case Error => errored := errored + 1;
      }
      if (q.kind == Single || q.kind == Many) && !IsDecline(q.answer) {
        committed := committed + 1;
        if Graded(q) {
          committedGraded := committedGraded + 1;
          if q.verdict != Incorrect {
            committedNotWrong := committedNotWrong + 1;
          }
        }
      }
    }
    assert qs[..|qs|] == qs;
    m := AnswerShape(
      single.count, many.count, abstained.count, errored, committed,
      Average(single.sum, single.graded), Average(many.sum, many.graded), Average(abstained.sum, abstained.graded),
      Average(committedNotWrong as real, committedGraded));
  }

  lemma ShapeNext(qs: seq<Question>, i: nat)
    requires i < |qs|
    ensures SumsOfKind(Single, qs[..i + 1]) == AddTo(SumsOfKind(Single, qs[..i]), Single, qs[i])
    ensures SumsOfKind(Many, qs[..i + 1]) == AddTo(SumsOfKind(Many, qs[..i]), Many, qs[i])
    ensures SumsOfKind(NoAnswer, qs[..i + 1]) == AddTo(SumsOfKind(NoAnswer, qs[..i]), NoAnswer, qs[i])
    ensures Tally(OfKind(Error), qs[..i + 1]) == Tally(OfKind(Error), qs[..i]) + if qs[i].kind == Error then 1 else 0
    ensures Tally(Committed, qs[..i + 1]) == Tally(Committed, qs[..i]) + if Committed(qs[i]) then 1 else 0
    ensures Tally(CommittedGraded, qs[..i + 1]) ==
            Tally(CommittedGraded, qs[..i]) + if CommittedGraded(qs[i]) then 1 else 0
    ensures Tally(CommittedNotWrong, qs[..i + 1]) ==
            Tally(CommittedNotWrong, qs[..i]) + if CommittedNotWrong(qs[i]) then 1 else 0
  {
    SumsOfKindNext(Single, qs, i);
    SumsOfKindNext(Many, qs, i);
    SumsOfKindNext(NoAnswer, qs, i);
    TestNext(OfKind(Error), qs, i);
    TestNext(Committed, qs, i);
    TestNext(CommittedGraded, qs, i);
    TestNext(CommittedNotWrong, qs, i);
  }

  /** What one more question does to the counts of the shapes: its own kind goes up by one, and the
      committed ones if it is an answer that does not decline. */
  lemma ShapeCounts(qs: seq<Question>, q: Question)
    ensures var s, t := ShapeOf(qs), ShapeOf(qs + [q]);
            && t.single == s.single + (if q.kind == Single then 1 else 0)
            && t.many == s.many + (if q.kind == Many then 1 else 0)
            && t.abstained == s.abstained + (if q.kind == NoAnswer then 1 else 0)
            && t.errored == s.errored + (if q.kind == Error then 1 else 0)
            && t.committed == s.committed
               + (if (q.kind == Single || q.kind == Many) && !SaysDontKnow(Trim(q.answer)) then 1 else 0)
    ensures var s := ShapeOf([]);
            s.single == s.many == s.abstained == s.errored == s.committed == 0
  {
    TallyPush(OfKind(Single), qs, q);
    TallyPush(OfKind(Many), qs, q);
    TallyPush(OfKind(NoAnswer), qs, q);
    TallyPush(OfKind(Error), qs, q);
    TallyPush(Committed, qs, q);
  }

  lemma {:induction false} KindsPartition(qs: seq<Question>)
    ensures Tally(OfKind(Single), qs) + Tally(OfKind(Many), qs) + Tally(OfKind(NoAnswer), qs) + Tally(OfKind(Error), qs)
            == |qs|
    ensures Tally(Committed, qs) <= Tally(OfKind(Single), qs) + Tally(OfKind(Many), qs)
  {
    if qs != [] {
      KindsPartition(qs[..|qs| - 1]);
    }
  }

  /** The shapes partition the questions. */
  lemma ShapesAddUp(qs: seq<Question>)
    ensures var s := ShapeOf(qs);
            s.single + s.many + s.abstained + s.errored == |qs| && s.committed <= s.single + s.many
  {
    KindsPartition(qs);
  }

  ghost predicate IsAverage(mean: real, n: nat, sum: real) { if n == 0 then mean == 0.0 else mean * n as real == sum }

  lemma AverageIs(sum: real, n: nat)
    ensures IsAverage(Average(sum, n), n, sum)
  {
  }

  /** The graded questions of a kind, and the committed ones that are graded. */
  predicate IsGradedSingle(q: Question) { q.kind == Single && q.verdict != NotJudged }

  predicate IsGradedMany(q: Question) { q.kind == Many && q.verdict != NotJudged }

  predicate IsGradedAbstained(q: Question) { q.kind == NoAnswer && q.verdict != NotJudged }

  predicate IsGradedCommitted(q: Question) {
    (q.kind == Single || q.kind == Many) && !SaysDontKnow(Trim(q.answer)) && q.verdict != NotJudged
  }

  predicate IsCommittedHit(q: Question) { IsGradedCommitted(q) && (q.verdict == Correct || q.verdict == Partial) }

  lemma {:induction false} SameTest(p: Test, q: Test, qs: seq<Question>)
    requires forall x :: p(x) == q(x)
    ensures Tally(p, qs) == Tally(q, qs) && ScoresOf(p, qs) == ScoresOf(q, qs)
  {
    if qs != [] {
      SameTest(p, q, qs[..|qs| - 1]);
      assert p(qs[|qs| - 1]) == q(qs[|qs| - 1]);
    }
  }

  /** Each accuracy is the average score of the graded questions of its own shape, and precision the share
      of graded committed answers that are not wrong. */
  lemma ShapeAccuracies(qs: seq<Question>)
    ensures var s := ShapeOf(qs);
            && IsAverage(s.singleAccuracy, Tally(IsGradedSingle, qs), SumOf(IsGradedSingle, qs))
            && IsAverage(s.manyAccuracy, Tally(IsGradedMany, qs), SumOf(IsGradedMany, qs))
            && IsAverage(s.abstainedAccuracy, Tally(IsGradedAbstained, qs), SumOf(IsGradedAbstained, qs))
            && IsAverage(s.committedPrecision, Tally(IsGradedCommitted, qs), Tally(IsCommittedHit, qs) as real)
  {
    SameTest(GradedOfKind(Single), IsGradedSingle, qs);
    SameTest(GradedOfKind(Many), IsGradedMany, qs);
    SameTest(GradedOfKind(NoAnswer), IsGradedAbstained, qs);
    SameTest(CommittedGraded, IsGradedCommitted, qs);
    SameTest(CommittedNotWrong, IsCommittedHit, qs);
    AverageIs(SumOf(IsGradedSingle, qs), Tally(IsGradedSingle, qs));
    AverageIs(SumOf(IsGradedMany, qs), Tally(IsGradedMany, qs));
    AverageIs(SumOf(IsGradedAbstained, qs), Tally(IsGradedAbstained, qs));
    AverageIs(Tally(IsCommittedHit, qs) as real, Tally(IsGradedCommitted, qs));
  }

  // ---- the question types ----

  const TYPES: seq<QuestionType> :=
    [SingleHop, MultiHop, Temporal, KnowledgeUpdate, Abstention, Preference, Adversarial, Other]

  lemma TagsAreDistinct(s: QuestionType, t: QuestionType)
    requires s.Tag() == t.Tag()
    ensures s == t
  {
  }

  /** The names of the dimensions, type by type. */
  lemma TagsExactly(i: nat)
    requires i < 8
    ensures TYPES[i].Tag() == ["single_hop", "multi_hop", "temporal", "knowledge_update", "abstention", "preference",
                               "adversarial", "other"][i]
  {
  }

  lemma TypesAreAll(t: QuestionType)
    ensures t in TYPES && IsTag(t.Tag())
  {
    match t
    case SingleHop => assert TYPES[0] == t;
    case MultiHop => assert TYPES[1] == t;
    case Temporal => assert TYPES[2] == t;
    case KnowledgeUpdate => assert TYPES[3] == t;
    case Abstention => assert TYPES[4] == t;
    case Preference => assert TYPES[5] == t;
    case Adversarial => assert TYPES[6] == t;
    case Other => assert TYPES[7] == t;
  }

  ghost predicate ByType(m: map<QuestionType, seq<real>>, qs: seq<Question>) {
    forall t: QuestionType ::
      (t in m <==> Tally(OfType(t), qs) > 0) && (t in m ==> m[t] == ScoresOf(OfType(t), qs))
  }

  /** The entry of one question type: present when the type occurs, and then the summary of all its
      scores. */
  ghost predicate DimensionHolds(dims: map<string, Summary>, qs: seq<Question>, t: QuestionType) {
    (t.Tag() in dims <==> Tally(OfType(t), qs) > 0) &&
      (t.Tag() in dims ==> dims[t.Tag()] == Summarize(ScoresOf(OfType(t), qs)))
  }

  ghost predicate IsTag(tag: string) { exists i :: 0 <= i < |TYPES| && TYPES[i].Tag() == tag }

  /** One entry per question type that occurs, under its tag, and no other. */
  ghost predicate IsDimensions(dims: map<string, Summary>, qs: seq<Question>) {
    && (forall t: QuestionType :: DimensionHolds(dims, qs, t))
    && (forall tag {:trigger IsTag(tag)} :: tag in dims ==> IsTag(tag))
  }

  method GroupByType(qs: seq<Question>) returns (byType: map<QuestionType, seq<real>>)
    ensures ByType(byType, qs)
  {
    byType := map[];
    for i := 0 to |qs|
      invariant ByType(byType, qs[..i])
    {
      var t, before := qs[i].qtype, byType;
      byType := byType[t := (if t in byType then byType[t] else []) + [qs[i].score]];
      ByTypeNext(before, byType, qs, i);
    }
    assert qs[..|qs|] == qs;
  }

  lemma ByTypeNext(before: map<QuestionType, seq<real>>, after: map<QuestionType, seq<real>>, qs: seq<Question>, i: nat)
    requires i < |qs| && ByType(before, qs[..i])
    requires var t := qs[i].qtype; after == before[t := (if t in before then before[t] else []) + [qs[i].score]]
    ensures ByType(after, qs[..i + 1])
  {
    forall t: QuestionType
      ensures t in after <==> Tally(OfType(t), qs[..i + 1]) > 0
      ensures t in after ==> after[t] == ScoresOf(OfType(t), qs[..i + 1])
    {
      TestNext(OfType(t), qs, i);
      if t !in before {
        assert ScoresOf(OfType(t), qs[..i]) == [];
      }
    }
  }

  /** `aggregate_dimensions`: every question counts, graded or not. The map is walked in any order; the
      tags are distinct, so no entry overwrites another. */
  method AggregateDimensions(qs: seq<Question>) returns (dims: map<string, Summary>)
    ensures IsDimensions(dims, qs)
  {
    var byType := GroupByType(qs);
    dims := map[];
    var left := byType.Keys;
    while left != {}
      invariant left <= byType.Keys
      invariant forall t: QuestionType :: Filed(dims, byType, left, t)
      invariant forall tag {:trigger IsTag(tag)} :: tag in dims ==> IsTag(tag)
      decreases |left|
    {
      var t :| t in left;
      ghost var dims0, left0 := dims, left;
      TypesAreAll(t);
      dims := dims[t.Tag() := Summarize(byType[t])];
      left := left - {t};
      forall s: QuestionType ensures Filed(dims, byType, left, s) {
        assert Filed(dims0, byType, left0, s);
        if s.Tag() == t.Tag() {
          TagsAreDistinct(s, t);
        }
      }
    }
    forall t: QuestionType ensures DimensionHolds(dims, qs, t) {
      assert Filed(dims, byType, {}, t);
    }
  }

  /** The types already moved into the map of dimensions. */
  ghost predicate Filed(dims: map<string, Summary>, byType: map<QuestionType, seq<real>>, left: set<QuestionType>,
                        t: QuestionType) {
    && (t.Tag() in dims <==> t in byType && t !in left)
    && (t.Tag() in dims ==> t in byType && dims[t.Tag()] == Summarize(byType[t]))
  }

  // ---- the whole report ----

  datatype EvalMetrics = EvalMetrics(overall: Summary, perDimension: map<string, Summary>, total: nat,
    answerShape: AnswerShape)

  /** `compute_full_metrics`: accuracy over the graded questions, the dimensions over all of them. */
  method ComputeFullMetrics(qs: seq<Question>) returns (m: EvalMetrics)
    ensures m.overall == Summarize(ScoresOf(Graded, qs)) && m.total == |qs|
    ensures IsDimensions(m.perDimension, qs) && m.answerShape == ShapeOf(qs)
  {
    var dims := AggregateDimensions(qs);
    var shape := ComputeAnswerShape(qs);
    m := EvalMetrics(Summarize(ScoresOf(Graded, qs)), dims, |qs|, shape);
  }

  // ---- conservation ----

  lemma {:induction false} PassingAndHalfwayApart(scores: seq<real>)
    ensures Tally(Passing, scores) + Tally(Halfway, scores) <= |scores|
  {
    if scores != [] {
      PassingAndHalfwayApart(scores[..|scores| - 1]);
    }
  }

  /** On any scores the three counts add up; nothing saturates. */
  lemma CountsAddUp(scores: seq<real>)
    ensures var s := Summarize(scores); s.correct + s.partial + s.incorrect == s.count == |scores|
  {
    PassingAndHalfwayApart(scores);
  }

  /** Every score is its verdict's. */
  ghost predicate Consistent(qs: seq<Question>) {
    forall i :: 0 <= i < |qs| ==> qs[i].score == qs[i].verdict.Score()
  }

  function Judged(v: Verdict): Test { (q: Question) => q.verdict == v }

  /** The graded scores, read as verdicts. */
  lemma {:induction false} GradedScoresRead(qs: seq<Question>)
    requires Consistent(qs)
    ensures var s := ScoresOf(Graded, qs);
            && Tally(Passing, s) == Tally(Judged(Correct), qs) && Tally(Halfway, s) == Tally(Judged(Partial), qs)
            && Tally(Graded, qs) ==
               Tally(Judged(Correct), qs) + Tally(Judged(Partial), qs) + Tally(Judged(Incorrect), qs)
            && Sum(s) == Tally(Judged(Correct), qs) as real + Tally(Judged(Partial), qs) as real / 2.0
  {
    if qs != [] {
      var i := |qs| - 1;
      GradedScoresRead(qs[..i]);
      assert qs[..i + 1] == qs;
      var before, x := ScoresOf(Graded, qs[..i]), qs[i].score;
      assert (before + [x])[..|before|] == before;
      assert before + [] == before;
    }
  }

  /** With consistent scores, the counts are those of the verdicts, every graded question is in exactly
      one of them, and the accuracy is correct plus half of partial over the graded. */
  lemma AccuracyIsConserved(qs: seq<Question>)
    requires Consistent(qs)
    ensures var s := Summarize(ScoresOf(Graded, qs));
            && s.correct == Tally(Judged(Correct), qs) && s.partial == Tally(Judged(Partial), qs)
            && s.incorrect == Tally(Judged(Incorrect), qs)
            && s.correct + s.partial + s.incorrect == Tally(Graded, qs)
            && s.accuracy == Average(s.correct as real + s.partial as real / 2.0, Tally(Graded, qs))
  {
    GradedScoresRead(qs);
  }

  // ---- ungraded questions ----

  function GradedOnly(qs: seq<Question>): seq<Question> {
    if qs == [] then []
    else GradedOnly(qs[..|qs| - 1]) + if Graded(qs[|qs| - 1]) then [qs[|qs| - 1]] else []
  }

  ghost predicate ForGraded(p: Test) { forall q :: p(q) ==> Graded(q) }

  /** A test that only graded questions pass sees only them. */
  lemma {:induction false} SeesGradedOnly(p: Test, qs: seq<Question>)
    requires ForGraded(p)
    ensures Tally(p, qs) == Tally(p, GradedOnly(qs)) && ScoresOf(p, qs) == ScoresOf(p, GradedOnly(qs))
  {
    if qs != [] {
      var init, q := qs[..|qs| - 1], qs[|qs| - 1];
      SeesGradedOnly(p, init);
      var g := GradedOnly(init);
      assert (g + [q])[..|g|] == g;
      assert g + [] == g;
      assert p(q) ==> Graded(q);
      assert ScoresOf(p, init) + [] == ScoresOf(p, init);
    }
  }

  /** Two runs with the same graded questions, in the same order and with any ungraded ones in between,
      report the same accuracy and counts, the same accuracy for every shape, and the same precision. */
  lemma UngradedDoNotCount(qs: seq<Question>, rs: seq<Question>)
    requires GradedOnly(qs) == GradedOnly(rs)
    ensures Summarize(ScoresOf(Graded, qs)) == Summarize(ScoresOf(Graded, rs))
    ensures ShapeOf(qs).singleAccuracy == ShapeOf(rs).singleAccuracy
    ensures ShapeOf(qs).manyAccuracy == ShapeOf(rs).manyAccuracy
    ensures ShapeOf(qs).abstainedAccuracy == ShapeOf(rs).abstainedAccuracy
    ensures ShapeOf(qs).committedPrecision == ShapeOf(rs).committedPrecision
  {
    SameForGraded(Graded, qs, rs);
    SameForGraded(GradedOfKind(Single), qs, rs);
    SameForGraded(GradedOfKind(Many), qs, rs);
    SameForGraded(GradedOfKind(NoAnswer), qs, rs);
    SameForGraded(CommittedGraded, qs, rs);
    SameForGraded(CommittedNotWrong, qs, rs);
  }

  lemma SameForGraded(p: Test, qs: seq<Question>, rs: seq<Question>)
    requires ForGraded(p) && GradedOnly(qs) == GradedOnly(rs)
    ensures Tally(p, qs) == Tally(p, rs) && ScoresOf(p, qs) == ScoresOf(p, rs)
  {
    SeesGradedOnly(p, qs);
    SeesGradedOnly(p, rs);
  }

  /** One ungraded question, inserted anywhere. */
  lemma InsertedUngraded(a: seq<Question>, q: Question, b: seq<Question>)
    requires !Graded(q)
    ensures GradedOnly(a + [q] + b) == GradedOnly(a + b)
  {
    GradedOnlyConcat(a + [q], b);
    GradedOnlyConcat(a, b);
    assert (a + [q])[..|a|] == a;
    assert GradedOnly(a) + [] == GradedOnly(a);
  }

  lemma GradedOnlyPush(a: seq<Question>, q: Question)
    ensures GradedOnly(a + [q]) == GradedOnly(a) + if Graded(q) then [q] else []
  {
    assert (a + [q])[..|a|] == a;
  }

  lemma {:induction false} GradedOnlyConcat(a: seq<Question>, b: seq<Question>)
    ensures GradedOnly(a + b) == GradedOnly(a) + GradedOnly(b)
  {
    if b == [] {
      assert a + b == a;
    } else {
      var init, q := b[..|b| - 1], b[|b| - 1];
      GradedOnlyConcat(a, init);
      GradedOnlyPush(a + init, q);
      GradedOnlyPush(init, q);
      assert b == init + [q];
      Associates(a, init, [q]);
      Associates(GradedOnly(a), GradedOnly(init), if Graded(q) then [q] else []);
    }
  }

  // ---- the dimensions against the whole ----

  /** The entries of a map of dimensions, by question type. */
  type Entries = QuestionType -> Option<Summary>

  function EntriesOf(dims: map<string, Summary>): Entries {
    (t: QuestionType) => if t.Tag() in dims then Some(dims[t.Tag()]) else None
  }

  function Mass(s: Option<Summary>): real { if s.Some? then s.value.count as real * s.value.accuracy else 0.0 }

  function Size(s: Option<Summary>): nat { if s.Some? then s.value.count else 0 }

  /** Over the given types: count times accuracy, summed. */
  function Weighted(entry: Entries, types: seq<QuestionType>): real {
    if types == [] then 0.0 else Weighted(entry, types[..|types| - 1]) + Mass(entry(types[|types| - 1]))
  }

  /** Over the given types: the counts, summed. */
  function Counted(entry: Entries, types: seq<QuestionType>): nat {
    if types == [] then 0 else Counted(entry, types[..|types| - 1]) + Size(entry(types[|types| - 1]))
  }

  ghost predicate Expected(entry: Entries, qs: seq<Question>) {
    forall t: QuestionType ::
      entry(t) == if Tally(OfType(t), qs) > 0 then Some(Summarize(ScoresOf(OfType(t), qs))) else None
  }

  lemma DimensionsAreExpected(dims: map<string, Summary>, qs: seq<Question>)
    requires IsDimensions(dims, qs)
    ensures Expected(EntriesOf(dims), qs)
  {
    forall t: QuestionType
      ensures EntriesOf(dims)(t) == if Tally(OfType(t), qs) > 0 then Some(Summarize(ScoresOf(OfType(t), qs))) else None
    {
      assert DimensionHolds(dims, qs, t);
    }
  }

  function InTypes(types: seq<QuestionType>): Test { (q: Question) => q.qtype in types }

  lemma {:induction false} SplitByType(p: Test, t: QuestionType, both: Test, qs: seq<Question>)
    requires forall q :: both(q) <==> p(q) || q.qtype == t
    requires forall q :: p(q) ==> q.qtype != t
    ensures Tally(both, qs) == Tally(p, qs) + Tally(OfType(t), qs)
    ensures SumOf(both, qs) == SumOf(p, qs) + SumOf(OfType(t), qs)
  {
    if qs != [] {
      var i := |qs| - 1;
      SplitByType(p, t, both, qs[..i]);
      TestNext(p, qs, i);
      TestNext(OfType(t), qs, i);
      TestNext(both, qs, i);
      assert qs[..i + 1] == qs;
    }
  }

  lemma CountTimesMean(sum: real, n: nat)
    requires 0 < n
    ensures n as real * Average(sum, n) == sum
  {
    var q := sum / n as real;
    assert q * n as real == sum;
  }

  lemma MassIsSum(scores: seq<real>)
    requires scores != []
    ensures Mass(Some(Summarize(scores))) == Sum(scores)
  {
    CountTimesMean(Sum(scores), |scores|);
  }

  /** What one question type contributes to the two sums. */
  lemma DimensionTerm(entry: Entries, qs: seq<Question>, t: QuestionType)
    requires Expected(entry, qs)
    ensures Size(entry(t)) == Tally(OfType(t), qs) && Mass(entry(t)) == SumOf(OfType(t), qs)
  {
    var scores := ScoresOf(OfType(t), qs);
    if scores != [] {
      MassIsSum(scores);
    }
  }

  lemma OneMoreType(init: seq<QuestionType>, t: QuestionType, qs: seq<Question>)
    requires t !in init
    ensures Tally(InTypes(init + [t]), qs) == Tally(InTypes(init), qs) + Tally(OfType(t), qs)
    ensures SumOf(InTypes(init + [t]), qs) == SumOf(InTypes(init), qs) + SumOf(OfType(t), qs)
  {
    SplitByType(InTypes(init), t, InTypes(init + [t]), qs);
  }

  lemma {:induction false} DimensionsSum(entry: Entries, qs: seq<Question>, types: seq<QuestionType>)
    requires Expected(entry, qs)
    requires forall i, j :: 0 <= i < j < |types| ==> types[i] != types[j]
    ensures Counted(entry, types) == Tally(InTypes(types), qs)
    ensures Weighted(entry, types) == SumOf(InTypes(types), qs)
  {
    if types == [] {
      NonePass(InTypes([]), qs);
    } else {
      var init, t := types[..|types| - 1], types[|types| - 1];
      DimensionsSum(entry, qs, init);
      OneMoreType(init, t, qs);
      assert init + [t] == types;
      DimensionTerm(entry, qs, t);
    }
  }

  lemma {:induction false} NonePass(p: Test, qs: seq<Question>)
    requires forall q :: !p(q)
    ensures Tally(p, qs) == 0 && SumOf(p, qs) == 0.0
  {
    if qs != [] {
      NonePass(p, qs[..|qs| - 1]);
      assert ScoresOf(p, qs[..|qs| - 1]) + [] == ScoresOf(p, qs[..|qs| - 1]);
    }
  }

  /** `g` is what passes `p` and is graded. */
  ghost predicate GradedPart(p: Test, g: Test) { forall q {:trigger g(q)} :: g(q) <==> p(q) && Graded(q) }

  /** Ungraded questions of a consistent run add nothing to a sum of scores. */
  lemma {:induction false} UngradedAddNothing(p: Test, g: Test, qs: seq<Question>)
    requires Consistent(qs) && GradedPart(p, g)
    ensures SumOf(p, qs) == SumOf(g, qs)
  {
    if qs != [] {
      var i := |qs| - 1;
      UngradedAddNothing(p, g, qs[..i]);
      TestNext(p, qs, i);
      TestNext(g, qs, i);
      assert qs[..i + 1] == qs;
      assert g(qs[i]) <==> p(qs[i]) && Graded(qs[i]);
    }
  }

  /** A list of question types without repetition, with every type that occurs. */
  ghost predicate Covers(types: seq<QuestionType>, qs: seq<Question>) {
    && (forall i, j :: 0 <= i < j < |types| ==> types[i] != types[j])
    && (forall i :: 0 <= i < |qs| ==> qs[i].qtype in types)
  }

  lemma TypesCover(types: seq<QuestionType>, qs: seq<Question>)
    requires types == TYPES
    ensures Covers(types, qs)
  {
    forall i | 0 <= i < |qs| ensures qs[i].qtype in types {
      TypesAreAll(qs[i].qtype);
    }
  }

  predicate Anything(q: Question) { true }

  lemma {:induction false} EveryTypePasses(types: seq<QuestionType>, qs: seq<Question>)
    requires forall i :: 0 <= i < |qs| ==> qs[i].qtype in types
    ensures SumOf(InTypes(types), qs) == SumOf(Anything, qs)
  {
    if qs != [] {
      var i := |qs| - 1;
      EveryTypePasses(types, qs[..i]);
      TestNext(InTypes(types), qs, i);
      TestNext(Anything, qs, i);
      assert qs[..i + 1] == qs;
    }
  }

  lemma EntriesAddUp(entry: Entries, qs: seq<Question>, types: seq<QuestionType>)
    requires Expected(entry, qs) && Consistent(qs) && Covers(types, qs)
    ensures Counted(entry, types) == |qs| && Weighted(entry, types) == SumOf(Graded, qs)
  {
    DimensionsSum(entry, qs, types);
    TallyAll(InTypes(types), qs);
    EveryTypePasses(types, qs);
    UngradedAddNothing(Anything, Graded, qs);
  }

  lemma OverallAccuracy(qs: seq<Question>)
    ensures Summarize(ScoresOf(Graded, qs)).accuracy == Average(SumOf(Graded, qs), Tally(Graded, qs))
  {
  }

  lemma AddUpOver(dims: map<string, Summary>, qs: seq<Question>, types: seq<QuestionType>)
    requires IsDimensions(dims, qs) && Consistent(qs) && types == TYPES
    ensures Counted(EntriesOf(dims), types) == |qs| && Weighted(EntriesOf(dims), types) == SumOf(Graded, qs)
  {
    TypesCover(types, qs);
    DimensionsAreExpected(dims, qs);
    EntriesAddUp(EntriesOf(dims), qs, types);
  }

  /** The dimensions count every question, and their accuracies, weighted by count, add up to the sum of
      the graded scores. */
  lemma DimensionsAddUp(dims: map<string, Summary>, qs: seq<Question>)
    requires IsDimensions(dims, qs) && Consistent(qs)
    ensures Counted(EntriesOf(dims), TYPES) == |qs| && Weighted(EntriesOf(dims), TYPES) == SumOf(Graded, qs)
  {
    AddUpOver(dims, qs, TYPES);
  }

  // ---- what ungraded questions do to a dimension ----

  function GradedOfType(t: QuestionType): Test { (q: Question) => q.qtype == t && Graded(q) }

  lemma {:induction false} PartCounts(p: Test, g: Test, qs: seq<Question>)
    requires GradedPart(p, g)
    ensures Tally(g, qs) <= Tally(p, qs)
    ensures Tally(g, qs) == Tally(p, qs) <==> forall i :: 0 <= i < |qs| && p(qs[i]) ==> Graded(qs[i])
  {
    if qs != [] {
      var i := |qs| - 1;
      PartCounts(p, g, qs[..i]);
      assert g(qs[i]) <==> p(qs[i]) && Graded(qs[i]);
    }
  }

  lemma {:induction false} SumsAreNonNegative(p: Test, qs: seq<Question>)
    requires Consistent(qs)
    ensures 0.0 <= SumOf(p, qs)
  {
    if qs != [] {
      var i := |qs| - 1;
      SumsAreNonNegative(p, qs[..i]);
      TestNext(p, qs, i);
      assert qs[..i + 1] == qs;
    }
  }

  lemma MeanOverMore(sum: real, m: nat, n: nat)
    requires 0.0 <= sum && m <= n && 0 < n && (m == 0 ==> sum == 0.0)
    ensures Average(sum, n) <= Average(sum, m)
    ensures Average(sum, n) == Average(sum, m) <==> m == n || sum == 0.0
  {
    if 0 < m {
      QuotientOverMore(sum, m as real, n as real);
    }
  }

  lemma QuotientOverMore(sum: real, m: real, n: real)
    requires 0.0 <= sum && 0.0 < m <= n
    ensures sum / n <= sum / m
    ensures sum / n == sum / m <==> m == n || sum == 0.0
  {
    var x, y, d := sum / n, sum / m, n - m;
    assert x * n == sum && y * m == sum;
    assert x * n == x * m + x * d;
    Cancel(0.0, x, n);
    TimesNonNegative(x, d);
    Cancel(x, y, m);
    if 0.0 < x && 0.0 < d {
      Positive(x, d);
    }
  }

  /** Accuracy is the weighted sum of the dimension accuracies over the number graded. It is their
      count-weighted mean exactly when every question is graded or the graded scores add up to nothing. */
  lemma AccuracyIsWeightedMean(dims: map<string, Summary>, qs: seq<Question>)
    requires IsDimensions(dims, qs) && Consistent(qs)
    ensures var accuracy, weighted := Summarize(ScoresOf(Graded, qs)).accuracy, Weighted(EntriesOf(dims), TYPES);
            && accuracy == Average(weighted, Tally(Graded, qs))
            && (accuracy == Average(weighted, Counted(EntriesOf(dims), TYPES)) <==>
                (forall i :: 0 <= i < |qs| ==> Graded(qs[i])) || SumOf(Graded, qs) == 0.0)
  {
    DimensionsAddUp(dims, qs);
    OverallAccuracy(qs);
    TallyAll(Anything, qs);
    PartCounts(Anything, Graded, qs);
    SumsAreNonNegative(Graded, qs);
    if qs != [] {
      NoneGraded(qs);
      MeanOverMore(SumOf(Graded, qs), Tally(Graded, qs), |qs|);
    }
  }

  lemma NoneGraded(qs: seq<Question>)
    ensures Tally(Graded, qs) == 0 ==> SumOf(Graded, qs) == 0.0
  {
    if Tally(Graded, qs) == 0 {
      assert ScoresOf(Graded, qs) == [];
    }
  }

  /** A dimension is never above the accuracy over its graded questions, and equals it exactly when
      every question of the type is graded or its graded scores add up to nothing. */
  lemma UngradedWeighOnDimensions(dims: map<string, Summary>, qs: seq<Question>, t: QuestionType)
    requires IsDimensions(dims, qs) && Consistent(qs) && t.Tag() in dims
    ensures var accuracy := Average(SumOf(GradedOfType(t), qs), Tally(GradedOfType(t), qs));
            && dims[t.Tag()].accuracy <= accuracy
            && (dims[t.Tag()].accuracy == accuracy <==>
                  (forall i :: 0 <= i < |qs| && qs[i].qtype == t ==> Graded(qs[i])) ||
                    SumOf(GradedOfType(t), qs) == 0.0)
  {
    var p, g := OfType(t), GradedOfType(t);
    assert DimensionHolds(dims, qs, t);
    UngradedAddNothing(p, g, qs);
    PartCounts(p, g, qs);
    SumsAreNonNegative(g, qs);
    if Tally(g, qs) == 0 {
      assert ScoresOf(g, qs) == [];
    }
    MeanOverMore(SumOf(g, qs), Tally(g, qs), Tally(p, qs));
  }

  lemma OfOne(p: Test, qs: seq<Question>)
    requires |qs| == 1
    ensures Tally(p, qs) == if p(qs[0]) then 1 else 0
    ensures SumOf(p, qs) == if p(qs[0]) then qs[0].score else 0.0
  {
    TestNext(p, qs, 0);
    assert qs[..1] == qs;
  }

  lemma OfTwo(p: Test, qs: seq<Question>)
    requires |qs| == 2
    ensures Tally(p, qs) == (if p(qs[0]) then 1 else 0) + if p(qs[1]) then 1 else 0
    ensures SumOf(p, qs) == (if p(qs[0]) then qs[0].score else 0.0) + if p(qs[1]) then qs[1].score else 0.0
  {
    OfOne(p, qs[..1]);
    TestNext(p, qs, 1);
    assert qs[..2] == qs;
  }

  /** One right answer beside one of the same type that was never judged: the dimension is lowered. */
  lemma OneUngraded(dims: map<string, Summary>, qs: seq<Question>, t: QuestionType)
    requires IsDimensions(dims, qs) && Consistent(qs) && |qs| == 2 && qs[0].qtype == qs[1].qtype == t
    requires qs[0].verdict == Correct && qs[1].verdict == NotJudged
    ensures t.Tag() in dims && dims[t.Tag()].accuracy < Average(SumOf(GradedOfType(t), qs), Tally(GradedOfType(t), qs))
  {
    OfTwo(OfType(t), qs);
    OfTwo(GradedOfType(t), qs);
    assert DimensionHolds(dims, qs, t);
    assert qs[1].qtype == t && !Graded(qs[1]);
    UngradedWeighOnDimensions(dims, qs, t);
  }
}
