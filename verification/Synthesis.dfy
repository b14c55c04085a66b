/** Answer synthesis from a recall outcome, and how it composes with retrieval and the judge. */
module Synthesis {
  import opened Text
  import opened Verdicts
  import opened Judge
  import Retrieval

  const DONT_KNOW := "I don't know."

  /** Memory `i` as it appears in the list. */
  function Line(i: nat, text: string): string { Decimal(i + 1) + ". " + text }

  /** The first `n` texts as a numbered list. */
  function NumberedBlock(texts: seq<string>, n: nat): string
    requires n <= |texts|
  {
    if n == 0 then ""
    else NumberedBlock(texts, n - 1) + (if n > 1 then "\n" else "") + Line(n - 1, texts[n - 1])
  }

  /** How many memories the cap lets in: at least one. */
  function Kept(texts: seq<string>, cap: nat): (n: nat)
    ensures n <= |texts| && n <= Retrieval.Min(|texts|, if cap < 1 then 1 else cap)
  {
    Retrieval.Min(|texts|, if cap < 1 then 1 else cap)
  }

  function Synthesized(texts: seq<string>, cap: nat): string {
    if texts == [] then DONT_KNOW else NumberedBlock(texts, Kept(texts, cap))
  }

  method SynthesizeAnswer(texts: seq<string>, cap: nat) returns (answer: string)
    ensures answer == Synthesized(texts, cap)
  {
    if texts == [] {
      return DONT_KNOW;
    }
    answer := "";
    for i := 0 to Kept(texts, cap)
      invariant answer == NumberedBlock(texts, i)
    {
      if i > 0 {
        answer := answer + "\n";
      }
      answer := answer + (Decimal(i + 1) + ". " + texts[i]);
    }
  }

  // ---- the list ----

  /** What the list adds from memory `m` on. */
  function Rest(texts: seq<string>, m: nat, n: nat): string
    requires m <= n <= |texts|
  {
    if m == n then "" else Rest(texts, m, n - 1) + (if n > 1 then "\n" else "") + Line(n - 1, texts[n - 1])
  }

  lemma ThreeMore(a: string, b: string, c: string, d: string)
    ensures a + b + c + d == a + (b + c + d)
  {
  }

  lemma {:induction false} BlockExtends(texts: seq<string>, m: nat, n: nat)
    requires m <= n <= |texts|
    ensures NumberedBlock(texts, n) == NumberedBlock(texts, m) + Rest(texts, m, n)
  {
    if m < n {
      BlockExtends(texts, m, n - 1);
      ThreeMore(NumberedBlock(texts, m), Rest(texts, m, n - 1), if n > 1 then "\n" else "", Line(n - 1, texts[n - 1]));
    }
  }

  /** Raising the cap only extends the answer. */
  lemma RaisingCapExtends(texts: seq<string>, cap: nat, cap': nat)
    requires cap <= cap'
    ensures Synthesized(texts, cap) <= Synthesized(texts, cap')
  {
    if texts != [] {
      BlockExtends(texts, Kept(texts, cap), Kept(texts, cap'));
    }
  }

  /** A kept memory stands in the answer as it was returned. */
  lemma MemoryStands(texts: seq<string>, cap: nat, i: nat)
    requires i < Kept(texts, cap)
    ensures Occurs(Synthesized(texts, cap), texts[i])
  {
    var n := Kept(texts, cap);
    BlockExtends(texts, i + 1, n);
    var before := NumberedBlock(texts, i) + (if i > 0 then "\n" else "") + (Decimal(i + 1) + ". ");
    assert NumberedBlock(texts, i + 1) == before + texts[i];
    assert OccursAt(texts[i], texts[i], 0);
    OccursInside(before, texts[i], Rest(texts, i + 1, n), texts[i]);
  }

  lemma SynthesizedIsNotBlank(texts: seq<string>, cap: nat)
    ensures Trim(Synthesized(texts, cap)) != ""
  {
    var answer := Synthesized(texts, cap);
    if texts != [] {
      BlockExtends(texts, 1, Kept(texts, cap));
      assert NumberedBlock(texts, 0) == "";
      assert NumberedBlock(texts, 1) == Line(0, texts[0]);
      assert answer[0] == '1';
    }
    assert !IsSpace(answer[0]);
    var i, j := TrimWindow(answer);
  }

  /** Raising the cap never worsens the verdict, whatever the question. */
  lemma RaisingCapNeverWorsens(qtype: QuestionType, groundTruth: string, texts: seq<string>, cap: nat, cap': nat)
    requires cap <= cap'
    ensures VerdictOn(qtype, groundTruth, Synthesized(texts, cap)).Score()
            <= VerdictOn(qtype, groundTruth, Synthesized(texts, cap')).Score()
  {
    RaisingCapExtends(texts, cap, cap');
    var answer, longer := Synthesized(texts, cap), Synthesized(texts, cap');
    var more := longer[|answer|..];
    assert longer == answer + more;
    if Declinable(qtype, groundTruth) {
      AppendingToDecline(qtype, groundTruth, answer, more);
      SynthesizedIsNotBlank(texts, cap);
    } else {
      AppendingNeverWorsens(qtype, groundTruth, answer, more);
    }
  }

  /** The lines, with a line feed between. */
  function Joined(lines: seq<string>): string {
    if lines == [] then ""
    else if |lines| == 1 then lines[0]
    else Joined(lines[..|lines| - 1]) + "\n" + lines[|lines| - 1]
  }

  lemma {:induction false} BlockIsJoined(texts: seq<string>, n: nat, lines: seq<string>)
    requires |lines| == n <= |texts| && forall i :: 0 <= i < n ==> lines[i] == Decimal(i + 1) + ". " + texts[i]
    ensures NumberedBlock(texts, n) == Joined(lines)
  {
    if n > 1 {
      BlockIsJoined(texts, n - 1, lines[..n - 1]);
      assert NumberedBlock(texts, n - 1) + "\n" + lines[n - 1] == Joined(lines);
    } else if n == 1 {
      assert NumberedBlock(texts, 0) == "";
      assert "" + "" + lines[0] == lines[0];
    }
  }

  /** The answer: a fixed sentence for no memory; otherwise the first memories, as many as the cap lets in
      and at least one, each on a line behind its number. */
  lemma AnswerExactly(texts: seq<string>, cap: nat, lines: seq<string>)
    requires |lines| == if |texts| <= cap then |texts| else if cap == 0 && texts != [] then 1 else cap
    requires forall i :: 0 <= i < |lines| ==> i < |texts| && lines[i] == Decimal(i + 1) + ". " + texts[i]
    ensures Synthesized(texts, cap) == if texts == [] then "I don't know." else Joined(lines)
  {
    if texts != [] {
      BlockIsJoined(texts, Kept(texts, cap), lines);
    }
  }

  // ---- recall, synthesis and judge together ----

  predicate IsAscii(s: string) { forall i :: 0 <= i < |s| ==> s[i] as int < 0x80 }

  /** `to_lowercase` lowers ASCII text as `to_ascii_lowercase` does. */
  ghost predicate LowersAscii(lower: Retrieval.Lowering) {
    forall s {:trigger lower(s)} :: IsAscii(s) ==> lower(s) == Lower(s)
  }

  /** The gold text is in one of the first `k` memories, as recall@k tests it. */
  ghost predicate RecallHit(lower: Retrieval.Lowering, groundTruth: string, texts: seq<string>, k: nat) {
    exists i :: 0 <= i < |texts| && i < k && Contains(lower(texts[i]), lower(groundTruth))
  }

  lemma TrimmedGoldOccurs(groundTruth: string)
    ensures Occurs(Lower(groundTruth), Lower(Trim(groundTruth)))
  {
    var i, j := TrimWindow(groundTruth);
    LowerSlice(groundTruth, i, j);
    assert OccursAt(Lower(groundTruth), Lower(Trim(groundTruth)), i);
  }

  lemma LowerOccurs(s: string, pat: string)
    requires Occurs(s, pat)
    ensures Occurs(Lower(s), Lower(pat))
  {
    var i :| OccursAt(s, pat, i);
    LowerSlice(s, i, i + |pat|);
    assert OccursAt(Lower(s), Lower(pat), i);
  }

  /** Over ASCII text, a recall@k hit whose memories all fit under the cap is judged Correct. */
  lemma RecallHitIsCorrect(lower: Retrieval.Lowering, qtype: QuestionType, groundTruth: string, texts: seq<string>,
                           k: nat, cap: nat)
    requires LowersAscii(lower) && IsAscii(groundTruth) && forall i :: 0 <= i < |texts| ==> IsAscii(texts[i])
    requires !Declinable(qtype, groundTruth) && k <= cap
    requires RecallHit(lower, groundTruth, texts, k)
    ensures VerdictOn(qtype, groundTruth, Synthesized(texts, cap)) == Correct
  {
    var i :| 0 <= i < |texts| && i < k && Contains(lower(texts[i]), lower(groundTruth));
    var answer := Synthesized(texts, cap);
    MemoryStands(texts, cap, i);
    LowerOccurs(answer, texts[i]);
    TrimmedGoldOccurs(groundTruth);
    OccursTransitive(Lower(texts[i]), Lower(groundTruth), Lower(Trim(groundTruth)));
    OccursTransitive(Lower(answer), Lower(texts[i]), Lower(Trim(groundTruth)));
    VerdictExactly(qtype, groundTruth, answer);
  }

  /** The same at the level of the retrieval report: a question counted as a hit at `k`. */
  lemma CountedHitIsCorrect(lower: Retrieval.Lowering, qtype: QuestionType, questionId: string, r: Retrieval.Reading,
                            k: nat, cap: nat)
    requires LowersAscii(lower) && IsAscii(r.groundTruth)
    requires forall i :: 0 <= i < |r.contents| ==> IsAscii(r.contents[i])
    requires !Declinable(qtype, r.groundTruth) && k <= cap
    requires Retrieval.Counted(lower, r) && Retrieval.RecallAt(k)(Retrieval.Relevance(lower, r)) == 1.0
    ensures JudgeAnswer(questionId, qtype, r.groundTruth, Synthesized(r.contents, cap)) ==
            JudgeResult(questionId, Correct, 1.0)
  {
    RecallHitIsCorrect(lower, qtype, r.groundTruth, r.contents, k, cap);
  }
}
