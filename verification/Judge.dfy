/** The heuristic judge: a substring test, then token overlap, with a separate rule for questions that
    should be declined. */
module Judge {
  import opened Text
  import opened Verdicts

  datatype QuestionType =
    SingleHop | MultiHop | Temporal | KnowledgeUpdate | Abstention | Preference | Adversarial | Other
  {
    function Tag(): string {
      match this
      case SingleHop => "single_hop"
      case MultiHop => "multi_hop"
      case Temporal => "temporal"
      case KnowledgeUpdate => "knowledge_update"
      case Abstention => "abstention"
      case Preference => "preference"
      case Adversarial => "adversarial"
      case Other => "other"
    }
  }

  datatype JudgeResult = JudgeResult(questionId: string, verdict: Verdict, score: real)

  const DECLINES: seq<string> := ["don't know", "do not know", "not sure", "unknown", "not mentioned", "no information"]

  /** Some phrase of the list occurs. */
  predicate ContainsAny(s: string, phrases: seq<string>) {
    phrases != [] && (Contains(s, phrases[0]) || ContainsAny(s, phrases[1..]))
  }

  predicate SaysDontKnow(ans: string) { ans == "" || ContainsAny(Lower(ans), DECLINES) }

  predicate IsAlphanumeric(c: char) { '0' <= c <= '9' || 'A' <= c <= 'Z' || 'a' <= c <= 'z' }

  /** The first separator, or the length. */
  function WordLength(s: string): (k: nat)
    ensures k <= |s| && forall i :: 0 <= i < k ==> IsAlphanumeric(s[i])
  {
    if s == "" || !IsAlphanumeric(s[0]) then 0 else 1 + WordLength(s[1..])
  }

  /** `split` on everything that is not alphanumeric, keeping words of three characters or more. */
  function SignificantTokens(s: string): (tokens: seq<string>)
    decreases |s|
  {
    var k := WordLength(s);
    var rest := if k == |s| then [] else SignificantTokens(s[k + 1..]);
    if 3 <= k then [s[..k]] + rest else rest
  }

  function Matched(tokens: seq<string>, text: string): (n: nat)
    ensures n <= |tokens|
  {
    if tokens == [] then 0 else Matched(tokens[1..], text) + if Contains(text, tokens[0]) then 1 else 0
  }

  /** Whether the question is graded by the declining rule. */
  predicate Declinable(qtype: QuestionType, groundTruth: string) { qtype == Abstention || Trim(groundTruth) == "" }

  function VerdictOn(qtype: QuestionType, groundTruth: string, answer: string): Verdict {
    var gt, ans := Trim(groundTruth), Trim(answer);
    if Declinable(qtype, groundTruth) then (if SaysDontKnow(ans) then Correct else Incorrect)
    else if Contains(Lower(ans), Lower(gt)) then Correct
    else
      var tokens := SignificantTokens(Lower(gt));
      if tokens == [] then Incorrect
      else if Matched(tokens, Lower(ans)) as real / |tokens| as real >= 0.5 then Partial
      else Incorrect
  }

  function JudgeAnswer(questionId: string, qtype: QuestionType, groundTruth: string, answer: string): JudgeResult {
    var v := VerdictOn(qtype, groundTruth, answer);
    JudgeResult(questionId, v, v.Score())
  }

  // ---- what trimming does not change ----

  lemma {:induction false} TokensAreWords(s: string, t: string)
    requires t in SignificantTokens(s)
    ensures t != "" && IsTrimmed(t) && |t| >= 3
    decreases |s|
  {
    var k := WordLength(s);
    if k != |s| && t in SignificantTokens(s[k + 1..]) {
      TokensAreWords(s[k + 1..], t);
    }
  }

  /** What is counted of the trimmed answer is what is in the answer. */
  lemma {:induction false} MatchedIgnoresTrim(tokens: seq<string>, answer: string)
    requires forall i :: 0 <= i < |tokens| ==> tokens[i] != "" && IsTrimmed(tokens[i])
    ensures Matched(tokens, Lower(Trim(answer))) == Matched(tokens, Lower(answer))
  {
    if tokens != [] {
      OccursInTrim(answer, tokens[0]);
      MatchedIgnoresTrim(tokens[1..], answer);
    }
  }

  lemma {:induction false} PhrasesIgnoreTrim(answer: string, phrases: seq<string>)
    requires forall i :: 0 <= i < |phrases| ==> phrases[i] != "" && IsTrimmed(phrases[i])
    ensures ContainsAny(Lower(Trim(answer)), phrases) <==> ContainsAny(Lower(answer), phrases)
  {
    if phrases != [] {
      OccursInTrim(answer, phrases[0]);
      PhrasesIgnoreTrim(answer, phrases[1..]);
    }
  }

  lemma DeclinesAreTrimmed(i: nat)
    requires i < |DECLINES|
    ensures DECLINES[i] != "" && IsTrimmed(DECLINES[i])
  {
  }

  lemma GoldIsTrimmed(groundTruth: string)
    requires Trim(groundTruth) != ""
    ensures Lower(Trim(groundTruth)) != "" && IsTrimmed(Lower(Trim(groundTruth)))
  {
    TrimIsTrimmed(groundTruth);
    LowerTrimmed(Trim(groundTruth));
  }

  /** The verdict read off the answer itself: for a question to be declined, whether the answer is
      blank or declines; for any other, whether it holds the gold text, or at least half of the gold
      tokens, of which there is at least one. */
  lemma VerdictExactly(qtype: QuestionType, groundTruth: string, answer: string)
    ensures VerdictOn(qtype, groundTruth, answer) ==
            var gold, tokens := Lower(Trim(groundTruth)), SignificantTokens(Lower(Trim(groundTruth)));
            if qtype == Abstention || Trim(groundTruth) == "" then
              (if Trim(answer) == "" || Declines(Lower(answer)) then Correct else Incorrect)
            else if Occurs(Lower(answer), gold) then Correct
            else if tokens != [] && |tokens| <= 2 * Matched(tokens, Lower(answer)) then Partial
            else Incorrect
  {
    if Declinable(qtype, groundTruth) {
      forall i | 0 <= i < |DECLINES| ensures DECLINES[i] != "" && IsTrimmed(DECLINES[i]) {
        DeclinesAreTrimmed(i);
      }
      PhrasesIgnoreTrim(answer, DECLINES);
      DeclinesExactly(Lower(answer));
    } else {
      var gold := Lower(Trim(groundTruth));
      var tokens := SignificantTokens(gold);
      GoldIsTrimmed(groundTruth);
      OccursInTrim(answer, gold);
      forall i | 0 <= i < |tokens| ensures tokens[i] != "" && IsTrimmed(tokens[i]) {
        TokensAreWords(gold, tokens[i]);
      }
      MatchedIgnoresTrim(tokens, answer);
      if tokens != [] {
        HalfOrMore(Matched(tokens, Lower(answer)), |tokens|);
      }
    }
  }

  lemma HalfOrMore(m: nat, n: nat)
    requires 0 < n
    ensures m as real / n as real >= 0.5 <==> n <= 2 * m
  {
    var q := m as real / n as real;
    assert q * n as real == m as real;
  }

  // ---- the phrases and the tokens ----

  /** An answer declines when it is blank or one of six phrases occurs in it. */
  ghost predicate Declines(lowered: string) {
    || Occurs(lowered, "don't know") || Occurs(lowered, "do not know") || Occurs(lowered, "not sure")
    || Occurs(lowered, "unknown") || Occurs(lowered, "not mentioned") || Occurs(lowered, "no information")
  }

  lemma ContainsAnyPush(s: string, first: string, phrases: seq<string>)
    ensures ContainsAny(s, [first] + phrases) <==> Occurs(s, first) || ContainsAny(s, phrases)
    ensures !ContainsAny(s, [])
  {
    assert ([first] + phrases)[1..] == phrases;
  }

  lemma DeclinesExactly(s: string)
    ensures ContainsAny(s, DECLINES) <==> Declines(s)
  {
    var a: seq<string> := ["no information"];
    var b := ["not mentioned"] + a;
    var c := ["unknown"] + b;
    var d := ["not sure"] + c;
    var e := ["do not know"] + d;
    ContainsAnyPush(s, "no information", []);
    assert a == ["no information"] + [];
    ContainsAnyPush(s, "not mentioned", a);
    ContainsAnyPush(s, "unknown", b);
    ContainsAnyPush(s, "not sure", c);
    ContainsAnyPush(s, "do not know", d);
    ContainsAnyPush(s, "don't know", e);
    assert DECLINES == ["don't know"] + e;
  }

  predicate IsWordChar(c: char) { '0' <= c <= '9' || 'A' <= c <= 'Z' || 'a' <= c <= 'z' }

  /** `s[i..j]` is a whole word: nothing but letters and digits, and none on either side. */
  predicate IsWord(s: string, i: nat, j: nat) {
    && i < j <= |s| && (forall k :: i <= k < j ==> IsWordChar(s[k]))
    && (i == 0 || !IsWordChar(s[i - 1])) && (j == |s| || !IsWordChar(s[j]))
  }

  /** `tokens` are the words of at least three characters in `s` from `at` on, in order: the first of them
      stands at `i..j`, nothing before it, and the rest are those behind it. */
  ghost predicate AreLongWords(s: string, at: nat, tokens: seq<string>)
    decreases |tokens|
  {
    if tokens == [] then NoLongWord(s, at, |s|)
    else exists i: nat, j: nat :: StandsFirst(s, at, i, j) && tokens[0] == s[i..j] && AreLongWords(s, j, tokens[1..])
  }

  ghost predicate StandsFirst(s: string, at: nat, i: nat, j: nat) {
    at <= i && IsWord(s, i, j) && i + 3 <= j && NoLongWord(s, at, i)
  }

  ghost predicate NoLongWord(s: string, from: nat, to: nat) {
    forall i: nat, j: nat :: from <= i < to && IsWord(s, i, j) ==> j < i + 3
  }

  lemma WordHere(s: string, at: nat, k: nat)
    requires at <= |s| && k == WordLength(s[at..]) && (at == 0 || !IsWordChar(s[at - 1]))
    ensures at + k <= |s| && (at + k == |s| || !IsWordChar(s[at + k]))
    ensures forall i :: at <= i < at + k ==> IsWordChar(s[i])
    ensures forall i: nat, j: nat :: at <= i <= at + k && i < |s| && IsWord(s, i, j) ==> i == at && j == at + k
  {
    WordEnds(s[at..]);
    forall i | at <= i < at + k ensures IsWordChar(s[i]) {
      assert s[at..][i - at] == s[i];
    }
    assert at + k < |s| ==> s[at..][k] == s[at + k];
    forall i: nat, j: nat | at <= i <= at + k && i < |s| && IsWord(s, i, j) ensures i == at && j == at + k {
      assert IsWordChar(s[i]);
    }
  }

  lemma {:induction false} WordEnds(s: string)
    ensures WordLength(s) == |s| || !IsAlphanumeric(s[WordLength(s)])
  {
    if s != "" && IsAlphanumeric(s[0]) {
      WordEnds(s[1..]);
    }
  }

  lemma LaterWords(s: string, at: nat, to: nat, tokens: seq<string>)
    requires at <= to && NoLongWord(s, at, to) && AreLongWords(s, to, tokens)
    ensures AreLongWords(s, at, tokens)
  {
    if tokens != [] {
      var i: nat, j: nat :| StandsFirst(s, to, i, j) && tokens[0] == s[i..j] && AreLongWords(s, j, tokens[1..]);
      assert StandsFirst(s, at, i, j);
    }
  }

  lemma ShortWordSkipped(s: string, at: nat, end: nat, rest: seq<string>)
    requires at <= end <= |s| && end < at + 3 && AreLongWords(s, end, rest)
    requires forall i: nat, j: nat :: at <= i <= end && i < |s| && IsWord(s, i, j) ==> i == at && j == end
    ensures AreLongWords(s, at, rest)
  {
    LaterWords(s, at, end, rest);
  }

  lemma LongWordTaken(s: string, at: nat, end: nat, rest: seq<string>)
    requires at + 3 <= end && IsWord(s, at, end) && AreLongWords(s, end, rest)
    ensures AreLongWords(s, at, [s[at..end]] + rest)
  {
    var tokens := [s[at..end]] + rest;
    assert tokens[1..] == rest;
    assert StandsFirst(s, at, at, end);
  }

  lemma TokensUnfold(t: string, k: nat, rest: seq<string>)
    requires k == WordLength(t) && (k == |t| ==> rest == []) && (k < |t| ==> rest == SignificantTokens(t[k + 1..]))
    ensures 3 <= k ==> SignificantTokens(t) == [t[..k]] + rest
    ensures k < 3 ==> SignificantTokens(t) == rest
  {
  }

  lemma TokensHere(s: string, at: nat, end: nat, rest: seq<string>)
    requires at <= |s| && (at == 0 || !IsWordChar(s[at - 1])) && end == at + WordLength(s[at..])
    requires AreLongWords(s, end, rest)
    ensures AreLongWords(s, at, if at + 3 <= end then [s[at..end]] + rest else rest)
  {
    WordHere(s, at, end - at);
    if at + 3 <= end {
      LongWordTaken(s, at, end, rest);
    } else {
      ShortWordSkipped(s, at, end, rest);
    }
  }

  lemma NoWordAtGap(s: string, end: nat, rest: seq<string>)
    requires end < |s| && !IsWordChar(s[end]) && AreLongWords(s, end + 1, rest)
    ensures AreLongWords(s, end, rest)
  {
    LaterWords(s, end, end + 1, rest);
  }

  lemma {:induction false} TokensFrom(s: string, at: nat)
    requires at <= |s| && (at == 0 || !IsWordChar(s[at - 1]))
    ensures AreLongWords(s, at, SignificantTokens(s[at..]))
    decreases |s| - at
  {
    var t := s[at..];
    var k := WordLength(t);
    var end := at + k;
    var rest := if end == |s| then [] else SignificantTokens(s[end + 1..]);
    assert AreLongWords(s, end, rest) by {
      WordHere(s, at, k);
      if end < |s| {
        TokensFrom(s, end + 1);
        NoWordAtGap(s, end, rest);
      }
    }
    assert t[..k] == s[at..end] && (end < |s| ==> t[k + 1..] == s[end + 1..]);
    TokensUnfold(t, k, rest);
    TokensHere(s, at, end, rest);
  }

  /** The gold tokens are the words of at least three letters or digits, in order. */
  lemma TokensExactly(s: string)
    ensures AreLongWords(s, 0, SignificantTokens(s))
  {
    assert s[0..] == s;
    TokensFrom(s, 0);
  }

  lemma {:induction false} MatchedIsTally(tokens: seq<string>, text: string, found: seq<bool>)
    requires |found| == |tokens| && forall i :: 0 <= i < |tokens| ==> found[i] == Occurs(text, tokens[i])
    ensures Matched(tokens, text) == CountTrue(found)
  {
    if tokens != [] {
      MatchedIsTally(tokens[1..], text, found[1..]);
    }
  }

  function CountTrue(s: seq<bool>): nat { if s == [] then 0 else (if s[0] then 1 else 0) + CountTrue(s[1..]) }

  /** What an answer scores, with the verdict it is given for. */
  lemma JudgedExactly(questionId: string, qtype: QuestionType, groundTruth: string, answer: string)
    ensures var r := JudgeAnswer(questionId, qtype, groundTruth, answer);
            && r.questionId == questionId && r.verdict == VerdictOn(qtype, groundTruth, answer)
            && r.verdict != NotJudged
            && r.score == if r.verdict == Correct then 1.0 else if r.verdict == Partial then 0.5 else 0.0
  {
  }

  // ---- longer answers ----

  lemma ContainsMore(s: string, t: string, pat: string)
    requires Contains(s, pat)
    ensures Contains(s + t, pat)
  {
    OccursInside("", s, t, pat);
    assert "" + s + t == s + t;
  }

  lemma {:induction false} MatchedGrows(tokens: seq<string>, s: string, t: string)
    ensures Matched(tokens, s) <= Matched(tokens, s + t)
  {
    if tokens != [] {
      MatchedGrows(tokens[1..], s, t);
      if Contains(s, tokens[0]) {
        ContainsMore(s, t, tokens[0]);
      }
    }
  }

  lemma {:induction false} PhrasesStay(phrases: seq<string>, s: string, t: string)
    requires ContainsAny(s, phrases)
    ensures ContainsAny(s + t, phrases)
  {
    if Contains(s, phrases[0]) {
      ContainsMore(s, t, phrases[0]);
    } else {
      PhrasesStay(phrases[1..], s, t);
    }
  }

  /** Appending text to an answer never worsens the verdict, unless the question is to be declined. */
  lemma AppendingNeverWorsens(qtype: QuestionType, groundTruth: string, answer: string, more: string)
    requires !Declinable(qtype, groundTruth)
    ensures VerdictOn(qtype, groundTruth, answer).Score() <= VerdictOn(qtype, groundTruth, answer + more).Score()
  {
    VerdictExactly(qtype, groundTruth, answer);
    VerdictExactly(qtype, groundTruth, answer + more);
    LowerAppend(answer, more);
    var gold := Lower(Trim(groundTruth));
    if Contains(Lower(answer), gold) {
      ContainsMore(Lower(answer), Lower(more), gold);
    }
    MatchedGrows(SignificantTokens(gold), Lower(answer), Lower(more));
  }

  /** For a question to be declined, appending worsens the verdict exactly when the answer was blank
      and the appended text asserts something. */
  lemma AppendingToDecline(qtype: QuestionType, groundTruth: string, answer: string, more: string)
    requires Declinable(qtype, groundTruth)
    ensures VerdictOn(qtype, groundTruth, answer + more).Score() < VerdictOn(qtype, groundTruth, answer).Score()
            <==> Trim(answer) == "" && !SaysDontKnow(Trim(answer + more))
  {
    VerdictExactly(qtype, groundTruth, answer);
    VerdictExactly(qtype, groundTruth, answer + more);
    LowerAppend(answer, more);
    DeclinesExactly(Lower(answer));
    DeclinesExactly(Lower(answer + more));
    if ContainsAny(Lower(answer), DECLINES) {
      PhrasesStay(DECLINES, Lower(answer), Lower(more));
    }
  }
}
