/** What an instance's digest covers: its fields run together with two separators. Which instances
    the hashed bytes tell apart, and which edits a pin therefore catches. */
module PinFields {
  import opened Tallies
  import opened Pin
  import Utf8Cut

  // ---- delimited instances ----

  /** Each separator stays out of the fields it ends: 0x1f out of id, question and answer, 0x1e out of
      every role and content. */
  predicate IsDelimited(inst: Instance) {
    UNIT !in inst.questionId && UNIT !in inst.question && UNIT !in inst.answer && AreDelimited(inst.turns)
  }

  predicate AreDelimited(turns: seq<Turn>) {
    forall i :: 0 <= i < |turns| ==> RECORD !in turns[i].role && RECORD !in turns[i].content
  }

  lemma FieldsSplit(a: Bytes, b: Bytes, x: Bytes, y: Bytes, sep: bv8)
    requires sep !in a && sep !in x && a + [sep] + b == x + [sep] + y
    ensures a == x && b == y
  {
    var s, t := a + [sep] + b, x + [sep] + y;
    assert forall i :: 0 <= i < |a| ==> s[i] == a[i] != sep;
    assert forall i :: 0 <= i < |x| ==> t[i] == x[i] != sep;
    assert s[|a|] == sep && t[|x|] == sep;
    assert |a| == |x|;
    assert s[..|a|] == a && t[..|x|] == x && s[|a| + 1..] == b && t[|x| + 1..] == y;
  }

  lemma {:induction false} TurnBytesInjective(s: seq<Turn>, t: seq<Turn>)
    requires AreDelimited(s) && AreDelimited(t) && TurnBytes(s) == TurnBytes(t)
    ensures s == t
  {
    if s != [] && t != [] {
      var after, after' := s[0].content + [RECORD] + TurnBytes(s[1..]), t[0].content + [RECORD] + TurnBytes(t[1..]);
      FieldsSplit(s[0].role, after, t[0].role, after', RECORD);
      FieldsSplit(s[0].content, TurnBytes(s[1..]), t[0].content, TurnBytes(t[1..]), RECORD);
      TurnBytesInjective(s[1..], t[1..]);
      assert s == [s[0]] + s[1..] && t == [t[0]] + t[1..];
    }
  }

  lemma HeadsSplit(x: Instance, y: Instance)
    requires UNIT !in x.questionId && UNIT !in x.question && UNIT !in x.answer
    requires UNIT !in y.questionId && UNIT !in y.question && UNIT !in y.answer
    requires Canonical(x) == Canonical(y)
    ensures x.(turns := y.turns) == y && TurnBytes(x.turns) == TurnBytes(y.turns)
  {
    var a, b := x.answer + [UNIT] + TurnBytes(x.turns), y.answer + [UNIT] + TurnBytes(y.turns);
    FieldsSplit(x.questionId, x.question + [UNIT] + a, y.questionId, y.question + [UNIT] + b, UNIT);
    FieldsSplit(x.question, a, y.question, b, UNIT);
    FieldsSplit(x.answer, TurnBytes(x.turns), y.answer, TurnBytes(y.turns), UNIT);
  }

  /** Among delimited instances, the hashed bytes determine the instance. */
  lemma CanonicalInjective(x: Instance, y: Instance)
    requires IsDelimited(x) && IsDelimited(y) && Canonical(x) == Canonical(y)
    ensures x == y
  {
    HeadsSplit(x, y);
    TurnBytesInjective(x.turns, y.turns);
  }

  // ---- UTF-8 ----

  /** The bytes of a string. */
  predicate IsText(b: Bytes) { Utf8Cut.Valid(Ints(b)) }

  predicate IsTextTurn(t: Turn) { IsText(t.role) && IsText(t.content) }

  predicate AreText(turns: seq<Turn>) { forall i :: 0 <= i < |turns| ==> IsTextTurn(turns[i]) }

  /** Every field is a string, as it is in any instance that was loaded. */
  predicate IsTextual(inst: Instance) {
    IsText(inst.questionId) && IsText(inst.question) && IsText(inst.answer) && AreText(inst.turns)
  }

  /** A separator is a character by itself, so text may be cut at one and joined with one. */
  lemma TextAround(a: Bytes, sep: bv8, b: Bytes)
    requires sep == UNIT || sep == RECORD
    ensures IsText(a + [sep] + b) <==> IsText(a) && IsText(b)
  {
    assert Ints(a + [sep] + b) == Ints(a) + [sep as int] + Ints(b);
    Utf8Cut.ValidAround(Ints(a), sep as int, Ints(b));
  }

  lemma {:induction false} TurnBytesAreText(turns: seq<Turn>)
    requires AreText(turns)
    ensures IsText(TurnBytes(turns))
  {
    if turns != [] {
      var t, rest := turns[0], TurnBytes(turns[1..]);
      TurnBytesAreText(turns[1..]);
      assert IsTextTurn(t);
      TextAround(t.content, RECORD, rest);
      TextAround(t.role, RECORD, t.content + [RECORD] + rest);
      assert TurnBytes(turns) == t.role + [RECORD] + (t.content + [RECORD] + rest);
    }
  }

  // ---- what shares its hashed bytes with something else ----

  lemma SplitAtByte(b: Bytes, sep: bv8) returns (l: Bytes, r: Bytes)
    requires sep in b && (sep == UNIT || sep == RECORD)
    ensures b == l + [sep] + r
    ensures IsText(b) <==> IsText(l) && IsText(r)
  {
    var i :| 0 <= i < |b| && b[i] == sep;
    l, r := b[..i], b[i + 1..];
    assert b == l + [sep] + r;
    TextAround(l, sep, r);
  }

  /** Four fields ended by three separators, grouped from the left. */
  function Joined(a: Bytes, b: Bytes, c: Bytes, t: Bytes): Bytes { a + [UNIT] + (b + [UNIT] + (c + [UNIT] + t)) }

  /** A fourth separator can be taken for any of the three. */
  lemma Regroups(a: Bytes, b: Bytes, c: Bytes, d: Bytes, t: Bytes)
    ensures Joined(a + [UNIT] + b, c, d, t) == Joined(a, b + [UNIT] + c, d, t)
    ensures Joined(a, b + [UNIT] + c, d, t) == Joined(a, b, c + [UNIT] + d, t)
    ensures Joined(a, b, c + [UNIT] + d, t) == Joined(a, b, c, d + [UNIT] + t)
  {
    var whole := a + [UNIT] + b + [UNIT] + c + [UNIT] + d + [UNIT] + t;
    assert Joined(a + [UNIT] + b, c, d, t) == whole;
    assert Joined(a, b + [UNIT] + c, d, t) == whole;
    assert Joined(a, b, c + [UNIT] + d, t) == whole;
    assert Joined(a, b, c, d + [UNIT] + t) == whole;
  }

  lemma BlurredHead(x: Instance) returns (y: Instance)
    requires UNIT in x.questionId || UNIT in x.question || UNIT in x.answer
    ensures y != x && Canonical(y) == Canonical(x)
    ensures IsTextual(x) ==> IsTextual(y)
  {
    var t := TurnBytes(x.turns);
    if UNIT in x.questionId {
      var l, r := SplitAtByte(x.questionId, UNIT);
      Regroups(l, r, x.question, x.answer, t);
      TextAround(r, UNIT, x.question);
      y := x.(questionId := l, question := r + [UNIT] + x.question);
    } else if UNIT in x.question {
      var l, r := SplitAtByte(x.question, UNIT);
      Regroups(x.questionId, l, r, x.answer, t);
      TextAround(r, UNIT, x.answer);
      y := x.(question := l, answer := r + [UNIT] + x.answer);
    } else {
      var l, r := SplitAtByte(x.answer, UNIT);
      Regroups(x.questionId, x.question, l, r, t);
      TextAround(x.questionId, UNIT, x.question);
      y := x.(questionId := x.questionId + [UNIT] + x.question, question := l, answer := r);
    }
  }

  function OneTurn(t: Turn): Bytes { t.role + [RECORD] + t.content }

  lemma {:induction false} TurnReplaced(turns: seq<Turn>, k: nat, t: Turn)
    requires k < |turns| && OneTurn(t) == OneTurn(turns[k])
    ensures TurnBytes(turns[k := t]) == TurnBytes(turns)
  {
    var rest := TurnBytes(turns[1..]);
    if k == 0 {
      assert turns[0 := t][1..] == turns[1..];
      assert t.role + [RECORD] + (t.content + [RECORD] + rest) == OneTurn(t) + ([RECORD] + rest);
      assert turns[0].role + [RECORD] + (turns[0].content + [RECORD] + rest) == OneTurn(turns[0]) + ([RECORD] + rest);
    } else {
      TurnReplaced(turns[1..], k - 1, t);
      assert turns[k := t][1..] == turns[1..][k - 1 := t];
    }
  }

  /** Of two records in a turn, either can be taken for the one after the role. */
  lemma TurnRegroups(a: Bytes, b: Bytes, c: Bytes)
    ensures OneTurn(Turn(a, b + [RECORD] + c)) == OneTurn(Turn(a + [RECORD] + b, c))
  {
    assert a + [RECORD] + (b + [RECORD] + c) == a + [RECORD] + b + [RECORD] + c;
  }

  lemma BlurredOne(was: Turn) returns (now: Turn)
    requires RECORD in was.role || RECORD in was.content
    ensures now != was && OneTurn(now) == OneTurn(was) && (IsTextTurn(was) ==> IsTextTurn(now))
  {
    if RECORD in was.role {
      var l, r := SplitAtByte(was.role, RECORD);
      TextAround(r, RECORD, was.content);
      TurnRegroups(l, r, was.content);
      now := Turn(l, r + [RECORD] + was.content);
      assert |now.role| < |was.role|;
    } else {
      var l, r := SplitAtByte(was.content, RECORD);
      TextAround(was.role, RECORD, l);
      TurnRegroups(was.role, l, r);
      now := Turn(was.role + [RECORD] + l, r);
      assert |now.content| < |was.content|;
    }
  }

  lemma BlurredTurn(x: Instance, k: nat) returns (y: Instance)
    requires k < |x.turns| && (RECORD in x.turns[k].role || RECORD in x.turns[k].content)
    ensures y != x && Canonical(y) == Canonical(x)
    ensures IsTextual(x) ==> IsTextual(y)
  {
    var now := BlurredOne(x.turns[k]);
    TurnReplaced(x.turns, k, now);
    y := x.(turns := x.turns[k := now]);
    assert y.turns[k] == now;
  }

  /** Outside the delimited instances, every one shares its hashed bytes with another. */
  lemma SeparatorsBlur(x: Instance) returns (y: Instance)
    requires !IsDelimited(x)
    ensures y != x && Canonical(y) == Canonical(x)
    ensures IsTextual(x) ==> IsTextual(y)
  {
    if UNIT in x.questionId || UNIT in x.question || UNIT in x.answer {
      y := BlurredHead(x);
    } else {
      var k :| 0 <= k < |x.turns| && (RECORD in x.turns[k].role || RECORD in x.turns[k].content);
      y := BlurredTurn(x, k);
    }
  }

  /** Delimited, and with too few separators after the answer for the turns to be read otherwise. */
  predicate IsDetermined(inst: Instance) {
    IsDelimited(inst) && (inst.turns == [] || (|inst.turns| == 1 && UNIT !in inst.turns[0].role))
  }

  lemma {:induction false} TurnBytesEnd(turns: seq<Turn>)
    ensures turns == [] <==> TurnBytes(turns) == []
    ensures turns != [] ==> TurnBytes(turns)[|TurnBytes(turns)| - 1] == RECORD
  {
    if turns != [] {
      TurnBytesEnd(turns[1..]);
      var b, rest := TurnBytes(turns), TurnBytes(turns[1..]);
      if rest != [] {
        assert b[|b| - 1] == rest[|rest| - 1];
      }
    }
  }

  lemma OneTurnBytes(t: Turn)
    ensures TurnBytes([t]) == t.role + [RECORD] + t.content + [RECORD]
  {
    assert [t][1..] == [];
    assert t.role + [RECORD] + (t.content + [RECORD] + []) == t.role + [RECORD] + t.content + [RECORD];
  }

  /** Two turns or more can be taken for one. */
  lemma BlurredTurns(x: Instance) returns (y: Instance)
    requires 2 <= |x.turns|
    ensures y != x && Canonical(y) == Canonical(x)
    ensures IsTextual(x) ==> IsTextual(y)
  {
    var first, rest := x.turns[0], TurnBytes(x.turns[1..]);
    TurnBytesEnd(x.turns[1..]);
    var init := rest[..|rest| - 1];
    assert rest == init + [RECORD];
    var merged := Turn(first.role, first.content + [RECORD] + init);
    if IsTextual(x) {
      assert IsTextTurn(first);
      TurnBytesAreText(x.turns[1..]);
      TextAround(init, RECORD, []);
      assert rest == init + [RECORD] + [];
      TextAround(first.content, RECORD, init);
    }
    OneTurnBytes(merged);
    assert TurnBytes([merged]) == first.role + [RECORD] + (first.content + [RECORD] + rest);
    y := x.(turns := [merged]);
  }

  /** A unit separator in the role of the only turn can be taken for the end of the answer. */
  lemma BlurredRole(x: Instance) returns (y: Instance)
    requires |x.turns| == 1 && UNIT in x.turns[0].role
    ensures y != x && Canonical(y) == Canonical(x)
    ensures IsTextual(x) ==> IsTextual(y)
  {
    var t := x.turns[0];
    var l, r := SplitAtByte(t.role, UNIT);
    var moved := Turn(r, t.content);
    assert x.turns == [t];
    OneTurnBytes(t);
    OneTurnBytes(moved);
    assert TurnBytes([t]) == l + [UNIT] + TurnBytes([moved]);
    TextAround(x.questionId, UNIT, x.question);
    assert IsTextual(x) ==> IsTextTurn(t) && IsTextTurn(moved);
    y := Instance(x.questionId + [UNIT] + x.question, x.answer, l, [moved]);
    Regroups(x.questionId, x.question, x.answer, l, TurnBytes([moved]));
  }

  function Head(x: Instance): Bytes { x.questionId + [UNIT] + x.question + [UNIT] + x.answer + [UNIT] }

  function Is(sep: bv8): bv8 -> bool { (b: bv8) => b == sep }

  /** How often a separator occurs. */
  function Count(sep: bv8, b: Bytes): nat { Tally(Is(sep), b) }

  lemma CountConcat(sep: bv8, a: Bytes, b: Bytes)
    ensures Count(sep, a + b) == Count(sep, a) + Count(sep, b)
  {
    TallySplits(Is(sep), a, b);
  }

  lemma CountOne(sep: bv8, x: bv8)
    ensures Count(sep, [x]) == if x == sep then 1 else 0
  {
    var one := [x];
    assert one[..0] == [];
    assert Tally(Is(sep), one) == Tally(Is(sep), one[..0]) + if Is(sep)(x) then 1 else 0;
  }

  lemma {:induction false} CountIsZero(sep: bv8, b: Bytes)
    ensures Count(sep, b) == 0 <==> sep !in b
  {
    if b != [] {
      CountIsZero(sep, b[..|b| - 1]);
      assert b == b[..|b| - 1] + [b[|b| - 1]];
    }
  }

  /** A field and the separator that ends it. */
  lemma CountEnded(sep: bv8, field: Bytes, end: bv8)
    ensures Count(sep, field + [end]) == Count(sep, field) + if end == sep then 1 else 0
  {
    CountConcat(sep, field, [end]);
    CountOne(sep, end);
  }

  lemma CountHead(x: Instance)
    ensures Count(UNIT, Head(x)) == 3 + Count(UNIT, x.questionId) + Count(UNIT, x.question) + Count(UNIT, x.answer)
  {
    var a, b, c := x.questionId + [UNIT], x.question + [UNIT], x.answer + [UNIT];
    CountEnded(UNIT, x.questionId, UNIT);
    CountEnded(UNIT, x.question, UNIT);
    CountEnded(UNIT, x.answer, UNIT);
    CountConcat(UNIT, a, b);
    CountConcat(UNIT, a + b, c);
    assert Head(x) == a + b + c;
  }

  lemma CanonicalIsHeadAndTurns(x: Instance)
    ensures Canonical(x) == Head(x) + TurnBytes(x.turns)
  {
  }

  lemma LongerByCount(sep: bv8, b: Bytes, m: nat, n: nat)
    requires m <= |b| && n <= |b| && Count(sep, b[..m]) < Count(sep, b[..n])
    ensures m < n
  {
    if n <= m {
      CountGrows(sep, b, n, m);
    }
  }

  lemma CountGrows(sep: bv8, b: Bytes, n: nat, m: nat)
    requires n <= m <= |b|
    ensures Count(sep, b[..n]) <= Count(sep, b[..m])
  {
    CountConcat(sep, b[..n], b[n..m]);
    assert b[..m] == b[..n] + b[n..m];
  }

  lemma HeadsLonger(x: Instance, y: Instance)
    requires UNIT !in x.questionId && UNIT !in x.question && UNIT !in x.answer && Canonical(x) == Canonical(y)
    requires UNIT in y.questionId || UNIT in y.question || UNIT in y.answer
    ensures |Head(x)| < |Head(y)|
  {
    CanonicalIsHeadAndTurns(x);
    CanonicalIsHeadAndTurns(y);
    CountHead(x);
    CountHead(y);
    CountIsZero(UNIT, x.questionId);
    CountIsZero(UNIT, x.question);
    CountIsZero(UNIT, x.answer);
    CountIsZero(UNIT, y.questionId);
    CountIsZero(UNIT, y.question);
    CountIsZero(UNIT, y.answer);
    var b := Canonical(x);
    assert b[..|Head(x)|] == Head(x) && b[..|Head(y)|] == Head(y);
    LongerByCount(UNIT, b, |Head(x)|, |Head(y)|);
  }

  /** Read with a separator inside its head, the bytes leave less for the turns. */
  lemma LaterHead(x: Instance, y: Instance) returns (p: Bytes)
    requires UNIT !in x.questionId && UNIT !in x.question && UNIT !in x.answer && Canonical(x) == Canonical(y)
    requires UNIT in y.questionId || UNIT in y.question || UNIT in y.answer
    ensures TurnBytes(x.turns) == p + [UNIT] + TurnBytes(y.turns)
  {
    HeadsLonger(x, y);
    CanonicalIsHeadAndTurns(x);
    CanonicalIsHeadAndTurns(y);
    p := CutLater(Head(x), TurnBytes(x.turns), Head(y), TurnBytes(y.turns));
  }

  lemma CutLater(h: Bytes, t: Bytes, h': Bytes, t': Bytes) returns (p: Bytes)
    requires h + t == h' + t' && |h| < |h'| && h'[|h'| - 1] == UNIT
    ensures t == p + [UNIT] + t'
  {
    var b, m, n := h + t, |h|, |h'|;
    p := b[m..n - 1];
    assert b[..n] == h' && b[n - 1] == UNIT;
    assert b[m..] == t && b[n..] == t';
    assert b[m..] == b[m..n - 1] + [b[n - 1]] + b[n..];
  }

  /** The records a list of turns writes: two a turn, and those inside its fields. */
  lemma CountTurns(turns: seq<Turn>)
    requires turns != []
    ensures Count(RECORD, TurnBytes(turns))
            == 2 + Count(RECORD, turns[0].role) + Count(RECORD, turns[0].content) + Count(RECORD, TurnBytes(turns[1..]))
  {
    var a, b, rest := turns[0].role + [RECORD], turns[0].content + [RECORD], TurnBytes(turns[1..]);
    CountEnded(RECORD, turns[0].role, RECORD);
    CountEnded(RECORD, turns[0].content, RECORD);
    CountConcat(RECORD, b, rest);
    CountConcat(RECORD, a, b + rest);
  }

  /** Which instances their hashed bytes determine, among all instances: the delimited ones with no
      turn, or with one turn whose role is free of the unit separator. Among those made of UTF-8 text
      they are the same ones. */
  lemma DeterminedExactly(x: Instance)
    ensures (forall y :: Canonical(y) == Canonical(x) ==> y == x) <==> IsDetermined(x)
    ensures IsTextual(x) ==>
              ((forall y :: IsTextual(y) && Canonical(y) == Canonical(x) ==> y == x) <==> IsDetermined(x))
  {
    if IsDetermined(x) {
      forall y | Canonical(y) == Canonical(x) ensures y == x {
        DeterminedMeans(x, y);
      }
    } else if !IsDelimited(x) {
      var y := SeparatorsBlur(x);
    } else if 2 <= |x.turns| {
      var y := BlurredTurns(x);
    } else {
      var y := BlurredRole(x);
    }
  }

  lemma DeterminedMeans(x: Instance, y: Instance)
    requires IsDetermined(x) && Canonical(y) == Canonical(x)
    ensures y == x
  {
    if UNIT in y.questionId || UNIT in y.question || UNIT in y.answer {
      var p := LaterHead(x, y);
      NoLaterHead(x.turns, p, y.turns);
    } else {
      HeadsSplit(x, y);
      SameTurns(x.turns, y.turns);
    }
  }

  lemma SameTurns(s: seq<Turn>, t: seq<Turn>)
    requires AreDelimited(s) && |s| <= 1 && TurnBytes(s) == TurnBytes(t)
    ensures s == t
  {
    TurnBytesEnd(s);
    TurnBytesEnd(t);
    if s != [] {
      OnlyTwoRecords(s);
      TwoRecordsMean(t);
      TurnBytesInjective(s, t);
    }
  }

  lemma TwoRecordsMean(t: seq<Turn>)
    requires t != [] && Count(RECORD, TurnBytes(t)) == 2
    ensures AreDelimited(t)
  {
    CountTurns(t);
    CountIsZero(RECORD, t[0].role);
    CountIsZero(RECORD, t[0].content);
    TurnBytesEnd(t[1..]);
    CountIsZero(RECORD, TurnBytes(t[1..]));
    assert t[1..] == [];
  }

  lemma OnlyTwoRecords(s: seq<Turn>)
    requires AreDelimited(s) && |s| == 1
    ensures Count(RECORD, TurnBytes(s)) == 2
  {
    CountTurns(s);
    CountIsZero(RECORD, s[0].role);
    CountIsZero(RECORD, s[0].content);
    assert TurnBytes(s[1..]) == [];
  }

  lemma NoLaterHead(s: seq<Turn>, p: Bytes, t: seq<Turn>)
    requires AreDelimited(s) && (s == [] || (|s| == 1 && UNIT !in s[0].role))
    ensures TurnBytes(s) != p + [UNIT] + TurnBytes(t)
  {
    if s != [] && TurnBytes(s) == p + [UNIT] + TurnBytes(t) {
      RecordBefore(s, p, TurnBytes(t));
      LastIsNotUnit(s, p, t);
      CountTurns(t);
      OnlyTwoRecords(s);
      CountConcat(RECORD, p + [UNIT], TurnBytes(t));
      CountEnded(RECORD, p, UNIT);
      CountIsZero(RECORD, p);
    }
  }

  lemma LastIsNotUnit(s: seq<Turn>, p: Bytes, t: seq<Turn>)
    requires s != [] && TurnBytes(s) == p + [UNIT] + TurnBytes(t)
    ensures t != []
  {
    TurnBytesEnd(s);
    TurnBytesEnd(t);
    var b, rest := p + [UNIT] + TurnBytes(t), TurnBytes(t);
    assert b[|b| - 1] == if rest == [] then UNIT else rest[|rest| - 1];
  }

  lemma RecordBefore(s: seq<Turn>, p: Bytes, rest: Bytes)
    requires |s| == 1 && UNIT !in s[0].role && TurnBytes(s) == p + [UNIT] + rest
    ensures RECORD in p
  {
    var b, role := TurnBytes(s), s[0].role;
    OneTurnBytes(s[0]);
    assert s == [s[0]];
    assert b[|p|] == UNIT && b[|role|] == RECORD;
    assert forall i :: 0 <= i < |role| ==> b[i] == role[i] != UNIT;
    assert |role| < |p| && p[|role|] == RECORD;
  }

  /** An edit to any covered field of one instance is caught exactly when it changes the hashed bytes. */
  lemma EditIsCaughtExactly(hash: Hash, name: string, pinned: seq<Instance>, i: nat, y: Instance)
    requires i < |pinned| && Apart(hash, Canonical(pinned[i]), Canonical(y)) && FoldsApart(hash, pinned, pinned[i := y])
    ensures VerifyPin(hash, PinOf(hash, name, pinned), pinned[i := y]) != Match <==>
            Canonical(y) != Canonical(pinned[i])
  {
    if Canonical(y) != Canonical(pinned[i]) {
      ReplacedIsRejected(hash, name, pinned, i, y);
    } else {
      assert Digests(hash, pinned[i := y]) == Digests(hash, pinned);
    }
  }

  /** In particular an edit from one delimited instance to another always is. */
  lemma EditedIsRejected(hash: Hash, name: string, pinned: seq<Instance>, i: nat, y: Instance)
    requires i < |pinned| && pinned[i] != y && IsDelimited(pinned[i]) && IsDelimited(y)
    requires Apart(hash, Canonical(pinned[i]), Canonical(y)) && FoldsApart(hash, pinned, pinned[i := y])
    ensures VerifyPin(hash, PinOf(hash, name, pinned), pinned[i := y]).HashMismatch?
  {
    if Canonical(pinned[i]) == Canonical(y) {
      CanonicalInjective(pinned[i], y);
    }
    ReplacedIsRejected(hash, name, pinned, i, y);
  }
}
