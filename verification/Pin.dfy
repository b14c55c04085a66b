/** The corpus pin: per-instance digests folded by exclusive or, hashed once more with the count. The
    hash function is a parameter; where a result needs two particular inputs not to collide, it says
    so. */
module Pin {
  import opened Sorting
  import opened Tallies
  import SpaceManifest

  type Bytes = seq<bv8>

  type Digest = d: Bytes | |d| == 32
    witness [0, 0, 0, 0, 0, 0, 0, 0, 0, 0, 0, 0, 0, 0, 0, 0, 0, 0, 0, 0, 0, 0, 0, 0, 0, 0, 0, 0, 0, 0, 0, 0]

  type Hash = Bytes -> Digest

  const UNIT: bv8 := 0x1f
  const RECORD: bv8 := 0x1e

  /** The text of an instance that its digest covers, as bytes; turns of all sessions in order. */
  datatype Instance = Instance(questionId: Bytes, question: Bytes, answer: Bytes, turns: seq<Turn>)

  datatype Turn = Turn(role: Bytes, content: Bytes)

  function TurnBytes(turns: seq<Turn>): Bytes {
    if turns == [] then [] else turns[0].role + [RECORD] + (turns[0].content + [RECORD] + TurnBytes(turns[1..]))
  }

  function Canonical(inst: Instance): Bytes {
    inst.questionId + [UNIT] + (inst.question + [UNIT] + (inst.answer + [UNIT] + TurnBytes(inst.turns)))
  }

  function InstanceDigest(hash: Hash, inst: Instance): Digest { hash(Canonical(inst)) }

  // ---- the fold ----

  function XorByte(x: bv8, y: bv8): bv8 { x ^ y }

  function Xor(a: Digest, b: Digest): (d: Digest)
    ensures forall i :: 0 <= i < 32 ==> d[i] == XorByte(a[i], b[i])
  {
    seq(32, i requires 0 <= i < 32 => XorByte(a[i], b[i]))
  }

  const ZERO: Digest :=
    [0, 0, 0, 0, 0, 0, 0, 0, 0, 0, 0, 0, 0, 0, 0, 0, 0, 0, 0, 0, 0, 0, 0, 0, 0, 0, 0, 0, 0, 0, 0, 0]

  function Fold(ds: seq<Digest>): Digest {
    if ds == [] then ZERO else Xor(Fold(ds[..|ds| - 1]), ds[|ds| - 1])
  }

  function Digests(hash: Hash, instances: seq<Instance>): (ds: seq<Digest>)
    ensures |ds| == |instances|
  {
    seq(|instances|, i requires 0 <= i < |instances| => InstanceDigest(hash, instances[i]))
  }

  /** `u64::to_le_bytes`. */
  function LittleEndian(n: nat, width: nat): Bytes {
    if width == 0 then [] else [(n % 256) as bv8] + LittleEndian(n / 256, width - 1)
  }

  function OuterInput(fold: Digest, n: nat): Bytes { fold + LittleEndian(n, 8) }

  function Ints(bytes: Bytes): (b: seq<SpaceManifest.Byte>)
    ensures |b| == |bytes| && forall i :: 0 <= i < |b| ==> b[i] == bytes[i] as int
  {
    seq(|bytes|, i requires 0 <= i < |bytes| => bytes[i] as int)
  }

  /** Two lower-case hex digits per byte. */
  function HexText(bytes: Bytes): string { SpaceManifest.HexText(Ints(bytes)) }

  datatype DatasetPin = DatasetPin(name: string, instances: nat, contentSha256: string)

  function PinOf(hash: Hash, name: string, instances: seq<Instance>): DatasetPin {
    var fold := Fold(Digests(hash, instances));
    DatasetPin(name, |instances|, HexText(hash(OuterInput(fold, |instances|))))
  }

  method XorInto(fold: array<bv8>, d: Digest, ghost before: Digest)
    requires fold.Length == 32 && fold[..] == before
    modifies fold
    ensures fold[..] == Xor(before, d)
  {
    for i := 0 to 32
      invariant forall j :: 0 <= j < i ==> fold[j] == Xor(before, d)[j]
      invariant forall j :: i <= j < 32 ==> fold[j] == before[j]
    {
      fold[i] := XorByte(fold[i], d[i]);
    }
  }

  method PinInstances(hash: Hash, name: string, instances: seq<Instance>) returns (pin: DatasetPin)
    ensures pin == PinOf(hash, name, instances)
  {
    var fold := new bv8[32](_ => 0);
    ghost var ds := Digests(hash, instances);
    assert fold[..] == ZERO;
    for k := 0 to |instances|
      invariant fold[..] == Fold(ds[..k])
    {
      XorInto(fold, InstanceDigest(hash, instances[k]), Fold(ds[..k]));
      assert ds[..k + 1][..k] == ds[..k];
    }
    assert ds[..|instances|] == ds;
    var hex := WriteHex(hash(OuterInput(fold[..], |instances|)));
    pin := DatasetPin(name, |instances|, hex);
  }

  method WriteHex(digest: Digest) returns (hex: string)
    ensures hex == HexText(digest)
  {
    hex := "";
    for i := 0 to 32
      invariant hex == HexText(digest[..i])
    {
      SpaceManifest.HexTextAppend(Ints(digest[..i]), digest[i] as int);
      assert Ints(digest[..i + 1]) == Ints(digest[..i]) + [digest[i] as int];
      hex := hex + SpaceManifest.HexByte(digest[i] as int);
    }
    assert digest[..32] == digest;
  }

  datatype Verified = Match | CountMismatch(expected: nat, actual: nat) | HashMismatch(expectedHash: string,
    actualHash: string)

  function VerifyPin(hash: Hash, pin: DatasetPin, instances: seq<Instance>): Verified {
    if pin.instances != |instances| then CountMismatch(pin.instances, |instances|)
    else
      var actual := PinOf(hash, pin.name, instances);
      if actual.contentSha256 != pin.contentSha256 then HashMismatch(pin.contentSha256, actual.contentSha256) else Match
  }

  // ---- the layout of what is hashed ----

  /** An instance: id, question and answer, each ended by 0x1f, and then the turns. */
  lemma CanonicalLayout(x: Instance)
    ensures var b, i, q := Canonical(x), |x.questionId|, |x.question|;
            var a := i + q + 2 + |x.answer|;
            && a < |b| && b[..i] == x.questionId && b[i] == 0x1f
            && b[i + 1..i + 1 + q] == x.question && b[i + 1 + q] == 0x1f
            && b[i + q + 2..a] == x.answer && b[a] == 0x1f && b[a + 1..] == TurnBytes(x.turns)
  {
    var t := TurnBytes(x.turns);
    var c := x.answer + [UNIT] + t;
    var d := x.question + [UNIT] + c;
    assert Canonical(x) == x.questionId + [UNIT] + d;
    assert Canonical(x)[|x.questionId| + 1..] == d && d[|x.question| + 1..] == c;
    assert Canonical(x)[|x.questionId| + 1 + |x.question| + 1..] == c;
  }

  /** The turns: role and content, each ended by 0x1e, turn after turn. */
  lemma TurnsLayout(t: Turn, rest: seq<Turn>)
    ensures TurnBytes([]) == []
    ensures TurnBytes([t] + rest) == t.role + [0x1e] + t.content + [0x1e] + TurnBytes(rest)
  {
    assert ([t] + rest)[1..] == rest;
    assert t.role + [RECORD] + (t.content + [RECORD] + TurnBytes(rest))
        == t.role + [0x1e] + t.content + [0x1e] + TurnBytes(rest);
  }

  /** The value of digits to the base 256, the lowest first. */
  function Value(b: seq<nat>): nat { if b == [] then 0 else b[0] + 256 * Value(b[1..]) }

  ghost predicate AreDigits(digits: seq<nat>, bytes: Bytes) {
    |digits| == |bytes| && forall i :: 0 <= i < |digits| ==> digits[i] < 256 && bytes[i] == digits[i] as bv8
  }

  lemma {:induction false} LittleEndianValue(n: nat, width: nat) returns (digits: seq<nat>)
    ensures AreDigits(digits, LittleEndian(n, width)) && |digits| == width
    ensures n < Power256(width) ==> Value(digits) == n
  {
    digits := [];
    if width > 0 {
      var rest := LittleEndianValue(n / 256, width - 1);
      digits := [n % 256] + rest;
      assert digits[1..] == rest;
    }
  }

  function Power256(width: nat): nat { if width == 0 then 1 else 256 * Power256(width - 1) }

  /** What the outer hash sees: the 32 bytes of the fold and eight with the count, lowest first. */
  lemma OuterLayout(fold: Digest, n: nat) returns (digits: seq<nat>)
    requires n < 18_446_744_073_709_551_616
    ensures |OuterInput(fold, n)| == 40 && OuterInput(fold, n)[..32] == fold
    ensures AreDigits(digits, OuterInput(fold, n)[32..]) && Value(digits) == n
  {
    digits := LittleEndianValue(n, 8);
    EightBytes();
    assert OuterInput(fold, n)[32..] == LittleEndian(n, 8);
  }

  lemma EightBytes()
    ensures Power256(8) == 18_446_744_073_709_551_616
  {
    assert Power256(4) == 256 * Power256(3) == 256 * 256 * Power256(2) == 4_294_967_296;
  }

  // ---- exclusive or ----

  lemma XorByteLaws(x: bv8, y: bv8, z: bv8)
    ensures XorByte(XorByte(x, y), z) == XorByte(x, XorByte(y, z)) && XorByte(x, y) == XorByte(y, x)
    ensures XorByte(x, 0) == x && XorByte(x, x) == 0
    ensures XorByte(x, y) == XorByte(x, z) ==> y == z
  {
  }

  lemma XorAssociates(a: Digest, b: Digest, c: Digest)
    ensures Xor(Xor(a, b), c) == Xor(a, Xor(b, c))
  {
    forall i | 0 <= i < 32 ensures Xor(Xor(a, b), c)[i] == Xor(a, Xor(b, c))[i] {
      XorByteLaws(a[i], b[i], c[i]);
    }
  }

  lemma XorCommutes(a: Digest, b: Digest)
    ensures Xor(a, b) == Xor(b, a)
  {
    forall i | 0 <= i < 32 ensures Xor(a, b)[i] == Xor(b, a)[i] {
      XorByteLaws(a[i], b[i], 0);
    }
  }

  lemma XorZero(a: Digest)
    ensures Xor(a, ZERO) == a && Xor(a, a) == ZERO
  {
    forall i | 0 <= i < 32 ensures Xor(a, ZERO)[i] == a[i] && Xor(a, a)[i] == ZERO[i] {
      XorByteLaws(a[i], 0, 0);
    }
  }

  lemma XorCancels(a: Digest, b: Digest, c: Digest)
    requires Xor(a, b) == Xor(a, c)
    ensures b == c
  {
    forall i | 0 <= i < 32 ensures b[i] == c[i] {
      assert XorByte(a[i], b[i]) == XorByte(a[i], c[i]) by { assert Xor(a, b)[i] == Xor(a, c)[i]; }
      XorByteLaws(a[i], b[i], c[i]);
    }
  }

  // ---- laws of the fold ----

  /** The fold of a concatenation is the exclusive or of the folds. */
  lemma {:induction false} FoldConcat(s: seq<Digest>, t: seq<Digest>)
    ensures Fold(s + t) == Xor(Fold(s), Fold(t))
  {
    if t == [] {
      assert s + t == s;
      XorZero(Fold(s));
    } else {
      var init, last := t[..|t| - 1], t[|t| - 1];
      FoldConcat(s, init);
      assert (s + t)[..|s + t| - 1] == s + init;
      XorAssociates(Fold(s), Fold(init), last);
    }
  }

  lemma FoldOne(d: Digest)
    ensures Fold([d]) == d
  {
    assert [d][..0] == [];
    XorCommutes(ZERO, d);
    XorZero(d);
  }

  /** One digest, wherever it stands, as an exclusive or with the rest. */
  lemma FoldMiddle(a: seq<Digest>, d: Digest, b: seq<Digest>)
    ensures Fold(a + [d] + b) == Xor(Fold(a + b), d)
  {
    FoldConcat(a + [d], b);
    FoldConcat(a, [d]);
    FoldOne(d);
    FoldConcat(a, b);
    XorAssociates(Fold(a), d, Fold(b));
    XorCommutes(d, Fold(b));
    XorAssociates(Fold(a), Fold(b), d);
  }

  // ---- what the fold depends on ----

  function Same<T(==)>(x: T): T -> bool { (y: T) => y == x }

  /** `x` occurs an odd number of times. */
  predicate IsOdd<T(==)>(s: seq<T>, x: T) { Tally(Same(x), s) % 2 == 1 }

  ghost predicate AllEven<T(!new)>(s: seq<T>) { forall x :: !IsOdd(s, x) }

  lemma AgainBefore<T>(s: seq<T>) returns (k: nat)
    requires s != [] && !IsOdd(s, s[|s| - 1])
    ensures k < |s| - 1 && s[k] == s[|s| - 1]
  {
    var init, x := s[..|s| - 1], s[|s| - 1];
    if forall i :: 0 <= i < |init| ==> init[i] != x {
      TallyNone(Same(x), init);
    }
    k :| 0 <= k < |init| && init[k] == x;
  }

  /** All but the last element and the one at `k`. */
  function PairOut<T>(s: seq<T>, k: nat): seq<T>
    requires k < |s| - 1
  {
    s[..k] + s[k + 1..|s| - 1]
  }

  lemma PairOutParity<T>(s: seq<T>, k: nat, x: T)
    requires k < |s| - 1 && s[k] == s[|s| - 1]
    ensures IsOdd(PairOut(s, k), x) == IsOdd(s, x)
  {
    var init := s[..|s| - 1];
    TallyMiddle(Same(x), init, k);
    assert init[..k] == s[..k] && init[k + 1..] == s[k + 1..|s| - 1];
  }

  /** The same digest at two places cancels. */
  lemma PairFold(a: seq<Digest>, d: Digest, b: seq<Digest>)
    ensures Fold(a + [d] + b + [d]) == Fold(a + b)
  {
    FoldConcat(a + [d] + b, [d]);
    FoldOne(d);
    FoldMiddle(a, d, b);
    XorAssociates(Fold(a + b), d, d);
    XorZero(d);
    XorZero(Fold(a + b));
  }

  lemma PairSplit<T>(s: seq<T>, k: nat)
    requires k < |s| - 1 && s[k] == s[|s| - 1]
    ensures s == s[..k] + [s[k]] + s[k + 1..|s| - 1] + [s[k]]
  {
    assert s == s[..k] + s[k..|s| - 1] + s[|s| - 1..];
  }

  lemma PairOutFold(ds: seq<Digest>, k: nat)
    requires k < |ds| - 1 && ds[k] == ds[|ds| - 1]
    ensures Fold(PairOut(ds, k)) == Fold(ds)
  {
    PairSplit(ds, k);
    PairFold(ds[..k], ds[k], ds[k + 1..|ds| - 1]);
  }

  lemma {:induction false} EvenFoldsToZero(ds: seq<Digest>)
    requires AllEven(ds)
    ensures Fold(ds) == ZERO
    decreases |ds|
  {
    if ds != [] {
      var k := AgainBefore(ds);
      forall d ensures !IsOdd(PairOut(ds, k), d) {
        PairOutParity(ds, k, d);
      }
      PairOutFold(ds, k);
      EvenFoldsToZero(PairOut(ds, k));
    }
  }

  lemma EvenTogether<T(!new)>(s: seq<T>, t: seq<T>)
    requires forall x :: IsOdd(s, x) == IsOdd(t, x)
    ensures AllEven(s + t)
  {
    forall x ensures !IsOdd(s + t, x) {
      TallySplits(Same(x), s, t);
      assert IsOdd(s, x) == IsOdd(t, x);
    }
  }

  /** The fold depends only on which digests occur an odd number of times. */
  lemma FoldByParity(s: seq<Digest>, t: seq<Digest>)
    requires forall d :: IsOdd(s, d) == IsOdd(t, d)
    ensures Fold(s) == Fold(t)
  {
    EvenTogether(s, t);
    EvenFoldsToZero(s + t);
    ZeroTogether(s, t);
  }

  lemma ZeroTogether(s: seq<Digest>, t: seq<Digest>)
    requires Fold(s + t) == ZERO
    ensures Fold(s) == Fold(t)
  {
    FoldConcat(s, t);
    XorZero(Fold(s));
    XorCancels(Fold(s), Fold(s), Fold(t));
  }

  /** In particular not on their order. */
  lemma FoldForgetsOrder(s: seq<Digest>, t: seq<Digest>)
    requires multiset(s) == multiset(t)
    ensures Fold(s) == Fold(t)
  {
    forall d ensures IsOdd(s, d) == IsOdd(t, d) {
      TallyForgetsOrder(Same(d), s, t);
    }
    FoldByParity(s, t);
  }

  /** Replacing one digest by another changes the fold. */
  lemma ReplacedChangesFold(ds: seq<Digest>, i: nat, d: Digest)
    requires i < |ds| && ds[i] != d
    ensures Fold(ds[i := d]) != Fold(ds)
  {
    var a, b := ds[..i], ds[i + 1..];
    assert ds == a + [ds[i]] + b && ds[i := d] == a + [d] + b;
    FoldMiddle(a, ds[i], b);
    FoldMiddle(a, d, b);
    if Fold(ds[i := d]) == Fold(ds) {
      XorCancels(Fold(a + b), ds[i], d);
    }
  }

  // ---- what a pin accepts ----

  /** The hash keeps these two inputs apart. */
  ghost predicate Apart(hash: Hash, x: Bytes, y: Bytes) { x != y ==> hash(x) != hash(y) }

  lemma HexTextInjective(x: Bytes, y: Bytes)
    requires HexText(x) == HexText(y)
    ensures x == y
  {
    SpaceManifest.PairsRoundTrip(Ints(x));
    SpaceManifest.PairsRoundTrip(Ints(y));
    forall i | 0 <= i < |x| ensures x[i] == y[i] {
      assert Ints(x)[i] == Ints(y)[i];
    }
  }

  lemma OuterInputInjective(f: Digest, g: Digest, n: nat)
    requires OuterInput(f, n) == OuterInput(g, n)
    ensures f == g
  {
    assert OuterInput(f, n)[..32] == f && OuterInput(g, n)[..32] == g;
  }

  /** A corpus verifies against the pin of another exactly when it has as many instances and the same
      fold, given that the hash keeps the two final inputs apart. */
  lemma VerifiesExactly(hash: Hash, name: string, pinned: seq<Instance>, loaded: seq<Instance>)
    requires FoldsApart(hash, pinned, loaded)
    ensures VerifyPin(hash, PinOf(hash, name, pinned), loaded) == Match <==>
            |loaded| == |pinned| && Fold(Digests(hash, loaded)) == Fold(Digests(hash, pinned))
  {
    var f, g := Fold(Digests(hash, pinned)), Fold(Digests(hash, loaded));
    if |loaded| == |pinned| && VerifyPin(hash, PinOf(hash, name, pinned), loaded) == Match {
      HexTextInjective(hash(OuterInput(f, |pinned|)), hash(OuterInput(g, |pinned|)));
      OuterInputInjective(f, g, |pinned|);
    }
  }

  /** What a pin records, and what a refusal names: the expected count or hash first, and then the actual
      one; the count is looked at first. */
  lemma RefusalExactly(hash: Hash, name: string, pinned: seq<Instance>, loaded: seq<Instance>)
    ensures var pin, own := PinOf(hash, name, pinned), PinOf(hash, name, loaded);
            && pin.name == name && pin.instances == |pinned|
            && (|pinned| != |loaded| ==> VerifyPin(hash, pin, loaded) == CountMismatch(|pinned|, |loaded|))
            && (|pinned| == |loaded| && pin != own ==>
                  VerifyPin(hash, pin, loaded) == HashMismatch(pin.contentSha256, own.contentSha256))
            && (pin == own ==> VerifyPin(hash, pin, loaded) == Match)
  {
  }

  lemma {:induction false} DigestsForgetOrder(hash: Hash, s: seq<Instance>, t: seq<Instance>)
    requires multiset(s) == multiset(t)
    ensures multiset(Digests(hash, s)) == multiset(Digests(hash, t))
  {
    if s == [] {
      assert |t| == |multiset(t)| == 0;
    } else {
      var k := TakeOutLast(s, t);
      var rest := t[..k] + t[k + 1..];
      DigestsForgetOrder(hash, s[..|s| - 1], rest);
      var ds, dt := Digests(hash, s), Digests(hash, t);
      assert Digests(hash, s[..|s| - 1]) == ds[..|s| - 1];
      assert Digests(hash, rest) == dt[..k] + dt[k + 1..];
      WithoutLast(ds);
      WithoutMiddle(dt, k);
      assert ds[|s| - 1] == dt[k];
      PutBack(multiset(ds), multiset(dt), dt[k]);
    }
  }

  lemma PutBack<T>(a: multiset<T>, b: multiset<T>, x: T)
    requires x in a && x in b && a - multiset{x} == b - multiset{x}
    ensures a == b
  {
    assert a == a - multiset{x} + multiset{x} && b == b - multiset{x} + multiset{x};
  }

  /** Reordering a corpus leaves its pin as it was, so any reordering verifies. */
  lemma ReorderedVerifies(hash: Hash, name: string, pinned: seq<Instance>, loaded: seq<Instance>)
    requires multiset(pinned) == multiset(loaded)
    ensures PinOf(hash, name, loaded) == PinOf(hash, name, pinned)
    ensures VerifyPin(hash, PinOf(hash, name, pinned), loaded) == Match
  {
    DigestsForgetOrder(hash, pinned, loaded);
    FoldForgetsOrder(Digests(hash, pinned), Digests(hash, loaded));
    assert |pinned| == |multiset(pinned)| == |multiset(loaded)| == |loaded|;
  }

  ghost predicate FoldsApart(hash: Hash, s: seq<Instance>, t: seq<Instance>) {
    Apart(hash, OuterInput(Fold(Digests(hash, s)), |s|), OuterInput(Fold(Digests(hash, t)), |t|))
  }

  /** Replacing one instance by one with another digest never verifies. */
  lemma ReplacedIsRejected(hash: Hash, name: string, pinned: seq<Instance>, i: nat, y: Instance)
    requires i < |pinned| && InstanceDigest(hash, pinned[i]) != InstanceDigest(hash, y)
    requires FoldsApart(hash, pinned, pinned[i := y])
    ensures VerifyPin(hash, PinOf(hash, name, pinned), pinned[i := y]).HashMismatch?
  {
    var ds, d := Digests(hash, pinned), InstanceDigest(hash, y);
    assert Digests(hash, pinned[i := y]) == ds[i := d];
    ReplacedChangesFold(ds, i, d);
    VerifiesExactly(hash, name, pinned, pinned[i := y]);
  }

  /** Where the pin is blind: a corpus of as many instances in which the same digests occur an odd number
      of times has the same pin, and verifies. */
  lemma ParityVerifies(hash: Hash, name: string, pinned: seq<Instance>, loaded: seq<Instance>)
    requires |loaded| == |pinned|
    requires forall d :: IsOdd(Digests(hash, pinned), d) == IsOdd(Digests(hash, loaded), d)
    ensures PinOf(hash, name, loaded) == PinOf(hash, name, pinned)
    ensures VerifyPin(hash, PinOf(hash, name, pinned), loaded) == Match
  {
    FoldByParity(Digests(hash, pinned), Digests(hash, loaded));
  }

  function Texts(instances: seq<Instance>): seq<Bytes> {
    seq(|instances|, i requires 0 <= i < |instances| => Canonical(instances[i]))
  }

  function HashAll(hash: Hash, texts: seq<Bytes>): seq<Digest> {
    seq(|texts|, i requires 0 <= i < |texts| => hash(texts[i]))
  }

  lemma {:induction false} EvenTextsFoldToZero(hash: Hash, texts: seq<Bytes>)
    requires AllEven(texts)
    ensures Fold(HashAll(hash, texts)) == ZERO
    decreases |texts|
  {
    if texts != [] {
      var k := AgainBefore(texts);
      var rest := PairOut(texts, k);
      forall x ensures !IsOdd(rest, x) {
        PairOutParity(texts, k, x);
      }
      assert HashAll(hash, rest) == PairOut(HashAll(hash, texts), k);
      PairOutFold(HashAll(hash, texts), k);
      EvenTextsFoldToZero(hash, rest);
    }
  }

  const ONE: Digest :=
    [1, 0, 0, 0, 0, 0, 0, 0, 0, 0, 0, 0, 0, 0, 0, 0, 0, 0, 0, 0, 0, 0, 0, 0, 0, 0, 0, 0, 0, 0, 0, 0]

  /** A hash that tells one text from all others. */
  function Spotting(text: Bytes): Hash { (x: Bytes) => if x == text then ONE else ZERO }

  function OneIf(odd: bool): Digest { if odd then ONE else ZERO }

  lemma OneIfFlips(odd: bool, hit: bool)
    ensures Xor(OneIf(odd), OneIf(hit)) == OneIf(odd != hit)
  {
    XorZero(ONE);
    XorZero(ZERO);
    XorCommutes(ZERO, ONE);
  }

  lemma HashAllPush(hash: Hash, texts: seq<Bytes>, last: Bytes)
    ensures Fold(HashAll(hash, texts + [last])) == Xor(Fold(HashAll(hash, texts)), hash(last))
  {
    var ds := HashAll(hash, texts + [last]);
    assert ds[..|ds| - 1] == HashAll(hash, texts);
  }

  lemma OddPush<T>(s: seq<T>, last: T, x: T)
    ensures IsOdd(s + [last], x) == (IsOdd(s, x) != (last == x))
  {
    TallyPush(Same(x), s, last);
  }

  lemma SpottedPush(text: Bytes, init: seq<Bytes>, last: Bytes)
    requires Fold(HashAll(Spotting(text), init)) == OneIf(IsOdd(init, text))
    ensures Fold(HashAll(Spotting(text), init + [last])) == OneIf(IsOdd(init + [last], text))
  {
    HashAllPush(Spotting(text), init, last);
    OddPush(init, last, text);
    OneIfFlips(IsOdd(init, text), last == text);
  }

  lemma {:induction false} SpottedFold(text: Bytes, texts: seq<Bytes>)
    ensures Fold(HashAll(Spotting(text), texts)) == OneIf(IsOdd(texts, text))
  {
    if texts != [] {
      var init, last := texts[..|texts| - 1], texts[|texts| - 1];
      SpottedFold(text, init);
      SpottedPush(text, init, last);
      assert init + [last] == texts;
    }
  }

  /** Two corpora fold alike under every hash exactly when the same hashed texts occur an odd number of
      times in both. */
  lemma BlindExactly(s: seq<Instance>, t: seq<Instance>)
    ensures (forall hash: Hash :: Fold(Digests(hash, s)) == Fold(Digests(hash, t))) <==>
            (forall text :: IsOdd(Texts(s), text) == IsOdd(Texts(t), text))
  {
    if forall text :: IsOdd(Texts(s), text) == IsOdd(Texts(t), text) {
      EvenTogether(Texts(s), Texts(t));
      forall hash: Hash ensures Fold(Digests(hash, s)) == Fold(Digests(hash, t)) {
        EvenTextsFoldToZero(hash, Texts(s) + Texts(t));
        assert HashAll(hash, Texts(s) + Texts(t)) == Digests(hash, s) + Digests(hash, t);
        ZeroTogether(Digests(hash, s), Digests(hash, t));
      }
    } else {
      var text :| IsOdd(Texts(s), text) != IsOdd(Texts(t), text);
      var hash := Spotting(text);
      SpottedFold(text, Texts(s));
      SpottedFold(text, Texts(t));
      assert HashAll(hash, Texts(s)) == Digests(hash, s) && HashAll(hash, Texts(t)) == Digests(hash, t);
      assert ONE[0] != ZERO[0];
      assert Fold(Digests(hash, s)) != Fold(Digests(hash, t));
    }
  }

  lemma PairIsEven(hash: Hash, x: Instance, rest: seq<Instance>, d: Digest)
    ensures IsOdd(Digests(hash, rest + [x, x]), d) == IsOdd(Digests(hash, rest), d)
  {
    var ds, e := Digests(hash, rest), InstanceDigest(hash, x);
    assert Digests(hash, rest + [x, x]) == ds + [e] + [e];
    TallyPush(Same(d), ds + [e], e);
    TallyPush(Same(d), ds, e);
  }

  /** So two copies of any instance pass for two copies of any other. */
  lemma PairsCancel(hash: Hash, name: string, x: Instance, y: Instance, rest: seq<Instance>)
    ensures VerifyPin(hash, PinOf(hash, name, rest + [x, x]), rest + [y, y]) == Match
  {
    forall d ensures IsOdd(Digests(hash, rest + [x, x]), d) == IsOdd(Digests(hash, rest + [y, y]), d) {
      PairIsEven(hash, x, rest, d);
      PairIsEven(hash, y, rest, d);
    }
    ParityVerifies(hash, name, rest + [x, x], rest + [y, y]);
  }
}
