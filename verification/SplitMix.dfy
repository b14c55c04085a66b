/** The bootstrap's pseudo-random generator on 64-bit words. Each word operation has a name of its
    own, with the fact that it can be undone. */
module SplitMix {

  function XorShift30(x: bv64): bv64 { x ^ (x >> 30) }

  function XorShift27(x: bv64): bv64 { x ^ (x >> 27) }

  function XorShift31(x: bv64): bv64 { x ^ (x >> 31) }

  function Times1(x: bv64): bv64 { x * 0xbf58_476d_1ce4_e5b9 }

  function Times2(x: bv64): bv64 { x * 0x94d0_49bb_1331_11eb }

  /** The output mix of `next_u64`. */
  function Mix(state: bv64): bv64 { XorShift31(Times2(XorShift27(Times1(XorShift30(state))))) }

  function UndoShift30(x: bv64): bv64 { x ^ (x >> 30) ^ (x >> 60) }

  function UndoShift27(x: bv64): bv64 { x ^ (x >> 27) ^ (x >> 54) }

  function UndoShift31(x: bv64): bv64 { x ^ (x >> 31) ^ (x >> 62) }

  // The multipliers below are the inverses, modulo 2^64, of those above.

  function UndoTimes1(x: bv64): bv64 { x * 0x96de_1b17_3f11_9089 }

  function UndoTimes2(x: bv64): bv64 { x * 0x3196_42b2_d24d_8ec3 }

  /** The mix, undone step by step. */
  function Unmix(out: bv64): bv64 { UndoShift30(UndoTimes1(UndoShift27(UndoTimes2(UndoShift31(out))))) }

  lemma Shift30(x: bv64)
    ensures UndoShift30(XorShift30(x)) == x && XorShift30(UndoShift30(x)) == x
  {
    assert UndoShift30(x ^ (x >> 30)) == x;
    assert XorShift30(x ^ (x >> 30) ^ (x >> 60)) == x;
  }

  lemma Shift27(x: bv64)
    ensures UndoShift27(XorShift27(x)) == x && XorShift27(UndoShift27(x)) == x
  {
    assert UndoShift27(x ^ (x >> 27)) == x;
    assert XorShift27(x ^ (x >> 27) ^ (x >> 54)) == x;
  }

  lemma Shift31(x: bv64)
    ensures UndoShift31(XorShift31(x)) == x && XorShift31(UndoShift31(x)) == x
  {
    assert UndoShift31(x ^ (x >> 31)) == x;
    assert XorShift31(x ^ (x >> 31) ^ (x >> 62)) == x;
  }

  lemma Multiply1(x: bv64)
    ensures UndoTimes1(Times1(x)) == x && Times1(UndoTimes1(x)) == x
  {
    assert UndoTimes1(x * 0xbf58_476d_1ce4_e5b9) == x;
    assert Times1(x * 0x96de_1b17_3f11_9089) == x;
  }

  lemma Multiply2(x: bv64)
    ensures UndoTimes2(Times2(x)) == x && Times2(UndoTimes2(x)) == x
  {
    assert UndoTimes2(x * 0x94d0_49bb_1331_11eb) == x;
    assert Times2(x * 0x3196_42b2_d24d_8ec3) == x;
  }

  /** The mix is a bijection on 64-bit words. */
  lemma MixIsBijective(x: bv64)
    ensures Unmix(Mix(x)) == x && Mix(Unmix(x)) == x
  {
    var a := XorShift30(x);
    var b := Times1(a);
    var c := XorShift27(b);
    var d := Times2(c);
    Shift30(x); Multiply1(a); Shift27(b); Multiply2(c); Shift31(d);
    var p := UndoShift31(x);
    var q := UndoTimes2(p);
    var r := UndoShift27(q);
    var s := UndoTimes1(r);
    Shift31(x); Multiply2(p); Shift27(q); Multiply1(r); Shift30(s);
  }

  /** One step of the state. */
  function Advance(state: bv64): bv64 { state + 0x9e37_79b9_7f4a_7c15 }

  class SplitMix64 {
    var state: bv64

    constructor (seed: bv64)
      ensures state == seed
    {
      state := seed;
    }

    method NextU64() returns (z: bv64)
      modifies this
      ensures state == Advance(old(state)) && z == Mix(state)
    {
      state := Advance(state);
      z := state;
      z := Times1(XorShift30(z));
      z := Times2(XorShift27(z));
      z := XorShift31(z);
    }
  }

  // ---- the stream of draws ----

  function StateAfter(seed: bv64, n: nat): bv64 {
    if n == 0 then seed else Advance(StateAfter(seed, n - 1))
  }

  /** The `n`-th output of a generator started at `seed`, counting from 0. */
  function Draw(seed: bv64, n: nat): bv64 { Mix(StateAfter(seed, n + 1)) }

  /** The first output of SplitMix64 seeded with zero, as its published reference gives it. */
  lemma FirstDraw()
    ensures Draw(0, 0) == 0xe220_a839_7b1d_cdaf
  {
    assert StateAfter(0, 0) == 0;
    assert StateAfter(0, 1) == 0x9e37_79b9_7f4a_7c15;
  }

  function Succ(x: bv64): bv64 { x + 1 }

  function Plus(x: bv64, y: bv64): bv64 { x + y }

  /** `n` as a 64-bit word, counting up from zero and wrapping. */
  function Word(n: nat): bv64 { if n == 0 then 0 else Succ(Word(n - 1)) }

  /** The state `k` steps from `seed`, in closed form. */
  function StateAt(seed: bv64, k: bv64): bv64 { seed + k * 0x9e37_79b9_7f4a_7c15 }

  /** How many steps lead from `seed` to `state`. */
  function StepsTo(seed: bv64, state: bv64): bv64 { (state - seed) * 0xf1de_83e1_9937_733d }

  lemma StateAtSucc(seed: bv64, k: bv64)
    ensures Advance(StateAt(seed, k)) == StateAt(seed, Succ(k)) && StateAt(seed, 0) == seed
  {
    assert Advance(seed + k * 0x9e37_79b9_7f4a_7c15) == seed + (k + 1) * 0x9e37_79b9_7f4a_7c15;
    assert StateAt(seed, k + 1) == seed + (k + 1) * 0x9e37_79b9_7f4a_7c15;
  }

  /** Every state is reached from every seed, after exactly one number of steps modulo 2^64. */
  lemma StepsAreUnique(seed: bv64, k: bv64, state: bv64)
    ensures StepsTo(seed, StateAt(seed, k)) == k
    ensures StateAt(seed, StepsTo(seed, state)) == state
  {
    assert StepsTo(seed, seed + k * 0x9e37_79b9_7f4a_7c15) == k;
    assert StateAt(seed, (state - seed) * 0xf1de_83e1_9937_733d) == state;
  }

  lemma {:induction false} StateIsLinear(seed: bv64, n: nat)
    ensures StateAfter(seed, n) == StateAt(seed, Word(n))
  {
    if n > 0 {
      StateIsLinear(seed, n - 1);
      StateAtSucc(seed, Word(n - 1));
    } else {
      StateAtSucc(seed, 0);
    }
  }

  // ---- counting in 64 bits ----

  lemma PlusSucc(x: bv64, y: bv64)
    ensures Succ(Plus(x, y)) == Plus(x, Succ(y)) && Plus(x, 0) == x
  {
    assert Succ(x + y) == x + (y + 1);
    assert Plus(x, y + 1) == x + (y + 1);
  }

  lemma {:induction false} WordAdds(a: nat, b: nat)
    ensures Word(a + b) == Plus(Word(a), Word(b))
  {
    if b > 0 {
      WordAdds(a, b - 1);
      PlusSucc(Word(a), Word(b - 1));
    } else {
      PlusSucc(Word(a), 0);
    }
  }

  function LowBit(x: bv64): bv64 { x & 1 }

  lemma SuccFlips(x: bv64)
    ensures LowBit(x) == 0 || LowBit(x) == 1
    ensures LowBit(Succ(x)) == 0 <==> LowBit(x) == 1
  {
  }

  lemma {:induction false} WordParity(n: nat)
    ensures LowBit(Word(n)) == 0 <==> n % 2 == 0
  {
    if n > 0 {
      WordParity(n - 1);
      SuccFlips(Word(n - 1));
    }
  }

  function Pow2(n: nat): (p: nat)
    ensures 0 < p
  {
    if n == 0 then 1 else 2 * Pow2(n - 1)
  }

  function Halve(x: bv64): bv64 { x >> 1 }

  /** A word with its lowest `64 - i` bits set. */
  function Mask(i: nat): bv64 { if i == 0 then 0xFFFF_FFFF_FFFF_FFFF else Halve(Mask(i - 1)) }

  predicate LowOnes(m: bv64) { m & (m + 1) == 0 }

  predicate Clear(x: bv64, m: bv64) { x & m == 0 }

  lemma HalveKeepsShape(m: bv64)
    requires LowOnes(m)
    ensures LowOnes(Halve(m))
  {
  }

  lemma HalveClear(m: bv64, y: bv64)
    requires Clear(Plus(y, y), m)
    ensures Clear(y, Halve(m))
  {
  }

  lemma HalveNonZero(m: bv64)
    requires Halve(m) != 0
    ensures m != 0
  {
  }

  lemma ClearIsEven(m: bv64, y: bv64)
    requires LowOnes(m) && m != 0 && Clear(y, m)
    ensures LowBit(y) == 0
  {
    LowOnesIsOdd(m);
  }

  lemma LowOnesIsOdd(m: bv64)
    requires LowOnes(m) && m != 0
    ensures LowBit(m) == 1
  {
  }

  lemma {:induction false} MaskShape(i: nat)
    ensures LowOnes(Mask(i))
  {
    if i > 0 {
      MaskShape(i - 1);
      HalveKeepsShape(Mask(i - 1));
    }
  }

  lemma MaskEightOn(i: nat, m: bv64)
    requires Mask(i) == m
    ensures Mask(i + 8) == m >> 8
  {
    assert Mask(i + 1) == m >> 1 && Mask(i + 2) == m >> 2 && Mask(i + 3) == m >> 3 && Mask(i + 4) == m >> 4;
    assert Mask(i + 5) == m >> 5 && Mask(i + 6) == m >> 6 && Mask(i + 7) == m >> 7;
  }

  lemma LastMask()
    ensures Mask(64) == 0 && Mask(63) != 0
  {
    MaskEightOn(0, 0xFFFF_FFFF_FFFF_FFFF);
    MaskEightOn(8, 0x00FF_FFFF_FFFF_FFFF);
    MaskEightOn(16, 0xFFFF_FFFF_FFFF);
    MaskEightOn(24, 0xFF_FFFF_FFFF);
    MaskEightOn(32, 0xFFFF_FFFF);
    MaskEightOn(40, 0xFF_FFFF);
    MaskEightOn(48, 0xFFFF);
    assert Mask(56) == 0xFF;
    assert Mask(58) == Halve(Mask(57)) == 0x3F;
    assert Mask(60) == Halve(Mask(59)) == 0xF;
    assert Mask(62) == Halve(Mask(61)) == 3;
    assert Mask(63) == Halve(Mask(62)) == 1;
    assert Mask(64) == Halve(Mask(63));
  }

  lemma {:induction false} MaskNonZero(i: nat)
    requires i <= 63
    ensures Mask(i) != 0
    decreases 63 - i
  {
    if i == 63 {
      LastMask();
    } else {
      MaskNonZero(i + 1);
      HalveNonZero(Mask(i));
    }
  }

  ghost predicate Divides(p: nat, n: nat) { exists q: nat :: Times(q, p) == n }

  function Times(q: nat, p: nat): nat { q * p }

  lemma HalfDivides(n: nat, p: nat)
    requires n % 2 == 0 && Divides(p, n / 2)
    ensures Divides(2 * p, n)
  {
    var q: nat :| Times(q, p) == n / 2;
    assert q * (2 * p) == 2 * (q * p);
    assert Times(q, 2 * p) == n;
  }

  /** If the lowest `64 - i` bits of `n`'s word are clear then 2^(64 - i) divides `n`. */
  lemma {:induction false} ClearBitsDivide(n: nat, i: nat)
    requires i <= 64 && Clear(Word(n), Mask(i))
    ensures Divides(Pow2(64 - i), n)
    decreases 64 - i
  {
    if i == 64 {
      assert Times(n, 1) == n;
    } else {
      var h := n / 2;
      MaskShape(i);
      MaskNonZero(i);
      ClearIsEven(Mask(i), Word(n));
      WordParity(n);
      WordAdds(h, h);
      HalveClear(Mask(i), Word(h));
      ClearBitsDivide(h, i + 1);
      HalfDivides(n, Pow2(63 - i));
    }
  }

  lemma ZeroIsClear()
    ensures Clear(0, Mask(0))
  {
  }

  const PERIOD: nat := 0x1_0000_0000_0000_0000

  lemma PeriodIsPow2()
    ensures Pow2(64) == PERIOD
  {
    Pow2Adds(8, 8);
    Pow2Adds(16, 16);
    Pow2Adds(32, 32);
    assert Pow2(8) == 256;
  }

  lemma {:induction false} Pow2Adds(a: nat, b: nat)
    ensures Pow2(a + b) == Pow2(a) * Pow2(b)
  {
    if b > 0 {
      Pow2Adds(a, b - 1);
    }
  }

  /** The word comes back to zero exactly at the multiples of 2^64. */
  lemma WordIsZeroExactly(n: nat)
    ensures Word(n) == 0 <==> n % PERIOD == 0
  {
    PeriodIsPow2();
    if Word(n) == 0 {
      ZeroIsClear();
      ClearBitsDivide(n, 0);
      var q: nat :| Times(q, PERIOD) == n;
    }
    if n % PERIOD == 0 {
      WordAtPeriods(n / PERIOD);
    }
  }

  function Double(x: bv64): bv64 { x << 1 }

  lemma PlusSelf(x: bv64)
    ensures Plus(x, x) == Double(x)
  {
  }

  /** One, doubled `i` times. */
  function Bit(i: nat): bv64 { if i == 0 then 1 else Double(Bit(i - 1)) }

  lemma {:induction false} WordOfPow2(i: nat)
    ensures Word(Pow2(i)) == Bit(i)
  {
    if i > 0 {
      WordOfPow2(i - 1);
      WordAdds(Pow2(i - 1), Pow2(i - 1));
      PlusSelf(Bit(i - 1));
    } else {
      assert Word(1) == Succ(Word(0));
    }
  }

  lemma BitEightOn(i: nat, b: bv64)
    requires Bit(i) == b
    ensures Bit(i + 8) == b << 8
  {
    assert Bit(i + 1) == b << 1 && Bit(i + 2) == b << 2 && Bit(i + 3) == b << 3 && Bit(i + 4) == b << 4;
    assert Bit(i + 5) == b << 5 && Bit(i + 6) == b << 6 && Bit(i + 7) == b << 7;
  }

  lemma LastBit()
    ensures Bit(64) == 0
  {
    BitEightOn(0, 1);
    BitEightOn(8, 0x100);
    BitEightOn(16, 0x1_0000);
    BitEightOn(24, 0x100_0000);
    BitEightOn(32, 0x1_0000_0000);
    BitEightOn(40, 0x100_0000_0000);
    BitEightOn(48, 0x1_0000_0000_0000);
    BitEightOn(56, 0x100_0000_0000_0000);
  }

  lemma {:induction false} WordAtPeriods(q: nat)
    ensures Word(q * PERIOD) == 0
  {
    if q > 0 {
      WordAtPeriods(q - 1);
      WordAdds((q - 1) * PERIOD, PERIOD);
      PeriodIsPow2();
      WordOfPow2(64);
      LastBit();
    }
  }

  lemma WordsMeet(i: nat, j: nat)
    requires i <= j
    ensures Word(i) == Word(j) <==> (j - i) % PERIOD == 0
  {
    WordsMeetAfter(i, j - i, j);
    WordIsZeroExactly(j - i);
  }

  lemma WordsMeetAfter(i: nat, d: nat, j: nat)
    requires i + d == j
    ensures Word(i) == Word(j) <==> Word(d) == 0
  {
    WordAdds(i, d);
    MeetExactly(Word(i), Word(d), Word(j));
  }

  lemma MeetExactly(x: bv64, y: bv64, z: bv64)
    requires z == Plus(x, y)
    ensures x == z <==> y == 0
  {
    PlusIsNoop(x, y);
  }

  lemma PlusIsNoop(x: bv64, y: bv64)
    ensures Plus(x, y) == x <==> y == 0
  {
  }

  lemma StatesMeet(seed: bv64, i: nat, j: nat)
    requires i <= j
    ensures StateAfter(seed, i) == StateAfter(seed, j) <==> (j - i) % PERIOD == 0
  {
    StateIsLinear(seed, i);
    StateIsLinear(seed, j);
    StepsAreUnique(seed, Word(i), seed);
    StepsAreUnique(seed, Word(j), seed);
    WordsMeet(i, j);
  }

  /** The generator has full period: from any seed, two draws give the same output exactly when they
      are a multiple of 2^64 draws apart, so 2^64 consecutive draws never repeat. */
  lemma DrawsRepeatExactly(seed: bv64, i: nat, j: nat)
    requires i <= j
    ensures Draw(seed, i) == Draw(seed, j) <==> (j - i) % PERIOD == 0
  {
    MixIsBijective(StateAfter(seed, i + 1));
    MixIsBijective(StateAfter(seed, j + 1));
    StatesMeet(seed, i + 1, j + 1);
  }

  // ---- the seed ----

  function Xor(h: bv64, bits: bv64): bv64 { h ^ bits }

  /** The multiplier is 2^44 + 0x1b3. */
  function TimesSeed(x: bv64): bv64 { x * 0x1000_0000_01b3 }

  function UndoTimesSeed(x: bv64): bv64 { x * 0xb46d_d957_aff6_957b }

  /** One step of the seed: exclusive-or in an element's bits, then multiply. */
  function Absorb(h: bv64, bits: bv64): bv64 { TimesSeed(Xor(h, bits)) }

  lemma MultiplySeed(x: bv64)
    ensures UndoTimesSeed(TimesSeed(x)) == x
  {
    assert UndoTimesSeed(x * 0x1000_0000_01b3) == x;
  }

  lemma XorUndone(h: bv64, bits: bv64)
    ensures Xor(Xor(h, bits), bits) == h && Xor(Xor(h, bits), h) == bits
  {
  }

  /** A step loses neither the word nor the bits. */
  lemma AbsorbUndone(h: bv64, bits: bv64)
    ensures Xor(UndoTimesSeed(Absorb(h, bits)), bits) == h
    ensures Xor(UndoTimesSeed(Absorb(h, bits)), h) == bits
  {
    MultiplySeed(Xor(h, bits));
    XorUndone(h, bits);
  }

  function AbsorbAll(h: bv64, sample: seq<bv64>): bv64 {
    if sample == [] then h
    else Absorb(AbsorbAll(h, sample[..|sample| - 1]), sample[|sample| - 1])
  }

  /** The word a sample of `n` elements starts from. */
  function Basis(n: nat): bv64 { 0xcbf2_9ce4_8422_2325 ^ Word(n) }

  /** `seed_from_sample`, on the bit patterns of the sample's elements. */
  method SeedFromSample(sample: seq<bv64>) returns (h: bv64)
    ensures h == AbsorbAll(Basis(|sample|), sample)
  {
    h := Basis(|sample|);
    for i := 0 to |sample|
      invariant h == AbsorbAll(Basis(|sample|), sample[..i])
    {
      assert sample[..i + 1][..i] == sample[..i];
      h := Absorb(h, sample[i]);
    }
    assert sample[..|sample|] == sample;
  }

  /** The seeds of the empty sample and of one zero. */
  lemma KnownSeeds()
    ensures AbsorbAll(Basis(0), []) == 0xcbf2_9ce4_8422_2325 && AbsorbAll(Basis(1), [0]) == 0xaf72_d84c_8601_b62c
  {
    assert Word(1) == 1;
    assert [0 as bv64][..0] == [];
  }

  /** Changing the bits of exactly one element always changes the seed. */
  lemma {:induction false} OneChangeChangesSeed(h: bv64, s: seq<bv64>, t: seq<bv64>, k: nat)
    requires |s| == |t| && k < |s| && s[k] != t[k]
    requires forall i :: 0 <= i < |s| && i != k ==> s[i] == t[i]
    ensures AbsorbAll(h, s) != AbsorbAll(h, t)
  {
    var n := |s| - 1;
    var a, b := AbsorbAll(h, s[..n]), AbsorbAll(h, t[..n]);
    AbsorbUndone(a, s[n]);
    AbsorbUndone(b, t[n]);
    if k < n {
      OneChangeChangesSeed(h, s[..n], t[..n], k);
    } else {
      assert s[..n] == t[..n];
    }
  }
}
