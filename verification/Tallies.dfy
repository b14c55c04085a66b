/** Counting and adding up over a sequence, one element at a time as the loops do. */
module Tallies {
  import opened Sorting

  function Tally<T>(p: T -> bool, s: seq<T>): nat {
    if s == [] then 0 else Tally(p, s[..|s| - 1]) + if p(s[|s| - 1]) then 1 else 0
  }

  function Total<T>(f: T -> real, s: seq<T>): real {
    if s == [] then 0.0 else Total(f, s[..|s| - 1]) + f(s[|s| - 1])
  }

  lemma TallyNext<T>(p: T -> bool, s: seq<T>, i: nat)
    requires i < |s|
    ensures Tally(p, s[..i + 1]) == Tally(p, s[..i]) + if p(s[i]) then 1 else 0
  {
    assert s[..i + 1][..i] == s[..i];
  }

  lemma TallyPush<T>(p: T -> bool, s: seq<T>, x: T)
    ensures Tally(p, s + [x]) == Tally(p, s) + if p(x) then 1 else 0
  {
    assert (s + [x])[..|s|] == s;
  }

  lemma TotalNext<T>(f: T -> real, s: seq<T>, i: nat)
    requires i < |s|
    ensures Total(f, s[..i + 1]) == Total(f, s[..i]) + f(s[i])
  {
    assert s[..i + 1][..i] == s[..i];
  }

  lemma {:induction false} TallySplits<T>(p: T -> bool, s: seq<T>, t: seq<T>)
    ensures Tally(p, s + t) == Tally(p, s) + Tally(p, t)
  {
    if t == [] {
      assert s + t == s;
    } else {
      TallySplits(p, s, t[..|t| - 1]);
      assert (s + t)[..|s + t| - 1] == s + t[..|t| - 1];
    }
  }

  lemma TallyMiddle<T>(p: T -> bool, t: seq<T>, k: nat)
    requires k < |t|
    ensures Tally(p, t) == Tally(p, t[..k] + t[k + 1..]) + if p(t[k]) then 1 else 0
  {
    assert t == t[..k + 1] + t[k + 1..];
    TallySplits(p, t[..k + 1], t[k + 1..]);
    TallySplits(p, t[..k], t[k + 1..]);
    TallyNext(p, t, k);
  }

  lemma Associates<T>(a: seq<T>, b: seq<T>, c: seq<T>)
    ensures a + (b + c) == a + b + c
  {
  }

  /** A count does not depend on the order of what is counted. */
  lemma {:induction false} TallyForgetsOrder<T>(p: T -> bool, s: seq<T>, t: seq<T>)
    requires multiset(s) == multiset(t)
    ensures Tally(p, s) == Tally(p, t)
  {
    if s == [] {
      assert |t| == |multiset(t)| == 0;
    } else {
      var k := TakeOutLast(s, t);
      TallyForgetsOrder(p, s[..|s| - 1], t[..k] + t[k + 1..]);
      TallyMiddle(p, t, k);
    }
  }

  lemma {:induction false} TallyAll<T>(p: T -> bool, s: seq<T>)
    requires forall i :: 0 <= i < |s| ==> p(s[i])
    ensures Tally(p, s) == |s|
  {
    if s != [] {
      TallyAll(p, s[..|s| - 1]);
    }
  }

  lemma {:induction false} TallyNone<T>(p: T -> bool, s: seq<T>)
    requires forall i :: 0 <= i < |s| ==> !p(s[i])
    ensures Tally(p, s) == 0
  {
    if s != [] {
      TallyNone(p, s[..|s| - 1]);
    }
  }

  lemma {:induction false} TallySame<T>(p: T -> bool, q: T -> bool, s: seq<T>)
    requires forall i :: 0 <= i < |s| ==> p(s[i]) == q(s[i])
    ensures Tally(p, s) == Tally(q, s)
  {
    if s != [] {
      TallySame(p, q, s[..|s| - 1]);
    }
  }

  lemma {:induction false} TallyAtMostLength<T>(p: T -> bool, s: seq<T>)
    ensures Tally(p, s) <= |s|
  {
    if s != [] {
      TallyAtMostLength(p, s[..|s| - 1]);
    }
  }

  lemma {:induction false} TotalZero<T>(f: T -> real, s: seq<T>)
    requires forall i :: 0 <= i < |s| ==> f(s[i]) == 0.0
    ensures Total(f, s) == 0.0
  {
    if s != [] {
      TotalZero(f, s[..|s| - 1]);
    }
  }

  lemma {:induction false} TotalAdds<T>(f: T -> real, g: T -> real, h: T -> real, s: seq<T>)
    requires forall i :: 0 <= i < |s| ==> h(s[i]) == f(s[i]) + g(s[i])
    ensures Total(h, s) == Total(f, s) + Total(g, s)
  {
    if s != [] {
      TotalAdds(f, g, h, s[..|s| - 1]);
    }
  }
}
