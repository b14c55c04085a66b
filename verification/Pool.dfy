/** `futures::stream::iter(..).buffer_unordered(c).collect()` as a state machine: a queue of
    conversations still to start, the ones in flight, and the outcomes in the order they finished.
    Which flight lands next is the scheduler's choice, so everything here is for every run. */
module Pool {
  datatype State<T, U> = State(queue: seq<T>, flying: seq<T>, done: seq<U>)

  function Map<T, U>(f: T -> U, s: seq<T>): seq<U> {
    seq(|s|, i requires 0 <= i < |s| => f(s[i]))
  }

  /** `Map` element by element. */
  lemma MapIs<T, U>(f: T -> U, s: seq<T>)
    ensures |Map(f, s)| == |s| && forall i :: 0 <= i < |s| ==> Map(f, s)[i] == f(s[i])
  {
  }

  function Without<T>(s: seq<T>, i: nat): seq<T>
    requires i < |s|
  {
    s[..i] + s[i + 1..]
  }

  function Start<T, U>(p: State<T, U>): State<T, U>
    requires p.queue != []
  {
    p.(queue := p.queue[1..], flying := p.flying + [p.queue[0]])
  }

  function Finish<T, U>(f: T -> U, p: State<T, U>, i: nat): State<T, U>
    requires i < |p.flying|
  {
    p.(flying := Without(p.flying, i), done := p.done + [f(p.flying[i])])
  }

  ghost predicate Step<T, U>(f: T -> U, c: nat, p: State<T, U>, q: State<T, U>) {
    || (p.queue != [] && |p.flying| < c && q == Start(p))
    || exists i: nat :: i < |p.flying| && q == Finish(f, p, i)
  }

  predicate Drained<T, U>(p: State<T, U>) { p.queue == [] && p.flying == [] }

  /** A run over `items` with `c` slots: it begins with everything queued and moves by `Step`. */
  ghost predicate IsRun<T, U>(f: T -> U, c: nat, items: seq<T>, run: seq<State<T, U>>) {
    && run != []
    && run[0] == State(items, [], [])
    && forall i :: 0 <= i < |run| - 1 ==> Step(f, c, run[i], run[i + 1])
  }

  /** What every step keeps: the slot cap, and conservation of outcomes owed, in flight and landed. */
  ghost predicate Inv<T, U>(f: T -> U, c: nat, items: seq<T>, p: State<T, U>) {
    && |p.flying| <= c
    && multiset(Map(f, p.queue)) + multiset(Map(f, p.flying)) + multiset(p.done) == multiset(Map(f, items))
  }

  function Work<T, U>(p: State<T, U>): nat { 2 * |p.queue| + |p.flying| }

  lemma MapAppend<T, U>(f: T -> U, s: seq<T>, t: seq<T>)
    ensures Map(f, s + t) == Map(f, s) + Map(f, t)
  {
  }

  lemma MapHead<T, U>(f: T -> U, s: seq<T>)
    requires s != []
    ensures multiset(Map(f, s)) == multiset{f(s[0])} + multiset(Map(f, s[1..]))
  {
    assert s == [s[0]] + s[1..];
    MapAppend(f, [s[0]], s[1..]);
    assert Map(f, [s[0]]) == [f(s[0])];
  }

  lemma MapWithout<T, U>(f: T -> U, s: seq<T>, i: nat)
    requires i < |s|
    ensures multiset(Map(f, s)) == multiset{f(s[i])} + multiset(Map(f, Without(s, i)))
  {
    assert s == s[..i] + ([s[i]] + s[i + 1..]);
    MapAppend(f, s[..i], [s[i]] + s[i + 1..]);
    MapAppend(f, [s[i]], s[i + 1..]);
    MapAppend(f, s[..i], s[i + 1..]);
    assert Map(f, [s[i]]) == [f(s[i])];
  }

  lemma StartKeeps<T, U>(f: T -> U, c: nat, items: seq<T>, p: State<T, U>)
    requires Inv(f, c, items, p) && p.queue != [] && |p.flying| < c
    ensures Inv(f, c, items, Start(p)) && Work(Start(p)) == Work(p) - 1
  {
    MapHead(f, p.queue);
    MapAppend(f, p.flying, [p.queue[0]]);
    assert Map(f, [p.queue[0]]) == [f(p.queue[0])];
  }

  lemma FinishKeeps<T, U>(f: T -> U, c: nat, items: seq<T>, p: State<T, U>, i: nat)
    requires Inv(f, c, items, p) && i < |p.flying|
    ensures Inv(f, c, items, Finish(f, p, i)) && Work(Finish(f, p, i)) == Work(p) - 1
  {
    MapWithout(f, p.flying, i);
  }

  lemma StepKeeps<T, U>(f: T -> U, c: nat, items: seq<T>, p: State<T, U>, q: State<T, U>)
    requires Inv(f, c, items, p) && Step(f, c, p, q)
    ensures Inv(f, c, items, q) && Work(q) == Work(p) - 1
  {
    if p.queue != [] && |p.flying| < c && q == Start(p) {
      StartKeeps(f, c, items, p);
    } else {
      var i: nat :| i < |p.flying| && q == Finish(f, p, i);
      FinishKeeps(f, c, items, p, i);
    }
  }
}
