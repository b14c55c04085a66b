/** What holds of every run of the pool. */
module PoolRuns {
  import opened Pool

  /** Safety over whole runs: never more than `c` in flight, nothing lost or duplicated, and each
      step uses up exactly one unit of work, so no run is longer than two steps an item. */
  lemma {:induction false} RunKeeps<T, U>(f: T -> U, c: nat, items: seq<T>, run: seq<State<T, U>>, k: nat)
    requires IsRun(f, c, items, run) && k < |run|
    ensures |run[k].flying| <= c
    ensures Inv(f, c, items, run[k])
    ensures Work(run[k]) == 2 * |items| - k
  {
    if k == 0 {
      assert Map(f, run[0].flying) == [];
    } else {
      RunKeeps(f, c, items, run, k - 1);
      StepKeeps(f, c, items, run[k - 1], run[k]);
    }
  }

  /** No deadlock: with at least one slot, a run that is not drained can be continued. */
  lemma CanProgress<T, U>(f: T -> U, c: nat, p: State<T, U>) returns (q: State<T, U>)
    requires 1 <= c && !Drained(p)
    ensures Step(f, c, p, q)
  {
    if p.flying != [] {
      q := Finish(f, p, 0);
    } else {
      q := Start(p);
    }
  }

  /** A run is drained exactly when it has taken two steps for every item, and then it has
      collected every item's outcome exactly once. */
  lemma DrainedRun<T, U>(f: T -> U, c: nat, items: seq<T>, run: seq<State<T, U>>)
    requires IsRun(f, c, items, run)
    ensures |run| - 1 <= 2 * |items|
    ensures Drained(run[|run| - 1]) <==> |run| - 1 == 2 * |items|
    ensures Drained(run[|run| - 1]) ==> multiset(run[|run| - 1].done) == multiset(Map(f, items))
  {
    var last := run[|run| - 1];
    RunKeeps(f, c, items, run, |run| - 1);
    if Drained(last) {
      assert Map(f, last.queue) == [] && Map(f, last.flying) == [];
    }
  }

  function InOrder<T, U>(f: T -> U, p: State<T, U>): seq<U> {
    p.done + Map(f, p.flying) + Map(f, p.queue)
  }

  lemma OneSlotStart<T, U>(f: T -> U, p: State<T, U>)
    requires p.queue != [] && p.flying == []
    ensures InOrder(f, Start(p)) == InOrder(f, p)
  {
    assert Start(p).flying == p.queue[..1];
    assert p.queue == p.queue[..1] + p.queue[1..];
    MapAppend(f, p.queue[..1], p.queue[1..]);
  }

  lemma OneSlotFinish<T, U>(f: T -> U, p: State<T, U>)
    requires |p.flying| == 1
    ensures InOrder(f, Finish(f, p, 0)) == InOrder(f, p)
  {
    assert Finish(f, p, 0).done == p.done + Map(f, p.flying);
    assert Finish(f, p, 0).flying == [];
  }

  lemma OneSlotStep<T, U>(f: T -> U, p: State<T, U>, q: State<T, U>)
    requires Step(f, 1, p, q) && |p.flying| <= 1
    ensures |q.flying| <= 1 && InOrder(f, q) == InOrder(f, p)
  {
    if i: nat :| i < |p.flying| && q == Finish(f, p, i) {
      OneSlotFinish(f, p);
    } else {
      OneSlotStart(f, p);
    }
  }

  /** With one slot the outcomes land in the order the items were given. */
  lemma {:induction false} OneSlotIsSequential<T, U>(f: T -> U, items: seq<T>, run: seq<State<T, U>>, k: nat)
    requires IsRun(f, 1, items, run) && k < |run|
    ensures |run[k].flying| <= 1
    ensures run[k].done <= Map(f, items)
    ensures InOrder(f, run[k]) == Map(f, items)
  {
    if k > 0 {
      OneSlotIsSequential(f, items, run, k - 1);
      OneSlotStep(f, run[k - 1], run[k]);
    }
  }
}
