/** The loop that drives the pool, with the scheduler's choices left open. */
module Scheduler {
  import opened Pool

  /** Runs the machine with a scheduler that is free at every point, and returns the collected
      outcomes with the run that produced them. */
  method Collect<T, U>(f: T -> U, c: nat, items: seq<T>) returns (done: seq<U>, ghost run: seq<State<T, U>>)
    requires 1 <= c
    ensures IsRun(f, c, items, run) && Drained(run[|run| - 1]) && done == run[|run| - 1].done
    ensures multiset(done) == multiset(Map(f, items))
  {
    var p: State<T, U> := State(items, [], []);
    run := [p];
    assert Map(f, p.flying) == [];
    while !Drained(p)
      invariant IsRun(f, c, items, run) && run[|run| - 1] == p
      invariant Inv(f, c, items, p)
      decreases Work(p)
    {
      var launch: bool := *;
      ghost var before := p;
      if p.queue != [] && |p.flying| < c && (launch || p.flying == []) {
        StartKeeps(f, c, items, p);
        p := Start(p);
      } else {
        assert 0 < |p.flying|;
        var i: nat :| i < |p.flying|;
        FinishKeeps(f, c, items, p, i);
        p := Finish(f, p, i);
      }
      assert Step(f, c, before, p);
      run := run + [p];
    }
    done := p.done;
    assert Map(f, p.queue) == [] && Map(f, p.flying) == [];
  }
}
