/** The throughput probe: per-worker tallies, the join loop that adds them up in whatever order the
    workers finish, and the nearest-rank percentile. Latencies are modelled by `real`. */
module Throughput {
  import opened Wrappers
  import opened Sorting
  import opened Tallies
  import opened Reals

  // ---- nearest-rank percentile ----

  /** Rank of the `q` percentile among `n` samples, counted from one. */
  function Rank(n: nat, q: real): (k: nat)
    requires 0 < n
    ensures 1 <= k <= n
  {
    var c := Ceil(n as real * q);
    if c < 1 then 1 else if n < c then n else c
  }

  function PercentileOf(xs: seq<real>, q: real): real {
    if xs == [] then 0.0 else Sort(xs, AtMost)[Rank(|xs|, q) - 1]
  }

  /** The float-to-`usize` cast saturates at zero; so does the subtraction. */
  method Percentile(samples: array<real>, q: real) returns (r: real)
    modifies samples
    ensures r == PercentileOf(old(samples[..]), q)
    ensures samples[..] == Sort(old(samples[..]), AtMost)
  {
    if samples.Length == 0 {
      return 0.0;
    }
    SortInPlace(samples);
    var up := Ceil(samples.Length as real * q);
    var cast := if up < 0 then 0 else up;
    var idx := if cast < 1 then 0 else cast - 1;
    if samples.Length - 1 < idx {
      idx := samples.Length - 1;
    }
    r := samples[..][idx];
  }

  function UpTo(r: real): real -> bool { (x: real) => x <= r }

  function Below(r: real): real -> bool { (x: real) => x < r }

  lemma SortedHere(xs: seq<real>)
    ensures Sorted(AtMost, Sort(xs, AtMost)) && multiset(Sort(xs, AtMost)) == multiset(xs)
    ensures |Sort(xs, AtMost)| == |xs|
  {
    assert TotalPreorder(AtMost);
    SortSorts(xs, AtMost);
    SortPermutes(xs, AtMost);
  }

  /** In a sorted list, more than `k` elements are at most the one at `k`. */
  lemma CountUpTo(s: seq<real>, k: nat)
    requires Sorted(AtMost, s) && k < |s|
    ensures k < Tally(UpTo(s[k]), s)
  {
    var a, b := s[..k + 1], s[k + 1..];
    assert s == a + b;
    forall i | 0 <= i < |a| ensures UpTo(s[k])(a[i]) {
      assert i < k ==> AtMost(s[i], s[k]);
    }
    TallyAll(UpTo(s[k]), a);
    TallySplits(UpTo(s[k]), a, b);
  }

  /** In a sorted list, at most `k` elements lie below the one at `k`. */
  lemma CountBelow(s: seq<real>, k: nat)
    requires Sorted(AtMost, s) && k < |s|
    ensures Tally(Below(s[k]), s) <= k
  {
    var a, b := s[..k], s[k..];
    assert s == a + b;
    forall i | 0 <= i < |b| ensures !Below(s[k])(b[i]) {
      assert b[i] == s[k + i] && (i > 0 ==> AtMost(s[k], s[k + i]));
    }
    TallyNone(Below(s[k]), b);
    TallySplits(Below(s[k]), a, b);
    TallyAtMostLength(Below(s[k]), a);
  }

  /** The percentile is a sample; at least its rank of the samples are at most it, and fewer than that
      lie strictly below. */
  lemma PercentileIsNearestRank(xs: seq<real>, q: real)
    requires xs != []
    ensures var r := PercentileOf(xs, q);
            r in xs && Rank(|xs|, q) <= Tally(UpTo(r), xs) && Tally(Below(r), xs) < Rank(|xs|, q)
  {
    var s, k := Sort(xs, AtMost), Rank(|xs|, q) - 1;
    SortedHere(xs);
    CountUpTo(s, k);
    CountBelow(s, k);
    TallyForgetsOrder(UpTo(s[k]), s, xs);
    TallyForgetsOrder(Below(s[k]), s, xs);
    assert s[k] in multiset(s);
  }

  /** For `q` up to one the rank is the ceiling of `n * q`, but at least one. */
  lemma RankIsCeiling(n: nat, q: real)
    requires 0 < n && q <= 1.0
    ensures Rank(n, q) == if Ceil(n as real * q) < 1 then 1 else Ceil(n as real * q)
  {
    AtMostWhole(n as real, q);
  }

  lemma AtMostWhole(x: real, q: real)
    requires 0.0 <= x && q <= 1.0
    ensures x * q <= x
  {
    var d := 1.0 - q;
    TimesNonNegative(x, d);
    assert x * d == x - x * q;
  }

  lemma RankMonotone(n: nat, p: real, q: real)
    requires 0 < n && p <= q
    ensures Rank(n, p) <= Rank(n, q)
  {
    var x, d := n as real, q - p;
    TimesNonNegative(x, d);
    assert x * d == x * q - x * p;
  }

  /** The percentile does not fall as `q` grows. */
  lemma PercentileMonotone(xs: seq<real>, p: real, q: real)
    requires p <= q
    ensures PercentileOf(xs, p) <= PercentileOf(xs, q)
  {
    if xs != [] {
      SortedHere(xs);
      RankMonotone(|xs|, p, q);
      if Rank(|xs|, p) < Rank(|xs|, q) {
        assert AtMost(Sort(xs, AtMost)[Rank(|xs|, p) - 1], Sort(xs, AtMost)[Rank(|xs|, q) - 1]);
      }
    }
  }

  /** The order in which samples arrive does not reach the percentile. */
  lemma PercentileForgetsOrder(xs: seq<real>, ys: seq<real>, q: real)
    requires multiset(xs) == multiset(ys)
    ensures PercentileOf(xs, q) == PercentileOf(ys, q)
  {
    assert |xs| == |multiset(xs)| == |multiset(ys)| == |ys|;
    assert TotalPreorder(AtMost);
    assert Separates(AtMost, xs);
    SortForgetsOrder(xs, ys, AtMost);
  }

  // ---- workers ----

  /** How one operation, or one connection attempt, comes out. */
  datatype Attempt = Ok(ms: real) | TimedOut | Failed

  /** What a worker reports. */
  datatype Stat = Stat(ops: nat, errors: nat, timeouts: nat, latMs: seq<real>)

  const NOTHING := Stat(0, 0, 0, [])

  function Add(t: Stat, a: Attempt): Stat {
    match a
    case Ok(ms) => t.(ops := t.ops + 1, latMs := t.latMs + [ms])
    case TimedOut => t.(timeouts := t.timeouts + 1)
    case Failed => t.(errors := t.errors + 1)
  }

  function StatOf(attempts: seq<Attempt>): Stat {
    if attempts == [] then NOTHING else Add(StatOf(attempts[..|attempts| - 1]), attempts[|attempts| - 1])
  }

  /** A worker that never connects reports that and runs nothing. */
  function WorkerStatOf(connection: Attempt, attempts: seq<Attempt>): Stat {
    if connection.Ok? then StatOf(attempts) else Add(NOTHING, connection)
  }

  class WorkerStat {
    var ops: nat
    var errors: nat
    var timeouts: nat
    var latMs: seq<real>

    function Value(): Stat
      reads this
    {
      Stat(ops, errors, timeouts, latMs)
    }

    constructor ()
      ensures Value() == NOTHING
    {
      ops, errors, timeouts, latMs := 0, 0, 0, [];
    }

    method RecordErr(e: Attempt)
      requires !e.Ok?
      modifies this
      ensures Value() == Add(old(Value()), e)
    {
      if e.TimedOut? {
        timeouts := timeouts + 1;
      } else {
        errors := errors + 1;
      }
    }

    method RecordOk(ms: real)
      modifies this
      ensures Value() == Add(old(Value()), Ok(ms))
    {
      ops := ops + 1;
      latMs := latMs + [ms];
    }
  }

  /** `worker_loop`, over the attempts that fit before the deadline. */
  method WorkerLoop(connection: Attempt, attempts: seq<Attempt>) returns (stat: WorkerStat)
    ensures stat.Value() == WorkerStatOf(connection, attempts)
  {
    stat := new WorkerStat();
    if !connection.Ok? {
      stat.RecordErr(connection);
      return;
    }
    for i := 0 to |attempts|
      invariant stat.Value() == StatOf(attempts[..i]) && fresh(stat)
    {
      assert attempts[..i + 1][..i] == attempts[..i];
      match attempts[i] {
        case Ok(ms) => stat.RecordOk(ms);
        case _ => stat.RecordErr(attempts[i]);
      }
    }
    assert attempts[..|attempts|] == attempts;
  }

  ghost predicate Balanced(t: Stat) { |t.latMs| == t.ops }

  /** A worker keeps one latency per completed operation, and accounts for every attempt. */
  lemma {:induction false} StatBalances(attempts: seq<Attempt>)
    ensures var t := StatOf(attempts); Balanced(t) && t.ops + t.errors + t.timeouts == |attempts|
  {
    if attempts != [] {
      StatBalances(attempts[..|attempts| - 1]);
    }
  }

  lemma WorkerBalances(connection: Attempt, attempts: seq<Attempt>)
    ensures var t := WorkerStatOf(connection, attempts);
            Balanced(t) && t.ops + t.errors + t.timeouts == if connection.Ok? then |attempts| else 1
  {
    StatBalances(attempts);
  }

  // ---- joining ----

  /** A joined worker: its tally, or `None` if the task panicked. */
  type Joined = Option<Stat>

  function Plus(a: Stat, b: Stat): Stat {
    Stat(a.ops + b.ops, a.errors + b.errors, a.timeouts + b.timeouts, a.latMs + b.latMs)
  }

  /** A panicked worker counts as one error. */
  function Contribution(j: Joined): Stat {
    match j
    case None => Stat(0, 1, 0, [])
    case Some(stat) => stat
  }

  lemma PlusAssociates(a: Stat, b: Stat, c: Stat)
    ensures Plus(Plus(a, b), c) == Plus(a, Plus(b, c))
  {
    assert a.latMs + b.latMs + c.latMs == a.latMs + (b.latMs + c.latMs);
  }

  lemma PlusNothing(a: Stat)
    ensures Plus(a, NOTHING) == a
  {
    assert a.latMs + [] == a.latMs;
  }

  type Monoid = (Stat, Stat) -> Stat

  /** The merged tally, over any way of adding two tallies. */
  function MergeWith(plus: Monoid, joined: seq<Joined>): Stat {
    if joined == [] then NOTHING else plus(MergeWith(plus, joined[..|joined| - 1]), Contribution(joined[|joined| - 1]))
  }

  lemma {:induction false} MergeWithSplits(plus: Monoid, s: seq<Joined>, t: seq<Joined>)
    requires forall a, b, c :: plus(plus(a, b), c) == plus(a, plus(b, c))
    requires forall a :: plus(a, NOTHING) == a
    ensures MergeWith(plus, s + t) == plus(MergeWith(plus, s), MergeWith(plus, t))
  {
    if t == [] {
      assert s + t == s;
    } else {
      MergeWithSplits(plus, s, t[..|t| - 1]);
      assert (s + t)[..|s + t| - 1] == s + t[..|t| - 1];
    }
  }

  function MergeAll(joined: seq<Joined>): Stat { MergeWith(Plus, joined) }

  lemma MergeAllNext(joined: seq<Joined>, i: nat)
    requires i < |joined|
    ensures MergeAll(joined[..i + 1]) == Plus(MergeAll(joined[..i]), Contribution(joined[i]))
  {
    assert joined[..i + 1][..i] == joined[..i];
  }

  datatype Throughput = Throughput(ops: nat, errors: nat, timeouts: nat, p50Ms: real, p99Ms: real)

  function Report(joined: seq<Joined>): Throughput {
    var t := MergeAll(joined);
    Throughput(t.ops, t.errors, t.timeouts, PercentileOf(t.latMs, 0.50), PercentileOf(t.latMs, 0.99))
  }

  /** The join loop of `measure_verb`, over the workers in the order they finish. */
  method AddUp(joined: seq<Joined>) returns (ops: nat, errors: nat, timeouts: nat, latMs: seq<real>)
    ensures Stat(ops, errors, timeouts, latMs) == MergeAll(joined)
  {
    ops, errors, timeouts, latMs := 0, 0, 0, [];
    for i := 0 to |joined|
      invariant Stat(ops, errors, timeouts, latMs) == MergeAll(joined[..i])
    {
      MergeAllNext(joined, i);
      ghost var before := latMs;
      match joined[i] {
        case Some(stat) =>
          ops, errors, timeouts := ops + stat.ops, errors + stat.errors, timeouts + stat.timeouts;
          latMs := latMs + stat.latMs;
        case None =>
          errors := errors + 1;
          assert before + [] == before;
      }
    }
    assert joined[..|joined|] == joined;
  }

  /** The second percentile sorts samples the first has already sorted. */
  method Quantiles(latMs: seq<real>) returns (p50: real, p99: real)
    ensures p50 == PercentileOf(latMs, 0.50) && p99 == PercentileOf(latMs, 0.99)
  {
    var samples := new real[|latMs|](i requires 0 <= i < |latMs| => latMs[i]);
    assert samples[..] == latMs;
    p50 := Percentile(samples, 0.50);
    SortedHere(latMs);
    PercentileForgetsOrder(samples[..], latMs, 0.99);
    p99 := Percentile(samples, 0.99);
  }

  method JoinWorkers(joined: seq<Joined>) returns (r: Throughput)
    ensures r == Report(joined)
  {
    var ops, errors, timeouts, latMs := AddUp(joined);
    var p50, p99 := Quantiles(latMs);
    r := Throughput(ops, errors, timeouts, p50, p99);
  }

  lemma MergeSplits(s: seq<Joined>, t: seq<Joined>)
    ensures MergeAll(s + t) == Plus(MergeAll(s), MergeAll(t))
  {
    forall a: Stat, b: Stat, c: Stat ensures Plus(Plus(a, b), c) == Plus(a, Plus(b, c)) {
      PlusAssociates(a, b, c);
    }
    forall a: Stat ensures Plus(a, NOTHING) == a {
      PlusNothing(a);
    }
    MergeWithSplits(Plus, s, t);
  }

  /** Two tallies that differ at most in the order of their latencies. */
  ghost predicate Alike(a: Stat, b: Stat) {
    a.ops == b.ops && a.errors == b.errors && a.timeouts == b.timeouts && multiset(a.latMs) == multiset(b.latMs)
  }

  lemma {:induction false} MergeForgetsOrder(s: seq<Joined>, t: seq<Joined>)
    requires multiset(s) == multiset(t)
    ensures Alike(MergeAll(s), MergeAll(t))
  {
    if s == [] {
      assert |t| == |multiset(t)| == 0;
    } else {
      var k := TakeOutLast(s, t);
      MergeForgetsOrder(s[..|s| - 1], t[..k] + t[k + 1..]);
      MergeMiddle(t[..k], t[k], t[k + 1..]);
      assert t == t[..k] + [t[k]] + t[k + 1..];
    }
  }

  lemma MergeOne(x: Joined)
    ensures MergeAll([x]) == Contribution(x)
  {
    NothingPlus(Contribution(x));
    MergeWithOne(Plus, x);
  }

  lemma MergeWithOne(plus: Monoid, x: Joined)
    requires plus(NOTHING, Contribution(x)) == Contribution(x)
    ensures MergeWith(plus, [x]) == Contribution(x)
  {
    var one := [x];
    assert one[..0] == [];
  }

  lemma NothingPlus(a: Stat)
    ensures Plus(NOTHING, a) == a
  {
    assert [] + a.latMs == a.latMs;
  }

  lemma MergeMiddle(a: seq<Joined>, x: Joined, b: seq<Joined>)
    ensures Alike(MergeAll(a + [x] + b), Plus(MergeAll(a + b), Contribution(x)))
  {
    MergeSplits(a + [x], b);
    MergeSplits(a, [x]);
    MergeOne(x);
    MergeSplits(a, b);
    MiddleLast(MergeAll(a), Contribution(x), MergeAll(b));
  }

  lemma MiddleLast(a: Stat, x: Stat, b: Stat)
    ensures Alike(Plus(Plus(a, x), b), Plus(Plus(a, b), x))
  {
  }

  /** Nothing in the report depends on the order in which the workers finish. */
  lemma ReportForgetsOrder(s: seq<Joined>, t: seq<Joined>)
    requires multiset(s) == multiset(t)
    ensures Report(s) == Report(t)
  {
    MergeForgetsOrder(s, t);
    PercentileForgetsOrder(MergeAll(s).latMs, MergeAll(t).latMs, 0.50);
    PercentileForgetsOrder(MergeAll(s).latMs, MergeAll(t).latMs, 0.99);
  }

  // ---- from the workers to the report ----

  /** A spawned worker: it ran over its connection and attempts, or its task panicked. */
  datatype Worker = Ran(connection: Attempt, attempts: seq<Attempt>) | Panicked

  function JoinedOf(w: Worker): Joined {
    match w
    case Ran(connection, attempts) => Some(WorkerStatOf(connection, attempts))
    case Panicked => None
  }

  function JoinedAll(workers: seq<Worker>): seq<Joined> {
    if workers == [] then [] else JoinedAll(workers[..|workers| - 1]) + [JoinedOf(workers[|workers| - 1])]
  }

  /** What a worker has to account for: its attempts, or the one connection or task that failed. */
  function Owed(w: Worker): nat {
    match w
    case Ran(connection, attempts) => if connection.Ok? then |attempts| else 1
    case Panicked => 1
  }

  function OwedByAll(workers: seq<Worker>): nat {
    if workers == [] then 0 else OwedByAll(workers[..|workers| - 1]) + Owed(workers[|workers| - 1])
  }

  ghost predicate Accounts(t: Stat, owed: nat) { Balanced(t) && t.ops + t.errors + t.timeouts == owed }

  lemma WorkerAccounts(w: Worker)
    ensures Accounts(Contribution(JoinedOf(w)), Owed(w))
  {
    if w.Ran? {
      WorkerBalances(w.connection, w.attempts);
    }
  }

  lemma PlusAccounts(a: Stat, m: nat, b: Stat, n: nat)
    requires Accounts(a, m) && Accounts(b, n)
    ensures Accounts(Plus(a, b), m + n)
  {
  }

  lemma MergeAllPush(joined: seq<Joined>, j: Joined)
    ensures MergeAll(joined + [j]) == Plus(MergeAll(joined), Contribution(j))
  {
    MergeAllNext(joined + [j], |joined|);
    assert (joined + [j])[..|joined| + 1] == joined + [j];
  }

  lemma {:induction false} MergeAccounts(workers: seq<Worker>)
    ensures Accounts(MergeAll(JoinedAll(workers)), OwedByAll(workers))
  {
    if workers != [] {
      var before, w := workers[..|workers| - 1], workers[|workers| - 1];
      MergeAccounts(before);
      WorkerAccounts(w);
      MergeAllPush(JoinedAll(before), JoinedOf(w));
      PlusAccounts(MergeAll(JoinedAll(before)), OwedByAll(before), Contribution(JoinedOf(w)), Owed(w));
    }
  }

  /** From what the workers went through to what is reported: every attempt, failed connection and
      panic is counted exactly once, as many latencies are collected as operations, and the median is
      never above the 99th percentile. */
  lemma JoinedBalances(workers: seq<Worker>)
    ensures var joined := JoinedAll(workers);
            var r := Report(joined);
            && r.ops + r.errors + r.timeouts == OwedByAll(workers)
            && |MergeAll(joined).latMs| == r.ops
            && r.p50Ms <= r.p99Ms
  {
    MergeAccounts(workers);
    PercentileMonotone(MergeAll(JoinedAll(workers)).latMs, 0.50, 0.99);
  }

  // ---- what the report counts ----

  /** What happened to a worker: its attempts, or the connection or the task that failed. */
  function Events(w: Worker): seq<Attempt> {
    match w
    case Panicked => [Failed]
    case Ran(connection, attempts) => if connection.Ok? then attempts else [connection]
  }

  function AllEvents(workers: seq<Worker>): seq<Attempt> {
    if workers == [] then [] else AllEvents(workers[..|workers| - 1]) + Events(workers[|workers| - 1])
  }

  /** The latencies of those that completed, in order. */
  function Latencies(events: seq<Attempt>): seq<real> {
    if events == [] then []
    else Latencies(events[..|events| - 1]) + if events[|events| - 1].Ok? then [events[|events| - 1].ms] else []
  }

  predicate IsOk(a: Attempt) { a.Ok? }

  predicate IsTimeout(a: Attempt) { a == TimedOut }

  predicate IsFailure(a: Attempt) { a == Failed }

  ghost predicate Sums(t: Stat, events: seq<Attempt>) {
    && t.ops == Tally(IsOk, events) && t.errors == Tally(IsFailure, events) && t.timeouts == Tally(IsTimeout, events)
    && t.latMs == Latencies(events)
  }

  lemma AddSums(t: Stat, events: seq<Attempt>, a: Attempt)
    requires Sums(t, events)
    ensures Sums(Add(t, a), events + [a])
  {
    TallyPush(IsOk, events, a);
    TallyPush(IsFailure, events, a);
    TallyPush(IsTimeout, events, a);
    assert (events + [a])[..|events|] == events;
    assert Latencies(events) + [] == Latencies(events);
  }

  lemma {:induction false} StatSums(attempts: seq<Attempt>)
    ensures Sums(StatOf(attempts), attempts)
  {
    if attempts != [] {
      StatSums(attempts[..|attempts| - 1]);
      AddSums(StatOf(attempts[..|attempts| - 1]), attempts[..|attempts| - 1], attempts[|attempts| - 1]);
      assert attempts[..|attempts| - 1] + [attempts[|attempts| - 1]] == attempts;
    }
  }

  lemma WorkerSums(w: Worker)
    ensures Sums(Contribution(JoinedOf(w)), Events(w))
  {
    match w {
      case Panicked =>
        AddSums(NOTHING, [], Failed);
        assert [] + [Failed] == [Failed];
      case Ran(connection, attempts) =>
        StatSums(attempts);
        AddSums(NOTHING, [], connection);
        assert [] + [connection] == [connection];
    }
  }

  lemma {:induction false} LatenciesConcat(a: seq<Attempt>, b: seq<Attempt>)
    ensures Latencies(a + b) == Latencies(a) + Latencies(b)
  {
    if b == [] {
      assert a + b == a;
    } else {
      LatenciesConcat(a, b[..|b| - 1]);
      assert (a + b)[..|a + b| - 1] == a + b[..|b| - 1];
    }
  }

  lemma PlusSums(s: Stat, a: seq<Attempt>, t: Stat, b: seq<Attempt>)
    requires Sums(s, a) && Sums(t, b)
    ensures Sums(Plus(s, t), a + b)
  {
    TallySplits(IsOk, a, b);
    TallySplits(IsFailure, a, b);
    TallySplits(IsTimeout, a, b);
    LatenciesConcat(a, b);
  }

  lemma {:induction false} MergeSums(workers: seq<Worker>)
    ensures Sums(MergeAll(JoinedAll(workers)), AllEvents(workers))
  {
    if workers != [] {
      var before, w := workers[..|workers| - 1], workers[|workers| - 1];
      MergeSums(before);
      WorkerSums(w);
      MergeAllPush(JoinedAll(before), JoinedOf(w));
      PlusSums(MergeAll(JoinedAll(before)), AllEvents(before), Contribution(JoinedOf(w)), Events(w));
    }
  }

  /** `r` is a sample with at least `percent` of a hundred samples at most it, and fewer below it. */
  ghost predicate IsNearest(r: real, xs: seq<real>, percent: nat) {
    && r in xs
    && percent * |xs| <= 100 * Tally(UpTo(r), xs)
    && 100 * Tally(Below(r), xs) < percent * |xs|
  }

  lemma PartIs(n: nat, q: real, percent: nat)
    requires q == percent as real / 100.0
    ensures (n as real * q) * 100.0 == (percent * n) as real
  {
    var p := percent as real;
    assert q * 100.0 == p;
    assert (n as real * q) * 100.0 == n as real * (q * 100.0);
    assert n as real * p == (percent * n) as real;
  }

  lemma RankOfPercent(n: nat, q: real, percent: nat, part: nat)
    requires 0 < n && 0 < percent <= 100 && q == percent as real / 100.0 && part == percent * n && 0 < part
    ensures part <= 100 * Rank(n, q) && 100 * (Rank(n, q) - 1) < part
  {
    RankIsCeiling(n, q);
    PartIs(n, q, percent);
    RankInPercent(n as real * q, part, Rank(n, q));
  }

  lemma PartPositive(n: nat, percent: nat)
    requires 0 < n && 0 < percent
    ensures 0 < percent * n
  {
  }

  lemma NearestIs(xs: seq<real>, q: real, percent: nat)
    requires xs != [] && 0 < percent <= 100 && q == percent as real / 100.0
    ensures IsNearest(PercentileOf(xs, q), xs, percent)
  {
    PercentileIsNearestRank(xs, q);
    PartPositive(|xs|, percent);
    RankOfPercent(|xs|, q, percent, percent * |xs|);
  }

  lemma RankInPercent(x: real, part: nat, k: nat)
    requires x * 100.0 == part as real && 0 < part && k == if Ceil(x) < 1 then 1 else Ceil(x)
    ensures part <= 100 * k && 100 * (k - 1) < part
  {
  }

  /** The report in terms of what happened: completed operations, failures with panics and refused
      connections, timeouts, and the two percentiles of the latencies of the operations. */
  lemma ReportExactly(workers: seq<Worker>)
    ensures var r, events := Report(JoinedAll(workers)), AllEvents(workers);
            && r.ops == Tally(IsOk, events) && r.errors == Tally(IsFailure, events)
            && r.timeouts == Tally(IsTimeout, events)
            && (Latencies(events) != [] ==>
                  IsNearest(r.p50Ms, Latencies(events), 50) && IsNearest(r.p99Ms, Latencies(events), 99))
            && (Latencies(events) == [] ==> r.p50Ms == 0.0 && r.p99Ms == 0.0)
  {
    MergeSums(workers);
    var xs := Latencies(AllEvents(workers));
    if xs != [] {
      NearestIs(xs, 0.50, 50);
      NearestIs(xs, 0.99, 99);
    }
  }
}
