/** The two exit rules of the write-drain barrier on the scrapes themselves: which series they watch,
    what is counted, and how often it has to be seen. */
module DrainRules {
  import opened Wrappers
  import opened Words
  import opened Text
  import opened Tallies
  import opened Metrics
  import opened Drain

  // ---- counters ----

  /** `count` is the total of a family, cut off below at zero, at its fraction, and above at 2^64 - 1. */
  ghost predicate IsCount(scrape: seq<Sample>, family: string, count: nat) {
    var total := SeriesSum(scrape, family, "");
    if total.None? || total.value <= 0.0 then count == 0
    else if total.value < 18_446_744_073_709_551_615.0 then count as real <= total.value < count as real + 1.0
    else count == 18_446_744_073_709_551_615
  }

  /** `p` is `x` up to whole turns of 2^64, in the range of an i64. */
  ghost predicate WrapsTo(x: int, p: int) {
    -9_223_372_036_854_775_808 <= p < 9_223_372_036_854_775_808 && exists k: int :: x == p + Turn(k)
  }

  function Turn(k: int): int { k * 18_446_744_073_709_551_616 }

  lemma CountIs(scrape: seq<Sample>, family: string, count: nat)
    ensures IsCount(scrape, family, count) <==> count == ToU64(OrZero(SeriesSum(scrape, family, "")))
  {
  }

  lemma WrapIs(x: int, p: int)
    ensures WrapsTo(x, p) <==> p == Wrap(x)
  {
    WrapTurns(x, Turns(x));
    assert x == Wrap(x) + Turn(Turns(x));
    if WrapsTo(x, p) {
      var l :| x == p + Turn(l);
      WrapTurns(x, l);
    }
  }

  lemma WrapSum(a: int, b: int)
    ensures Wrap(Wrap(a) + Wrap(b)) == Wrap(a + b)
  {
    WrapAbsorbs(a, Wrap(b));
    WrapAbsorbs(b, a);
  }

  /** The progress of a scrape: both counters added, as an i64. */
  ghost predicate ProgressIs(scrape: seq<Sample>, p: int) {
    exists items: nat, rows: nat ::
      && IsCount(scrape, "brain_extractor_items_written_total", items)
      && IsCount(scrape, "brain_statement_embed_rows_embedded_total", rows)
      && WrapsTo(items + rows, p)
  }

  lemma ReadingProgress(scrape: seq<Sample>, p: int)
    ensures ProgressIs(scrape, p) <==> p == ReadingOf(scrape).progress
    ensures IsCount(scrape, "brain_extractor_items_written_total", ReadingOf(scrape).items)
    ensures IsCount(scrape, "brain_statement_embed_rows_embedded_total", ReadingOf(scrape).rows)
  {
    var r := ReadingOf(scrape);
    forall items: nat ensures IsCount(scrape, "brain_extractor_items_written_total", items) <==> items == r.items {
      CountIs(scrape, "brain_extractor_items_written_total", items);
    }
    forall rows: nat ensures IsCount(scrape, "brain_statement_embed_rows_embedded_total", rows) <==> rows == r.rows {
      CountIs(scrape, "brain_statement_embed_rows_embedded_total", rows);
    }
    WrapSum(r.items, r.rows);
    WrapIs(r.items + r.rows, p);
    assert WrapsTo(r.items + r.rows, p) <==> p == r.progress;
    if p == r.progress {
      assert IsCount(scrape, "brain_extractor_items_written_total", r.items);
      assert IsCount(scrape, "brain_statement_embed_rows_embedded_total", r.rows);
    }
  }

  // ---- the queue depth ----

  /** How many of the five write-path workers a label body names. */
  ghost function WorkersIn(labels: string): nat {
    (if Occurs(labels, "extractor") then 1 else 0) + (if Occurs(labels, "statement_embed") then 1 else 0) +
    (if Occurs(labels, "auto_edge") then 1 else 0) + (if Occurs(labels, "temporal_edge") then 1 else 0) +
    (if Occurs(labels, "causal_edge") then 1 else 0)
  }

  ghost predicate IsGauge(s: Sample) { s.name == "brain_worker_pending_work" && 0 < WorkersIn(s.labels) }

  ghost predicate CarriesGauge(scrape: seq<Sample>) { exists i :: 0 <= i < |scrape| && IsGauge(scrape[i]) }

  /** What a sample adds to the depth. */
  ghost function DepthOf(s: Sample): real {
    if s.name == "brain_worker_pending_work" then Times(s.value, WorkersIn(s.labels)) else 0.0
  }

  function Times(x: real, n: nat): real { x * n as real }

  /** The queue depth a scrape reports: every gauge sample, once for each worker it names. */
  ghost function Depth(scrape: seq<Sample>): real {
    if scrape == [] then 0.0
    else Depth(scrape[..|scrape| - 1]) + DepthOf(scrape[|scrape| - 1])
  }

  lemma NamedPush(labels: string, init: seq<string>, worker: string)
    ensures Named(labels, init + [worker]) == Named(labels, init) + if Occurs(labels, worker) then 1 else 0
  {
    assert (init + [worker])[..|init|] == init;
  }

  lemma NamedAreWorkers(labels: string, workers: seq<string>)
    requires workers == DRAIN_WORKERS
    ensures Named(labels, workers) == WorkersIn(labels)
  {
    var w := DRAIN_WORKERS;
    NamedPush(labels, [], w[0]);
    NamedPush(labels, [w[0]], w[1]);
    NamedPush(labels, [w[0], w[1]], w[2]);
    NamedPush(labels, [w[0], w[1], w[2]], w[3]);
    NamedPush(labels, [w[0], w[1], w[2], w[3]], w[4]);
    assert [] + [w[0]] == [w[0]];
    assert [w[0]] + [w[1]] == [w[0], w[1]];
    assert [w[0], w[1]] + [w[2]] == [w[0], w[1], w[2]];
    assert [w[0], w[1], w[2]] + [w[3]] == [w[0], w[1], w[2], w[3]];
    assert [w[0], w[1], w[2], w[3]] + [w[4]] == w;
  }

  lemma NamesByCount(s: Sample, workers: seq<string>)
    ensures NamesWorker(s, workers) <==> s.name == "brain_worker_pending_work" && 0 < Named(s.labels, workers)
    ensures ValuePerWorker(workers)(s) ==
            if s.name == "brain_worker_pending_work" then Times(s.value, Named(s.labels, workers)) else 0.0
  {
    NamedIsPositive(s.labels, workers);
  }

  lemma GaugeSample(s: Sample, workers: seq<string>)
    requires workers == DRAIN_WORKERS
    ensures NamesWorker(s, workers) <==> IsGauge(s)
  {
    NamedAreWorkers(s.labels, workers);
    NamesByCount(s, workers);
  }

  lemma GaugeValue(s: Sample, workers: seq<string>)
    requires workers == DRAIN_WORKERS
    ensures ValuePerWorker(workers)(s) == DepthOf(s)
  {
    NamedAreWorkers(s.labels, workers);
    NamesByCount(s, workers);
  }

  lemma {:induction false} DepthIsTotal(scrape: seq<Sample>, f: Sample -> real)
    requires forall s {:trigger f(s)} :: f(s) == DepthOf(s)
    ensures Total(f, scrape) == Depth(scrape)
  {
    if scrape != [] {
      DepthIsTotal(scrape[..|scrape| - 1], f);
    }
  }

  lemma PendingIsDepth(scrape: seq<Sample>, workers: seq<string>)
    requires workers == DRAIN_WORKERS
    ensures PendingOver(scrape, workers) == if CarriesGauge(scrape) then Some(Depth(scrape)) else None
  {
    PendingIsPerSample(scrape, workers);
    forall s ensures (NamesWorker(s, workers) <==> IsGauge(s)) && ValuePerWorker(workers)(s) == DepthOf(s) {
      GaugeSample(s, workers);
      GaugeValue(s, workers);
    }
    DepthIsTotal(scrape, ValuePerWorker(workers));
  }

  // ---- the rules ----

  /** The successful scrapes among the first `n` polls. */
  function Scrapes(h: History, n: nat): seq<seq<Sample>> {
    if n == 0 then []
    else Scrapes(h, n - 1) + if h(n - 1).scrape.Some? then [h(n - 1).scrape.value] else []
  }

  /** Those that carry the gauge. */
  ghost function GaugeScrapes(ss: seq<seq<Sample>>): seq<seq<Sample>> {
    if ss == [] then []
    else GaugeScrapes(ss[..|ss| - 1]) + if CarriesGauge(ss[|ss| - 1]) then [ss[|ss| - 1]] else []
  }

  /** The latest scrape carries the gauge, a second has passed, and the last four scrapes with the gauge
      report an empty queue. */
  ghost predicate QueueIsEmpty(ss: seq<seq<Sample>>, verdict: nat) {
    var g := GaugeScrapes(ss);
    && ss != [] && CarriesGauge(ss[|ss| - 1]) && 1_000_000_000 <= verdict
    && 4 <= |g| && forall i :: |g| - 4 <= i < |g| ==> Depth(g[i]) == 0.0
  }

  /** No scrape carries the gauge, and the last 241 of them agree on a positive progress. */
  ghost predicate HasPlateaued(ss: seq<seq<Sample>>) {
    && (forall i :: 0 <= i < |ss| ==> !CarriesGauge(ss[i]))
    && 241 <= |ss| && exists p: int :: 0 < p && EndAgrees(ss, 241, p)
  }

  ghost predicate EndAgrees(ss: seq<seq<Sample>>, k: nat, p: int) {
    forall i :: |ss| - k <= i < |ss| && 0 <= i ==> ProgressIs(ss[i], p)
  }

  lemma {:induction false} ReadingsAre(h: History, n: nat)
    ensures var rs, ss := Readings(h, n, TheReader()), Scrapes(h, n);
            |rs| == |ss| && forall i :: 0 <= i < |ss| ==> rs[i] == ReadingOf(ss[i])
  {
    if n > 0 {
      ReadingsAre(h, n - 1);
    }
  }

  lemma {:induction false} GaugesAre(rs: seq<Reading>, ss: seq<seq<Sample>>)
    requires |rs| == |ss| && forall i :: 0 <= i < |ss| ==> rs[i] == ReadingOf(ss[i])
    ensures var g := GaugeScrapes(ss);
            |Gauges(rs)| == |g| && forall i :: 0 <= i < |g| ==> Gauges(rs)[i] == Depth(g[i])
  {
    if ss != [] {
      GaugesAre(rs[..|rs| - 1], ss[..|ss| - 1]);
      PendingIsDepth(ss[|ss| - 1], DRAIN_WORKERS);
    }
  }

  lemma {:induction false} NoGauges(ss: seq<seq<Sample>>)
    ensures GaugeScrapes(ss) == [] <==> forall i :: 0 <= i < |ss| ==> !CarriesGauge(ss[i])
  {
    if ss != [] {
      NoGauges(ss[..|ss| - 1]);
    }
  }

  lemma {:induction false} ProgressesAre(rs: seq<Reading>)
    ensures |Progresses(rs)| == |rs| && forall i :: 0 <= i < |rs| ==> Progresses(rs)[i] == rs[i].progress
  {
    if rs != [] {
      ProgressesAre(rs[..|rs| - 1]);
    }
  }

  lemma QueueRuleIs(rs: seq<Reading>, ss: seq<seq<Sample>>, verdict: nat)
    requires |rs| == |ss| && forall i :: 0 <= i < |ss| ==> rs[i] == ReadingOf(ss[i])
    ensures QueueEmpty(rs, verdict) <==> QueueIsEmpty(ss, verdict)
  {
    GaugesAre(rs, ss);
    if ss != [] {
      PendingIsDepth(ss[|ss| - 1], DRAIN_WORKERS);
    }
  }

  lemma EndAgreesIs(rs: seq<Reading>, ss: seq<seq<Sample>>, p: int)
    requires |rs| == |ss| && forall i :: 0 <= i < |ss| ==> rs[i] == ReadingOf(ss[i])
    requires 241 <= |ss|
    ensures EndAgrees(ss, 241, p) <==> EndsWith(Progresses(rs), 241, p)
  {
    ProgressesAre(rs);
    forall i | 0 <= i < |ss| ensures ProgressIs(ss[i], p) <==> p == Progresses(rs)[i] {
      ReadingProgress(ss[i], p);
    }
  }

  lemma PlateauRuleIs(rs: seq<Reading>, ss: seq<seq<Sample>>)
    requires |rs| == |ss| && forall i :: 0 <= i < |ss| ==> rs[i] == ReadingOf(ss[i])
    ensures Plateau(rs) <==> HasPlateaued(ss)
  {
    GaugesAre(rs, ss);
    NoGauges(ss);
    ProgressesAre(rs);
    if 241 <= |ss| {
      forall p ensures EndAgrees(ss, 241, p) <==> EndsWith(Progresses(rs), 241, p) {
        EndAgreesIs(rs, ss, p);
      }
      assert forall p :: EndsWith(Progresses(rs), 241, p) ==> p == rs[|rs| - 1].progress;
    }
  }

  /** Poll `i` is answered, and what has been scraped by then satisfies one of the rules. */
  ghost predicate Settled(h: History, i: nat) {
    h(i).scrape.Some? && (QueueIsEmpty(Scrapes(h, i + 1), h(i).verdict) || HasPlateaued(Scrapes(h, i + 1)))
  }

  lemma FiresExactly(h: History, i: nat)
    ensures Fires(h, i, TheReader()) <==> Settled(h, i)
  {
    ReadingsAre(h, i + 1);
    QueueRuleIs(Readings(h, i + 1, TheReader()), Scrapes(h, i + 1), h(i).verdict);
    PlateauRuleIs(Readings(h, i + 1, TheReader()), Scrapes(h, i + 1));
  }

  /** The two counters of the last successful scrape, each under its own name; zeros before the first. */
  ghost predicate Reports(stats: Stats, ss: seq<seq<Sample>>) {
    if ss == [] then stats.extractorItemsWritten == stats.statementRowsEmbedded == 0
    else
      && IsCount(ss[|ss| - 1], "brain_extractor_items_written_total", stats.extractorItemsWritten)
      && IsCount(ss[|ss| - 1], "brain_statement_embed_rows_embedded_total", stats.statementRowsEmbedded)
  }

  lemma LastScrape(h: History, n: nat)
    requires Scrapes(h, n) != []
    ensures var ss := Scrapes(h, n);
            var r := ReadingOf(ss[|ss| - 1]);
            LastAt(h, n, TheReader()) == (r.items, r.rows)
  {
    ReadingsAre(h, n);
    LastFromReadings(h, n, TheReader());
  }

  lemma CountersReported(h: History, n: nat, stats: Stats)
    requires (stats.extractorItemsWritten, stats.statementRowsEmbedded) == LastAt(h, n, TheReader())
    ensures Reports(stats, Scrapes(h, n))
  {
    var ss := Scrapes(h, n);
    if ss == [] {
      ReadingsAre(h, n);
      LastFromReadings(h, n, TheReader());
    } else {
      LastScrape(h, n);
      ReadingProgress(ss[|ss| - 1], 0);
    }
  }

  /** A poll takes time, and a quarter of a second passes before the next. */
  ghost predicate Paced(h: History, i: nat) {
    h(i).start <= h(i).verdict && h(i).verdict + 250_000_000 <= h(i + 1).start
  }

  lemma PacedIsClocked(h: History)
    requires forall i: nat :: Paced(h, i)
    ensures Clocked(h)
  {
    forall i: nat ensures Ticks(h, i) {
      assert Paced(h, i);
    }
  }

  /** `wait_for_write_flush` against any history of scrapes. It ends at poll `n`, the first at which a
      rule holds or ten minutes have passed; it reports `flushed` exactly when a rule held, with the
      counters of the last scrape that succeeded. */
  method WaitForWriteFlush(h: History) returns (stats: Stats, ghost n: nat)
    requires forall i: nat :: Paced(h, i)
    ensures stats.flushed <==> exists i: nat :: h(i).start < 600_000_000_000 && Settled(h, i)
    ensures n <= 2400 && forall j: nat :: j < n ==> h(j).start < 600_000_000_000 && !Settled(h, j)
    ensures if stats.flushed then h(n).start < 600_000_000_000 && Settled(h, n) else 600_000_000_000 <= h(n).start
    ensures Reports(stats, Scrapes(h, if stats.flushed then n + 1 else n))
  {
    ghost var read := TheReader();
    PacedIsClocked(h);
    TheReaderReads();
    stats, n := PollUntil(h, read);
    QuietPolls(h, n, read);
    ReturnsWhereRulesFire(h, n, read);
    forall i: nat ensures Fires(h, i, read) <==> Settled(h, i) {
      FiresExactly(h, i);
    }
    CountersReported(h, if stats.flushed then n + 1 else n, stats);
    if !stats.flushed {
      NoneInTimeAfter(h, n);
    }
    assert forall i: nat :: InTime(h, i) <==> h(i).start < 600_000_000_000;
  }
}
