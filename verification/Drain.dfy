/** The write-drain barrier: a poll loop over an arbitrary history of scrapes, with its two exit rules
    and its cap. Times are nanoseconds since the barrier started; `f64` is modelled by `real`. */
module Drain {
  import opened Wrappers
  import opened Words
  import opened Metrics

  const DRAIN_INTERVAL: nat := 250_000_000
  const DRAIN_STABLE_POLLS: nat := 4
  const DRAIN_MIN_WAIT: nat := 1_000_000_000
  const DRAIN_MAX_WAIT: nat := 600_000_000_000

  /** Sixty seconds of the interval. */
  const PLATEAU_POLLS: nat := 240

  /** One poll: when the loop condition read the clock, when the verdict did, and what was scraped. */
  datatype Poll = Poll(start: nat, verdict: nat, scrape: Option<seq<Sample>>)

  type History = nat -> Poll

  /** Poll `i` takes time, and ends with a sleep of one interval. */
  ghost predicate Ticks(h: History, i: nat) {
    h(i).start <= h(i).verdict && h(i).verdict + DRAIN_INTERVAL <= h(i + 1).start
  }

  ghost predicate Clocked(h: History) { forall i: nat :: Ticks(h, i) }

  lemma TimePasses(h: History, i: nat)
    requires Clocked(h)
    ensures h(i).start + DRAIN_INTERVAL <= h(i + 1).start
  {
    assert Ticks(h, i);
  }

  datatype Stats = Stats(extractorItemsWritten: nat, statementRowsEmbedded: nat, flushed: bool)

  // ---- reading one scrape ----

  /** `as u64` on a float: truncates and saturates. */
  function ToU64(x: real): (n: nat)
    ensures n <= U64_MAX
  {
    if x <= 0.0 then 0 else if U64_MAX as real <= x then U64_MAX else x.Floor
  }

  const ITEMS := "brain_extractor_items_written_total"
  const ROWS := "brain_statement_embed_rows_embedded_total"

  function OrZero(v: Option<real>): real { if v.Some? then v.value else 0.0 }

  /** What the loop takes from one scrape: both counters, the progress the plateau rule watches, and
      the queue depth if the server publishes it. */
  datatype Reading = Reading(items: nat, rows: nat, progress: int, pending: Option<real>)

  ghost function ReadingOf(scrape: seq<Sample>): Reading {
    var items, rows := ToU64(OrZero(SeriesSum(scrape, ITEMS, ""))), ToU64(OrZero(SeriesSum(scrape, ROWS, "")));
    Reading(items, rows, Wrap(Wrap(items) + Wrap(rows)), PendingOver(scrape, DRAIN_WORKERS))
  }

  type Reader = seq<Sample> -> Reading

  ghost function TheReader(): Reader { (scrape: seq<Sample>) => ReadingOf(scrape) }

  ghost predicate IsReader(read: Reader) {
    forall scrape {:trigger ReadingOf(scrape)} :: read(scrape) == ReadingOf(scrape)
  }

  lemma TheReaderReads()
    ensures IsReader(TheReader())
  {
  }

  method ReadScrape(scrape: seq<Sample>, ghost read: Reader) returns (r: Reading)
    requires IsReader(read)
    ensures r == read(scrape)
  {
    var items := Sum(scrape, ITEMS);
    var rows := Sum(scrape, ROWS);
    var ex, em := ToU64(OrZero(items)), ToU64(OrZero(rows));
    var pending := PendingWriteWork(scrape);
    r := Reading(ex, em, Wrap(Wrap(ex) + Wrap(em)), pending);
    assert r == ReadingOf(scrape);
  }

  // ---- the history so far ----

  /** The readings of the successful scrapes among the first `n` polls. */
  ghost function Readings(h: History, n: nat, read: Reader): seq<Reading> {
    if n == 0 then []
    else if h(n - 1).scrape.None? then Readings(h, n - 1, read)
    else Readings(h, n - 1, read) + [read(h(n - 1).scrape.value)]
  }

  /** The queue depths, from the readings that carry the gauge. */
  function Gauges(rs: seq<Reading>): seq<real> {
    if rs == [] then []
    else Gauges(rs[..|rs| - 1]) + if rs[|rs| - 1].pending.Some? then [rs[|rs| - 1].pending.value] else []
  }

  function Progresses(rs: seq<Reading>): seq<int> {
    if rs == [] then [] else Progresses(rs[..|rs| - 1]) + [rs[|rs| - 1].progress]
  }

  // ---- the two exit rules ----

  /** The last `k` elements exist and are all `x`. */
  ghost predicate EndsWith<T>(s: seq<T>, k: nat, x: T) {
    k <= |s| && forall i :: |s| - k <= i < |s| ==> s[i] == x
  }

  /** The latest scrape carries the gauge, at or after the minimum wait, and the last four readings of
      the gauge are zero. */
  ghost predicate QueueEmpty(rs: seq<Reading>, verdict: nat) {
    && rs != [] && rs[|rs| - 1].pending.Some? && DRAIN_MIN_WAIT <= verdict
    && EndsWith(Gauges(rs), DRAIN_STABLE_POLLS, 0.0)
  }

  /** No scrape ever carried the gauge, and the last 241 successful ones report the same positive
      progress. */
  ghost predicate Plateau(rs: seq<Reading>) {
    && rs != [] && Gauges(rs) == [] && 0 < rs[|rs| - 1].progress
    && EndsWith(Progresses(rs), PLATEAU_POLLS + 1, rs[|rs| - 1].progress)
  }

  /** Poll `i` succeeds and one of the rules holds on the readings up to it. */
  ghost predicate Fires(h: History, i: nat, read: Reader) {
    h(i).scrape.Some? && (QueueEmpty(Readings(h, i + 1, read), h(i).verdict) || Plateau(Readings(h, i + 1, read)))
  }

  ghost predicate InTime(h: History, i: nat) { h(i).start < DRAIN_MAX_WAIT }

  // ---- the loop's variables ----

  datatype Vars = Vars(stable: nat, plateauLast: int, plateauStable: nat, gaugeSeen: bool)

  const START := Vars(0, -1, 0, false)

  /** What one reading does to them. */
  function Next(v: Vars, r: Reading): Vars {
    if r.pending.Some? then v.(gaugeSeen := true, stable := if r.pending.value == 0.0 then v.stable + 1 else 0)
    else if v.gaugeSeen then v
    else v.(plateauLast := r.progress, plateauStable := if r.progress == v.plateauLast then v.plateauStable + 1 else 0)
  }

  function After(rs: seq<Reading>): Vars {
    if rs == [] then START else Next(After(rs[..|rs| - 1]), rs[|rs| - 1])
  }

  /** Whether the loop returns on a reading that leaves its variables at `v`. */
  predicate Returns(v: Vars, r: Reading, verdict: nat) {
    if r.pending.Some? then DRAIN_MIN_WAIT <= verdict && DRAIN_STABLE_POLLS <= v.stable
    else !v.gaugeSeen && 0 < r.progress && PLATEAU_POLLS <= v.plateauStable
  }

  /** The variables, and the counters of the last successful scrape, after `n` polls. */
  ghost function VarsAt(h: History, n: nat, read: Reader): Vars {
    if n == 0 then START
    else if h(n - 1).scrape.None? then VarsAt(h, n - 1, read)
    else Next(VarsAt(h, n - 1, read), read(h(n - 1).scrape.value))
  }

  ghost function LastAt(h: History, n: nat, read: Reader): (nat, nat) {
    if n == 0 then (0, 0)
    else if h(n - 1).scrape.None? then LastAt(h, n - 1, read)
    else (read(h(n - 1).scrape.value).items, read(h(n - 1).scrape.value).rows)
  }

  ghost predicate ReturnsAt(h: History, i: nat, read: Reader) {
    h(i).scrape.Some? && Returns(VarsAt(h, i + 1, read), read(h(i).scrape.value), h(i).verdict)
  }

  // ---- the variables say what the history says ----

  /** `s` counts the readings, back from the last, that are zero. */
  ghost predicate ZeroRun(g: seq<real>, s: nat) {
    EndsWith(g, s, 0.0) && (s < |g| ==> g[|g| - 1 - s] != 0.0)
  }

  /** `s` counts how often, back from the last, progress repeated the value before it; before the first
      reading that value is -1. */
  ghost predicate Repeats(c: seq<int>, last: int, s: nat) {
    var ext := [-1] + c;
    last == ext[|ext| - 1] && EndsWith(ext, s + 1, last) && (s + 1 < |ext| ==> ext[|ext| - 2 - s] != last)
  }

  lemma ZeroRunPush(g: seq<real>, s: nat, v: real)
    requires ZeroRun(g, s)
    ensures ZeroRun(g + [v], if v == 0.0 then s + 1 else 0)
  {
  }

  lemma ZeroRunMeans(g: seq<real>, s: nat, k: nat)
    requires ZeroRun(g, s)
    ensures k <= s <==> EndsWith(g, k, 0.0)
  {
    if s < k <= |g| {
      assert g[|g| - 1 - s] != 0.0;
    }
  }

  lemma RepeatsPush(c: seq<int>, last: int, s: nat, v: int)
    requires Repeats(c, last, s)
    ensures Repeats(c + [v], v, if v == last then s + 1 else 0)
  {
    assert [-1] + (c + [v]) == [-1] + c + [v];
  }

  lemma RepeatsMeans(c: seq<int>, last: int, s: nat, k: nat)
    requires Repeats(c, last, s) && 0 < last
    ensures k <= s <==> EndsWith(c, k + 1, last)
  {
    var ext := [-1] + c;
    assert forall i :: 0 <= i < |c| ==> c[i] == ext[i + 1];
    if k <= s {
      assert ext[0] == -1 != last;
    } else if k + 1 <= |c| {
      assert ext[|ext| - 2 - s] == c[|c| - 2 - s];
    }
  }

  lemma ReadingsPush(rs: seq<Reading>, r: Reading)
    ensures Gauges(rs + [r]) == Gauges(rs) + if r.pending.Some? then [r.pending.value] else []
    ensures Progresses(rs + [r]) == Progresses(rs) + [r.progress]
    ensures After(rs + [r]) == Next(After(rs), r)
  {
    assert (rs + [r])[..|rs|] == rs;
  }

  ghost predicate Tracks(rs: seq<Reading>, v: Vars) {
    && ZeroRun(Gauges(rs), v.stable)
    && (v.gaugeSeen <==> Gauges(rs) != [])
    && (!v.gaugeSeen ==> Repeats(Progresses(rs), v.plateauLast, v.plateauStable))
  }

  lemma TracksNext(rs: seq<Reading>, r: Reading, v: Vars)
    requires Tracks(rs, v)
    ensures Tracks(rs + [r], Next(v, r))
  {
    ReadingsPush(rs, r);
    if r.pending.Some? {
      ZeroRunPush(Gauges(rs), v.stable, r.pending.value);
    } else {
      assert Gauges(rs) + [] == Gauges(rs);
      if !v.gaugeSeen {
        RepeatsPush(Progresses(rs), v.plateauLast, v.plateauStable, r.progress);
      }
    }
  }

  lemma {:induction false} VarsTrack(rs: seq<Reading>)
    ensures Tracks(rs, After(rs))
  {
    if rs != [] {
      var init, r := rs[..|rs| - 1], rs[|rs| - 1];
      VarsTrack(init);
      TracksNext(init, r, After(init));
      assert init + [r] == rs;
    }
  }

  lemma LastReading(rs: seq<Reading>)
    requires rs != []
    ensures rs[|rs| - 1].pending.Some? ==> Gauges(rs) != []
    ensures Progresses(rs) != [] && Progresses(rs)[|Progresses(rs)| - 1] == rs[|rs| - 1].progress
  {
  }

  lemma QueueRule(rs: seq<Reading>, v: Vars, verdict: nat)
    requires rs != [] && rs[|rs| - 1].pending.Some? && Tracks(rs, v)
    ensures Returns(v, rs[|rs| - 1], verdict) <==> QueueEmpty(rs, verdict)
  {
    ZeroRunMeans(Gauges(rs), v.stable, DRAIN_STABLE_POLLS);
  }

  lemma PlateauRule(rs: seq<Reading>, v: Vars, verdict: nat)
    requires rs != [] && rs[|rs| - 1].pending.None? && Tracks(rs, v)
    ensures Returns(v, rs[|rs| - 1], verdict) <==> Plateau(rs)
  {
    LastReading(rs);
    if !v.gaugeSeen && 0 < rs[|rs| - 1].progress {
      assert v.plateauLast == rs[|rs| - 1].progress;
      RepeatsMeans(Progresses(rs), v.plateauLast, v.plateauStable, PLATEAU_POLLS);
    }
  }

  /** On any readings, the loop returns exactly when one of the two rules holds. */
  lemma ReturnsWhereRulesHold(rs: seq<Reading>, verdict: nat)
    requires rs != []
    ensures Returns(After(rs), rs[|rs| - 1], verdict) <==> QueueEmpty(rs, verdict) || Plateau(rs)
  {
    VarsTrack(rs);
    LastReading(rs);
    if rs[|rs| - 1].pending.Some? {
      QueueRule(rs, After(rs), verdict);
    } else {
      PlateauRule(rs, After(rs), verdict);
    }
  }

  lemma {:induction false} VarsFromReadings(h: History, n: nat, read: Reader)
    ensures VarsAt(h, n, read) == After(Readings(h, n, read))
  {
    if n > 0 {
      VarsFromReadings(h, n - 1, read);
      if h(n - 1).scrape.Some? {
        ReadingsPush(Readings(h, n - 1, read), read(h(n - 1).scrape.value));
      }
    }
  }

  /** The first `n` polls are made, and none of them ends the wait. */
  ghost predicate Quiet(h: History, n: nat, read: Reader) {
    n == 0 || (Quiet(h, n - 1, read) && InTime(h, n - 1) && !ReturnsAt(h, n - 1, read))
  }

  /** The loop of `wait_for_write_flush`. `n` is the number of polls before the one that decided. */
  method PollUntil(h: History, ghost read: Reader) returns (stats: Stats, ghost n: nat)
    requires Clocked(h) && IsReader(read)
    ensures Quiet(h, n, read)
    ensures if stats.flushed then InTime(h, n) && ReturnsAt(h, n, read) else !InTime(h, n)
    ensures (stats.extractorItemsWritten, stats.statementRowsEmbedded) ==
            LastAt(h, if stats.flushed then n + 1 else n, read)
  {
    var stable, lastEx, lastEm: nat := 0, 0, 0;
    var plateauLast, plateauStable, gaugeSeen := -1, 0, false;
    var i: nat := 0;
    while h(i).start < DRAIN_MAX_WAIT
      invariant Quiet(h, i, read)
      invariant (lastEx, lastEm) == LastAt(h, i, read)
      invariant VarsAt(h, i, read) == Vars(stable, plateauLast, plateauStable, gaugeSeen)
      decreases DRAIN_MAX_WAIT - h(i).start
    {
      TimePasses(h, i);
      if h(i).scrape.None? {
        i := i + 1;
        continue;
      }
      var r := ReadScrape(h(i).scrape.value, read);
      lastEx, lastEm := r.items, r.rows;
      if r.pending.Some? {
        gaugeSeen := true;
        if r.pending.value == 0.0 {
          stable := stable + 1;
        } else {
          stable := 0;
        }
        if DRAIN_MIN_WAIT <= h(i).verdict && DRAIN_STABLE_POLLS <= stable {
          return Stats(r.items, r.rows, true), i;
        }
      } else if !gaugeSeen {
        if r.progress == plateauLast {
          plateauStable := plateauStable + 1;
        } else {
          plateauStable := 0;
          plateauLast := r.progress;
        }
        if 0 < r.progress && PLATEAU_POLLS <= plateauStable {
          return Stats(r.items, r.rows, true), i;
        }
      }
      i := i + 1;
    }
    return Stats(lastEx, lastEm, false), i;
  }

  // ---- what the wait is worth ----

  /** The most polls that fit under the cap. */
  const MOST_POLLS: nat := 2400

  lemma {:induction false} PollsTakeTime(h: History, i: nat)
    requires Clocked(h)
    ensures i * DRAIN_INTERVAL <= h(i).start
  {
    if i > 0 {
      PollsTakeTime(h, i - 1);
      TimePasses(h, i - 1);
    }
  }

  /** The loop returns on poll `i` exactly when it succeeds and one of the two rules holds. */
  lemma ReturnsWhereRulesFire(h: History, i: nat, read: Reader)
    ensures ReturnsAt(h, i, read) <==> Fires(h, i, read)
  {
    if h(i).scrape.Some? {
      VarsFromReadings(h, i + 1, read);
      ReturnsWhereRulesHold(Readings(h, i + 1, read), h(i).verdict);
    }
  }

  lemma {:induction false} QuietMeans(h: History, n: nat, read: Reader, j: nat)
    requires Quiet(h, n, read) && j < n
    ensures InTime(h, j) && !Fires(h, j, read)
  {
    if j < n - 1 {
      QuietMeans(h, n - 1, read, j);
    } else {
      ReturnsWhereRulesFire(h, j, read);
    }
  }

  lemma QuietPolls(h: History, n: nat, read: Reader)
    requires Clocked(h) && Quiet(h, n, read)
    ensures n <= MOST_POLLS && forall j: nat :: j < n ==> InTime(h, j) && !Fires(h, j, read)
  {
    forall j: nat | j < n ensures InTime(h, j) && !Fires(h, j, read) {
      QuietMeans(h, n, read, j);
    }
    if n > 0 {
      PollsTakeTime(h, n - 1);
    }
  }

  lemma {:induction false} LastFromReadings(h: History, n: nat, read: Reader)
    ensures LastAt(h, n, read) ==
            var rs := Readings(h, n, read);
            if rs == [] then (0, 0) else (rs[|rs| - 1].items, rs[|rs| - 1].rows)
  {
    if n > 0 {
      LastFromReadings(h, n - 1, read);
    }
  }

  lemma {:induction false} StartsInOrder(h: History, n: nat, i: nat)
    requires Clocked(h) && n <= i
    ensures h(n).start <= h(i).start
  {
    if n < i {
      StartsInOrder(h, n, i - 1);
      TimePasses(h, i - 1);
    }
  }

  /** Once the cap is passed it stays passed. */
  lemma NoneInTimeAfter(h: History, n: nat)
    requires Clocked(h) && !InTime(h, n)
    ensures forall i: nat :: n <= i ==> !InTime(h, i)
  {
    forall i: nat | n <= i ensures !InTime(h, i) {
      StartsInOrder(h, n, i);
    }
  }

  lemma {:induction false} ReadingsAtMost(h: History, n: nat, read: Reader)
    ensures |Readings(h, n, read)| <= n
  {
    if n > 0 {
      ReadingsAtMost(h, n - 1, read);
    }
  }

  lemma {:induction false} ProgressesLength(rs: seq<Reading>)
    ensures |Progresses(rs)| == |rs|
  {
    if rs != [] {
      ProgressesLength(rs[..|rs| - 1]);
    }
  }

  /** Neither rule is hasty: the first waits a second, the second at least a minute. */
  lemma RulesWait(h: History, i: nat, read: Reader)
    requires Clocked(h) && Fires(h, i, read)
    ensures DRAIN_MIN_WAIT <= h(i).verdict
    ensures !QueueEmpty(Readings(h, i + 1, read), h(i).verdict) ==> 60_000_000_000 <= h(i).start
  {
    if !QueueEmpty(Readings(h, i + 1, read), h(i).verdict) {
      ProgressesLength(Readings(h, i + 1, read));
      ReadingsAtMost(h, i + 1, read);
      PollsTakeTime(h, i);
      assert Ticks(h, i);
    }
  }

  /** What the polls from `a` up to `b` add to the gauge readings. */
  ghost function GaugesBetween(h: History, a: nat, b: nat, read: Reader): seq<real>
    requires a <= b
  {
    if a == b then []
    else
      GaugesBetween(h, a, b - 1, read)
      + if ReadsGauge(h, b - 1, read) then [read(h(b - 1).scrape.value).pending.value] else []
  }

  ghost predicate ReadsGauge(h: History, i: nat, read: Reader) {
    h(i).scrape.Some? && read(h(i).scrape.value).pending.Some?
  }

  /** Poll `i` succeeded and found every queue empty. */
  ghost predicate ReadsZero(h: History, i: nat, read: Reader) {
    ReadsGauge(h, i, read) && read(h(i).scrape.value).pending.value == 0.0
  }

  lemma {:induction false} GaugesSplit(h: History, a: nat, b: nat, read: Reader)
    requires a <= b
    ensures Gauges(Readings(h, b, read)) == Gauges(Readings(h, a, read)) + GaugesBetween(h, a, b, read)
  {
    if a < b {
      GaugesSplit(h, a, b - 1, read);
      if h(b - 1).scrape.Some? {
        ReadingsPush(Readings(h, b - 1, read), read(h(b - 1).scrape.value));
      }
    }
  }

  /** Once a scrape has carried the gauge, the plateau rule never fires again. */
  lemma NoPlateauAfterGauge(h: History, j: nat, i: nat, read: Reader)
    requires j <= i && ReadsGauge(h, j, read)
    ensures !Plateau(Readings(h, i + 1, read))
  {
    GaugesSplit(h, 0, j + 1, read);
    GaugesSplit(h, j + 1, i + 1, read);
  }

  lemma {:induction false} ZeroesBetween(h: History, a: nat, b: nat, read: Reader)
    requires a <= b && forall j: nat :: a <= j < b && ReadsGauge(h, j, read) ==> ReadsZero(h, j, read)
    ensures forall k :: 0 <= k < |GaugesBetween(h, a, b, read)| ==> GaugesBetween(h, a, b, read)[k] == 0.0
  {
    if a < b {
      ZeroesBetween(h, a, b - 1, read);
      assert ReadsGauge(h, b - 1, read) ==> ReadsZero(h, b - 1, read);
    }
  }

  lemma {:induction false} GaugesGrow(h: History, a: nat, m: nat, b: nat, read: Reader)
    requires a <= m <= b
    ensures |GaugesBetween(h, a, m, read)| <= |GaugesBetween(h, a, b, read)|
  {
    if m < b {
      GaugesGrow(h, a, m, b - 1, read);
    }
  }

  /** Progress survives failures: four scrapes that found the queues empty end the wait at the fourth,
      whatever failed scrapes and scrapes without the gauge lie between them, as long as no scrape
      since the first found work and the minimum wait is over. */
  lemma FourEmptyScrapesSuffice(h: History, a: nat, b: nat, c: nat, d: nat, read: Reader)
    requires a < b < c < d && DRAIN_MIN_WAIT <= h(d).verdict
    requires ReadsZero(h, a, read) && ReadsZero(h, b, read) && ReadsZero(h, c, read) && ReadsZero(h, d, read)
    requires forall j: nat :: a <= j <= d && ReadsGauge(h, j, read) ==> ReadsZero(h, j, read)
    ensures Fires(h, d, read)
  {
    GaugesSplit(h, a, d + 1, read);
    ZeroesBetween(h, a, d + 1, read);
    FourGauges(h, a, b, c, d, read);
    TailEndsWith(Gauges(Readings(h, a, read)), GaugesBetween(h, a, d + 1, read), DRAIN_STABLE_POLLS, 0.0);
  }

  lemma OneMoreGauge(h: History, a: nat, m: nat, b: nat, read: Reader)
    requires a <= m <= b && ReadsGauge(h, b, read)
    ensures |GaugesBetween(h, a, m, read)| + 1 <= |GaugesBetween(h, a, b + 1, read)|
  {
    GaugesGrow(h, a, m, b, read);
  }

  lemma FourGauges(h: History, a: nat, b: nat, c: nat, d: nat, read: Reader)
    requires a < b < c < d
    requires ReadsGauge(h, a, read) && ReadsGauge(h, b, read) && ReadsGauge(h, c, read) && ReadsGauge(h, d, read)
    ensures 4 <= |GaugesBetween(h, a, d + 1, read)|
  {
    OneMoreGauge(h, a, a, a, read);
    OneMoreGauge(h, a, a + 1, b, read);
    OneMoreGauge(h, a, b + 1, c, read);
    OneMoreGauge(h, a, c + 1, d, read);
  }

  lemma TailEndsWith<T>(s: seq<T>, t: seq<T>, k: nat, x: T)
    requires k <= |t| && forall i :: 0 <= i < |t| ==> t[i] == x
    ensures EndsWith(s + t, k, x)
  {
  }
}
