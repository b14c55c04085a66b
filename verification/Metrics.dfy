/** The Prometheus text scrape: parsing exposition lines and summing series. The conversion of a token
    to a number is the parameter `num`; numbers are modelled by `real`. */
module Metrics {
  import opened Wrappers
  import opened Text
  import opened Tallies

  datatype Sample = Sample(name: string, labels: string, value: real)

  /** `str::parse::<f64>`. */
  type ToNumber = string -> Option<real>

  /** What one line comes to. Slicing one byte past a whitespace character that takes several bytes
      falls inside that character, and panics. */
  datatype LineResult = Skipped | Panicked | Got(sample: Sample)

  predicate IsMultiByte(c: char) { c as int >= 0x80 }

  /** `rfind(char::is_whitespace)`. */
  function LastSpace(s: string): (r: Option<nat>)
    ensures r.Some? ==> r.value < |s| && IsSpace(s[r.value]) && forall i :: r.value < i < |s| ==> !IsSpace(s[i])
    ensures r.None? ==> NoSpace(s)
  {
    if s == "" then None
    else if IsSpace(s[|s| - 1]) then Some(|s| - 1)
    else LastSpace(s[..|s| - 1])
  }

  /** The index of the first `c`, or the length. */
  function FirstIndex(s: string, c: char): (k: nat)
    ensures k <= |s| && (forall i :: 0 <= i < k ==> s[i] != c) && (k < |s| ==> s[k] == c)
  {
    if s == "" || s[0] == c then 0 else 1 + FirstIndex(s[1..], c)
  }

  /** The family name and label body left of the value, split at the first brace. */
  function NameAndLabels(lhs: string): (string, string) {
    var k := FirstIndex(lhs, '{');
    if k < |lhs| then (Trim(lhs[..k]), lhs[k + 1..]) else (lhs, "")
  }

  function ParseLine(raw: string, num: ToNumber): LineResult {
    var line := Trim(raw);
    if line == "" || line[0] == '#' || LastSpace(line).None? then Skipped
    else
      var sp := LastSpace(line).value;
      if IsMultiByte(line[sp]) then Panicked
      else
        var value := num(Trim(line[sp + 1..]));
        var (name, labels) := NameAndLabels(Trim(line[..sp]));
        if value.None? || name == "" then Skipped else Got(Sample(name, labels, value.value))
  }

  /** `str::lines`. The carriage return it strips before a line feed is whitespace, which the parser
      trims anyway. */
  function Lines(text: string): seq<string>
    decreases |text|
  {
    var k := FirstIndex(text, '\n');
    if text == "" then []
    else if k == |text| then [text]
    else [text[..k]] + Lines(text[k + 1..])
  }

  type LineParser = string -> LineResult

  function Parser(num: ToNumber): LineParser { (line: string) => ParseLine(line, num) }

  /** The samples of a list of lines, or `None` if one of them panics. */
  function ParseLines(lines: seq<string>, parse: LineParser): Option<seq<Sample>> {
    if lines == [] then Some([])
    else Then(ParseLines(lines[..|lines| - 1], parse), parse(lines[|lines| - 1]))
  }

  function Then(before: Option<seq<Sample>>, line: LineResult): Option<seq<Sample>> {
    if before.None? || line.Panicked? then None
    else if line.Got? then Some(before.value + [line.sample])
    else before
  }

  function Parsed(text: string, num: ToNumber): Option<seq<Sample>> { ParseLines(Lines(text), Parser(num)) }

  lemma ParseLinesNext(lines: seq<string>, parse: LineParser, i: nat)
    requires i < |lines|
    ensures ParseLines(lines[..i + 1], parse) == Then(ParseLines(lines[..i], parse), parse(lines[i]))
  {
    assert lines[..i + 1][..i] == lines[..i];
  }

  lemma {:induction false} PanicStays(lines: seq<string>, parse: LineParser, i: nat)
    requires i <= |lines| && ParseLines(lines[..i], parse).None?
    ensures ParseLines(lines, parse).None?
    decreases |lines| - i
  {
    if i == |lines| {
      assert lines[..i] == lines;
    } else {
      ParseLinesNext(lines, parse, i);
      PanicStays(lines, parse, i + 1);
    }
  }

  /** `PrometheusMetrics::parse`; `None` is a panic. */
  method Parse(text: string, num: ToNumber) returns (r: Option<seq<Sample>>)
    ensures r == Parsed(text, num)
  {
    var lines, parse := Lines(text), Parser(num);
    var samples: seq<Sample> := [];
    for i := 0 to |lines|
      invariant ParseLines(lines[..i], parse) == Some(samples)
    {
      ParseLinesNext(lines, parse, i);
      match parse(lines[i])
      case Skipped =>
      case Panicked =>
        PanicStays(lines, parse, i + 1);
        return None;
      case Got(s) => samples := samples + [s];
    }
    assert lines[..|lines|] == lines;
    return Some(samples);
  }

  // ---- one line ----

  /** A blank line, a comment and a line of one word say nothing. */
  lemma LineSkipped(raw: string, num: ToNumber)
    requires Trim(raw) == "" || Trim(raw)[0] == '#' || NoSpace(Trim(raw))
    ensures ParseLine(raw, num) == Skipped
  {
    SpaceFound(Trim(raw));
  }

  lemma SpaceFound(s: string)
    ensures LastSpace(s).Some? ==> !NoSpace(s)
  {
    if LastSpace(s).Some? {
      assert IsSpace(s[LastSpace(s).value]);
    }
  }

  /** Any other line: split at its last whitespace `c` into what stands left and the value, and what stands
      left at its first brace into a name and a label body. It panics when `c` takes several bytes, says
      nothing without a number or a name, and is a sample otherwise. */
  lemma LineExactly(raw: string, num: ToNumber, left: string, c: char, value: string)
    requires Trim(raw) == left + [c] + value && Trim(raw)[0] != '#' && IsSpace(c) && NoSpace(value)
    ensures ParseLine(raw, num) ==
            if 0x80 <= c as int then Panicked
            else
              var (name, labels) := NameAndLabels(Trim(left));
              if num(Trim(value)) == None || name == "" then Skipped
              else Got(Sample(name, labels, num(Trim(value)).value))
  {
    var line := Trim(raw);
    assert line[|left|] == c;
    assert forall i :: |left| < i < |line| ==> line[i] == value[i - |left| - 1];
    LastSpaceIs(line, |left|);
    assert line[..|left|] == left && line[|left| + 1..] == value;
  }

  lemma NameAndLabelsExactly(name: string, labels: string)
    requires '{' !in name
    ensures NameAndLabels(name) == (name, "") && NameAndLabels(name + "{" + labels) == (Trim(name), labels)
  {
    var s := name + "{" + labels;
    FirstIndexIs(s, '{', |name|);
    assert s[..|name|] == name && s[|name| + 1..] == labels;
  }

  // ---- parsing block by block ----

  function Joined(a: Option<seq<Sample>>, b: Option<seq<Sample>>): Option<seq<Sample>> {
    if a.None? || b.None? then None else Some(a.value + b.value)
  }

  /** Nothing, or whole lines. */
  predicate IsBlock(text: string) { text == "" || text[|text| - 1] == '\n' }

  lemma FirstIndexIs(s: string, c: char, k: nat)
    requires k < |s| && s[k] == c && forall i :: 0 <= i < k ==> s[i] != c
    ensures FirstIndex(s, c) == k
  {
  }

  lemma LinesAfterBreak(head: string, rest: string)
    requires IsOneLine(head)
    ensures Lines(head + "\n" + rest) == [head] + Lines(rest)
  {
    var t := head + "\n" + rest;
    FirstIndexIs(t, '\n', |head|);
    assert t[..|head|] == head && t[|head| + 1..] == rest;
  }

  predicate IsOneLine(line: string) { forall i :: 0 <= i < |line| ==> line[i] != '\n' }

  /** The first line of a non-empty block, taken off. */
  lemma LinesPeel(a: string, b: string, k: nat)
    requires a != "" && IsBlock(a) && k == FirstIndex(a, '\n')
    ensures k < |a| && IsBlock(a[k + 1..])
    ensures Lines(a + b) == [a[..k]] + Lines(a[k + 1..] + b)
  {
    assert a[|a| - 1] == '\n';
    var head, rest := a[..k], a[k + 1..];
    assert a + b == head + "\n" + (rest + b);
    LinesAfterBreak(head, rest + b);
  }

  lemma {:induction false} LinesConcat(a: string, b: string)
    requires IsBlock(a)
    ensures Lines(a + b) == Lines(a) + Lines(b)
    decreases |a|
  {
    if a == "" {
      assert a + b == b;
    } else {
      var k := FirstIndex(a, '\n');
      LinesPeel(a, b, k);
      LinesPeel(a, "", k);
      var rest := a[k + 1..];
      assert a + "" == a && rest + "" == rest;
      LinesConcat(rest, b);
      Associates([a[..k]], Lines(rest), Lines(b));
    }
  }

  lemma JoinedThen(a: Option<seq<Sample>>, b: Option<seq<Sample>>, line: LineResult)
    ensures Then(Joined(a, b), line) == Joined(a, Then(b, line))
  {
    if a.Some? && b.Some? && line.Got? {
      assert a.value + b.value + [line.sample] == a.value + (b.value + [line.sample]);
    }
  }

  lemma {:induction false} ParseLinesConcat(s: seq<string>, t: seq<string>, parse: LineParser)
    ensures ParseLines(s + t, parse) == Joined(ParseLines(s, parse), ParseLines(t, parse))
  {
    if t == [] {
      assert s + t == s;
      assert ParseLines(s, parse).Some? ==> ParseLines(s, parse).value + [] == ParseLines(s, parse).value;
    } else {
      ParseLinesConcat(s, t[..|t| - 1], parse);
      JoinedThen(ParseLines(s, parse), ParseLines(t[..|t| - 1], parse), parse(t[|t| - 1]));
      assert (s + t)[..|s + t| - 1] == s + t[..|t| - 1];
    }
  }

  /** Parsing distributes over blocks of whole lines. */
  lemma ParseDistributes(a: string, b: string, num: ToNumber)
    requires IsBlock(a)
    ensures Parsed(a + b, num) == Joined(Parsed(a, num), Parsed(b, num))
  {
    LinesConcat(a, b);
    ParseLinesConcat(Lines(a), Lines(b), Parser(num));
  }

  lemma {:induction false} PanicsExactly(lines: seq<string>, parse: LineParser)
    ensures ParseLines(lines, parse).None? <==> exists i :: 0 <= i < |lines| && parse(lines[i]).Panicked?
  {
    if lines != [] {
      var init := lines[..|lines| - 1];
      PanicsExactly(init, parse);
      assert forall i :: 0 <= i < |init| ==> init[i] == lines[i];
    }
  }

  /** The scrape panics exactly when some line that is neither blank nor a comment has, as its last
      whitespace, a character of more than one byte. */
  lemma ParsePanicsExactly(text: string, num: ToNumber)
    ensures Parsed(text, num).None? <==>
            exists i :: 0 <= i < |Lines(text)| && PanicsOn(Lines(text)[i])
  {
    PanicsExactly(Lines(text), Parser(num));
    forall i | 0 <= i < |Lines(text)| ensures PanicsOn(Lines(text)[i]) <==> Parser(num)(Lines(text)[i]).Panicked? {
    }
  }

  predicate PanicsOn(raw: string) {
    var line := Trim(raw);
    line != "" && line[0] != '#' && LastSpace(line).Some? && IsMultiByte(line[LastSpace(line).value])
  }

  /** Such a line: a no-break space before the value. */
  lemma NoBreakSpacePanics(num: ToNumber)
    ensures Parsed("a\U{00A0}1", num) == None
  {
    var text := "a\U{00A0}1";
    assert FirstIndex(text, '\n') == |text|;
    assert Lines(text) == [text];
    TrimKeeps(text);
    assert LastSpace(text) == Some(1);
    assert PanicsOn(Lines(text)[0]);
    ParsePanicsExactly(text, num);
  }

  // ---- rendering ----

  function LeftOfValue(s: Sample): string { if s.labels == "" then s.name else s.name + "{" + s.labels }

  /** One exposition line without a timestamp. The label body carries its own closing brace. */
  function Render(s: Sample, show: real -> string): string {
    LeftOfValue(s) + " " + show(s.value) + "\n"
  }

  type Renderer = Sample -> string

  function Shown(show: real -> string): Renderer { (s: Sample) => Render(s, show) }

  function RenderAll(samples: seq<Sample>, render: Renderer): string {
    if samples == [] then "" else RenderAll(samples[..|samples| - 1], render) + render(samples[|samples| - 1])
  }

  predicate IsWellFormed(s: Sample, show: real -> string, num: ToNumber) {
    && s.name != "" && IsTrimmed(s.name) && s.name[0] != '#' && '{' !in s.name && '\n' !in s.name
    && '\n' !in s.labels && (s.labels != "" ==> !IsSpace(s.labels[|s.labels| - 1]))
    && show(s.value) != "" && (forall i :: 0 <= i < |show(s.value)| ==> !IsSpace(show(s.value)[i]))
    && num(show(s.value)) == Some(s.value)
  }

  lemma LastSpaceIs(s: string, k: nat)
    requires k < |s| && IsSpace(s[k]) && forall i :: k < i < |s| ==> !IsSpace(s[i])
    ensures LastSpace(s) == Some(k)
  {
    var r := LastSpace(s);
    assert r.Some?;
    assert r.value >= k && k >= r.value;
  }

  lemma LeftIsTrimmed(s: Sample, show: real -> string, num: ToNumber)
    requires IsWellFormed(s, show, num)
    ensures IsTrimmed(LeftOfValue(s)) && LeftOfValue(s) != "" && LeftOfValue(s)[0] == s.name[0]
    ensures '\n' !in LeftOfValue(s)
    ensures NameAndLabels(LeftOfValue(s)) == (s.name, s.labels)
  {
    var left := LeftOfValue(s);
    TrimKeeps(s.name);
    if s.labels == "" {
      assert FirstIndex(left, '{') == |left|;
    } else {
      assert left[..|s.name|] == s.name && left[|s.name| + 1..] == s.labels;
      FirstIndexIs(left, '{', |s.name|);
    }
  }

  /** A line made of trimmed text, one space and a word is split where it was joined. */
  lemma LineSplits(left: string, value: string)
    requires left != "" && IsTrimmed(left) && value != "" && NoSpace(value)
    ensures var line := left + " " + value;
            && Trim(line) == line && line[0] == left[0] && LastSpace(line) == Some(|left|)
            && Trim(line[..|left|]) == left && Trim(line[|left| + 1..]) == value
  {
    var line := left + " " + value;
    TrimKeeps(line);
    LastSpaceIs(line, |left|);
    assert line[..|left|] == left && line[|left| + 1..] == value;
    TrimKeeps(left);
    TrimKeeps(value);
  }

  lemma RenderedLineParses(s: Sample, show: real -> string, num: ToNumber)
    requires IsWellFormed(s, show, num)
    ensures var line := LeftOfValue(s) + " " + show(s.value); Parser(num)(line) == Got(s) && IsOneLine(line)
  {
    LeftIsTrimmed(s, show, num);
    LineSplits(LeftOfValue(s), show(s.value));
    assert IsSpace('\n');
  }

  lemma OneLine(line: string, parse: LineParser)
    requires IsOneLine(line)
    ensures parse(line).Got? ==> ParseLines(Lines(line + "\n"), parse) == Some([parse(line).sample])
  {
    LinesAfterBreak(line, "");
    assert line + "\n" + "" == line + "\n";
    assert [line][..0] == [];
    assert parse(line).Got? ==> [] + [parse(line).sample] == [parse(line).sample];
  }

  /** `text` is whole lines, and they parse to `samples`. */
  ghost predicate Yields(text: string, samples: seq<Sample>, parse: LineParser) {
    IsBlock(text) && ParseLines(Lines(text), parse) == Some(samples)
  }

  lemma RenderedParses(s: Sample, show: real -> string, num: ToNumber)
    requires IsWellFormed(s, show, num)
    ensures Yields(Shown(show)(s), [s], Parser(num))
  {
    var line := LeftOfValue(s) + " " + show(s.value);
    assert Shown(show)(s) == line + "\n";
    RenderedLineParses(s, show, num);
    OneLine(line, Parser(num));
  }

  lemma OneMoreYields(text: string, before: seq<Sample>, block: string, s: Sample, parse: LineParser)
    requires Yields(text, before, parse) && Yields(block, [s], parse)
    ensures Yields(text + block, before + [s], parse)
  {
    LinesConcat(text, block);
    ParseLinesConcat(Lines(text), Lines(block), parse);
  }

  lemma RenderAllNext(samples: seq<Sample>, render: Renderer, i: nat)
    requires i < |samples|
    ensures RenderAll(samples[..i + 1], render) == RenderAll(samples[..i], render) + render(samples[i])
    ensures samples[..i + 1] == samples[..i] + [samples[i]]
  {
    assert samples[..i + 1][..i] == samples[..i];
  }

  /** Well-formed samples, rendered and parsed, come back unchanged and in order. */
  lemma RenderedComesBack(samples: seq<Sample>, show: real -> string, num: ToNumber)
    requires forall i :: 0 <= i < |samples| ==> IsWellFormed(samples[i], show, num)
    ensures Parsed(RenderAll(samples, Shown(show)), num) == Some(samples)
  {
    var render, parse := Shown(show), Parser(num);
    var i := 0;
    while i < |samples|
      invariant i <= |samples| && Yields(RenderAll(samples[..i], render), samples[..i], parse)
    {
      RenderedParses(samples[i], show, num);
      RenderAllNext(samples, render, i);
      OneMoreYields(RenderAll(samples[..i], render), samples[..i], render(samples[i]), samples[i], parse);
      i := i + 1;
    }
    assert samples[..i] == samples;
  }

  // ---- sums ----

  type Weight = Sample -> real

  predicate InSeries(s: Sample, family: string, labelContains: string) {
    s.name == family && Contains(s.labels, labelContains)
  }

  /** The value of the samples of one series, and zero elsewhere. */
  function ValueIn(family: string, labelContains: string): Weight {
    (s: Sample) => if InSeries(s, family, labelContains) then s.value else 0.0
  }

  ghost predicate HasSeries(samples: seq<Sample>, family: string, labelContains: string) {
    exists i :: 0 <= i < |samples| && InSeries(samples[i], family, labelContains)
  }

  ghost function SeriesSum(samples: seq<Sample>, family: string, labelContains: string): Option<real> {
    if HasSeries(samples, family, labelContains) then Some(Total(ValueIn(family, labelContains), samples)) else None
  }

  /** Sample by sample: nothing to begin with, and each sample of the family whose labels contain the text
      adds its value. */
  lemma SeriesSumNext(samples: seq<Sample>, s: Sample, family: string, labelContains: string)
    ensures SeriesSum([], family, labelContains) == None
    ensures SeriesSum(samples + [s], family, labelContains) ==
            var before := SeriesSum(samples, family, labelContains);
            if s.name != family || !Occurs(s.labels, labelContains) then before
            else Some((if before.Some? then before.value else 0.0) + s.value)
  {
    var all, f := samples + [s], ValueIn(family, labelContains);
    assert all[..|samples|] == samples;
    assert forall i :: 0 <= i < |samples| ==> all[i] == samples[i];
    assert all[|samples|] == s;
    assert Total(f, all) == Total(f, samples) + f(s);
    assert HasSeries(all, family, labelContains) <==>
           HasSeries(samples, family, labelContains) || InSeries(s, family, labelContains);
    if !HasSeries(samples, family, labelContains) {
      TotalZero(f, samples);
    }
  }

  method SumWhere(samples: seq<Sample>, family: string, labelContains: string) returns (r: Option<real>)
    ensures r == SeriesSum(samples, family, labelContains)
  {
    var found, total := false, 0.0;
    ghost var f := ValueIn(family, labelContains);
    for i := 0 to |samples|
      invariant found <==> exists j :: 0 <= j < i && InSeries(samples[j], family, labelContains)
      invariant total == Total(f, samples[..i])
    {
      TotalNext(f, samples, i);
      if samples[i].name == family && Contains(samples[i].labels, labelContains) {
        found := true;
        total := total + samples[i].value;
      }
    }
    assert samples[..|samples|] == samples;
    r := if found then Some(total) else None;
  }

  lemma ContainsNothing(s: string)
    ensures Contains(s, "")
  {
    assert OccursAt(s, "", 0);
  }

  /** `sum`: the whole family, whatever the labels. */
  method Sum(samples: seq<Sample>, family: string) returns (r: Option<real>)
    ensures r == SeriesSum(samples, family, "")
  {
    var found, total := false, 0.0;
    ghost var f := ValueIn(family, "");
    for i := 0 to |samples|
      invariant found <==> exists j :: 0 <= j < i && InSeries(samples[j], family, "")
      invariant total == Total(f, samples[..i])
    {
      TotalNext(f, samples, i);
      ContainsNothing(samples[i].labels);
      if samples[i].name == family {
        found := true;
        total := total + samples[i].value;
      }
    }
    assert samples[..|samples|] == samples;
    r := if found then Some(total) else None;
  }

  // ---- queued work ----

  const PENDING_WORK := "brain_worker_pending_work"

  const DRAIN_WORKERS: seq<string> := ["extractor", "statement_embed", "auto_edge", "temporal_edge", "causal_edge"]

  /** How many of `workers` occur in the label body. */
  function Named(labels: string, workers: seq<string>): nat {
    if workers == [] then 0
    else Named(labels, workers[..|workers| - 1]) + if Contains(labels, workers[|workers| - 1]) then 1 else 0
  }

  /** A gauge sample's value, once for each worker it names. */
  function ValuePerWorker(workers: seq<string>): Weight {
    (s: Sample) => if s.name == PENDING_WORK then s.value * Named(s.labels, workers) as real else 0.0
  }

  ghost predicate NamesWorker(s: Sample, workers: seq<string>) {
    s.name == PENDING_WORK && exists k :: 0 <= k < |workers| && Contains(s.labels, workers[k])
  }

  ghost predicate HasGauge(samples: seq<Sample>, workers: seq<string>) {
    exists i :: 0 <= i < |samples| && NamesWorker(samples[i], workers)
  }

  /** What the loop over `workers` adds up to. */
  ghost function PendingOver(samples: seq<Sample>, workers: seq<string>): Option<real> {
    if workers == [] then None
    else Added(PendingOver(samples, workers[..|workers| - 1]), SeriesSum(samples, PENDING_WORK, workers[|workers| - 1]))
  }

  function Added(total: Option<real>, more: Option<real>): Option<real> {
    if more.None? then total
    else Some((if total.Some? then total.value else 0.0) + more.value)
  }

  method PendingWriteWork(samples: seq<Sample>) returns (total: Option<real>)
    ensures total == PendingOver(samples, DRAIN_WORKERS)
  {
    total := None;
    for k := 0 to |DRAIN_WORKERS|
      invariant total == PendingOver(samples, DRAIN_WORKERS[..k])
    {
      assert DRAIN_WORKERS[..k + 1][..k] == DRAIN_WORKERS[..k];
      var v := SumWhere(samples, PENDING_WORK, DRAIN_WORKERS[k]);
      if v.Some? {
        total := Some((if total.Some? then total.value else 0.0) + v.value);
      }
    }
    assert DRAIN_WORKERS[..|DRAIN_WORKERS|] == DRAIN_WORKERS;
  }

  lemma {:induction false} NamedIsPositive(labels: string, workers: seq<string>)
    ensures Named(labels, workers) > 0 <==> exists k :: 0 <= k < |workers| && Contains(labels, workers[k])
  {
    if workers != [] {
      var init := workers[..|workers| - 1];
      NamedIsPositive(labels, init);
      assert forall k :: 0 <= k < |init| ==> init[k] == workers[k];
    }
  }

  lemma OneMoreWorker(s: Sample, init: seq<string>, worker: string)
    ensures ValuePerWorker(init + [worker])(s) == ValuePerWorker(init)(s) + ValueIn(PENDING_WORK, worker)(s)
    ensures NamesWorker(s, init + [worker]) <==> NamesWorker(s, init) || InSeries(s, PENDING_WORK, worker)
  {
    var all := init + [worker];
    assert all[..|init|] == init;
    NamedIsPositive(s.labels, init);
    NamedIsPositive(s.labels, all);
    assert Named(s.labels, all) == Named(s.labels, init) + if Contains(s.labels, worker) then 1 else 0;
  }

  lemma OneMoreWorkerOver(samples: seq<Sample>, init: seq<string>, worker: string)
    ensures Total(ValuePerWorker(init + [worker]), samples)
            == Total(ValuePerWorker(init), samples) + Total(ValueIn(PENDING_WORK, worker), samples)
    ensures HasGauge(samples, init + [worker]) <==> HasGauge(samples, init) || HasSeries(samples, PENDING_WORK, worker)
  {
    forall i | 0 <= i < |samples|
      ensures ValuePerWorker(init + [worker])(samples[i]) ==
              ValuePerWorker(init)(samples[i]) + ValueIn(PENDING_WORK, worker)(samples[i])
      ensures NamesWorker(samples[i], init + [worker]) <==>
              NamesWorker(samples[i], init) || InSeries(samples[i], PENDING_WORK, worker)
    {
      OneMoreWorker(samples[i], init, worker);
    }
    TotalAdds(ValuePerWorker(init), ValueIn(PENDING_WORK, worker), ValuePerWorker(init + [worker]), samples);
  }

  /** Queued work is absent exactly when no gauge sample names a worker; otherwise every gauge sample
      counts once for each worker its label body names. */
  lemma {:induction false} PendingIsPerSample(samples: seq<Sample>, workers: seq<string>)
    ensures PendingOver(samples, workers) ==
            if HasGauge(samples, workers) then Some(Total(ValuePerWorker(workers), samples)) else None
  {
    if workers != [] {
      var init, worker := workers[..|workers| - 1], workers[|workers| - 1];
      assert workers == init + [worker];
      PendingIsPerSample(samples, init);
      OneMoreWorkerOver(samples, init, worker);
      if !HasGauge(samples, init) {
        NoGaugeNoValue(samples, init);
      }
      if !HasSeries(samples, PENDING_WORK, worker) {
        TotalZero(ValueIn(PENDING_WORK, worker), samples);
      }
    }
  }

  lemma NoGaugeNoValue(samples: seq<Sample>, workers: seq<string>)
    requires !HasGauge(samples, workers)
    ensures Total(ValuePerWorker(workers), samples) == 0.0
  {
    forall i | 0 <= i < |samples| ensures ValuePerWorker(workers)(samples[i]) == 0.0 {
      NamedIsPositive(samples[i].labels, workers);
      assert !NamesWorker(samples[i], workers);
      assert samples[i].name == PENDING_WORK ==> Named(samples[i].labels, workers) == 0;
    }
    TotalZero(ValuePerWorker(workers), samples);
  }
}
