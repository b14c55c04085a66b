/** Phases 1 and 2 of `EvalRunner::run`: what one conversation's ingest and read-back come to, and
    the two merges. Everything here is a function; `RunSchedule` shows that the scheduler's choices
    do not reach the report. */
module Runner {
  import opened Wrappers
  import opened Sorting
  import opened KeyOrder
  import opened SpaceManifest
  import opened RunPlan
  import opened Verdicts
  import Pool

  datatype QuestionResult = QuestionResult(
    questionId: string, verdict: Verdict, score: real, reasoning: string,
    ingestionFailed: bool, retrievalFailed: bool)

  /** The run-report record: the result with what was retrieved for it. */
  datatype QuestionRecord = QuestionRecord(result: QuestionResult, retrieved: seq<string>)

  datatype ConvWrite = ConvWrite(latencyMs: nat, attempted: nat, stored: nat, deduplicated: nat, ingestFailed: bool,
    storedIds: seq<string>)

  const SKIPPED := ConvWrite(0, 0, 0, 0, false, [])

  datatype ConversationWrite = ConversationWrite(conversationId: string, space: Uuid, write: ConvWrite)

  /** Everything outside this program: what happens when a conversation connects, ingests and is
      asked its questions. Each conversation owns its space, so these depend on nothing shared. */
  datatype Server = Server(
    connect: (Uuid, string) -> Option<string>,
    ingest: (Uuid, Instance) -> ConvWrite,
    reconnect: (Uuid, string) -> Option<string>,
    ask: (Uuid, Instance, ConvWrite) -> QuestionRecord)

  datatype Config = Config(mode: Mode, verifyMemoryList: bool)

  /** The instance at an index; the indices a run uses are all in range (`GroupsPartition`). */
  function At(instances: seq<Instance>, idx: nat): Instance {
    if idx < |instances| then instances[idx] else Instance("", None, "", "")
  }

  // ---- phase 1 ----

  datatype IngestOutcome = IngestOutcome(convKey: string, idxs: seq<nat>, space: Option<Uuid>, cw: ConvWrite,
    failure: Option<string>)

  datatype Prepared = Prepared(convKey: string, idxs: seq<nat>, space: Uuid, cw: ConvWrite)

  function IngestOne(server: Server, cfg: Config, instances: seq<Instance>, pl: Planned): IngestOutcome {
    match pl.space
    case None => IngestOutcome(pl.convKey, pl.idxs, None, SKIPPED, Some(pl.reason))
    case Some((space, token)) =>
      match server.connect(space, token)
      case Some(e) => IngestOutcome(pl.convKey, pl.idxs, None, SKIPPED, Some("connect failed: " + e))
      case None =>
        var cw := if cfg.mode.readOnly.Some? then SKIPPED else server.ingest(space, At(instances, pl.idxs[0]));
        IngestOutcome(pl.convKey, pl.idxs, Some(space), cw, None)
  }

  function Ingest(server: Server, cfg: Config, instances: seq<Instance>): Planned -> IngestOutcome {
    (pl: Planned) => IngestOne(server, cfg, instances, pl)
  }

  predicate ByKey(a: IngestOutcome, b: IngestOutcome) { KeyAtMost(a.convKey, b.convKey) }

  predicate Established(o: IngestOutcome) { o.space.Some? && o.failure.None? }

  function PreparedFrom(o: IngestOutcome): seq<Prepared> {
    if Established(o) then [Prepared(o.convKey, o.idxs, o.space.value, o.cw)] else []
  }

  function FailedResult(inst: Instance, reason: string, ingestFailed: bool): QuestionResult {
    QuestionResult(inst.questionId, Incorrect, 0.0, reason, ingestFailed, !ingestFailed)
  }

  function FailedRecord(inst: Instance, reason: string, ingestFailed: bool): QuestionRecord {
    QuestionRecord(FailedResult(inst, reason, ingestFailed), [])
  }

  function FailedIdxs(o: IngestOutcome): seq<nat> {
    if Established(o) then [] else o.idxs
  }

  function FailureReason(o: IngestOutcome): string {
    if o.failure.Some? then o.failure.value else "conversation unavailable"
  }

  /** Records for the questions of a conversation that failed in phase 1. */
  function FailedRecords(instances: seq<Instance>): IngestOutcome -> seq<QuestionRecord> {
    (o: IngestOutcome) => Pool.Map((idx: nat) => FailedRecord(At(instances, idx), FailureReason(o), true),
      FailedIdxs(o))
  }

  // ---- phase 2 ----

  datatype Merged = Merged(idx: nat, record: QuestionRecord)

  datatype GroupOutcome = GroupOutcome(write: Option<ConversationWrite>, questions: seq<Merged>)

  const NO_TOKEN := "read-back: no cached data-plane token"

  function Cached(tokens: map<Uuid, string>, pre: Prepared): Option<string> {
    if pre.space in tokens then Some(tokens[pre.space]) else None
  }

  /** How one question of a prepared conversation comes out. */
  function Question(server: Server, instances: seq<Instance>, cached: Option<string>, pre: Prepared, idx: nat): Merged {
    var inst := At(instances, idx);
    match cached
    case None => Merged(idx, FailedRecord(inst, NO_TOKEN, false))
    case Some(token) =>
      match server.reconnect(pre.space, token)
      case Some(e) => Merged(idx, FailedRecord(inst, "read-back reconnect failed: " + e, false))
      case None =>
        var rec := server.ask(pre.space, inst, pre.cw);
        Merged(idx, rec.(result := rec.result.(questionId := inst.questionId)))
  }

  predicate Reached(server: Server, cached: Option<string>, pre: Prepared) {
    cached.Some? && server.reconnect(pre.space, cached.value).None?
  }

  function ReadOne(server: Server, cfg: Config, instances: seq<Instance>, tokens: map<Uuid, string>,
                   pre: Prepared): GroupOutcome {
    var cached := Cached(tokens, pre);
    var asked := Pool.Map((idx: nat) => Question(server, instances, cached, pre, idx), pre.idxs);
    if !Reached(server, cached, pre) then GroupOutcome(None, asked)
    else GroupOutcome(
      if cfg.mode.readOnly.None? then Some(ConversationWrite(pre.convKey, pre.space, pre.cw)) else None,
      if cfg.verifyMemoryList then [] else asked)
  }

  function Read(server: Server, cfg: Config, instances: seq<Instance>,
                tokens: map<Uuid, string>): Prepared -> GroupOutcome {
    (pre: Prepared) => ReadOne(server, cfg, instances, tokens, pre)
  }

  predicate ByIndex(a: Merged, b: Merged) { a.idx <= b.idx }

  predicate ByConversation(a: ConversationWrite, b: ConversationWrite) { KeyAtMost(a.conversationId, b.conversationId) }

  function WriteOf(o: GroupOutcome): seq<ConversationWrite> {
    if o.write.Some? then [o.write.value] else []
  }

  function QuestionsOf(o: GroupOutcome): seq<Merged> { o.questions }

  function FlatMap<T, U>(f: T -> seq<U>, s: seq<T>): seq<U> {
    if s == [] then [] else f(s[0]) + FlatMap(f, s[1..])
  }

  // ---- the report ----

  /** The two result vectors, the conversation ledger, and the progress tracker's counters. */
  datatype Report = Report(results: seq<QuestionResult>, records: seq<QuestionRecord>, writes: seq<ConversationWrite>,
    done: nat, scoreSum: real)

  function ResultOf(r: QuestionRecord): QuestionResult { r.result }

  function RecordOf(m: Merged): QuestionRecord { m.record }

  function IndexOf(m: Merged): nat { m.idx }

  function ScoreSum(results: seq<QuestionResult>): real {
    if results == [] then 0.0 else ScoreSum(results[..|results| - 1]) + results[|results| - 1].score
  }

  function ReportOf(records: seq<QuestionRecord>, writes: seq<ConversationWrite>): Report {
    var results := Pool.Map(ResultOf, records);
    Report(results, records, writes, |results|, ScoreSum(results))
  }

  /** The questions of phase 2, back in instance order. */
  function Restored(groups: seq<GroupOutcome>): seq<Merged> {
    Sort(FlatMap(QuestionsOf, groups), ByIndex)
  }

  /** Both merges, applied to outcomes in whatever order they were collected. */
  function MergeAll(instances: seq<Instance>, ingested: seq<IngestOutcome>, groups: seq<GroupOutcome>): Report {
    ReportOf(FlatMap(FailedRecords(instances), Sort(ingested, ByKey)) + Pool.Map(RecordOf, Restored(groups)),
             Sort(FlatMap(WriteOf, groups), ByConversation))
  }

  // ---- the orders ----

  lemma ByKeyIsOrder()
    ensures TotalPreorder(ByKey)
  {
    forall a: IngestOutcome, b: IngestOutcome ensures ByKey(a, b) || ByKey(b, a) {
      KeyTotal(a.convKey, b.convKey);
    }
    forall a: IngestOutcome, b: IngestOutcome, c: IngestOutcome | ByKey(a, b) && ByKey(b, c) ensures ByKey(a, c) {
      KeyTransitive(a.convKey, b.convKey, c.convKey);
    }
  }

  lemma ByConversationIsOrder()
    ensures TotalPreorder(ByConversation)
  {
    forall a: ConversationWrite, b: ConversationWrite ensures ByConversation(a, b) || ByConversation(b, a) {
      KeyTotal(a.conversationId, b.conversationId);
    }
    forall a: ConversationWrite, b: ConversationWrite, c: ConversationWrite | ByConversation(a, b) &&
      ByConversation(b, c)
      ensures ByConversation(a, c)
    {
      KeyTransitive(a.conversationId, b.conversationId, c.conversationId);
    }
  }

  // ---- flattening ----

  lemma {:induction false} FlatMapAppend<T, U>(f: T -> seq<U>, s: seq<T>, t: seq<T>)
    ensures FlatMap(f, s + t) == FlatMap(f, s) + FlatMap(f, t)
  {
    if s == [] {
      assert s + t == t;
    } else {
      FlatMapAppend(f, s[1..], t);
      assert (s + t)[1..] == s[1..] + t;
    }
  }

  lemma FlatMapPush<T, U>(f: T -> seq<U>, s: seq<T>, x: T)
    ensures FlatMap(f, s + [x]) == FlatMap(f, s) + f(x)
  {
    FlatMapAppend(f, s, [x]);
    assert FlatMap(f, [x]) == f(x);
  }

  lemma FlatMapNext<T, U>(f: T -> seq<U>, s: seq<T>, i: nat, before: seq<U>)
    requires i < |s|
    ensures FlatMap(f, s[..i + 1]) == FlatMap(f, s[..i]) + f(s[i])
    ensures before + FlatMap(f, s[..i + 1]) == before + FlatMap(f, s[..i]) + f(s[i])
  {
    assert s[..i + 1] == s[..i] + [s[i]];
    FlatMapPush(f, s[..i], s[i]);
  }

  /** What is collected from each group does not depend on the order of the groups. */
  lemma {:induction false} FlatMapForgetsOrder<T, U>(f: T -> seq<U>, s: seq<T>, t: seq<T>)
    requires multiset(s) == multiset(t)
    ensures multiset(FlatMap(f, s)) == multiset(FlatMap(f, t))
  {
    SameElements(s, t);
    if s != [] {
      assert s[0] in t;
      var i :| 0 <= i < |t| && t[i] == s[0];
      WithoutMiddle(t, i);
      SplitAt(f, t, i);
      TailMultiset(s);
      FlatMapForgetsOrder(f, s[1..], Pool.Without(t, i));
    }
  }

  lemma SplitAt<T, U>(f: T -> seq<U>, t: seq<T>, i: nat)
    requires i < |t|
    ensures multiset(FlatMap(f, t)) == multiset(f(t[i])) + multiset(FlatMap(f, Pool.Without(t, i)))
  {
    var a, b := t[..i], t[i + 1..];
    assert t == t[..i + 1] + b;
    FlatMapAppend(f, t[..i + 1], b);
    FlatMapNext(f, t, i, []);
    FlatMapAppend(f, a, b);
  }

  lemma {:induction false} InFlatMap<T, U>(f: T -> seq<U>, s: seq<T>, x: U)
    ensures x in FlatMap(f, s) <==> exists i :: 0 <= i < |s| && x in f(s[i])
  {
    if s != [] {
      InFlatMap(f, s[1..], x);
      if i :| 0 <= i < |s[1..]| && x in f(s[1..][i]) {
        assert x in f(s[i + 1]);
      }
      if i :| 0 <= i < |s| && x in f(s[i]) {
        if i > 0 { assert x in f(s[1..][i - 1]); }
      }
    }
  }

  lemma {:induction false} NoDupFlatMap<T, U>(f: T -> seq<U>, s: seq<T>)
    requires forall i :: 0 <= i < |s| ==> NoDup(f(s[i]))
    requires forall i, j, x :: 0 <= i < j < |s| && x in f(s[i]) ==> x !in f(s[j])
    ensures NoDup(FlatMap(f, s))
  {
    if s != [] {
      var rest := s[1..];
      assert forall i :: 0 <= i < |rest| ==> rest[i] == s[i + 1];
      NoDupFlatMap(f, rest);
      forall x | x in f(s[0]) ensures x !in FlatMap(f, rest) {
        InFlatMap(f, rest, x);
      }
      assert forall x :: x in multiset(f(s[0])) ==> x in f(s[0]);
      assert forall x :: x in multiset(FlatMap(f, rest)) ==> x in FlatMap(f, rest);
    }
  }
}
