/** `EvalRunner::run` itself: preflight, grouping, phase 0, the two concurrent phases and their
    merges, with the accumulators it updates in place. */
module EvalRun {
  import opened Wrappers
  import opened Sorting
  import opened KeyOrder
  import opened SpaceManifest
  import opened RunPlan
  import opened Runner
  import opened RunSchedule
  import Pool
  import Scheduler

  /** Running tally over every recorded question. */
  class IncrementalTracker {
    const total: nat
    var done: nat
    var scoreSum: real

    constructor (total: nat)
      ensures this.total == total && done == 0 && scoreSum == 0.0
    {
      this.total := total;
      done, scoreSum := 0, 0.0;
    }

    method Record(result: QuestionResult)
      modifies this
      ensures done == old(done) + 1 && scoreSum == old(scoreSum) + result.score
    {
      done := done + 1;
      scoreSum := scoreSum + result.score;
    }
  }

  /** The two result vectors of a run, filled in step with the tracker. */
  class Accumulators {
    const tracker: IncrementalTracker
    var results: seq<QuestionResult>
    var records: seq<QuestionRecord>

    ghost predicate Valid()
      reads this, tracker
    {
      && results == Pool.Map(ResultOf, records)
      && tracker.done == |results| && tracker.scoreSum == ScoreSum(results)
    }

    constructor (total: nat)
      ensures Valid() && records == [] && fresh(tracker)
    {
      tracker := new IncrementalTracker(total);
      results, records := [], [];
    }

    method Append(rec: QuestionRecord)
      requires Valid()
      modifies this, tracker
      ensures Valid() && records == old(records) + [rec]
    {
      tracker.Record(rec.result);
      records := records + [rec];
      results := results + [rec.result];
      assert results[..|results| - 1] == old(results);
      Pool.MapIs(ResultOf, records);
      Pool.MapIs(ResultOf, old(records));
    }

    /** `record_failed` over every question of a conversation that phase 1 lost. */
    method RecordFailed(instances: seq<Instance>, o: IngestOutcome)
      requires Valid() && !Established(o)
      modifies this, tracker
      ensures Valid() && records == old(records) + FailedRecords(instances)(o)
    {
      ghost var all := FailedRecords(instances)(o);
      for i := 0 to |o.idxs|
        invariant Valid() && records == old(records) + all[..i]
      {
        var rec := FailedRecord(At(instances, o.idxs[i]), FailureReason(o), true);
        assert all[..i + 1] == all[..i] + [rec];
        Append(rec);
      }
      assert all[..|o.idxs|] == all;
    }

    /** One outcome of phase 1: passed on to phase 2, or its questions recorded as failed. */
    method MergeOutcome(instances: seq<Instance>, o: IngestOutcome) returns (prepared: seq<Prepared>)
      requires Valid()
      modifies this, tracker
      ensures Valid() && records == old(records) + FailedRecords(instances)(o)
      ensures prepared == PreparedFrom(o)
    {
      if Established(o) {
        return [Prepared(o.convKey, o.idxs, o.space.value, o.cw)];
      }
      RecordFailed(instances, o);
      return [];
    }

    /** The phase-1 merge: walks the outcomes in the order given, passing on the conversations that
        were established and recording the questions of those that were not. */
    method MergeIngest(instances: seq<Instance>, outcomes: seq<IngestOutcome>, readOnly: bool)
      returns (prepared: seq<Prepared>, ingestedAny: bool)
      requires Valid()
      modifies this, tracker
      ensures Valid() && records == old(records) + FlatMap(FailedRecords(instances), outcomes)
      ensures prepared == PreparedOf(outcomes)
      ensures ingestedAny == (!readOnly && prepared != [])
    {
      prepared, ingestedAny := [], false;
      assert outcomes[..|outcomes|] == outcomes;
      for i := 0 to |outcomes|
        invariant Valid() && records == old(records) + FlatMap(FailedRecords(instances), outcomes[..i])
        invariant prepared == PreparedOf(outcomes[..i])
        invariant ingestedAny == (!readOnly && prepared != [])
      {
        FlatMapNext(FailedRecords(instances), outcomes, i, old(records));
        FlatMapNext(PreparedFrom, outcomes, i, []);
        var more := MergeOutcome(instances, outcomes[i]);
        ingestedAny := ingestedAny || (!readOnly && more != []);
        prepared := prepared + more;
      }
    }

    method AppendAll(merged: seq<Merged>)
      requires Valid()
      modifies this, tracker
      ensures Valid() && records == old(records) + Pool.Map(RecordOf, merged)
    {
      ghost var all := Pool.Map(RecordOf, merged);
      for i := 0 to |merged|
        invariant Valid() && records == old(records) + all[..i]
      {
        assert all[..i + 1] == all[..i] + [merged[i].record];
        Append(merged[i].record);
      }
      assert all[..|merged|] == all;
    }

    /** The phase-2 merge: gathers what the groups returned, sorts the ledger by conversation and the
        questions by instance index, and records the questions. */
    method MergeReadBack(groups: seq<GroupOutcome>) returns (writes: seq<ConversationWrite>)
      requires Valid()
      modifies this, tracker
      ensures Valid() && records == old(records) + Pool.Map(RecordOf, Restored(groups))
      ensures writes == Sort(FlatMap(WriteOf, groups), ByConversation)
    {
      var merged;
      writes, merged := Gather(groups);
      writes := Sort(writes, ByConversation);
      AppendAll(Sort(merged, ByIndex));
    }
  }

  /** What the groups returned, in the order they finished. */
  method Gather(groups: seq<GroupOutcome>) returns (writes: seq<ConversationWrite>, merged: seq<Merged>)
    ensures writes == FlatMap(WriteOf, groups) && merged == FlatMap(QuestionsOf, groups)
  {
    writes, merged := [], [];
    for i := 0 to |groups|
      invariant writes == FlatMap(WriteOf, groups[..i]) && merged == FlatMap(QuestionsOf, groups[..i])
    {
      FlatMapNext(WriteOf, groups, i, []);
      FlatMapNext(QuestionsOf, groups, i, []);
      if groups[i].write.Some? {
        writes := writes + [groups[i].write.value];
      }
      merged := merged + groups[i].questions;
    }
    assert groups[..|groups|] == groups;
  }

  /** The report over what has been accumulated. */
  method Assemble(acc: Accumulators, writes: seq<ConversationWrite>) returns (report: Report)
    requires acc.Valid()
    ensures report == ReportOf(acc.records, writes)
  {
    report := Report(acc.results, acc.records, writes, acc.tracker.done, acc.tracker.scoreSum);
  }

  /** A run either stops at the preflight mint or finishes with its report, the spaces it persisted,
      and whether it waited on the write-drain barrier. */
  datatype Outcome = PreflightFailed | Finished(report: Report, saved: map<string, string>, waited: bool)

  /** Phase 1 over a plan: ingest under the scheduler, then merge. */
  method IngestPhase(acc: Accumulators, server: Server, cfg: Config, instances: seq<Instance>, slots: nat,
                     planned: seq<Planned>)
    returns (prepared: seq<Prepared>, waited: bool)
    requires 1 <= slots && Ready(planned) && acc.Valid() && acc.records == []
    modifies acc, acc.tracker
    ensures acc.Valid() && acc.records == Failures(server, cfg, instances, planned)
    ensures prepared == PreparedOf(Ingested(server, cfg, instances, planned))
    ensures waited == (cfg.mode.readOnly.None? && prepared != [])
  {
    var ingested, _ := Scheduler.Collect(Ingest(server, cfg, instances), slots, planned);
    IngestOrderRestored(server, cfg, instances, planned, ingested);
    prepared, waited := acc.MergeIngest(instances, Sort(ingested, ByKey), cfg.mode.readOnly.Some?);
  }

  /** Phase 2 over what phase 1 prepared: read back under the scheduler, then merge. */
  method ReadPhase(acc: Accumulators, server: Server, cfg: Config, instances: seq<Instance>, slots: nat,
                   ghost planned: seq<Planned>,
                   prepared: seq<Prepared>, tokens: map<Uuid, string>)
    returns (writes: seq<ConversationWrite>)
    requires 1 <= slots && Ready(planned) && acc.Valid()
    requires acc.records == Failures(server, cfg, instances, planned)
    requires prepared == PreparedOf(Ingested(server, cfg, instances, planned))
    modifies acc, acc.tracker
    ensures acc.Valid()
    ensures acc.records ==
            Failures(server, cfg, instances, planned) +
              Pool.Map(RecordOf, Reads(server, cfg, instances, tokens, planned))
    ensures writes == Writes(server, cfg, instances, tokens, planned)
  {
    var outcomes, _ := Scheduler.Collect(Read(server, cfg, instances, tokens), slots, prepared);
    ReadBackForgetsOrder(server, cfg, instances, tokens, planned, outcomes);
    writes := acc.MergeReadBack(outcomes);
  }

  /** Phases 1 and 2. `Scheduler.Collect` leaves the order in which conversations finish open, and the
      report is nevertheless determined. */
  method RunPhases(server: Server, cfg: Config, instances: seq<Instance>, slots: nat, planned: seq<Planned>,
                   tokens: map<Uuid, string>)
    returns (report: Report, waited: bool)
    requires 1 <= slots && Ready(planned)
    ensures report == Canonical(server, cfg, instances, tokens, planned)
    ensures waited == (cfg.mode.readOnly.None? && PreparedOf(Ingested(server, cfg, instances, planned)) != [])
  {
    var acc := new Accumulators(|instances|);
    var prepared;
    prepared, waited := IngestPhase(acc, server, cfg, instances, slots, planned);
    var writes := ReadPhase(acc, server, cfg, instances, slots, planned, prepared, tokens);
    report := Assemble(acc, writes);
  }

  /** The whole run. */
  method Run(admin: Admin, server: Server, cfg: Config, instances: seq<Instance>, concurrency: nat) returns (r: Outcome)
    ensures r.PreflightFailed? <==> admin.mint(0, admin.newId(0)).None?
    ensures r.Finished? ==>
              var p := PlanOf(instances, cfg.mode, admin);
              && r.report == Canonical(server, cfg, instances, p.tokens, p.planned)
              && r.saved == p.saved
              && r.waited == (cfg.mode.readOnly.None? && PreparedOf(Ingested(server, cfg, instances, p.planned)) != [])
  {
    var groups := GroupInstances(instances);
    var minter := new KeyMinter(admin);
    var preflight := minter.Mint(admin.newId(0));
    if preflight.None? {
      return PreflightFailed;
    }
    minter.granted := [];
    var cache := new TokenCache();
    var manifest := new Manifest();
    var keys := KeysInOrder(groups);
    assert keys == KeysOf(instances);
    var planned := PlanConversations(cfg.mode, minter, cache, manifest, groups, keys);
    PlanIsReady(instances, cfg.mode, admin);
    var report, waited :=
      RunPhases(server, cfg, instances, if concurrency < 1 then 1 else concurrency, planned, cache.tokens);
    return Finished(report, manifest.spaces, waited);
  }
}
