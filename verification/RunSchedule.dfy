/** The concurrent run as a whole. Phase 1 and phase 2 each run the scheduler of `Pool`; the report
    is the same for every schedule of either. */
module RunSchedule {
  import opened Wrappers
  import opened Sorting
  import opened KeyOrder
  import opened SpaceManifest
  import opened RunPlan
  import opened Runner
  import Pool
  import PoolRuns

  /** What phase 0 leaves: distinct keys in order, and disjoint index lists in instance order. */
  ghost predicate Ready(planned: seq<Planned>) {
    && (forall i, j :: 0 <= i < j < |planned| ==>
          KeyAtMost(planned[i].convKey, planned[j].convKey) && planned[i].convKey != planned[j].convKey)
    && (forall i, j, x :: 0 <= i < j < |planned| && x in planned[i].idxs ==> x !in planned[j].idxs)
    && (forall i :: 0 <= i < |planned| ==> Increasing(planned[i].idxs))
  }

  ghost predicate Listed(planned: seq<Planned>, idx: nat) {
    exists j :: 0 <= j < |planned| && idx in planned[j].idxs
  }

  ghost function KeysOf(instances: seq<Instance>): (keys: seq<string>)
    ensures Covers(Groups(instances), keys)
  {
    assert forall k :: k in Groups(instances) ==> Groups(instances)[k] != [] by {
      forall k | k in Groups(instances) ensures Groups(instances)[k] != [] {
        GroupsPartition(instances, k);
      }
    }
    OrderedKeys(Groups(instances).Keys)
  }

  /** The plan a run works from. */
  ghost function PlanOf(instances: seq<Instance>, mode: Mode, admin: Admin): Plan {
    PlanAll(mode, admin, Groups(instances), KeysOf(instances))
  }

  lemma PlanIsReady(instances: seq<Instance>, mode: Mode, admin: Admin)
    ensures Ready(PlanOf(instances, mode, admin).planned)
    ensures CacheInv(PlanOf(instances, mode, admin))
  {
    var groups := Groups(instances);
    var keys := KeysOf(instances);
    CacheHolds(mode, admin, groups, keys);
    PlannedIsReady(instances, keys, PlanOf(instances, mode, admin).planned);
  }

  lemma PlannedIsReady(instances: seq<Instance>, keys: seq<string>, planned: seq<Planned>)
    requires keys == OrderedKeys(Groups(instances).Keys) && |planned| == |keys|
    requires forall i :: 0 <= i < |keys| ==>
             planned[i].convKey == keys[i] && planned[i].idxs == Groups(instances)[keys[i]]
    ensures Ready(planned)
  {
    OrderedKeysAreStrict(Groups(instances).Keys);
    forall i | 0 <= i < |planned| ensures Increasing(planned[i].idxs) {
      GroupsPartition(instances, keys[i]);
    }
    forall i, j, x | 0 <= i < j < |planned| && x in planned[i].idxs ensures x !in planned[j].idxs {
      GroupsPartition(instances, keys[i]);
      GroupsPartition(instances, keys[j]);
    }
  }

  /** Every instance belongs to a planned conversation, and nothing else does. */
  lemma PlanListsInstances(instances: seq<Instance>, mode: Mode, admin: Admin, idx: nat)
    ensures Listed(PlanOf(instances, mode, admin).planned, idx) <==> idx < |instances|
  {
    var keys := KeysOf(instances);
    var planned := PlanOf(instances, mode, admin).planned;
    if idx < |instances| {
      var key := KeyOf(instances[idx]);
      GroupsPartition(instances, key);
      assert key in keys;
      var j :| 0 <= j < |keys| && keys[j] == key;
      assert planned[j].idxs == Groups(instances)[key];
    }
    if j :| 0 <= j < |planned| && idx in planned[j].idxs {
      assert planned[j].idxs == Groups(instances)[keys[j]];
      GroupsPartition(instances, keys[j]);
    }
  }

  /** Phase 1's outcomes in key order, and the conversations that go on to phase 2. */
  function Ingested(server: Server, cfg: Config, instances: seq<Instance>, planned: seq<Planned>): seq<IngestOutcome> {
    Pool.Map(Ingest(server, cfg, instances), planned)
  }

  function PreparedOf(outcomes: seq<IngestOutcome>): seq<Prepared> { FlatMap(PreparedFrom, outcomes) }

  /** The questions of the canonical report that phase 2 produced. */
  function Reads(server: Server, cfg: Config, instances: seq<Instance>, tokens: map<Uuid, string>,
                 planned: seq<Planned>): seq<Merged> {
    Restored(Pool.Map(Read(server, cfg, instances, tokens), PreparedOf(Ingested(server, cfg, instances, planned))))
  }

  /** The conversation ledger, in conversation order. */
  function Writes(server: Server, cfg: Config, instances: seq<Instance>, tokens: map<Uuid, string>,
                  planned: seq<Planned>): seq<ConversationWrite> {
    Sort(FlatMap(WriteOf,
      Pool.Map(Read(server, cfg, instances, tokens), PreparedOf(Ingested(server, cfg, instances, planned)))),
        ByConversation)
  }

  /** Phase-1 failures in conversation-key order. */
  function Failures(server: Server, cfg: Config, instances: seq<Instance>, planned: seq<Planned>): seq<QuestionRecord> {
    FlatMap(FailedRecords(instances), Ingested(server, cfg, instances, planned))
  }

  /** The report, without any schedule: the failures of phase 1, then the questions of phase 2 in
      instance order. */
  function Canonical(server: Server, cfg: Config, instances: seq<Instance>, tokens: map<Uuid, string>,
                     planned: seq<Planned>): Report {
    ReportOf(Failures(server, cfg, instances, planned) +
      Pool.Map(RecordOf, Reads(server, cfg, instances, tokens, planned)),
             Writes(server, cfg, instances, tokens, planned))
  }

  lemma IngestOrderRestored(server: Server, cfg: Config, instances: seq<Instance>, planned: seq<Planned>,
                            done: seq<IngestOutcome>)
    requires Ready(planned)
    requires multiset(done) == multiset(Ingested(server, cfg, instances, planned))
    ensures Sort(done, ByKey) == Ingested(server, cfg, instances, planned)
    ensures Sort(Ingested(server, cfg, instances, planned), ByKey) == Ingested(server, cfg, instances, planned)
  {
    var ingested := Ingested(server, cfg, instances, planned);
    ByKeyIsOrder();
    assert Sorted(ByKey, ingested);
    forall i, j | 0 <= i < |ingested| && 0 <= j < |ingested| && ByKey(ingested[i], ingested[j]) &&
      ByKey(ingested[j], ingested[i])
      ensures ingested[i] == ingested[j]
    {
      KeyAntisymmetric(ingested[i].convKey, ingested[j].convKey);
    }
    SortForgetsOrder(ingested, done, ByKey);
    SortOfSorted(ingested, ByKey);
  }

  /** A prepared conversation comes from the planned one with its key and questions. */
  lemma PreparedOrigin(server: Server, cfg: Config, instances: seq<Instance>, planned: seq<Planned>, pre: Prepared)
    returns (i: nat)
    requires pre in PreparedOf(Ingested(server, cfg, instances, planned))
    ensures i < |planned| && pre.convKey == planned[i].convKey && pre.idxs == planned[i].idxs
    ensures planned[i].space.Some? && planned[i].space.value.0 == pre.space
    ensures [pre] == PreparedFrom(IngestOne(server, cfg, instances, planned[i]))
  {
    var ingested := Ingested(server, cfg, instances, planned);
    InFlatMap(PreparedFrom, ingested, pre);
    i :| 0 <= i < |ingested| && pre in PreparedFrom(ingested[i]);
  }

  lemma OnePreparedPerQuestion(server: Server, cfg: Config, instances: seq<Instance>, planned: seq<Planned>,
                               a: Prepared, b: Prepared)
    requires Ready(planned)
    requires a in PreparedOf(Ingested(server, cfg, instances, planned))
    requires b in PreparedOf(Ingested(server, cfg, instances, planned))
    requires a.convKey == b.convKey || exists x :: x in a.idxs && x in b.idxs
    ensures a == b
  {
    var i := PreparedOrigin(server, cfg, instances, planned, a);
    var j := PreparedOrigin(server, cfg, instances, planned, b);
    assert i == j;
    assert [a] == [b];
  }

  /** Every phase-2 question is `Question` of the one prepared conversation that lists it. */
  lemma QuestionOrigin(server: Server, cfg: Config, instances: seq<Instance>, tokens: map<Uuid, string>,
                       prepared: seq<Prepared>, m: Merged)
    returns (pre: Prepared)
    requires m in FlatMap(QuestionsOf, Pool.Map(Read(server, cfg, instances, tokens), prepared))
    ensures pre in prepared && m.idx in pre.idxs
    ensures m == Question(server, instances, Cached(tokens, pre), pre, m.idx)
  {
    var groups := Pool.Map(Read(server, cfg, instances, tokens), prepared);
    InFlatMap(QuestionsOf, groups, m);
    var i :| 0 <= i < |groups| && m in QuestionsOf(groups[i]);
    pre := prepared[i];
    var j :| 0 <= j < |groups[i].questions| && groups[i].questions[j] == m;
    assert m.idx == pre.idxs[j];
  }

  lemma WriteOrigin(server: Server, cfg: Config, instances: seq<Instance>, tokens: map<Uuid, string>,
                    prepared: seq<Prepared>, w: ConversationWrite)
    returns (pre: Prepared)
    requires w in FlatMap(WriteOf, Pool.Map(Read(server, cfg, instances, tokens), prepared))
    ensures pre in prepared && w == ConversationWrite(pre.convKey, pre.space, pre.cw)
  {
    var groups := Pool.Map(Read(server, cfg, instances, tokens), prepared);
    InFlatMap(WriteOf, groups, w);
    var i :| 0 <= i < |groups| && w in WriteOf(groups[i]);
    pre := prepared[i];
  }

  lemma QuestionsSeparate(server: Server, cfg: Config, instances: seq<Instance>, tokens: map<Uuid, string>,
                          planned: seq<Planned>)
    requires Ready(planned)
    ensures Separates(ByIndex,
            FlatMap(QuestionsOf,
              Pool.Map(Read(server, cfg, instances, tokens), PreparedOf(Ingested(server, cfg, instances, planned)))))
  {
    var prepared := PreparedOf(Ingested(server, cfg, instances, planned));
    var qs := FlatMap(QuestionsOf, Pool.Map(Read(server, cfg, instances, tokens), prepared));
    forall i, j | 0 <= i < |qs| && 0 <= j < |qs| && ByIndex(qs[i], qs[j]) && ByIndex(qs[j], qs[i])
      ensures qs[i] == qs[j]
    {
      var a := QuestionOrigin(server, cfg, instances, tokens, prepared, qs[i]);
      var b := QuestionOrigin(server, cfg, instances, tokens, prepared, qs[j]);
      OnePreparedPerQuestion(server, cfg, instances, planned, a, b);
    }
  }

  lemma WritesSeparate(server: Server, cfg: Config, instances: seq<Instance>, tokens: map<Uuid, string>,
                       planned: seq<Planned>)
    requires Ready(planned)
    ensures Separates(ByConversation,
            FlatMap(WriteOf,
              Pool.Map(Read(server, cfg, instances, tokens), PreparedOf(Ingested(server, cfg, instances, planned)))))
  {
    var prepared := PreparedOf(Ingested(server, cfg, instances, planned));
    var ws := FlatMap(WriteOf, Pool.Map(Read(server, cfg, instances, tokens), prepared));
    forall i, j | 0 <= i < |ws| && 0 <= j < |ws| && ByConversation(ws[i], ws[j]) && ByConversation(ws[j], ws[i])
      ensures ws[i] == ws[j]
    {
      KeyAntisymmetric(ws[i].conversationId, ws[j].conversationId);
      var a := WriteOrigin(server, cfg, instances, tokens, prepared, ws[i]);
      var b := WriteOrigin(server, cfg, instances, tokens, prepared, ws[j]);
      OnePreparedPerQuestion(server, cfg, instances, planned, a, b);
    }
  }

  /** The read-back merge sees only which groups were collected, not in what order. */
  lemma ReadBackForgetsOrder(server: Server, cfg: Config, instances: seq<Instance>, tokens: map<Uuid, string>,
                             planned: seq<Planned>, groups: seq<GroupOutcome>)
    requires Ready(planned)
    requires multiset(groups) ==
             multiset(Pool.Map(Read(server, cfg, instances, tokens),
               PreparedOf(Ingested(server, cfg, instances, planned))))
    ensures Restored(groups) == Reads(server, cfg, instances, tokens, planned)
    ensures Sort(FlatMap(WriteOf, groups), ByConversation) == Writes(server, cfg, instances, tokens, planned)
  {
    var inOrder :=
      Pool.Map(Read(server, cfg, instances, tokens), PreparedOf(Ingested(server, cfg, instances, planned)));
    QuestionsSeparate(server, cfg, instances, tokens, planned);
    FlatMapForgetsOrder(QuestionsOf, inOrder, groups);
    SortForgetsOrder(FlatMap(QuestionsOf, inOrder), FlatMap(QuestionsOf, groups), ByIndex);
    WritesSeparate(server, cfg, instances, tokens, planned);
    FlatMapForgetsOrder(WriteOf, inOrder, groups);
    ByConversationIsOrder();
    SortForgetsOrder(FlatMap(WriteOf, inOrder), FlatMap(WriteOf, groups), ByConversation);
  }

  lemma CollectedInAnyOrder(server: Server, cfg: Config, instances: seq<Instance>, tokens: map<Uuid, string>,
                            planned: seq<Planned>, ingested: seq<IngestOutcome>, groups: seq<GroupOutcome>)
    requires Ready(planned)
    requires multiset(ingested) == multiset(Ingested(server, cfg, instances, planned))
    requires multiset(groups) ==
             multiset(Pool.Map(Read(server, cfg, instances, tokens), PreparedOf(Sort(ingested, ByKey))))
    ensures MergeAll(instances, ingested, groups) == Canonical(server, cfg, instances, tokens, planned)
  {
    IngestOrderRestored(server, cfg, instances, planned, ingested);
    ReadBackForgetsOrder(server, cfg, instances, tokens, planned, groups);
    IngestOrderRestored(server, cfg, instances, planned, Ingested(server, cfg, instances, planned));
  }

  /** For every schedule of the bounded-concurrent ingest and every schedule of the bounded-concurrent
      read-back, at whatever two slot counts, the report is the canonical one. */
  lemma ReportIgnoresSchedule(server: Server, cfg: Config, instances: seq<Instance>, tokens: map<Uuid, string>,
                              planned: seq<Planned>, c1: nat, run1: seq<Pool.State<Planned, IngestOutcome>>, c2: nat,
                                run2: seq<Pool.State<Prepared, GroupOutcome>>)
    requires Ready(planned)
    requires Pool.IsRun(Ingest(server, cfg, instances), c1, planned, run1) && Pool.Drained(run1[|run1| - 1])
    requires Pool.IsRun(Read(server, cfg, instances, tokens), c2, PreparedOf(Sort(run1[|run1| - 1].done, ByKey)), run2)
    requires Pool.Drained(run2[|run2| - 1])
    ensures MergeAll(instances, run1[|run1| - 1].done, run2[|run2| - 1].done) ==
            Canonical(server, cfg, instances, tokens, planned)
  {
    PoolRuns.DrainedRun(Ingest(server, cfg, instances), c1, planned, run1);
    PoolRuns.DrainedRun(Read(server, cfg, instances, tokens), c2, PreparedOf(Sort(run1[|run1| - 1].done, ByKey)), run2);
    CollectedInAnyOrder(server, cfg, instances, tokens, planned, run1[|run1| - 1].done, run2[|run2| - 1].done);
  }

  /** Phase 2 never meets a missing token: every conversation that gets there has its space cached. */
  lemma TokenIsCached(server: Server, cfg: Config, instances: seq<Instance>, p: Plan, pre: Prepared)
    requires CacheInv(p) && pre in PreparedOf(Ingested(server, cfg, instances, p.planned))
    ensures pre.space in p.tokens && Cached(p.tokens, pre).Some?
  {
    var i := PreparedOrigin(server, cfg, instances, p.planned, pre);
    assert p.planned[i] in p.planned;
  }
}
