/** Which questions the report answers for, and in what order: what each conversation's questions
    come to, when the order is that of the instances, and a run in which it is not. */
module ReportOrder {
  import opened Wrappers
  import opened Sorting
  import opened KeyOrder
  import opened SpaceManifest
  import opened RunPlan
  import opened Runner
  import opened RunSchedule
  import Pool

  // ---- the order of the questions ----

  /** The instance index of each line of the report. */
  function Order(server: Server, cfg: Config, instances: seq<Instance>, tokens: map<Uuid, string>,
                 planned: seq<Planned>): seq<nat> {
    FlatMap(FailedIdxs, Ingested(server, cfg, instances, planned)) +
      Pool.Map(IndexOf, Reads(server, cfg, instances, tokens, planned))
  }

  lemma {:induction false} FailedLines(instances: seq<Instance>, outcomes: seq<IngestOutcome>)
    ensures var recs, idxs := FlatMap(FailedRecords(instances), outcomes), FlatMap(FailedIdxs, outcomes);
            && |recs| == |idxs|
            && forall i :: 0 <= i < |idxs| ==>
                 recs[i].result.questionId == At(instances, idxs[i]).questionId && recs[i].result.ingestionFailed
  {
    if outcomes != [] {
      FailedLines(instances, outcomes[1..]);
      var head, idxs := FailedRecords(instances)(outcomes[0]), FailedIdxs(outcomes[0]);
      assert |head| == |idxs|;
      assert forall i :: 0 <= i < |idxs| ==> head[i].result.questionId == At(instances, idxs[i]).questionId;
    }
  }

  lemma NoDupIncreasing(s: seq<nat>)
    requires Increasing(s)
    ensures NoDup(s)
  {
    NoDupFromApart(s);
  }

  lemma FailuresOnce(server: Server, cfg: Config, instances: seq<Instance>, planned: seq<Planned>)
    requires Ready(planned)
    ensures NoDup(FlatMap(FailedIdxs, Ingested(server, cfg, instances, planned)))
  {
    var ingested := Ingested(server, cfg, instances, planned);
    forall i | 0 <= i < |ingested| ensures NoDup(FailedIdxs(ingested[i])) {
      NoDupIncreasing(FailedIdxs(ingested[i]));
    }
    NoDupFlatMap(FailedIdxs, ingested);
  }

  lemma PreparedOnce(server: Server, cfg: Config, instances: seq<Instance>, planned: seq<Planned>)
    requires Ready(planned)
    ensures NoDup(PreparedOf(Ingested(server, cfg, instances, planned)))
  {
    var ingested := Ingested(server, cfg, instances, planned);
    NoDupFlatMap(PreparedFrom, ingested);
  }

  lemma QuestionsOnce(server: Server, cfg: Config, instances: seq<Instance>, tokens: map<Uuid, string>,
                      planned: seq<Planned>)
    requires Ready(planned)
    ensures NoDup(FlatMap(QuestionsOf,
            Pool.Map(Read(server, cfg, instances, tokens), PreparedOf(Ingested(server, cfg, instances, planned)))))
  {
    var prepared := PreparedOf(Ingested(server, cfg, instances, planned));
    var groups := Pool.Map(Read(server, cfg, instances, tokens), prepared);
    PreparedOnce(server, cfg, instances, planned);
    forall i | 0 <= i < |groups| ensures NoDup(QuestionsOf(groups[i])) {
      var k := PreparedOrigin(server, cfg, instances, planned, prepared[i]);
      NoDupFromApart(QuestionsOf(groups[i]));
    }
    forall i, j, m | 0 <= i < j < |groups| && m in QuestionsOf(groups[i]) ensures m !in QuestionsOf(groups[j]) {
      NoDupApart(prepared, i, j);
      if m in QuestionsOf(groups[j]) {
        assert m.idx in prepared[i].idxs && m.idx in prepared[j].idxs;
        OnePreparedPerQuestion(server, cfg, instances, planned, prepared[i], prepared[j]);
        assert false;
      }
    }
    NoDupFlatMap(QuestionsOf, groups);
  }

  /** Phase-2 questions appear in strictly increasing instance order, whatever conversations they
      belong to. */
  lemma ReadsInInstanceOrder(server: Server, cfg: Config, instances: seq<Instance>, tokens: map<Uuid, string>,
                             planned: seq<Planned>)
    requires Ready(planned)
    ensures Increasing(Pool.Map(IndexOf, Reads(server, cfg, instances, tokens, planned)))
  {
    var qs :=
      FlatMap(QuestionsOf,
        Pool.Map(Read(server, cfg, instances, tokens), PreparedOf(Ingested(server, cfg, instances, planned))));
    var asked := Reads(server, cfg, instances, tokens, planned);
    QuestionsSeparate(server, cfg, instances, tokens, planned);
    QuestionsOnce(server, cfg, instances, tokens, planned);
    SortPermutes(qs, ByIndex);
    SortSorts(qs, ByIndex);
    SeparatesPermuted(qs, asked, ByIndex);
    Pool.MapIs(IndexOf, asked);
    forall i, j | 0 <= i < j < |asked| ensures asked[i].idx < asked[j].idx {
      NoDupApart(asked, i, j);
      assert ByIndex(asked[i], asked[j]);
    }
  }

  ghost predicate SomeQuestion(qs: seq<Merged>, idx: nat) {
    exists m :: m in qs && m.idx == idx
  }

  lemma InRestored(groups: seq<GroupOutcome>, idx: nat)
    ensures idx in Pool.Map(IndexOf, Restored(groups)) <==> SomeQuestion(FlatMap(QuestionsOf, groups), idx)
  {
    var qs, asked := FlatMap(QuestionsOf, groups), Restored(groups);
    SortPermutes(qs, ByIndex);
    SameElements(qs, asked);
    Pool.MapIs(IndexOf, asked);
    if idx in Pool.Map(IndexOf, asked) {
      var b :| 0 <= b < |asked| && asked[b].idx == idx;
      assert asked[b] in qs;
    }
    if m :| m in qs && m.idx == idx {
      var b :| 0 <= b < |asked| && asked[b] == m;
      assert Pool.Map(IndexOf, asked)[b] == idx;
    }
  }

  lemma InGroups(groups: seq<GroupOutcome>, idx: nat)
    ensures SomeQuestion(FlatMap(QuestionsOf, groups), idx) <==>
            exists k :: 0 <= k < |groups| && SomeQuestion(groups[k].questions, idx)
  {
    if m :| m in FlatMap(QuestionsOf, groups) && m.idx == idx {
      InFlatMap(QuestionsOf, groups, m);
      var k :| 0 <= k < |groups| && m in QuestionsOf(groups[k]);
      assert SomeQuestion(groups[k].questions, idx);
    }
    if k :| 0 <= k < |groups| && SomeQuestion(groups[k].questions, idx) {
      var m :| m in groups[k].questions && m.idx == idx;
      assert m in QuestionsOf(groups[k]);
      InFlatMap(QuestionsOf, groups, m);
    }
  }

  /** The index of a phase-2 line is one of a prepared conversation's, and conversely. */
  lemma ReadsAreOfPrepared(server: Server, cfg: Config, instances: seq<Instance>, tokens: map<Uuid, string>,
                           planned: seq<Planned>, idx: nat)
    ensures var prepared := PreparedOf(Ingested(server, cfg, instances, planned));
            idx in Pool.Map(IndexOf, Reads(server, cfg, instances, tokens, planned)) <==>
              exists k :: 0 <= k < |prepared| && IsAsked(server, cfg, instances, tokens, prepared[k], idx)
  {
    var prepared := PreparedOf(Ingested(server, cfg, instances, planned));
    var groups := Pool.Map(Read(server, cfg, instances, tokens), prepared);
    InRestored(groups, idx);
    InGroups(groups, idx);
    assert forall k :: 0 <= k < |prepared| ==>
             SomeQuestion(groups[k].questions, idx) == IsAsked(server, cfg, instances, tokens, prepared[k], idx);
  }

  ghost predicate IsAsked(server: Server, cfg: Config, instances: seq<Instance>, tokens: map<Uuid, string>,
                          pre: Prepared, idx: nat) {
    SomeQuestion(ReadOne(server, cfg, instances, tokens, pre).questions, idx)
  }

  /** Whether a prepared conversation's questions get lines of their own: a run that only verifies the
      memory list records the questions of the conversations it could not reach again. */
  predicate Answered(server: Server, cfg: Config, tokens: map<Uuid, string>, pre: Prepared) {
    !cfg.verifyMemoryList || !Reached(server, Cached(tokens, pre), pre)
  }

  predicate AnsweredAfter(server: Server, cfg: Config, tokens: map<Uuid, string>, o: IngestOutcome) {
    Established(o) && Answered(server, cfg, tokens, PreparedFrom(o)[0])
  }

  lemma AskedExactly(server: Server, cfg: Config, instances: seq<Instance>, tokens: map<Uuid, string>, pre: Prepared,
                     idx: nat)
    ensures IsAsked(server, cfg, instances, tokens, pre, idx) <==> idx in pre.idxs && Answered(server, cfg, tokens, pre)
  {
    var qs := ReadOne(server, cfg, instances, tokens, pre).questions;
    if m :| m in qs && m.idx == idx {
      var j :| 0 <= j < |qs| && qs[j] == m;
      assert pre.idxs[j] == idx;
    }
    if idx in pre.idxs && Answered(server, cfg, tokens, pre) {
      var a :| 0 <= a < |pre.idxs| && pre.idxs[a] == idx;
      assert qs[a] in qs && qs[a].idx == idx;
    }
  }

  lemma FailedSide(server: Server, cfg: Config, instances: seq<Instance>, planned: seq<Planned>, j: nat, idx: nat)
    requires Ready(planned) && j < |planned| && idx in planned[j].idxs
    ensures idx in FlatMap(FailedIdxs, Ingested(server, cfg, instances, planned)) <==>
            !Established(IngestOne(server, cfg, instances, planned[j]))
  {
    var ingested := Ingested(server, cfg, instances, planned);
    InFlatMap(FailedIdxs, ingested, idx);
    if !Established(ingested[j]) {
      assert idx in FailedIdxs(ingested[j]);
    }
  }

  lemma ReadSide(server: Server, cfg: Config, instances: seq<Instance>, tokens: map<Uuid, string>,
                 planned: seq<Planned>, j: nat, idx: nat)
    requires Ready(planned) && j < |planned| && idx in planned[j].idxs
    ensures idx in Pool.Map(IndexOf, Reads(server, cfg, instances, tokens, planned)) <==>
            AnsweredAfter(server, cfg, tokens, IngestOne(server, cfg, instances, planned[j]))
  {
    var ingested := Ingested(server, cfg, instances, planned);
    var prepared := PreparedOf(ingested);
    ReadsAreOfPrepared(server, cfg, instances, tokens, planned, idx);
    if Established(ingested[j]) {
      var pre := PreparedFrom(ingested[j])[0];
      assert pre in PreparedFrom(ingested[j]);
      InFlatMap(PreparedFrom, ingested, pre);
      AskedExactly(server, cfg, instances, tokens, pre, idx);
    }
    if k :| 0 <= k < |prepared| && IsAsked(server, cfg, instances, tokens, prepared[k], idx) {
      AskedExactly(server, cfg, instances, tokens, prepared[k], idx);
      var i := PreparedOrigin(server, cfg, instances, planned, prepared[k]);
      assert i == j;
      assert [prepared[k]] == PreparedFrom(ingested[j]);
    }
  }

  /** What became of its conversation decides which half of the report a question is in, if any. */
  lemma WhereAnInstanceLands(server: Server, cfg: Config, instances: seq<Instance>, tokens: map<Uuid, string>,
                             planned: seq<Planned>, j: nat, idx: nat)
    requires Ready(planned) && j < |planned| && idx in planned[j].idxs
    ensures var o := IngestOne(server, cfg, instances, planned[j]);
            && (idx in FlatMap(FailedIdxs, Ingested(server, cfg, instances, planned)) <==> !Established(o))
            && (idx in Pool.Map(IndexOf, Reads(server, cfg, instances, tokens, planned)) <==>
                AnsweredAfter(server, cfg, tokens, o))
  {
    FailedSide(server, cfg, instances, planned, j, idx);
    ReadSide(server, cfg, instances, tokens, planned, j, idx);
  }

  lemma NotListedNotReported(server: Server, cfg: Config, instances: seq<Instance>, tokens: map<Uuid, string>,
                             planned: seq<Planned>, idx: nat)
    requires !Listed(planned, idx)
    ensures idx !in Order(server, cfg, instances, tokens, planned)
  {
    var ingested := Ingested(server, cfg, instances, planned);
    var prepared := PreparedOf(ingested);
    InFlatMap(FailedIdxs, ingested, idx);
    ReadsAreOfPrepared(server, cfg, instances, tokens, planned, idx);
    if k :| 0 <= k < |prepared| && IsAsked(server, cfg, instances, tokens, prepared[k], idx) {
      AskedExactly(server, cfg, instances, tokens, prepared[k], idx);
      var i := PreparedOrigin(server, cfg, instances, planned, prepared[k]);
      assert false;
    }
  }

  lemma NoDupConcat<T>(s: seq<T>, t: seq<T>)
    requires NoDup(s) && NoDup(t) && forall x :: x in s ==> x !in t
    ensures NoDup(s + t)
  {
    assert forall x :: x in multiset(s) ==> x in s;
    assert forall x :: x in multiset(t) ==> x in t;
  }

  lemma FailedOrigin(server: Server, cfg: Config, instances: seq<Instance>, planned: seq<Planned>, idx: nat)
    returns (j: nat)
    requires idx in FlatMap(FailedIdxs, Ingested(server, cfg, instances, planned))
    ensures j < |planned| && idx in planned[j].idxs && !Established(IngestOne(server, cfg, instances, planned[j]))
  {
    var ingested := Ingested(server, cfg, instances, planned);
    InFlatMap(FailedIdxs, ingested, idx);
    j :| 0 <= j < |ingested| && idx in FailedIdxs(ingested[j]);
  }

  lemma HalvesDisjoint(server: Server, cfg: Config, instances: seq<Instance>, tokens: map<Uuid, string>,
                       planned: seq<Planned>, idx: nat)
    requires Ready(planned)
    requires idx in FlatMap(FailedIdxs, Ingested(server, cfg, instances, planned))
    ensures idx !in Pool.Map(IndexOf, Reads(server, cfg, instances, tokens, planned))
  {
    var j := FailedOrigin(server, cfg, instances, planned, idx);
    ReadSide(server, cfg, instances, tokens, planned, j, idx);
  }

  /** No line of the report answers for the same instance twice. */
  lemma OrderHasNoDup(server: Server, cfg: Config, instances: seq<Instance>, tokens: map<Uuid, string>,
                      planned: seq<Planned>)
    requires Ready(planned)
    ensures NoDup(Order(server, cfg, instances, tokens, planned))
  {
    var failed := FlatMap(FailedIdxs, Ingested(server, cfg, instances, planned));
    var asked := Pool.Map(IndexOf, Reads(server, cfg, instances, tokens, planned));
    forall idx | idx in failed ensures idx !in asked {
      HalvesDisjoint(server, cfg, instances, tokens, planned, idx);
    }
    assert NoDup(failed) by { FailuresOnce(server, cfg, instances, planned); }
    assert NoDup(asked) by {
      ReadsInInstanceOrder(server, cfg, instances, tokens, planned);
      NoDupIncreasing(asked);
    }
    NoDupConcat(failed, asked);
  }

  // ---- the failures are in key order ----

  /** Each conversation's questions carry its key. */
  ghost predicate Grouped(instances: seq<Instance>, planned: seq<Planned>) {
    forall i, x :: 0 <= i < |planned| && x in planned[i].idxs ==> KeyOf(At(instances, x)) == planned[i].convKey
  }

  lemma PlanIsGrouped(instances: seq<Instance>, mode: Mode, admin: Admin)
    ensures Grouped(instances, PlanOf(instances, mode, admin).planned)
  {
    var keys, planned := KeysOf(instances), PlanOf(instances, mode, admin).planned;
    forall i, x | 0 <= i < |planned| && x in planned[i].idxs ensures KeyOf(At(instances, x)) == planned[i].convKey {
      assert planned[i].idxs == Groups(instances)[keys[i]];
      GroupsPartition(instances, keys[i]);
    }
  }

  /** By conversation key, and within a conversation by instance. */
  ghost predicate Before(instances: seq<Instance>, a: nat, b: nat) {
    var k, l := KeyOf(At(instances, a)), KeyOf(At(instances, b));
    KeyAtMost(k, l) && (k == l ==> a < b)
  }

  ghost predicate InKeyOrder(instances: seq<Instance>, idxs: seq<nat>) {
    forall i, j :: 0 <= i < j < |idxs| ==> Before(instances, idxs[i], idxs[j])
  }

  lemma {:induction false} KeySelf(k: string)
    ensures KeyAtMost(k, k)
  {
    if k != [] {
      KeySelf(k[1..]);
    }
  }

  lemma OneConversation(instances: seq<Instance>, key: string, idxs: seq<nat>)
    requires Increasing(idxs) && forall x :: x in idxs ==> KeyOf(At(instances, x)) == key
    ensures InKeyOrder(instances, idxs)
  {
    KeySelf(key);
    assert forall i :: 0 <= i < |idxs| ==> idxs[i] in idxs;
  }

  lemma InKeyOrderConcat(instances: seq<Instance>, s: seq<nat>, t: seq<nat>)
    requires InKeyOrder(instances, s) && InKeyOrder(instances, t)
    requires forall x, y :: x in s && y in t ==> Before(instances, x, y)
    ensures InKeyOrder(instances, s + t)
  {
    var u := s + t;
    forall i, j | 0 <= i < j < |u| ensures Before(instances, u[i], u[j]) {
      if i < |s| <= j {
        assert u[i] in s && u[j] in t;
      } else if |s| <= i {
        assert u[i] == t[i - |s|] && u[j] == t[j - |s|];
      }
    }
  }

  /** Outcomes in strict key order, each with its own conversation's questions. */
  ghost predicate Keyed(instances: seq<Instance>, outcomes: seq<IngestOutcome>) {
    && (forall i, j :: 0 <= i < j < |outcomes| ==>
          KeyAtMost(outcomes[i].convKey, outcomes[j].convKey) && outcomes[i].convKey != outcomes[j].convKey)
    && (forall i, x :: 0 <= i < |outcomes| && x in outcomes[i].idxs ==> KeyOf(At(instances, x)) == outcomes[i].convKey)
    && (forall i :: 0 <= i < |outcomes| ==> Increasing(outcomes[i].idxs))
  }

  lemma FirstBeforeRest(instances: seq<Instance>, outcomes: seq<IngestOutcome>, x: nat, y: nat)
    requires Keyed(instances, outcomes) && outcomes != []
    requires x in FailedIdxs(outcomes[0]) && y in FlatMap(FailedIdxs, outcomes[1..])
    ensures Before(instances, x, y)
  {
    InFlatMap(FailedIdxs, outcomes[1..], y);
    var i :| 0 <= i < |outcomes[1..]| && y in FailedIdxs(outcomes[1..][i]);
    assert y in outcomes[i + 1].idxs;
  }

  lemma {:induction false} FailuresInKeyOrder(instances: seq<Instance>, outcomes: seq<IngestOutcome>)
    requires Keyed(instances, outcomes)
    ensures InKeyOrder(instances, FlatMap(FailedIdxs, outcomes))
  {
    if outcomes != [] {
      var head, tail := FailedIdxs(outcomes[0]), FlatMap(FailedIdxs, outcomes[1..]);
      FailuresInKeyOrder(instances, outcomes[1..]);
      OneConversation(instances, outcomes[0].convKey, head);
      forall x, y | x in head && y in tail ensures Before(instances, x, y) {
        FirstBeforeRest(instances, outcomes, x, y);
      }
      InKeyOrderConcat(instances, head, tail);
    }
  }

  lemma IngestNames(server: Server, cfg: Config, instances: seq<Instance>, planned: seq<Planned>, i: nat)
    requires i < |planned|
    ensures var o := Ingested(server, cfg, instances, planned)[i];
            o.convKey == planned[i].convKey && o.idxs == planned[i].idxs
  {
  }

  lemma KeyedLikePlan(instances: seq<Instance>, planned: seq<Planned>, outcomes: seq<IngestOutcome>)
    requires Ready(planned) && Grouped(instances, planned) && |outcomes| == |planned|
    requires forall i :: 0 <= i < |planned| ==>
             outcomes[i].convKey == planned[i].convKey && outcomes[i].idxs == planned[i].idxs
    ensures Keyed(instances, outcomes)
  {
  }

  lemma IngestedIsKeyed(server: Server, cfg: Config, instances: seq<Instance>, planned: seq<Planned>)
    requires Ready(planned) && Grouped(instances, planned)
    ensures Keyed(instances, Ingested(server, cfg, instances, planned))
  {
    var outcomes := Ingested(server, cfg, instances, planned);
    forall i | 0 <= i < |planned|
      ensures outcomes[i].convKey == planned[i].convKey && outcomes[i].idxs == planned[i].idxs
    {
      IngestNames(server, cfg, instances, planned, i);
    }
    KeyedLikePlan(instances, planned, outcomes);
  }

  /** The two halves of the report: phase-1 failures by conversation key, then instance order. */
  ghost predicate InReportOrder(instances: seq<Instance>, failed: seq<nat>, asked: seq<nat>) {
    InKeyOrder(instances, failed) && Increasing(asked)
  }

  /** The question is in a conversation whose own phase-1 outcome was a failure. */
  ghost predicate Fails(server: Server, cfg: Config, instances: seq<Instance>, planned: seq<Planned>, idx: nat) {
    exists j :: 0 <= j < |planned| && idx in planned[j].idxs &&
      !Established(IngestOne(server, cfg, instances, planned[j]))
  }

  /** The question gets a line: its conversation failed, or is answered in phase 2. */
  ghost predicate IsReported(server: Server, cfg: Config, instances: seq<Instance>, p: Plan, idx: nat) {
    exists j :: 0 <= j < |p.planned| && idx in p.planned[j].idxs &&
      HasLine(server, cfg, p.tokens, IngestOne(server, cfg, instances, p.planned[j]))
  }

  predicate HasLine(server: Server, cfg: Config, tokens: map<Uuid, string>, o: IngestOutcome) {
    !Established(o) || AnsweredAfter(server, cfg, tokens, o)
  }

  lemma InstanceReported(server: Server, cfg: Config, instances: seq<Instance>, admin: Admin, idx: nat)
    ensures var p := PlanOf(instances, cfg.mode, admin);
            var reported := idx in Order(server, cfg, instances, p.tokens, p.planned);
            && (reported <==> IsReported(server, cfg, instances, p, idx))
            && (reported ==> idx < |instances|)
            && (!cfg.verifyMemoryList && idx < |instances| ==> reported)
  {
    var p := PlanOf(instances, cfg.mode, admin);
    PlanIsReady(instances, cfg.mode, admin);
    PlanListsInstances(instances, cfg.mode, admin, idx);
    if Listed(p.planned, idx) {
      var j :| 0 <= j < |p.planned| && idx in p.planned[j].idxs;
      WhereAnInstanceLands(server, cfg, instances, p.tokens, p.planned, j, idx);
      assert forall i :: 0 <= i < |p.planned| && idx in p.planned[i].idxs ==> i == j;
    } else {
      NotListedNotReported(server, cfg, instances, p.tokens, p.planned, idx);
    }
  }

  /** Which questions have a line, in any run: those of failed conversations and those phase 2 answers,
      each one. A full run answers for every instance. */
  lemma ReportedExactly(server: Server, cfg: Config, instances: seq<Instance>, admin: Admin)
    ensures var p := PlanOf(instances, cfg.mode, admin);
            var order := Order(server, cfg, instances, p.tokens, p.planned);
            && NoDup(order)
            && (forall idx :: idx in order <==> 0 <= idx && IsReported(server, cfg, instances, p, idx))
            && (forall idx :: idx in order ==> idx < |instances|)
            && (!cfg.verifyMemoryList ==> forall idx :: 0 <= idx < |instances| ==> idx in order)
  {
    var p := PlanOf(instances, cfg.mode, admin);
    PlanIsReady(instances, cfg.mode, admin);
    OrderHasNoDup(server, cfg, instances, p.tokens, p.planned);
    forall idx: nat
      ensures idx in Order(server, cfg, instances, p.tokens, p.planned) <==> IsReported(server, cfg, instances, p, idx)
      ensures idx in Order(server, cfg, instances, p.tokens, p.planned) ==> idx < |instances|
      ensures !cfg.verifyMemoryList && idx < |instances| ==> idx in Order(server, cfg, instances, p.tokens, p.planned)
    {
      InstanceReported(server, cfg, instances, admin, idx);
    }
  }

  /** The report's two halves: the phase-1 failures in conversation-key order, then all the others in
      instance order. */
  lemma HalvesInOrder(server: Server, cfg: Config, instances: seq<Instance>, admin: Admin)
    ensures var p := PlanOf(instances, cfg.mode, admin);
            var failed := FlatMap(FailedIdxs, Ingested(server, cfg, instances, p.planned));
            var asked := Pool.Map(IndexOf, Reads(server, cfg, instances, p.tokens, p.planned));
            && Order(server, cfg, instances, p.tokens, p.planned) == failed + asked
            && InReportOrder(instances, failed, asked)
  {
    var p := PlanOf(instances, cfg.mode, admin);
    PlanIsReady(instances, cfg.mode, admin);
    PlanIsGrouped(instances, cfg.mode, admin);
    IngestedIsKeyed(server, cfg, instances, p.planned);
    FailuresInKeyOrder(instances, Ingested(server, cfg, instances, p.planned));
    ReadsInInstanceOrder(server, cfg, instances, p.tokens, p.planned);
  }

  /** A full run reports every instance exactly once: the phase-1 failures in conversation-key
      order, then all the others in instance order. */
  lemma EveryInstanceOnce(server: Server, cfg: Config, instances: seq<Instance>, admin: Admin)
    requires !cfg.verifyMemoryList
    ensures var p := PlanOf(instances, cfg.mode, admin);
            NoDup(Order(server, cfg, instances, p.tokens, p.planned))
    ensures var p := PlanOf(instances, cfg.mode, admin);
            forall idx :: 0 <= idx < |instances| <==> idx in Order(server, cfg, instances, p.tokens, p.planned)
    ensures var p := PlanOf(instances, cfg.mode, admin);
            var failed := FlatMap(FailedIdxs, Ingested(server, cfg, instances, p.planned));
            var asked := Pool.Map(IndexOf, Reads(server, cfg, instances, p.tokens, p.planned));
            Order(server, cfg, instances, p.tokens, p.planned) == failed + asked &&
              InReportOrder(instances, failed, asked)
  {
    ReportedExactly(server, cfg, instances, admin);
    HalvesInOrder(server, cfg, instances, admin);
  }

  // ---- when the report is in instance order ----

  /** An earlier question is among the failed ones too, in a conversation with no larger key. */
  ghost predicate Leads(instances: seq<Instance>, failed: seq<nat>, x: nat, y: nat) {
    x in failed && KeyAtMost(KeyOf(At(instances, x)), KeyOf(At(instances, y)))
  }

  lemma HalvesIncrease(instances: seq<Instance>, failed: seq<nat>, asked: seq<nat>)
    requires NoDup(failed + asked) && InReportOrder(instances, failed, asked)
    ensures Increasing(failed + asked) <==>
            forall x, y :: x < y && x in failed + asked && y in failed ==> Leads(instances, failed, x, y)
  {
    var order := failed + asked;
    if Increasing(order) {
      forall x, y | x < y && x in order && y in failed ensures Leads(instances, failed, x, y) {
        var i :| 0 <= i < |order| && order[i] == x;
        var j :| 0 <= j < |failed| && failed[j] == y;
        assert order[j] == y;
        assert i < j;
        assert Before(instances, failed[i], failed[j]);
      }
    } else {
      var i, j :| 0 <= i < j < |order| && order[j] <= order[i];
      NoDupApart(order, i, j);
      assert order[j] in order;
      if i < |failed| {
        assert order[i] in failed;
        if j < |failed| {
          assert Before(instances, failed[i], failed[j]);
          FallsBack(instances, failed, order[j], order[i]);
        } else {
          NotInFirst(failed, asked, j);
        }
        assert !Leads(instances, failed, order[j], order[i]);
      } else {
        SecondIncreases(failed, asked, i, j);
      }
    }
  }

  lemma SecondIncreases(s: seq<nat>, t: seq<nat>, i: nat, j: nat)
    requires Increasing(t) && |s| <= i < j < |s + t|
    ensures (s + t)[i] < (s + t)[j]
  {
  }

  lemma FallsBack(instances: seq<Instance>, failed: seq<nat>, x: nat, y: nat)
    requires x < y && Before(instances, y, x)
    ensures !Leads(instances, failed, x, y)
  {
    if Leads(instances, failed, x, y) {
      KeyAntisymmetric(KeyOf(At(instances, x)), KeyOf(At(instances, y)));
    }
  }

  lemma NotInFirst(s: seq<nat>, t: seq<nat>, j: nat)
    requires NoDup(s + t) && |s| <= j < |s + t|
    ensures (s + t)[j] !in s
  {
    forall i | 0 <= i < |s| ensures s[i] != (s + t)[j] {
      NoDupApart(s + t, i, j);
      assert (s + t)[i] == s[i];
    }
  }

  lemma FailsExactly(server: Server, cfg: Config, instances: seq<Instance>, planned: seq<Planned>, idx: nat)
    ensures Fails(server, cfg, instances, planned, idx) <==>
            idx in FlatMap(FailedIdxs, Ingested(server, cfg, instances, planned))
  {
    var ingested := Ingested(server, cfg, instances, planned);
    InFlatMap(FailedIdxs, ingested, idx);
    assert forall j :: 0 <= j < |planned| ==> ingested[j] == IngestOne(server, cfg, instances, planned[j]);
  }

  /** The question failed in phase 1 when `y` did, and its conversation has no larger key. */
  ghost predicate Precedes(server: Server, cfg: Config, instances: seq<Instance>, planned: seq<Planned>, x: nat,
                           y: nat) {
    Fails(server, cfg, instances, planned, x) && KeyAtMost(KeyOf(At(instances, x)), KeyOf(At(instances, y)))
  }

  /** The report is in instance order exactly when every reported instance before a failed one has
      failed too, in a conversation with no larger key: the failures come first among the instances
      reported, and in key order. */
  lemma InstanceOrderExactly(server: Server, cfg: Config, instances: seq<Instance>, admin: Admin)
    ensures var p := PlanOf(instances, cfg.mode, admin);
            var order := Order(server, cfg, instances, p.tokens, p.planned);
            Increasing(order) <==>
            forall x, y :: x in order && 0 <= x < y && Fails(server, cfg, instances, p.planned, y) ==>
              Precedes(server, cfg, instances, p.planned, x, y)
  {
    var p := PlanOf(instances, cfg.mode, admin);
    var failed := FlatMap(FailedIdxs, Ingested(server, cfg, instances, p.planned));
    var asked := Pool.Map(IndexOf, Reads(server, cfg, instances, p.tokens, p.planned));
    ReportedExactly(server, cfg, instances, admin);
    HalvesInOrder(server, cfg, instances, admin);
    HalvesIncrease(instances, failed, asked);
    forall idx: nat ensures Fails(server, cfg, instances, p.planned, idx) <==> idx in failed {
      FailsExactly(server, cfg, instances, p.planned, idx);
    }
    forall x: nat, y: nat
      ensures Precedes(server, cfg, instances, p.planned, x, y) <==> Leads(instances, failed, x, y)
    {
    }
  }

  /** In a full run: exactly when every instance before a failed one has failed too, in a conversation
      with no larger key. */
  lemma FullRunOrderExactly(server: Server, cfg: Config, instances: seq<Instance>, admin: Admin)
    requires !cfg.verifyMemoryList
    ensures var p := PlanOf(instances, cfg.mode, admin);
            Increasing(Order(server, cfg, instances, p.tokens, p.planned)) <==>
            forall x, y :: 0 <= x < y < |instances| && Fails(server, cfg, instances, p.planned, y) ==>
              Precedes(server, cfg, instances, p.planned, x, y)
  {
    var p := PlanOf(instances, cfg.mode, admin);
    InstanceOrderExactly(server, cfg, instances, admin);
    ReportedExactly(server, cfg, instances, admin);
    forall y: nat | Fails(server, cfg, instances, p.planned, y) ensures y < |instances| {
      PlanListsInstances(instances, cfg.mode, admin, y);
    }
  }

  // ---- a run that is not in instance order ----

  /** Two instances of different conversations, in key order. */
  ghost predicate IsPair(instances: seq<Instance>, a: string, b: string) {
    && |instances| == 2 && KeyOf(instances[0]) == a && KeyOf(instances[1]) == b
    && KeyAtMost(a, b) && a != b
  }

  lemma AtMostTwo<T>(s: seq<T>, a: T, b: T)
    requires forall i :: 0 <= i < |s| ==> s[i] == a || s[i] == b
    requires forall i, j :: 0 <= i < j < |s| ==> s[i] != s[j]
    ensures |s| <= 2
  {
    if 2 < |s| {
      ThreeRepeat(s, a, b);
    }
  }

  lemma ThreeRepeat<T>(s: seq<T>, a: T, b: T)
    requires 2 < |s| && forall i :: 0 <= i < |s| ==> s[i] == a || s[i] == b
    ensures exists i, j :: 0 <= i < j < |s| && s[i] == s[j]
  {
    assert s[0] == s[1] || s[0] == s[2] || s[1] == s[2];
  }

  lemma TwoStrict(keys: seq<string>, a: string, b: string)
    requires StrictlyOrdered(keys) && KeyAtMost(a, b) && a != b
    requires forall k :: k in keys <==> k == a || k == b
    ensures keys == [a, b]
  {
    assert forall i :: 0 <= i < |keys| ==> keys[i] in keys;
    AtMostTwo(keys, a, b);
    assert a in keys && b in keys;
    if keys[0] == b {
      KeyAntisymmetric(a, b);
    }
  }

  ghost predicate HasKey(instances: seq<Instance>, k: string) {
    exists i :: 0 <= i < |instances| && KeyOf(instances[i]) == k
  }

  lemma KeysAre(instances: seq<Instance>, k: string)
    ensures k in KeysOf(instances) <==> HasKey(instances, k)
  {
    GroupsPartition(instances, k);
  }

  lemma KeysAreStrict(instances: seq<Instance>)
    ensures StrictlyOrdered(KeysOf(instances))
  {
    OrderedKeysAreStrict(Groups(instances).Keys);
  }

  lemma PairHas(instances: seq<Instance>, a: string, b: string, k: string)
    requires IsPair(instances, a, b)
    ensures HasKey(instances, k) <==> k == a || k == b
  {
    assert KeyOf(instances[0]) == a && KeyOf(instances[1]) == b;
  }

  lemma PairKeys(instances: seq<Instance>, keys: seq<string>, a: string, b: string)
    requires IsPair(instances, a, b) && keys == KeysOf(instances)
    ensures keys == [a, b]
  {
    forall k ensures k in keys <==> k == a || k == b {
      KeysAre(instances, k);
      PairHas(instances, a, b, k);
    }
    KeysAreStrict(instances);
    TwoStrict(keys, a, b);
  }

  lemma OneMember(instances: seq<Instance>, key: string, x: nat)
    requires key in Groups(instances)
    requires forall i :: 0 <= i < |instances| && KeyOf(instances[i]) == key <==> i == x
    ensures Groups(instances)[key] == [x]
  {
    GroupsPartition(instances, key);
    OnlyOne(Groups(instances)[key], x);
  }

  lemma OnlyOne(s: seq<nat>, x: nat)
    requires Increasing(s) && forall i :: i in s <==> i == x
    ensures s == [x]
  {
    assert x in s;
    assert forall i :: 0 <= i < |s| ==> s[i] in s;
    if 1 < |s| {
      NotIncreasing(s, x);
    }
  }

  lemma NotIncreasing(s: seq<nat>, x: nat)
    requires 1 < |s| && forall i :: 0 <= i < |s| ==> s[i] == x
    ensures !Increasing(s)
  {
    assert s[0] == s[1];
  }

  /** The admin plane grants every key, and of the two spaces the server refuses the second. */
  ghost predicate RefusesSecond(server: Server, admin: Admin) {
    && (forall n, id :: admin.mint(n, id).Some?)
    && (forall token :: server.connect(admin.newId(1), token).None?)
    && (forall token :: server.connect(admin.newId(2), token).Some?)
  }

  lemma ConnectDecides(server: Server, cfg: Config, instances: seq<Instance>, pl: Planned, space: Uuid)
    requires SpaceOf(pl) == Some(space)
    ensures (forall token :: server.connect(space, token).None?) ==> Established(IngestOne(server, cfg, instances, pl))
    ensures (forall token :: server.connect(space, token).Some?) ==> !Established(IngestOne(server, cfg, instances, pl))
  {
  }

  lemma SecondFails(server: Server, cfg: Config, instances: seq<Instance>, planned: seq<Planned>)
    requires |planned| == 2 && planned[0].idxs == [0] && planned[1].idxs == [1]
    requires Established(IngestOne(server, cfg, instances, planned[0]))
    requires !Established(IngestOne(server, cfg, instances, planned[1]))
    ensures !Fails(server, cfg, instances, planned, 0) && Fails(server, cfg, instances, planned, 1)
  {
  }

  lemma PairIdxs(instances: seq<Instance>, mode: Mode, admin: Admin, a: string, b: string)
    requires IsPair(instances, a, b)
    ensures var planned := PlanOf(instances, mode, admin).planned;
            |planned| == 2 && planned[0].idxs == [0] && planned[1].idxs == [1]
  {
    PairKeys(instances, KeysOf(instances), a, b);
    OneMember(instances, a, 0);
    OneMember(instances, b, 1);
  }

  lemma PairOutcomes(server: Server, cfg: Config, instances: seq<Instance>, admin: Admin, a: string, b: string)
    requires IsPair(instances, a, b) && RefusesSecond(server, admin) && cfg.mode.readOnly.None?
    ensures var planned := PlanOf(instances, cfg.mode, admin).planned;
            !Fails(server, cfg, instances, planned, 0) && Fails(server, cfg, instances, planned, 1)
  {
    var keys, planned := KeysOf(instances), PlanOf(instances, cfg.mode, admin).planned;
    PairIdxs(instances, cfg.mode, admin, a, b);
    GrantedAt(cfg.mode, admin, Groups(instances), keys, 0);
    GrantedAt(cfg.mode, admin, Groups(instances), keys, 1);
    ConnectDecides(server, cfg, instances, planned[0], admin.newId(1));
    ConnectDecides(server, cfg, instances, planned[1], admin.newId(2));
    SecondFails(server, cfg, instances, planned);
  }

  lemma TwoOutOfOrder(order: seq<nat>)
    requires NoDup(order) && !Increasing(order) && forall x :: 0 <= x < 2 <==> x in order
    ensures order == [1, 0]
  {
    assert forall k :: 0 <= k < |order| ==> order[k] in order;
    forall i, j | 0 <= i < j < |order| ensures order[i] != order[j] {
      NoDupApart(order, i, j);
    }
    AtMostTwo(order, 0, 1);
    assert 0 in order && 1 in order;
  }

  /** When of two conversations only the second cannot connect, its question is reported first. */
  lemma LateFailureComesFirst(server: Server, cfg: Config, instances: seq<Instance>, admin: Admin, a: string, b: string)
    requires IsPair(instances, a, b) && RefusesSecond(server, admin)
    requires cfg.mode.readOnly.None? && !cfg.verifyMemoryList
    ensures var p := PlanOf(instances, cfg.mode, admin);
            Order(server, cfg, instances, p.tokens, p.planned) == [1, 0]
  {
    var p := PlanOf(instances, cfg.mode, admin);
    PairOutcomes(server, cfg, instances, admin, a, b);
    EveryInstanceOnce(server, cfg, instances, admin);
    FullRunOrderExactly(server, cfg, instances, admin);
    assert !Precedes(server, cfg, instances, p.planned, 0, 1);
    TwoOutOfOrder(Order(server, cfg, instances, p.tokens, p.planned));
  }

  function Refusing(second: Uuid): Server {
    Server((space, token) => if space == second then Some("refused") else None, (space, inst) => SKIPPED,
           (space, token) => None, (space, inst, cw) => FailedRecord(inst, "", false))
  }

  function Granting(first: Uuid, second: Uuid): Admin {
    Admin((n, id) => Some("token"), n => if n == 2 then second else first)
  }

  lemma RefusingRefuses(first: Uuid, second: Uuid)
    requires first != second
    ensures RefusesSecond(Refusing(second), Granting(first, second))
  {
  }

  /** Such a run: conversations "a" and "b", any two spaces. */
  lemma OutOfInstanceOrder(cfg: Config, first: Uuid, second: Uuid)
    requires cfg.mode.readOnly.None? && !cfg.verifyMemoryList && first != second
    ensures var instances := [Instance("q0", Some("a"), "", ""), Instance("q1", Some("b"), "", "")];
            var p := PlanOf(instances, cfg.mode, Granting(first, second));
            Order(Refusing(second), cfg, instances, p.tokens, p.planned) == [1, 0]
  {
    var instances := [Instance("q0", Some("a"), "", ""), Instance("q1", Some("b"), "", "")];
    RefusingRefuses(first, second);
    LateFailureComesFirst(Refusing(second), cfg, instances, Granting(first, second), "a", "b");
  }

  /** Every phase-2 line names its own instance. */
  lemma ReadLines(server: Server, cfg: Config, instances: seq<Instance>, tokens: map<Uuid, string>,
                  planned: seq<Planned>)
    ensures forall m :: m in Reads(server, cfg, instances, tokens, planned) ==>
              m.record.result.questionId == At(instances, m.idx).questionId
  {
    var prepared := PreparedOf(Ingested(server, cfg, instances, planned));
    var qs := FlatMap(QuestionsOf, Pool.Map(Read(server, cfg, instances, tokens), prepared));
    SortPermutes(qs, ByIndex);
    SameElements(qs, Reads(server, cfg, instances, tokens, planned));
    forall m | m in qs ensures m.record.result.questionId == At(instances, m.idx).questionId {
      var pre := QuestionOrigin(server, cfg, instances, tokens, prepared, m);
    }
  }

  /** Line by line, the canonical report names the instance `Order` says, in both result vectors. */
  lemma LinesFollowOrder(server: Server, cfg: Config, instances: seq<Instance>, tokens: map<Uuid, string>,
                         planned: seq<Planned>)
    requires Ready(planned)
    ensures var report, order :=
            Canonical(server, cfg, instances, tokens, planned), Order(server, cfg, instances, tokens, planned);
            && |report.results| == |report.records| == |order| == report.done
            && (forall i :: 0 <= i < |order| ==> report.results[i].questionId == At(instances, order[i]).questionId)
            && (forall i :: 0 <= i < |order| ==> report.records[i].result == report.results[i])
  {
    var ingested := Ingested(server, cfg, instances, planned);
    IngestOrderRestored(server, cfg, instances, planned, ingested);
    FailedLines(instances, ingested);
    ReadLines(server, cfg, instances, tokens, planned);
    var failed, asked := FlatMap(FailedRecords(instances), ingested), Reads(server, cfg, instances, tokens, planned);
    var report, order :=
      Canonical(server, cfg, instances, tokens, planned), Order(server, cfg, instances, tokens, planned);
    assert report.records == failed + Pool.Map(RecordOf, asked);
    Pool.MapIs(RecordOf, asked);
    Pool.MapIs(IndexOf, asked);
    Pool.MapIs(ResultOf, report.records);
    forall i | 0 <= i < |order| ensures report.records[i].result.questionId == At(instances, order[i]).questionId {
      if |failed| <= i {
        assert asked[i - |failed|] in asked;
      }
    }
  }
}
