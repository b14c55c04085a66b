/** What the report says: each line in terms of what the admin plane and the server did with that very
    question, and the ledger in terms of the conversations they let in. */
module ReportContent {
  import opened Wrappers
  import opened Sorting
  import opened KeyOrder
  import opened SpaceManifest
  import opened RunPlan
  import opened Verdicts
  import opened Reals
  import opened Runner
  import opened RunSchedule
  import opened ReportOrder
  import Pool

  // ---- in the server's own terms ----

  /** Phase 1 gets into the conversation's space. */
  predicate Connects(server: Server, pl: Planned) {
    pl.space.Some? && server.connect(pl.space.value.0, pl.space.value.1).None?
  }

  /** Phase 2 gets into it again, with the cached token. */
  predicate Reconnects(server: Server, tokens: map<Uuid, string>, pl: Planned) {
    && pl.space.Some? && pl.space.value.0 in tokens
    && server.reconnect(pl.space.value.0, tokens[pl.space.value.0]).None?
  }

  /** What the conversation's ingest came to: nothing was written in a read-only run. */
  function WriteBy(server: Server, cfg: Config, space: Uuid, first: Instance): ConvWrite {
    if cfg.mode.readOnly.Some? then SKIPPED else server.ingest(space, first)
  }

  /** The line of a question that was never answered. */
  ghost predicate IsFailedLine(rec: QuestionRecord, inst: Instance, ingest: bool, why: string) {
    && rec.result.questionId == inst.questionId && rec.result.verdict == Incorrect && rec.result.score == 0.0
    && rec.result.reasoning == why
    && rec.result.ingestionFailed == ingest && rec.result.retrievalFailed == !ingest && rec.retrieved == []
  }

  /** Why phase 1 gave a conversation up: its plan's reason, or the server's. */
  function WhyLost(server: Server, pl: Planned): string {
    if pl.space.None? then pl.reason
    else
      match server.connect(pl.space.value.0, pl.space.value.1)
      case Some(e) => "connect failed: " + e
      case None => ""
  }

  /** Why phase 2 did. */
  function WhyUnreached(server: Server, tokens: map<Uuid, string>, space: Uuid): string {
    if space !in tokens then "read-back: no cached data-plane token"
    else
      match server.reconnect(space, tokens[space])
      case Some(e) => "read-back reconnect failed: " + e
      case None => ""
  }

  /** The line of question `idx` of a planned conversation: a phase-1 failure, a phase-2 failure, or what
      the server answered to that question, under its own id. */
  ghost predicate IsLineOf(server: Server, cfg: Config, instances: seq<Instance>, tokens: map<Uuid, string>,
                           pl: Planned, first: nat, idx: nat, rec: QuestionRecord)
    requires idx < |instances| && first < |instances|
  {
    if !Connects(server, pl) then IsFailedLine(rec, instances[idx], true, WhyLost(server, pl))
    else if !Reconnects(server, tokens, pl) then
      IsFailedLine(rec, instances[idx], false, WhyUnreached(server, tokens, pl.space.value.0))
    else
      var space := pl.space.value.0;
      var answer := server.ask(space, instances[idx], WriteBy(server, cfg, space, instances[first]));
      && rec.retrieved == answer.retrieved
      && rec.result == answer.result.(questionId := instances[idx].questionId)
  }

  /** The first instance of a key. */
  ghost predicate IsFirst(instances: seq<Instance>, first: nat, key: string) {
    && first < |instances| && KeyOf(instances[first]) == key
    && forall i :: 0 <= i < first ==> KeyOf(instances[i]) != key
  }

  // ---- one conversation ----

  lemma EstablishedConnects(server: Server, cfg: Config, instances: seq<Instance>, pl: Planned)
    ensures var o := IngestOne(server, cfg, instances, pl);
            && (Established(o) <==> Connects(server, pl))
            && (Established(o) ==>
                  && o.space == Some(pl.space.value.0)
                  && o.cw == WriteBy(server, cfg, pl.space.value.0, At(instances, pl.idxs[0])))
  {
  }

  lemma FailedLine(server: Server, cfg: Config, instances: seq<Instance>, pl: Planned, k: nat)
    requires !Connects(server, pl) && k < |pl.idxs| && pl.idxs[k] < |instances|
    ensures var recs := FailedRecords(instances)(IngestOne(server, cfg, instances, pl));
            |recs| == |pl.idxs| && IsFailedLine(recs[k], instances[pl.idxs[k]], true, WhyLost(server, pl))
  {
  }

  lemma AnsweredLine(server: Server, cfg: Config, instances: seq<Instance>, tokens: map<Uuid, string>, pl: Planned,
                     first: nat, pre: Prepared, idx: nat)
    requires Connects(server, pl) && [pre] == PreparedFrom(IngestOne(server, cfg, instances, pl))
    requires idx < |instances| && first < |instances| && pl.idxs[0] == first
    ensures IsLineOf(server, cfg, instances, tokens, pl, first, idx,
                     Question(server, instances, Cached(tokens, pre), pre, idx).record)
  {
    EstablishedConnects(server, cfg, instances, pl);
    assert pre == [pre][0];
  }

  // ---- the two halves of the report ----

  /** Two lists flattened alike: element `i` of both comes from the same place. */
  lemma {:induction false} FlatMapAt<T(!new), U, V>(f: T -> seq<U>, g: T -> seq<V>, s: seq<T>, i: nat)
    returns (j: nat, k: nat)
    requires forall x :: |f(x)| == |g(x)|
    requires i < |FlatMap(f, s)|
    ensures |FlatMap(g, s)| == |FlatMap(f, s)|
    ensures j < |s| && k < |f(s[j])| && FlatMap(f, s)[i] == f(s[j])[k] && FlatMap(g, s)[i] == g(s[j])[k]
  {
    FlatMapsMatch(f, g, s[1..]);
    var head := |f(s[0])|;
    if i < head {
      j, k := 0, i;
    } else {
      j, k := FlatMapAt(f, g, s[1..], i - head);
      j := j + 1;
    }
  }

  lemma {:induction false} FlatMapsMatch<T(!new), U, V>(f: T -> seq<U>, g: T -> seq<V>, s: seq<T>)
    requires forall x :: |f(x)| == |g(x)|
    ensures |FlatMap(f, s)| == |FlatMap(g, s)|
  {
    if s != [] {
      FlatMapsMatch(f, g, s[1..]);
    }
  }

  /** The line of a question, whatever planned conversation lists it. */
  ghost predicate LineHolds(server: Server, cfg: Config, instances: seq<Instance>, tokens: map<Uuid, string>,
                            planned: seq<Planned>, idx: nat, rec: QuestionRecord)
  {
    forall j ::
      (0 <= j < |planned| && idx in planned[j].idxs && idx < |instances| && planned[j].idxs[0] < |instances|) ==>
      IsLineOf(server, cfg, instances, tokens, planned[j], planned[j].idxs[0], idx, rec)
  }

  /** Only one planned conversation lists a question. */
  lemma HoldsFrom(server: Server, cfg: Config, instances: seq<Instance>, tokens: map<Uuid, string>,
                  planned: seq<Planned>, j: nat, idx: nat, rec: QuestionRecord)
    requires Ready(planned) && j < |planned| && idx in planned[j].idxs
    requires idx < |instances| && planned[j].idxs[0] < |instances| ==>
               IsLineOf(server, cfg, instances, tokens, planned[j], planned[j].idxs[0], idx, rec)
    ensures LineHolds(server, cfg, instances, tokens, planned, idx, rec)
  {
    forall l | 0 <= l < |planned| && idx in planned[l].idxs ensures l == j {
    }
  }

  lemma FailedHere(server: Server, cfg: Config, instances: seq<Instance>, planned: seq<Planned>, i: nat)
    returns (j: nat, k: nat)
    requires i < |FlatMap(FailedIdxs, Ingested(server, cfg, instances, planned))|
    ensures j < |planned| && !Connects(server, planned[j]) && k < |planned[j].idxs|
    ensures FlatMap(FailedIdxs, Ingested(server, cfg, instances, planned))[i] == planned[j].idxs[k]
    ensures var recs := FailedRecords(instances)(IngestOne(server, cfg, instances, planned[j]));
            && |Failures(server, cfg, instances, planned)| ==
               |FlatMap(FailedIdxs, Ingested(server, cfg, instances, planned))|
            && k < |recs| && Failures(server, cfg, instances, planned)[i] == recs[k]
  {
    var ingested := Ingested(server, cfg, instances, planned);
    forall o ensures |FailedIdxs(o)| == |FailedRecords(instances)(o)| {
    }
    j, k := FlatMapAt(FailedIdxs, FailedRecords(instances), ingested, i);
    EstablishedConnects(server, cfg, instances, planned[j]);
  }

  lemma FailedHalf(server: Server, cfg: Config, instances: seq<Instance>, tokens: map<Uuid, string>,
                   planned: seq<Planned>, i: nat)
    requires Ready(planned)
    requires i < |FlatMap(FailedIdxs, Ingested(server, cfg, instances, planned))|
    requires i < |Failures(server, cfg, instances, planned)|
    ensures LineHolds(server, cfg, instances, tokens, planned,
                      FlatMap(FailedIdxs, Ingested(server, cfg, instances, planned))[i],
                      Failures(server, cfg, instances, planned)[i])
  {
    var j, k := FailedHere(server, cfg, instances, planned, i);
    var idx := planned[j].idxs[k];
    if idx < |instances| {
      FailedLine(server, cfg, instances, planned[j], k);
    }
    HoldsFrom(server, cfg, instances, tokens, planned, j, idx, Failures(server, cfg, instances, planned)[i]);
  }

  lemma ReadHalf(server: Server, cfg: Config, instances: seq<Instance>, tokens: map<Uuid, string>,
                 planned: seq<Planned>, i: nat)
    requires Ready(planned) && i < |Reads(server, cfg, instances, tokens, planned)|
    ensures var m := Reads(server, cfg, instances, tokens, planned)[i];
            LineHolds(server, cfg, instances, tokens, planned, m.idx, m.record)
  {
    var prepared := PreparedOf(Ingested(server, cfg, instances, planned));
    var qs := FlatMap(QuestionsOf, Pool.Map(Read(server, cfg, instances, tokens), prepared));
    var asked := Reads(server, cfg, instances, tokens, planned);
    SortPermutes(qs, ByIndex);
    SameElements(qs, asked);
    assert asked[i] in qs;
    var pre := QuestionOrigin(server, cfg, instances, tokens, prepared, asked[i]);
    var j := PreparedOrigin(server, cfg, instances, planned, pre);
    var idx := asked[i].idx;
    EstablishedConnects(server, cfg, instances, planned[j]);
    if idx < |instances| && planned[j].idxs[0] < |instances| {
      AnsweredLine(server, cfg, instances, tokens, planned[j], planned[j].idxs[0], pre, idx);
    }
    HoldsFrom(server, cfg, instances, tokens, planned, j, idx, asked[i].record);
  }

  lemma LinesHold(server: Server, cfg: Config, instances: seq<Instance>, tokens: map<Uuid, string>,
                  planned: seq<Planned>)
    requires Ready(planned)
    ensures var report := Canonical(server, cfg, instances, tokens, planned);
            var order := Order(server, cfg, instances, tokens, planned);
            && |report.records| == |order|
            && forall i :: 0 <= i < |order| ==>
                 LineHolds(server, cfg, instances, tokens, planned, order[i], report.records[i])
  {
    var ingested := Ingested(server, cfg, instances, planned);
    var failures, asked := Failures(server, cfg, instances, planned), Reads(server, cfg, instances, tokens, planned);
    var order := Order(server, cfg, instances, tokens, planned);
    var report := Canonical(server, cfg, instances, tokens, planned);
    FailedLines(instances, ingested);
    assert |failures| == |FlatMap(FailedIdxs, ingested)|;
    Pool.MapIs(RecordOf, asked);
    Pool.MapIs(IndexOf, asked);
    assert report.records == failures + Pool.Map(RecordOf, asked);
    forall i | 0 <= i < |order|
      ensures LineHolds(server, cfg, instances, tokens, planned, order[i], report.records[i])
    {
      if i < |failures| {
        FailedHalf(server, cfg, instances, tokens, planned, i);
      } else {
        ReadHalf(server, cfg, instances, tokens, planned, i - |failures|);
      }
    }
  }

  // ---- main results on a run ----

  /** Every planned conversation holds the instances of one key, its first instance first, and the token
      phase 2 uses is the one that was minted for it. */
  lemma PlannedConversation(instances: seq<Instance>, mode: Mode, admin: Admin, j: nat)
    requires j < |PlanOf(instances, mode, admin).planned|
    ensures var p := PlanOf(instances, mode, admin);
            var pl := p.planned[j];
            && IsFirst(instances, pl.idxs[0], pl.convKey)
            && (forall idx :: idx in pl.idxs <==> 0 <= idx < |instances| && KeyOf(instances[idx]) == pl.convKey)
            && (pl.space.Some? ==> pl.space.value.0 in p.tokens && p.tokens[pl.space.value.0] == pl.space.value.1)
  {
    var p := PlanOf(instances, mode, admin);
    var keys, pl := KeysOf(instances), p.planned[j];
    assert pl.idxs == Groups(instances)[keys[j]];
    GroupsPartition(instances, keys[j]);
    PlanIsReady(instances, mode, admin);
    assert pl in p.planned;
    forall i | 0 <= i < pl.idxs[0] ensures KeyOf(instances[i]) != pl.convKey {
      if i in pl.idxs {
        FirstIsLeast(pl.idxs, i);
      }
    }
  }

  lemma FirstIsLeast(s: seq<nat>, x: nat)
    requires Increasing(s) && x in s
    ensures s[0] <= x
  {
    var i :| 0 <= i < |s| && s[i] == x;
  }

  /** What every line of a run's report says. For the question of instance `idx`, whose conversation was
      planned as `pl` and begins with instance `first`: the failure of phase 1 or of phase 2, or the
      server's own answer to that question. */
  lemma LinesAreAnswers(server: Server, cfg: Config, instances: seq<Instance>, admin: Admin)
    ensures var p := PlanOf(instances, cfg.mode, admin);
            var report := Canonical(server, cfg, instances, p.tokens, p.planned);
            var order := Order(server, cfg, instances, p.tokens, p.planned);
            && |report.records| == |report.results| == |order|
            && forall i, j, first ::
                 (0 <= i < |order| && 0 <= j < |p.planned| && order[i] in p.planned[j].idxs
                  && IsFirst(instances, first, p.planned[j].convKey)) ==>
                 && order[i] < |instances| && report.results[i] == report.records[i].result
                 && IsLineOf(server, cfg, instances, p.tokens, p.planned[j], first, order[i], report.records[i])
  {
    var p := PlanOf(instances, cfg.mode, admin);
    var report := Canonical(server, cfg, instances, p.tokens, p.planned);
    var order := Order(server, cfg, instances, p.tokens, p.planned);
    PlanIsReady(instances, cfg.mode, admin);
    LinesHold(server, cfg, instances, p.tokens, p.planned);
    LinesFollowOrder(server, cfg, instances, p.tokens, p.planned);
    forall i, j, first | 0 <= i < |order| && 0 <= j < |p.planned| && order[i] in p.planned[j].idxs
      && IsFirst(instances, first, p.planned[j].convKey)
      ensures order[i] < |instances| && report.results[i] == report.records[i].result
      ensures IsLineOf(server, cfg, instances, p.tokens, p.planned[j], first, order[i], report.records[i])
    {
      PlannedConversation(instances, cfg.mode, admin, j);
      assert first == p.planned[j].idxs[0];
      assert LineHolds(server, cfg, instances, p.tokens, p.planned, order[i], report.records[i]);
    }
  }

  lemma {:induction false} ScoreSumIs(results: seq<QuestionResult>, scores: seq<real>)
    requires |scores| == |results| && forall i :: 0 <= i < |results| ==> scores[i] == results[i].score
    ensures ScoreSum(results) == Sum(scores)
  {
    if results != [] {
      var n := |results| - 1;
      ScoreSumIs(results[..n], scores[..n]);
    }
  }

  /** The progress counters of a finished run: as many questions as the report has lines, and their scores
      added up. */
  lemma CountersExactly(server: Server, cfg: Config, instances: seq<Instance>, tokens: map<Uuid, string>,
                        planned: seq<Planned>, scores: seq<real>)
    requires var results := Canonical(server, cfg, instances, tokens, planned).results;
             |scores| == |results| && forall i :: 0 <= i < |results| ==> scores[i] == results[i].score
    ensures var report := Canonical(server, cfg, instances, tokens, planned);
            report.done == |report.results| && report.scoreSum == Sum(scores)
  {
    ScoreSumIs(Canonical(server, cfg, instances, tokens, planned).results, scores);
  }

  // ---- the ledger ----

  /** The ledger entry of a conversation that ingested and was reached again. */
  ghost predicate IsEntryOf(server: Server, cfg: Config, instances: seq<Instance>, tokens: map<Uuid, string>,
                            pl: Planned, w: ConversationWrite)
  {
    && cfg.mode.readOnly.None? && Connects(server, pl) && Reconnects(server, tokens, pl)
    && w == ConversationWrite(pl.convKey, pl.space.value.0, server.ingest(pl.space.value.0, At(instances, pl.idxs[0])))
  }

  lemma EntryOf(server: Server, cfg: Config, instances: seq<Instance>, tokens: map<Uuid, string>, pl: Planned,
                pre: Prepared, w: ConversationWrite)
    requires [pre] == PreparedFrom(IngestOne(server, cfg, instances, pl))
    ensures w in WriteOf(ReadOne(server, cfg, instances, tokens, pre)) <==>
            IsEntryOf(server, cfg, instances, tokens, pl, w)
  {
    EstablishedConnects(server, cfg, instances, pl);
    assert pre == [pre][0];
  }

  /** The conversations that leave an entry. */
  ghost predicate InLedger(server: Server, cfg: Config, instances: seq<Instance>, tokens: map<Uuid, string>,
                           planned: seq<Planned>, w: ConversationWrite)
  {
    exists j :: 0 <= j < |planned| && IsEntryOf(server, cfg, instances, tokens, planned[j], w)
  }

  lemma EntriesExactly(server: Server, cfg: Config, instances: seq<Instance>, tokens: map<Uuid, string>,
                       planned: seq<Planned>, w: ConversationWrite)
    ensures var prepared := PreparedOf(Ingested(server, cfg, instances, planned));
            w in FlatMap(WriteOf, Pool.Map(Read(server, cfg, instances, tokens), prepared)) <==>
            InLedger(server, cfg, instances, tokens, planned, w)
  {
    var ingested := Ingested(server, cfg, instances, planned);
    var prepared := PreparedOf(ingested);
    var groups := Pool.Map(Read(server, cfg, instances, tokens), prepared);
    InFlatMap(WriteOf, groups, w);
    if i :| 0 <= i < |groups| && w in WriteOf(groups[i]) {
      assert prepared[i] in prepared;
      var j := PreparedOrigin(server, cfg, instances, planned, prepared[i]);
      EntryOf(server, cfg, instances, tokens, planned[j], prepared[i], w);
      assert IsEntryOf(server, cfg, instances, tokens, planned[j], w);
    }
    if j :| 0 <= j < |planned| && IsEntryOf(server, cfg, instances, tokens, planned[j], w) {
      EstablishedConnects(server, cfg, instances, planned[j]);
      var pre := PreparedFrom(ingested[j])[0];
      assert [pre] == PreparedFrom(ingested[j]) && pre in PreparedFrom(ingested[j]);
      EntryOf(server, cfg, instances, tokens, planned[j], pre, w);
      InFlatMap(PreparedFrom, ingested, pre);
      var i :| 0 <= i < |prepared| && prepared[i] == pre;
      assert w in WriteOf(groups[i]);
    }
  }

  lemma EntryNamesItsKey(server: Server, cfg: Config, instances: seq<Instance>, tokens: map<Uuid, string>,
                         pre: Prepared, w: ConversationWrite)
    requires w in WriteOf(ReadOne(server, cfg, instances, tokens, pre))
    ensures w.conversationId == pre.convKey
  {
  }

  lemma PreparedKeysDiffer(server: Server, cfg: Config, instances: seq<Instance>, planned: seq<Planned>, i: nat, j: nat)
    requires Ready(planned)
    requires var prepared := PreparedOf(Ingested(server, cfg, instances, planned)); i < j < |prepared|
    ensures var prepared := PreparedOf(Ingested(server, cfg, instances, planned));
            prepared[i].convKey != prepared[j].convKey
  {
    var prepared := PreparedOf(Ingested(server, cfg, instances, planned));
    PreparedOnce(server, cfg, instances, planned);
    if prepared[i].convKey == prepared[j].convKey {
      OnePreparedPerQuestion(server, cfg, instances, planned, prepared[i], prepared[j]);
      NoDupApart(prepared, i, j);
    }
  }

  lemma EntriesOnce(server: Server, cfg: Config, instances: seq<Instance>, tokens: map<Uuid, string>,
                    planned: seq<Planned>)
    requires Ready(planned)
    ensures var prepared := PreparedOf(Ingested(server, cfg, instances, planned));
            NoDup(FlatMap(WriteOf, Pool.Map(Read(server, cfg, instances, tokens), prepared)))
  {
    var prepared := PreparedOf(Ingested(server, cfg, instances, planned));
    var groups := Pool.Map(Read(server, cfg, instances, tokens), prepared);
    forall i, j, w | 0 <= i < j < |groups| && w in WriteOf(groups[i]) ensures w !in WriteOf(groups[j]) {
      EntryNamesItsKey(server, cfg, instances, tokens, prepared[i], w);
      PreparedKeysDiffer(server, cfg, instances, planned, i, j);
      if w in WriteOf(groups[j]) {
        EntryNamesItsKey(server, cfg, instances, tokens, prepared[j], w);
      }
    }
    NoDupFlatMap(WriteOf, groups);
  }

  /** The ledger: one entry for each conversation that was ingested and reached again, in strict order of
      conversation, with what its ingest came to; nothing in a read-only run. */
  lemma LedgerExactly(server: Server, cfg: Config, instances: seq<Instance>, admin: Admin)
    ensures var p := PlanOf(instances, cfg.mode, admin);
            var writes := Canonical(server, cfg, instances, p.tokens, p.planned).writes;
            && (forall w :: w in writes <==> InLedger(server, cfg, instances, p.tokens, p.planned, w))
            && (forall i, j :: 0 <= i < j < |writes| ==>
                  && KeyAtMost(writes[i].conversationId, writes[j].conversationId)
                  && writes[i].conversationId != writes[j].conversationId)
            && (cfg.mode.readOnly.Some? ==> writes == [])
  {
    var p := PlanOf(instances, cfg.mode, admin);
    var prepared := PreparedOf(Ingested(server, cfg, instances, p.planned));
    var ws := FlatMap(WriteOf, Pool.Map(Read(server, cfg, instances, p.tokens), prepared));
    var writes := Writes(server, cfg, instances, p.tokens, p.planned);
    PlanIsReady(instances, cfg.mode, admin);
    SortPermutes(ws, ByConversation);
    SameElements(ws, writes);
    forall w ensures w in writes <==> InLedger(server, cfg, instances, p.tokens, p.planned, w) {
      EntriesExactly(server, cfg, instances, p.tokens, p.planned, w);
    }
    EntriesOnce(server, cfg, instances, p.tokens, p.planned);
    WritesSeparate(server, cfg, instances, p.tokens, p.planned);
    ByConversationIsOrder();
    SortSorts(ws, ByConversation);
    StrictLedger(ws, writes);
    assert writes == [] || writes[0] in writes;
  }

  lemma SameKeySameEntry(writes: seq<ConversationWrite>, i: nat, j: nat)
    requires Separates(ByConversation, writes) && i < |writes| && j < |writes|
    ensures writes[i].conversationId == writes[j].conversationId ==> writes[i] == writes[j]
  {
    KeySelf(writes[i].conversationId);
  }

  lemma StrictLedger(ws: seq<ConversationWrite>, writes: seq<ConversationWrite>)
    requires multiset(ws) == multiset(writes) && NoDup(ws) && Separates(ByConversation, ws)
    requires Sorted(ByConversation, writes)
    ensures forall i, j :: 0 <= i < j < |writes| ==>
              && KeyAtMost(writes[i].conversationId, writes[j].conversationId)
              && writes[i].conversationId != writes[j].conversationId
  {
    SeparatesPermuted(ws, writes, ByConversation);
    assert NoDup(writes);
    forall i, j | 0 <= i < j < |writes|
      ensures KeyAtMost(writes[i].conversationId, writes[j].conversationId)
      ensures writes[i].conversationId != writes[j].conversationId
    {
      NoDupApart(writes, i, j);
      assert ByConversation(writes[i], writes[j]);
      SameKeySameEntry(writes, i, j);
    }
  }

  /** The barrier between the phases is for runs that got into some space to write. */
  lemma SomethingIngested(server: Server, cfg: Config, instances: seq<Instance>, planned: seq<Planned>)
    ensures PreparedOf(Ingested(server, cfg, instances, planned)) != [] <==>
            exists j :: 0 <= j < |planned| && Connects(server, planned[j])
  {
    var ingested := Ingested(server, cfg, instances, planned);
    var prepared := PreparedOf(ingested);
    if prepared != [] {
      assert prepared[0] in prepared;
      var j := PreparedOrigin(server, cfg, instances, planned, prepared[0]);
      EstablishedConnects(server, cfg, instances, planned[j]);
    }
    if j :| 0 <= j < |planned| && Connects(server, planned[j]) {
      EstablishedConnects(server, cfg, instances, planned[j]);
      var pre := PreparedFrom(ingested[j])[0];
      assert pre in PreparedFrom(ingested[j]);
      InFlatMap(PreparedFrom, ingested, pre);
    }
  }

  // ---- which questions have a line ----

  /** A question has a line unless the run only lists memories and reached its conversation both times. */
  lemma LineExactly(server: Server, cfg: Config, instances: seq<Instance>, admin: Admin, idx: nat)
    ensures var p := PlanOf(instances, cfg.mode, admin);
            idx in Order(server, cfg, instances, p.tokens, p.planned) <==>
            exists j :: 0 <= j < |p.planned| && idx in p.planned[j].idxs &&
              !(cfg.verifyMemoryList && Connects(server, p.planned[j]) && Reconnects(server, p.tokens, p.planned[j]))
  {
    var p := PlanOf(instances, cfg.mode, admin);
    ReportedExactly(server, cfg, instances, admin);
    forall j | 0 <= j < |p.planned|
      ensures HasLine(server, cfg, p.tokens, IngestOne(server, cfg, instances, p.planned[j])) <==>
              !(cfg.verifyMemoryList && Connects(server, p.planned[j]) && Reconnects(server, p.tokens, p.planned[j]))
    {
      EstablishedConnects(server, cfg, instances, p.planned[j]);
    }
  }
}
